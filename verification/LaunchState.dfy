/** The store of pending LTI launches: one-shot states with a time to live, kept in memory or in
    Redis. */
module LaunchStates {
  import opened FusionTypes

  datatype Entry = Entry(nonce: string, redirectUri: string, ltiIssuer: string, issuedAt: int)

  type Entries = map<string, Entry>

  /** Calls with the clock readings they take; register takes two. */
  datatype Op =
    | Register(state: string, nonce: string, redirectUri: string, ltiIssuer: string, issued: int, now: int)
    | Consume(state: string, nonce: string, now: int)
    | Peek(state: string, now: int)
    | Purge(now: int)

  datatype Outcome =
    | Registered
    | Refused                                      // empty state or nonce at registration
    | Success(redirectUri: string, ltiIssuer: string)
    | Missing
    | Expired
    | NonceMismatch
    | Peeked(issuer: Option<string>)
    | Purged(count: nat)

  predicate TooOld(e: Entry, now: int, ttl: int) {
    now - e.issuedAt > ttl
  }

  function Live(m: Entries, now: int, ttl: int): (r: Entries)
    ensures forall s :: s in r <==> s in m && !TooOld(m[s], now, ttl)
    ensures forall s :: s in r ==> r[s] == m[s]
  {
    map s | s in m && !TooOld(m[s], now, ttl) :: m[s]
  }

  predicate WellFormed(op: Op)
    requires op.Register?
  {
    op.state != "" && op.nonce != ""
  }

  function EntryOf(op: Op): Entry
    requires op.Register?
  {
    Entry(op.nonce, op.redirectUri, op.ltiIssuer, op.issued)
  }

  // -------------------------------------------------------------------------
  // One call
  // -------------------------------------------------------------------------

  function ConsumeOp(m: Entries, state: string, nonce: string, now: int, ttl: int): (Entries, Outcome) {
    if state == "" || state !in m then (m, Missing)
    else if TooOld(m[state], now, ttl) then (m - {state}, Expired)
    else if m[state].nonce != nonce then (m, NonceMismatch)
    else (m - {state}, Success(m[state].redirectUri, m[state].ltiIssuer))
  }

  /** The in-memory store: expired entries are purged by register, peek and purge. */
  function MemoryOp(m: Entries, op: Op, ttl: int): (Entries, Outcome) {
    match op
    case Register(state, _, _, _, _, now) =>
      if WellFormed(op) then (Live(m, now, ttl)[state := EntryOf(op)], Registered) else (m, Refused)
    case Consume(state, nonce, now) => ConsumeOp(m, state, nonce, now, ttl)
    case Peek(state, now) =>
      var live := Live(m, now, ttl);
      (live, Peeked(if state in live then Some(live[state].ltiIssuer) else None))
    case Purge(now) => (Live(m, now, ttl), Purged(|m.Keys - Live(m, now, ttl).Keys|))
  }

  /** The reference: entries stay until they are consumed, found expired, or replaced. */
  function IdealOp(m: Entries, op: Op, ttl: int): (Entries, Outcome) {
    match op
    case Register(state, _, _, _, _, now) => if WellFormed(op) then (m[state := EntryOf(op)], Registered) else (m, Refused)
    case Consume(state, nonce, now) => ConsumeOp(m, state, nonce, now, ttl)
    case Peek(state, now) =>
      (m, Peeked(if state in m && !TooOld(m[state], now, ttl) then Some(m[state].ltiIssuer) else None))
    case Purge(now) => (m, Purged(0))
  }

  function Start(op: Op): int {
    if op.Register? then op.issued else op.now
  }

  /** The clock never goes back, within a call or from one call to the next. */
  predicate ClockForward(ops: seq<Op>) {
    && (forall i :: 0 <= i < |ops| ==> Start(ops[i]) <= ops[i].now)
    && (forall i, j :: 0 <= i < j < |ops| ==> ops[i].now <= Start(ops[j]))
  }

  function Memory(ops: seq<Op>, ttl: int): Entries {
    if |ops| == 0 then map[] else MemoryOp(Memory(ops[..|ops| - 1], ttl), ops[|ops| - 1], ttl).0
  }

  function Ideal(ops: seq<Op>, ttl: int): Entries {
    if |ops| == 0 then map[] else IdealOp(Ideal(ops[..|ops| - 1], ttl), ops[|ops| - 1], ttl).0
  }

  // -------------------------------------------------------------------------
  // Purging only ever turns Expired into Missing
  // -------------------------------------------------------------------------

  /** a is b without some of its entries, all of them too old at time t. */
  predicate Thinner(a: Entries, b: Entries, t: int, ttl: int) {
    && (forall s :: s in a ==> s in b && a[s] == b[s])
    && (forall s :: s in b && s !in a ==> TooOld(b[s], t, ttl))
  }

  predicate SameOrMissing(r: Outcome, reference: Outcome) {
    r == reference || (reference == Expired && r == Missing) || (r.Purged? && reference.Purged?)
  }

  lemma {:induction false} LaterThinner(a: Entries, b: Entries, t: int, t': int, ttl: int)
    requires Thinner(a, b, t, ttl) && t <= t'
    ensures Thinner(a, b, t', ttl)
  {
  }

  lemma {:induction false} LiveThinner(a: Entries, b: Entries, t: int, ttl: int)
    requires Thinner(a, b, t, ttl)
    ensures Thinner(Live(a, t, ttl), b, t, ttl)
  {
    hide Live;
  }

  lemma {:induction false} PeekSame(a: Entries, b: Entries, state: string, t: int, ttl: int)
    requires Thinner(a, b, t, ttl)
    ensures state in Live(a, t, ttl) <==> state in b && !TooOld(b[state], t, ttl)
    ensures state in Live(a, t, ttl) ==> Live(a, t, ttl)[state] == b[state]
  {
    hide Live;
  }

  lemma {:induction false} ConsumeThinner(a: Entries, b: Entries, state: string, nonce: string, t: int, ttl: int)
    requires Thinner(a, b, t, ttl)
    ensures Thinner(ConsumeOp(a, state, nonce, t, ttl).0, ConsumeOp(b, state, nonce, t, ttl).0, t, ttl)
    ensures SameOrMissing(ConsumeOp(a, state, nonce, t, ttl).1, ConsumeOp(b, state, nonce, t, ttl).1)
  {
  }

  lemma {:induction false} RegisterThinner(a: Entries, b: Entries, state: string, e: Entry, t: int, ttl: int)
    requires Thinner(a, b, t, ttl)
    ensures Thinner(a[state := e], b[state := e], t, ttl)
  {
  }

  /** The in-memory store against the reference, one call. */
  lemma {:induction false} MemoryStep(a: Entries, b: Entries, op: Op, t: int, ttl: int)
    requires Thinner(a, b, t, ttl) && t <= Start(op) <= op.now
    ensures Thinner(MemoryOp(a, op, ttl).0, IdealOp(b, op, ttl).0, op.now, ttl)
    ensures SameOrMissing(MemoryOp(a, op, ttl).1, IdealOp(b, op, ttl).1)
  {
    hide Live, Thinner, ConsumeOp, TooOld;
    LaterThinner(a, b, t, op.now, ttl);
    LiveThinner(a, b, op.now, ttl);
    match op
    case Register(state, _, _, _, _, now) => RegisterThinner(Live(a, now, ttl), b, state, EntryOf(op), now, ttl);
    case Consume(state, nonce, now) => ConsumeThinner(a, b, state, nonce, now, ttl);
    case Peek(state, now) =>
      PeekSame(a, b, state, now, ttl);
    case Purge(now) =>
  }

  /** Two in-memory stores, one of which was purged more often, one call. */
  lemma {:induction false} BothStep(a: Entries, b: Entries, op: Op, t: int, ttl: int)
    requires Thinner(a, b, t, ttl) && t <= Start(op) <= op.now
    ensures Thinner(MemoryOp(a, op, ttl).0, MemoryOp(b, op, ttl).0, op.now, ttl)
    ensures SameOrMissing(MemoryOp(a, op, ttl).1, MemoryOp(b, op, ttl).1)
  {
    hide Live, Thinner, ConsumeOp, TooOld;
    LaterThinner(a, b, t, op.now, ttl);
    LiveAlike(a, b, op.now, ttl);
    match op
    case Register(state, _, _, _, _, now) =>
      RegisterThinner(Live(a, now, ttl), Live(b, now, ttl), state, EntryOf(op), now, ttl);
    case Consume(state, nonce, now) => ConsumeThinner(a, b, state, nonce, now, ttl);
    case Peek(state, now) =>
    case Purge(now) =>
  }

  lemma {:induction false} LiveAlike(a: Entries, b: Entries, t: int, ttl: int)
    requires Thinner(a, b, t, ttl)
    ensures Live(a, t, ttl) == Live(b, t, ttl)
    ensures Thinner(Live(a, t, ttl), Live(b, t, ttl), t, ttl)
  {
    hide Live;
  }

  /** Whatever the calls, the store is the reference without some entries that are too old. */
  lemma {:induction false} MemoryIsThinner(ops: seq<Op>, t: int, ttl: int)
    requires ClockForward(ops) && (|ops| > 0 ==> ops[|ops| - 1].now <= t)
    ensures Thinner(Memory(ops, ttl), Ideal(ops, ttl), t, ttl)
    decreases |ops|
  {
    if |ops| > 0 {
      var front, op := ops[..|ops| - 1], ops[|ops| - 1];
      assert |front| > 0 ==> front[|front| - 1] == ops[|ops| - 2] && ops[|ops| - 2].now <= Start(op);
      hide MemoryOp, IdealOp, Thinner;
      MemoryIsThinner(front, Start(op), ttl);
      MemoryStep(Memory(front, ttl), Ideal(front, ttl), op, Start(op), ttl);
      LaterThinner(Memory(ops, ttl), Ideal(ops, ttl), op.now, t, ttl);
    }
  }

  /** The answer of the i-th call, from the in-memory store and from the reference. */
  function MemoryResult(ops: seq<Op>, i: nat, ttl: int): Outcome
    requires i < |ops|
  {
    MemoryOp(Memory(ops[..i], ttl), ops[i], ttl).1
  }

  function IdealResult(ops: seq<Op>, i: nat, ttl: int): Outcome
    requires i < |ops|
  {
    IdealOp(Ideal(ops[..i], ttl), ops[i], ttl).1
  }

  /** Purge transparency: in any interleaving of calls, every answer is the one of a store that
      never purges, except that Expired may have become Missing. */
  lemma {:induction false} PurgeTransparent(ops: seq<Op>, i: nat, ttl: int)
    requires ClockForward(ops) && i < |ops|
    ensures SameOrMissing(MemoryResult(ops, i, ttl), IdealResult(ops, i, ttl))
  {
    var front := ops[..i];
    assert |front| > 0 ==> front[|front| - 1] == ops[i - 1] && ops[i - 1].now <= Start(ops[i]);
    MemoryIsThinner(front, Start(ops[i]), ttl);
    MemoryStep(Memory(front, ttl), Ideal(front, ttl), ops[i], Start(ops[i]), ttl);
  }

  lemma {:induction false} ClockPrefix(ops: seq<Op>, n: nat)
    requires ClockForward(ops) && n <= |ops|
    ensures ClockForward(ops[..n])
    ensures 0 < n < |ops| ==> ops[..n][n - 1].now <= Start(ops[n]) <= ops[n].now
  {
  }

  lemma {:induction false} MemoryNext(ops: seq<Op>, op: Op, ttl: int)
    ensures Memory(ops + [op], ttl) == MemoryOp(Memory(ops, ttl), op, ttl).0
  {
    hide MemoryOp;
    assert (ops + [op])[..|ops|] == ops;
  }

  /** After a purge put in anywhere, the store stays one without some entries that are too old. */
  lemma {:induction false} PurgedMore(before: seq<Op>, purge: Op, after: seq<Op>, t: int, ttl: int)
    requires purge.Purge? && ClockForward(before + [purge] + after) && (before + [purge] + after)[|before| + |after|].now <= t
    ensures Thinner(Memory(before + [purge] + after, ttl), Memory(before + after, ttl), t, ttl)
    decreases |after|
  {
    hide MemoryOp, Thinner, Memory, Live;
    var m := Memory(before, ttl);
    if |after| == 0 {
      assert before + [purge] + after == before + [purge] && before + after == before;
      MemoryNext(before, purge, ttl);
      SelfThinner(m, t, purge.now, ttl);
    } else {
      var front, op := after[..|after| - 1], after[|after| - 1];
      var a, b := before + [purge] + front, before + front;
      assert before + [purge] + after == a + [op] && before + after == b + [op];
      ClockPrefix(a + [op], |a|);
      assert (a + [op])[..|a|] == a && (a + [op])[|a|] == op;
      PurgedMore(before, purge, front, Start(op), ttl);
      MemoryNext(a, op, ttl);
      MemoryNext(b, op, ttl);
      BothStep(Memory(a, ttl), Memory(b, ttl), op, Start(op), ttl);
      LaterThinner(Memory(a + [op], ttl), Memory(b + [op], ttl), op.now, t, ttl);
    }
  }

  lemma {:induction false} SelfThinner(m: Entries, t: int, now: int, ttl: int)
    requires now <= t
    ensures Thinner(MemoryOp(m, Purge(now), ttl).0, m, t, ttl)
  {
    hide Live;
  }

  /** Putting one more purge anywhere into a history changes no later answer, except from Expired
      to Missing. */
  lemma {:induction false} ExtraPurge(before: seq<Op>, purge: Op, after: seq<Op>, op: Op, ttl: int)
    requires purge.Purge? && ClockForward(before + [purge] + after + [op])
    ensures SameOrMissing(
      MemoryResult(before + [purge] + after + [op], |before| + |after| + 1, ttl),
      MemoryResult(before + after + [op], |before| + |after|, ttl))
  {
    hide MemoryOp, Thinner, Memory;
    var a, b := before + [purge] + after, before + after;
    ClockPrefix(a + [op], |a|);
    assert (a + [op])[..|a|] == a && (a + [op])[|a|] == op && (b + [op])[..|b|] == b;
    PurgedMore(before, purge, after, Start(op), ttl);
    BothStep(Memory(a, ttl), Memory(b, ttl), op, Start(op), ttl);
  }

  // -------------------------------------------------------------------------
  // One-shot: what the reference holds, in terms of the history
  // -------------------------------------------------------------------------

  /** The latest accepted registration of a state. */
  function Latest(ops: seq<Op>, state: string): (r: Option<nat>)
    ensures r.Some? ==> r.value < |ops| && ops[r.value].Register? && ops[r.value].state == state && WellFormed(ops[r.value])
    ensures forall i :: (if r.Some? then r.value + 1 else 0) <= i < |ops| ==>
      !(ops[i].Register? && ops[i].state == state && WellFormed(ops[i]))
  {
    if |ops| == 0 then None
    else
      var op := ops[|ops| - 1];
      if op.Register? && op.state == state && WellFormed(op) then Some(|ops| - 1) else Latest(ops[..|ops| - 1], state)
  }

  /** Call j asks for the state registered by call r. */
  predicate Asks(ops: seq<Op>, r: nat, j: nat)
    requires r < j < |ops| && ops[r].Register?
  {
    ops[j].Consume? && ops[j].state == ops[r].state
  }

  /** A call after r consumed it: right nonce, in time. */
  predicate Used(ops: seq<Op>, r: nat, ttl: int)
    requires r < |ops| && ops[r].Register?
  {
    exists j :: r < j < |ops| && Asks(ops, r, j) && ops[j].nonce == ops[r].nonce && ops[j].now - ops[r].issued <= ttl
  }

  predicate FoundExpired(ops: seq<Op>, r: nat, ttl: int)
    requires r < |ops| && ops[r].Register?
  {
    exists j :: r < j < |ops| && Asks(ops, r, j) && ops[j].now - ops[r].issued > ttl
  }

  lemma {:induction false} IdealHolds(ops: seq<Op>, state: string, ttl: int)
    ensures state in Ideal(ops, ttl) <==>
      var r := Latest(ops, state); r.Some? && !Used(ops, r.value, ttl) && !FoundExpired(ops, r.value, ttl)
    ensures state in Ideal(ops, ttl) ==>
      state != "" && Latest(ops, state).Some? && Ideal(ops, ttl)[state] == EntryOf(ops[Latest(ops, state).value])
  {
    if |ops| > 0 {
      var front, op := ops[..|ops| - 1], ops[|ops| - 1];
      IdealHolds(front, state, ttl);
      var r := Latest(front, state);
      if r.Some? && Latest(ops, state) == r {
        UsedStep(ops, r.value, ttl);
      }
    }
  }

  lemma {:induction false} UsedStep(ops: seq<Op>, r: nat, ttl: int)
    requires r < |ops| - 1 && ops[r].Register?
    ensures var front, last := ops[..|ops| - 1], ops[|ops| - 1];
      && (Used(ops, r, ttl) <==>
            (Used(front, r, ttl) ||
             (Asks(ops, r, |ops| - 1) && last.nonce == ops[r].nonce && last.now - ops[r].issued <= ttl)))
      && (FoundExpired(ops, r, ttl) <==>
            (FoundExpired(front, r, ttl) || (Asks(ops, r, |ops| - 1) && last.now - ops[r].issued > ttl)))
  {
    var front, n := ops[..|ops| - 1], |ops| - 1;
    assert forall j :: r < j < n ==> (Asks(ops, r, j) <==> Asks(front, r, j));
    if Used(ops, r, ttl) {
      var j :| r < j < |ops| && Asks(ops, r, j) && ops[j].nonce == ops[r].nonce && ops[j].now - ops[r].issued <= ttl;
      assert j < n ==> Asks(front, r, j);
    }
    if FoundExpired(ops, r, ttl) {
      var j :| r < j < |ops| && Asks(ops, r, j) && ops[j].now - ops[r].issued > ttl;
      assert j < n ==> Asks(front, r, j);
    }
    if Used(front, r, ttl) {
      var j :| r < j < n && Asks(front, r, j) && front[j].nonce == front[r].nonce && front[j].now - front[r].issued <= ttl;
      assert Asks(ops, r, j);
    }
    if FoundExpired(front, r, ttl) {
      var j :| r < j < n && Asks(front, r, j) && front[j].now - front[r].issued > ttl;
      assert Asks(ops, r, j);
    }
  }

  /** One-shot: a consume succeeds exactly when the state has a registration, the latest one has
      not been consumed, is no older than the time to live, and carries the nonce; and it answers
      with what was registered. */
  lemma {:induction false} ConsumeSucceedsWhen(ops: seq<Op>, i: nat, ttl: int)
    requires ClockForward(ops) && i < |ops| && ops[i].Consume?
    ensures var r := Latest(ops[..i], ops[i].state);
      && (MemoryResult(ops, i, ttl).Success? <==>
            && r.Some? && !Used(ops[..i], r.value, ttl)
            && ops[i].now - ops[r.value].issued <= ttl && ops[i].nonce == ops[r.value].nonce)
      && (MemoryResult(ops, i, ttl).Success? ==>
            MemoryResult(ops, i, ttl) == Success(ops[r.value].redirectUri, ops[r.value].ltiIssuer))
  {
    hide Memory, Ideal, MemoryOp, Latest, Used;
    var front, r := ops[..i], Latest(ops[..i], ops[i].state);
    PurgeTransparent(ops, i, ttl);
    IdealHolds(front, ops[i].state, ttl);
    if r.Some? && FoundExpired(front, r.value, ttl) {
      var j :| r.value < j < i && Asks(front, r.value, j) && front[j].now - front[r.value].issued > ttl;
      assert ops[j].now <= Start(ops[i]);
    }
  }

  /** A registration is refused exactly for an empty state or nonce. */
  lemma {:induction false} RefusesWhen(ops: seq<Op>, i: nat, ttl: int)
    requires i < |ops| && ops[i].Register?
    ensures MemoryResult(ops, i, ttl) == if ops[i].state == "" || ops[i].nonce == "" then Refused else Registered
  {
  }

  /** Peeking answers with the issuer of the latest registration exactly if it has not been consumed
      and is no older than the time to live. */
  lemma {:induction false} PeekAnswers(ops: seq<Op>, i: nat, ttl: int)
    requires ClockForward(ops) && i < |ops| && ops[i].Peek?
    ensures var r := Latest(ops[..i], ops[i].state);
      MemoryResult(ops, i, ttl) == Peeked(
        if r.Some? && !Used(ops[..i], r.value, ttl) && ops[i].now - ops[r.value].issued <= ttl then
          Some(ops[r.value].ltiIssuer)
        else None)
  {
    hide Memory, Ideal, MemoryOp, Latest, Used;
    var front, r := ops[..i], Latest(ops[..i], ops[i].state);
    PurgeTransparent(ops, i, ttl);
    IdealHolds(front, ops[i].state, ttl);
    if r.Some? && FoundExpired(front, r.value, ttl) {
      var j :| r.value < j < i && Asks(front, r.value, j) && front[j].now - front[r.value].issued > ttl;
      assert ops[j].now <= Start(ops[i]);
    }
  }

  /** Why a consume fails: with another nonce than that of a pending registration in time it is a
      mismatch; otherwise there is no pending registration, or it is too old. */
  lemma {:induction false} ConsumeFailsWhen(ops: seq<Op>, i: nat, ttl: int)
    requires ClockForward(ops) && i < |ops| && ops[i].Consume?
    ensures var r, answer := Latest(ops[..i], ops[i].state), MemoryResult(ops, i, ttl);
      var pending := r.Some? && !Used(ops[..i], r.value, ttl);
      && (answer == NonceMismatch <==>
            pending && ops[i].now - ops[r.value].issued <= ttl && ops[i].nonce != ops[r.value].nonce)
      && (answer == Expired ==> pending && ops[i].now - ops[r.value].issued > ttl)
      && (answer.Success? || answer == NonceMismatch || answer == Expired || answer == Missing)
      && (answer == Missing ==> !pending || ops[i].now - ops[r.value].issued > ttl)
  {
    hide Memory, Ideal, Latest, Used, FoundExpired, Live;
    var front, r := ops[..i], Latest(ops[..i], ops[i].state);
    ClockPrefix(ops, i);
    MemoryIsThinner(front, Start(ops[i]), ttl);
    IdealHolds(front, ops[i].state, ttl);
    ExpiredEarlier(ops, i, ttl);
  }

  /** A registration found expired once is too old from then on. */
  lemma {:induction false} ExpiredEarlier(ops: seq<Op>, i: nat, ttl: int)
    requires ClockForward(ops) && i < |ops| && ops[i].Consume?
    ensures var r := Latest(ops[..i], ops[i].state);
      r.Some? && FoundExpired(ops[..i], r.value, ttl) ==> ops[i].now - ops[r.value].issued > ttl
  {
    hide Latest;
    var front, r := ops[..i], Latest(ops[..i], ops[i].state);
    if r.Some? && FoundExpired(front, r.value, ttl) {
      var j :| r.value < j < i && Asks(front, r.value, j) && front[j].now - front[r.value].issued > ttl;
      assert ops[j].now <= Start(ops[i]);
    }
  }

  /** A wrong nonce consumes nothing: the store is as it was. */
  lemma {:induction false} MismatchConsumesNothing(ops: seq<Op>, i: nat, ttl: int)
    requires i < |ops| && MemoryResult(ops, i, ttl) == NonceMismatch
    ensures Memory(ops[..i + 1], ttl) == Memory(ops[..i], ttl)
    ensures ops[i].state in Memory(ops[..i], ttl)
  {
    assert ops[..i + 1][..i] == ops[..i];
  }

  lemma {:induction false} LatestUnchanged(ops: seq<Op>, i: nat, j: nat, state: string)
    requires i <= j <= |ops|
    requires forall k :: i <= k < j ==> !(ops[k].Register? && ops[k].state == state)
    ensures Latest(ops[..j], state) == Latest(ops[..i], state)
    decreases j
  {
    if i < j {
      assert ops[..j][..j - 1] == ops[..j - 1] && ops[..j][j - 1] == ops[j - 1];
      LatestUnchanged(ops, i, j - 1, state);
    }
  }

  /** After a wrong nonce the platform can retry: unless the state is registered anew or consumed in
      between, a later consume with the right nonce, in time, succeeds. */
  lemma {:induction false} RetryAfterMismatch(ops: seq<Op>, i: nat, j: nat, ttl: int)
    requires ClockForward(ops) && i < j < |ops|
    requires ops[i].Consume? && MemoryResult(ops, i, ttl) == NonceMismatch
    requires Latest(ops[..i], ops[i].state).Some?
    requires var r := ops[Latest(ops[..i], ops[i].state).value];
      && ops[j].Consume? && ops[j].state == ops[i].state && ops[j].nonce == r.nonce && ops[j].now - r.issued <= ttl
      && forall k :: i < k < j ==>
           && !(ops[k].Register? && ops[k].state == ops[i].state)
           && !(ops[k].Consume? && ops[k].state == ops[i].state && ops[k].nonce == r.nonce)
    ensures MemoryResult(ops, j, ttl).Success?
  {
    hide Memory, Ideal, MemoryOp, MemoryResult, Latest, Used;
    var r := Latest(ops[..i], ops[i].state).value;
    LatestUnchanged(ops, i, j, ops[i].state);
    MismatchMeans(ops, i, ttl);
    StillUnused(ops, i, j, r, ttl);
    ConsumeSucceedsWhen(ops, j, ttl);
  }

  /** A mismatch is answered only for a pending registration with another nonce. */
  lemma {:induction false} MismatchMeans(ops: seq<Op>, i: nat, ttl: int)
    requires ClockForward(ops) && i < |ops| && ops[i].Consume? && MemoryResult(ops, i, ttl) == NonceMismatch
    ensures var r := Latest(ops[..i], ops[i].state);
      r.Some? && !Used(ops[..i], r.value, ttl) && ops[i].nonce != ops[r.value].nonce
  {
    hide Memory, Ideal, Latest, Used, FoundExpired;
    var front := ops[..i];
    ClockPrefix(ops, i);
    MemoryIsThinner(front, Start(ops[i]), ttl);
    IdealHolds(front, ops[i].state, ttl);
  }

  lemma {:induction false} StillUnused(ops: seq<Op>, i: nat, j: nat, r: nat, ttl: int)
    requires r < i < j <= |ops| && ops[r].Register? && !Used(ops[..i], r, ttl)
    requires forall k :: i <= k < j ==> !(ops[k].Consume? && ops[k].state == ops[r].state && ops[k].nonce == ops[r].nonce)
    ensures !Used(ops[..j], r, ttl)
  {
    var a, b := ops[..i], ops[..j];
    forall k | r < k < j && Asks(b, r, k) && b[k].nonce == b[r].nonce && b[k].now - b[r].issued <= ttl
      ensures false
    {
      assert b[k] == ops[k];
      assert k < i ==> a[k] == ops[k] && Asks(a, r, k);
    }
  }

  // -------------------------------------------------------------------------
  // The in-memory store
  // -------------------------------------------------------------------------

  function Without(m: Entries, gone: set<string>): Entries {
    m - gone
  }

  lemma {:induction false} NothingDeleted(m: Entries, expired: set<string>)
    ensures Without(m, expired - expired) == m
  {
    assert expired - expired == {};
  }

  lemma {:induction false} OneMoreDeleted(m: Entries, expired: set<string>, left: set<string>, s: string)
    requires s in left && left <= expired
    ensures Without(m, expired - left) - {s} == Without(m, expired - (left - {s}))
  {
    assert expired - (left - {s}) == (expired - left) + {s};
  }

  lemma {:induction false} AllDeleted(m: Entries, now: int, ttl: int)
    ensures var expired := set s | s in m && TooOld(m[s], now, ttl);
      && Without(m, expired - {}) == Live(m, now, ttl)
      && |expired| == |m.Keys - Live(m, now, ttl).Keys|
  {
    var expired := set s | s in m && TooOld(m[s], now, ttl);
    assert m.Keys - Live(m, now, ttl).Keys == expired;
    assert expired - {} == expired;
  }

  /** A purge answers with the number of entries older than the time to live, and leaves the others. */
  lemma {:induction false} PurgeCounts(m: Entries, now: int, ttl: int)
    ensures var (m', outcome) := MemoryOp(m, Purge(now), ttl);
      && outcome == Purged(|set s | s in m && now - m[s].issuedAt > ttl|)
      && (forall s :: s in m' <==> s in m && now - m[s].issuedAt <= ttl)
      && (forall s :: s in m' ==> m'[s] == m[s])
  {
    AllDeleted(m, now, ttl);
    assert (set s | s in m && TooOld(m[s], now, ttl)) == set s | s in m && now - m[s].issuedAt > ttl;
  }

  class InMemoryLaunchStateStore {
    const ttl: int
    var entries: Entries

    constructor (ttl: int)
      ensures this.ttl == ttl && entries == map[]
    {
      this.ttl := ttl;
      entries := map[];
    }

    /** A non-positive time to live is refused. */
    static method Create(ttl: int) returns (store: Option<InMemoryLaunchStateStore>)
      ensures store.Some? <==> 0 < ttl
      ensures store.Some? ==> fresh(store.value) && store.value.ttl == ttl && store.value.entries == map[]
    {
      if ttl <= 0 {
        return None;
      }
      var s := new InMemoryLaunchStateStore(ttl);
      store := Some(s);
    }

    method RegisterLaunch(state: string, nonce: string, redirectUri: string, ltiIssuer: string, issued: int, now: int)
      returns (outcome: Outcome)
      modifies this
      ensures (entries, outcome) == MemoryOp(old(entries), Register(state, nonce, redirectUri, ltiIssuer, issued, now), ttl)
    {
      if state == "" || nonce == "" {
        return Refused;
      }
      var entry := Entry(nonce, redirectUri, ltiIssuer, issued);
      var count := PurgeExpiredLocked(now);
      entries := entries[state := entry];
      outcome := Registered;
    }

    method ConsumeLaunch(state: string, nonce: string, now: int) returns (outcome: Outcome)
      modifies this
      ensures (entries, outcome) == MemoryOp(old(entries), Consume(state, nonce, now), ttl)
    {
      if state == "" {
        return Missing;
      }
      if state !in entries {
        return Missing;
      }
      var entry := entries[state];
      if now - entry.issuedAt > ttl {
        entries := entries - {state};
        return Expired;
      }
      if entry.nonce != nonce {
        return NonceMismatch;
      }
      entries := entries - {state};
      outcome := Success(entry.redirectUri, entry.ltiIssuer);
    }

    method PeekIssuer(state: string, now: int) returns (outcome: Outcome)
      modifies this
      ensures (entries, outcome) == MemoryOp(old(entries), Peek(state, now), ttl)
    {
      var count := PurgeExpiredLocked(now);
      outcome := Peeked(if state in entries then Some(entries[state].ltiIssuer) else None);
    }

    method PurgeExpired(now: int) returns (outcome: Outcome)
      modifies this
      ensures (entries, outcome) == MemoryOp(old(entries), Purge(now), ttl)
    {
      var count := PurgeExpiredLocked(now);
      outcome := Purged(count);
    }

    /** Collects the expired states, then deletes them one by one. */
    method PurgeExpiredLocked(now: int) returns (count: nat)
      modifies this
      ensures entries == Live(old(entries), now, ttl)
      ensures count == |old(entries).Keys - entries.Keys|
    {
      var expired := set s | s in entries && TooOld(entries[s], now, ttl);
      count := |expired|;
      var left := expired;
      ghost var before := entries;
      NothingDeleted(before, expired);
      while left != {}
        invariant left <= expired
        invariant entries == Without(before, expired - left)
        decreases |left|
      {
        var s :| s in left;
        OneMoreDeleted(before, expired, left, s);
        left := left - {s};
        entries := entries - {s};
      }
      AllDeleted(before, now, ttl);
    }
  }

  // -------------------------------------------------------------------------
  // The Redis store
  // -------------------------------------------------------------------------

  /** A stored payload and the time after which the server no longer returns it. */
  datatype Payload = Payload(nonce: string, redirectUri: string, ltiIssuer: string)

  datatype Stored = Stored(payload: Payload, deadline: int)

  function Get(keys: map<string, Stored>, key: string, now: int): Option<Payload> {
    if key in keys && now <= keys[key].deadline then Some(keys[key].payload) else None
  }

  function Key(prefix: string, state: string): string {
    prefix + ":" + state
  }

  class RedisLaunchStateStore {
    const ttl: int
    const keyPrefix: string
    var keys: map<string, Stored>

    constructor (ttl: int, keyPrefix: string)
      ensures this.ttl == ttl && this.keyPrefix == keyPrefix && keys == map[]
    {
      this.ttl, this.keyPrefix := ttl, keyPrefix;
      keys := map[];
    }

    /** A non-positive time to live and an empty prefix are refused. */
    static method Create(ttl: int, keyPrefix: string) returns (store: Option<RedisLaunchStateStore>)
      ensures store.Some? <==> 0 < ttl && keyPrefix != ""
      ensures store.Some? ==>
        fresh(store.value) && store.value.ttl == ttl && store.value.keyPrefix == keyPrefix && store.value.keys == map[]
    {
      if ttl <= 0 || keyPrefix == "" {
        return None;
      }
      var s := new RedisLaunchStateStore(ttl, keyPrefix);
      store := Some(s);
    }

    method RegisterLaunch(state: string, nonce: string, redirectUri: string, ltiIssuer: string, now: int)
      returns (outcome: Outcome)
      modifies this
      ensures (keys, outcome) ==
        RedisOp(old(keys), keyPrefix, Register(state, nonce, redirectUri, ltiIssuer, now, now), ttl)
    {
      if state == "" || nonce == "" {
        return Refused;
      }
      keys := keys[Key(keyPrefix, state) := Stored(Payload(nonce, redirectUri, ltiIssuer), now + ttl)];
      outcome := Registered;
    }

    /** The script runs as one command: GET, compare, DEL. */
    method ConsumeLaunch(state: string, nonce: string, now: int) returns (outcome: Outcome)
      modifies this
      ensures (keys, outcome) == RedisOp(old(keys), keyPrefix, Consume(state, nonce, now), ttl)
    {
      if state == "" {
        return Missing;
      }
      var raw := Get(keys, Key(keyPrefix, state), now);
      if raw == None {
        return Missing;
      }
      if raw.value.nonce != nonce {
        return NonceMismatch;
      }
      keys := keys - {Key(keyPrefix, state)};
      outcome := Success(raw.value.redirectUri, raw.value.ltiIssuer);
    }

    method PeekIssuer(state: string, now: int) returns (outcome: Outcome)
      ensures (keys, outcome) == RedisOp(keys, keyPrefix, Peek(state, now), ttl)
    {
      if state == "" {
        return Peeked(None);
      }
      var raw := Get(keys, Key(keyPrefix, state), now);
      outcome := Peeked(if raw == None then None else Some(raw.value.ltiIssuer));
    }

    /** A no-op: the server expires keys itself. */
    method PurgeExpired(now: int) returns (outcome: Outcome)
      ensures (keys, outcome) == RedisOp(keys, keyPrefix, Purge(now), ttl)
    {
      outcome := Purged(0);
    }
  }

  function ConsumeScript(keys: map<string, Stored>, key: string, state: string, nonce: string, now: int)
    : (map<string, Stored>, Outcome)
  {
    var raw := Get(keys, key, now);
    if state == "" || raw == None then (keys, Missing)
    else if raw.value.nonce != nonce then (keys, NonceMismatch)
    else (keys - {key}, Success(raw.value.redirectUri, raw.value.ltiIssuer))
  }

  /** One call on the Redis keys. Its register takes one clock reading, on the server. */
  function RedisOp(keys: map<string, Stored>, prefix: string, op: Op, ttl: int): (map<string, Stored>, Outcome) {
    match op
    case Register(state, nonce, uri, issuer, issued, _) =>
      if WellFormed(op) then (keys[Key(prefix, state) := Stored(Payload(nonce, uri, issuer), issued + ttl)], Registered)
      else (keys, Refused)
    case Consume(state, nonce, now) => ConsumeScript(keys, Key(prefix, state), state, nonce, now)
    case Peek(state, now) =>
      var raw := Get(keys, Key(prefix, state), now);
      (keys, Peeked(if state != "" && raw.Some? then Some(raw.value.ltiIssuer) else None))
    case Purge(now) => (keys, Purged(0))
  }

  function Redis(ops: seq<Op>, prefix: string, ttl: int): map<string, Stored> {
    if |ops| == 0 then map[] else RedisOp(Redis(ops[..|ops| - 1], prefix, ttl), prefix, ops[|ops| - 1], ttl).0
  }

  function RedisResult(ops: seq<Op>, prefix: string, i: nat, ttl: int): Outcome
    requires i < |ops|
  {
    RedisOp(Redis(ops[..i], prefix, ttl), prefix, ops[i], ttl).1
  }

  /** The key of a state is readable at time t exactly when the reference holds the state and it
      is not too old, and then it has the same contents and expires at the same time. */
  predicate Mirrors(keys: map<string, Stored>, prefix: string, b: Entries, s: string, t: int, ttl: int) {
    var key := Key(prefix, s);
    && ((key in keys && t <= keys[key].deadline) <==> (s in b && !TooOld(b[s], t, ttl)))
    && (key in keys && t <= keys[key].deadline && s in b ==>
          keys[key] == Stored(Payload(b[s].nonce, b[s].redirectUri, b[s].ltiIssuer), b[s].issuedAt + ttl))
  }

  ghost predicate AllMirror(keys: map<string, Stored>, prefix: string, b: Entries, t: int, ttl: int) {
    forall s :: Mirrors(keys, prefix, b, s, t, ttl)
  }

  lemma {:induction false} KeysDiffer(prefix: string, s: string, s': string)
    ensures Key(prefix, s) == Key(prefix, s') <==> s == s'
  {
    var n := |prefix + ":"|;
    assert Key(prefix, s)[n..] == s && Key(prefix, s')[n..] == s';
  }

  lemma {:induction false} MirrorsLater(keys: map<string, Stored>, prefix: string, b: Entries, t: int, t': int, ttl: int)
    requires AllMirror(keys, prefix, b, t, ttl) && t <= t'
    ensures AllMirror(keys, prefix, b, t', ttl)
  {
    hide Key;
    forall s
      ensures Mirrors(keys, prefix, b, s, t', ttl)
    {
      assert Mirrors(keys, prefix, b, s, t, ttl);
    }
  }

  /** The Redis store against the reference, one call. */
  lemma {:induction false} RedisStep(keys: map<string, Stored>, prefix: string, b: Entries, op: Op, ttl: int)
    requires AllMirror(keys, prefix, b, Start(op), ttl) && Start(op) <= op.now && 0 < ttl && "" !in b
    ensures AllMirror(RedisOp(keys, prefix, op, ttl).0, prefix, IdealOp(b, op, ttl).0, Start(op), ttl)
    ensures SameOrMissing(RedisOp(keys, prefix, op, ttl).1, IdealOp(b, op, ttl).1)
    ensures !RedisOp(keys, prefix, op, ttl).1.Expired? && "" !in IdealOp(b, op, ttl).0
  {
    hide Key;
    var t := Start(op);
    if !op.Purge? {
      assert Mirrors(keys, prefix, b, op.state, t, ttl);
    }
    forall s
      ensures Mirrors(RedisOp(keys, prefix, op, ttl).0, prefix, IdealOp(b, op, ttl).0, s, t, ttl)
    {
      assert Mirrors(keys, prefix, b, s, t, ttl);
      if !op.Purge? {
        KeysDiffer(prefix, s, op.state);
      }
    }
  }

  lemma {:induction false} RedisMirrors(ops: seq<Op>, prefix: string, t: int, ttl: int)
    requires ClockForward(ops) && (|ops| > 0 ==> ops[|ops| - 1].now <= t) && 0 < ttl
    ensures AllMirror(Redis(ops, prefix, ttl), prefix, Ideal(ops, ttl), t, ttl) && "" !in Ideal(ops, ttl)
    decreases |ops|
  {
    if |ops| > 0 {
      var front, op := ops[..|ops| - 1], ops[|ops| - 1];
      assert |front| > 0 ==> front[|front| - 1] == ops[|ops| - 2] && ops[|ops| - 2].now <= Start(op);
      hide RedisOp, IdealOp, AllMirror;
      RedisMirrors(front, prefix, Start(op), ttl);
      RedisStep(Redis(front, prefix, ttl), prefix, Ideal(front, ttl), op, ttl);
      MirrorsLater(Redis(ops, prefix, ttl), prefix, Ideal(ops, ttl), Start(op), t, ttl);
    }
  }

  /** The two implementations answer every call alike, except that what is Expired for the
      in-memory store may be Missing for Redis, which never answers Expired. */
  lemma {:induction false} StoresAgree(ops: seq<Op>, prefix: string, i: nat, ttl: int)
    requires ClockForward(ops) && i < |ops| && 0 < ttl
    ensures SameOrMissing(RedisResult(ops, prefix, i, ttl), IdealResult(ops, i, ttl))
    ensures SameOrMissing(RedisResult(ops, prefix, i, ttl), MemoryResult(ops, i, ttl))
    ensures !RedisResult(ops, prefix, i, ttl).Expired?
  {
    hide RedisOp, IdealOp, MemoryOp, Redis, Ideal, Memory, AllMirror;
    var front := ops[..i];
    assert |front| > 0 ==> front[|front| - 1] == ops[i - 1] && ops[i - 1].now <= Start(ops[i]);
    RedisMirrors(front, prefix, Start(ops[i]), ttl);
    RedisStep(Redis(front, prefix, ttl), prefix, Ideal(front, ttl), ops[i], ttl);
    PurgeTransparent(ops, i, ttl);
  }
}
