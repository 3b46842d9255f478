/** The bounded FIFO between the WebSocket handler and the dispatcher. */
module TelemetryBuffers {
  import opened FusionTypes

  /** A client message with its arrival number. The arrival time is not modelled. */
  datatype BufferedEvent<M> = BufferedEvent(message: M, seqNo: nat)

  datatype Op<M> = Push(message: M) | Drain

  // -------------------------------------------------------------------------
  // What a history of pushes and drains leaves behind
  // -------------------------------------------------------------------------

  /** Every message ever pushed, in order. */
  function Pushed<M>(ops: seq<Op<M>>): seq<M> {
    if |ops| == 0 then []
    else
      var last := ops[|ops| - 1];
      Pushed(ops[..|ops| - 1]) + (if last.Push? then [last.message] else [])
  }

  /** How many pushes each stretch between two drains holds; the last one is still open. */
  function Segments<M>(ops: seq<Op<M>>): (ks: seq<nat>)
    ensures |ks| > 0
  {
    if |ops| == 0 then [0]
    else
      var ks := Segments(ops[..|ops| - 1]);
      var n := |ks| - 1;
      if ops[|ops| - 1].Push? then ks[n := ks[n] + 1] else ks + [0]
  }

  /** Pushes since the last drain. */
  function Open<M>(ops: seq<Op<M>>): nat {
    var ks := Segments(ops);
    ks[|ks| - 1]
  }

  function Min(a: nat, b: nat): nat {
    if a <= b then a else b
  }

  /** The events numbered lo..hi of a history. */
  function Events<M>(ops: seq<Op<M>>, lo: nat, hi: nat): (es: seq<BufferedEvent<M>>)
    requires lo <= hi <= |Pushed(ops)|
    ensures |es| == hi - lo
    ensures forall i :: 0 <= i < |es| ==> es[i] == BufferedEvent(Pushed(ops)[lo + i], lo + i)
  {
    seq(hi - lo, i requires 0 <= i < hi - lo => BufferedEvent(Pushed(ops)[lo + i], lo + i))
  }

  lemma {:induction false} OpenIsPushed<M>(ops: seq<Op<M>>)
    ensures Open(ops) <= |Pushed(ops)|
  {
    if |ops| > 0 {
      OpenIsPushed(ops[..|ops| - 1]);
    }
  }

  /** What the buffer holds: of the k pushes since the last drain the last min(k, maxlen), each
      with its message and its number among all pushes. */
  function Held<M>(ops: seq<Op<M>>, maxlen: nat): (es: seq<BufferedEvent<M>>)
  {
    OpenIsPushed(ops);
    var n := |Pushed(ops)|;
    Events(ops, n - Min(Open(ops), maxlen), n)
  }

  /** How many of the pushes of each stretch did not fit, summed. */
  function Overflow(ks: seq<nat>, maxlen: nat): nat {
    if |ks| == 0 then 0
    else
      var k := ks[|ks| - 1];
      Overflow(ks[..|ks| - 1], maxlen) + (if k > maxlen then k - maxlen else 0)
  }

  /** Everything the drains returned, put together in order. */
  function Drained<M>(ops: seq<Op<M>>, maxlen: nat): seq<BufferedEvent<M>> {
    if |ops| == 0 then []
    else
      var front := ops[..|ops| - 1];
      Drained(front, maxlen) + (if ops[|ops| - 1].Drain? then Held(front, maxlen) else [])
  }

  class TelemetryEventBuffer<M> {
    const maxlen: nat
    var buf: seq<BufferedEvent<M>>
    var seqNo: nat
    var dropped: nat
    ghost var ops: seq<Op<M>>

    ghost predicate Valid()
      reads this
    {
      && 0 < maxlen
      && buf == Held(ops, maxlen)
      && seqNo == |Pushed(ops)|
      && dropped == Overflow(Segments(ops), maxlen)
    }

    constructor (maxlen: nat)
      requires 0 < maxlen
      ensures Valid() && this.maxlen == maxlen && ops == []
    {
      this.maxlen := maxlen;
      buf, seqNo, dropped, ops := [], 0, 0, [];
    }

    /** A non-positive capacity is refused. */
    static method Create(maxlen: int) returns (r: Option<TelemetryEventBuffer<M>>)
      ensures r.Some? <==> maxlen > 0
      ensures r.Some? ==> fresh(r.value) && r.value.Valid() && r.value.maxlen == maxlen && r.value.ops == []
    {
      if maxlen <= 0 {
        r := None;
      } else {
        var b := new TelemetryEventBuffer<M>(maxlen);
        r := Some(b);
      }
    }

    method Push(message: M) returns (event: BufferedEvent<M>)
      requires Valid()
      modifies this
      ensures Valid()
      ensures ops == old(ops) + [Op.Push(message)]
      ensures event == BufferedEvent(message, |Pushed(old(ops))|)
    {
      var wasFull := |buf| == maxlen;
      event := BufferedEvent(message, seqNo);
      buf := buf + [event];
      if |buf| > maxlen {
        buf := buf[1..];
      }
      seqNo := seqNo + 1;
      if wasFull {
        dropped := dropped + 1;
      }
      PushStep(ops, message, maxlen);
      ops := ops + [Op.Push(message)];
    }

    method Drain() returns (events: seq<BufferedEvent<M>>)
      requires Valid()
      modifies this
      ensures Valid()
      ensures ops == old(ops) + [Op.Drain]
      ensures events == Held(old(ops), maxlen)
    {
      events := buf;
      buf := [];
      DrainStep(ops, maxlen);
      ops := ops + [Op.Drain];
    }
  }

  lemma {:induction false} PushStep<M>(ops: seq<Op<M>>, message: M, maxlen: nat)
    requires 0 < maxlen
    ensures var ops' := ops + [Op.Push(message)];
      var es := Held(ops, maxlen) + [BufferedEvent(message, |Pushed(ops)|)];
      && |Pushed(ops')| == |Pushed(ops)| + 1
      && Held(ops', maxlen) == (if |es| > maxlen then es[1..] else es)
      && Overflow(Segments(ops'), maxlen) ==
           Overflow(Segments(ops), maxlen) + (if |Held(ops, maxlen)| == maxlen then 1 else 0)
  {
    var ops' := ops + [Op.Push(message)];
    assert ops'[..|ops|] == ops;
    OpenIsPushed(ops);
    OpenIsPushed(ops');
    var ks, ks' := Segments(ops), Segments(ops');
    assert ks'[..|ks'| - 1] == ks[..|ks| - 1];
  }

  lemma {:induction false} DrainStep<M>(ops: seq<Op<M>>, maxlen: nat)
    ensures var ops' := ops + [Op<M>.Drain];
      && Pushed(ops') == Pushed(ops)
      && Held(ops', maxlen) == []
      && Overflow(Segments(ops'), maxlen) == Overflow(Segments(ops), maxlen)
      && Drained(ops', maxlen) == Drained(ops, maxlen) + Held(ops, maxlen)
  {
    var ops' := ops + [Op<M>.Drain];
    assert ops'[..|ops|] == ops;
    var ks := Segments(ops);
    assert (ks + [0])[..|ks|] == ks;
  }

  /** Nothing is lost or invented: every push was drained, was dropped, or is still held. */
  lemma {:induction false} Conservation<M>(ops: seq<Op<M>>, maxlen: nat)
    requires 0 < maxlen
    ensures |Pushed(ops)| == |Drained(ops, maxlen)| + Overflow(Segments(ops), maxlen) + |Held(ops, maxlen)|
  {
    if |ops| > 0 {
      var front := ops[..|ops| - 1];
      Conservation(front, maxlen);
      assert ops == front + [ops[|ops| - 1]];
      match ops[|ops| - 1]
      case Push(m) => PushStep(front, m, maxlen);
      case Drain => DrainStep(front, maxlen);
    }
  }

  /** Each event carries the message pushed under its number. */
  predicate Numbered<M(==)>(es: seq<BufferedEvent<M>>, pushed: seq<M>) {
    forall i :: 0 <= i < |es| ==> es[i].seqNo < |pushed| && es[i].message == pushed[es[i].seqNo]
  }

  predicate Increasing<M(==)>(es: seq<BufferedEvent<M>>, below: int) {
    && (forall i, j :: 0 <= i < j < |es| ==> es[i].seqNo < es[j].seqNo)
    && (forall i :: 0 <= i < |es| ==> es[i].seqNo < below)
  }

  lemma {:induction false} HeldNumbered<M>(ops: seq<Op<M>>, maxlen: nat)
    ensures Numbered(Held(ops, maxlen), Pushed(ops))
    ensures Increasing(Held(ops, maxlen), |Pushed(ops)|)
    ensures forall i :: 0 <= i < |Held(ops, maxlen)| ==> |Pushed(ops)| - Open(ops) <= Held(ops, maxlen)[i].seqNo
  {
    OpenIsPushed(ops);
  }

  /** Over all drains together the numbers strictly increase, each drained event carries the
      message pushed under its number, and everything still held is younger. */
  lemma {:induction false} DrainedInOrder<M>(ops: seq<Op<M>>, maxlen: nat)
    requires 0 < maxlen
    ensures Numbered(Drained(ops, maxlen), Pushed(ops))
    ensures Increasing(Drained(ops, maxlen), |Pushed(ops)| - Open(ops))
  {
    hide Drained, Held, Open, Pushed, Numbered, Increasing;
    if |ops| == 0 {
      NothingYet(ops, maxlen);
    } else {
      var front, op := ops[..|ops| - 1], ops[|ops| - 1];
      assert ops == front + [op];
      DrainedInOrder(front, maxlen);
      DrainedStep(front, op, maxlen);
      HeldNumbered(front, maxlen);
      var drained, pushed := Drained(front, maxlen), Pushed(front);
      var below := |pushed| - Open(front);
      assert drained + [] == drained && pushed + [] == pushed;
      if op.Push? {
        InOrderConcat(drained, [], pushed, [op.message], below, below);
      } else {
        InOrderConcat(drained, Held(front, maxlen), pushed, [], below, |pushed|);
      }
    }
  }

  lemma {:induction false} NothingYet<M>(ops: seq<Op<M>>, maxlen: nat)
    requires |ops| == 0
    ensures Numbered(Drained(ops, maxlen), Pushed(ops)) && Increasing(Drained(ops, maxlen), |Pushed(ops)| - Open(ops))
  {
  }

  /** Younger events after older ones keep the order, and more pushes keep the numbering. */
  lemma {:induction false} InOrderConcat<M>(
    a: seq<BufferedEvent<M>>, b: seq<BufferedEvent<M>>, pushed: seq<M>, more: seq<M>, lo: int, hi: int)
    requires lo <= hi && Numbered(a, pushed) && Numbered(b, pushed)
    requires Increasing(a, lo) && Increasing(b, hi)
    requires forall i :: 0 <= i < |b| ==> lo <= b[i].seqNo
    ensures Numbered(a + b, pushed + more) && Increasing(a + b, hi)
  {
  }

  lemma {:induction false} DrainedStep<M>(front: seq<Op<M>>, op: Op<M>, maxlen: nat)
    ensures var ops := front + [op];
      && (op.Push? ==> Drained(ops, maxlen) == Drained(front, maxlen) && Open(ops) == Open(front) + 1)
      && (op.Drain? ==> Drained(ops, maxlen) == Drained(front, maxlen) + Held(front, maxlen) && Open(ops) == 0)
      && Pushed(ops) == Pushed(front) + (if op.Push? then [op.message] else [])
  {
    assert (front + [op])[..|front|] == front;
  }

  // -------------------------------------------------------------------------
  // One stretch
  // -------------------------------------------------------------------------

  function Pushes<M>(ms: seq<M>): (ops: seq<Op<M>>)
    ensures |ops| == |ms| && forall i :: 0 <= i < |ms| ==> ops[i] == Op.Push(ms[i])
  {
    seq(|ms|, i requires 0 <= i < |ms| => Op.Push(ms[i]))
  }

  /** The stretches that a drain has closed. */
  function Earlier<M>(ops: seq<Op<M>>): seq<nat> {
    Segments(ops)[..|Segments(ops)| - 1]
  }

  lemma {:induction false} OnePushMore<M>(before: seq<Op<M>>, ms: seq<M>)
    requires |ms| > 0
    ensures before + Pushes(ms) == before + Pushes(ms[..|ms| - 1]) + [Op.Push(ms[|ms| - 1])]
  {
  }

  lemma {:induction false} PushCounts<M>(ops: seq<Op<M>>, m: M)
    ensures var ops' := ops + [Op.Push(m)];
      Pushed(ops') == Pushed(ops) + [m] && Open(ops') == Open(ops) + 1 && Earlier(ops') == Earlier(ops)
  {
    assert (ops + [Op.Push(m)])[..|ops|] == ops;
  }

  lemma {:induction false} StretchCounts<M>(before: seq<Op<M>>, ms: seq<M>)
    requires |before| == 0 || before[|before| - 1].Drain?
    ensures var ops := before + Pushes(ms);
      Pushed(ops) == Pushed(before) + ms && Open(ops) == |ms| && Earlier(ops) == Earlier(before)
    decreases |ms|
  {
    if |ms| == 0 {
      assert before + Pushes(ms) == before && Pushed(before) + ms == Pushed(before);
    } else {
      hide Pushed, Segments, Open, Pushes, Earlier;
      var front, last := ms[..|ms| - 1], ms[|ms| - 1];
      StretchCounts(before, front);
      OnePushMore(before, ms);
      PushCounts(before + Pushes(front), last);
      LastToEnd(Pushed(before), ms);
    }
  }

  lemma {:induction false} LastToEnd<M>(a: seq<M>, ms: seq<M>)
    requires |ms| > 0
    ensures a + ms[..|ms| - 1] + [ms[|ms| - 1]] == a + ms
  {
  }

  lemma {:induction false} OverflowOf<M>(ops: seq<Op<M>>, maxlen: nat)
    ensures Overflow(Segments(ops), maxlen) ==
      Overflow(Earlier(ops), maxlen) + if Open(ops) > maxlen then Open(ops) - maxlen else 0
  {
  }

  /** The oldest go first: after a drain and then some pushes the buffer holds the last of these
      that fit, in order and under their numbers, and has dropped the others. */
  lemma {:induction false} OldestGoFirst<M>(before: seq<Op<M>>, ms: seq<M>, maxlen: nat)
    requires 0 < maxlen && (|before| == 0 || before[|before| - 1].Drain?)
    ensures var es, kept := Held(before + Pushes(ms), maxlen), if |ms| < maxlen then |ms| else maxlen;
      && |es| == kept
      && forall i :: 0 <= i < kept ==>
           && es[i].message == ms[|ms| - kept + i]
           && es[i].seqNo == |Pushed(before)| + |ms| - kept + i
    ensures Overflow(Segments(before + Pushes(ms)), maxlen) ==
      Overflow(Segments(before), maxlen) + if |ms| > maxlen then |ms| - maxlen else 0
  {
    hide Pushed, Segments, Open, Pushes, Overflow, Earlier;
    StretchCounts(before, ms);
    StretchCounts(before, []);
    NoPushes(before);
    OverflowOf(before + Pushes(ms), maxlen);
    OverflowOf(before, maxlen);
  }

  lemma {:induction false} NoPushes<M>(before: seq<Op<M>>)
    ensures before + Pushes([]) == before
  {
  }
}
