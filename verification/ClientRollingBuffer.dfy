/** The browser's pre-roll buffer, bounded by a time window. */
module ClientRollingBuffers {
  import opened FusionTypes

  datatype Modality = HeavyFrameTag | AudioChunkTag

  datatype Entry = Entry(data: string, timestamp: int, modality: Option<Modality>)

  /** Landmarks are payload only and not modelled. */
  datatype HeavyFrameEntry = HeavyFrameEntry(timestamp: int, jpegBase64: string)

  /** Every call reads the clock itself; add reads it twice. Clear is drain or reset. */
  datatype Op =
    | Push(entry: Entry, now: int)
    | Add(frame: HeavyFrameEntry, now: int, nowHeavy: int)
    | Clear

  function BaseEntry(f: HeavyFrameEntry): Entry {
    Entry(f.jpegBase64, f.timestamp, Some(HeavyFrameTag))
  }

  const ENTRY_AT: Entry -> int := (e: Entry) => e.timestamp

  const FRAME_AT: HeavyFrameEntry -> int := (f: HeavyFrameEntry) => f.timestamp

  function Stamps<T>(at: T -> int, xs: seq<T>): (ts: seq<int>)
    ensures |ts| == |xs| && forall i :: 0 <= i < |xs| ==> ts[i] == at(xs[i])
  {
    seq(|xs|, i requires 0 <= i < |xs| => at(xs[i]))
  }

  /** How many entries from the front are older than the cutoff: the eviction scan. */
  function FirstKept(ts: seq<int>, cutoff: int): (n: nat)
    ensures n <= |ts|
    ensures forall i :: 0 <= i < n ==> ts[i] < cutoff
    ensures n < |ts| ==> cutoff <= ts[n]
  {
    if |ts| == 0 then 0
    else
      var n := FirstKept(ts[..|ts| - 1], cutoff);
      if n < |ts| - 1 then n else if ts[|ts| - 1] < cutoff then |ts| else |ts| - 1
  }

  /** What the scan leaves of an array whose elements carry their time. */
  function Evicted<T>(at: T -> int, xs: seq<T>, cutoff: int): seq<T> {
    xs[FirstKept(Stamps(at, xs), cutoff)..]
  }

  // -------------------------------------------------------------------------
  // What a history of calls leaves in the two arrays
  // -------------------------------------------------------------------------

  function Kept(ops: seq<Op>, windowMs: int): seq<Entry> {
    if |ops| == 0 then []
    else
      var before := Kept(ops[..|ops| - 1], windowMs);
      match ops[|ops| - 1]
      case Push(e, now) => Evicted(ENTRY_AT, before + [e], now - windowMs)
      case Add(f, now, _) => Evicted(ENTRY_AT, before + [BaseEntry(f)], now - windowMs)
      case Clear => []
  }

  function HeavyKept(ops: seq<Op>, windowMs: int): seq<HeavyFrameEntry> {
    if |ops| == 0 then []
    else
      var before := HeavyKept(ops[..|ops| - 1], windowMs);
      match ops[|ops| - 1]
      case Push(_, _) => before
      case Add(f, _, now) => Evicted(FRAME_AT, before + [f], now - windowMs)
      case Clear => []
  }

  /** Everything pushed or added since the last clear. */
  function Since(ops: seq<Op>): seq<Entry> {
    if |ops| == 0 then []
    else
      match ops[|ops| - 1]
      case Push(e, _) => Since(ops[..|ops| - 1]) + [e]
      case Add(f, _, _) => Since(ops[..|ops| - 1]) + [BaseEntry(f)]
      case Clear => []
  }

  function HeavySince(ops: seq<Op>): seq<HeavyFrameEntry> {
    if |ops| == 0 then []
    else
      match ops[|ops| - 1]
      case Push(_, _) => HeavySince(ops[..|ops| - 1])
      case Add(f, _, _) => HeavySince(ops[..|ops| - 1]) + [f]
      case Clear => []
  }

  lemma {:induction false} KeptStep(ops: seq<Op>, op: Op, windowMs: int)
    ensures Kept(ops + [op], windowMs) == match op
      case Push(e, now) => Evicted(ENTRY_AT, Kept(ops, windowMs) + [e], now - windowMs)
      case Add(f, now, _) => Evicted(ENTRY_AT, Kept(ops, windowMs) + [BaseEntry(f)], now - windowMs)
      case Clear => []
    ensures HeavyKept(ops + [op], windowMs) == match op
      case Push(_, _) => HeavyKept(ops, windowMs)
      case Add(f, _, now) => Evicted(FRAME_AT, HeavyKept(ops, windowMs) + [f], now - windowMs)
      case Clear => []
  {
    hide Evicted;
    assert (ops + [op])[..|ops|] == ops;
  }

  /** The clock readings of the calls never go back. */
  predicate ClockForward(ops: seq<Op>) {
    forall i, j :: 0 <= i < j < |ops| ==> !ops[i].Clear? && !ops[j].Clear? ==> ops[i].now <= ops[j].now
  }

  predicate HeavyClockForward(ops: seq<Op>) {
    forall i, j :: 0 <= i < j < |ops| ==> ops[i].Add? && ops[j].Add? ==> ops[i].nowHeavy <= ops[j].nowHeavy
  }

  predicate Ordered(ts: seq<int>) {
    forall i, j :: 0 <= i < j < |ts| ==> ts[i] <= ts[j]
  }

  // -------------------------------------------------------------------------
  // The window
  // -------------------------------------------------------------------------

  lemma {:induction false} FirstKeptUnique(ts: seq<int>, cutoff: int, n: nat)
    requires n <= |ts| && (forall i :: 0 <= i < n ==> ts[i] < cutoff) && (n < |ts| ==> cutoff <= ts[n])
    ensures FirstKept(ts, cutoff) == n
  {
    hide FirstKept;
  }

  /** Evicting with an earlier cutoff first does not change what a later one leaves. */
  lemma {:induction false} EvictTwice<T>(at: T -> int, xs: seq<T>, x: T, c0: int, c1: int)
    requires c0 <= c1
    ensures Evicted(at, Evicted(at, xs, c0) + [x], c1) == Evicted(at, xs + [x], c1)
  {
    hide FirstKept, Stamps;
    var n, all := FirstKept(Stamps(at, xs), c0), xs + [x];
    var m, rest := FirstKept(Stamps(at, all), c1), all[n..];
    assert Evicted(at, xs, c0) + [x] == rest;
    forall i | 0 <= i < |rest|
      ensures Stamps(at, rest)[i] == Stamps(at, all)[n + i]
    {
      assert rest[i] == all[n + i];
    }
    FirstKeptUnique(Stamps(at, rest), c1, m - n);
  }

  /** The cutoff of the last push or add since the last clear, if there was one. */
  function LastCutoff(ops: seq<Op>, windowMs: int): Option<int> {
    if |ops| == 0 || ops[|ops| - 1].Clear? then None else Some(ops[|ops| - 1].now - windowMs)
  }

  function LastHeavyCutoff(ops: seq<Op>, windowMs: int): Option<int> {
    if |ops| == 0 || ops[|ops| - 1].Clear? then None
    else if ops[|ops| - 1].Add? then Some(ops[|ops| - 1].nowHeavy - windowMs)
    else LastHeavyCutoff(ops[..|ops| - 1], windowMs)
  }

  /** With a clock that never goes back, the incremental evictions amount to one scan over
      everything since the last clear with the latest cutoff. */
  lemma {:induction false} KeptIsOneScan(ops: seq<Op>, windowMs: int)
    requires ClockForward(ops)
    ensures LastCutoff(ops, windowMs) == None ==> Kept(ops, windowMs) == [] == Since(ops)
    ensures LastCutoff(ops, windowMs).Some? ==>
      Kept(ops, windowMs) == Evicted(ENTRY_AT, Since(ops), LastCutoff(ops, windowMs).value)
  {
    hide Evicted;
    if |ops| > 0 && !ops[|ops| - 1].Clear? {
      var front, op := ops[..|ops| - 1], ops[|ops| - 1];
      KeptIsOneScan(front, windowMs);
      var e := if op.Push? then op.entry else BaseEntry(op.frame);
      if LastCutoff(front, windowMs).Some? {
        assert front[|front| - 1] == ops[|ops| - 2];
        EvictTwice(ENTRY_AT, Since(front), e, LastCutoff(front, windowMs).value, op.now - windowMs);
      }
    }
  }

  lemma {:induction false} HeavyKeptIsOneScan(ops: seq<Op>, windowMs: int)
    requires HeavyClockForward(ops)
    ensures LastHeavyCutoff(ops, windowMs) == None ==> HeavyKept(ops, windowMs) == [] == HeavySince(ops)
    ensures LastHeavyCutoff(ops, windowMs).Some? ==>
      HeavyKept(ops, windowMs) == Evicted(FRAME_AT, HeavySince(ops), LastHeavyCutoff(ops, windowMs).value)
  {
    hide Evicted;
    if |ops| > 0 && !ops[|ops| - 1].Clear? {
      var front, op := ops[..|ops| - 1], ops[|ops| - 1];
      HeavyKeptIsOneScan(front, windowMs);
      if op.Add? && LastHeavyCutoff(front, windowMs).Some? {
        LastHeavyIsAnAdd(front, windowMs);
        EvictTwice(FRAME_AT, HeavySince(front), op.frame, LastHeavyCutoff(front, windowMs).value, op.nowHeavy - windowMs);
      }
    }
  }

  lemma {:induction false} LastHeavyIsAnAdd(ops: seq<Op>, windowMs: int)
    requires LastHeavyCutoff(ops, windowMs).Some?
    ensures exists i :: 0 <= i < |ops| && ops[i].Add? && ops[i].nowHeavy - windowMs == LastHeavyCutoff(ops, windowMs).value
  {
    if ops[|ops| - 1].Push? {
      var front := ops[..|ops| - 1];
      LastHeavyIsAnAdd(front, windowMs);
      var i :| 0 <= i < |front| && front[i].Add? && front[i].nowHeavy - windowMs == LastHeavyCutoff(front, windowMs).value;
      assert ops[i] == front[i];
    } else {
      assert ops[|ops| - 1].Add?;
    }
  }

  /** Pushed in time order, an entry of the current stretch is held exactly when it is no older
      than the window at the last call. */
  lemma {:induction false} HeldIsTheWindow(ops: seq<Op>, windowMs: int)
    requires ClockForward(ops) && Ordered(Stamps(ENTRY_AT, Since(ops))) && LastCutoff(ops, windowMs).Some?
    ensures var es, cutoff, held := Since(ops), LastCutoff(ops, windowMs).value, Kept(ops, windowMs);
      && |held| <= |es| && held == es[|es| - |held|..]
      && forall i :: 0 <= i < |es| ==> (cutoff <= es[i].timestamp <==> |es| - |held| <= i)
  {
    hide FirstKept, Stamps, Since, Kept;
    KeptIsOneScan(ops, windowMs);
    var es, cutoff := Since(ops), LastCutoff(ops, windowMs).value;
    var n := FirstKept(Stamps(ENTRY_AT, es), cutoff);
    assert forall i :: n <= i < |es| ==> Stamps(ENTRY_AT, es)[n] <= Stamps(ENTRY_AT, es)[i];
    assert forall i :: 0 <= i < n ==> Stamps(ENTRY_AT, es)[i] < cutoff;
  }

  // -------------------------------------------------------------------------
  // Whether the two arrays agree
  // -------------------------------------------------------------------------

  /** The entries that carry the heavy-frame tag. */
  function TaggedHeavy(es: seq<Entry>): seq<Entry> {
    if |es| == 0 then []
    else
      var e := es[|es| - 1];
      TaggedHeavy(es[..|es| - 1]) + (if e.modality == Some(HeavyFrameTag) then [e] else [])
  }

  /** The entries no older than the cutoff, in order. */
  function NoOlder(es: seq<Entry>, cutoff: int): seq<Entry> {
    if |es| == 0 then []
    else
      var e := es[|es| - 1];
      NoOlder(es[..|es| - 1], cutoff) + (if cutoff <= e.timestamp then [e] else [])
  }

  function BaseEntries(fs: seq<HeavyFrameEntry>): (es: seq<Entry>)
    ensures |es| == |fs| && forall i :: 0 <= i < |fs| ==> es[i] == BaseEntry(fs[i])
  {
    seq(|fs|, i requires 0 <= i < |fs| => BaseEntry(fs[i]))
  }

  /** Heavy frames only ever arrive through add. */
  predicate HeavyByAddOnly(ops: seq<Op>) {
    forall i :: 0 <= i < |ops| ==> ops[i].Push? ==> ops[i].entry.modality != Some(HeavyFrameTag)
  }

  lemma {:induction false} HeavySinceIsTagged(ops: seq<Op>)
    requires HeavyByAddOnly(ops)
    ensures TaggedHeavy(Since(ops)) == BaseEntries(HeavySince(ops))
  {
    hide BaseEntries;
    if |ops| > 0 && !ops[|ops| - 1].Clear? {
      var front, op := ops[..|ops| - 1], ops[|ops| - 1];
      HeavySinceIsTagged(front);
      var e := if op.Push? then op.entry else BaseEntry(op.frame);
      TaggedStep(Since(front), e);
      BaseEntriesStep(HeavySince(front), if op.Add? then op.frame else HeavyFrameEntry(0, ""));
    } else {
      assert BaseEntries([]) == [];
    }
  }

  lemma {:induction false} BaseEntriesStep(fs: seq<HeavyFrameEntry>, f: HeavyFrameEntry)
    ensures BaseEntries(fs + [f]) == BaseEntries(fs) + [BaseEntry(f)]
  {
  }

  lemma {:induction false} FiltersCommute(es: seq<Entry>, cutoff: int)
    ensures TaggedHeavy(NoOlder(es, cutoff)) == NoOlder(TaggedHeavy(es), cutoff)
  {
    if |es| > 0 {
      var front, e := es[..|es| - 1], es[|es| - 1];
      FiltersCommute(front, cutoff);
      TaggedStep(NoOlder(front, cutoff), e);
      NoOlderStep(TaggedHeavy(front), e, cutoff);
      assert NoOlder(front, cutoff) + [] == NoOlder(front, cutoff) && TaggedHeavy(front) + [] == TaggedHeavy(front);
    }
  }

  lemma {:induction false} TaggedStep(es: seq<Entry>, e: Entry)
    ensures TaggedHeavy(es + [e]) == TaggedHeavy(es) + (if e.modality == Some(HeavyFrameTag) then [e] else [])
  {
    assert (es + [e])[..|es|] == es;
  }

  lemma {:induction false} NoOlderStep(es: seq<Entry>, e: Entry, cutoff: int)
    ensures NoOlder(es + [e], cutoff) == NoOlder(es, cutoff) + (if cutoff <= e.timestamp then [e] else [])
  {
    assert (es + [e])[..|es|] == es;
  }

  lemma {:induction false} AllNoOlder(es: seq<Entry>, cutoff: int)
    requires forall i :: 0 <= i < |es| ==> cutoff <= es[i].timestamp
    ensures NoOlder(es, cutoff) == es
  {
    if |es| > 0 {
      assert es == es[..|es| - 1] + [es[|es| - 1]];
      AllNoOlder(es[..|es| - 1], cutoff);
    }
  }

  /** On ordered entries the scan from the front is the filter. */
  lemma {:induction false} EvictedIsNoOlder(es: seq<Entry>, cutoff: int)
    requires Ordered(Stamps(ENTRY_AT, es))
    ensures Evicted(ENTRY_AT, es, cutoff) == NoOlder(es, cutoff)
  {
    hide NoOlder, FirstKept;
    var n := FirstKept(Stamps(ENTRY_AT, es), cutoff);
    OlderDropped(es, n, cutoff);
    var rest := es[n..];
    forall i | 0 <= i < |rest|
      ensures cutoff <= rest[i].timestamp
    {
      assert Stamps(ENTRY_AT, es)[n] <= Stamps(ENTRY_AT, es)[n + i];
    }
    AllNoOlder(rest, cutoff);
  }

  lemma {:induction false} OlderDropped(es: seq<Entry>, n: nat, cutoff: int)
    requires n <= |es| && forall i :: 0 <= i < n ==> es[i].timestamp < cutoff
    ensures NoOlder(es, cutoff) == NoOlder(es[n..], cutoff)
    decreases |es|
  {
    if n < |es| {
      OlderDropped(es[..|es| - 1], n, cutoff);
      var rest := es[n..];
      assert rest[..|rest| - 1] == es[..|es| - 1][n..] && rest[|rest| - 1] == es[|es| - 1];
    } else {
      assert es[n..] == [];
      NoneNoOlder(es, cutoff);
    }
  }

  lemma {:induction false} NoneNoOlder(es: seq<Entry>, cutoff: int)
    requires forall i :: 0 <= i < |es| ==> es[i].timestamp < cutoff
    ensures NoOlder(es, cutoff) == []
  {
    if |es| > 0 {
      assert es[|es| - 1].timestamp < cutoff;
      NoneNoOlder(es[..|es| - 1], cutoff);
    }
  }

  lemma {:induction false} HeavyEvictedBase(fs: seq<HeavyFrameEntry>, cutoff: int)
    ensures BaseEntries(Evicted(FRAME_AT, fs, cutoff)) == Evicted(ENTRY_AT, BaseEntries(fs), cutoff)
  {
    hide FirstKept;
    assert Stamps(FRAME_AT, fs) == Stamps(ENTRY_AT, BaseEntries(fs));
  }

  lemma {:induction false} OrderedHeavy(es: seq<Entry>)
    requires Ordered(Stamps(ENTRY_AT, es))
    ensures Ordered(Stamps(ENTRY_AT, TaggedHeavy(es)))
    ensures |es| > 0 ==> forall i :: 0 <= i < |TaggedHeavy(es)| ==> TaggedHeavy(es)[i].timestamp <= es[|es| - 1].timestamp
  {
    if |es| > 0 {
      var front := es[..|es| - 1];
      assert forall i :: 0 <= i < |front| ==> Stamps(ENTRY_AT, front)[i] == Stamps(ENTRY_AT, es)[i];
      OrderedHeavy(front);
      assert |front| > 0 ==> Stamps(ENTRY_AT, es)[|es| - 2] <= Stamps(ENTRY_AT, es)[|es| - 1];
      assert |front| == 0 ==> TaggedHeavy(front) == [];
    }
  }

  /** The two arrays agree after a call exactly when both evictions, the latest of either kind,
      leave the same heavy frames; in particular whenever both used the same cutoff. */
  lemma {:induction false} ArraysAgree(ops: seq<Op>, windowMs: int)
    requires ClockForward(ops) && HeavyClockForward(ops) && HeavyByAddOnly(ops) && Ordered(Stamps(ENTRY_AT, Since(ops)))
    requires LastCutoff(ops, windowMs).Some? && LastHeavyCutoff(ops, windowMs).Some?
    ensures var es, c, d := Since(ops), LastCutoff(ops, windowMs).value, LastHeavyCutoff(ops, windowMs).value;
      TaggedHeavy(Kept(ops, windowMs)) == BaseEntries(HeavyKept(ops, windowMs)) <==>
      forall e :: e in es && e.modality == Some(HeavyFrameTag) ==> (c <= e.timestamp <==> d <= e.timestamp)
  {
    hide Kept, HeavyKept, Since, HeavySince, Evicted, Stamps, TaggedHeavy, NoOlder, BaseEntries;
    var es, c, d := Since(ops), LastCutoff(ops, windowMs).value, LastHeavyCutoff(ops, windowMs).value;
    KeptIsOneScan(ops, windowMs);
    HeavyKeptIsOneScan(ops, windowMs);
    EvictedIsNoOlder(es, c);
    FiltersCommute(es, c);
    HeavySinceIsTagged(ops);
    HeavyEvictedBase(HeavySince(ops), d);
    OrderedHeavy(es);
    EvictedIsNoOlder(TaggedHeavy(es), d);
    SameFilter(TaggedHeavy(es), c, d);
    TaggedMembers(es);
  }

  lemma {:induction false} TaggedMembers(es: seq<Entry>)
    ensures forall e :: e in TaggedHeavy(es) <==> e in es && e.modality == Some(HeavyFrameTag)
  {
    if |es| > 0 {
      TaggedMembers(es[..|es| - 1]);
      assert es == es[..|es| - 1] + [es[|es| - 1]];
    }
  }

  lemma {:induction false} NoOlderMembers(es: seq<Entry>, c: int)
    ensures forall e :: e in NoOlder(es, c) <==> e in es && c <= e.timestamp
  {
    if |es| > 0 {
      NoOlderMembers(es[..|es| - 1], c);
      assert es == es[..|es| - 1] + [es[|es| - 1]];
    }
  }

  lemma {:induction false} SameFilter(es: seq<Entry>, c: int, d: int)
    ensures NoOlder(es, c) == NoOlder(es, d) <==> forall e :: e in es ==> (c <= e.timestamp <==> d <= e.timestamp)
  {
    NoOlderMembers(es, c);
    NoOlderMembers(es, d);
    if forall e :: e in es ==> (c <= e.timestamp <==> d <= e.timestamp) {
      SameCutoff(es, c, d);
    }
  }

  lemma {:induction false} SameCutoff(es: seq<Entry>, c: int, d: int)
    requires forall e :: e in es ==> (c <= e.timestamp <==> d <= e.timestamp)
    ensures NoOlder(es, c) == NoOlder(es, d)
  {
    if |es| > 0 {
      assert es[|es| - 1] in es;
      SameCutoff(es[..|es| - 1], c, d);
    }
  }

  /** An audio chunk pushed later evicts from one array only: a frame at 0 in a window of 10 is
      dropped from the entries at 20 and stays among the heavy frames. */
  lemma {:induction false} AudioPushPartsThem() returns (ops: seq<Op>)
    ensures ClockForward(ops) && HeavyByAddOnly(ops) && Ordered(Stamps(ENTRY_AT, Since(ops)))
    ensures TaggedHeavy(Kept(ops, 10)) == [] && |HeavyKept(ops, 10)| == 1
  {
    var f, chunk := HeavyFrameEntry(0, "frame"), Entry("chunk", 20, Some(AudioChunkTag));
    var add, push := Op.Add(f, 0, 0), Op.Push(chunk, 20);
    ops := [add, push];
    SinceBoth(f, chunk);
    hide FirstKept, Kept, HeavyKept, Since, Evicted, TaggedHeavy, Stamps;
    assert [] + [add] == [add] && [add] + [push] == ops;
    KeptStep([], add, 10);
    KeptStep([add], push, 10);
    NothingKept(10);
    assert [] + [BaseEntry(f)] == [BaseEntry(f)] && [] + [f] == [f] && [BaseEntry(f)] + [chunk] == [BaseEntry(f), chunk];
    YoungStays(f, -10);
    OldGoes(BaseEntry(f), chunk, 10);
    NotTagged(chunk);
  }

  /** So does the second clock reading of add alone: in a window of 10, a frame at 0 is still held
      by the entries when the next one is added at 10, and no longer by the heavy frames when the
      clock is read again at 11. */
  lemma {:induction false} TwoReadingsPartThem() returns (ops: seq<Op>)
    ensures forall op :: op in ops ==> op.Add? && op.now <= op.nowHeavy
    ensures ClockForward(ops) && HeavyClockForward(ops) && HeavyByAddOnly(ops)
    ensures |TaggedHeavy(Kept(ops, 10))| == 2 && |HeavyKept(ops, 10)| == 1
  {
    var f, g := HeavyFrameEntry(0, "first"), HeavyFrameEntry(10, "second");
    var first, second := Op.Add(f, 0, 0), Op.Add(g, 10, 11);
    ops := [first, second];
    hide FirstKept, Kept, HeavyKept, Evicted, TaggedHeavy, Stamps;
    assert [] + [first] == [first] && [first] + [second] == ops;
    KeptStep([], first, 10);
    KeptStep([first], second, 10);
    NothingKept(10);
    assert [] + [BaseEntry(f)] == [BaseEntry(f)] && [] + [f] == [f];
    assert [BaseEntry(f)] + [BaseEntry(g)] == [BaseEntry(f), BaseEntry(g)] && [f] + [g] == [f, g];
    YoungStays(f, -10);
    BothStay(BaseEntry(f), BaseEntry(g), 0);
    OldFrameGoes(f, g, 1);
    BothTagged(f, g);
  }

  lemma {:induction false} BothStay(a: Entry, b: Entry, cutoff: int)
    requires cutoff <= a.timestamp
    ensures Evicted(ENTRY_AT, [a, b], cutoff) == [a, b]
  {
    hide FirstKept;
    FirstKeptUnique(Stamps(ENTRY_AT, [a, b]), cutoff, 0);
  }

  lemma {:induction false} OldFrameGoes(old': HeavyFrameEntry, young: HeavyFrameEntry, cutoff: int)
    requires old'.timestamp < cutoff <= young.timestamp
    ensures Evicted(FRAME_AT, [old', young], cutoff) == [young]
  {
    hide FirstKept;
    FirstKeptUnique(Stamps(FRAME_AT, [old', young]), cutoff, 1);
  }

  lemma {:induction false} BothTagged(f: HeavyFrameEntry, g: HeavyFrameEntry)
    ensures TaggedHeavy([BaseEntry(f), BaseEntry(g)]) == [BaseEntry(f), BaseEntry(g)]
  {
    hide TaggedHeavy;
    TaggedStep([], BaseEntry(f));
    TaggedStep([BaseEntry(f)], BaseEntry(g));
    NoneTagged();
    assert [] + [BaseEntry(f)] == [BaseEntry(f)] && [BaseEntry(f)] + [BaseEntry(g)] == [BaseEntry(f), BaseEntry(g)];
  }

  lemma {:induction false} NoneTagged()
    ensures TaggedHeavy([]) == []
  {
  }

  lemma {:induction false} YoungStays(f: HeavyFrameEntry, cutoff: int)
    requires cutoff <= f.timestamp
    ensures Evicted(ENTRY_AT, [BaseEntry(f)], cutoff) == [BaseEntry(f)] && Evicted(FRAME_AT, [f], cutoff) == [f]
  {
    hide FirstKept;
    FirstKeptUnique(Stamps(ENTRY_AT, [BaseEntry(f)]), cutoff, 0);
    FirstKeptUnique(Stamps(FRAME_AT, [f]), cutoff, 0);
  }

  lemma {:induction false} OldGoes(old': Entry, young: Entry, cutoff: int)
    requires old'.timestamp < cutoff <= young.timestamp
    ensures Evicted(ENTRY_AT, [old', young], cutoff) == [young]
  {
    hide FirstKept;
    FirstKeptUnique(Stamps(ENTRY_AT, [old', young]), cutoff, 1);
  }

  lemma {:induction false} NotTagged(e: Entry)
    requires e.modality != Some(HeavyFrameTag)
    ensures TaggedHeavy([e]) == []
  {
    assert [e][..0] == [];
  }

  lemma {:induction false} NothingKept(windowMs: int)
    ensures Kept([], windowMs) == [] && HeavyKept([], windowMs) == []
  {
  }

  lemma {:induction false} SinceBoth(f: HeavyFrameEntry, chunk: Entry)
    ensures Since([Op.Add(f, 0, 0), Op.Push(chunk, 20)]) == [BaseEntry(f), chunk]
  {
    var ops := [Op.Add(f, 0, 0), Op.Push(chunk, 20)];
    assert ops[..1] == [ops[0]] && ops[..1][..0] == [];
    assert Since(ops[..1]) == [BaseEntry(f)];
  }

  /** Everything held was pushed or added: a pushed entry as it was, an added frame under its time
      with the heavy-frame tag and its image. */
  lemma {:induction false} KeptWasAdded(ops: seq<Op>, windowMs: int)
    ensures AllAdded(ops, Kept(ops, windowMs)) && AllFramesAdded(ops, HeavyKept(ops, windowMs))
  {
    if |ops| > 0 {
      hide Kept, HeavyKept, AllAdded, AllFramesAdded;
      var front, op := ops[..|ops| - 1], ops[|ops| - 1];
      KeptWasAdded(front, windowMs);
      AddedStep(front, op, windowMs);
      assert front + [op] == ops;
    }
  }

  predicate AllAdded(ops: seq<Op>, es: seq<Entry>) {
    forall e :: e in es ==> WasAdded(ops, e)
  }

  predicate AllFramesAdded(ops: seq<Op>, fs: seq<HeavyFrameEntry>) {
    forall f :: f in fs ==> FrameAdded(ops, f)
  }

  lemma {:induction false} AddedStep(ops: seq<Op>, op: Op, windowMs: int)
    requires AllAdded(ops, Kept(ops, windowMs)) && AllFramesAdded(ops, HeavyKept(ops, windowMs))
    ensures AllAdded(ops + [op], Kept(ops + [op], windowMs))
    ensures AllFramesAdded(ops + [op], HeavyKept(ops + [op], windowMs))
  {
    hide Evicted, Kept, HeavyKept, WasAdded, FrameAdded;
    AddedLater(ops, op);
    KeptStep(ops, op, windowMs);
    var es, fs := Kept(ops, windowMs), HeavyKept(ops, windowMs);
    match op
    case Push(e, now) => EvictedFrom(ENTRY_AT, es + [e], now - windowMs);
    case Add(f, now, nowHeavy) =>
      EvictedFrom(ENTRY_AT, es + [BaseEntry(f)], now - windowMs);
      EvictedFrom(FRAME_AT, fs + [f], nowHeavy - windowMs);
    case Clear =>
  }

  lemma {:induction false} AddedLater(ops: seq<Op>, op: Op)
    ensures forall e :: WasAdded(ops, e) ==> WasAdded(ops + [op], e)
    ensures forall f :: FrameAdded(ops, f) ==> FrameAdded(ops + [op], f)
    ensures op.Push? ==> WasAdded(ops + [op], op.entry)
    ensures op.Add? ==>
      && WasAdded(ops + [op], Entry(op.frame.jpegBase64, op.frame.timestamp, Some(HeavyFrameTag)))
      && FrameAdded(ops + [op], op.frame)
  {
    var ops' := ops + [op];
    assert ops'[|ops|] == op && forall i :: 0 <= i < |ops| ==> ops'[i] == ops[i];
    forall e | WasAdded(ops, e)
      ensures WasAdded(ops', e)
    {
      var i :| 0 <= i < |ops| && Brings(ops[i], e);
      assert Brings(ops'[i], e);
    }
    forall f | FrameAdded(ops, f)
      ensures FrameAdded(ops', f)
    {
      var i :| 0 <= i < |ops| && ops[i].Add? && ops[i].frame == f;
      assert ops'[i].Add? && ops'[i].frame == f;
    }
  }

  predicate Brings(op: Op, e: Entry) {
    match op
    case Push(entry, _) => e == entry
    case Add(f, _, _) => e == Entry(f.jpegBase64, f.timestamp, Some(HeavyFrameTag))
    case Clear => false
  }

  predicate WasAdded(ops: seq<Op>, e: Entry) {
    exists i :: 0 <= i < |ops| && Brings(ops[i], e)
  }

  predicate FrameAdded(ops: seq<Op>, f: HeavyFrameEntry) {
    exists i :: 0 <= i < |ops| && ops[i].Add? && ops[i].frame == f
  }

  lemma {:induction false} EvictedFrom<T>(at: T -> int, xs: seq<T>, cutoff: int)
    ensures forall x :: x in Evicted(at, xs, cutoff) ==> x in xs
  {
    hide FirstKept, Stamps;
  }

  // -------------------------------------------------------------------------
  // The two arrays
  // -------------------------------------------------------------------------

  class RollingBuffer {
    const windowMs: int
    var entries: seq<Entry>
    var heavyFrameEntries: seq<HeavyFrameEntry>
    ghost var ops: seq<Op>

    ghost predicate Valid()
      reads this
    {
      entries == Kept(ops, windowMs) && heavyFrameEntries == HeavyKept(ops, windowMs)
    }

    constructor (windowMs: int)
      ensures Valid() && this.windowMs == windowMs && ops == []
    {
      this.windowMs := windowMs;
      entries, heavyFrameEntries, ops := [], [], [];
    }

    method Push(entry: Entry, now: int)
      requires Valid()
      modifies this
      ensures Valid() && ops == old(ops) + [Op.Push(entry, now)]
    {
      hide Kept, HeavyKept, Evicted;
      entries := entries + [entry];
      EvictOld(now);
      KeptStep(ops, Op.Push(entry, now), windowMs);
      ops := ops + [Op.Push(entry, now)];
    }

    /** Adds to both arrays and evicts from each with its own reading of the clock. */
    method Add(frame: HeavyFrameEntry, now: int, nowHeavy: int)
      requires Valid()
      modifies this
      ensures Valid() && ops == old(ops) + [Op.Add(frame, now, nowHeavy)]
    {
      hide Kept, HeavyKept, Evicted;
      heavyFrameEntries := heavyFrameEntries + [frame];
      entries := entries + [BaseEntry(frame)];
      EvictOld(now);
      EvictOldHeavyFrames(nowHeavy);
      KeptStep(ops, Op.Add(frame, now, nowHeavy), windowMs);
      ops := ops + [Op.Add(frame, now, nowHeavy)];
    }

    /** Hands out the entries and empties both arrays. */
    method Drain() returns (snapshot: seq<Entry>)
      requires Valid()
      modifies this
      ensures Valid() && ops == old(ops) + [Clear]
      ensures snapshot == Kept(old(ops), windowMs)
    {
      snapshot := entries;
      entries, heavyFrameEntries := [], [];
      KeptStep(ops, Clear, windowMs);
      ops := ops + [Clear];
    }

    method EvictOld(now: int)
      modifies this`entries
      ensures entries == Evicted(ENTRY_AT, old(entries), now - windowMs)
    {
      hide FirstKept, Stamps;
      var startIndex, cutoff := 0, now - windowMs;
      while startIndex < |entries| && entries[startIndex].timestamp < cutoff
        invariant 0 <= startIndex <= |entries| && entries == old(entries)
        invariant forall i :: 0 <= i < startIndex ==> entries[i].timestamp < cutoff
      {
        startIndex := startIndex + 1;
      }
      FirstKeptUnique(Stamps(ENTRY_AT, entries), cutoff, startIndex);
      if startIndex > 0 {
        entries := entries[startIndex..];
      }
    }

    method EvictOldHeavyFrames(now: int)
      modifies this`heavyFrameEntries
      ensures heavyFrameEntries == Evicted(FRAME_AT, old(heavyFrameEntries), now - windowMs)
    {
      hide FirstKept, Stamps;
      var startIndex, cutoff := 0, now - windowMs;
      while startIndex < |heavyFrameEntries| && heavyFrameEntries[startIndex].timestamp < cutoff
        invariant 0 <= startIndex <= |heavyFrameEntries| && heavyFrameEntries == old(heavyFrameEntries)
        invariant forall i :: 0 <= i < startIndex ==> heavyFrameEntries[i].timestamp < cutoff
      {
        startIndex := startIndex + 1;
      }
      FirstKeptUnique(Stamps(FRAME_AT, heavyFrameEntries), cutoff, startIndex);
      if startIndex > 0 {
        heavyFrameEntries := heavyFrameEntries[startIndex..];
      }
    }
  }
}
