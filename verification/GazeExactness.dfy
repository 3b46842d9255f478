/** When the gaze deque is exactly the episodes within the window, whatever the timestamps. */
module GazeExactness {
  import opened FusionTypes
  import opened GazeEpisodes

  /** After n calls the deque holds exactly the closed episodes that ended within the window. */
  ghost predicate ExactAt(h: seq<GazeFrame>, minMs: int, windowMs: int, n: nat)
    requires 0 < n <= |h|
  {
    Window(h[..n], minMs, windowMs) == Recent(Closings(h[..n], minMs), Cutoff(h[..n], windowMs))
  }

  /** Of all episodes closed in the first n calls, those outside the window were closed first. */
  ghost predicate OrderedAt(h: seq<GazeFrame>, minMs: int, windowMs: int, n: nat)
    requires 0 < n <= |h|
  {
    ExpiredFirst(Closings(h[..n], minMs), Cutoff(h[..n], windowMs))
  }

  /** An episode outside the window at call n is outside the window of the later call k as well. */
  ghost predicate NoneReturns(h: seq<GazeFrame>, minMs: int, windowMs: int, n: nat, k: nat)
    requires 0 < n <= k <= |h|
  {
    forall e :: e in Closings(h[..n], minMs) && e.endedAt < Cutoff(h[..n], windowMs) ==>
      e.endedAt < Cutoff(h[..k], windowMs)
  }

  ghost predicate AlwaysExact(h: seq<GazeFrame>, minMs: int, windowMs: int) {
    forall n :: 0 < n <= |h| ==> ExactAt(h, minMs, windowMs, n)
  }

  ghost predicate AlwaysOrdered(h: seq<GazeFrame>, minMs: int, windowMs: int) {
    forall n :: 0 < n <= |h| ==> OrderedAt(h, minMs, windowMs, n)
  }

  ghost predicate NoneEverReturns(h: seq<GazeFrame>, minMs: int, windowMs: int) {
    forall n, k :: 0 < n <= k <= |h| ==> NoneReturns(h, minMs, windowMs, n, k)
  }

  // -------------------------------------------------------------------------
  // A suffix that is the filter
  // -------------------------------------------------------------------------

  /** If a suffix of a list is what is recent in it, nothing before the suffix is recent. */
  lemma {:induction false} BeforeSuffix(w: seq<GazeAwayEvent>, es: seq<GazeAwayEvent>, cutoff: int)
    requires IsSuffix(w, es) && w == Recent(es, cutoff)
    ensures forall i :: 0 <= i < |es| - |w| ==> es[i].endedAt < cutoff
  {
    hide Recent;
    var n := |es| - |w|;
    assert es == es[..n] + w;
    RecentConcat(es[..n], w, cutoff);
    RecentAll(w, cutoff);
    assert Recent(es[..n], cutoff) == [];
    forall i | 0 <= i < n
      ensures es[i].endedAt < cutoff
    {
      assert es[..n][i] !in Recent(es[..n], cutoff);
    }
  }

  lemma {:induction false} InSuffix(w: seq<GazeAwayEvent>, es: seq<GazeAwayEvent>, i: nat)
    requires IsSuffix(w, es) && |es| - |w| <= i < |es|
    ensures es[i] in w
  {
    assert w[i - (|es| - |w|)] == es[i];
  }

  lemma {:induction false} SuffixIsOrdered(w: seq<GazeAwayEvent>, es: seq<GazeAwayEvent>, cutoff: int)
    requires IsSuffix(w, es) && w == Recent(es, cutoff)
    ensures ExpiredFirst(es, cutoff)
  {
    hide Recent;
    BeforeSuffix(w, es, cutoff);
    var n := |es| - |w|;
    forall i, j | 0 <= i < j < |es| && cutoff <= es[i].endedAt
      ensures cutoff <= es[j].endedAt
    {
      assert w[j - n] == es[j];
      assert w[j - n] in Recent(es, cutoff);
    }
  }

  lemma {:induction false} OrderedBehind(es: seq<GazeAwayEvent>, q: seq<GazeAwayEvent>, cutoff: int)
    requires ExpiredFirst(es + q, cutoff)
    ensures ExpiredFirst(q, cutoff)
  {
    assert forall i :: 0 <= i < |q| ==> (es + q)[|es| + i] == q[i];
  }

  /** One call: from an exact deque to an exact deque, if what was popped stays outside. */
  lemma {:induction false} PopStaysExact(
    w: seq<GazeAwayEvent>, es: seq<GazeAwayEvent>, closed: seq<GazeAwayEvent>, cutoff: int)
    requires IsSuffix(w, es) && ExpiredFirst(es + closed, cutoff)
    requires forall i :: 0 <= i < |es| - |w| ==> es[i].endedAt < cutoff
    ensures PopExpired(w + closed, cutoff) == Recent(es + closed, cutoff)
  {
    var gone, q := es[..|es| - |w|], w + closed;
    assert es + closed == gone + q;
    RecentNone(gone, cutoff);
    hide PopExpired, Recent, ExpiredFirst, IsSuffix;
    OrderedBehind(gone, q, cutoff);
    PopIsFilterWhen(q, cutoff);
    RecentConcat(gone, q, cutoff);
    assert [] + Recent(q, cutoff) == Recent(q, cutoff);
  }

  // -------------------------------------------------------------------------
  // Along the history
  // -------------------------------------------------------------------------

  lemma {:induction false} TakeTake(h: seq<GazeFrame>, n: nat)
    requires n < |h|
    ensures h[..n + 1][..n] == h[..n] && |h[..n + 1]| == n + 1
  {
  }

  lemma {:induction false} OneMoreCall(h: seq<GazeFrame>, minMs: int, windowMs: int, n: nat)
    requires n < |h|
    ensures Closings(h[..n + 1], minMs) == Closings(h[..n], minMs) + Closed(h[..n + 1], minMs)
    ensures Window(h[..n + 1], minMs, windowMs) ==
      PopExpired(Window(h[..n], minMs, windowMs) + Closed(h[..n + 1], minMs), Cutoff(h[..n + 1], windowMs))
  {
    hide Closed, PopExpired, Cutoff, Window;
    TakeTake(h, n);
    WindowStep(h[..n + 1], minMs, windowMs);
  }

  /** How many of the episodes closed in the first n calls have left the deque. */
  ghost function Popped(h: seq<GazeFrame>, minMs: int, windowMs: int, n: nat): int
    requires n <= |h|
  {
    |Closings(h[..n], minMs)| - |Window(h[..n], minMs, windowMs)|
  }

  /** An episode that has left the deque never comes back. */
  lemma {:induction false} PoppedForGood(h: seq<GazeFrame>, minMs: int, windowMs: int, n: nat, k: nat)
    requires n <= k <= |h|
    ensures Closings(h[..n], minMs) <= Closings(h[..k], minMs)
    ensures Popped(h, minMs, windowMs, n) <= Popped(h, minMs, windowMs, k)
    decreases k
  {
    hide Closed, PopExpired, Cutoff, Window, Closings;
    if n < k {
      PoppedForGood(h, minMs, windowMs, n, k - 1);
      OneMoreCall(h, minMs, windowMs, k - 1);
    }
  }

  lemma {:induction false} ExactIsOrdered(h: seq<GazeFrame>, minMs: int, windowMs: int, n: nat)
    requires 0 < n <= |h| && ExactAt(h, minMs, windowMs, n)
    ensures OrderedAt(h, minMs, windowMs, n)
  {
    hide Window, Closings, Cutoff, Recent, IsSuffix, ExpiredFirst;
    WindowIsSuffix(h[..n], minMs, windowMs);
    SuffixIsOrdered(Window(h[..n], minMs, windowMs), Closings(h[..n], minMs), Cutoff(h[..n], windowMs));
  }

  lemma {:induction false} ExactMeansNoneReturns(h: seq<GazeFrame>, minMs: int, windowMs: int, n: nat, k: nat)
    requires 0 < n <= k <= |h| && ExactAt(h, minMs, windowMs, n) && ExactAt(h, minMs, windowMs, k)
    ensures NoneReturns(h, minMs, windowMs, n, k)
  {
    hide Window, Closings, Cutoff, Recent;
    var es, es' := Closings(h[..n], minMs), Closings(h[..k], minMs);
    var w, w' := Window(h[..n], minMs, windowMs), Window(h[..k], minMs, windowMs);
    WindowIsSuffix(h[..n], minMs, windowMs);
    WindowIsSuffix(h[..k], minMs, windowMs);
    PoppedForGood(h, minMs, windowMs, n, k);
    BeforeSuffix(w', es', Cutoff(h[..k], windowMs));
    forall e | e in es && e.endedAt < Cutoff(h[..n], windowMs)
      ensures e.endedAt < Cutoff(h[..k], windowMs)
    {
      var i :| 0 <= i < |es| && es[i] == e;
      if |es| - |w| <= i {
        InSuffix(w, es, i);
      }
      assert es'[i] == e;
    }
  }

  lemma {:induction false} StaysExact(h: seq<GazeFrame>, minMs: int, windowMs: int, n: nat)
    requires 0 < n <= |h| && OrderedAt(h, minMs, windowMs, n)
    requires 1 < n ==> ExactAt(h, minMs, windowMs, n - 1) && NoneReturns(h, minMs, windowMs, n - 1, n)
    ensures ExactAt(h, minMs, windowMs, n)
  {
    hide Closed, Cutoff, Recent, Closings, Window, ExpiredFirst, PopExpired;
    var w, es := Window(h[..n - 1], minMs, windowMs), Closings(h[..n - 1], minMs);
    WindowIsSuffix(h[..n - 1], minMs, windowMs);
    if 1 < n {
      BeforeSuffix(w, es, Cutoff(h[..n - 1], windowMs));
    } else {
      NothingClosed(minMs, windowMs);
      assert h[..0] == [];
    }
    OneMoreCall(h, minMs, windowMs, n - 1);
    PopStaysExact(w, es, Closed(h[..n], minMs), Cutoff(h[..n], windowMs));
  }

  lemma {:induction false} NothingClosed(minMs: int, windowMs: int)
    ensures Closings([], minMs) == [] && Window([], minMs, windowMs) == []
  {
  }

  lemma {:induction false} OrderedIsExact(h: seq<GazeFrame>, minMs: int, windowMs: int, n: nat)
    requires 0 < n <= |h| && AlwaysOrdered(h, minMs, windowMs) && NoneEverReturns(h, minMs, windowMs)
    ensures ExactAt(h, minMs, windowMs, n)
  {
    hide ExactAt, OrderedAt, NoneReturns;
    if 1 < n {
      OrderedIsExact(h, minMs, windowMs, n - 1);
    }
    StaysExact(h, minMs, windowMs, n);
  }

  /** For any timestamps, the deque is exactly the episodes within the window after every call if
      and only if at every call the episodes outside the window are the first ones closed, and no
      episode outside the window of one call is within the window of a later call. */
  lemma {:induction false} AlwaysExactWhen(h: seq<GazeFrame>, minMs: int, windowMs: int)
    ensures AlwaysExact(h, minMs, windowMs) <==>
      AlwaysOrdered(h, minMs, windowMs) && NoneEverReturns(h, minMs, windowMs)
  {
    hide ExactAt, OrderedAt, NoneReturns;
    if AlwaysExact(h, minMs, windowMs) {
      forall n | 0 < n <= |h|
        ensures OrderedAt(h, minMs, windowMs, n)
      {
        ExactIsOrdered(h, minMs, windowMs, n);
      }
      forall n, k | 0 < n <= k <= |h|
        ensures NoneReturns(h, minMs, windowMs, n, k)
      {
        ExactMeansNoneReturns(h, minMs, windowMs, n, k);
      }
    }
    if AlwaysOrdered(h, minMs, windowMs) && NoneEverReturns(h, minMs, windowMs) {
      forall n | 0 < n <= |h|
        ensures ExactAt(h, minMs, windowMs, n)
      {
        OrderedIsExact(h, minMs, windowMs, n);
      }
    }
  }

  // -------------------------------------------------------------------------
  // One frame from the future
  // -------------------------------------------------------------------------

  /** One frame with a timestamp from the future empties the rolling count: the episode that ended
      at 5000 leaves the deque at the frame stamped 9000 and is missing at the one stamped 5500,
      although it is within the window again. The last expiry by itself is exact. */
  lemma {:induction false} FutureFrameEmptiesDeque() returns (h: seq<GazeFrame>)
    ensures 0 < |h| && Window(h, 0, 1000) == []
    ensures exists e :: e in Recent(Closings(h, 0), Cutoff(h, 1000))
    ensures ExpiredFirst(Window(h[..|h| - 1], 0, 1000) + Closed(h, 0), Cutoff(h, 1000))
    ensures !AlwaysExact(h, 0, 1000)
  {
    var e, h2 := OneEpisode();
    hide Window, Closings, Closed, PopExpired, Recent, Cutoff;
    var h3 := h2 + [GazeFrame(None, 3, 9000)];
    h := h3 + [GazeFrame(None, 4, 5500)];
    Landmarkless(h2, h3, 9000);
    Landmarkless(h3, h, 5500);
    OnePopped(e, 8000);
    NonePopped(4500);
    assert h3[..|h3| - 1] == h2 && h[..|h| - 1] == h3 && h[..|h|] == h;
    assert !ExactAt(h, 0, 1000, |h|);
  }

  lemma {:induction false} OneEpisode() returns (e: GazeAwayEvent, h: seq<GazeFrame>)
    ensures e.endedAt == 5000 && Window(h, 0, 1000) == [e] && e in Closings(h, 0)
  {
    h := AppendOff([], 1, 5000);
    h := AppendOn(h, 1, 2, 5000);
    e := GazeAwayEvent(5000, 5000, [1]);
    WindowIsSuffix(h, 0, 1000);
    hide Window, Closings;
    assert Window(h, 0, 1000) == [e];
  }

  lemma {:induction false} Landmarkless(h: seq<GazeFrame>, h': seq<GazeFrame>, at: int)
    requires |h'| == |h| + 1 && h'[..|h|] == h && h'[|h|].offScreen == None && h'[|h|].at == at
    ensures Closed(h', 0) == [] && Closings(h', 0) == Closings(h, 0) && Cutoff(h', 1000) == at - 1000
    ensures Window(h', 0, 1000) == PopExpired(Window(h, 0, 1000), at - 1000)
  {
    hide Window, Closed, PopExpired;
    OneMoreCall(h', 0, 1000, |h|);
    NotClosed(h', 0);
    assert h'[..|h| + 1] == h';
    assert Window(h, 0, 1000) + [] == Window(h, 0, 1000) && Closings(h, 0) + [] == Closings(h, 0);
  }

  lemma {:induction false} OnePopped(e: GazeAwayEvent, cutoff: int)
    requires e.endedAt < cutoff
    ensures PopExpired([e], cutoff) == []
  {
  }

  lemma {:induction false} NonePopped(cutoff: int)
    ensures PopExpired([], cutoff) == []
  {
  }
}
