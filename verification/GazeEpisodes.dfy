/** The gaze path: off-screen streaks, closed episodes and the rolling window over them. */
module GazeEpisodes {
  import opened FusionTypes
  import opened Runs
  import opened Trails

  /** One call of process_gaze. offScreen is None when the frame had no landmarks. */
  datatype GazeFrame = GazeFrame(offScreen: Option<bool>, id: EventId, at: int)

  datatype GazeAwayEvent = GazeAwayEvent(startedAt: int, endedAt: int, contributing: seq<EventId>)

  /** The frames that exist for the gaze module: those with landmarks. */
  function Seen(h: seq<GazeFrame>): (g: seq<Obs<int>>)
    ensures |g| <= |h|
  {
    if |h| == 0 then []
    else
      var f := h[|h| - 1];
      Seen(h[..|h| - 1]) + (if f.offScreen.Some? then [Obs(f.offScreen.value, f.id, f.at)] else [])
  }

  // -------------------------------------------------------------------------
  // Episodes, defined on the whole history
  // -------------------------------------------------------------------------

  /** The frames first..end are off-screen and frame end is the on-screen frame after them. */
  datatype Span = Span(first: nat, end: nat)

  /** A maximal off-screen streak, closed by an on-screen frame, of at least the minimum length. */
  predicate IsEpisode(g: seq<Obs<int>>, s: Span, minMs: int) {
    && s.first < s.end < |g|
    && (forall i :: s.first <= i < s.end ==> g[i].hit)
    && !g[s.end].hit
    && (0 < s.first ==> !g[s.first - 1].hit)
    && minMs <= g[s.end].reading - g[s.first].reading
  }

  /** The span that the last frame closes, if it closes one that is long enough. */
  function ClosedSpan(g: seq<Obs<int>>, minMs: int): (ss: seq<Span>)
    ensures forall k :: 0 <= k < |ss| ==> ss[k].first < ss[k].end == |g| - 1
  {
    if |g| == 0 || g[|g| - 1].hit then []
    else
      var end := |g| - 1;
      var run := SuffixRun(g[..end]);
      if 0 < run && minMs <= g[end].reading - g[end - run].reading then [Span(end - run, end)] else []
  }

  /** The episodes of a history, oldest first. */
  function Spans(g: seq<Obs<int>>, minMs: int): (ss: seq<Span>)
    ensures forall k :: 0 <= k < |ss| ==> ss[k].first < ss[k].end < |g|
  {
    if |g| == 0 then [] else Spans(g[..|g| - 1], minMs) + ClosedSpan(g, minMs)
  }

  lemma {:induction false} ClosedSpanIsEpisode(g: seq<Obs<int>>, minMs: int, s: Span)
    requires 0 < |g|
    ensures s in ClosedSpan(g, minMs) <==> IsEpisode(g, s, minMs) && s.end == |g| - 1
  {
    var end := |g| - 1;
    var front := g[..end];
    var run := SuffixRun(front);
    if IsEpisode(g, s, minMs) && s.end == end {
      assert forall i :: s.first <= i < end ==> front[i].hit;
      assert run < |front| ==> !front[|front| - run - 1].hit;
      assert 0 < s.first ==> !front[s.first - 1].hit;
    }
  }

  /** The list of spans holds exactly the maximal closed streaks that are long enough. */
  lemma {:induction false} SpansAreEpisodes(g: seq<Obs<int>>, minMs: int, s: Span)
    ensures s in Spans(g, minMs) <==> IsEpisode(g, s, minMs)
    decreases |g|
  {
    if |g| > 0 {
      var front := g[..|g| - 1];
      SpansAreEpisodes(front, minMs, s);
      ClosedSpanIsEpisode(g, minMs, s);
      assert IsEpisode(front, s, minMs) <==> IsEpisode(g, s, minMs) && s.end != |g| - 1;
    }
  }

  /** The spans are in order, with an on-screen frame between any two. */
  lemma {:induction false} SpansOrdered(g: seq<Obs<int>>, minMs: int, j: nat, k: nat)
    requires j < k < |Spans(g, minMs)|
    ensures Spans(g, minMs)[j].end < Spans(g, minMs)[k].first
    decreases |g|
  {
    var front := g[..|g| - 1];
    var ss := Spans(front, minMs);
    if k < |ss| {
      SpansOrdered(front, minMs, j, k);
    } else {
      var s, t := ss[j], Spans(g, minMs)[k];
      SpansAreEpisodes(front, minMs, s);
      SpansAreEpisodes(g, minMs, t);
      assert !front[s.end].hit && g[s.end] == front[s.end];
    }
  }

  function EventOf(g: seq<Obs<int>>, s: Span): GazeAwayEvent
    requires s.first < s.end < |g|
  {
    GazeAwayEvent(g[s.first].reading, g[s.end].reading, Ids(g[s.first..s.end]))
  }

  function EventsOf(g: seq<Obs<int>>, ss: seq<Span>): (es: seq<GazeAwayEvent>)
    requires forall k :: 0 <= k < |ss| ==> ss[k].first < ss[k].end < |g|
    ensures |es| == |ss|
  {
    seq(|ss|, k requires 0 <= k < |ss| => EventOf(g, ss[k]))
  }

  /** The closed episodes of a history as gaze-away events, oldest first. */
  function Episodes(g: seq<Obs<int>>, minMs: int): seq<GazeAwayEvent> {
    EventsOf(g, Spans(g, minMs))
  }

  lemma {:induction false} EventsOfLonger(g: seq<Obs<int>>, o: Obs<int>, ss: seq<Span>)
    requires forall k :: 0 <= k < |ss| ==> ss[k].first < ss[k].end < |g|
    ensures EventsOf(g + [o], ss) == EventsOf(g, ss)
  {
    forall k | 0 <= k < |ss|
      ensures EventOf(g + [o], ss[k]) == EventOf(g, ss[k])
    {
      assert (g + [o])[ss[k].first..ss[k].end] == g[ss[k].first..ss[k].end];
    }
  }

  lemma {:induction false} EpisodesStep(g: seq<Obs<int>>, o: Obs<int>, minMs: int)
    ensures Episodes(g + [o], minMs) == Episodes(g, minMs) + EventsOf(g + [o], ClosedSpan(g + [o], minMs))
  {
    assert (g + [o])[..|g|] == g;
    EventsOfLonger(g, o, Spans(g, minMs));
  }

  /** The episode that the last call closes, if any: what the program appends to its deque. */
  function Closed(h: seq<GazeFrame>, minMs: int): seq<GazeAwayEvent>
    requires 0 < |h|
  {
    var f, g := h[|h| - 1], Seen(h[..|h| - 1]);
    var run := SuffixRun(g);
    if f.offScreen == Some(false) && 0 < run && minMs <= f.at - g[|g| - run].reading then
      [GazeAwayEvent(g[|g| - run].reading, f.at, Ids(Last(g, run)))]
    else []
  }

  /** Everything a run of calls appends to the deque. */
  function Closings(h: seq<GazeFrame>, minMs: int): seq<GazeAwayEvent> {
    if |h| == 0 then [] else Closings(h[..|h| - 1], minMs) + Closed(h, minMs)
  }

  lemma {:induction false} ClosedIsEpisode(h: seq<GazeFrame>, minMs: int)
    requires 0 < |h| && h[|h| - 1].offScreen.Some?
    ensures Closed(h, minMs) == EventsOf(Seen(h), ClosedSpan(Seen(h), minMs))
  {
    hide Ids, Last;
    var g, g' := Seen(h), Seen(h[..|h| - 1]);
    assert g[..|g| - 1] == g';
    var run := SuffixRun(g');
    assert 0 < run ==> g[|g'| - run..|g'|] == Last(g', run);
  }

  /** What the incremental streak tracking appends is exactly the episodes of the frames seen. */
  lemma {:induction false} ClosingsAreEpisodes(h: seq<GazeFrame>, minMs: int)
    ensures Closings(h, minMs) == Episodes(Seen(h), minMs)
  {
    if |h| > 0 {
      var f, h' := h[|h| - 1], h[..|h| - 1];
      ClosingsAreEpisodes(h', minMs);
      if f.offScreen.Some? {
        var o := Obs(f.offScreen.value, f.id, f.at);
        assert Seen(h) == Seen(h') + [o];
        ClosedIsEpisode(h, minMs);
        EpisodesStep(Seen(h'), o, minMs);
      } else {
        assert Seen(h) == Seen(h') && Closed(h, minMs) == [];
      }
    }
  }

  // -------------------------------------------------------------------------
  // The rolling window as the program keeps it, and what it means
  // -------------------------------------------------------------------------

  /** Drops events from the front while they ended before the cutoff. */
  function PopExpired(q: seq<GazeAwayEvent>, cutoff: int): (r: seq<GazeAwayEvent>)
    ensures |r| <= |q|
    ensures forall i :: 0 <= i < |r| ==> r[i] == q[|q| - |r| + i]
    ensures |r| > 0 ==> cutoff <= r[0].endedAt
    ensures forall i :: 0 <= i < |q| - |r| ==> q[i].endedAt < cutoff
  {
    if |q| > 0 && q[0].endedAt < cutoff then PopExpired(q[1..], cutoff) else q
  }

  function Cutoff(h: seq<GazeFrame>, windowMs: int): int
    requires 0 < |h|
  {
    h[|h| - 1].at - windowMs
  }

  /** The deque after a run of calls: each call may append the episode it closes and then pops
      expired events from the front. */
  function Window(h: seq<GazeFrame>, minMs: int, windowMs: int): seq<GazeAwayEvent> {
    if |h| == 0 then []
    else PopExpired(Window(h[..|h| - 1], minMs, windowMs) + Closed(h, minMs), Cutoff(h, windowMs))
  }

  /** The events of a list that ended no earlier than the cutoff, in order. */
  function Recent(es: seq<GazeAwayEvent>, cutoff: int): (r: seq<GazeAwayEvent>)
    ensures forall e :: e in r <==> e in es && cutoff <= e.endedAt
  {
    if |es| == 0 then []
    else
      Recent(es[..|es| - 1], cutoff) + (if cutoff <= es[|es| - 1].endedAt then [es[|es| - 1]] else [])
  }

  predicate Monotone(h: seq<GazeFrame>) {
    forall i, j :: 0 <= i < j < |h| ==> h[i].at <= h[j].at
  }

  predicate IsSuffix<T(==)>(w: seq<T>, es: seq<T>) {
    |w| <= |es| && forall i :: 0 <= i < |w| ==> w[i] == es[|es| - |w| + i]
  }

  lemma {:induction false} SuffixStep(w: seq<GazeAwayEvent>, es: seq<GazeAwayEvent>, c: seq<GazeAwayEvent>, cutoff: int)
    requires IsSuffix(w, es)
    ensures IsSuffix(PopExpired(w + c, cutoff), es + c)
  {
    hide PopExpired;
    var q, all := w + c, es + c;
    assert forall i :: 0 <= i < |q| ==> q[i] == all[|all| - |q| + i];
  }

  /** Whatever the timestamps, the deque is a suffix of the list of closed episodes. */
  lemma {:induction false} WindowIsSuffix(h: seq<GazeFrame>, minMs: int, windowMs: int)
    ensures IsSuffix(Window(h, minMs, windowMs), Closings(h, minMs))
  {
    if |h| > 0 {
      var h' := h[..|h| - 1];
      WindowIsSuffix(h', minMs, windowMs);
      SuffixStep(Window(h', minMs, windowMs), Closings(h', minMs), Closed(h, minMs), Cutoff(h, windowMs));
    }
  }

  lemma {:induction false} SeenMonotone(h: seq<GazeFrame>)
    requires Monotone(h)
    ensures forall i, j :: 0 <= i < j < |Seen(h)| ==> Seen(h)[i].reading <= Seen(h)[j].reading
    ensures 0 < |h| ==> forall i :: 0 <= i < |Seen(h)| ==> Seen(h)[i].reading <= h[|h| - 1].at
  {
    if |h| > 0 {
      var h' := h[..|h| - 1];
      var g, g' := Seen(h), Seen(h');
      SeenMonotone(h');
      assert |h'| == 0 ==> g' == [];
      assert 0 < |h'| ==> h'[|h'| - 1] == h[|h| - 2] && h[|h| - 2].at <= h[|h| - 1].at;
      assert forall i :: 0 <= i < |g'| ==> g[i] == g'[i] && g'[i].reading <= h[|h| - 1].at;
    }
  }

  lemma {:induction false} EpisodesSorted(g: seq<Obs<int>>, minMs: int)
    requires forall i, j :: 0 <= i < j < |g| ==> g[i].reading <= g[j].reading
    ensures SortedEnds(Episodes(g, minMs))
  {
    var es, ss := Episodes(g, minMs), Spans(g, minMs);
    forall i, j | 0 <= i < j < |es|
      ensures es[i].endedAt <= es[j].endedAt
    {
      SpansOrdered(g, minMs, i, j);
    }
  }

  /** No expired event stands behind one that is not. */
  predicate ExpiredFirst(es: seq<GazeAwayEvent>, cutoff: int) {
    forall i, j :: 0 <= i < j < |es| ==> cutoff <= es[i].endedAt ==> cutoff <= es[j].endedAt
  }

  lemma {:induction false} ExpiredFirstTail(es: seq<GazeAwayEvent>, cutoff: int)
    requires ExpiredFirst(es, cutoff) && |es| > 0
    ensures ExpiredFirst(es[1..], cutoff)
    ensures cutoff <= es[0].endedAt ==> forall i :: 0 <= i < |es| ==> cutoff <= es[i].endedAt
  {
  }

  lemma {:induction false} PopFilters(es: seq<GazeAwayEvent>, cutoff: int)
    requires ExpiredFirst(es, cutoff)
    ensures PopExpired(es, cutoff) == Recent(es, cutoff)
    decreases |es|
  {
    hide Recent, ExpiredFirst;
    if |es| == 0 {
      RecentAll(es, cutoff);
    } else {
      ExpiredFirstTail(es, cutoff);
      if es[0].endedAt < cutoff {
        assert es == es[..1] + es[1..];
        RecentNone(es[..1], cutoff);
        RecentConcat(es[..1], es[1..], cutoff);
        PopFilters(es[1..], cutoff);
      } else {
        RecentAll(es, cutoff);
      }
    }
  }

  /** The popleft loop keeps everything from the first event that is not expired. */
  lemma {:induction false} PopKeeps(es: seq<GazeAwayEvent>, cutoff: int, i: nat, j: nat)
    requires i <= j < |es| && cutoff <= es[i].endedAt
    ensures es[j] in PopExpired(es, cutoff)
  {
    hide PopExpired;
    var r := PopExpired(es, cutoff);
    var n := |es| - |r|;
    assert n <= i;
    assert r[j - n] == es[j];
  }

  /** The popleft loop leaves exactly the events within the window if and only if no expired event
      stands behind one that is not. */
  lemma {:induction false} PopIsFilterWhen(es: seq<GazeAwayEvent>, cutoff: int)
    ensures PopExpired(es, cutoff) == Recent(es, cutoff) <==> ExpiredFirst(es, cutoff)
  {
    hide PopExpired, Recent;
    if PopExpired(es, cutoff) == Recent(es, cutoff) {
      forall i, j | 0 <= i < j < |es| && cutoff <= es[i].endedAt
        ensures cutoff <= es[j].endedAt
      {
        PopKeeps(es, cutoff, i, j);
      }
    }
    if ExpiredFirst(es, cutoff) {
      PopFilters(es, cutoff);
    }
  }

  predicate SortedEnds(es: seq<GazeAwayEvent>) {
    forall i, j :: 0 <= i < j < |es| ==> es[i].endedAt <= es[j].endedAt
  }

  ghost predicate PopFiltersAlways(es: seq<GazeAwayEvent>) {
    forall c :: PopExpired(es, c) == Recent(es, c)
  }

  /** It does so for every cutoff if and only if the events end in order. */
  lemma {:induction false} PopAlwaysFiltersWhen(es: seq<GazeAwayEvent>)
    ensures PopFiltersAlways(es) <==> SortedEnds(es)
  {
    hide PopExpired, Recent;
    if PopFiltersAlways(es) {
      forall i, j | 0 <= i < j < |es|
        ensures es[i].endedAt <= es[j].endedAt
      {
        PopKeeps(es, es[i].endedAt, i, j);
      }
    }
    if SortedEnds(es) {
      forall c
        ensures PopExpired(es, c) == Recent(es, c)
      {
        PopFilters(es, c);
      }
    }
  }

  /** At every call, whatever the timestamps: the expiry leaves exactly the events of the deque
      that are within the window if and only if the expired ones all stand in front. */
  lemma {:induction false} ExpiryIsExactWhen(h: seq<GazeFrame>, minMs: int, windowMs: int)
    requires |h| > 0
    ensures var q := Window(h[..|h| - 1], minMs, windowMs) + Closed(h, minMs);
      Window(h, minMs, windowMs) == Recent(q, Cutoff(h, windowMs)) <==> ExpiredFirst(q, Cutoff(h, windowMs))
  {
    hide Window, Closed, Cutoff, PopExpired, Recent, ExpiredFirst;
    WindowStep(h, minMs, windowMs);
    PopIsFilterWhen(Window(h[..|h| - 1], minMs, windowMs) + Closed(h, minMs), Cutoff(h, windowMs));
  }

  lemma {:induction false} RecentNone(es: seq<GazeAwayEvent>, cutoff: int)
    requires forall i :: 0 <= i < |es| ==> es[i].endedAt < cutoff
    ensures Recent(es, cutoff) == []
  {
    if |es| > 0 {
      assert es[|es| - 1].endedAt < cutoff;
      RecentNone(es[..|es| - 1], cutoff);
    }
  }

  lemma {:induction false} RecentAll(es: seq<GazeAwayEvent>, cutoff: int)
    requires forall i :: 0 <= i < |es| ==> cutoff <= es[i].endedAt
    ensures Recent(es, cutoff) == es
  {
    if |es| > 0 {
      assert es == es[..|es| - 1] + [es[|es| - 1]];
      RecentAll(es[..|es| - 1], cutoff);
    }
  }

  lemma {:induction false} RecentConcat(a: seq<GazeAwayEvent>, b: seq<GazeAwayEvent>, cutoff: int)
    ensures Recent(a + b, cutoff) == Recent(a, cutoff) + Recent(b, cutoff)
    decreases |b|
  {
    if |b| == 0 {
      assert a + b == a;
    } else {
      assert (a + b)[..|a + b| - 1] == a + b[..|b| - 1];
      RecentConcat(a, b[..|b| - 1], cutoff);
    }
  }

  /** Popping with an earlier cutoff first does not change what a later cutoff leaves. */
  lemma {:induction false} PopTwice(es: seq<GazeAwayEvent>, tail: seq<GazeAwayEvent>, c0: int, c1: int)
    requires c0 <= c1
    ensures PopExpired(PopExpired(es, c0) + tail, c1) == PopExpired(es + tail, c1)
    decreases |es|
  {
    if |es| > 0 && es[0].endedAt < c0 {
      assert (es + tail)[1..] == es[1..] + tail;
      PopTwice(es[1..], tail, c0, c1);
    }
  }

  lemma {:induction false} WindowIsPopped(h: seq<GazeFrame>, minMs: int, windowMs: int)
    requires Monotone(h) && 0 < |h|
    ensures Window(h, minMs, windowMs) == PopExpired(Closings(h, minMs), Cutoff(h, windowMs))
  {
    var h' := h[..|h| - 1];
    if |h'| > 0 {
      WindowIsPopped(h', minMs, windowMs);
      PopTwice(Closings(h', minMs), Closed(h, minMs), Cutoff(h', windowMs), Cutoff(h, windowMs));
    }
  }

  /** Gaze refinement: with non-decreasing timestamps the deque is exactly the closed episodes
      of the whole history that ended within the window before the latest frame. */
  lemma {:induction false} WindowIsRecentEpisodes(h: seq<GazeFrame>, minMs: int, windowMs: int)
    requires Monotone(h) && 0 < |h|
    ensures Window(h, minMs, windowMs) == Recent(Episodes(Seen(h), minMs), Cutoff(h, windowMs))
  {
    WindowIsPopped(h, minMs, windowMs);
    ClosingsAreEpisodes(h, minMs);
    SeenMonotone(h);
    EpisodesSorted(Seen(h), minMs);
    PopAlwaysFiltersWhen(Episodes(Seen(h), minMs));
  }

  /** Without ordered timestamps the deque can keep an expired event behind a younger one:
      here the second episode ended at 0, the window starts at 1000, and both are kept. */
  lemma {:induction false} UnorderedTimestampsKeepExpired() returns (h: seq<GazeFrame>)
    ensures 0 < |h| && !Monotone(h)
    ensures exists e :: e in Window(h, 0, 1000) && e.endedAt < Cutoff(h, 1000)
    ensures Window(h, 0, 1000) != Recent(Closings(h, 0), Cutoff(h, 1000))
  {
    h := AppendOff([], 1, 5000);
    h := AppendOn(h, 1, 2, 5000);
    h := AppendOff(h, 3, 0);
    h := AppendOn(h, 3, 4, 0);
    var last := [GazeFrame(None, 5, 2000)];
    KeepsWindow(h, h + last, 2000);
    h := h + last;
    assert Window(h, 0, 1000)[1] in Window(h, 0, 1000);
    assert h[2].at < h[1].at;
  }

  lemma {:induction false} NotClosed(h: seq<GazeFrame>, minMs: int)
    requires |h| > 0 && h[|h| - 1].offScreen != Some(false)
    ensures Closed(h, minMs) == []
  {
  }

  lemma {:induction false} PopNone(q: seq<GazeAwayEvent>, cutoff: int)
    requires |q| > 0 ==> cutoff <= q[0].endedAt
    ensures PopExpired(q, cutoff) == q
  {
  }

  lemma {:induction false} AppendOff(h: seq<GazeFrame>, a: EventId, at: int) returns (h': seq<GazeFrame>)
    requires |Seen(h)| > 0 ==> !Seen(h)[|Seen(h)| - 1].hit
    requires |Window(h, 0, 1000)| > 0 ==> at - 1000 <= Window(h, 0, 1000)[0].endedAt
    ensures h' == h + [GazeFrame(Some(true), a, at)]
    ensures Window(h', 0, 1000) == Window(h, 0, 1000)
    ensures SuffixRun(Seen(h')) == 1 && Seen(h')[|Seen(h')| - 1] == Obs(true, a, at)
  {
    h' := h + [GazeFrame(Some(true), a, at)];
    StartsRun(h, h', a, at);
    KeepsWindow(h, h', at);
  }

  lemma {:induction false} StartsRun(h: seq<GazeFrame>, h': seq<GazeFrame>, a: EventId, at: int)
    requires |Seen(h)| > 0 ==> !Seen(h)[|Seen(h)| - 1].hit
    requires h' == h + [GazeFrame(Some(true), a, at)]
    ensures SuffixRun(Seen(h')) == 1 && Seen(h')[|Seen(h')| - 1] == Obs(true, a, at)
  {
    var g, g' := Seen(h), Seen(h');
    assert h'[..|h|] == h && g' == g + [Obs(true, a, at)];
    assert g'[..|g|] == g;
  }

  lemma {:induction false} WindowStep(h: seq<GazeFrame>, minMs: int, windowMs: int)
    requires |h| > 0
    ensures Window(h, minMs, windowMs) ==
      PopExpired(Window(h[..|h| - 1], minMs, windowMs) + Closed(h, minMs), Cutoff(h, windowMs))
  {
    hide Closed, PopExpired, Cutoff;
  }

  lemma {:induction false} KeepsWindow(h: seq<GazeFrame>, h': seq<GazeFrame>, at: int)
    requires |h'| == |h| + 1 && h'[..|h|] == h && h'[|h|].at == at && h'[|h|].offScreen != Some(false)
    requires |Window(h, 0, 1000)| > 0 ==> at - 1000 <= Window(h, 0, 1000)[0].endedAt
    ensures Window(h', 0, 1000) == Window(h, 0, 1000)
  {
    hide Closed, PopExpired, Seen, Window;
    NotClosed(h', 0);
    var w := Window(h, 0, 1000);
    assert h'[..|h'| - 1] == h;
    WindowStep(h', 0, 1000);
    assert w + Closed(h', 0) == w;
    PopNone(w, at - 1000);
  }

  lemma {:induction false} AppendOn(h: seq<GazeFrame>, a: EventId, b: EventId, at: int) returns (h': seq<GazeFrame>)
    requires |Window(h, 0, 1000)| > 0 ==> at - 1000 <= Window(h, 0, 1000)[0].endedAt
    requires SuffixRun(Seen(h)) == 1 && Seen(h)[|Seen(h)| - 1] == Obs(true, a, at)
    ensures h' == h + [GazeFrame(Some(false), b, at)]
    ensures Window(h', 0, 1000) == Window(h, 0, 1000) + [GazeAwayEvent(at, at, [a])]
    ensures |Seen(h')| > 0 && !Seen(h')[|Seen(h')| - 1].hit
  {
    hide Closed, PopExpired, Seen, SuffixRun, Window;
    h' := h + [GazeFrame(Some(false), b, at)];
    ClosesRunOfOne(h, h', a, b, at);
    assert h'[..|h'| - 1] == h;
    WindowStep(h', 0, 1000);
    PopNone(Window(h, 0, 1000) + [GazeAwayEvent(at, at, [a])], at - 1000);
  }

  lemma {:induction false} ClosesRunOfOne(h: seq<GazeFrame>, h': seq<GazeFrame>, a: EventId, b: EventId, at: int)
    requires SuffixRun(Seen(h)) == 1 && Seen(h)[|Seen(h)| - 1] == Obs(true, a, at)
    requires h' == h + [GazeFrame(Some(false), b, at)]
    ensures Closed(h', 0) == [GazeAwayEvent(at, at, [a])]
    ensures |Seen(h')| > 0 && !Seen(h')[|Seen(h')| - 1].hit
  {
    assert h'[..|h'| - 1] == h;
    var g := Seen(h);
    hide Seen, SuffixRun;
    assert Last(g, 1) == [Obs(true, a, at)];
    assert Ids(Last(g, 1)) == [a];
  }

  // -------------------------------------------------------------------------
  // Evidence trails of gaze flags
  // -------------------------------------------------------------------------

  function FrameIds(h: seq<GazeFrame>): (ids: seq<EventId>)
    ensures |ids| == |h|
    ensures forall i :: 0 <= i < |h| ==> ids[i] == h[i].id
  {
    seq(|h|, i requires 0 <= i < |h| => h[i].id)
  }

  /** The contributing ids of a list of events, put together in order. */
  function AllIds(es: seq<GazeAwayEvent>): seq<EventId> {
    if |es| == 0 then [] else AllIds(es[..|es| - 1]) + es[|es| - 1].contributing
  }

  lemma {:induction false} SeenInOrder(h: seq<GazeFrame>)
    ensures InOrder(Ids(Seen(h)), FrameIds(h))
  {
    hide InOrder;
    if |h| == 0 {
      EmptyInOrder(FrameIds(h));
      assert Ids(Seen(h)) == [];
    } else {
      var h', f := h[..|h| - 1], h[|h| - 1];
      SeenInOrder(h');
      var ids, n := FrameIds(h), |h'|;
      assert ids[..n] == FrameIds(h') && ids[..n + 1] == ids;
      if f.offScreen.Some? {
        InOrderThenSlice(Ids(Seen(h')), ids, n, n, n + 1);
        assert Ids(Seen(h)) == Ids(Seen(h')) + ids[n..n + 1];
      } else {
        assert Seen(h) == Seen(h');
        InOrderLonger(Ids(Seen(h')), ids, n);
      }
    }
  }

  /** Consecutive episodes lo..hi of a history: their ids together are in feed order. */
  lemma {:induction false} EpisodeIdsInOrder(g: seq<Obs<int>>, minMs: int, lo: nat, hi: nat)
    requires lo < hi <= |Spans(g, minMs)|
    ensures InOrder(AllIds(Episodes(g, minMs)[lo..hi]), Ids(g)[..Spans(g, minMs)[hi - 1].end])
    decreases hi
  {
    hide Ids, Seen;
    var es, ss, k := Episodes(g, minMs), Spans(g, minMs), hi - 1;
    var s := ss[k];
    assert es[k].contributing == Ids(g)[s.first..s.end];
    assert es[lo..hi][..k - lo] == es[lo..k];
    if lo < k {
      EpisodeIdsInOrder(g, minMs, lo, k);
      SpansOrdered(g, minMs, k - 1, k);
      InOrderThenSlice(AllIds(es[lo..k]), Ids(g), ss[k - 1].end, s.first, s.end);
    } else {
      EmptyInOrder(Ids(g)[..0]);
      InOrderThenSlice([], Ids(g), 0, s.first, s.end);
      assert AllIds(es[lo..hi]) == es[k].contributing;
    }
  }

  lemma {:induction false} NoEvents(es: seq<GazeAwayEvent>)
    requires |es| == 0
    ensures AllIds(es) == []
  {
  }

  /** Whatever the timestamps, the ids of all events in the deque are in feed order. */
  lemma {:induction false} WindowTrail(h: seq<GazeFrame>, minMs: int, windowMs: int)
    ensures InOrder(AllIds(Window(h, minMs, windowMs)), FrameIds(h))
  {
    hide Window, Seen, Closings, AllIds, PopExpired;
    var g, w := Seen(h), Window(h, minMs, windowMs);
    WindowIsSuffix(h, minMs, windowMs);
    ClosingsAreEpisodes(h, minMs);
    if |w| == 0 {
      NoEvents(w);
      EmptyInOrder(FrameIds(h));
    } else {
      var es := Episodes(g, minMs);
      var end := Spans(g, minMs)[|es| - 1].end;
      EpisodeIdsInOrder(g, minMs, |es| - |w|, |es|);
      assert w == es[|es| - |w|..|es|];
      SeenTrail(h, AllIds(w), end);
    }
  }

  lemma {:induction false} SeenTrail(h: seq<GazeFrame>, ids: seq<EventId>, end: nat)
    requires end <= |Seen(h)| && InOrder(ids, Ids(Seen(h))[..end])
    ensures InOrder(ids, FrameIds(h))
  {
    InOrderLonger(ids, Ids(Seen(h)), end);
    SeenInOrder(h);
    InOrderTransitive(ids, Ids(Seen(h)), FrameIds(h));
  }

  /** The same for the latest event of the deque alone. */
  lemma {:induction false} LatestTrail(h: seq<GazeFrame>, minMs: int, windowMs: int)
    requires |Window(h, minMs, windowMs)| > 0
    ensures var w := Window(h, minMs, windowMs);
      InOrder(w[|w| - 1].contributing, FrameIds(h))
  {
    hide Window, Seen, Closings, AllIds, PopExpired, Spans, Ids;
    var g, w := Seen(h), Window(h, minMs, windowMs);
    WindowIsSuffix(h, minMs, windowMs);
    ClosingsAreEpisodes(h, minMs);
    var n, end := |Episodes(g, minMs)|, Spans(g, minMs)[|Episodes(g, minMs)| - 1].end;
    EpisodeIdsInOrder(g, minMs, n - 1, n);
    SingleEvent(Episodes(g, minMs)[n - 1..n]);
    SeenTrail(h, w[|w| - 1].contributing, end);
  }

  lemma {:induction false} SingleEvent(es: seq<GazeAwayEvent>)
    requires |es| == 1
    ensures AllIds(es) == es[0].contributing
  {
    assert AllIds(es[..0]) == [];
  }
}
