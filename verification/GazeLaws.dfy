/** What the gaze path returns, read off the frames it was fed. */
module GazeLaws {
  import opened FusionTypes
  import opened Runs
  import opened GazeEpisodes
  import opened Fusion
  import opened Histories
  import opened FusionRuns
  import opened AggregatorLaws
  import FirstTime

  // -------------------------------------------------------------------------
  // Frames and streaks
  // -------------------------------------------------------------------------

  /** The frames that have landmarks, in order. */
  function WithLandmarks(h: seq<GazeFrame>): seq<GazeFrame> {
    if |h| == 0 then [] else (if h[0].offScreen.Some? then [h[0]] else []) + WithLandmarks(h[1..])
  }

  lemma {:induction false} LandmarksLast(h: seq<GazeFrame>, f: GazeFrame)
    ensures WithLandmarks(h + [f]) == WithLandmarks(h) + (if f.offScreen.Some? then [f] else [])
  {
    if |h| == 0 {
      assert h + [f] == [f] && [f][1..] == [];
    } else {
      LandmarksLast(h[1..], f);
      var first, last := if h[0].offScreen.Some? then [h[0]] else [], if f.offScreen.Some? then [f] else [];
      var rest := WithLandmarks(h[1..]);
      assert (h + [f])[1..] == h[1..] + [f] && (h + [f])[0] == h[0];
      assert WithLandmarks(h) == first + rest && WithLandmarks(h + [f]) == first + (rest + last);
    }
  }

  lemma {:induction false} SeenLandmarks(h: seq<GazeFrame>)
    ensures var fs, g := WithLandmarks(h), Seen(h);
      |g| == |fs| && forall i :: 0 <= i < |fs| ==>
        && g[i] == Obs(fs[i].offScreen == Some(true), fs[i].id, fs[i].at)
        && (!g[i].hit ==> fs[i].offScreen == Some(false))
  {
    if |h| > 0 {
      var front, f := h[..|h| - 1], h[|h| - 1];
      SeenLandmarks(front);
      LandmarksLast(front, f);
      assert h == front + [f];
    }
  }

  /** A maximal streak of off-screen frames, closed by an on-screen frame, of at least the minimum
      length. */
  predicate IsAway(fs: seq<GazeFrame>, s: Span, minMs: int) {
    && s.first < s.end < |fs|
    && (forall i :: s.first <= i < s.end ==> fs[i].offScreen == Some(true))
    && fs[s.end].offScreen == Some(false)
    && (s.first > 0 ==> fs[s.first - 1].offScreen == Some(false))
    && minMs <= fs[s.end].at - fs[s.first].at
  }

  lemma {:induction false} AwayIsEpisode(h: seq<GazeFrame>, s: Span, minMs: int)
    ensures IsAway(WithLandmarks(h), s, minMs) <==> IsEpisode(Seen(h), s, minMs)
  {
    SeenLandmarks(h);
  }

  /** The streaks of a history that ended no earlier than the cutoff, first to last. */
  ghost predicate AreAway(h: seq<GazeFrame>, minMs: int, cutoff: int, ss: seq<Span>) {
    && (forall s :: s in ss <==> IsAway(WithLandmarks(h), s, minMs) && cutoff <= WithLandmarks(h)[s.end].at)
    && Apart(ss)
  }

  predicate Apart(ss: seq<Span>) {
    forall j, k :: 0 <= j < k < |ss| ==> ss[j].end < ss[k].first
  }

  function FrameIdsOf(fs: seq<GazeFrame>): (ids: seq<EventId>)
    ensures |ids| == |fs| && forall i :: 0 <= i < |fs| ==> ids[i] == fs[i].id
  {
    seq(|fs|, i requires 0 <= i < |fs| => fs[i].id)
  }

  /** The event of a streak: when it began, when it was closed, and its frames. */
  function AwayEvent(fs: seq<GazeFrame>, s: Span): GazeAwayEvent
    requires s.first < s.end < |fs|
  {
    GazeAwayEvent(fs[s.first].at, fs[s.end].at, FrameIdsOf(fs[s.first..s.end]))
  }

  /** The spans of some events that ended no earlier than the cutoff. */
  function Within(g: seq<Obs<int>>, ss: seq<Span>, cutoff: int): (r: seq<Span>)
    requires forall k :: 0 <= k < |ss| ==> ss[k].first < ss[k].end < |g|
    ensures |r| <= |ss|
    ensures forall s :: s in r <==> s in ss && cutoff <= g[s.end].reading
    ensures forall k :: 0 <= k < |r| ==> r[k].first < r[k].end < |g|
  {
    if |ss| == 0 then []
    else
      var last := ss[|ss| - 1];
      var front := Within(g, ss[..|ss| - 1], cutoff);
      assert ss == ss[..|ss| - 1] + [last];
      if cutoff <= g[last.end].reading then front + [last] else front
  }

  lemma {:induction false} OrderedNext(ss: seq<Span>, s: Span)
    requires Apart(ss)
    ensures Apart(ss + [s]) <==> forall x :: x in ss ==> x.end < s.first
  {
    var all, n := ss + [s], |ss|;
    assert all[n] == s && forall i :: 0 <= i < n ==> all[i] == ss[i];
    if Apart(all) {
      forall x | x in ss
        ensures x.end < s.first
      {
        var i :| 0 <= i < n && ss[i] == x;
        assert all[i].end < all[n].first;
      }
    }
  }

  lemma {:induction false} WithinOrdered(g: seq<Obs<int>>, ss: seq<Span>, cutoff: int)
    requires forall k :: 0 <= k < |ss| ==> ss[k].first < ss[k].end < |g|
    requires Apart(ss)
    ensures Apart(Within(g, ss, cutoff))
  {
    if |ss| > 0 {
      var front, last := ss[..|ss| - 1], ss[|ss| - 1];
      assert ss == front + [last];
      assert Apart(front);
      WithinOrdered(g, front, cutoff);
      var r, r' := Within(g, front, cutoff), Within(g, ss, cutoff);
      assert r' == r || r' == r + [last];
      hide Within, Apart;
      OrderedNext(front, last);
      OrderedNext(r, last);
    }
  }

  lemma {:induction false} OneMoreEvent(g: seq<Obs<int>>, ss: seq<Span>, s: Span)
    requires forall k :: 0 <= k < |ss| ==> ss[k].first < ss[k].end < |g|
    requires s.first < s.end < |g|
    ensures EventsOf(g, ss + [s]) == EventsOf(g, ss) + [EventOf(g, s)]
  {
    hide EventOf;
  }

  lemma {:induction false} RecentLast(es: seq<GazeAwayEvent>, e: GazeAwayEvent, cutoff: int)
    ensures Recent(es + [e], cutoff) == Recent(es, cutoff) + (if cutoff <= e.endedAt then [e] else [])
  {
    assert (es + [e])[..|es|] == es;
  }

  lemma {:induction false} RecentWithin(g: seq<Obs<int>>, ss: seq<Span>, cutoff: int)
    requires forall k :: 0 <= k < |ss| ==> ss[k].first < ss[k].end < |g|
    ensures Recent(EventsOf(g, ss), cutoff) == EventsOf(g, Within(g, ss, cutoff))
  {
    if |ss| == 0 {
      assert EventsOf(g, ss) == [] == EventsOf(g, []);
    } else {
      var front, last := ss[..|ss| - 1], ss[|ss| - 1];
      assert ss == front + [last];
      RecentWithin(g, front, cutoff);
      hide Recent, EventsOf;
      OneMoreEvent(g, front, last);
      OneMoreEvent(g, Within(g, front, cutoff), last);
      RecentLast(EventsOf(g, front), EventOf(g, last), cutoff);
      assert Recent(EventsOf(g, front), cutoff) + [] == Recent(EventsOf(g, front), cutoff);
    }
  }

  /** The episodes within the window of the latest frame, one by one: a streak of frames with
      landmarks for each, beginning at its first off-screen frame and ending at the on-screen frame
      that closes it, and citing the off-screen frames. */
  lemma {:induction false} EpisodesAre(p: Policy, h: seq<GazeFrame>) returns (ss: seq<Span>)
    requires |h| > 0
    ensures AreAway(h, p.gazeMinDurationMs, h[|h| - 1].at - p.gazeWindowSeconds * 1000, ss)
    ensures var es, fs := EpisodesInWindow(p, h), WithLandmarks(h);
      |es| == |ss| && forall k :: 0 <= k < |ss| ==> ss[k].first < ss[k].end < |fs| && es[k] == AwayEvent(fs, ss[k])
  {
    hide Seen, Spans, Within, WithLandmarks, IsAway, IsEpisode, Recent, EventsOf;
    var g, minMs, cutoff := Seen(h), p.gazeMinDurationMs, h[|h| - 1].at - p.gazeWindowSeconds * 1000;
    ss := Within(g, Spans(g, minMs), cutoff);
    RecentWithin(g, Spans(g, minMs), cutoff);
    SpansWithin(h, minMs, cutoff);
    EventsAre(h, ss);
  }

  lemma {:induction false} SpansWithin(h: seq<GazeFrame>, minMs: int, cutoff: int)
    ensures AreAway(h, minMs, cutoff, Within(Seen(h), Spans(Seen(h), minMs), cutoff))
  {
    hide Seen, Spans, Within, WithLandmarks, IsEpisode;
    var g, all := Seen(h), Spans(Seen(h), minMs);
    forall j, k | 0 <= j < k < |all|
      ensures all[j].end < all[k].first
    {
      SpansOrdered(g, minMs, j, k);
    }
    WithinOrdered(g, all, cutoff);
    SeenLandmarks(h);
    forall s
      ensures s in all <==> IsAway(WithLandmarks(h), s, minMs)
    {
      SpansAreEpisodes(g, minMs, s);
      AwayIsEpisode(h, s, minMs);
    }
  }

  lemma {:induction false} EventsAre(h: seq<GazeFrame>, ss: seq<Span>)
    requires forall k :: 0 <= k < |ss| ==> ss[k].first < ss[k].end < |Seen(h)|
    ensures var fs, es := WithLandmarks(h), EventsOf(Seen(h), ss);
      forall k :: 0 <= k < |ss| ==> ss[k].end < |fs| && es[k] == AwayEvent(fs, ss[k])
  {
    hide Seen, WithLandmarks;
    SeenLandmarks(h);
    forall k | 0 <= k < |ss|
      ensures Ids(Seen(h)[ss[k].first..ss[k].end]) == FrameIdsOf(WithLandmarks(h)[ss[k].first..ss[k].end])
    {
    }
  }

  // -------------------------------------------------------------------------
  // What a call returns
  // -------------------------------------------------------------------------

  /** The off-screen frames of some streaks, put together in order. */
  function AwayIds(fs: seq<GazeFrame>, ss: seq<Span>): seq<EventId>
    requires forall k :: 0 <= k < |ss| ==> ss[k].first < ss[k].end < |fs|
  {
    if |ss| == 0 then [] else FrameIdsOf(fs[ss[0].first..ss[0].end]) + AwayIds(fs, ss[1..])
  }

  lemma {:induction false} AllIdsFirst(e: GazeAwayEvent, es: seq<GazeAwayEvent>)
    ensures AllIds([e] + es) == e.contributing + AllIds(es)
    decreases |es|
  {
    var all := [e] + es;
    if |es| == 0 {
      assert all[..0] == [] && AllIds(all) == AllIds([]) + e.contributing;
    } else {
      assert all[..|all| - 1] == [e] + es[..|es| - 1];
      AllIdsFirst(e, es[..|es| - 1]);
    }
  }

  lemma {:induction false} AllIdsAreAway(fs: seq<GazeFrame>, ss: seq<Span>, es: seq<GazeAwayEvent>)
    requires |es| == |ss|
    requires forall k :: 0 <= k < |ss| ==> ss[k].first < ss[k].end < |fs| && es[k] == AwayEvent(fs, ss[k])
    ensures AllIds(es) == AwayIds(fs, ss)
    decreases |ss|
  {
    if |ss| > 0 {
      AllIdsAreAway(fs, ss[1..], es[1..]);
      assert es == [es[0]] + es[1..];
      AllIdsFirst(es[0], es[1..]);
    }
  }

  function GazeFrames(inputs: seq<Input>): seq<GazeFrame> {
    if |inputs| == 0 then []
    else
      var last := inputs[|inputs| - 1];
      GazeFrames(inputs[..|inputs| - 1]) +
      (if last.GazeInput? then [GazeFrame(last.gaze.offScreen, last.id, last.at)] else [])
  }

  lemma {:induction false} GazeSeen(p: Policy, inputs: seq<Input>)
    ensures AfterInputs(p, inputs).gaze == GazeFrames(inputs)
  {
    if |inputs| > 0 {
      GazeSeen(p, inputs[..|inputs| - 1]);
      hide SecondPersonDecisions, IdentityDecisions, LivenessDecisions, GazeDecisions;
      hide ObjectDecisions, BrowserDecisions, AudioDecisions, TotalDelta;
    }
  }

  /** At some earlier call the episodes within the window had reached the termination limit. */
  ghost predicate ReachedBefore(p: Policy, h: seq<GazeFrame>) {
    exists n :: 0 < n < |h| && p.gazeTerminationLimit <= |EpisodesInWindow(p, h[..n])|
  }

  /** Gaze, after any run on all paths with non-decreasing timestamps: the streaks ss within the
      window decide what a call returns. At the termination limit it is one CRITICAL terminating
      flag that cites the off-screen frames of all of them in order, and nothing ever after. Below
      it and at or above the warning limit it is one scored MEDIUM flag that cites the latest. */
  lemma {:induction false} GazeLaw(p: Policy, inputs: seq<Input>, r: HeadPoseGazeResult, id: EventId, at: int)
    returns (ss: seq<Span>)
    requires Monotone(GazeFrames(inputs) + [GazeFrame(r.offScreen, id, at)])
    ensures var h := GazeFrames(inputs) + [GazeFrame(r.offScreen, id, at)];
      var fs := WithLandmarks(h);
      var ds := Of(Returned(p, AfterInputs(p, inputs), GazeInput(r, id, at)), {GazeAwayFrequency});
      && AreAway(h, p.gazeMinDurationMs, at - p.gazeWindowSeconds * 1000, ss)
      && (forall k :: 0 <= k < |ss| ==> ss[k].first < ss[k].end < |fs|)
      && ds ==
           if ReachedBefore(p, h) then []
           else if p.gazeTerminationLimit <= |ss| then
             [FlagDecision(GazeAwayFrequency, Critical, r.confidence, true, None, AwayIds(fs, ss), 0.0)]
           else if p.gazeWarningLimit <= |ss| then
             [FlagDecision(
               GazeAwayFrequency, Medium, r.confidence, false, None,
               if |ss| == 0 then [] else FrameIdsOf(fs[ss[|ss| - 1].first..ss[|ss| - 1].end]),
               if GazeAwayFrequency in p.scoreWeights then p.scoreWeights[GazeAwayFrequency] else 1.0)]
           else []
  {
    hide AfterInputs, Of, GazeDecisions, GazeFrames, WithLandmarks, AreAway, AwayIds, AllIds, ReachedBefore;
    hide EpisodesInWindow, MediumFlag;
    var h, before := GazeFrames(inputs) + [GazeFrame(r.offScreen, id, at)], AfterInputs(p, inputs);
    GazeSeen(p, inputs);
    ss := EpisodesAre(p, h);
    AllIdsAreAway(WithLandmarks(h), ss, EpisodesInWindow(p, h));
    GazeAt(p, before.Score(), h, r.confidence);
    GazeFlagShape(p, before.Score(), EpisodesInWindow(p, h), r.confidence);
    ReturnsTwoAtMost(p, before, GazeInput(r, id, at));
    OneRule(p, GazeDecisions(p, before.Score(), h, r.confidence), {GazeAwayFrequency}, GazeAwayFrequency);
  }

  lemma {:induction false} GazeAt(p: Policy, score: real, h: seq<GazeFrame>, c: Confidence)
    requires |h| > 0 && Monotone(h)
    ensures GazeDecisions(p, score, h, c) ==
      if ReachedBefore(p, h) then [] else GazeFlag(p, score, EpisodesInWindow(p, h), c)
  {
    hide GazeFlag, EpisodesInWindow, GazeWindow;
    WindowIsEpisodes(p, h);
    var front, limit := h[..|h| - 1], GazeLimitReached(p);
    NothingReached(p);
    forall n | 0 <= n <= |front|
      ensures limit(front[..n]) <==> 0 < n && p.gazeTerminationLimit <= |EpisodesInWindow(p, h[..n])|
    {
      assert front[..n] == h[..n];
      if n > 0 {
        WindowIsEpisodes(p, h[..n]);
      }
    }
    if n :| 0 <= n <= |front| && limit(front[..n]) {
      assert ReachedBefore(p, h);
    }
    if n :| 0 < n < |h| && p.gazeTerminationLimit <= |EpisodesInWindow(p, h[..n])| {
      assert limit(front[..n]);
    }
  }

  lemma {:induction false} NothingReached(p: Policy)
    ensures !GazeLimitReached(p)([])
  {
  }

  lemma {:induction false} WindowIsEpisodes(p: Policy, h: seq<GazeFrame>)
    requires |h| > 0 && Monotone(h)
    ensures GazeWindow(p, h) == EpisodesInWindow(p, h)
  {
    WindowIsRecentEpisodes(h, p.gazeMinDurationMs, p.gazeWindowSeconds * 1000);
  }

  lemma {:induction false} GazeFlagShape(p: Policy, score: real, es: seq<GazeAwayEvent>, c: Confidence)
    ensures var ds := GazeFlag(p, score, es, c);
      if p.gazeTerminationLimit <= |es| then
        ds == [FlagDecision(GazeAwayFrequency, Critical, c, true, None, AllIds(es), 0.0)]
      else if p.gazeWarningLimit <= |es| then
        && |ds| > 0
        && ds[0] == FlagDecision(
             GazeAwayFrequency, Medium, c, false, None, if |es| == 0 then [] else es[|es| - 1].contributing,
             if GazeAwayFrequency in p.scoreWeights then p.scoreWeights[GazeAwayFrequency] else 1.0)
      else ds == []
  {
    hide MediumFlag, AllIds;
    MediumShape(p, score, GazeAwayFrequency, c, if |es| > 0 then es[|es| - 1].contributing else []);
  }
}
