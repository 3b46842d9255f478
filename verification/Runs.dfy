/** Runs of consecutive hits in a history of observations.

    Three detection paths (second person, liveness, identity) and the gaze streak keep a
    counter or a bounded window over their frames. Here the same quantities are functions
    of the whole history, with the facts that relate a run counter to a window. */
module Runs {
  import opened FusionTypes
  import Arithmetic
  import FirstTime

  /** One frame as a path sees it: whether it counts, the id it was fed with, and its reading. */
  datatype Obs<T> = Obs(hit: bool, id: EventId, reading: T)

  function Ids<T>(h: seq<Obs<T>>): (ids: seq<EventId>)
    ensures |ids| == |h|
    ensures forall i :: 0 <= i < |h| ==> ids[i] == h[i].id
  {
    seq(|h|, i requires 0 <= i < |h| => h[i].id)
  }

  function Readings<T>(h: seq<Obs<T>>): (rs: seq<T>)
    ensures |rs| == |h|
    ensures forall i :: 0 <= i < |h| ==> rs[i] == h[i].reading
  {
    seq(|h|, i requires 0 <= i < |h| => h[i].reading)
  }

  /** The last k frames, or all of them when there are fewer. */
  function Last<T>(h: seq<T>, k: nat): (w: seq<T>)
    ensures |w| == if |h| < k then |h| else k
    ensures forall i :: 0 <= i < |w| ==> w[i] == h[|h| - |w| + i]
  {
    var n := if |h| < k then |h| else k;
    seq(n, i requires 0 <= i < n => h[|h| - n + i])
  }

  /** The length of the longest suffix of hits. */
  function SuffixRun<T>(h: seq<Obs<T>>): (n: nat)
    ensures n <= |h|
    ensures forall i :: |h| - n <= i < |h| ==> h[i].hit
    ensures n < |h| ==> !h[|h| - n - 1].hit
  {
    if |h| == 0 || !h[|h| - 1].hit then 0 else 1 + SuffixRun(h[..|h| - 1])
  }

  /** There are at least k frames and the last k are all hits. */
  predicate AllLast<T>(h: seq<Obs<T>>, k: nat) {
    k <= |h| && forall i :: |h| - k <= i < |h| ==> h[i].hit
  }

  /** A run counter reaches k exactly when the window of the last k frames is full of hits. */
  lemma {:induction false} RunReachesWindow<T>(h: seq<Obs<T>>, k: nat)
    ensures AllLast(h, k) <==> k <= SuffixRun(h)
  {
    var n := SuffixRun(h);
    if n < k <= |h| {
      assert !h[|h| - n - 1].hit;
    }
  }

  /** The condition "the last k frames are all hits", as a function of the history. */
  ghost function FullWindow<T>(k: nat): seq<Obs<T>> -> bool {
    h => AllLast(h, k)
  }

  /** When a path confirms for the first time, the run of hits is exactly k long: the window
      it cites is the whole run, and the frame before it, if any, is not a hit. */
  lemma {:induction false} ConfirmingRunIsWindow<T>(h: seq<Obs<T>>, k: nat)
    requires 0 < k && FirstTime.HappensNow(FullWindow(k), h)
    ensures SuffixRun(h) == k
    ensures k < |h| ==> !h[|h| - k - 1].hit
  {
    RunReachesWindow(h, k);
    assert FullWindow<T>(k)(h);
    var front := h[..|h| - 1];
    assert !FullWindow<T>(k)(front);
    RunReachesWindow(front, k);
    assert SuffixRun(h) == 1 + SuffixRun(front);
  }

  /** A path that confirms at the first window of k hits does so exactly once in any run of
      calls in which some window of k frames is all hits, and never in any other. */
  lemma {:induction false} ConfirmsExactlyOnce<T>(h: seq<Obs<T>>, k: nat)
    requires 0 < k
    ensures FirstTime.Occurrences(FullWindow(k), h) ==
              if exists n :: k <= n <= |h| && AllLast(h[..n], k) then 1 else 0
  {
    FirstTime.ExactlyOnce(FullWindow<T>(k), h);
    if n :| 0 <= n <= |h| && FullWindow<T>(k)(h[..n]) {
      assert AllLast(h[..n], k);
    }
    if n :| k <= n <= |h| && AllLast(h[..n], k) {
      assert FullWindow<T>(k)(h[..n]);
    }
  }

  // -------------------------------------------------------------------------
  // Confirmation that tiles: once every w hits of a run
  // -------------------------------------------------------------------------

  /** The last frame ends a run of hits whose length is a positive multiple of w. */
  predicate CompletesTile<T>(h: seq<Obs<T>>, w: nat)
    requires 0 < w
  {
    0 < SuffixRun(h) && SuffixRun(h) % w == 0
  }

  /** A completed tile implies that the window of the last w frames is full and all hits. */
  lemma {:induction false} TileFillsWindow<T>(h: seq<Obs<T>>, w: nat)
    requires 0 < w && CompletesTile(h, w)
    ensures AllLast(h, w)
  {
    Arithmetic.SmallMod(SuffixRun(h), w);
    RunReachesWindow(h, w);
  }

  /** What the call that feeds the last frame cites: the last w frames, if a tile is complete. */
  function TileAt<T>(h: seq<Obs<T>>, w: nat): seq<seq<EventId>>
    requires 0 < w
  {
    if CompletesTile(h, w) then [Ids(Last(h, w))] else []
  }

  /** The id lists cited by the tile confirmations of a whole run of calls, in order. */
  function TileCitations<T>(h: seq<Obs<T>>, w: nat): seq<seq<EventId>>
    requires 0 < w
  {
    if |h| == 0 then [] else TileCitations(h[..|h| - 1], w) + TileAt(h, w)
  }

  lemma {:induction false} SuffixRunAfterBreak<T>(before: seq<Obs<T>>, run: seq<Obs<T>>)
    requires |before| == 0 || !before[|before| - 1].hit
    requires forall i :: 0 <= i < |run| ==> run[i].hit
    ensures SuffixRun(before + run) == |run|
    decreases |run|
  {
    var h := before + run;
    if |run| == 0 {
      assert h == before;
    } else {
      assert h[..|h| - 1] == before + run[..|run| - 1];
      SuffixRunAfterBreak(before, run[..|run| - 1]);
    }
  }

  /** The consecutive blocks of w frames that fit into a run, as id lists. */
  function Tiles<T>(run: seq<Obs<T>>, w: nat): seq<seq<EventId>>
    requires 0 < w
  {
    if |run| < w then [] else [Ids(run[..w])] + Tiles(run[w..], w)
  }

  /** The tile that the last frame of a run completes, if it completes one. */
  function LastTile<T>(run: seq<Obs<T>>, w: nat): seq<seq<EventId>>
    requires 0 < w
  {
    if 0 < |run| && |run| % w == 0 && w <= |run| then [Ids(run[|run| - w..])] else []
  }

  lemma {:induction false} LastTileShift<T>(run: seq<Obs<T>>, w: nat)
    requires 0 < w < |run|
    ensures LastTile(run, w) == LastTile(run[w..], w)
  {
    Arithmetic.ModMinus(|run|, w);
    Arithmetic.SmallMod(|run| - w, w);
    if w + w <= |run| {
      assert run[w..][|run| - w - w..] == run[|run| - w..];
    }
  }

  lemma {:induction false} LastTileShort<T>(run: seq<Obs<T>>, w: nat)
    requires 0 < w && 0 < |run|
    ensures |run| < w ==> LastTile(run, w) == []
    ensures |run| == w ==> LastTile(run, w) == [Ids(run)]
    ensures LastTile(run, w) == if |run| % w == 0 then [Ids(Last(run, w))] else []
  {
    Arithmetic.SmallMod(|run|, w);
    assert w <= |run| ==> Last(run, w) == run[|run| - w..];
    if |run| == w {
      Arithmetic.DivModOf(|run|, w, 1, 0);
      assert run[0..] == run;
    }
  }

  /** Appending a frame to a run appends a tile exactly when the length reaches a multiple of w. */
  lemma {:induction false} TilesStep<T>(run: seq<Obs<T>>, w: nat)
    requires 0 < w && 0 < |run|
    ensures Tiles(run, w) == Tiles(run[..|run| - 1], w) + LastTile(run, w)
    decreases |run|
  {
    hide Ids, Last;
    LastTileShort(run, w);
    var n, front := |run|, run[..|run| - 1];
    if n == w {
      assert run[..w] == run;
      assert Tiles(run[w..], w) == [];
    } else if w < n {
      var rest := run[w..];
      assert front[..w] == run[..w];
      assert front[w..] == rest[..n - w - 1];
      TilesStep(rest, w);
      LastTileShift(run, w);
      var t := LastTile(run, w);
      assert Tiles(front, w) == [Ids(run[..w])] + Tiles(front[w..], w);
      assert Tiles(run, w) == [Ids(run[..w])] + (Tiles(front[w..], w) + t);
    }
  }

  lemma {:induction false} LastOfRun<T>(before: seq<Obs<T>>, run: seq<Obs<T>>, w: nat)
    requires 0 < w && 0 < |run|
    requires |before| == 0 || !before[|before| - 1].hit
    requires forall i :: 0 <= i < |run| ==> run[i].hit
    ensures TileAt(before + run, w) == LastTile(run, w)
  {
    SuffixRunAfterBreak(before, run);
    Arithmetic.SmallMod(|run|, w);
    if w <= |run| {
      assert Last(before + run, w) == run[|run| - w..];
    }
  }

  lemma {:induction false} CitationsStep<T>(h: seq<Obs<T>>, o: Obs<T>, w: nat)
    requires 0 < w
    ensures TileCitations(h + [o], w) == TileCitations(h, w) + TileAt(h + [o], w)
  {
    assert (h + [o])[..|h|] == h;
  }

  lemma {:induction false} NoTiles<T>(run: seq<Obs<T>>, w: nat)
    requires 0 < w && |run| == 0
    ensures Tiles(run, w) == []
  {
  }

  /** Liveness tiling: a run of L hits that starts a history or follows a non-hit adds exactly
      the tiles of the run, in order, to what is confirmed. */
  lemma {:induction false} RunIsTiled<T>(before: seq<Obs<T>>, run: seq<Obs<T>>, w: nat)
    requires 0 < w
    requires |before| == 0 || !before[|before| - 1].hit
    requires forall i :: 0 <= i < |run| ==> run[i].hit
    ensures TileCitations(before + run, w) == TileCitations(before, w) + Tiles(run, w)
    decreases |run|
  {
    hide Ids, Last, LastTile, TileAt, SuffixRun, Tiles, TileCitations;
    var h := before + run;
    if |run| == 0 {
      assert h == before;
      NoTiles(run, w);
    } else {
      var front, tile := run[..|run| - 1], LastTile(run, w);
      assert h == before + front + [run[|run| - 1]];
      CitationsStep(before + front, run[|run| - 1], w);
      LastOfRun(before, run, w);
      RunIsTiled(before, front, w);
      TilesStep(run, w);
      assert TileCitations(before, w) + Tiles(front, w) + tile == TileCitations(before, w) + (Tiles(front, w) + tile);
    }
  }

  /** There are exactly L / w tiles, each of w frames, and together they are the first
      w * (L / w) frames of the run, each frame once and in order. */
  lemma {:induction false} TilesCoverRun<T>(run: seq<Obs<T>>, w: nat)
    requires 0 < w
    ensures |Tiles(run, w)| == |run| / w
    ensures forall j :: 0 <= j < |Tiles(run, w)| ==> |Tiles(run, w)[j]| == w
    ensures 0 <= |run| - |run| % w <= |run| && Flatten(Tiles(run, w)) == Ids(run[..|run| - |run| % w])
    decreases |run|
  {
    hide Ids, Last;
    var n := |run|;
    if n < w {
      Arithmetic.DivModOf(n, w, 0, n);
      assert Ids(run[..0]) == [];
    } else {
      var rest := run[w..];
      TilesCoverRun(rest, w);
      Arithmetic.ModMinus(n, w);
      FlattenFront(Ids(run[..w]), Tiles(rest, w));
      var m := n - n % w;
      assert Ids(run[..m]) == Ids(run[..w]) + Ids(rest[..m - w]);
    }
  }

  lemma {:induction false} FlattenFront<T>(x: seq<T>, parts: seq<seq<T>>)
    ensures Flatten([x] + parts) == x + Flatten(parts)
    decreases |parts|
  {
    if |parts| == 0 {
      assert ([x] + parts)[..0] == [];
      assert Flatten([x] + parts) == Flatten<T>([]) + x;
    } else {
      var all := [x] + parts;
      assert all[..|all| - 1] == [x] + parts[..|parts| - 1];
      FlattenFront(x, parts[..|parts| - 1]);
    }
  }

  function Flatten<T>(parts: seq<seq<T>>): seq<T> {
    if |parts| == 0 then [] else Flatten(parts[..|parts| - 1]) + parts[|parts| - 1]
  }
}
