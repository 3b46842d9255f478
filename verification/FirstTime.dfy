/** Events that happen once in a run of calls: at the first prefix of the history that
    meets a condition. Three paths of the aggregator latch a "fired" bit this way. */
module FirstTime {

  /** Some prefix of the history, the whole history included, meets the condition. */
  ghost predicate Happened<T>(p: seq<T> -> bool, h: seq<T>) {
    exists n :: 0 <= n <= |h| && p(h[..n])
  }

  /** The history meets the condition and no shorter prefix of it does. */
  ghost predicate HappensNow<T>(p: seq<T> -> bool, h: seq<T>) {
    p(h) && forall n :: 0 <= n < |h| ==> !p(h[..n])
  }

  /** At how many of the calls h[..1], h[..2], ..., h it happens. */
  ghost function Occurrences<T>(p: seq<T> -> bool, h: seq<T>): nat {
    if |h| == 0 then 0 else Occurrences(p, h[..|h| - 1]) + (if HappensNow(p, h) then 1 else 0)
  }

  /** One more call: a latch that is set, or the condition on the new history. */
  lemma {:induction false} Step<T>(p: seq<T> -> bool, h: seq<T>, o: T)
    ensures Happened(p, h + [o]) <==> Happened(p, h) || p(h + [o])
    ensures HappensNow(p, h + [o]) <==> !Happened(p, h) && p(h + [o])
  {
    var h' := h + [o];
    assert h'[..|h'|] == h';
    forall n | 0 <= n <= |h|
      ensures h'[..n] == h[..n]
    {
    }
    if p(h') {
      assert p(h'[..|h'|]);
    }
    if Happened(p, h) {
      var n :| 0 <= n <= |h| && p(h[..n]);
      assert p(h'[..n]);
    }
    if Happened(p, h') && !p(h') {
      var n :| 0 <= n <= |h'| && p(h'[..n]);
      assert n < |h'|;
      assert p(h[..n]);
    }
    if !Happened(p, h) {
      forall n | 0 <= n < |h'|
        ensures !p(h'[..n])
      {
        assert !p(h[..n]);
      }
    }
  }

  lemma {:induction false} NothingYet<T>(p: seq<T> -> bool)
    requires !p([])
    ensures !Happened(p, [])
  {
    var h: seq<T> := [];
    assert forall n :: 0 <= n <= |h| ==> h[..n] == [];
  }

  /** Over any run of calls it happens exactly once if the condition is ever met, and never
      otherwise. */
  lemma {:induction false} ExactlyOnce<T>(p: seq<T> -> bool, h: seq<T>)
    requires !p([])
    ensures Occurrences(p, h) == if Happened(p, h) then 1 else 0
  {
    if |h| == 0 {
      NothingYet(p);
      assert h == [];
    } else {
      var front := h[..|h| - 1];
      ExactlyOnce(p, front);
      assert h == front + [h[|h| - 1]];
      Step(p, front, h[|h| - 1]);
    }
  }

  /** Two conditions that agree on every prefix happen at the same calls. */
  lemma {:induction false} SameCalls<T>(p: seq<T> -> bool, q: seq<T> -> bool, h: seq<T>)
    requires forall n :: 0 <= n <= |h| ==> p(h[..n]) == q(h[..n])
    ensures HappensNow(p, h) == HappensNow(q, h)
    ensures Happened(p, h) == Happened(q, h)
  {
    assert h[..|h|] == h;
  }
}
