/** Counting the elements of a sequence that satisfy a predicate: the shape of the
    `filter(...).size()` pipelines in the scoring capability and the game-over panel. */
module Counting {

  /** Number of elements of `s` satisfying `p`, counted from the back. */
  function CountIf<T>(s: seq<T>, p: T -> bool): nat
  {
    if |s| == 0 then 0
    else CountIf(s[..|s| - 1], p) + (if p(s[|s| - 1]) then 1 else 0)
  }

  /** The positions of `s` whose element satisfies `p`. */
  function Positions<T>(s: seq<T>, p: T -> bool): set<nat>
  {
    set k: nat | k < |s| && p(s[k])
  }

  /** The count is the number of positions holding a matching element. */
  lemma {:induction false} CountIfIsPositionCount<T>(s: seq<T>, p: T -> bool)
    ensures CountIf(s, p) == |Positions(s, p)|
  {
    if |s| == 0 {
      assert Positions(s, p) == {};
    } else {
      var n := |s| - 1;
      var init := s[..n];
      CountIfIsPositionCount(init, p);
      assert forall k :: 0 <= k < n ==> init[k] == s[k];
      if p(s[n]) {
        assert Positions(s, p) == Positions(init, p) + {n};
      } else {
        assert Positions(s, p) == Positions(init, p);
      }
    }
  }

  /** Counting distributes over concatenation. */
  lemma {:induction false} CountIfAppend<T>(s: seq<T>, t: seq<T>, p: T -> bool)
    ensures CountIf(s + t, p) == CountIf(s, p) + CountIf(t, p)
  {
    if |t| == 0 {
      assert s + t == s;
    } else {
      CountIfAppend(s, t[..|t| - 1], p);
      assert (s + t)[..|s + t| - 1] == s + t[..|t| - 1];
    }
  }

  /** Elements that never match add nothing to the count. */
  lemma {:induction false} CountIfNoneMatch<T>(s: seq<T>, p: T -> bool)
    requires forall k :: 0 <= k < |s| ==> !p(s[k])
    ensures CountIf(s, p) == 0
  {
    if |s| > 0 {
      CountIfNoneMatch(s[..|s| - 1], p);
    }
  }
}
