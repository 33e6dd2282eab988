/**
 * Greedy selection from a ranked sequence: an element stays unless one that stayed before it
 * suppresses it. This is the loop of non-maximum suppression without the geometry.
 */
module GreedySelection {

  predicate Dominated<T>(kept: seq<T>, x: T, over: (T, T) -> bool) {
    exists i :: 0 <= i < |kept| && over(kept[i], x)
  }

  function Keep<T>(s: seq<T>, over: (T, T) -> bool): seq<T> {
    if s == [] then []
    else
      var n := |s| - 1;
      var kept := Keep(s[..n], over);
      if Dominated(kept, s[n], over) then kept else kept + [s[n]]
  }

  /** A dropped element is suppressed by an earlier one that stays. */
  ghost predicate Justified<T>(s: seq<T>, mask: seq<bool>, over: (T, T) -> bool, j: nat)
    requires j < |s| == |mask|
  {
    !mask[j] ==> exists i :: 0 <= i < j && mask[i] && over(s[i], s[j])
  }

  /**
   * What the selection means, without an algorithm: `mask` says which elements stay; none of those
   * that stay suppresses a later one that stays, and each of the others is suppressed by an earlier
   * one that stays.
   */
  ghost predicate IsSelection<T>(s: seq<T>, mask: seq<bool>, over: (T, T) -> bool) {
    && |mask| == |s|
    && (forall i, j :: 0 <= i < j < |s| && mask[i] && mask[j] ==> !over(s[i], s[j]))
    && (forall j :: 0 <= j < |s| ==> Justified(s, mask, over, j))
  }

  function Select<T>(s: seq<T>, mask: seq<bool>): seq<T>
    requires |mask| == |s|
  {
    if s == [] then [] else Select(s[..|s| - 1], mask[..|s| - 1]) + if mask[|s| - 1] then [s[|s| - 1]] else []
  }

  lemma {:induction false} InSelect<T>(s: seq<T>, mask: seq<bool>, x: T)
    requires |mask| == |s|
    ensures x in Select(s, mask) <==> exists i :: 0 <= i < |s| && mask[i] && s[i] == x
  {
    if s != [] {
      var n := |s| - 1;
      InSelect(s[..n], mask[..n], x);
      assert forall i :: 0 <= i < n ==> s[..n][i] == s[i] && mask[..n][i] == mask[i];
      if x in Select(s[..n], mask[..n]) {
        var i :| 0 <= i < n && mask[..n][i] && s[..n][i] == x;
        assert mask[i] && s[i] == x;
      }
      if exists i :: 0 <= i < n && mask[i] && s[i] == x {
        var i :| 0 <= i < n && mask[i] && s[i] == x;
        assert mask[..n][i] && s[..n][i] == x;
      }
    }
  }

  /** What holds of all ordered pairs that stay holds of all ordered pairs of the result. */
  lemma {:induction false} SelectPairs<T>(s: seq<T>, mask: seq<bool>, rel: (T, T) -> bool)
    requires |mask| == |s|
    requires forall i, j :: 0 <= i < j < |s| && mask[i] && mask[j] ==> rel(s[i], s[j])
    ensures forall i, j :: 0 <= i < j < |Select(s, mask)| ==> rel(Select(s, mask)[i], Select(s, mask)[j])
  {
    if s != [] {
      var n := |s| - 1;
      SelectPairs(s[..n], mask[..n], rel);
      var init := Select(s[..n], mask[..n]);
      if mask[n] {
        forall i | 0 <= i < |init|
          ensures rel(init[i], s[n])
        {
          InSelect(s[..n], mask[..n], init[i]);
          var l :| 0 <= l < n && mask[..n][l] && s[..n][l] == init[i];
          assert mask[l] && s[l] == init[i];
        }
      }
    }
  }

  /** At most one mask is a selection. */
  lemma {:induction false} SelectionIsUnique<T>(s: seq<T>, a: seq<bool>, b: seq<bool>, over: (T, T) -> bool, n: nat)
    requires IsSelection(s, a, over) && IsSelection(s, b, over) && n <= |s|
    ensures a[..n] == b[..n]
  {
    if n > 0 {
      SelectionIsUnique(s, a, b, over, n - 1);
      NextAgrees(s, a, b, over, n - 1);
      NextAgrees(s, b, a, over, n - 1);
      assert a[..n] == a[..n - 1] + [a[n - 1]] && b[..n] == b[..n - 1] + [b[n - 1]];
    }
  }

  lemma {:induction false} NextAgrees<T>(s: seq<T>, a: seq<bool>, b: seq<bool>, over: (T, T) -> bool, n: nat)
    requires IsSelection(s, a, over) && IsSelection(s, b, over) && n < |s| && a[..n] == b[..n]
    ensures a[n] ==> b[n]
  {
    assert Justified(s, b, over, n);
    if !b[n] {
      var i :| 0 <= i < n && b[i] && over(s[i], s[n]);
      assert a[..n][i] == b[..n][i];
    }
  }

  lemma {:induction false} ExtendMask<T>(s: seq<T>, init: seq<bool>, over: (T, T) -> bool)
    requires s != [] && IsSelection(s[..|s| - 1], init, over)
    ensures IsSelection(s, init + [!Dominated(Select(s[..|s| - 1], init), s[|s| - 1], over)], over)
  {
    var n := |s| - 1;
    var t := s[..n];
    var kept := Select(t, init);
    var mask := init + [!Dominated(kept, s[n], over)];
    forall i, j | 0 <= i < j < |s| && mask[i] && mask[j]
      ensures !over(s[i], s[j])
    {
      assert t[i] == s[i];
      if j == n {
        InSelect(t, init, s[i]);
      } else {
        assert t[j] == s[j];
      }
    }
    forall j | 0 <= j < |s|
      ensures Justified(s, mask, over, j)
    {
      if !mask[j] && j == n {
        var l :| 0 <= l < |kept| && over(kept[l], s[n]);
        InSelect(t, init, kept[l]);
        var i :| 0 <= i < n && init[i] && t[i] == kept[l];
        assert mask[i];
      } else if !mask[j] {
        assert Justified(t, init, over, j);
        var i :| 0 <= i < j && init[i] && over(t[i], t[j]);
        assert mask[i];
      }
    }
  }

  lemma {:induction false} GreedyMask<T>(s: seq<T>, over: (T, T) -> bool) returns (mask: seq<bool>)
    ensures IsSelection(s, mask, over) && Select(s, mask) == Keep(s, over)
  {
    mask := [];
    if s != [] {
      var n := |s| - 1;
      var init := GreedyMask(s[..n], over);
      ExtendMask(s, init, over);
      mask := init + [!Dominated(Keep(s[..n], over), s[n], over)];
      assert mask[..n] == init;
    }
  }

  /** The greedy result is the one and only selection. */
  lemma {:induction false} KeepIsTheSelection<T>(s: seq<T>, mask: seq<bool>, over: (T, T) -> bool)
    requires IsSelection(s, mask, over)
    ensures Keep(s, over) == Select(s, mask)
  {
    var greedy := GreedyMask(s, over);
    SelectionIsUnique(s, greedy, mask, over, |s|);
    assert greedy[..|s|] == greedy && mask[..|s|] == mask;
  }

  ghost predicate Apart<T>(s: seq<T>, over: (T, T) -> bool) {
    forall i, j :: 0 <= i < j < |s| ==> !over(s[i], s[j])
  }

  /** Nothing is dropped from elements that do not suppress each other. */
  lemma {:induction false} KeepAllApart<T>(s: seq<T>, over: (T, T) -> bool)
    requires Apart(s, over)
    ensures Keep(s, over) == s
  {
    if s != [] {
      var n := |s| - 1;
      KeepAllApart(s[..n], over);
      assert s == s[..n] + [s[n]];
    }
  }

  lemma {:induction false} KeepFirstOfTwo<T>(a: T, b: T, over: (T, T) -> bool)
    requires over(a, b)
    ensures Keep([a, b], over) == [a]
  {
    assert [a, b][..1] == [a] && [a][..0] == [];
    assert Keep([a], over) == [a];
    assert [a][0] == a;
  }
}
