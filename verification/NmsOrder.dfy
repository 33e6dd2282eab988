/** When the order of the detections matters to non-maximum suppression (src/browser/element_detector.rs): exactly the undecided ties. */
module NmsOrder {
  import opened Prelude
  import opened ElementDetector
  import opened GreedySelection

  /** The detections of strictly greater confidence, in their order. */
  function Above(s: seq<Detection>, c: real): seq<Detection> {
    if s == [] then [] else (if s[0].confidence > c then [s[0]] else []) + Above(s[1..], c)
  }

  /**
   * Among any two different detections of the same confidence, at least one is suppressed by what is
   * kept of the detections of strictly greater confidence.
   */
  ghost predicate TiesDecided(s: seq<Detection>, threshold: real) {
    forall x, y :: x in s && y in s && x != y && x.confidence == y.confidence ==> TieDecided(s, threshold, x, y)
  }

  ghost predicate TieDecided(s: seq<Detection>, threshold: real, x: Detection, y: Detection) {
    var kept := Nms(Above(s, x.confidence), threshold);
    Dominated(kept, x, Suppresses(threshold)) || Dominated(kept, y, Suppresses(threshold))
  }

  ghost predicate SameForAllOrders(s: seq<Detection>, threshold: real) {
    forall t :: multiset(t) == multiset(s) ==> Nms(t, threshold) == Nms(s, threshold)
  }

  // ---------------------------------------------------------------------------------------
  // Sorting and the greedy loop, level by level
  // ---------------------------------------------------------------------------------------

  lemma {:induction false} InAbove(s: seq<Detection>, c: real, d: Detection)
    ensures d in Above(s, c) <==> d in s && d.confidence > c
    ensures multiset(Above(s, c))[d] == if d.confidence > c then multiset(s)[d] else 0
  {
    if s != [] {
      InAbove(s[1..], c, d);
      assert s == [s[0]] + s[1..];
    }
  }

  lemma {:induction false} AboveOfPermutation(s: seq<Detection>, t: seq<Detection>, c: real)
    requires multiset(s) == multiset(t)
    ensures multiset(Above(s, c)) == multiset(Above(t, c))
  {
    forall d
      ensures multiset(Above(s, c))[d] == multiset(Above(t, c))[d]
    {
      InAbove(s, c, d);
      InAbove(t, c, d);
    }
  }

  lemma {:induction false} AboveTwice(s: seq<Detection>, c: real, d: real)
    requires c <= d
    ensures Above(Above(s, c), d) == Above(s, d)
  {
    if s != [] {
      AboveTwice(s[1..], c, d);
      var rest := Above(s[1..], c);
      assert ([s[0]] + rest)[1..] == rest;
      Prepended([], rest);
      Prepended([], Above(s[1..], d));
    }
  }

  lemma {:induction false} AboveOfInsert(d: Detection, s: seq<Detection>, c: real)
    requires Sorted(s)
    ensures Above(Insert(d, s), c) == if d.confidence > c then Insert(d, Above(s, c)) else Above(s, c)
  {
    if s == [] || d.confidence >= s[0].confidence {
      assert Insert(d, s)[1..] == s;
      Prepended([], Above(s, c));
      if d.confidence <= c {
        NothingAbove(s, c);
      } else if s != [] && s[0].confidence <= c {
        NothingAbove(s, c);
      }
    } else {
      AboveOfInsert(d, s[1..], c);
      var t := Insert(d, s[1..]);
      assert ([s[0]] + t)[1..] == t;
      Prepended([], Above(t, c));
      Prepended([], Above(s[1..], c));
      if s[0].confidence > c {
        assert ([s[0]] + Above(s[1..], c))[1..] == Above(s[1..], c);
      }
    }
  }

  lemma {:induction false} NothingAbove(s: seq<Detection>, c: real)
    requires forall i :: 0 <= i < |s| ==> s[i].confidence <= c
    ensures Above(s, c) == []
  {
    if s != [] {
      NothingAbove(s[1..], c);
    }
  }

  lemma {:induction false} AboveOfSort(s: seq<Detection>, c: real)
    ensures Above(SortByConfidence(s), c) == SortByConfidence(Above(s, c))
  {
    if s != [] {
      AboveOfSort(s[1..], c);
      SortIsStableSort(s[1..]);
      AboveOfInsert(s[0], SortByConfidence(s[1..]), c);
      var rest := Above(s[1..], c);
      assert ([s[0]] + rest)[1..] == rest;
      Prepended([], rest);
    }
  }

  /** A sorted sequence: first what is above a level that nothing is below, then the level. */
  lemma {:induction false} SplitSorted(s: seq<Detection>, c: real)
    requires Sorted(s) && forall i :: 0 <= i < |s| ==> s[i].confidence >= c
    ensures s == Above(s, c) + WithConfidence(s, c)
  {
    if s != [] {
      SplitSorted(s[1..], c);
      if s[0].confidence > c {
        Prepended([], WithConfidence(s[1..], c));
        assert s == [s[0]] + s[1..];
      } else {
        NothingAbove(s, c);
        NothingAbove(s[1..], c);
        assert s == [s[0]] + s[1..];
      }
    }
  }

  lemma {:induction false} SortSplits(s: seq<Detection>, c: real)
    requires forall d :: d in s ==> d.confidence >= c
    ensures SortByConfidence(s) == SortByConfidence(Above(s, c)) + WithConfidence(s, c)
  {
    var t := SortByConfidence(s);
    SortIsStableSort(s);
    forall i | 0 <= i < |t|
      ensures t[i].confidence >= c
    {
      assert t[i] in multiset(t) && t[i] in s;
    }
    SplitSorted(t, c);
    AboveOfSort(s, c);
  }

  lemma {:induction false} InLevel(s: seq<Detection>, c: real, d: Detection)
    ensures d in WithConfidence(s, c) <==> d in s && d.confidence == c
    ensures multiset(WithConfidence(s, c))[d] == if d.confidence == c then multiset(s)[d] else 0
  {
    if s != [] {
      InLevel(s[1..], c, d);
      assert s == [s[0]] + s[1..];
    }
  }

  // ---------------------------------------------------------------------------------------
  // Decided ties: the order does not matter
  // ---------------------------------------------------------------------------------------

  /** How often a detection is kept that meets only itself on its level. */
  function TimesKept(suppressed: bool, selfSuppressing: bool, count: nat): nat {
    if suppressed then 0 else if selfSuppressing && count > 0 then 1 else count
  }

  function Copies(z: Detection, n: nat): seq<Detection> { seq(n, _ => z) }

  lemma {:induction false} DominatedByCopies(kept: seq<Detection>, z: Detection, n: nat, x: Detection, over: (Detection, Detection) -> bool)
    ensures Dominated(kept + Copies(z, n), x, over) <==> Dominated(kept, x, over) || (n > 0 && over(z, x))
  {
    var all := kept + Copies(z, n);
    if Dominated(kept, x, over) {
      var i :| 0 <= i < |kept| && over(kept[i], x);
      assert all[i] == kept[i];
    }
    if n > 0 && over(z, x) {
      assert all[|kept|] == z;
    }
  }

  /** What the loop keeps of a level on which all detections but the copies of one are suppressed from above. */
  lemma {:induction false} KeepLevel(top: seq<Detection>, level: seq<Detection>, z: Detection, over: (Detection, Detection) -> bool)
    requires forall d :: d in level ==> d == z || Dominated(Keep(top, over), d, over)
    ensures Keep(top + level, over)
         == Keep(top, over) + Copies(z, TimesKept(Dominated(Keep(top, over), z, over), over(z, z), multiset(level)[z]))
  {
    var kept := Keep(top, over);
    if level == [] {
      assert top + level == top && kept + Copies(z, 0) == kept;
    } else {
      var n := |level| - 1;
      var init, last := level[..n], level[n];
      assert level == init + [last] && (top + level)[..|top| + n] == top + init && last in level;
      forall d | d in init
        ensures d == z || Dominated(kept, d, over)
      {
        assert d in level;
      }
      KeepLevel(top, init, z, over);
      var before := TimesKept(Dominated(kept, z, over), over(z, z), multiset(init)[z]);
      DominatedByCopies(kept, z, before, last, over);
      assert kept + Copies(z, before) + [z] == kept + Copies(z, before + 1);
    }
  }

  /** The lowest confidence. */
  lemma {:induction false} Lowest(s: seq<Detection>) returns (m: Detection)
    requires s != []
    ensures m in s && forall d :: d in s ==> d.confidence >= m.confidence
  {
    m := s[0];
    if |s| > 1 {
      var rest := Lowest(s[1..]);
      m := if rest.confidence <= s[0].confidence then rest else s[0];
      assert s == [s[0]] + s[1..];
    }
  }

  lemma {:induction false} ShorterAbove(s: seq<Detection>, m: Detection)
    requires m in s
    ensures |Above(s, m.confidence)| < |s|
  {
    if s[0] == m {
      AboveNotLonger(s[1..], m.confidence);
    } else {
      assert m in s[1..];
      ShorterAbove(s[1..], m);
    }
  }

  lemma {:induction false} AboveNotLonger(s: seq<Detection>, c: real)
    ensures |Above(s, c)| <= |s|
  {
    if s != [] {
      AboveNotLonger(s[1..], c);
    }
  }

  lemma {:induction false} TiesDecidedAbove(s: seq<Detection>, threshold: real, c: real)
    requires TiesDecided(s, threshold)
    ensures TiesDecided(Above(s, c), threshold)
  {
    var above := Above(s, c);
    forall x, y | x in above && y in above && x != y && x.confidence == y.confidence
      ensures TieDecided(above, threshold, x, y)
    {
      InAbove(s, c, x);
      InAbove(s, c, y);
      AboveTwice(s, c, x.confidence);
      assert TieDecided(s, threshold, x, y);
    }
  }

  /** Of a level with decided ties at most one detection, in copies, is not suppressed from above. */
  lemma {:induction false} Survivor(s: seq<Detection>, threshold: real, m: Detection) returns (z: Detection)
    requires m in s && TiesDecided(s, threshold)
    ensures var kept := Nms(Above(s, m.confidence), threshold);
            forall d :: d in s && d.confidence == m.confidence ==> d == z || Dominated(kept, d, Suppresses(threshold))
  {
    var kept := Nms(Above(s, m.confidence), threshold);
    z := m;
    if d :| d in s && d.confidence == m.confidence && !Dominated(kept, d, Suppresses(threshold)) {
      z := d;
      forall e | e in s && e.confidence == m.confidence && e != z
        ensures Dominated(kept, e, Suppresses(threshold))
      {
        assert TieDecided(s, threshold, z, e);
      }
    }
  }

  lemma {:induction false} DecidedTiesSuffice(s: seq<Detection>, t: seq<Detection>, threshold: real)
    requires TiesDecided(s, threshold) && multiset(s) == multiset(t)
    ensures Nms(s, threshold) == Nms(t, threshold)
    decreases |s|
  {
    if s == [] {
      assert |multiset(t)| == |t|;
    } else {
      var m := Lowest(s);
      var c, over := m.confidence, Suppresses(threshold);
      ShorterAbove(s, m);
      TiesDecidedAbove(s, threshold, c);
      AboveOfPermutation(s, t, c);
      DecidedTiesSuffice(Above(s, c), Above(t, c), threshold);
      var z := Survivor(s, threshold, m);
      NmsByLevel(s, threshold, c, z);
      forall d | d in t
        ensures d in s
      {
        assert d in multiset(t);
      }
      NmsByLevel(t, threshold, c, z);
      InLevel(s, c, z);
      InLevel(t, c, z);
    }
  }

  lemma {:induction false} NmsByLevel(s: seq<Detection>, threshold: real, c: real, z: Detection)
    requires forall d :: d in s ==> d.confidence >= c
    requires var kept := Nms(Above(s, c), threshold);
             forall d :: d in s && d.confidence == c ==> d == z || Dominated(kept, d, Suppresses(threshold))
    ensures var kept, over := Nms(Above(s, c), threshold), Suppresses(threshold);
            Nms(s, threshold) == kept + Copies(z, TimesKept(Dominated(kept, z, over), over(z, z), multiset(WithConfidence(s, c))[z]))
  {
    SortSplits(s, c);
    forall d | d in WithConfidence(s, c)
      ensures d in s && d.confidence == c
    {
      InLevel(s, c, d);
    }
    KeepLevel(SortByConfidence(Above(s, c)), WithConfidence(s, c), z, Suppresses(threshold));
  }

  // ---------------------------------------------------------------------------------------
  // Undecided ties: the order matters
  // ---------------------------------------------------------------------------------------

  lemma {:induction false} KeepOfPrefix(s: seq<Detection>, rest: seq<Detection>, over: (Detection, Detection) -> bool)
    ensures Keep(s, over) <= Keep(s + rest, over)
  {
    if rest == [] {
      assert s + rest == s;
    } else {
      var n := |rest| - 1;
      KeepOfPrefix(s, rest[..n], over);
      assert (s + rest)[..|s| + n] == s + rest[..n];
    }
  }

  lemma {:induction false} InsertSplits(d: Detection, s: seq<Detection>)
    requires Sorted(s)
    ensures Above(s, d.confidence) + [d] <= Insert(d, s)
  {
    if s == [] || d.confidence >= s[0].confidence {
      NothingAbove(s, d.confidence);
      assert [] + [d] == [d] && Insert(d, s) == [d] + s;
    } else {
      InsertSplits(d, s[1..]);
      var above, t := Above(s[1..], d.confidence), Insert(d, s[1..]);
      assert Above(s, d.confidence) == [s[0]] + above;
      assert t[..|above| + 1] == above + [d];
      assert ([s[0]] + t)[..|above| + 2] == [s[0]] + (above + [d]);
      Regroup([s[0]], above, [d]);
    }
  }

  lemma {:induction false} NextIsKept(top: seq<Detection>, x: Detection, rest: seq<Detection>, over: (Detection, Detection) -> bool)
    requires !Dominated(Keep(top, over), x, over)
    ensures Keep(top, over) + [x] <= Keep(top + [x] + rest, over)
  {
    assert (top + [x])[..|top|] == top;
    KeepOfPrefix(top + [x], rest, over);
  }

  lemma {:induction false} SortStartsWith(x: Detection, rest: seq<Detection>)
    ensures SortByConfidence(Above(rest, x.confidence)) + [x] <= SortByConfidence([x] + rest)
  {
    SortIsStableSort(rest);
    InsertSplits(x, SortByConfidence(rest));
    AboveOfSort(rest, x.confidence);
    assert ([x] + rest)[1..] == rest;
  }

  /** The first of its level, if it is not suppressed from above, comes next after what is kept from above. */
  lemma {:induction false} FirstOfLevelIsKept(x: Detection, rest: seq<Detection>, threshold: real)
    requires !Dominated(Nms(Above(rest, x.confidence), threshold), x, Suppresses(threshold))
    ensures Nms(Above(rest, x.confidence), threshold) + [x] <= Nms([x] + rest, threshold)
  {
    SortStartsWith(x, rest);
    var start, all := SortByConfidence(Above(rest, x.confidence)) + [x], SortByConfidence([x] + rest);
    assert all == start + all[|start|..];
    NextIsKept(SortByConfidence(Above(rest, x.confidence)), x, all[|start|..], Suppresses(threshold));
  }

  lemma {:induction false} AboveSkips(s: seq<Detection>, d: Detection, t: seq<Detection>, c: real)
    requires d.confidence <= c
    ensures Above(s + [d] + t, c) == Above(s + t, c)
  {
    if s == [] {
      assert s + [d] + t == [d] + t && s + t == t && ([d] + t)[1..] == t;
      Prepended([], Above(t, c));
    } else {
      AboveSkips(s[1..], d, t, c);
      assert (s + [d] + t)[1..] == s[1..] + [d] + t && (s + t)[1..] == s[1..] + t;
    }
  }

  /** Without one detection of a level, what is above the level stays the same. */
  lemma {:induction false} TakeOut(s: seq<Detection>, x: Detection) returns (rest: seq<Detection>)
    requires x in s
    ensures multiset(s) == multiset{x} + multiset(rest)
    ensures Above(rest, x.confidence) == Above(s, x.confidence)
  {
    var i :| 0 <= i < |s| && s[i] == x;
    rest := s[..i] + s[i + 1..];
    assert s == s[..i] + [x] + s[i + 1..];
    AboveSkips(s[..i], x, s[i + 1..], x.confidence);
  }

  lemma {:induction false} AboveOfLower(d: Detection, s: seq<Detection>, c: real)
    requires d.confidence <= c
    ensures Above([d] + s, c) == Above(s, c)
  {
    AboveSkips([], d, s, c);
    Prepended([], [d] + s);
    Prepended([], s);
    assert [] + [d] == [d];
  }

  lemma {:induction false} StartsDiffer(kept: seq<Detection>, x: Detection, y: Detection, a: seq<Detection>, b: seq<Detection>)
    requires kept + [x] <= a && kept + [y] <= b && x != y
    ensures a != b
  {
    assert a[|kept|] == (kept + [x])[|kept|] == x;
    assert b[|kept|] == (kept + [y])[|kept|] == y;
  }

  lemma {:induction false} UndecidedTieMatters(s: seq<Detection>, threshold: real, x: Detection, y: Detection)
    returns (a: seq<Detection>, b: seq<Detection>)
    requires x in s && y in s && x != y && x.confidence == y.confidence && !TieDecided(s, threshold, x, y)
    ensures multiset(a) == multiset(s) == multiset(b) && Nms(a, threshold) != Nms(b, threshold)
  {
    var withoutX := TakeOut(s, x);
    assert y in multiset(s) && y in withoutX;
    var rest := TakeOut(withoutX, y);
    AboveOfLower(x, rest, x.confidence);
    AboveOfLower(y, rest, x.confidence);
    FirstOfLevelIsKept(x, [y] + rest, threshold);
    FirstOfLevelIsKept(y, [x] + rest, threshold);
    a, b := [x] + ([y] + rest), [y] + ([x] + rest);
    StartsDiffer(Nms(Above(s, x.confidence), threshold), x, y, Nms(a, threshold), Nms(b, threshold));
  }

  /**
   * The exact boundary: every order of the detections gives the same result if and only if all ties
   * between different detections are decided from above.
   */
  lemma {:induction false} OrderIrrelevantIffTiesDecided(s: seq<Detection>, threshold: real)
    ensures SameForAllOrders(s, threshold) <==> TiesDecided(s, threshold)
  {
    if TiesDecided(s, threshold) {
      forall t | multiset(t) == multiset(s)
        ensures Nms(t, threshold) == Nms(s, threshold)
      {
        DecidedTiesSuffice(s, t, threshold);
      }
    } else {
      var x, y :| x in s && y in s && x != y && x.confidence == y.confidence && !TieDecided(s, threshold, x, y);
      var a, b := UndecidedTieMatters(s, threshold, x, y);
      assert multiset(a) == multiset(s) && multiset(b) == multiset(s);
    }
  }
}
