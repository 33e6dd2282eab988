/**
 * Post-processing of detector output (src/browser/element_detector.rs): intersection over union,
 * greedy non-maximum suppression, and decoding of the raw tensor. `real` stands for `f32`.
 */
module ElementDetector {
  import opened Prelude
  import GreedySelection

  datatype ElementType =
    Button | Input | Link | Dropdown | Toggle | Checkbox | Image | Icon | Text | Nav | Tab | Unknown

  datatype BoundingBox = BoundingBox(x: real, y: real, width: real, height: real)

  datatype Detection = Detection(elementType: ElementType, bbox: BoundingBox, confidence: real, labelText: Option<string>)

  function Max(a: real, b: real): real { if a >= b then a else b }

  function Min(a: real, b: real): real { if a <= b then a else b }

  // ---------------------------------------------------------------------------------------
  // Intersection over union
  // ---------------------------------------------------------------------------------------

  /** Length of the common part of two intervals. */
  function Overlap(start: real, length: real, start': real, length': real): real {
    Max(Min(start + length, start' + length') - Max(start, start'), 0.0)
  }

  function Intersection(a: BoundingBox, b: BoundingBox): real {
    Overlap(a.x, a.width, b.x, b.width) * Overlap(a.y, a.height, b.y, b.height)
  }

  function Iou(a: BoundingBox, b: BoundingBox): real {
    Ratio(Intersection(a, b), Area(a), Area(b))
  }

  predicate Proper(b: BoundingBox) { b.width >= 0.0 && b.height >= 0.0 }

  lemma {:induction false} IouSymmetric(a: BoundingBox, b: BoundingBox)
    ensures Iou(a, b) == Iou(b, a)
  {
    assert Overlap(a.x, a.width, b.x, b.width) == Overlap(b.x, b.width, a.x, a.width);
    assert Overlap(a.y, a.height, b.y, b.height) == Overlap(b.y, b.height, a.y, a.height);
  }

  lemma {:induction false} ProductGrows(a: real, b: real, c: real, d: real)
    requires 0.0 <= a <= c && 0.0 <= b <= d
    ensures 0.0 <= a * b <= c * d
    ensures a * b == c * d && c * d > 0.0 ==> a == c && b == d
  {
    assert c * d - a * b == (c - a) * d + a * (d - b);
    assert (c - a) * d >= 0.0 && a * (d - b) >= 0.0 && a * b >= 0.0;
    if a * b == c * d && c * d > 0.0 {
      assert d > 0.0 && a > 0.0;
    }
  }

  lemma {:induction false} IntersectionFits(a: BoundingBox, b: BoundingBox)
    requires Proper(a) && Proper(b)
    ensures Fits(a, b)
  {
    var w, h := Overlap(a.x, a.width, b.x, b.width), Overlap(a.y, a.height, b.y, b.height);
    ProductGrows(w, h, a.width, a.height);
    ProductGrows(w, h, b.width, b.height);
  }

  lemma {:induction false} Quotient(i: real, u: real)
    requires u > 0.0 && 0.0 <= i <= u
    ensures 0.0 <= i / u <= 1.0 && (i / u == 1.0 <==> i == u)
  {
    var q := i / u;
    assert q * u == i && (1.0 - q) * u == u - i;
  }

  /** The ratio computed at the end of `iou`. */
  function Ratio(inter: real, areaA: real, areaB: real): real {
    var union := areaA + areaB - inter;
    if union <= 0.0 then 0.0 else inter / union
  }

  lemma {:induction false} RatioBounds(inter: real, areaA: real, areaB: real)
    requires 0.0 <= inter <= areaA && inter <= areaB
    ensures 0.0 <= Ratio(inter, areaA, areaB) <= 1.0
    ensures areaA > 0.0 && areaB > 0.0 ==> (Ratio(inter, areaA, areaB) == 1.0 <==> inter == areaA == areaB)
  {
    var union := areaA + areaB - inter;
    if union > 0.0 {
      Quotient(inter, union);
    }
  }

  function Area(b: BoundingBox): real { b.width * b.height }

  ghost predicate Fits(a: BoundingBox, b: BoundingBox) {
    0.0 <= Intersection(a, b) <= Area(a) && Intersection(a, b) <= Area(b)
  }

  lemma {:induction false} IouBounds(a: BoundingBox, b: BoundingBox)
    requires Fits(a, b)
    ensures 0.0 <= Iou(a, b) <= 1.0
    ensures Area(a) > 0.0 && Area(b) > 0.0 ==> (Iou(a, b) == 1.0 <==> Intersection(a, b) == Area(a) == Area(b))
  {
    RatioBounds(Intersection(a, b), Area(a), Area(b));
  }

  lemma {:induction false} IouInUnitInterval(a: BoundingBox, b: BoundingBox)
    requires Proper(a) && Proper(b)
    ensures 0.0 <= Iou(a, b) <= 1.0
  {
    IntersectionFits(a, b);
    IouBounds(a, b);
  }

  /** Intervals that overlap in their full length are the same. */
  lemma {:induction false} FullOverlap(start: real, length: real, start': real, length': real)
    requires length > 0.0 && Overlap(start, length, start', length') == length == length'
    ensures start == start'
  {
  }

  lemma {:induction false} FullIntersection(a: BoundingBox, b: BoundingBox)
    requires a.width > 0.0 && a.height > 0.0 && b.width > 0.0 && b.height > 0.0
    requires Intersection(a, b) == Area(a) == Area(b)
    ensures a == b
  {
    var w, h := Overlap(a.x, a.width, b.x, b.width), Overlap(a.y, a.height, b.y, b.height);
    PositiveProduct(a.width, a.height);
    ProductGrows(w, h, a.width, a.height);
    ProductGrows(w, h, b.width, b.height);
    FullOverlap(a.x, a.width, b.x, b.width);
    FullOverlap(a.y, a.height, b.y, b.height);
  }

  lemma {:induction false} PositiveProduct(x: real, y: real)
    requires x > 0.0 && y > 0.0
    ensures x * y > 0.0
  {
  }

  /** Boxes of positive area overlap completely exactly when they are the same box. */
  lemma {:induction false} IouIsOneIffSameBox(a: BoundingBox, b: BoundingBox)
    requires a.width > 0.0 && a.height > 0.0 && b.width > 0.0 && b.height > 0.0
    ensures Iou(a, b) == 1.0 <==> a == b
  {
    IntersectionFits(a, b);
    PositiveProduct(a.width, a.height);
    PositiveProduct(b.width, b.height);
    IouBounds(a, b);
    if Intersection(a, b) == Area(a) == Area(b) {
      FullIntersection(a, b);
    }
    if a == b {
      assert Overlap(a.x, a.width, b.x, b.width) == a.width && Overlap(a.y, a.height, b.y, b.height) == a.height;
    }
  }

  // ---------------------------------------------------------------------------------------
  // The stable sort of the standard library, by descending confidence
  // ---------------------------------------------------------------------------------------

  function Insert(d: Detection, s: seq<Detection>): seq<Detection> {
    if s == [] || d.confidence >= s[0].confidence then [d] + s else [s[0]] + Insert(d, s[1..])
  }

  function SortByConfidence(s: seq<Detection>): seq<Detection> {
    if s == [] then [] else Insert(s[0], SortByConfidence(s[1..]))
  }

  ghost predicate Sorted(s: seq<Detection>) {
    forall i, j :: 0 <= i < j < |s| ==> s[i].confidence >= s[j].confidence
  }

  function WithConfidence(s: seq<Detection>, c: real): seq<Detection> {
    if s == [] then [] else (if s[0].confidence == c then [s[0]] else []) + WithConfidence(s[1..], c)
  }

  lemma {:induction false} InsertSorts(d: Detection, s: seq<Detection>)
    requires Sorted(s)
    ensures Sorted(Insert(d, s)) && multiset(Insert(d, s)) == multiset(s) + multiset{d}
  {
    if s == [] || d.confidence >= s[0].confidence {
    } else {
      InsertSorts(d, s[1..]);
      assert s == [s[0]] + s[1..];
      HeadStaysLargest(s[0].confidence, d, s[1..], Insert(d, s[1..]));
    }
  }

  lemma {:induction false} HeadStaysLargest(c: real, d: Detection, s: seq<Detection>, t: seq<Detection>)
    requires c >= d.confidence && multiset(t) == multiset(s) + multiset{d}
    requires forall j :: 0 <= j < |s| ==> c >= s[j].confidence
    ensures forall j :: 0 <= j < |t| ==> c >= t[j].confidence
  {
    forall j | 0 <= j < |t|
      ensures c >= t[j].confidence
    {
      assert t[j] in multiset(t);
      assert t[j] in multiset(s) || t[j] == d;
    }
  }

  function IfConfidence(d: Detection, c: real): seq<Detection> { if d.confidence == c then [d] else [] }

  lemma {:induction false} WithConfidenceCons(d: Detection, s: seq<Detection>, c: real)
    ensures WithConfidence([d] + s, c) == IfConfidence(d, c) + WithConfidence(s, c)
  {
    assert ([d] + s)[1..] == s;
  }

  lemma {:induction false} InsertIsStable(d: Detection, s: seq<Detection>, c: real)
    ensures WithConfidence(Insert(d, s), c) == IfConfidence(d, c) + WithConfidence(s, c)
  {
    if s == [] || d.confidence >= s[0].confidence {
      WithConfidenceCons(d, s, c);
    } else {
      InsertIsStable(d, s[1..], c);
      WithConfidenceCons(s[0], Insert(d, s[1..]), c);
      WithConfidenceCons(s[0], s[1..], c);
      assert s == [s[0]] + s[1..];
      var rest := WithConfidence(s[1..], c);
      assert IfConfidence(s[0], c) + (IfConfidence(d, c) + rest) == IfConfidence(d, c) + (IfConfidence(s[0], c) + rest);
    }
  }

  /** The contract of `sort_by`: descending, a permutation, equal elements in their old order. */
  lemma {:induction false} SortIsStableSort(s: seq<Detection>)
    ensures Sorted(SortByConfidence(s)) && multiset(SortByConfidence(s)) == multiset(s)
    ensures forall c :: WithConfidence(SortByConfidence(s), c) == WithConfidence(s, c)
  {
    if s != [] {
      SortIsStableSort(s[1..]);
      InsertSorts(s[0], SortByConfidence(s[1..]));
      assert s == [s[0]] + s[1..];
      forall c
        ensures WithConfidence(SortByConfidence(s), c) == WithConfidence(s, c)
      {
        InsertIsStable(s[0], SortByConfidence(s[1..]), c);
        WithConfidenceCons(s[0], s[1..], c);
      }
    }
  }

  lemma {:induction false} SortOfSorted(s: seq<Detection>)
    requires Sorted(s)
    ensures SortByConfidence(s) == s
  {
    if s != [] {
      SortOfSorted(s[1..]);
      assert s == [s[0]] + s[1..];
    }
  }

  ghost predicate DistinctConfidences(s: seq<Detection>) {
    forall i, j :: 0 <= i < j < |s| ==> s[i].confidence != s[j].confidence
  }

  /** Two descending sequences of the same detections agree when no two confidences are equal. */
  lemma {:induction false} TailMultiset(a: seq<Detection>)
    requires a != []
    ensures multiset(a[1..]) == multiset(a) - multiset{a[0]}
  {
    assert a == [a[0]] + a[1..];
  }

  lemma {:induction false} SortedIsUnique(a: seq<Detection>, b: seq<Detection>)
    requires Sorted(a) && Sorted(b) && DistinctConfidences(a) && multiset(a) == multiset(b)
    ensures a == b
  {
    if a != [] {
      assert a[0] in multiset(b) && |a| == |multiset(a)| == |b|;
      assert b[0] in multiset(a);
      TailMultiset(a);
      TailMultiset(b);
      SortedIsUnique(a[1..], b[1..]);
    }
  }

  lemma {:induction false} DistinctByCounting(s: seq<Detection>, t: seq<Detection>)
    requires DistinctConfidences(s) && multiset(s) == multiset(t)
    ensures DistinctConfidences(t)
  {
    assert |s| == |multiset(s)| == |t|;
    forall i, j | 0 <= i < j < |t|
      ensures t[i].confidence != t[j].confidence
    {
      if t[i] == t[j] {
        assert t == t[..i] + [t[i]] + t[i + 1..j] + [t[j]] + t[j + 1..];
        assert multiset(t)[t[i]] >= 2;
        OnceOnly(s, t[i]);
        assert false;
      }
      assert t[i] in multiset(s) && t[j] in multiset(s);
    }
  }

  lemma {:induction false} OnceOnly(s: seq<Detection>, d: Detection)
    requires DistinctConfidences(s)
    ensures multiset(s)[d] <= 1
  {
    if s != [] {
      OnceOnly(s[1..], d);
      assert s == [s[0]] + s[1..];
      if s[0] == d {
        assert forall i :: 1 <= i < |s| ==> s[i] != d;
        assert d !in s[1..];
      }
    }
  }

  // ---------------------------------------------------------------------------------------
  // Suppression
  // ---------------------------------------------------------------------------------------

  /** The first detection suppresses the second. */
  function Suppresses(threshold: real): (Detection, Detection) -> bool {
    (kept: Detection, det: Detection) => Iou(kept.bbox, det.bbox) > threshold
  }

  method NonMaxSuppression(detections: seq<Detection>, threshold: real) returns (keep: seq<Detection>)
    ensures keep == Nms(detections, threshold)
  {
    var sorted := SortByConfidence(detections);
    keep := [];
    for i := 0 to |sorted|
      invariant keep == GreedySelection.Keep(sorted[..i], Suppresses(threshold))
    {
      assert sorted[..i + 1][..i] == sorted[..i];
      var dominated := exists j :: 0 <= j < |keep| && Iou(keep[j].bbox, sorted[i].bbox) > threshold;
      if !dominated {
        keep := keep + [sorted[i]];
      }
    }
    assert sorted[..|sorted|] == sorted;
  }

  function Nms(detections: seq<Detection>, threshold: real): seq<Detection> {
    GreedySelection.Keep(SortByConfidence(detections), Suppresses(threshold))
  }

  lemma {:induction false} NmsFacts(detections: seq<Detection>, threshold: real)
    ensures var keep := Nms(detections, threshold);
            Sorted(keep) && GreedySelection.Apart(keep, Suppresses(threshold))
  {
    SortIsStableSort(detections);
    var s := SortByConfidence(detections);
    var mask := GreedySelection.GreedyMask(s, Suppresses(threshold));
    var descending := (a: Detection, b: Detection) => a.confidence >= b.confidence;
    var apart := (a: Detection, b: Detection) => !Suppresses(threshold)(a, b);
    GreedySelection.SelectPairs(s, mask, descending);
    GreedySelection.SelectPairs(s, mask, apart);
    var keep := Nms(detections, threshold);
    assert forall i, j :: 0 <= i < j < |keep| ==> descending(keep[i], keep[j]) && apart(keep[i], keep[j]);
  }

  /**
   * Kept boxes are pairwise within the threshold, whichever way round they are compared, and every
   * dropped detection overlaps a kept one of at least its confidence beyond the threshold.
   */
  lemma {:induction false} NmsKeepsTheMaxima(detections: seq<Detection>, threshold: real)
    ensures var keep := Nms(detections, threshold);
            && (forall i, j :: 0 <= i < |keep| && 0 <= j < |keep| && i != j ==> Iou(keep[i].bbox, keep[j].bbox) <= threshold)
            && (forall k :: k in keep ==> k in detections)
            && (forall d :: d in detections && d !in keep ==>
                  exists k :: k in keep && k.confidence >= d.confidence && Iou(k.bbox, d.bbox) > threshold)
  {
    var s, keep := SortByConfidence(detections), Nms(detections, threshold);
    SortIsStableSort(detections);
    NmsFacts(detections, threshold);
    var mask := GreedySelection.GreedyMask(s, Suppresses(threshold));
    forall i, j | 0 <= i < |keep| && 0 <= j < |keep| && i != j
      ensures Iou(keep[i].bbox, keep[j].bbox) <= threshold
    {
      IouSymmetric(keep[i].bbox, keep[j].bbox);
      assert i < j ==> !Suppresses(threshold)(keep[i], keep[j]);
      assert j < i ==> !Suppresses(threshold)(keep[j], keep[i]);
    }
    forall k | k in keep
      ensures k in detections
    {
      GreedySelection.InSelect(s, mask, k);
      assert k in multiset(s);
    }
    forall d | d in detections && d !in keep
      ensures exists k :: k in keep && k.confidence >= d.confidence && Iou(k.bbox, d.bbox) > threshold
    {
      assert d in multiset(s);
      var j :| 0 <= j < |s| && s[j] == d;
      GreedySelection.InSelect(s, mask, d);
      assert GreedySelection.Justified(s, mask, Suppresses(threshold), j);
      var i :| 0 <= i < j && mask[i] && Suppresses(threshold)(s[i], s[j]);
      GreedySelection.InSelect(s, mask, s[i]);
    }
  }

  lemma {:induction false} NmsIsIdempotent(detections: seq<Detection>, threshold: real)
    ensures Nms(Nms(detections, threshold), threshold) == Nms(detections, threshold)
  {
    NmsFacts(detections, threshold);
    SortOfSorted(Nms(detections, threshold));
    GreedySelection.KeepAllApart(Nms(detections, threshold), Suppresses(threshold));
  }

  /** With distinct confidences the order of the input does not matter. */
  lemma {:induction false} NmsIgnoresInputOrder(a: seq<Detection>, b: seq<Detection>, threshold: real)
    requires multiset(a) == multiset(b) && DistinctConfidences(a)
    ensures Nms(a, threshold) == Nms(b, threshold)
  {
    SortIsStableSort(a);
    SortIsStableSort(b);
    DistinctByCounting(a, SortByConfidence(a));
    SortedIsUnique(SortByConfidence(a), SortByConfidence(b));
  }

  /** With a tie between overlapping boxes it does: the first one given wins. */
  lemma {:induction false} TiesGoToTheFirst(a: Detection, b: Detection, threshold: real)
    requires a.confidence == b.confidence && Iou(a.bbox, b.bbox) > threshold
    ensures Nms([a, b], threshold) == [a] && Nms([b, a], threshold) == [b]
  {
    IouSymmetric(a.bbox, b.bbox);
    SortOfSorted([a, b]);
    SortOfSorted([b, a]);
    GreedySelection.KeepFirstOfTwo(a, b, Suppresses(threshold));
    GreedySelection.KeepFirstOfTwo(b, a, Suppresses(threshold));
  }
}
