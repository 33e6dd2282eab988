/** What intersection over union measures (src/browser/element_detector.rs), told by the points of the boxes. */
module BoxGeometry {
  import opened ElementDetector

  /** The point lies in the closed box. */
  predicate Covers(b: BoundingBox, x: real, y: real) {
    b.x <= x <= b.x + b.width && b.y <= y <= b.y + b.height
  }

  /** `c` consists of exactly the points that `a` and `b` have in common. */
  ghost predicate IsCommon(c: BoundingBox, a: BoundingBox, b: BoundingBox) {
    forall x, y :: Covers(c, x, y) <==> Covers(a, x, y) && Covers(b, x, y)
  }

  ghost predicate Disjoint(a: BoundingBox, b: BoundingBox) {
    forall x, y :: Covers(a, x, y) ==> !Covers(b, x, y)
  }

  /** Boxes that have a point in common have a common box. */
  lemma {:induction false} CommonBoxExists(a: BoundingBox, b: BoundingBox, x: real, y: real) returns (c: BoundingBox)
    requires Covers(a, x, y) && Covers(b, x, y)
    ensures Proper(c) && IsCommon(c, a, b)
  {
    var x1, y1 := if a.x >= b.x then a.x else b.x, if a.y >= b.y then a.y else b.y;
    var x2 := if a.x + a.width <= b.x + b.width then a.x + a.width else b.x + b.width;
    var y2 := if a.y + a.height <= b.y + b.height then a.y + a.height else b.y + b.height;
    c := BoundingBox(x1, y1, x2 - x1, y2 - y1);
  }

  /** The common box has the sides that the code multiplies. */
  lemma {:induction false} CommonSides(a: BoundingBox, b: BoundingBox, c: BoundingBox)
    requires Proper(a) && Proper(b) && Proper(c) && IsCommon(c, a, b)
    ensures Overlap(a.x, a.width, b.x, b.width) == c.width && Overlap(a.y, a.height, b.y, b.height) == c.height
  {
    assert Covers(c, c.x, c.y) && Covers(c, c.x + c.width, c.y + c.height);
    assert Covers(a, c.x, c.y) && Covers(b, c.x, c.y);
    assert Covers(a, c.x + c.width, c.y + c.height) && Covers(b, c.x + c.width, c.y + c.height);
    var x1, y1 := Max(a.x, b.x), Max(a.y, b.y);
    var x2, y2 := Min(a.x + a.width, b.x + b.width), Min(a.y + a.height, b.y + b.height);
    assert Covers(a, x1, y1) && Covers(b, x1, y1) && Covers(c, x1, y1);
    assert Covers(a, x2, y2) && Covers(b, x2, y2) && Covers(c, x2, y2);
  }

  lemma {:induction false} RatioLaw(inter: real, areaA: real, areaB: real)
    requires 0.0 <= inter <= areaA && inter <= areaB
    ensures Ratio(inter, areaA, areaB) * (areaA + areaB - inter) == inter
  {
    var union := areaA + areaB - inter;
    if union > 0.0 {
      var q := inter / union;
      assert q * union == inter;
    } else {
      assert inter == 0.0 && union == 0.0;
    }
  }

  /** What the ratio is computed from, by the sides of the common part. */
  lemma {:induction false} IouFromSides(a: BoundingBox, b: BoundingBox, w: real, h: real)
    requires Proper(a) && Proper(b)
    requires Overlap(a.x, a.width, b.x, b.width) == w && Overlap(a.y, a.height, b.y, b.height) == h
    ensures Fits(a, b) && Intersection(a, b) == w * h
  {
    IntersectionFits(a, b);
  }

  lemma {:induction false} IouFromCommon(a: BoundingBox, b: BoundingBox, c: BoundingBox)
    requires Proper(a) && Proper(b) && Proper(c) && IsCommon(c, a, b)
    ensures 0.0 <= Area(c) <= Area(a) && Area(c) <= Area(b) && Iou(a, b) == Ratio(Area(c), Area(a), Area(b))
  {
    CommonSides(a, b, c);
    IouFromSides(a, b, c.width, c.height);
    assert Intersection(a, b) == Area(c);
  }

  lemma {:induction false} AreaIs(b: BoundingBox)
    ensures Area(b) == b.width * b.height
  {
  }

  /** The ratio is the fraction that the common area is of the united area. */
  lemma {:induction false} IouLaw(a: BoundingBox, b: BoundingBox, c: BoundingBox)
    requires Proper(a) && Proper(b) && Proper(c) && IsCommon(c, a, b)
    ensures Iou(a, b) * (Area(a) + Area(b) - Area(c)) == Area(c)
  {
    IouFromCommon(a, b, c);
    RatioLaw(Area(c), Area(a), Area(b));
  }

  /** Boxes without a common point, and boxes that only touch, have ratio zero. */
  lemma {:induction false} IouOfDisjoint(a: BoundingBox, b: BoundingBox)
    requires Proper(a) && Proper(b) && Disjoint(a, b)
    ensures Iou(a, b) == 0.0
  {
    var x1, y1 := Max(a.x, b.x), Max(a.y, b.y);
    assert Covers(a, x1, y1) ==> !Covers(b, x1, y1);
    assert Overlap(a.x, a.width, b.x, b.width) == 0.0 || Overlap(a.y, a.height, b.y, b.height) == 0.0;
    RatioOfNothing(Area(a), Area(b));
  }

  lemma {:induction false} RatioOfNothing(areaA: real, areaB: real)
    ensures Ratio(0.0, areaA, areaB) == 0.0
  {
  }

  lemma {:induction false} IouOfTouching(a: BoundingBox, b: BoundingBox, c: BoundingBox)
    requires Proper(a) && Proper(b) && Proper(c) && IsCommon(c, a, b) && Area(c) == 0.0
    ensures Iou(a, b) == 0.0
  {
    IouFromCommon(a, b, c);
    RatioOfNothing(Area(a), Area(b));
  }

  /** The common area is more than t / (1 + t) of the two areas together, told without division. */
  predicate SharesMoreThan(t: real, common: real, areaA: real, areaB: real) {
    (1.0 + t) * common > t * (areaA + areaB)
  }

  lemma {:induction false} RatioExceedsIff(inter: real, areaA: real, areaB: real, t: real)
    requires 0.0 <= inter <= areaA && inter <= areaB && areaA > 0.0
    ensures Ratio(inter, areaA, areaB) > t <==> SharesMoreThan(t, inter, areaA, areaB)
  {
    var union := areaA + areaB - inter;
    var q := inter / union;
    assert q * union == inter;
    assert (q - t) * union == inter - t * union;
    assert inter - t * union == (1.0 + t) * inter - t * (areaA + areaB);
    SignOfProduct(q - t, union);
  }

  lemma {:induction false} SignOfProduct(x: real, y: real)
    requires y > 0.0
    ensures x * y > 0.0 <==> x > 0.0
  {
  }

  lemma {:induction false} IouExceedsIff(a: BoundingBox, b: BoundingBox, c: BoundingBox, t: real)
    requires Proper(a) && Proper(b) && Area(a) > 0.0 && Proper(c) && IsCommon(c, a, b)
    ensures Iou(a, b) > t <==> SharesMoreThan(t, Area(c), Area(a), Area(b))
  {
    IouFromCommon(a, b, c);
    RatioExceedsIff(Area(c), Area(a), Area(b), t);
  }

  /** Suppression without division: a common area of more than t / (1 + t) of the two areas together. */
  lemma {:induction false} SuppressesIff(kept: Detection, det: Detection, c: BoundingBox, t: real)
    requires Proper(kept.bbox) && Proper(det.bbox) && Area(kept.bbox) > 0.0
    requires Proper(c) && IsCommon(c, kept.bbox, det.bbox)
    ensures Suppresses(t)(kept, det) <==> SharesMoreThan(t, Area(c), Area(kept.bbox), Area(det.bbox))
  {
    IouExceedsIff(kept.bbox, det.bbox, c, t);
  }

  /** Detections without a common point never suppress each other. */
  lemma {:induction false} DisjointBothStay(kept: Detection, det: Detection, t: real)
    requires Proper(kept.bbox) && Proper(det.bbox) && Disjoint(kept.bbox, det.bbox) && t >= 0.0
    ensures !Suppresses(t)(kept, det)
  {
    IouOfDisjoint(kept.bbox, det.bbox);
  }
}
