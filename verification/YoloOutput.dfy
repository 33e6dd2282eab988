/** Decoding of the raw detector tensor (src/browser/element_detector.rs, `parse_yolo_output`). */
module YoloOutput {
  import opened Prelude
  import opened ElementDetector

  datatype Detector = Detector(inputWidth: nat, inputHeight: nat, confidenceThreshold: real, classNames: seq<string>)
  {
    ghost predicate Valid() { inputWidth > 0 && inputHeight > 0 }

    function RowLen(): nat { 4 + |classNames| }

    /** Number of prediction columns in a tensor of this length; a remainder is ignored. */
    function NumPreds(raw: seq<real>): nat { |raw| / RowLen() }
  }

  function ClassToElementType(idx: nat): ElementType {
    match idx
    case 0 => Button
    case 1 => Input
    case 2 => Link
    case 3 => Dropdown
    case 4 => Toggle
    case 5 => Checkbox
    case 6 => Image
    case 7 => Icon
    case 8 => Text
    case 9 => Nav
    case 10 => Tab
    case _ => Unknown
  }

  lemma {:induction false} DivisionFits(length: nat, rowLen: nat)
    requires rowLen > 0
    ensures rowLen * (length / rowLen) <= length
  {
  }

  lemma {:induction false} RowEnds(row: nat, n: nat, rowLen: nat)
    requires row < rowLen
    ensures 0 <= row * n && row * n + n <= rowLen * n
  {
    assert rowLen * n - row * n - n == (rowLen - row - 1) * n;
  }

  /** The transposed layout, row after row with one entry per column, stays inside the tensor. */
  lemma {:induction false} RowsFit(length: nat, rowLen: nat, row: nat, col: nat)
    requires row < rowLen && col < length / rowLen
    ensures 0 <= row * (length / rowLen) + col < length
  {
    DivisionFits(length, rowLen);
    RowEnds(row, length / rowLen, rowLen);
  }

  function At(d: Detector, raw: seq<real>, row: nat, col: nat): real
    requires row < d.RowLen() && col < d.NumPreds(raw)
  {
    RowsFit(|raw|, d.RowLen(), row, col);
    raw[row * d.NumPreds(raw) + col]
  }

  function Score(d: Detector, raw: seq<real>, col: nat, cls: nat): real
    requires col < d.NumPreds(raw) && cls < |d.classNames|
  {
    At(d, raw, 4 + cls, col)
  }

  // ---------------------------------------------------------------------------------------
  // Boxes
  // ---------------------------------------------------------------------------------------

  function Clamp(v: real, lo: real, hi: real): (r: real)
    requires lo <= hi
    ensures lo <= r <= hi && (lo <= v <= hi ==> r == v)
  {
    if v < lo then lo else if v > hi then hi else v
  }

  predicate InUnitSquare(b: BoundingBox) {
    b.x >= 0.0 && b.y >= 0.0 && b.width >= 0.0 && b.height >= 0.0 && b.x + b.width <= 1.0 && b.y + b.height <= 1.0
  }

  /** Centre and size in pixels, to a clamped box in normalised coordinates. */
  function NormalisedBox(d: Detector, cx: real, cy: real, w: real, h: real): (b: BoundingBox)
    requires d.Valid()
    ensures InUnitSquare(b)
    ensures var W, H := d.inputWidth as real, d.inputHeight as real;
            var x, y := (cx - w / 2.0) / W, (cy - h / 2.0) / H;
            InUnitSquare(BoundingBox(x, y, w / W, h / H)) ==> b == BoundingBox(x, y, w / W, h / H)
  {
    var W, H := d.inputWidth as real, d.inputHeight as real;
    var x := Clamp((cx - w / 2.0) / W, 0.0, 1.0);
    var y := Clamp((cy - h / 2.0) / H, 0.0, 1.0);
    BoundingBox(x, y, Clamp(w / W, 0.0, 1.0 - x), Clamp(h / H, 0.0, 1.0 - y))
  }

  // ---------------------------------------------------------------------------------------
  // What a tensor decodes to
  // ---------------------------------------------------------------------------------------

  /** `cls` is the first class of maximal score in the column. */
  ghost predicate IsBestClass(d: Detector, raw: seq<real>, col: nat, cls: nat)
    requires col < d.NumPreds(raw)
  {
    && cls < |d.classNames|
    && (forall c: nat :: c < |d.classNames| ==> Score(d, raw, col, c) <= Score(d, raw, col, cls))
    && (forall c: nat :: c < cls ==> Score(d, raw, col, c) < Score(d, raw, col, cls))
  }

  function DetectionFor(d: Detector, raw: seq<real>, col: nat, cls: nat): Detection
    requires d.Valid() && col < d.NumPreds(raw) && cls < |d.classNames|
  {
    Detection(ClassToElementType(cls),
              NormalisedBox(d, At(d, raw, 0, col), At(d, raw, 1, col), At(d, raw, 2, col), At(d, raw, 3, col)),
              Score(d, raw, col, cls), Some(d.classNames[cls]))
  }

  /** `det` is what column `col` shows: its best class reaches the threshold. */
  ghost predicate Shows(d: Detector, raw: seq<real>, col: nat, det: Detection)
    requires d.Valid() && col < d.NumPreds(raw)
  {
    exists cls: nat :: IsBestClass(d, raw, col, cls) && Score(d, raw, col, cls) >= d.confidenceThreshold
                       && det == DetectionFor(d, raw, col, cls)
  }

  ghost predicate ShowsSomething(d: Detector, raw: seq<real>, col: nat)
    requires d.Valid() && col < d.NumPreds(raw)
  {
    exists det :: Shows(d, raw, col, det)
  }

  /** `dets` are the detections of the first `n` columns, in column order, nothing missing and nothing added. */
  ghost predicate DecodesTo(d: Detector, raw: seq<real>, n: nat, dets: seq<Detection>)
    requires d.Valid() && n <= d.NumPreds(raw)
    decreases n
  {
    if n == 0 then dets == []
    else if ShowsSomething(d, raw, n - 1) then
      dets != [] && Shows(d, raw, n - 1, dets[|dets| - 1]) && DecodesTo(d, raw, n - 1, dets[..|dets| - 1])
    else DecodesTo(d, raw, n - 1, dets)
  }

  method BestClass(d: Detector, raw: seq<real>, col: nat) returns (cls: nat, score: Option<real>)
    requires col < d.NumPreds(raw)
    ensures score.None? <==> d.classNames == []
    ensures score.Some? ==> IsBestClass(d, raw, col, cls) && score.value == Score(d, raw, col, cls)
  {
    cls, score := 0, None;
    for c := 0 to |d.classNames|
      invariant score.None? <==> c == 0
      invariant c > 0 ==> cls < c && score.value == Score(d, raw, col, cls)
      invariant forall b: nat :: b < c ==> Score(d, raw, col, b) <= score.value
      invariant forall b: nat :: b < c && b < cls ==> Score(d, raw, col, b) < score.value
    {
      RowsFit(|raw|, d.RowLen(), 4 + c, col);
      var s := raw[(4 + c) * d.NumPreds(raw) + col];
      assert s == Score(d, raw, col, c);
      if score.None? || s > score.value {
        cls, score := c, Some(s);
      }
    }
  }

  /** No index leaves the tensor, whatever its length; the result is the sorted list of everything the columns show. */
  method ParseYoloOutput(d: Detector, raw: seq<real>) returns (dets: seq<Detection>)
    requires d.Valid()
    ensures exists found :: DecodesTo(d, raw, d.NumPreds(raw), found) && dets == SortByConfidence(found)
  {
    var numPreds := d.NumPreds(raw);
    if raw == [] || numPreds == 0 {
      assert DecodesTo(d, raw, 0, []);
      return [];
    }
    var found := [];
    for col := 0 to numPreds
      invariant DecodesTo(d, raw, col, found)
    {
      RowsFit(|raw|, d.RowLen(), 1, col);
      RowsFit(|raw|, d.RowLen(), 2, col);
      RowsFit(|raw|, d.RowLen(), 3, col);
      var cx, cy := raw[0 * numPreds + col], raw[numPreds + col];
      var w, h := raw[2 * numPreds + col], raw[3 * numPreds + col];
      var cls, score := BestClass(d, raw, col);
      if score.None? || score.value < d.confidenceThreshold {
        NothingShown(d, raw, col, cls, score);
        continue;
      }
      var det := Detection(ClassToElementType(cls), NormalisedBox(d, cx, cy, w, h), score.value, Some(d.classNames[cls]));
      assert det == DetectionFor(d, raw, col, cls);
      assert Shows(d, raw, col, det);
      assert (found + [det])[..|found|] == found;
      found := found + [det];
    }
    dets := SortByConfidence(found);
  }

  lemma {:induction false} NothingShown(d: Detector, raw: seq<real>, col: nat, cls: nat, score: Option<real>)
    requires d.Valid() && col < d.NumPreds(raw)
    requires score.None? <==> d.classNames == []
    requires score.Some? ==> IsBestClass(d, raw, col, cls) && score.value == Score(d, raw, col, cls) < d.confidenceThreshold
    ensures !ShowsSomething(d, raw, col)
  {
  }

  // ---------------------------------------------------------------------------------------
  // Properties of decoded detections
  // ---------------------------------------------------------------------------------------

  lemma {:induction false} BestClassIsUnique(d: Detector, raw: seq<real>, col: nat, a: nat, b: nat)
    requires col < d.NumPreds(raw) && IsBestClass(d, raw, col, a) && IsBestClass(d, raw, col, b)
    ensures a == b
  {
    assert Score(d, raw, col, a) <= Score(d, raw, col, b) && Score(d, raw, col, b) <= Score(d, raw, col, a);
  }

  lemma {:induction false} ColumnShowsOne(d: Detector, raw: seq<real>, col: nat, x: Detection, y: Detection)
    requires d.Valid() && col < d.NumPreds(raw) && Shows(d, raw, col, x) && Shows(d, raw, col, y)
    ensures x == y
  {
    var i: nat :| IsBestClass(d, raw, col, i) && x == DetectionFor(d, raw, col, i);
    var j: nat :| IsBestClass(d, raw, col, j) && y == DetectionFor(d, raw, col, j);
    BestClassIsUnique(d, raw, col, i, j);
  }

  lemma {:induction false} ShownIsProper(d: Detector, raw: seq<real>, col: nat, det: Detection)
    requires d.Valid() && col < d.NumPreds(raw) && Shows(d, raw, col, det)
    ensures InUnitSquare(det.bbox) && det.confidence >= d.confidenceThreshold
  {
  }

  /** The decoding is determined by the tensor. */
  lemma {:induction false} DecodingIsUnique(d: Detector, raw: seq<real>, n: nat, a: seq<Detection>, b: seq<Detection>)
    requires d.Valid() && n <= d.NumPreds(raw) && DecodesTo(d, raw, n, a) && DecodesTo(d, raw, n, b)
    ensures a == b
  {
    if n > 0 {
      if ShowsSomething(d, raw, n - 1) {
        var x, y := a[|a| - 1], b[|b| - 1];
        ColumnShowsOne(d, raw, n - 1, x, y);
        DecodingIsUnique(d, raw, n - 1, a[..|a| - 1], b[..|b| - 1]);
        assert a == a[..|a| - 1] + [x] && b == b[..|b| - 1] + [y];
      } else {
        DecodingIsUnique(d, raw, n - 1, a, b);
      }
    }
  }

  /** Every decoded detection is the best class of a column, reaches the threshold and lies inside the unit square. */
  lemma {:induction false} DecodedDetections(d: Detector, raw: seq<real>, n: nat, dets: seq<Detection>)
    requires d.Valid() && n <= d.NumPreds(raw) && DecodesTo(d, raw, n, dets)
    ensures forall det :: det in dets <==> exists col: nat :: col < n && Shows(d, raw, col, det)
    ensures forall det :: det in dets ==> InUnitSquare(det.bbox) && det.confidence >= d.confidenceThreshold
  {
    if n > 0 {
      if ShowsSomething(d, raw, n - 1) {
        var m := |dets| - 1;
        DecodedDetections(d, raw, n - 1, dets[..m]);
        assert dets == dets[..m] + [dets[m]];
        ShownIsProper(d, raw, n - 1, dets[m]);
        forall det
          ensures det in dets <==> exists col: nat :: col < n && Shows(d, raw, col, det)
        {
          if Shows(d, raw, n - 1, det) {
            ColumnShowsOne(d, raw, n - 1, det, dets[m]);
          }
        }
      } else {
        DecodedDetections(d, raw, n - 1, dets);
      }
    }
  }

  lemma {:induction false} ReportedWasFound(found: seq<Detection>, threshold: real, k: Detection)
    requires k in Nms(SortByConfidence(found), threshold)
    ensures k in found
  {
    SortIsStableSort(found);
    NmsKeepsTheMaxima(SortByConfidence(found), threshold);
    assert k in multiset(SortByConfidence(found));
  }

  /** End to end: what `detect` reports reaches the threshold and lies inside the unit square, so overlaps are proper ratios. */
  lemma {:induction false} DetectReportsProperBoxes(d: Detector, raw: seq<real>, found: seq<Detection>, threshold: real)
    requires d.Valid() && DecodesTo(d, raw, d.NumPreds(raw), found)
    ensures var keep := Nms(SortByConfidence(found), threshold);
            && (forall k :: k in keep ==> InUnitSquare(k.bbox) && k.confidence >= d.confidenceThreshold)
            && (forall a, b :: a in keep && b in keep ==> 0.0 <= Iou(a.bbox, b.bbox) <= 1.0)
  {
    DecodedDetections(d, raw, d.NumPreds(raw), found);
    var keep := Nms(SortByConfidence(found), threshold);
    forall k | k in keep
      ensures k in found
    {
      ReportedWasFound(found, threshold, k);
    }
    forall a, b | a in keep && b in keep
      ensures 0.0 <= Iou(a.bbox, b.bbox) <= 1.0
    {
      IouInUnitInterval(a.bbox, b.bbox);
    }
  }

  // ---------------------------------------------------------------------------------------
  // The layout of the tensor, the classes, and the clamping
  // ---------------------------------------------------------------------------------------

  /** The rows one after the other. */
  function Flatten(rows: seq<seq<real>>): seq<real> {
    if rows == [] then [] else Flatten(rows[..|rows| - 1]) + rows[|rows| - 1]
  }

  lemma {:induction false} FlattenLength(rows: seq<seq<real>>, n: nat)
    requires forall r :: 0 <= r < |rows| ==> |rows[r]| == n
    ensures |Flatten(rows)| == |rows| * n
  {
    if rows != [] {
      FlattenLength(rows[..|rows| - 1], n);
      OneMoreRow(|rows| - 1, n);
    }
  }

  lemma {:induction false} OneMoreRow(k: nat, n: nat)
    ensures (k + 1) * n == k * n + n
  {
  }

  lemma {:induction false} FlattenAt(rows: seq<seq<real>>, n: nat, r: nat, c: nat)
    requires (forall k :: 0 <= k < |rows| ==> |rows[k]| == n) && r < |rows| && c < n
    ensures 0 <= r * n + c < |Flatten(rows)| && Flatten(rows)[r * n + c] == rows[r][c]
  {
    var m := |rows| - 1;
    FlattenLength(rows[..m], n);
    FlattenLength(rows, n);
    OneMoreRow(m, n);
    if r < m {
      FlattenAt(rows[..m], n, r, c);
    }
  }

  lemma {:induction false} QuotientOfRows(rowLen: nat, n: nat, rest: nat)
    requires rest < rowLen
    ensures (rowLen * n + rest) / rowLen == n
  {
    var q := (rowLen * n + rest) / rowLen;
    assert rowLen * q <= rowLen * n + rest < rowLen * q + rowLen;
    if q > n {
      LessMeansOneLess(n, q, rowLen);
    } else if q < n {
      LessMeansOneLess(q, n, rowLen);
    }
  }

  lemma {:induction false} LessMeansOneLess(a: nat, b: nat, k: nat)
    requires a < b
    ensures k * a + k <= k * b
  {
    var d := b - a - 1;
    assert k * b == k * a + k + k * d;
  }

  /**
   * The transposed layout: of a tensor made of one row for each of the four coordinates and each class,
   * with one entry per prediction and an incomplete remainder, entry (r, c) is what is read.
   */
  lemma {:induction false} TensorLayout(d: Detector, rows: seq<seq<real>>, n: nat, rest: seq<real>, r: nat, c: nat)
    requires |rows| == 4 + |d.classNames| && |rest| < |rows| && (forall k :: 0 <= k < |rows| ==> |rows[k]| == n)
    requires r < |rows| && c < n
    ensures var raw := Flatten(rows) + rest; d.NumPreds(raw) == n && At(d, raw, r, c) == rows[r][c]
  {
    FlattenLength(rows, n);
    QuotientOfRows(|rows|, n, |rest|);
    FlattenAt(rows, n, r, c);
  }

  /** The class table; the types are those of the default class names, in their order. */
  lemma {:induction false} ClassTable(idx: nat)
    ensures ClassToElementType(idx)
         == if idx < 11 then [Button, Input, Link, Dropdown, Toggle, Checkbox, Image, Icon, Text, Nav, Tab][idx] else Unknown
  {
  }

  function Distance(x: real, y: real): real { if x >= y then x - y else y - x }

  /** A corner is moved to the nearest point of the unit square, and a side shortened or lengthened to the nearest length that fits. */
  lemma {:induction false} NormalisedIsNearest(d: Detector, cx: real, cy: real, w: real, h: real, z: real)
    requires d.inputWidth > 0 && d.inputHeight > 0
    ensures var b, W, H := NormalisedBox(d, cx, cy, w, h), d.inputWidth as real, d.inputHeight as real;
            && (0.0 <= z <= 1.0 ==> Distance(b.x, (cx - w / 2.0) / W) <= Distance(z, (cx - w / 2.0) / W))
            && (0.0 <= z <= 1.0 ==> Distance(b.y, (cy - h / 2.0) / H) <= Distance(z, (cy - h / 2.0) / H))
            && (0.0 <= z <= 1.0 - b.x ==> Distance(b.width, w / W) <= Distance(z, w / W))
            && (0.0 <= z <= 1.0 - b.y ==> Distance(b.height, h / H) <= Distance(z, h / H))
  {
    var W, H := d.inputWidth as real, d.inputHeight as real;
    var b := NormalisedBox(d, cx, cy, w, h);
    ClampIsNearest((cx - w / 2.0) / W, 0.0, 1.0, z);
    ClampIsNearest((cy - h / 2.0) / H, 0.0, 1.0, z);
    ClampIsNearest(w / W, 0.0, 1.0 - b.x, z);
    ClampIsNearest(h / H, 0.0, 1.0 - b.y, z);
  }

  lemma {:induction false} ClampIsNearest(v: real, lo: real, hi: real, z: real)
    requires lo <= hi
    ensures lo <= z <= hi ==> Distance(Clamp(v, lo, hi), v) <= Distance(z, v)
  {
  }

  /** What a column of such a tensor shows: centre and size from the first four rows, the score from the row of the class. */
  lemma {:induction false} DetectionOfColumn(d: Detector, rows: seq<seq<real>>, n: nat, rest: seq<real>, col: nat, cls: nat)
    requires d.Valid() && |rows| == 4 + |d.classNames| && |rest| < |rows| && (forall k :: 0 <= k < |rows| ==> |rows[k]| == n)
    requires col < n && cls < |d.classNames|
    ensures var raw := Flatten(rows) + rest;
            d.NumPreds(raw) == n
            && DetectionFor(d, raw, col, cls)
               == Detection(ClassToElementType(cls), NormalisedBox(d, rows[0][col], rows[1][col], rows[2][col], rows[3][col]),
                            rows[4 + cls][col], Some(d.classNames[cls]))
  {
    TensorLayout(d, rows, n, rest, 0, col);
    TensorLayout(d, rows, n, rest, 1, col);
    TensorLayout(d, rows, n, rest, 2, col);
    TensorLayout(d, rows, n, rest, 3, col);
    TensorLayout(d, rows, n, rest, 4 + cls, col);
  }
}
