/** Intersection over union of axis-aligned boxes and the modified CIoU loss of a batch of
    (prediction, target) pairs, over exact real numbers instead of single-precision floats. */
module Cioum {

  /** A box given by two corners (x1, y1) and (x2, y2). Nothing forces x1 <= x2 or y1 <= y2. */
  datatype BoundingBox = BoundingBox(x1: real, y1: real, x2: real, y2: real)

  /** The additive guard 1e-7 of the enclosing diagonal and of the two aspect ratios. */
  const Epsilon: real := 0.0000001

  /** A box whose second corner is not to the left of or above its first. */
  predicate WellFormed(b: BoundingBox) {
    b.x1 <= b.x2 && b.y1 <= b.y2
  }

  function Width(b: BoundingBox): real { b.x2 - b.x1 }

  function Height(b: BoundingBox): real { b.y2 - b.y1 }

  /** The signed area: negative for a box with exactly one inverted side. */
  function Area(b: BoundingBox): real { Width(b) * Height(b) }

  // ---------------------------------------------------------------------------
  // Arithmetic helpers

  /** float_min; also fmin, which agrees with it on every real. */
  function FloatMin(a: real, b: real): (r: real)
    ensures r <= a && r <= b
    ensures r == a || r == b
  {
    if a < b then a else b
  }

  /** float_max; also fmax, which agrees with it on every real. */
  function FloatMax(a: real, b: real): (r: real)
    ensures r >= a && r >= b
    ensures r == a || r == b
  {
    if a > b then a else b
  }

  function Abs(x: real): (r: real)
    ensures r >= 0.0
    ensures r == x || r == -x
  {
    if x < 0.0 then -x else x
  }

  lemma SquareNonNegative(d: real)
    ensures d * d >= 0.0
  {
    if d < 0.0 {
      var e := -d;
      assert d * d == e * e;
    }
  }

  /** The squared distance between the points (x1, y1) and (x2, y2); never negative. */
  function EuclideanDistanceSquared(x1: real, y1: real, x2: real, y2: real): (r: real)
    ensures r >= 0.0
  {
    SquareNonNegative(x1 - x2);
    SquareNonNegative(y1 - y2);
    (x1 - x2) * (x1 - x2) + (y1 - y2) * (y1 - y2)
  }

  lemma EuclideanDistanceSquaredSymmetric(x1: real, y1: real, x2: real, y2: real)
    ensures EuclideanDistanceSquared(x1, y1, x2, y2) == EuclideanDistanceSquared(x2, y2, x1, y1)
  {
    assert (x1 - x2) * (x1 - x2) == (x2 - x1) * (x2 - x1);
    assert (y1 - y2) * (y1 - y2) == (y2 - y1) * (y2 - y1);
  }

  /** 0 <= a <= c and 0 <= b <= d give a * b <= c * d. */
  lemma MulMonotone(a: real, b: real, c: real, d: real)
    requires 0.0 <= a <= c && 0.0 <= b <= d
    ensures 0.0 <= a * b <= c * d
  {
    assert a * b <= c * b;
    assert c * b <= c * d;
  }

  // ---------------------------------------------------------------------------
  // Intersection over union

  /** The clipped box: the largest lower corner and the smallest upper corner of the two. */
  function Overlap(b1: BoundingBox, b2: BoundingBox): BoundingBox {
    BoundingBox(FloatMax(b1.x1, b2.x1), FloatMax(b1.y1, b2.y1),
                FloatMin(b1.x2, b2.x2), FloatMin(b1.y2, b2.y2))
  }

  /** The first guard of box_iou: the clipped box is empty along some axis. */
  predicate Disjoint(b1: BoundingBox, b2: BoundingBox) {
    var o := Overlap(b1, b2);
    o.x2 < o.x1 || o.y2 < o.y1
  }

  /** area1 + area2 - intersection, each area taken from the box's own corners. */
  function UnionArea(b1: BoundingBox, b2: BoundingBox): real {
    Area(b1) + Area(b2) - Area(Overlap(b1, b2))
  }

  /** box_iou: zero for disjoint boxes and for a non-positive union, otherwise
      the intersection area divided by the union area. */
  function BoxIou(b1: BoundingBox, b2: BoundingBox): (r: real)
    ensures Disjoint(b1, b2) ==> r == 0.0
    ensures UnionArea(b1, b2) <= 0.0 ==> r == 0.0
    ensures r >= 0.0
  {
    var o := Overlap(b1, b2);
    if o.x2 < o.x1 || o.y2 < o.y1 then
      0.0
    else
      var intersection := Area(o);
      var union := Area(b1) + Area(b2) - intersection;
      if union <= 0.0 then
        0.0
      else
        MulMonotone(Width(o), Height(o), Width(o), Height(o));
        intersection / union
  }

  /** Swapping the two boxes does not change the IoU. */
  lemma BoxIouSymmetric(b1: BoundingBox, b2: BoundingBox)
    ensures BoxIou(b1, b2) == BoxIou(b2, b1)
  {
    assert Overlap(b1, b2) == Overlap(b2, b1);
  }

  /** For well-formed boxes the intersection is no larger than either area. */
  lemma OverlapAreaBounded(b1: BoundingBox, b2: BoundingBox)
    requires WellFormed(b1) && WellFormed(b2) && !Disjoint(b1, b2)
    ensures 0.0 <= Area(Overlap(b1, b2)) <= Area(b1)
    ensures Area(Overlap(b1, b2)) <= Area(b2)
  {
    var o := Overlap(b1, b2);
    MulMonotone(Width(o), Height(o), Width(b1), Height(b1));
    MulMonotone(Width(o), Height(o), Width(b2), Height(b2));
  }

  /** For well-formed boxes the IoU lies in [0, 1]. */
  lemma BoxIouAtMostOne(b1: BoundingBox, b2: BoundingBox)
    requires WellFormed(b1) && WellFormed(b2)
    ensures 0.0 <= BoxIou(b1, b2) <= 1.0
  {
    if !Disjoint(b1, b2) {
      OverlapAreaBounded(b1, b2);
      var i, u := Area(Overlap(b1, b2)), UnionArea(b1, b2);
      assert i <= u;
      if u > 0.0 {
        assert BoxIou(b1, b2) == i / u;
      }
    }
  }

  /** A box with positive width and height overlaps itself perfectly. */
  lemma BoxIouSelf(b: BoundingBox)
    requires Width(b) > 0.0 && Height(b) > 0.0
    ensures BoxIou(b, b) == 1.0
  {
    assert Overlap(b, b) == b;
    assert !Disjoint(b, b);
    var a := Area(b);
    assert a > 0.0;
    assert UnionArea(b, b) == a;
    assert BoxIou(b, b) == a / a;
    assert a / a == 1.0;
  }

  // ---------------------------------------------------------------------------
  // The per-pair penalties of ciou_loss_modified

  function CenterX(b: BoundingBox): real { (b.x1 + b.x2) / 2.0 }

  function CenterY(b: BoundingBox): real { (b.y1 + b.y2) / 2.0 }

  /** The smallest box containing both boxes (for well-formed boxes). */
  function Enclosing(p: BoundingBox, t: BoundingBox): BoundingBox {
    BoundingBox(FloatMin(p.x1, t.x1), FloatMin(p.y1, t.y1),
                FloatMax(p.x2, t.x2), FloatMax(p.y2, t.y2))
  }

  function CenterDistanceSquared(p: BoundingBox, t: BoundingBox): real {
    EuclideanDistanceSquared(CenterX(p), CenterY(p), CenterX(t), CenterY(t))
  }

  /** The squared diagonal of the enclosing box plus Epsilon: never below Epsilon. */
  function EnclosingDiagonalSquared(p: BoundingBox, t: BoundingBox): (r: real)
    ensures r >= Epsilon
  {
    var e := Enclosing(p, t);
    EuclideanDistanceSquared(e.x1, e.y1, e.x2, e.y2) + Epsilon
  }

  /** The squared center distance normalised by the enclosing diagonal. */
  function CenterPenalty(p: BoundingBox, t: BoundingBox): (r: real)
    ensures r >= 0.0
  {
    CenterDistanceSquared(p, t) / EnclosingDiagonalSquared(p, t)
  }

  /** The aspect-ratio division w / (h + 1e-7) is defined. */
  predicate AspectDefined(b: BoundingBox) {
    Height(b) + Epsilon != 0.0
  }

  function AspectRatio(b: BoundingBox): real
    requires AspectDefined(b)
  {
    Width(b) / (Height(b) + Epsilon)
  }

  function AspectPenalty(p: BoundingBox, t: BoundingBox): (r: real)
    requires AspectDefined(p) && AspectDefined(t)
    ensures r >= 0.0
    ensures r == 0.0 <==> AspectRatio(p) == AspectRatio(t)
  {
    Abs(AspectRatio(p) - AspectRatio(t))
  }

  /** The adjusted overlap score of one pair; the center weight takes no part in it. */
  function Ciou(p: BoundingBox, t: BoundingBox, wAspect: real): real
    requires AspectDefined(p) && AspectDefined(t)
  {
    BoxIou(p, t) - CenterPenalty(p, t) - wAspect * AspectPenalty(p, t)
  }

  /** The loss of one (prediction, target) pair. */
  function PairLoss(p: BoundingBox, t: BoundingBox, wAspect: real): real
    requires AspectDefined(p) && AspectDefined(t)
  {
    1.0 - Ciou(p, t, wAspect)
  }

  /** Along one axis, the distance between the two midpoints is at most the extent of
      the enclosing interval, for well-formed intervals [a1, a2] and [b1, b2]. */
  lemma MidpointGap(a1: real, a2: real, b1: real, b2: real)
    requires a1 <= a2 && b1 <= b2
    ensures Abs((a1 + a2) / 2.0 - (b1 + b2) / 2.0) <= FloatMax(a2, b2) - FloatMin(a1, b1)
  {
  }

  lemma DivBelowOne(a: real, b: real)
    requires 0.0 <= a < b
    ensures 0.0 <= a / b < 1.0
  {
    assert a / b * b == a;
  }

  /** |d| <= e gives d * d <= e * e. */
  lemma SquareMonotone(d: real, e: real)
    requires Abs(d) <= e
    ensures d * d <= e * e
  {
    MulMonotone(Abs(d), Abs(d), e, e);
    assert d * d == Abs(d) * Abs(d);
  }

  /** Along the x axis the squared center gap is at most the squared width of the enclosing box. */
  lemma CenterGapX(p: BoundingBox, t: BoundingBox)
    requires WellFormed(p) && WellFormed(t)
    ensures var e := Enclosing(p, t);
      (CenterX(p) - CenterX(t)) * (CenterX(p) - CenterX(t)) <= (e.x2 - e.x1) * (e.x2 - e.x1)
  {
    MidpointGap(p.x1, p.x2, t.x1, t.x2);
    SquareMonotone(CenterX(p) - CenterX(t), Enclosing(p, t).x2 - Enclosing(p, t).x1);
  }

  /** Along the y axis the squared center gap is at most the squared height of the enclosing box. */
  lemma CenterGapY(p: BoundingBox, t: BoundingBox)
    requires WellFormed(p) && WellFormed(t)
    ensures var e := Enclosing(p, t);
      (CenterY(p) - CenterY(t)) * (CenterY(p) - CenterY(t)) <= (e.y2 - e.y1) * (e.y2 - e.y1)
  {
    MidpointGap(p.y1, p.y2, t.y1, t.y2);
    SquareMonotone(CenterY(p) - CenterY(t), Enclosing(p, t).y2 - Enclosing(p, t).y1);
  }

  /** For well-formed boxes the squared center distance is below the guarded squared diagonal. */
  lemma CenterDistanceBelowDiagonal(p: BoundingBox, t: BoundingBox)
    requires WellFormed(p) && WellFormed(t)
    ensures 0.0 <= CenterDistanceSquared(p, t) < EnclosingDiagonalSquared(p, t)
  {
    var e := Enclosing(p, t);
    hide Enclosing, FloatMin, FloatMax, CenterX, CenterY;
    CenterGapX(p, t);
    CenterGapY(p, t);
    EuclideanDistanceSquaredSymmetric(e.x1, e.y1, e.x2, e.y2);
  }

  /** For well-formed boxes each center lies in the enclosing box, so the
      center penalty stays below 1. */
  lemma CenterPenaltyBelowOne(p: BoundingBox, t: BoundingBox)
    requires WellFormed(p) && WellFormed(t)
    ensures CenterPenalty(p, t) < 1.0
  {
    CenterDistanceBelowDiagonal(p, t);
    DivBelowOne(CenterDistanceSquared(p, t), EnclosingDiagonalSquared(p, t));
  }

  /** The arithmetic behind the bounds of one pair loss. */
  lemma LossArithmetic(iou: real, cp: real, ap: real, w: real)
    requires 0.0 <= iou <= 1.0 && 0.0 <= cp < 1.0 && ap >= 0.0 && w >= 0.0
    ensures 0.0 <= w * ap <= 1.0 - (iou - cp - w * ap) < 2.0 + w * ap
  {
    MulMonotone(w, ap, w, ap);
  }

  /** For well-formed boxes and a non-negative aspect weight, the loss of a pair is at
      least its weighted aspect penalty (so never negative) and below 2 plus that penalty. */
  lemma PairLossBounds(p: BoundingBox, t: BoundingBox, wAspect: real)
    requires WellFormed(p) && WellFormed(t)
    requires AspectDefined(p) && AspectDefined(t)
    requires wAspect >= 0.0
    ensures 0.0 <= wAspect * AspectPenalty(p, t) <= PairLoss(p, t, wAspect)
    ensures PairLoss(p, t, wAspect) < 2.0 + wAspect * AspectPenalty(p, t)
  {
    hide BoxIou, CenterPenalty, AspectPenalty;
    BoxIouAtMostOne(p, t);
    CenterPenaltyBelowOne(p, t);
    LossArithmetic(BoxIou(p, t), CenterPenalty(p, t), AspectPenalty(p, t), wAspect);
  }

  /** A prediction equal to its target, of positive width and height, costs nothing. */
  lemma PairLossPerfect(b: BoundingBox, wAspect: real)
    requires Width(b) > 0.0 && Height(b) > 0.0
    ensures AspectDefined(b)
    ensures PairLoss(b, b, wAspect) == 0.0
  {
    BoxIouSelf(b);
    assert CenterPenalty(b, b) == 0.0;
    assert AspectPenalty(b, b) == 0.0;
  }

  lemma CenterPenaltySymmetric(p: BoundingBox, t: BoundingBox)
    ensures CenterPenalty(p, t) == CenterPenalty(t, p)
  {
    EuclideanDistanceSquaredSymmetric(CenterX(p), CenterY(p), CenterX(t), CenterY(t));
    assert Enclosing(p, t) == Enclosing(t, p);
  }

  /** Swapping prediction and target does not change the loss of a pair. */
  lemma PairLossSymmetric(p: BoundingBox, t: BoundingBox, wAspect: real)
    requires AspectDefined(p) && AspectDefined(t)
    ensures PairLoss(p, t, wAspect) == PairLoss(t, p, wAspect)
  {
    hide BoxIou, CenterPenalty, AspectPenalty;
    BoxIouSymmetric(p, t);
    CenterPenaltySymmetric(p, t);
    AspectPenaltySymmetric(p, t);
  }

  lemma AspectPenaltySymmetric(p: BoundingBox, t: BoundingBox)
    requires AspectDefined(p) && AspectDefined(t)
    ensures AspectPenalty(p, t) == AspectPenalty(t, p)
  {
  }

  // ---------------------------------------------------------------------------
  // The batch

  /** Equal-length prediction and target sequences whose aspect ratios are all defined. */
  predicate Batch(preds: seq<BoundingBox>, targets: seq<BoundingBox>) {
    |preds| == |targets| &&
    forall i :: 0 <= i < |preds| ==> AspectDefined(preds[i]) && AspectDefined(targets[i])
  }

  /** The loss of every pair of the batch, in order. */
  function PairLosses(preds: seq<BoundingBox>, targets: seq<BoundingBox>, wAspect: real): (ls: seq<real>)
    requires Batch(preds, targets)
    ensures |ls| == |preds|
    ensures forall i :: 0 <= i < |ls| ==> ls[i] == PairLoss(preds[i], targets[i], wAspect)
  {
    seq(|preds|, i requires 0 <= i < |preds| => PairLoss(preds[i], targets[i], wAspect))
  }

  /** The sum of a sequence of reals, added from the front as the loop does. */
  function Sum(xs: seq<real>): real
    decreases |xs|
  {
    if |xs| == 0 then 0.0 else Sum(xs[..|xs| - 1]) + xs[|xs| - 1]
  }

  /** The arithmetic mean of a sequence of reals; zero for the empty sequence. */
  function Mean(xs: seq<real>): real {
    if |xs| == 0 then 0.0 else Sum(xs) / |xs| as real
  }

  /** The arithmetic mean of the per-pair losses; zero for an empty batch. */
  function MeanLoss(preds: seq<BoundingBox>, targets: seq<BoundingBox>, wAspect: real): real
    requires Batch(preds, targets)
  {
    Mean(PairLosses(preds, targets, wAspect))
  }

  /** A lower bound on every element bounds the sum from below. */
  lemma {:induction false} SumAtLeast(xs: seq<real>, lo: real)
    requires forall i :: 0 <= i < |xs| ==> lo <= xs[i]
    ensures |xs| as real * lo <= Sum(xs)
    decreases |xs|
  {
    if |xs| > 0 {
      var n := |xs| - 1;
      SumAtLeast(xs[..n], lo);
      assert |xs| as real * lo == n as real * lo + lo;
    }
  }

  /** An upper bound on every element bounds the sum from above. */
  lemma {:induction false} SumAtMost(xs: seq<real>, hi: real)
    requires forall i :: 0 <= i < |xs| ==> xs[i] <= hi
    ensures Sum(xs) <= |xs| as real * hi
    decreases |xs|
  {
    if |xs| > 0 {
      var n := |xs| - 1;
      SumAtMost(xs[..n], hi);
      assert |xs| as real * hi == n as real * hi + hi;
    }
  }

  /** Dividing by a positive count keeps a value between n * lo and n * hi within [lo, hi]. */
  lemma QuotientWithin(s: real, n: real, lo: real, hi: real)
    requires n > 0.0 && n * lo <= s <= n * hi
    ensures lo <= s / n <= hi
  {
    assert s / n - lo == (s - n * lo) / n;
    assert hi - s / n == (n * hi - s) / n;
  }

  /** The mean of a non-empty sequence lies between any bounds of its elements. */
  lemma MeanWithin(xs: seq<real>, lo: real, hi: real)
    requires |xs| > 0
    requires forall i :: 0 <= i < |xs| ==> lo <= xs[i] <= hi
    ensures lo <= Mean(xs) <= hi
  {
    SumAtLeast(xs, lo);
    SumAtMost(xs, hi);
    QuotientWithin(Sum(xs), |xs| as real, lo, hi);
  }

  /** The mean loss of a batch lies between any bounds of its per-pair losses. */
  lemma MeanLossWithin(preds: seq<BoundingBox>, targets: seq<BoundingBox>, wAspect: real, lo: real, hi: real)
    requires Batch(preds, targets) && |preds| > 0
    requires forall i :: 0 <= i < |preds| ==>
      lo <= PairLoss(preds[i], targets[i], wAspect) <= hi
    ensures lo <= MeanLoss(preds, targets, wAspect) <= hi
  {
    MeanWithin(PairLosses(preds, targets, wAspect), lo, hi);
  }

  /** For well-formed boxes and a non-negative aspect weight the mean loss is never negative. */
  lemma MeanLossNonNegative(preds: seq<BoundingBox>, targets: seq<BoundingBox>, wAspect: real)
    requires Batch(preds, targets) && wAspect >= 0.0
    requires forall i :: 0 <= i < |preds| ==> WellFormed(preds[i]) && WellFormed(targets[i])
    ensures MeanLoss(preds, targets, wAspect) >= 0.0
  {
    var ls := PairLosses(preds, targets, wAspect);
    forall i | 0 <= i < |ls|
      ensures 0.0 <= ls[i]
    {
      PairLossBounds(preds[i], targets[i], wAspect);
    }
    SumAtLeast(ls, 0.0);
  }

  /** The sum of a sequence of zeros is zero. */
  lemma {:induction false} SumZeros(xs: seq<real>)
    requires forall i :: 0 <= i < |xs| ==> xs[i] == 0.0
    ensures Sum(xs) == 0.0
    decreases |xs|
  {
    if |xs| > 0 {
      SumZeros(xs[..|xs| - 1]);
    }
  }

  /** A batch of perfect predictions has zero mean loss. */
  lemma MeanLossPerfect(boxes: seq<BoundingBox>, wAspect: real)
    requires forall i :: 0 <= i < |boxes| ==> Width(boxes[i]) > 0.0 && Height(boxes[i]) > 0.0
    ensures Batch(boxes, boxes)
    ensures MeanLoss(boxes, boxes, wAspect) == 0.0
  {
    forall i | 0 <= i < |boxes|
      ensures AspectDefined(boxes[i]) && PairLoss(boxes[i], boxes[i], wAspect) == 0.0
    {
      PairLossPerfect(boxes[i], wAspect);
    }
    SumZeros(PairLosses(boxes, boxes, wAspect));
  }

  /** Swapping the roles of predictions and targets does not change the mean. */
  lemma MeanLossSymmetric(preds: seq<BoundingBox>, targets: seq<BoundingBox>, wAspect: real)
    requires Batch(preds, targets)
    ensures Batch(targets, preds)
    ensures MeanLoss(preds, targets, wAspect) == MeanLoss(targets, preds, wAspect)
  {
    forall i | 0 <= i < |preds|
      ensures PairLoss(preds[i], targets[i], wAspect) == PairLoss(targets[i], preds[i], wAspect)
    {
      PairLossSymmetric(preds[i], targets[i], wAspect);
    }
    assert PairLosses(preds, targets, wAspect) == PairLosses(targets, preds, wAspect);
  }

  /** ciou_loss_modified: the mean of the first numBoxes pair losses, or 0 when there
      are none. wCenter is accepted and never read; neither array is modified. */
  method CiouLossModified(predBoxes: array<BoundingBox>, targetBoxes: array<BoundingBox>,
                          numBoxes: int, wCenter: real, wAspect: real) returns (loss: real)
    requires numBoxes <= predBoxes.Length && numBoxes <= targetBoxes.Length
    requires forall i :: 0 <= i < numBoxes ==>
      AspectDefined(predBoxes[i]) && AspectDefined(targetBoxes[i])
    ensures numBoxes <= 0 ==> loss == 0.0
    ensures numBoxes > 0 ==>
      Batch(predBoxes[..numBoxes], targetBoxes[..numBoxes]) &&
      loss == MeanLoss(predBoxes[..numBoxes], targetBoxes[..numBoxes], wAspect)
  {
    hide BoxIou, EuclideanDistanceSquared, FloatMin, FloatMax, Abs;
    if numBoxes == 0 {
      return 0.0;
    }
    var totalLoss := 0.0;
    var i := 0;
    while i < numBoxes
      invariant 0 <= i <= (if numBoxes < 0 then 0 else numBoxes)
      invariant Batch(predBoxes[..i], targetBoxes[..i])
      invariant totalLoss == Sum(PairLosses(predBoxes[..i], targetBoxes[..i], wAspect))
    {
      var p, t := predBoxes[i], targetBoxes[i];
      var iou := BoxIou(p, t);

      var centerPredX := (p.x1 + p.x2) / 2.0;
      var centerPredY := (p.y1 + p.y2) / 2.0;
      var centerGtX := (t.x1 + t.x2) / 2.0;
      var centerGtY := (t.y1 + t.y2) / 2.0;
      var distCenterSq := EuclideanDistanceSquared(centerPredX, centerPredY, centerGtX, centerGtY);

      var minX := FloatMin(p.x1, t.x1);
      var minY := FloatMin(p.y1, t.y1);
      var maxX := FloatMax(p.x2, t.x2);
      var maxY := FloatMax(p.y2, t.y2);
      var diagEnclosingSq := EuclideanDistanceSquared(minX, minY, maxX, maxY) + Epsilon;

      var centerPenalty := distCenterSq / diagEnclosingSq;

      var predW := p.x2 - p.x1;
      var predH := p.y2 - p.y1;
      var gtW := t.x2 - t.x1;
      var gtH := t.y2 - t.y1;
      var arPred := predW / (predH + Epsilon);
      var arGt := gtW / (gtH + Epsilon);
      var aspectRatioPenalty := Abs(arPred - arGt);

      var ciou := iou - centerPenalty - wAspect * aspectRatioPenalty;
      var pairLoss := 1.0 - ciou;
      assert distCenterSq == CenterDistanceSquared(p, t);
      assert diagEnclosingSq == EnclosingDiagonalSquared(p, t);
      assert centerPenalty == CenterPenalty(p, t);
      assert arPred == AspectRatio(p) && arGt == AspectRatio(t);
      assert aspectRatioPenalty == AspectPenalty(p, t);
      PairLossOfTerms(p, t, wAspect, iou, centerPenalty, aspectRatioPenalty);
      PairLossesSnoc(predBoxes[..i], targetBoxes[..i], p, t, wAspect);
      assert predBoxes[..i + 1] == predBoxes[..i] + [p];
      assert targetBoxes[..i + 1] == targetBoxes[..i] + [t];
      totalLoss := totalLoss + pairLoss;
      i := i + 1;
    }
    ghost var losses := PairLosses(predBoxes[..i], targetBoxes[..i], wAspect);
    assert numBoxes < 0 ==> i == 0 && |losses| == 0 && totalLoss == 0.0;
    assert numBoxes > 0 ==> i == numBoxes && MeanLoss(predBoxes[..i], targetBoxes[..i], wAspect) == totalLoss / numBoxes as real;
    loss := totalLoss / numBoxes as real;
  }

  /** The loss of a pair in terms of its IoU, center penalty and aspect penalty. */
  lemma PairLossOfTerms(p: BoundingBox, t: BoundingBox, wAspect: real, iou: real, cp: real, ap: real)
    requires AspectDefined(p) && AspectDefined(t)
    requires iou == BoxIou(p, t) && cp == CenterPenalty(p, t) && ap == AspectPenalty(p, t)
    ensures PairLoss(p, t, wAspect) == 1.0 - (iou - cp - wAspect * ap)
  {
    hide BoxIou, CenterPenalty, AspectPenalty;
  }

  /** Extending the batch by one pair extends the per-pair losses by that pair's loss. */
  lemma PairLossesSnoc(preds: seq<BoundingBox>, targets: seq<BoundingBox>,
                       p: BoundingBox, t: BoundingBox, wAspect: real)
    requires Batch(preds, targets) && AspectDefined(p) && AspectDefined(t)
    ensures Batch(preds + [p], targets + [t])
    ensures Sum(PairLosses(preds + [p], targets + [t], wAspect)) ==
            Sum(PairLosses(preds, targets, wAspect)) + PairLoss(p, t, wAspect)
  {
    var ls := PairLosses(preds + [p], targets + [t], wAspect);
    assert ls[..|preds|] == PairLosses(preds, targets, wAspect);
  }

  // ---------------------------------------------------------------------------
  // The sample batch of the demonstration program

  function SamplePredictions(): seq<BoundingBox> {
    [BoundingBox(10.0, 10.0, 30.0, 30.0), BoundingBox(50.0, 50.0, 70.0, 70.0)]
  }

  function SampleTargets(): seq<BoundingBox> {
    [BoundingBox(15.0, 15.0, 35.0, 35.0), BoundingBox(55.0, 52.0, 75.0, 78.0)]
  }

  lemma SampleFirstPair()
    ensures AspectDefined(SamplePredictions()[0]) && AspectDefined(SampleTargets()[0])
    ensures PairLoss(SamplePredictions()[0], SampleTargets()[0], 0.8) ==
            1.0 - 225.0 / 575.0 + 50.0 / (1250.0 + Epsilon)
  {
    var p, t := SamplePredictions()[0], SampleTargets()[0];
    assert Overlap(p, t) == BoundingBox(15.0, 15.0, 30.0, 30.0);
    assert BoxIou(p, t) == 225.0 / 575.0;
    assert Enclosing(p, t) == BoundingBox(10.0, 10.0, 35.0, 35.0);
    assert CenterPenalty(p, t) == 50.0 / (1250.0 + Epsilon);
    assert AspectPenalty(p, t) == 0.0;
  }

  lemma SampleSecondPair()
    ensures AspectDefined(SamplePredictions()[1]) && AspectDefined(SampleTargets()[1])
    ensures PairLoss(SamplePredictions()[1], SampleTargets()[1], 0.8) ==
            1.0 - 270.0 / 650.0 + 50.0 / (1409.0 + Epsilon)
            + 0.8 * (20.0 / (20.0 + Epsilon) - 20.0 / (26.0 + Epsilon))
  {
    var p, t := SamplePredictions()[1], SampleTargets()[1];
    assert Overlap(p, t) == BoundingBox(55.0, 52.0, 70.0, 70.0);
    assert BoxIou(p, t) == 270.0 / 650.0;
    assert Enclosing(p, t) == BoundingBox(50.0, 50.0, 75.0, 78.0);
    assert CenterPenalty(p, t) == 50.0 / (1409.0 + Epsilon);
    assert AspectPenalty(p, t) == 20.0 / (20.0 + Epsilon) - 20.0 / (26.0 + Epsilon);
  }

  /** With aspect weight 0.8 the sample batch has mean loss about 0.726707. */
  lemma SampleLoss()
    ensures Batch(SamplePredictions(), SampleTargets())
    ensures 0.72670 < MeanLoss(SamplePredictions(), SampleTargets(), 0.8) < 0.72671
  {
    hide PairLoss, Ciou, BoxIou, CenterPenalty, AspectPenalty;
    SampleFirstPair();
    SampleSecondPair();
    var ps, ts := SamplePredictions(), SampleTargets();
    var l0 := 1.0 - 225.0 / 575.0 + 50.0 / (1250.0 + Epsilon);
    var l1 := 1.0 - 270.0 / 650.0 + 50.0 / (1409.0 + Epsilon)
              + 0.8 * (20.0 / (20.0 + Epsilon) - 20.0 / (26.0 + Epsilon));
    var ls := PairLosses(ps, ts, 0.8);
    assert ls == [l0, l1];
    assert Sum(ls[..1][..0]) == 0.0;
    assert Sum(ls[..1]) == l0;
    assert Sum(ls) == l0 + l1;
    SampleMean(l0, l1);
  }

  lemma SampleMean(l0: real, l1: real)
    requires l0 == 1.0 - 225.0 / 575.0 + 50.0 / (1250.0 + Epsilon)
    requires l1 == 1.0 - 270.0 / 650.0 + 50.0 / (1409.0 + Epsilon)
              + 0.8 * (20.0 / (20.0 + Epsilon) - 20.0 / (26.0 + Epsilon))
    ensures 0.72670 < (l0 + l1) / 2.0 < 0.72671
  {
  }
}
