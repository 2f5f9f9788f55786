/** Which darkness scales (pkg/printer/image.go) keep the dither's errors within their bound. */
module DarknessScale {
  import opened Dither
  import opened Grid
  import opened PrinterImage

  function LiftAll(grey: seq<real>, scale: real): (r: seq<real>)
    ensures |r| == |grey|
  {
    seq(|grey|, i requires 0 <= i < |grey| => Lifted(grey[i], scale))
  }

  /** The error bound holds for this image. */
  ghost predicate ErrorsFit(grey: seq<real>, w: nat, h: nat, t: real, scale: real) {
    |grey| == Above(w, h) && Within(Errors(Values(LiftAll(grey, scale), w, h, t), t), t)
  }

  /** It holds for every image of at most this width and of any height. */
  ghost predicate EveryImageFits(cap: nat, t: real, scale: real) {
    forall grey: seq<real>, w: nat, h: nat | w <= cap && |grey| == Above(w, h) && Grey(grey) :: ErrorsFit(grey, w, h, t, scale)
  }

  /** How far below zero the scale takes black, against the room that a row of `cap` cells leaves. */
  predicate ScaleFits(cap: nat, t: real, scale: real) {
    16.0 * (WHITE * (scale - 1.0)) <= (16.0 - MostCollected(cap)) * (WHITE - t)
  }

  // ------------------------------------------------------------- scales that fit

  lemma {:induction false} LiftFloor(grey: seq<real>, scale: real)
    requires Grey(grey) && scale > 0.0
    ensures AtLeast(LiftAll(grey, scale), WHITE - WHITE * scale)
  {
    forall i | 0 <= i < |grey| ensures WHITE - WHITE * scale <= Lifted(grey[i], scale) <= WHITE {
      NonNegative(grey[i], scale);
      NonNegative(WHITE - grey[i], scale);
      assert (WHITE - grey[i]) * scale == WHITE * scale - grey[i] * scale;
    }
  }

  lemma {:induction false} FittingScale(grey: seq<real>, w: nat, h: nat, cap: nat, t: real, scale: real)
    requires 0.0 <= t <= WHITE && scale > 0.0 && ScaleFits(cap, t, scale) && w <= cap && |grey| == Above(w, h) && Grey(grey)
    ensures ErrorsFit(grey, w, h, t, scale)
  {
    var floor := WHITE - WHITE * scale;
    LiftFloor(grey, scale);
    NonNegative(WHITE - t, MostCollected(cap) - MostCollected(w));
    assert (16.0 - MostCollected(w)) * (WHITE - t)
        == (16.0 - MostCollected(cap)) * (WHITE - t) + (MostCollected(cap) - MostCollected(w)) * (WHITE - t);
    assert HighEnough(floor, w, t);
    BoundsFrom(LiftAll(grey, scale), floor, w, h, t);
  }

  // -------------------------------------------------------- scales that do not

  /** What cell (x, y) collects, in sixteenths, when all its neighbours push the same error. */
  function Weights(w: nat, x: nat, y: nat): (k: real)
    ensures 0.0 <= k <= 16.0
  {
    (if x > 0 then 7.0 else 0.0)
    + (if x > 0 && y > 0 then 1.0 else 0.0)
    + (if y > 0 then 5.0 else 0.0)
    + (if x + 1 < w && y > 0 then 3.0 else 0.0)
  }

  lemma {:induction false} ReceivedEven(e: seq<real>, d: real, w: nat, x: nat, y: nat)
    requires x < w && |e| == Above(w, y) + x && forall i | 0 <= i < |e| :: e[i] == d
    ensures Received(e, w, x, y) == Weights(w, x, y) * d
  {
  }

  /** The second cell of the second row collects the most, or in a single column the only one. */
  function Target(w: nat): nat {
    if w <= 1 then 0 else 1
  }

  function Column(w: nat, k: nat): nat {
    if k < w then k else k - w
  }

  function Line(w: nat, k: nat): nat {
    if k < w then 0 else 1
  }

  /**
   * A lifted image of two rows: every cell before the target comes out right at
   * the threshold, so that it is printed white with the lowest error there is,
   * and the target is black.
   */
  function Wanted(w: nat, t: real, floor: real, k: nat): real {
    if k < w + Target(w) then t - Weights(w, Column(w, k), Line(w, k)) * (t - WHITE) / 16.0
    else if k == w + Target(w) then floor
    else WHITE
  }

  lemma {:induction false} WantedInRange(w: nat, t: real, floor: real, k: nat)
    requires 0.0 <= t <= WHITE && floor <= 0.0
    ensures floor <= Wanted(w, t, floor, k) <= WHITE
  {
    var weight := Weights(w, Column(w, k), Line(w, k));
    NonNegative(WHITE - t, weight);
    NonNegative(WHITE - t, 16.0 - weight);
    assert weight * (WHITE - t) == -(weight * (t - WHITE));
    assert (16.0 - weight) * (WHITE - t) == 16.0 * (WHITE - t) - weight * (WHITE - t);
  }

  /** The grey that the scale lifts to v. */
  function Unlifted(v: real, scale: real): real
    requires scale > 0.0
  {
    WHITE - (WHITE - v) / scale
  }

  lemma {:induction false} UnliftedIs(v: real, scale: real)
    requires scale > 0.0 && WHITE - WHITE * scale <= v <= WHITE
    ensures Lifted(Unlifted(v, scale), scale) == v && 0.0 <= Unlifted(v, scale) <= WHITE
  {
    var d := (WHITE - v) / scale;
    assert d * scale == WHITE - v;
    NotBelow(d, 0.0, scale);
    NotBelow(WHITE, d, scale);
  }

  lemma {:induction false} NotBelow(a: real, b: real, k: real)
    requires k > 0.0 && a * k >= b * k
    ensures a >= b
  {
  }

  /** Each value before the target is at the threshold, and the target's is too low. */
  ghost predicate Falls(values: seq<real>, w: nat, t: real) {
    forall i | 0 <= i < |values| ::
      (i < w + Target(w) ==> values[i] == t) && (i == w + Target(w) ==> values[i] < t - WHITE)
  }

  ghost predicate OnCourse(gray: seq<real>, c: Canvas, w: nat, t: real) {
    AllPulled(gray, c, w, 2, t) && Falls(c.values, w, t)
  }

  /** The next value, given what its neighbours push. */
  lemma {:induction false} FallsNext(values: seq<real>, w: nat, t: real, floor: real, x: nat, y: nat, k: nat)
    requires x < w && y < 2 && k == Above(w, y) + x == |values| && Falls(values, w, t) && 0.0 <= t <= WHITE && !HighEnough(floor, w, t)
    ensures Falls(values + [Wanted(w, t, floor, k) + Received(Errors(values, t), w, x, y) / 16.0], w, t)
  {
    assert y == 1 ==> Above(w, y) == w;
    assert Column(w, k) == x && Line(w, k) == y;
    if k <= w + Target(w) {
      ReceivedEven(Errors(values, t), t - WHITE, w, x, y);
      assert k == w + Target(w) ==> Weights(w, x, y) == MostCollected(w);
    }
  }

  lemma {:induction false} OnCourseVisit(gray: seq<real>, c: Canvas, w: nat, t: real, floor: real, x: nat, y: nat)
    requires |c.work| == Above(w, 2) && x < w && y < 2 && |c.values| == Above(w, y) + x && OnCourse(gray, c, w, t)
    requires AllWanted(gray, w, t, floor) && 0.0 <= t <= WHITE && !HighEnough(floor, w, t)
    ensures OnCourse(gray, Visit(c, w, 2, t, x, y), w, t)
  {
    AllPulledVisit(gray, c, w, 2, t, x, y);
    assert Pulled(gray, c, w, t, x, y);
    FallsNext(c.values, w, t, floor, x, y, Above(w, y) + x);
  }

  ghost predicate AllWanted(gray: seq<real>, w: nat, t: real, floor: real) {
    forall k | 0 <= k < |gray| :: gray[k] == Wanted(w, t, floor, k)
  }

  lemma {:induction false} StaysOnCourse(gray: seq<real>, w: nat, t: real, floor: real, y: nat, x: nat)
    requires |gray| == Above(w, 2) && x <= w && (y < 2 || (y == 2 && x == 0))
    requires AllWanted(gray, w, t, floor) && 0.0 <= t <= WHITE && !HighEnough(floor, w, t)
    ensures OnCourse(gray, Reached(gray, w, 2, t, y, x), w, t)
    decreases y, x
  {
    if x > 0 {
      StaysOnCourse(gray, w, t, floor, y, x - 1);
      OnCourseVisit(gray, Reached(gray, w, 2, t, y, x - 1), w, t, floor, x - 1, y);
    } else if y > 0 {
      StaysOnCourse(gray, w, t, floor, y - 1, w);
    } else {
      AllPulledStart(gray, w, 2, t);
    }
  }

  lemma {:induction false} TargetFalls(gray: seq<real>, w: nat, t: real, floor: real)
    requires w > 0 && |gray| == Above(w, 2) && AllWanted(gray, w, t, floor) && 0.0 <= t <= WHITE && !HighEnough(floor, w, t)
    ensures !Within(Errors(Values(gray, w, 2, t), t), t)
  {
    var values := Values(gray, w, 2, t);
    assert Falls(values, w, t) by { StaysOnCourse(gray, w, t, floor, 2, 0); }
    AboveIs(w, 2);
    assert |values| == 2 * w;
    assert Errors(values, t)[w + Target(w)] < t - WHITE;
  }

  lemma {:induction false} UnfitScale(cap: nat, t: real, scale: real) returns (grey: seq<real>)
    requires cap > 0 && 0.0 <= t <= WHITE && scale > 0.0 && !ScaleFits(cap, t, scale)
    ensures |grey| == Above(cap, 2) && Grey(grey) && !ErrorsFit(grey, cap, 2, t, scale)
  {
    var floor := WHITE - WHITE * scale;
    NonNegative(WHITE - t, 16.0 - MostCollected(cap));
    grey := seq(Above(cap, 2), k requires 0 <= k < Above(cap, 2) => Unlifted(Wanted(cap, t, floor, k), scale));
    forall k | 0 <= k < |grey| ensures 0.0 <= grey[k] <= WHITE && LiftAll(grey, scale)[k] == Wanted(cap, t, floor, k) {
      WantedInRange(cap, t, floor, k);
      UnliftedIs(Wanted(cap, t, floor, k), scale);
    }
    TargetFalls(LiftAll(grey, scale), cap, t, floor);
  }

  /**
   * The configuration accepts any positive scale and the printer caps the width.
   * The error bound holds for every image within the cap exactly when the room
   * left by the widest row is not used up by how far the scale takes black below
   * zero.
   */
  lemma {:induction false} BoundHoldsIffScaleFits(cap: nat, t: real, scale: real)
    requires cap > 0 && 0.0 <= t <= WHITE && scale > 0.0
    ensures EveryImageFits(cap, t, scale) <==> ScaleFits(cap, t, scale)
  {
    if ScaleFits(cap, t, scale) {
      forall grey: seq<real>, w: nat, h: nat | w <= cap && |grey| == Above(w, h) && Grey(grey) ensures ErrorsFit(grey, w, h, t, scale) {
        FittingScale(grey, w, h, cap, t, scale);
      }
    } else {
      var grey := UnfitScale(cap, t, scale);
    }
  }

  /** From three cells a row on there is no room: only scales of at most one keep the bound, the default cap included. */
  lemma {:induction false} BoundHoldsIffScaleAtMostOne(cap: nat, t: real, scale: real)
    requires cap >= 3 && 0.0 <= t <= WHITE && scale > 0.0
    ensures EveryImageFits(cap, t, scale) <==> scale <= 1.0
  {
    BoundHoldsIffScaleFits(cap, t, scale);
    assert ScaleFits(cap, t, scale) <==> 16.0 * (WHITE * (scale - 1.0)) <= 0.0;
  }
}
