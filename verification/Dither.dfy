/** Floyd-Steinberg dithering of a grey image (pkg/printer/image.go), over the reals. */
module Dither {
  import opened Grid

  const WHITE := 255.0

  function Residue(v: real, t: real): real {
    if v < t then v else v - WHITE
  }

  // ------------------------------------------------------------------ diffusion

  /** buf[y*width+x] += delta, unless (x, y) is outside the image. */
  function Spread(work: seq<real>, w: nat, h: nat, x: int, y: int, delta: real): (r: seq<real>)
    requires |work| == Above(w, h)
    ensures |r| == |work|
  {
    if x < 0 || y < 0 || x >= w || y >= h then work
    else
      AboveGrows(w, y, h);
      work[Above(w, y) + x := work[Above(w, y) + x] + delta]
  }

  /** Push error e of cell (x, y) to the four neighbours not yet visited. */
  function Push(work: seq<real>, w: nat, h: nat, x: nat, y: nat, e: real): (r: seq<real>)
    requires |work| == Above(w, h)
    ensures |r| == |work|
  {
    var a := Spread(work, w, h, x + 1, y, e * 7.0 / 16.0);
    var b := Spread(a, w, h, x - 1, y + 1, e * 3.0 / 16.0);
    var c := Spread(b, w, h, x, y + 1, e * 5.0 / 16.0);
    Spread(c, w, h, x + 1, y + 1, e * 1.0 / 16.0)
  }

  /** The work buffer, and what each visited cell held when visited, in reading order. */
  datatype Canvas = Canvas(work: seq<real>, values: seq<real>)

  /** Quantise cell (x, y) and push its error. */
  function Visit(c: Canvas, w: nat, h: nat, t: real, x: nat, y: nat): (r: Canvas)
    requires |c.work| == Above(w, h) && x < w && y < h
    ensures |r.work| == |c.work| && |r.values| == |c.values| + 1
  {
    AboveGrows(w, y, h);
    var v := c.work[Above(w, y) + x];
    Canvas(Push(c.work, w, h, x, y, Residue(v, t)), c.values + [v])
  }

  /** The state when the loops reach column x of row y. */
  function Reached(gray: seq<real>, w: nat, h: nat, t: real, y: nat, x: nat): (r: Canvas)
    requires |gray| == Above(w, h) && x <= w && (y < h || (y == h && x == 0))
    ensures |r.work| == |gray| && |r.values| == Above(w, y) + x
    decreases y, x
  {
    if x > 0 then Visit(Reached(gray, w, h, t, y, x - 1), w, h, t, x - 1, y)
    else if y > 0 then Reached(gray, w, h, t, y - 1, w)
    else Canvas(gray, [])
  }

  /** The values visited in the whole image. */
  function Values(gray: seq<real>, w: nat, h: nat, t: real): (r: seq<real>)
    requires |gray| == Above(w, h)
    ensures |r| == |gray|
  {
    Reached(gray, w, h, t, h, 0).values
  }

  /** The error each visited cell pushed. */
  function Errors(values: seq<real>, t: real): (r: seq<real>)
    ensures |r| == |values|
  {
    seq(|values|, i requires 0 <= i < |values| => Residue(values[i], t))
  }

  lemma {:induction false} ErrorsPush(values: seq<real>, v: real, t: real)
    ensures Errors(values + [v], t) == Errors(values, t) + [Residue(v, t)]
  {
  }

  // ------------------------------------------------------------------ pull form

  function Times(e: seq<real>, i: int, k: real): real {
    if 0 <= i < |e| then e[i] * k else 0.0
  }

  /** Sixteen times the error cell (x, y) collects from its W, NW, N and NE neighbours. */
  function Received(e: seq<real>, w: nat, x: nat, y: nat): real {
    (if x > 0 then Times(e, Above(w, y) + x - 1, 7.0) else 0.0)
    + (if x > 0 && y > 0 then Times(e, Above(w, y - 1) + x - 1, 1.0) else 0.0)
    + (if y > 0 then Times(e, Above(w, y - 1) + x, 5.0) else 0.0)
    + (if x + 1 < w && y > 0 then Times(e, Above(w, y - 1) + x + 1, 3.0) else 0.0)
  }

  /** Sixteen times what cell (x, y) gets of the error d pushed by cell (p, q). */
  function Share(p: nat, q: nat, x: nat, y: nat, d: real): real {
    if y == q && x == p + 1 then d * 7.0
    else if y == q + 1 && x == p - 1 then d * 3.0
    else if y == q + 1 && x == p then d * 5.0
    else if y == q + 1 && x == p + 1 then d * 1.0
    else 0.0
  }

  lemma {:induction false} TimesNext(e: seq<real>, d: real, i: int, k: real)
    ensures Times(e + [d], i, k) == Times(e, i, k) + if i == |e| then d * k else 0.0
  {
  }

  lemma {:induction false} ReceivedNext(e: seq<real>, d: real, w: nat, p: nat, q: nat, x: nat, y: nat)
    requires p < w && x < w && |e| == Above(w, q) + p
    ensures Received(e + [d], w, x, y) == Received(e, w, x, y) + Share(p, q, x, y, d)
  {
    if x > 0 {
      TimesNext(e, d, Above(w, y) + x - 1, 7.0);
      SameCell(w, p, q, x - 1, y);
    }
    if x > 0 && y > 0 {
      TimesNext(e, d, Above(w, y - 1) + x - 1, 1.0);
      SameCell(w, p, q, x - 1, y - 1);
    }
    if y > 0 {
      TimesNext(e, d, Above(w, y - 1) + x, 5.0);
      SameCell(w, p, q, x, y - 1);
    }
    if x + 1 < w && y > 0 {
      TimesNext(e, d, Above(w, y - 1) + x + 1, 3.0);
      SameCell(w, p, q, x + 1, y - 1);
    }
  }

  lemma {:induction false} SpreadAt(work: seq<real>, w: nat, h: nat, p: int, q: int, delta: real, x: nat, y: nat)
    requires |work| == Above(w, h) && x < w && y < h
    ensures Above(w, y) + x < |work|
    ensures Spread(work, w, h, p, q, delta)[Above(w, y) + x] == work[Above(w, y) + x] + if x == p && y == q then delta else 0.0
  {
    AboveGrows(w, y, h);
    if 0 <= p < w && 0 <= q < h { SameCell(w, x, y, p, q); }
  }

  /** A push adds to cell (x, y) exactly its share of the error. */
  lemma {:induction false} PushAt(work: seq<real>, w: nat, h: nat, p: nat, q: nat, e: real, x: nat, y: nat)
    requires |work| == Above(w, h) && x < w && y < h
    ensures Above(w, y) + x < |work|
    ensures Push(work, w, h, p, q, e)[Above(w, y) + x] == work[Above(w, y) + x] + Share(p, q, x, y, e) / 16.0
  {
    var a := Spread(work, w, h, p + 1, q, e * 7.0 / 16.0);
    var b := Spread(a, w, h, p - 1, q + 1, e * 3.0 / 16.0);
    var c := Spread(b, w, h, p, q + 1, e * 5.0 / 16.0);
    SpreadAt(work, w, h, p + 1, q, e * 7.0 / 16.0, x, y);
    SpreadAt(a, w, h, p - 1, q + 1, e * 3.0 / 16.0, x, y);
    SpreadAt(b, w, h, p, q + 1, e * 5.0 / 16.0, x, y);
    SpreadAt(c, w, h, p + 1, q + 1, e * 1.0 / 16.0, x, y);
  }

  /** Cell (x, y) holds its grey plus 7, 1, 5 and 3 sixteenths of its visited neighbours' errors. */
  ghost predicate Pulled(gray: seq<real>, c: Canvas, w: nat, t: real, x: nat, y: nat) {
    && Above(w, y) + x < |gray| == |c.work|
    && c.work[Above(w, y) + x] == gray[Above(w, y) + x] + Received(Errors(c.values, t), w, x, y) / 16.0
  }

  lemma {:induction false} PulledVisit(gray: seq<real>, c: Canvas, w: nat, h: nat, t: real, p: nat, q: nat, x: nat, y: nat)
    requires |c.work| == Above(w, h) && p < w && q < h && x < w && y < h && |c.values| == Above(w, q) + p
    requires Pulled(gray, c, w, t, x, y)
    ensures Pulled(gray, Visit(c, w, h, t, p, q), w, t, x, y)
  {
    AboveGrows(w, q, h);
    var v := c.work[Above(w, q) + p];
    PushAt(c.work, w, h, p, q, Residue(v, t), x, y);
    ReceivedNext(Errors(c.values, t), Residue(v, t), w, p, q, x, y);
    ErrorsPush(c.values, v, t);
  }

  ghost predicate AllPulled(gray: seq<real>, c: Canvas, w: nat, h: nat, t: real) {
    forall x: nat, y: nat | x < w && y < h :: Pulled(gray, c, w, t, x, y)
  }

  lemma {:induction false} AllPulledVisit(gray: seq<real>, c: Canvas, w: nat, h: nat, t: real, p: nat, q: nat)
    requires |c.work| == Above(w, h) && p < w && q < h && |c.values| == Above(w, q) + p && AllPulled(gray, c, w, h, t)
    ensures AllPulled(gray, Visit(c, w, h, t, p, q), w, h, t)
  {
    forall x: nat, y: nat | x < w && y < h ensures Pulled(gray, Visit(c, w, h, t, p, q), w, t, x, y) {
      PulledVisit(gray, c, w, h, t, p, q, x, y);
    }
  }

  lemma {:induction false} AllPulledStart(gray: seq<real>, w: nat, h: nat, t: real)
    requires |gray| == Above(w, h)
    ensures AllPulled(gray, Canvas(gray, []), w, h, t)
  {
    forall x: nat, y: nat | x < w && y < h ensures Pulled(gray, Canvas(gray, []), w, t, x, y) {
      AboveGrows(w, y, h);
    }
  }

  /** Pushing errors forward in place computes the pull form, at every step. */
  lemma {:induction false} PullForm(gray: seq<real>, w: nat, h: nat, t: real, q: nat, p: nat)
    requires |gray| == Above(w, h) && p <= w && (q < h || (q == h && p == 0))
    ensures AllPulled(gray, Reached(gray, w, h, t, q, p), w, h, t)
    decreases q, p
  {
    if p > 0 {
      PullForm(gray, w, h, t, q, p - 1);
      AllPulledVisit(gray, Reached(gray, w, h, t, q, p - 1), w, h, t, p - 1, q);
    } else if q > 0 {
      PullForm(gray, w, h, t, q - 1, w);
    } else {
      AllPulledStart(gray, w, h, t);
    }
  }

  /** Once visited, cell (x, y) keeps the value it was visited with. */
  ghost predicate SettledAt(c: Canvas, w: nat, x: nat, y: nat) {
    var k := Above(w, y) + x;
    k < |c.values| ==> k < |c.work| && c.values[k] == c.work[k]
  }

  ghost predicate Settled(c: Canvas, w: nat, h: nat) {
    forall x: nat, y: nat | x < w && y < h :: SettledAt(c, w, x, y)
  }

  /** The error of cell (p, q) goes to later cells only. */
  lemma {:induction false} SharesForward(w: nat, p: nat, q: nat, x: nat, y: nat, e: real)
    requires p < w && x < w && Above(w, y) + x <= Above(w, q) + p
    ensures Share(p, q, x, y, e) == 0.0
  {
    if q < y { AboveGrows(w, q, y); }
  }

  lemma {:induction false} SettledVisit(c: Canvas, w: nat, h: nat, t: real, p: nat, q: nat)
    requires |c.work| == Above(w, h) && p < w && q < h && |c.values| == Above(w, q) + p && Settled(c, w, h)
    ensures Settled(Visit(c, w, h, t, p, q), w, h)
  {
    AboveGrows(w, q, h);
    var v := c.work[Above(w, q) + p];
    var after := Visit(c, w, h, t, p, q);
    forall x: nat, y: nat | x < w && y < h ensures SettledAt(after, w, x, y) {
      if Above(w, y) + x < |after.values| {
        PushAt(c.work, w, h, p, q, Residue(v, t), x, y);
        SharesForward(w, p, q, x, y, Residue(v, t));
        assert SettledAt(c, w, x, y);
      }
    }
  }

  lemma {:induction false} ReachedSettled(gray: seq<real>, w: nat, h: nat, t: real, q: nat, p: nat)
    requires |gray| == Above(w, h) && p <= w && (q < h || (q == h && p == 0))
    ensures Settled(Reached(gray, w, h, t, q, p), w, h)
    decreases q, p
  {
    if p > 0 {
      ReachedSettled(gray, w, h, t, q, p - 1);
      SettledVisit(Reached(gray, w, h, t, q, p - 1), w, h, t, p - 1, q);
    } else if q > 0 {
      ReachedSettled(gray, w, h, t, q - 1, w);
    }
  }

  /**
   * The finished image, cell by cell: a dot is black exactly when the cell's
   * grey and a sixteenth of what it received are below the threshold, and its
   * error is what printing it so leaves over.
   */
  lemma {:induction false} PrintedCell(gray: seq<real>, w: nat, h: nat, t: real, x: nat, y: nat)
    requires |gray| == Above(w, h) && x < w && y < h
    ensures var k, values := Above(w, y) + x, Values(gray, w, h, t);
      && k < |gray|
      && var v := gray[k] + Received(Errors(values, t), w, x, y) / 16.0;
         (Dots(values, t)[k] <==> v < t) && Errors(values, t)[k] == v - if Dots(values, t)[k] then 0.0 else 255.0
  {
    AboveGrows(w, y, h);
    PullForm(gray, w, h, t, h, 0);
    ReachedSettled(gray, w, h, t, h, 0);
    assert Pulled(gray, Reached(gray, w, h, t, h, 0), w, t, x, y);
    assert SettledAt(Reached(gray, w, h, t, h, 0), w, x, y);
  }

  // --------------------------------------------------------------------- bounds

  ghost predicate Grey(gray: seq<real>) {
    forall i | 0 <= i < |gray| :: 0.0 <= gray[i] <= WHITE
  }

  ghost predicate Within(e: seq<real>, t: real) {
    forall i | 0 <= i < |e| :: t - WHITE <= e[i] <= t
  }

  /** Sixteen times the largest share of its neighbours' errors that a cell can collect where rows have w cells. */
  function MostCollected(w: nat): (k: real)
    ensures 5.0 <= k <= 16.0
  {
    if w <= 1 then 5.0 else if w == 2 then 13.0 else 16.0
  }

  lemma {:induction false} TimesWithin(e: seq<real>, i: int, k: real, t: real)
    requires Within(e, t) && 0.0 <= t <= WHITE && k >= 0.0
    ensures k * (t - WHITE) <= Times(e, i, k) <= k * t
  {
    if 0 <= i < |e| {
      NonNegative(e[i] - (t - WHITE), k);
      NonNegative(t - e[i], k);
    } else {
      NonNegative(WHITE - t, k);
      NonNegative(t, k);
    }
  }

  lemma {:induction false} NonNegative(d: real, k: real)
    requires d >= 0.0 && k >= 0.0
    ensures d * k >= 0.0
  {
  }

  lemma {:induction false} ReceivedWithin(e: seq<real>, t: real, w: nat, x: nat, y: nat)
    requires Within(e, t) && 0.0 <= t <= WHITE && x < w
    ensures MostCollected(w) * (t - WHITE) <= Received(e, w, x, y) <= 16.0 * t
  {
    TimesWithin(e, Above(w, y) + x - 1, 7.0, t);
    if y > 0 {
      TimesWithin(e, Above(w, y - 1) + x - 1, 1.0, t);
      TimesWithin(e, Above(w, y - 1) + x, 5.0, t);
      TimesWithin(e, Above(w, y - 1) + x + 1, 3.0, t);
    }
  }

  /** Lowest and highest grey; lifting by a scale above one makes greys below zero. */
  ghost predicate AtLeast(gray: seq<real>, floor: real) {
    forall i | 0 <= i < |gray| :: floor <= gray[i] <= WHITE
  }

  /** No grey is so far below zero that a cell could be pushed out of range. */
  ghost predicate HighEnough(floor: real, w: nat, t: real) {
    16.0 * floor + MostCollected(w) * (t - WHITE) >= 16.0 * (t - WHITE)
  }

  /** Every value visited lies in [t-255, t+255]. */
  ghost predicate InRange(values: seq<real>, t: real) {
    forall i | 0 <= i < |values| :: t - WHITE <= values[i] <= t + WHITE
  }

  lemma {:induction false} InRangeWithin(values: seq<real>, t: real)
    requires InRange(values, t) && 0.0 <= t <= WHITE
    ensures Within(Errors(values, t), t)
  {
  }

  /** In the pull form, and all values in range so far. */
  ghost predicate Bounded(gray: seq<real>, c: Canvas, w: nat, h: nat, t: real) {
    AllPulled(gray, c, w, h, t) && InRange(c.values, t)
  }

  lemma {:induction false} BoundedVisit(gray: seq<real>, floor: real, c: Canvas, w: nat, h: nat, t: real, x: nat, y: nat)
    requires |c.work| == Above(w, h) && x < w && y < h && |c.values| == Above(w, y) + x
    requires AtLeast(gray, floor) && HighEnough(floor, w, t) && 0.0 <= t <= WHITE && Bounded(gray, c, w, h, t)
    ensures Bounded(gray, Visit(c, w, h, t, x, y), w, h, t)
  {
    AllPulledVisit(gray, c, w, h, t, x, y);
    assert Pulled(gray, c, w, t, x, y);
    InRangeWithin(c.values, t);
    ReceivedWithin(Errors(c.values, t), t, w, x, y);
  }

  lemma {:induction false} ReachedBounded(gray: seq<real>, floor: real, w: nat, h: nat, t: real, y: nat, x: nat)
    requires |gray| == Above(w, h) && x <= w && (y < h || (y == h && x == 0))
    requires AtLeast(gray, floor) && HighEnough(floor, w, t) && 0.0 <= t <= WHITE
    ensures Bounded(gray, Reached(gray, w, h, t, y, x), w, h, t)
    decreases y, x
  {
    if x > 0 {
      ReachedBounded(gray, floor, w, h, t, y, x - 1);
      BoundedVisit(gray, floor, Reached(gray, w, h, t, y, x - 1), w, h, t, x - 1, y);
    } else if y > 0 {
      ReachedBounded(gray, floor, w, h, t, y - 1, w);
    } else {
      AllPulledStart(gray, w, h, t);
    }
  }

  /**
   * Every visited cell holds a value in [t-255, t+255], and every error pushed
   * stays in [t-255, t], as long as no grey is too far below black.
   */
  lemma {:induction false} BoundsFrom(gray: seq<real>, floor: real, w: nat, h: nat, t: real)
    requires |gray| == Above(w, h) && AtLeast(gray, floor) && HighEnough(floor, w, t) && 0.0 <= t <= WHITE
    ensures InRange(Values(gray, w, h, t), t)
    ensures Within(Errors(Values(gray, w, h, t), t), t)
  {
    ReachedBounded(gray, floor, w, h, t, h, 0);
    InRangeWithin(Values(gray, w, h, t), t);
  }

  /** In particular for every grey image. */
  lemma {:induction false} DitherBounds(gray: seq<real>, w: nat, h: nat, t: real)
    requires |gray| == Above(w, h) && Grey(gray) && 0.0 <= t <= WHITE
    ensures InRange(Values(gray, w, h, t), t)
    ensures Within(Errors(Values(gray, w, h, t), t), t)
  {
    NonNegative(WHITE - t, 16.0 - MostCollected(w));
    BoundsFrom(gray, 0.0, w, h, t);
  }

  // --------------------------------------------------------------- conservation

  function SumFrom(s: seq<real>, k: nat): real
    requires k <= |s|
    decreases |s| - k
  {
    if k == |s| then 0.0 else s[k] + SumFrom(s, k + 1)
  }

  lemma {:induction false} SumUpdate(s: seq<real>, k: nat, j: nat, v: real)
    requires k <= |s| && j < |s|
    ensures SumFrom(s[j := v], k) == SumFrom(s, k) + if k <= j then v - s[j] else 0.0
    decreases |s| - k
  {
    if k < |s| { SumUpdate(s, k + 1, j, v); }
  }

  function Dropped(w: nat, h: nat, x: int, y: int, delta: real): real {
    if x < 0 || y < 0 || x >= w || y >= h then delta else 0.0
  }

  /** The part of error e that cell (x, y) pushes off the image. */
  function PushedOff(w: nat, h: nat, x: nat, y: nat, e: real): real {
    Dropped(w, h, x + 1, y, e * 7.0 / 16.0) + Dropped(w, h, x - 1, y + 1, e * 3.0 / 16.0)
    + Dropped(w, h, x, y + 1, e * 5.0 / 16.0) + Dropped(w, h, x + 1, y + 1, e * 1.0 / 16.0)
  }

  /** All error pushed off the image by the cells before column x of row y. */
  function Lost(values: seq<real>, w: nat, h: nat, t: real, y: nat, x: nat): real
    requires x <= w && Above(w, y) + x <= |values|
    decreases y, x
  {
    if x > 0 then Lost(values, w, h, t, y, x - 1) + PushedOff(w, h, x - 1, y, Residue(values[Above(w, y) + x - 1], t))
    else if y > 0 then Lost(values, w, h, t, y - 1, w)
    else 0.0
  }

  /** Black where the visited value is below the threshold. */
  function Dots(values: seq<real>, t: real): (r: seq<bool>)
    ensures |r| == |values|
  {
    seq(|values|, i requires 0 <= i < |values| => values[i] < t)
  }

  /** Grey printed: 0 for a black dot, 255 for a white one. */
  function Tone(black: seq<bool>): (r: real)
    ensures r >= 0.0
  {
    if black == [] then 0.0
    else Tone(black[..|black| - 1]) + if black[|black| - 1] then 0.0 else WHITE
  }

  lemma {:induction false} TonePush(values: seq<real>, v: real, t: real)
    ensures Tone(Dots(values + [v], t)) == Tone(Dots(values, t)) + if v < t then 0.0 else WHITE
  {
    assert Dots(values + [v], t) == Dots(values, t) + [v < t];
    assert (Dots(values, t) + [v < t])[..|values|] == Dots(values, t);
  }

  lemma {:induction false} LostPrefix(values: seq<real>, v: real, w: nat, h: nat, t: real, y: nat, x: nat)
    requires x <= w && Above(w, y) + x <= |values|
    ensures Lost(values + [v], w, h, t, y, x) == Lost(values, w, h, t, y, x)
    decreases y, x
  {
    if x > 0 {
      LostPrefix(values, v, w, h, t, y, x - 1);
    } else if y > 0 {
      LostPrefix(values, v, w, h, t, y - 1, w);
    }
  }

  lemma {:induction false} SpreadSum(work: seq<real>, w: nat, h: nat, x: int, y: int, delta: real, k: nat)
    requires |work| == Above(w, h) && k <= |work|
    requires 0 <= x < w && 0 <= y < h ==> k <= Above(w, y) + x
    ensures SumFrom(Spread(work, w, h, x, y, delta), k) == SumFrom(work, k) + delta - Dropped(w, h, x, y, delta)
  {
    if 0 <= x < w && 0 <= y < h {
      AboveGrows(w, y, h);
      SumUpdate(work, k, Above(w, y) + x, work[Above(w, y) + x] + delta);
    }
  }

  lemma {:induction false} PushSum(work: seq<real>, w: nat, h: nat, x: nat, y: nat, e: real)
    requires |work| == Above(w, h) && x < w && y < h
    ensures Above(w, y) + x < |work|
    ensures var k := Above(w, y) + x + 1; SumFrom(work, k) + e == SumFrom(Push(work, w, h, x, y, e), k) + PushedOff(w, h, x, y, e)
  {
    AboveGrows(w, y, h);
    var k := Above(w, y) + x + 1;
    var a := Spread(work, w, h, x + 1, y, e * 7.0 / 16.0);
    var b := Spread(a, w, h, x - 1, y + 1, e * 3.0 / 16.0);
    var c := Spread(b, w, h, x, y + 1, e * 5.0 / 16.0);
    SpreadSum(work, w, h, x + 1, y, e * 7.0 / 16.0, k);
    SpreadSum(a, w, h, x - 1, y + 1, e * 3.0 / 16.0, k);
    SpreadSum(b, w, h, x, y + 1, e * 5.0 / 16.0, k);
    SpreadSum(c, w, h, x + 1, y + 1, e * 1.0 / 16.0, k);
  }

  /** When the loops reach column x of row y: what is printed, still owed, and lost adds up. */
  ghost predicate Balanced(gray: seq<real>, c: Canvas, w: nat, h: nat, t: real, y: nat, x: nat) {
    && x <= w && Above(w, y) + x == |c.values| <= |c.work|
    && SumFrom(gray, 0) == Tone(Dots(c.values, t)) + SumFrom(c.work, |c.values|) + Lost(c.values, w, h, t, y, x)
  }

  lemma {:induction false} BalancedVisit(gray: seq<real>, c: Canvas, w: nat, h: nat, t: real, y: nat, x: nat)
    requires |c.work| == Above(w, h) && x < w && y < h && Balanced(gray, c, w, h, t, y, x)
    ensures Balanced(gray, Visit(c, w, h, t, x, y), w, h, t, y, x + 1)
  {
    AboveGrows(w, y, h);
    var v := c.work[Above(w, y) + x];
    PushSum(c.work, w, h, x, y, Residue(v, t));
    TonePush(c.values, v, t);
    LostPrefix(c.values, v, w, h, t, y, x);
  }

  lemma {:induction false} Conserved(gray: seq<real>, w: nat, h: nat, t: real, y: nat, x: nat)
    requires |gray| == Above(w, h) && x <= w && (y < h || (y == h && x == 0))
    ensures Balanced(gray, Reached(gray, w, h, t, y, x), w, h, t, y, x)
    decreases y, x
  {
    if x > 0 {
      Conserved(gray, w, h, t, y, x - 1);
      BalancedVisit(gray, Reached(gray, w, h, t, y, x - 1), w, h, t, y, x - 1);
    } else if y > 0 {
      Conserved(gray, w, h, t, y - 1, w);
    }
  }

  /** Grey is conserved: all of it is printed or pushed off the borders. */
  lemma {:induction false} GreyIsConserved(gray: seq<real>, w: nat, h: nat, t: real)
    requires |gray| == Above(w, h)
    ensures var values := Values(gray, w, h, t);
      SumFrom(gray, 0) == Tone(Dots(values, t)) + Lost(values, w, h, t, h, 0)
  {
    Conserved(gray, w, h, t, h, 0);
  }

  // --------------------------------------------------------------------- borders

  /** Sixteenths of its error a cell can lose: 8 right, 3 left, 9 below. */
  function Edge(w: nat, h: nat, x: nat, y: nat): nat {
    (if x == w - 1 then 8 else 0) + (if x == 0 then 3 else 0) + (if y == h - 1 then 9 else 0)
  }

  function EdgeSum(w: nat, h: nat, y: nat, x: nat): nat
    decreases y, x
  {
    if x > 0 then EdgeSum(w, h, y, x - 1) + Edge(w, h, x - 1, y)
    else if y > 0 then EdgeSum(w, h, y - 1, w)
    else 0
  }

  lemma {:induction false} EdgeTotal(w: nat, h: nat, y: nat, x: nat)
    requires w > 0 && x <= w && (y < h || (y == h && x == 0))
    ensures EdgeSum(w, h, y, x) == 11 * y
      + (if x > 0 then 3 else 0) + (if x == w then 8 else 0) + (if y == h - 1 then 9 * x else 0) + (if y == h > 0 then 9 * w else 0)
    decreases y, x
  {
    if x > 0 {
      EdgeTotal(w, h, y, x - 1);
    } else if y > 0 {
      EdgeTotal(w, h, y - 1, w);
    }
  }

  /** Between `edges` sixteenths of the least and of the greatest error. */
  ghost predicate Loss(lost: real, t: real, edges: nat) {
    (t - WHITE) * edges as real <= 16.0 * lost <= t * edges as real
  }

  lemma {:induction false} LossAdds(p: real, q: real, t: real, m: nat, n: nat)
    requires Loss(p, t, m) && Loss(q, t, n)
    ensures Loss(p + q, t, m + n)
  {
    assert (m + n) as real == m as real + n as real;
  }

  lemma {:induction false} TimesGrows(a: real, b: real, c: real)
    requires a <= b && 0.0 <= c
    ensures a * c <= b * c && c * a <= c * b
  {
    var d := b - a;
    assert 0.0 <= d * c;
    assert b == a + d && b * c == a * c + d * c;
    assert a * c == c * a && b * c == c * b;
  }

  lemma {:induction false} TimesShrinks(v: real, a: real, b: real)
    requires v <= 0.0 && a <= b
    ensures v * b <= v * a
  {
    var u := -v;
    TimesGrows(a, b, u);
    assert v * a == -(u * a) && v * b == -(u * b);
  }

  /** k sixteenths of an error between v and t. */
  lemma {:induction false} Between(e: real, t: real, v: real, kr: real, er: real)
    requires v <= e <= t && v <= 0.0 <= t && 0.0 <= kr <= er
    ensures v * er <= e * kr <= t * er
  {
    TimesGrows(e, t, kr);
    TimesGrows(kr, er, t);
    TimesGrows(v, e, kr);
    TimesShrinks(v, kr, er);
  }

  /** How many sixteenths go off the image. */
  function Sixteenths(off: bool, k: nat): nat {
    if off then k else 0
  }

  /** The sixteenths of its error that cell (x, y) pushes off the image. */
  function OffImage(w: nat, h: nat, x: nat, y: nat): nat {
    var right, left, low := x + 1 >= w, x == 0, y + 1 >= h;
    Sixteenths(right, 7) + Sixteenths(left || low, 3) + Sixteenths(low, 5) + Sixteenths(right || low, 1)
  }

  lemma {:induction false} DroppedIs(w: nat, h: nat, x: int, y: int, e: real, k: nat, kr: real)
    requires kr == k as real
    ensures 16.0 * Dropped(w, h, x, y, e * kr / 16.0) == e * Sixteenths(x < 0 || y < 0 || x >= w || y >= h, k) as real
  {
  }

  lemma {:induction false} PushedOffIs(w: nat, h: nat, x: nat, y: nat, e: real)
    requires x < w && y < h
    ensures 16.0 * PushedOff(w, h, x, y, e) == e * OffImage(w, h, x, y) as real
  {
    DroppedIs(w, h, x + 1, y, e, 7, 7.0);
    DroppedIs(w, h, x - 1, y + 1, e, 3, 3.0);
    DroppedIs(w, h, x, y + 1, e, 5, 5.0);
    DroppedIs(w, h, x + 1, y + 1, e, 1, 1.0);
  }

  lemma {:induction false} PushedOffWithin(w: nat, h: nat, x: nat, y: nat, e: real, t: real)
    requires x < w && y < h && 0.0 <= t <= WHITE && t - WHITE <= e <= t
    ensures Loss(PushedOff(w, h, x, y, e), t, Edge(w, h, x, y))
  {
    PushedOffIs(w, h, x, y, e);
    assert OffImage(w, h, x, y) <= Edge(w, h, x, y);
    Between(e, t, t - WHITE, OffImage(w, h, x, y) as real, Edge(w, h, x, y) as real);
  }

  lemma {:induction false} LostWithin(values: seq<real>, w: nat, h: nat, t: real, y: nat, x: nat)
    requires x <= w && Above(w, y) + x <= |values| && (y < h || (y == h && x == 0))
    requires 0.0 <= t <= WHITE && Within(Errors(values, t), t)
    ensures Loss(Lost(values, w, h, t, y, x), t, EdgeSum(w, h, y, x))
    decreases y, x
  {
    if x > 0 {
      LostWithin(values, w, h, t, y, x - 1);
      var i := Above(w, y) + x - 1;
      var d := Residue(values[i], t);
      assert Errors(values, t)[i] == d;
      PushedOffWithin(w, h, x - 1, y, d, t);
      LossAdds(Lost(values, w, h, t, y, x - 1), PushedOff(w, h, x - 1, y, d), t, EdgeSum(w, h, y, x - 1), Edge(w, h, x - 1, y));
    } else if y > 0 {
      LostWithin(values, w, h, t, y - 1, w);
    }
  }

  /**
   * The dithered image keeps the tone of the original up to what its border
   * can lose: at most (11h + 9w)/16 extreme errors in either direction.
   */
  lemma {:induction false} ToneIsKept(gray: seq<real>, w: nat, h: nat, t: real)
    requires |gray| == Above(w, h) && w > 0 && h > 0 && Grey(gray) && 0.0 <= t <= WHITE
    ensures Loss(SumFrom(gray, 0) - Tone(Dots(Values(gray, w, h, t), t)), t, 11 * h + 9 * w)
  {
    var values := Values(gray, w, h, t);
    DitherBounds(gray, w, h, t);
    LostWithin(values, w, h, t, h, 0);
    GreyIsConserved(gray, w, h, t);
    EdgeTotal(w, h, h, 0);
    assert SumFrom(gray, 0) - Tone(Dots(values, t)) == Lost(values, w, h, t, h, 0);
  }
}
