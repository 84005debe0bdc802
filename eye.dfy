/**
 * The per-eye classifier `blinked` (dd.py): an eye-openness ratio computed from
 * landmark distances, mapped onto three states by two fixed thresholds.
 *
 * The Euclidean distances themselves come from a floating-point norm and are
 * not modelled; `up` is the sum of the two vertical lid distances and `down`
 * the horizontal corner-to-corner distance, both non-negative reals.
 */
module Eye {

  /** EAR_THRESH_OPEN: above this ratio the eye is open. */
  const EarThreshOpen: real := 0.25
  /** EAR_THRESH_DROWSY: above this ratio (and at most the open one) the eye is half open. */
  const EarThreshDrowsy: real := 0.21

  /** The result of `blinked`: the source returns 2 for Open, 1 for Half, 0 for Closed. */
  datatype EyeState = Closed | Half | Open

  /** The source's integer code for an eye state. */
  function Code(e: EyeState): nat
  {
    match e
    case Closed => 0
    case Half => 1
    case Open => 2
  }

  /**
   * The value of `up / (2.0 * down)` as the float64 division of the source
   * yields it: a finite ratio when the eye has width, +infinity when a zero
   * width meets a positive height, and NaN when both are zero.
   */
  datatype Openness = Ratio(value: real) | PosInfinity | NotANumber

  function EyeAspectRatio(up: real, down: real): (o: Openness)
    requires 0.0 <= up && 0.0 <= down
    ensures o.Ratio? <==> down > 0.0
    ensures o.Ratio? ==> 0.0 <= o.value && o.value * (2.0 * down) == up
    ensures o == PosInfinity <==> down == 0.0 && up > 0.0
    ensures o == NotANumber <==> down == 0.0 && up == 0.0
  {
    if down > 0.0 then Ratio(up / (2.0 * down))
    else if up > 0.0 then PosInfinity
    else NotANumber
  }

  /**
   * The threshold cascade of `blinked`. Every comparison with NaN is false,
   * so NaN falls through to Closed.
   */
  function Classify(o: Openness): (e: EyeState)
    ensures o.Ratio? ==> (e == Open <==> o.value > EarThreshOpen)
    ensures o.Ratio? ==> (e == Half <==> EarThreshDrowsy < o.value <= EarThreshOpen)
    ensures o.Ratio? ==> (e == Closed <==> o.value <= EarThreshDrowsy)
    ensures o == PosInfinity ==> e == Open
    ensures o == NotANumber ==> e == Closed
  {
    match o
    case Ratio(r) =>
      if r > EarThreshOpen then Open
      else if r > EarThreshDrowsy then Half
      else Closed
    case PosInfinity => Open
    case NotANumber => Closed
  }

  /**
   * `blinked`: classify one eye from its lid height and corner width.
   * The contract restates the thresholds without division, which also covers
   * the zero-width case: a positive height is Open, a zero height Closed.
   */
  function Blinked(up: real, down: real): (e: EyeState)
    requires 0.0 <= up && 0.0 <= down
    ensures e == Open <==> up > 2.0 * EarThreshOpen * down
    ensures e == Half <==> 2.0 * EarThreshDrowsy * down < up <= 2.0 * EarThreshOpen * down
    ensures e == Closed <==> up <= 2.0 * EarThreshDrowsy * down
    ensures Code(e) <= 2
  {
    var o := EyeAspectRatio(up, down);
    if down > 0.0 then
      RatioAbove(up, down, EarThreshOpen);
      RatioAbove(up, down, EarThreshDrowsy);
      Classify(o)
    else
      Classify(o)
  }

  /** `up / (2 down)` exceeds a threshold exactly when `up` exceeds `2 t down`. */
  lemma RatioAbove(up: real, down: real, t: real)
    requires down > 0.0
    ensures up / (2.0 * down) > t <==> up > 2.0 * t * down
  {
    var q := up / (2.0 * down);
    assert q * (2.0 * down) == up;
    if q > t {
      assert q * (2.0 * down) > t * (2.0 * down);
    } else {
      assert q * (2.0 * down) <= t * (2.0 * down);
    }
  }

  /** The classification depends only on the shape of the eye, not its size in the image. */
  lemma BlinkedScaleInvariant(up: real, down: real, k: real)
    requires 0.0 <= up && 0.0 <= down && k > 0.0
    ensures Blinked(k * up, k * down) == Blinked(up, down)
  {
    var a, b := 2.0 * EarThreshOpen, 2.0 * EarThreshDrowsy;
    assert k * up > a * (k * down) <==> up > a * down by {
      assert a * (k * down) == k * (a * down);
      ScaleCompare(up, a * down, k);
    }
    assert k * up <= b * (k * down) <==> up <= b * down by {
      assert b * (k * down) == k * (b * down);
      ScaleCompare(up, b * down, k);
    }
  }

  lemma ScaleCompare(x: real, y: real, k: real)
    requires k > 0.0
    ensures k * x > k * y <==> x > y
  {
    if x > y {
      assert k * x - k * y == k * (x - y);
    } else {
      assert k * y - k * x == k * (y - x);
    }
  }

  /** A wider-open lid never yields a more closed state. */
  lemma BlinkedMonotone(up1: real, up2: real, down: real)
    requires 0.0 <= up1 <= up2 && 0.0 <= down
    ensures Code(Blinked(up1, down)) <= Code(Blinked(up2, down))
  {
  }
}
