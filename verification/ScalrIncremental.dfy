/** Incremental image scaling: how far the two dimensions get, and which images are released. */
module ScalrIncremental {
  import opened Arithmetic

  datatype Method = SPEED | BALANCED | QUALITY | ULTRA_QUALITY

  /** The divisor of the portion taken off in each round. */
  function Fraction(scalingMethod: Method): (f: nat)
    ensures f == 7 || f == 2
  {
    if scalingMethod == ULTRA_QUALITY then 7 else 2
  }

  // ---------- one dimension ----------

  /** One round for one dimension, clamped at the target. */
  function Step(current: nat, target: int, f: nat): (r: nat)
    requires f == 2 || f == 7
    ensures r <= current
  {
    if current <= target then current
    else
      PortionFits(current, f);
      var next := current - current / f;
      if next < target then target else next
  }

  lemma {:induction false} PortionFits(x: nat, f: nat)
    requires f == 2 || f == 7
    ensures 0 <= x / f <= x
  {
    if f == 2 {
      assert x / 2 <= x;
    } else {
      assert x / 7 <= x;
    }
  }

  function Steps(current: nat, target: int, f: nat, k: nat): nat
    requires f == 2 || f == 7
  {
    if k == 0 then current else Step(Steps(current, target, f, k - 1), target, f)
  }

  /** Where a dimension comes to rest: portions smaller than one are never taken off. */
  function Limit(source: nat, target: int, f: nat): int
    requires f == 2 || f == 7
  {
    if source <= target then source else Max(target, Min(source, f - 1))
  }

  /** A round keeps (f - 1)/f of a dimension, rounded up, but never goes below the target. */
  lemma {:induction false} RoundKeepsFraction(current: nat, target: int, f: nat)
    requires f == 2 || f == 7
    requires current > target
    ensures Step(current, target, f) == Max(target, CeilDiv((f - 1) * current, f))
  {
    if f == 2 {
      assert current - current / 2 == (current + 1) / 2;
    } else {
      var q := current / 7;
      assert current == 7 * q + current % 7;
      assert 6 * current + 6 == 7 * (current - q) + (6 - current % 7);
      assert (6 * current + 6) / 7 == current - q;
    }
  }

  /** A dimension that is not above the target is left alone. */
  lemma {:induction false} SmallIsKept(current: nat, target: int, f: nat)
    requires f == 2 || f == 7
    ensures current <= target ==> Step(current, target, f) == current
  {
  }

  /** A dimension rests exactly at its limit, and every round keeps the limit. */
  lemma {:induction false} StepTowardsLimit(current: nat, target: int, f: nat)
    requires f == 2 || f == 7
    ensures Step(current, target, f) == current <==> current == Limit(current, target, f)
    ensures Limit(Step(current, target, f), target, f) == Limit(current, target, f)
  {
    if f == 2 {
      StepByHalf(current, target);
    } else {
      StepBySeventh(current, target);
    }
  }

  lemma {:induction false} StepByHalf(current: nat, target: int)
    ensures Step(current, target, 2) == current <==> current == Limit(current, target, 2)
    ensures Limit(Step(current, target, 2), target, 2) == Limit(current, target, 2)
  {
    var portion := current / 2;
    assert 2 * portion <= current < 2 * portion + 2;
  }

  lemma {:induction false} StepBySeventh(current: nat, target: int)
    ensures Step(current, target, 7) == current <==> current == Limit(current, target, 7)
    ensures Limit(Step(current, target, 7), target, 7) == Limit(current, target, 7)
  {
    var portion := current / 7;
    assert 7 * portion <= current < 7 * portion + 7;
  }

  /** The wanted size is met exactly unless it is smaller than both the source and f - 1. */
  lemma {:induction false} TargetMetExactly(source: nat, target: int, f: nat)
    requires f == 2 || f == 7
    requires target <= source
    ensures Limit(source, target, f) == target <==> target == source || target >= f - 1
  {
  }

  lemma {:induction false} LimitKept(source: nat, target: int, f: nat, k: nat)
    requires f == 2 || f == 7
    ensures Limit(Steps(source, target, f, k), target, f) == Limit(source, target, f)
  {
    hide Step, Limit;
    if k > 0 {
      LimitKept(source, target, f, k - 1);
      StepTowardsLimit(Steps(source, target, f, k - 1), target, f);
    }
  }

  /** Every round short of the limit takes something off, so the limit is reached within source rounds. */
  lemma {:induction false} LimitReached(source: nat, target: int, f: nat, k: nat)
    requires f == 2 || f == 7
    ensures Steps(source, target, f, k) == Limit(source, target, f) || Steps(source, target, f, k) + k <= source
  {
    hide Limit;
    if k > 0 {
      LimitReached(source, target, f, k - 1);
      LimitKept(source, target, f, k - 1);
      StepTowardsLimit(Steps(source, target, f, k - 1), target, f);
    }
  }

  // ---------- halving ----------

  function CeilDiv(x: nat, y: nat): nat
    requires y > 0
  {
    (x + y - 1) / y
  }

  /** Rounding up is the least multiple that covers. */
  lemma {:induction false} CeilDivBounds(x: nat, y: nat)
    requires y > 0
    ensures y * CeilDiv(x, y) < x + y
    ensures x <= y * CeilDiv(x, y)
  {
  }

  lemma {:induction false} CeilDivUnique(x: nat, y: nat, c: nat)
    requires y > 0
    requires x <= y * c < x + y
    ensures CeilDiv(x, y) == c
  {
    CeilDivBounds(x, y);
    var d := CeilDiv(x, y);
    MulStep(y, c, d);
    MulStep(y, d, c);
  }

  lemma {:induction false} MulStep(y: nat, a: nat, b: nat)
    ensures a < b ==> y * a + y <= y * b
  {
    if a < b {
      var d: nat := b - a - 1;
      assert y * b == y * (a + 1 + d) == y * a + y + y * d;
      Product(y, d);
    }
  }

  lemma {:induction false} Product(y: nat, d: nat)
    ensures 0 <= y * d
  {
  }

  /** Halving and rounding up twice is dividing by four and rounding up, and so on. */
  lemma {:induction false} CeilHalf(x: nat, p: nat)
    requires p > 0
    ensures CeilDiv(CeilDiv(x, p), 2) == CeilDiv(x, 2 * p)
  {
    var q := CeilDiv(x, p);
    CeilDivBounds(x, p);
    CoverHalf(x, p, q);
    CeilDivUnique(x, 2 * p, CeilDiv(q, 2));
  }

  lemma {:induction false} CoverHalf(x: nat, p: nat, q: nat)
    requires p > 0 && x <= p * q < x + p
    ensures x <= (2 * p) * CeilDiv(q, 2) < x + 2 * p
  {
    var h := CeilDiv(q, 2);
    assert 2 * h == q || 2 * h == q + 1;
    assert (2 * p) * h == p * (2 * h);
    assert p * (q + 1) == p * q + p;
  }

  /**
   * With fraction 2 a dimension after k rounds is the source divided by 2^k, rounded up, or the
   * target, whichever is larger.
   */
  lemma {:induction false} HalvingClosedForm(source: nat, target: int, k: nat)
    requires 1 <= source && target <= source
    ensures Steps(source, target, 2, k) == Max(target, CeilDiv(source, Pow2(k)))
  {
    if k == 0 {
      assert CeilDiv(source, 1) == source;
    } else {
      HalvingClosedForm(source, target, k - 1);
      var p := Pow2(k - 1);
      CeilHalf(source, p);
      StepHalves(target, CeilDiv(source, p));
    }
  }

  lemma {:induction false} StepHalves(target: int, c: nat)
    requires Max(target, c) >= 0
    ensures Step(Max(target, c), target, 2) == Max(target, CeilDiv(c, 2))
  {
    assert c - c / 2 == (c + 1) / 2 <= c;
  }

  // ---------- the loop ----------

  /** An image handle: its size, and how often it has been flushed. */
  class Image {
    const width: nat
    const height: nat
    var flushes: nat

    constructor (width: nat, height: nat)
      ensures this.width == width && this.height == height && flushes == 0
    {
      this.width, this.height, flushes := width, height, 0;
    }

    method Flush()
      modifies this
      ensures flushes == old(flushes) + 1
    {
      flushes := flushes + 1;
    }
  }

  method ScaleImage(src: Image, targetWidth: nat, targetHeight: nat) returns (result: Image)
    ensures fresh(result) && result.width == targetWidth && result.height == targetHeight && result.flushes == 0
  {
    result := new Image(targetWidth, targetHeight);
  }

  /** Interim images are flushed once each, except the newest. */
  ghost predicate OnlyLastOpen(interim: seq<Image>)
    reads interim
  {
    && (forall j, k | 0 <= j < k < |interim| :: interim[j] != interim[k])
    && (forall k | 0 <= k < |interim| :: interim[k].flushes == if k < |interim| - 1 then 1 else 0)
  }

  /** The interim images have the sizes of the rounds. */
  ghost predicate SizesOfRounds(interim: seq<Image>, src: Image, targetWidth: int, targetHeight: int, f: nat)
    requires f == 2 || f == 7
  {
    forall k | 0 <= k < |interim| ::
      && interim[k].width == Steps(src.width, targetWidth, f, k + 1)
      && interim[k].height == Steps(src.height, targetHeight, f, k + 1)
  }

  /**
   * Scales an image down in rounds. The result has the limit of each dimension; it is the caller's
   * image only if nothing had to be done. Every interim image but the result has been flushed once,
   * neither the result nor the caller's image ever, and the sizes of the interim images are those
   * of the rounds.
   */
  method ScaleImageIncrementally(src: Image, targetWidth: int, targetHeight: int, scalingMethod: Method)
    returns (result: Image, ghost interim: seq<Image>)
    ensures var fraction := if scalingMethod == ULTRA_QUALITY then 7 else 2;
            && result.width == Limit(src.width, targetWidth, fraction)
            && result.height == Limit(src.height, targetHeight, fraction)
            && SizesOfRounds(interim, src, targetWidth, targetHeight, fraction)
    ensures result == if interim == [] then src else interim[|interim| - 1]
    ensures forall k | 0 <= k < |interim| :: fresh(interim[k])
    ensures OnlyLastOpen(interim)
  {
    hide Limit, Step, Steps, SizesOfRounds;
    var current := src;
    var hasReassignedSrc := false;
    var currentWidth, currentHeight := src.width, src.height;
    var fraction := Fraction(scalingMethod);
    interim := [];
    NoRounds(src, targetWidth, targetHeight, fraction);
    while true
      invariant currentWidth == Steps(src.width, targetWidth, fraction, |interim|)
      invariant currentHeight == Steps(src.height, targetHeight, fraction, |interim|)
      invariant current.width == currentWidth && current.height == currentHeight
      invariant hasReassignedSrc == (interim != [])
      invariant current == if interim == [] then src else interim[|interim| - 1]
      invariant forall k | 0 <= k < |interim| :: fresh(interim[k])
      invariant OnlyLastOpen(interim)
      invariant SizesOfRounds(interim, src, targetWidth, targetHeight, fraction)
      decreases currentWidth + currentHeight
    {
      var prevCurrentWidth, prevCurrentHeight := currentWidth, currentHeight;
      currentWidth := StepDown(currentWidth, targetWidth, fraction);
      currentHeight := StepDown(currentHeight, targetHeight, fraction);
      if prevCurrentWidth == currentWidth && prevCurrentHeight == currentHeight {
        AtRest(src.width, targetWidth, fraction, |interim|);
        AtRest(src.height, targetHeight, fraction, |interim|);
        break;
      }

      var incrementalImage := ScaleImage(current, currentWidth, currentHeight);
      if hasReassignedSrc {
        current.Flush();
      }
      SizesSnoc(interim, incrementalImage, src, targetWidth, targetHeight, fraction);
      current := incrementalImage;
      hasReassignedSrc := true;
      interim := interim + [incrementalImage];
      if !(currentWidth != targetWidth || currentHeight != targetHeight) {
        AtTarget(src.width, targetWidth, fraction, |interim|);
        AtTarget(src.height, targetHeight, fraction, |interim|);
        break;
      }
    }
    result := current;
  }

  lemma {:induction false} NoRounds(src: Image, targetWidth: int, targetHeight: int, f: nat)
    requires f == 2 || f == 7
    ensures Steps(src.width, targetWidth, f, 0) == src.width && Steps(src.height, targetHeight, f, 0) == src.height
    ensures SizesOfRounds([], src, targetWidth, targetHeight, f)
  {
  }

  lemma {:induction false} SizesSnoc(interim: seq<Image>, next: Image, src: Image, targetWidth: int, targetHeight: int,
                                     f: nat)
    requires f == 2 || f == 7
    requires var (w, h, k) := (src.width, src.height, |interim|);
             && next.width == Step(Steps(w, targetWidth, f, k), targetWidth, f)
             && next.height == Step(Steps(h, targetHeight, f, k), targetHeight, f)
    ensures Steps(src.width, targetWidth, f, |interim| + 1) == next.width
    ensures Steps(src.height, targetHeight, f, |interim| + 1) == next.height
    ensures SizesOfRounds(interim, src, targetWidth, targetHeight, f)
            ==> SizesOfRounds(interim + [next], src, targetWidth, targetHeight, f)
  {
    hide Step;
  }

  /** The two ifs that the loop body holds once for each dimension. */
  method StepDown(current: nat, target: int, fraction: nat) returns (next: nat)
    requires fraction == 2 || fraction == 7
    ensures next == Step(current, target, fraction)
  {
    next := current;
    if next > target {
      PortionFits(current, fraction);
      next := next - next / fraction;
      if next < target {
        next := target;
      }
    }
  }

  lemma {:induction false} AtRest(source: nat, target: int, f: nat, k: nat)
    requires f == 2 || f == 7
    requires Step(Steps(source, target, f, k), target, f) == Steps(source, target, f, k)
    ensures Steps(source, target, f, k) == Limit(source, target, f)
  {
    hide Limit, Step;
    LimitKept(source, target, f, k);
    StepTowardsLimit(Steps(source, target, f, k), target, f);
  }

  lemma {:induction false} AtTarget(source: nat, target: int, f: nat, k: nat)
    requires f == 2 || f == 7
    requires Steps(source, target, f, k) == target
    ensures Limit(source, target, f) == target
  {
    LimitKept(source, target, f, k);
  }
}
