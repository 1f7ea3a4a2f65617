/** Annealing of the learning rate and the weight decay over a training run, over exact reals. */
module Scheduler {
  import opened Sequences

  datatype DecayStyle = Constant | InverseSquareRoot | Linear | Cosine | Wsd | OtherStyle

  datatype WsdStyle = WsdLinear | WsdCosine | WsdExponential | WsdMinusSqrt | OtherWsd

  datatype WdStyle = WdConstant | WdLinear | WdCosine | OtherWd

  // ---- Curves that are not rational functions ----

  /** A coefficient that falls from 1 to 0 as a ratio goes from 0 to 1. */
  ghost predicate Falls(curve: real -> real) {
    && curve(0.0) == 1.0 && curve(1.0) == 0.0
    && (forall x, y :: 0.0 <= x <= y <= 1.0 ==> curve(y) <= curve(x))
  }

  /** `1 - sqrt(x)`. */
  ghost predicate IsMinusSqrt(curve: real -> real) {
    forall x :: 0.0 <= x <= 1.0 ==> curve(x) <= 1.0 && (1.0 - curve(x)) * (1.0 - curve(x)) == x
  }

  /** `sqrt(w) / sqrt(n)`. */
  ghost predicate IsRootRatio(ratio: (int, int) -> real) {
    forall w, n :: 1 <= w && 1 <= n ==> 0.0 <= ratio(w, n) && ratio(w, n) * ratio(w, n) * n as real == w as real
  }

  /** The curves of the styles that use roots and transcendental functions. */
  datatype Shapes = Shapes(cosine: real -> real, exponential: real -> real, minusSqrt: real -> real, rootRatio: (int, int) -> real) {
    ghost predicate Valid() {
      Falls(cosine) && Falls(exponential) && IsMinusSqrt(minusSqrt) && IsRootRatio(rootRatio)
    }
  }

  lemma SquareOrder(a: real, b: real)
    requires 0.0 <= a && 0.0 <= b && a * a <= b * b
    ensures a <= b
  {
    if b < a {
      SquareLess(b, a);
    }
  }

  lemma SquareLess(a: real, b: real)
    requires 0.0 <= a < b
    ensures a * a < b * b
  {
    var d := b - a;
    assert b * b == a * a + (d * a + d * b);
    PositiveProduct(d, b);
  }

  lemma PositiveProduct(x: real, y: real)
    requires 0.0 < x && 0.0 < y
    ensures 0.0 < x * y
  {
  }

  lemma MinusSqrtFalls(curve: real -> real)
    requires IsMinusSqrt(curve)
    ensures Falls(curve)
  {
    SquareOrder(1.0 - curve(0.0), 0.0);
    SquareOrder(1.0 - curve(1.0), 1.0);
    SquareOrder(1.0, 1.0 - curve(1.0));
    forall x, y | 0.0 <= x <= y <= 1.0
      ensures curve(y) <= curve(x)
    {
      SquareOrder(1.0 - curve(x), 1.0 - curve(y));
    }
  }

  lemma RootRatioFalls(ratio: (int, int) -> real, w: int, m: int, n: int)
    requires IsRootRatio(ratio) && 1 <= w && 1 <= m <= n
    ensures 0.0 <= ratio(w, n) <= ratio(w, m) && (w <= m ==> ratio(w, m) <= 1.0)
  {
    var x, y := ratio(w, m), ratio(w, n);
    SquaresFall(x * x, m as real, y * y, n as real);
    SquareOrder(y, x);
    if w <= m {
      SquaresFall(1.0, w as real, x * x, m as real);
      SquareOrder(x, 1.0);
    }
  }

  lemma SquaresFall(x: real, m: real, y: real, n: real)
    requires 0.0 < m <= n && 0.0 <= x && x * m == y * n
    ensures y <= x
  {
    if x < y {
      ProductLess(x, y, m, n);
    }
  }

  lemma ProductLess(x: real, y: real, m: real, n: real)
    requires 0.0 <= x < y && 0.0 < m <= n
    ensures x * m < y * n
  {
    var d, e := y - x, n - m;
    assert y * n == x * m + (x * e + d * n);
    PositiveProduct(d, n);
  }

  datatype Config = Config(
    initLr: real, maxLr: real, minLr: real,
    warmup: int, decay: int, style: DecayStyle,
    startWd: real, endWd: real, wdSteps: int, wdStyle: WdStyle,
    wsdSteps: Option<int>, wsdStyle: WsdStyle)
  {
    /** What the constructor asserts. */
    predicate Valid() {
      && 0.0 <= minLr <= maxLr && initLr <= maxLr
      && 0 < decay && warmup < decay
      && (style == Wsd ==> wsdSteps.Some?)
      && 0.0 <= startWd <= endWd
    }
  }

  // ---- Weight decay ----

  function Ratio(a: int, b: int): (r: real)
    requires b != 0
  {
    a as real / b as real
  }

  function WdCoefficient(sh: Shapes, style: WdStyle, ratio: real): Result<real> {
    match style
    case WdLinear => Ok(ratio)
    case WdCosine => Ok(sh.cosine(1.0 - ratio))
    case _ => Err
  }

  /** A value between two others by a coefficient. */
  function Mix(low: real, high: real, coeff: real): real {
    low + coeff * (high - low)
  }

  /** `get_wd`. */
  function GetWd(sh: Shapes, c: Config, n: nat): Result<real> {
    if n > c.wdSteps then Ok(c.endWd)
    else if c.wdStyle == WdConstant then if c.startWd == c.endWd then Ok(c.endWd) else Err
    else if c.wdSteps == 0 then Err
    else
      var coeff := WdCoefficient(sh, c.wdStyle, Ratio(n, c.wdSteps));
      if coeff.Err? then Err else Ok(Mix(c.startWd, c.endWd, coeff.value))
  }

  // ---- Learning rate ----

  /** The coefficient of a decay style between the end of warm-up and the end of decay. */
  function Coefficient(sh: Shapes, c: Config, n: int): Result<real> {
    if c.decay == c.warmup then Err
    else
    var ratio := Ratio(n - c.warmup, c.decay - c.warmup);
    match c.style
    case Linear => Ok(1.0 - ratio)
    case Cosine => Ok(sh.cosine(ratio))
    case Wsd =>
      if c.wsdSteps.None? then Err
      else
        var start := c.decay - c.wsdSteps.value;
        if n <= start || c.wsdSteps.value == 0 then Ok(1.0)
        else
          var wsdRatio := Ratio(n - start, c.wsdSteps.value);
          (match c.wsdStyle
           case WsdLinear => Ok(1.0 - wsdRatio)
           case WsdCosine => Ok(sh.cosine(wsdRatio))
           case WsdExponential => Ok(sh.exponential(wsdRatio))
           case WsdMinusSqrt => Ok(sh.minusSqrt(wsdRatio))
           case OtherWsd => Err)
    case _ => Err
  }

  function Max(a: int, b: int): int {
    if a < b then b else a
  }

  function MaxReal(a: real, b: real): real {
    if a < b then b else a
  }

  function WarmupLr(initLr: real, maxLr: real, n: real, warmup: real): real
    requires warmup != 0.0
  {
    initLr + (maxLr - initLr) * n / warmup
  }

  function RootLr(sh: Shapes, c: Config, maxLr: real, n: nat): real {
    maxLr * sh.rootRatio(Max(c.warmup, 1), Max(n, 1))
  }

  /** `get_lr` for a parameter group with the given bounds. */
  function GetLr(sh: Shapes, c: Config, maxLr: real, minLr: real, n: nat): Result<real> {
    if 0 < c.warmup && n <= c.warmup then Ok(WarmupLr(c.initLr, maxLr, n as real, c.warmup as real))
    else if c.style == Constant then Ok(maxLr)
    else if n > c.decay then Ok(minLr)
    else if c.style == InverseSquareRoot then Ok(MaxReal(minLr, RootLr(sh, c, maxLr, n)))
    else
      var coeff := Coefficient(sh, c, n);
      if coeff.Err? then Err else Ok(Mix(minLr, maxLr, coeff.value))
  }

  // ---- What the rates are ----

  /** The warm-up phase is over at step `n` and decay is not. */
  predicate Decaying(c: Config, n: nat) {
    !(0 < c.warmup && n <= c.warmup) && n <= c.decay && c.warmup < c.decay
  }

  lemma SameProductIff(x: real, y: real, z: real)
    ensures x * z == y * z <==> z == 0.0 || x == y
  {
    if z != 0.0 && x * z == y * z {
      assert (x - y) * z == 0.0;
    }
  }

  lemma MixIs(low: real, high: real, coeff: real)
    ensures Mix(low, high, coeff) == low + coeff * (high - low)
  {
  }

  lemma MixLine(low: real, high: real, a: real, b: real)
    requires b != 0.0
    ensures (Mix(low, high, a / b) - low) * b == (high - low) * a
  {
    assert a / b * b == a;
    assert a / b * (high - low) * b == (high - low) * (a / b * b);
  }

  lemma RatioOf(a: int, b: int)
    requires b != 0
    ensures Ratio(a, b) * b as real == a as real
    ensures 1.0 - Ratio(a, b) == Ratio(b - a, b)
  {
    var x, y := a as real, b as real;
    assert x / y * y == x && (y - x) / y * y == y - x;
    assert (1.0 - x / y) * y == y - x;
    SameProductIff(1.0 - x / y, (y - x) / y, y);
  }

  lemma ShareIsRatio(share: real, a: int, b: int)
    requires b != 0 && share * b as real == a as real
    ensures share == Ratio(a, b)
  {
    RatioOf(a, b);
    SameProductIff(share, Ratio(a, b), b as real);
  }

  /** During warm-up the rate lies on the line from the initial rate at step 0 to the maximal rate at the end. */
  lemma WarmupLine(sh: Shapes, c: Config, maxLr: real, minLr: real, n: nat)
    requires 0 < c.warmup && n <= c.warmup
    ensures GetLr(sh, c, maxLr, minLr, n).Ok?
    ensures (GetLr(sh, c, maxLr, minLr, n).value - c.initLr) * c.warmup as real == (maxLr - c.initLr) * n as real
  {
    var x, w := (maxLr - c.initLr) * n as real, c.warmup as real;
    assert x / w * w == x;
  }

  /** After warm-up a constant rate is the maximal rate, and past the end of decay every other rate is minimal. */
  lemma FlatRates(sh: Shapes, c: Config, maxLr: real, minLr: real, n: nat)
    requires !(0 < c.warmup && n <= c.warmup)
    ensures c.style == Constant ==> GetLr(sh, c, maxLr, minLr, n) == Ok(maxLr)
    ensures c.style != Constant && c.decay < n ==> GetLr(sh, c, maxLr, minLr, n) == Ok(minLr)
  {
  }

  /** Linear decay: the line from the maximal rate at the end of warm-up to the minimal rate at the end of decay. */
  lemma LinearLine(sh: Shapes, c: Config, maxLr: real, minLr: real, n: nat)
    requires c.style == Linear && Decaying(c, n)
    ensures GetLr(sh, c, maxLr, minLr, n).Ok?
    ensures (GetLr(sh, c, maxLr, minLr, n).value - minLr) * (c.decay - c.warmup) as real == (maxLr - minLr) * (c.decay - n) as real
  {
    RatioOf(n - c.warmup, c.decay - c.warmup);
    MixLine(minLr, maxLr, (c.decay - n) as real, (c.decay - c.warmup) as real);
  }

  /** Cosine decay: the cosine curve, read at the share of the decay steps that are over. */
  lemma CosineCurve(sh: Shapes, c: Config, maxLr: real, minLr: real, n: nat, share: real)
    requires c.style == Cosine && Decaying(c, n) && share * (c.decay - c.warmup) as real == (n - c.warmup) as real
    ensures GetLr(sh, c, maxLr, minLr, n) == Ok(minLr + sh.cosine(share) * (maxLr - minLr))
  {
    ShareIsRatio(share, n - c.warmup, c.decay - c.warmup);
    MixIs(minLr, maxLr, sh.cosine(share));
  }

  /** Inverse square root: the minimal rate, or the rate whose square falls as the steps grow. */
  lemma RootSquared(sh: Shapes, c: Config, maxLr: real, minLr: real, n: nat)
    requires sh.Valid() && c.style == InverseSquareRoot && Decaying(c, n) && 0.0 <= maxLr && 0.0 <= minLr
    ensures GetLr(sh, c, maxLr, minLr, n).Ok?
    ensures var v, w, k := GetLr(sh, c, maxLr, minLr, n).value, Max(c.warmup, 1) as real, Max(n, 1) as real;
            if maxLr * maxLr * w <= minLr * minLr * k then v == minLr else 0.0 <= v && v * v * k == maxLr * maxLr * w
  {
    var w, k := Max(c.warmup, 1), Max(n, 1);
    var q := sh.rootRatio(w, k);
    assert q * q * k as real == w as real;
    SquareProduct(maxLr, q, k as real, w as real);
    var root := maxLr * q;
    if root <= minLr {
      SquareBound(root, minLr, k as real);
    } else if root * root * k as real <= minLr * minLr * k as real {
      SquareUnbound(root, minLr, k as real);
    }
  }

  lemma SquareProduct(a: real, q: real, k: real, w: real)
    requires q * q * k == w
    ensures a * q * (a * q) * k == a * a * w
  {
    assert a * q * (a * q) * k == a * a * (q * q * k);
  }

  lemma SquareBound(a: real, b: real, k: real)
    requires 0.0 <= a <= b && 0.0 < k
    ensures a * a * k <= b * b * k
  {
    if a < b {
      SquareLess(a, b);
    }
    TimesMono(a * a, b * b, k);
  }

  lemma SquareUnbound(a: real, b: real, k: real)
    requires 0.0 <= a && 0.0 <= b && 0.0 < k && a * a * k <= b * b * k
    ensures a <= b
  {
    if b * b < a * a {
      ProductLess(b * b, a * a, k, k);
    }
    SquareOrder(a, b);
  }

  /** Warm-up, stable, decay: the maximal rate until the last `steps` steps. */
  lemma WsdStable(sh: Shapes, c: Config, maxLr: real, minLr: real, n: nat)
    requires c.style == Wsd && c.wsdSteps.Some? && Decaying(c, n) && n <= c.decay - c.wsdSteps.value
    ensures GetLr(sh, c, maxLr, minLr, n) == Ok(maxLr)
  {
    MixIs(minLr, maxLr, 1.0);
  }

  /** From there on the linear style follows the line down to the minimal rate. */
  lemma WsdLine(sh: Shapes, c: Config, maxLr: real, minLr: real, n: nat)
    requires c.style == Wsd && c.wsdSteps.Some? && c.wsdStyle == WsdLinear && Decaying(c, n) && c.decay - c.wsdSteps.value <= n
    ensures GetLr(sh, c, maxLr, minLr, n).Ok?
    ensures (GetLr(sh, c, maxLr, minLr, n).value - minLr) * c.wsdSteps.value as real == (maxLr - minLr) * (c.decay - n) as real
  {
    var steps := c.wsdSteps.value;
    if c.decay - steps < n {
      RatioOf(n - (c.decay - steps), steps);
      MixLine(minLr, maxLr, (c.decay - n) as real, steps as real);
    } else {
      WsdStable(sh, c, maxLr, minLr, n);
    }
  }

  /** The other decay styles read their own curve at the share of the last `steps` steps that are over. */
  lemma WsdCurves(sh: Shapes, c: Config, maxLr: real, minLr: real, n: nat, share: real)
    requires c.style == Wsd && c.wsdSteps.Some? && Decaying(c, n) && c.decay - c.wsdSteps.value < n
    requires share * c.wsdSteps.value as real == (n - (c.decay - c.wsdSteps.value)) as real
    ensures c.wsdStyle == WsdCosine ==> GetLr(sh, c, maxLr, minLr, n) == Ok(minLr + sh.cosine(share) * (maxLr - minLr))
    ensures c.wsdStyle == WsdExponential ==> GetLr(sh, c, maxLr, minLr, n) == Ok(minLr + sh.exponential(share) * (maxLr - minLr))
    ensures c.wsdStyle == WsdMinusSqrt ==> GetLr(sh, c, maxLr, minLr, n) == Ok(minLr + sh.minusSqrt(share) * (maxLr - minLr))
    ensures c.wsdStyle == OtherWsd ==> GetLr(sh, c, maxLr, minLr, n).Err?
  {
    var steps := c.wsdSteps.value;
    ShareIsRatio(share, n - (c.decay - steps), steps);
    MixIs(minLr, maxLr, sh.cosine(share));
    MixIs(minLr, maxLr, sh.exponential(share));
    MixIs(minLr, maxLr, sh.minusSqrt(share));
  }

  /** Linear weight decay: the line from the start value at step 0 to the end value, which then stays. */
  lemma WdLine(sh: Shapes, c: Config, n: nat)
    requires c.wdStyle == WdLinear && 0 < c.wdSteps
    ensures GetWd(sh, c, n).Ok?
    ensures c.wdSteps <= n ==> GetWd(sh, c, n).value == c.endWd
    ensures n <= c.wdSteps ==> (GetWd(sh, c, n).value - c.startWd) * c.wdSteps as real == (c.endWd - c.startWd) * n as real
  {
    if n <= c.wdSteps {
      RatioOf(n, c.wdSteps);
      MixLine(c.startWd, c.endWd, n as real, c.wdSteps as real);
    }
  }

  /** Cosine weight decay: the cosine curve run backwards. */
  lemma WdCurve(sh: Shapes, c: Config, n: nat, share: real)
    requires c.wdStyle == WdCosine && n <= c.wdSteps && 0 < c.wdSteps && share * c.wdSteps as real == (c.wdSteps - n) as real
    ensures GetWd(sh, c, n) == Ok(c.startWd + sh.cosine(share) * (c.endWd - c.startWd))
  {
    RatioOf(n, c.wdSteps);
    ShareIsRatio(share, c.wdSteps - n, c.wdSteps);
    WdCurveAt(sh, c, n, share);
  }

  lemma WdCurveAt(sh: Shapes, c: Config, n: nat, share: real)
    requires c.wdStyle == WdCosine && n <= c.wdSteps && 0 < c.wdSteps && share == 1.0 - Ratio(n, c.wdSteps)
    ensures GetWd(sh, c, n) == Ok(c.startWd + sh.cosine(share) * (c.endWd - c.startWd))
  {
    MixIs(c.startWd, c.endWd, sh.cosine(share));
  }

  // ---- Ratios ----

  lemma DivMono(a: real, b: real, d: real)
    requires a <= b && 0.0 < d
    ensures a / d <= b / d
  {
    assert a / d * d == a && b / d * d == b;
  }

  lemma TimesMono(a: real, b: real, x: real)
    requires a <= b && 0.0 <= x
    ensures a * x <= b * x
  {
  }

  lemma RatioRange(a: int, b: int)
    requires 0 <= a <= b && 0 < b
    ensures 0.0 <= Ratio(a, b) <= 1.0
  {
    DivMono(0.0, a as real, b as real);
    DivMono(a as real, b as real, b as real);
  }

  lemma RatioMono(a: int, a': int, b: int)
    requires a <= a' && 0 < b
    ensures Ratio(a, b) <= Ratio(a', b)
  {
    DivMono(a as real, a' as real, b as real);
  }

  lemma Falling(curve: real -> real, x: real, y: real)
    requires Falls(curve) && 0.0 <= x <= y <= 1.0
    ensures 0.0 <= curve(y) <= curve(x) <= 1.0
  {
    assert curve(1.0) <= curve(y) && curve(x) <= curve(0.0);
  }

  lemma Between(low: real, high: real, a: real, b: real)
    requires low <= high && 0.0 <= a <= b <= 1.0
    ensures low <= Mix(low, high, a) <= Mix(low, high, b) <= high
  {
    TimesMono(0.0, a, high - low);
    TimesMono(a, b, high - low);
    TimesMono(b, 1.0, high - low);
  }

  // ---- Weight decay never falls ----

  lemma WdCoefficientRises(sh: Shapes, style: WdStyle, x: real, y: real)
    requires sh.Valid() && 0.0 <= x <= y <= 1.0 && WdCoefficient(sh, style, x).Ok?
    ensures WdCoefficient(sh, style, y).Ok?
    ensures 0.0 <= WdCoefficient(sh, style, x).value <= WdCoefficient(sh, style, y).value <= 1.0
  {
    Falling(sh.cosine, 1.0 - y, 1.0 - x);
  }

  lemma {:induction false} WdRises(sh: Shapes, c: Config, m: nat, n: nat)
    requires sh.Valid() && c.startWd <= c.endWd && m <= n
    requires GetWd(sh, c, m).Ok? && GetWd(sh, c, n).Ok?
    ensures c.startWd <= GetWd(sh, c, m).value <= GetWd(sh, c, n).value <= c.endWd
  {
    if m <= c.wdSteps && c.wdStyle != WdConstant {
      var k := if n <= c.wdSteps then n else c.wdSteps;
      var x, y := Ratio(m, c.wdSteps), Ratio(k, c.wdSteps);
      RatioRange(m, c.wdSteps);
      RatioRange(k, c.wdSteps);
      RatioMono(m, k, c.wdSteps);
      WdCoefficientRises(sh, c.wdStyle, x, y);
      Between(c.startWd, c.endWd, WdCoefficient(sh, c.wdStyle, x).value, WdCoefficient(sh, c.wdStyle, y).value);
    }
  }

  // ---- Learning rate rises, then falls ----

  lemma WarmupEnds(initLr: real, maxLr: real, w: real)
    requires 0.0 < w
    ensures WarmupLr(initLr, maxLr, 0.0, w) == initLr && WarmupLr(initLr, maxLr, w, w) == maxLr
  {
    var d := maxLr - initLr;
    assert d * w / w == d;
    assert d * 0.0 / w == 0.0;
  }

  lemma WarmupMono(initLr: real, maxLr: real, m: real, n: real, w: real)
    requires 0.0 < w && initLr <= maxLr && m <= n
    ensures WarmupLr(initLr, maxLr, m, w) <= WarmupLr(initLr, maxLr, n, w)
  {
    var d := maxLr - initLr;
    TimesMono(m, n, d);
    assert m * d == d * m && n * d == d * n;
    DivMono(d * m, d * n, w);
  }

  /** Warm-up climbs from the initial to the maximal rate. */
  lemma {:induction false} WarmupRises(sh: Shapes, c: Config, maxLr: real, minLr: real, m: nat, n: nat)
    requires c.warmup < c.decay && c.initLr <= maxLr && m <= n <= c.warmup && 0 < c.warmup
    ensures GetLr(sh, c, maxLr, minLr, 0) == Ok(c.initLr) && GetLr(sh, c, maxLr, minLr, c.warmup) == Ok(maxLr)
    ensures GetLr(sh, c, maxLr, minLr, m).Ok? && GetLr(sh, c, maxLr, minLr, n).Ok?
    ensures c.initLr <= GetLr(sh, c, maxLr, minLr, m).value <= GetLr(sh, c, maxLr, minLr, n).value <= maxLr
  {
    var w := c.warmup as real;
    WarmupEnds(c.initLr, maxLr, w);
    WarmupMono(c.initLr, maxLr, 0.0, m as real, w);
    WarmupMono(c.initLr, maxLr, m as real, n as real, w);
    WarmupMono(c.initLr, maxLr, n as real, w, w);
  }

  lemma {:induction false} CoefficientFalls(sh: Shapes, c: Config, m: int, n: int)
    requires sh.Valid() && c.warmup < c.decay && c.warmup <= m <= n <= c.decay
    requires Coefficient(sh, c, m).Ok? && Coefficient(sh, c, n).Ok?
    ensures 0.0 <= Coefficient(sh, c, n).value <= Coefficient(sh, c, m).value <= 1.0
  {
    if c.style == Wsd {
      WsdFalls(sh, c, m, n);
    } else {
      var x, y := Ratio(m - c.warmup, c.decay - c.warmup), Ratio(n - c.warmup, c.decay - c.warmup);
      RatioRange(m - c.warmup, c.decay - c.warmup);
      RatioRange(n - c.warmup, c.decay - c.warmup);
      RatioMono(m - c.warmup, n - c.warmup, c.decay - c.warmup);
      Falling(sh.cosine, x, y);
    }
  }

  lemma WsdFalls(sh: Shapes, c: Config, m: int, n: int)
    requires sh.Valid() && c.warmup < c.decay && m <= n <= c.decay && c.style == Wsd
    requires Coefficient(sh, c, m).Ok? && Coefficient(sh, c, n).Ok?
    ensures 0.0 <= Coefficient(sh, c, n).value <= Coefficient(sh, c, m).value <= 1.0
  {
    var steps := c.wsdSteps.value;
    var start := c.decay - steps;
    if start < n && steps != 0 {
      var k := if start <= m then m else start;
      RatioRange(k - start, steps);
      RatioRange(n - start, steps);
      RatioMono(k - start, n - start, steps);
      var x, y := Ratio(k - start, steps), Ratio(n - start, steps);
      Falling(sh.cosine, x, y);
      Falling(sh.exponential, x, y);
      MinusSqrtFalls(sh.minusSqrt);
      Falling(sh.minusSqrt, x, y);
    }
  }

  /** Once warm-up is over the rate never rises again and stays between its bounds. */
  lemma {:induction false} DecayFalls(sh: Shapes, c: Config, maxLr: real, minLr: real, m: nat, n: nat)
    requires sh.Valid() && c.warmup < c.decay && 0.0 <= minLr <= maxLr && c.warmup <= m <= n
    requires GetLr(sh, c, maxLr, minLr, m).Ok? && GetLr(sh, c, maxLr, minLr, n).Ok?
    ensures minLr <= GetLr(sh, c, maxLr, minLr, n).value <= GetLr(sh, c, maxLr, minLr, m).value <= maxLr
  {
    if c.warmup < m || c.warmup <= 0 {
      PastWarmup(sh, c, maxLr, minLr, m, n);
    } else {
      WarmupEnd(sh, c, maxLr, minLr);
      if m < n {
        PastWarmup(sh, c, maxLr, minLr, n, n);
      }
    }
  }

  lemma WarmupEnd(sh: Shapes, c: Config, maxLr: real, minLr: real)
    requires 0 < c.warmup < c.decay
    ensures GetLr(sh, c, maxLr, minLr, c.warmup) == Ok(maxLr)
  {
    WarmupEnds(c.initLr, maxLr, c.warmup as real);
  }

  lemma PastWarmup(sh: Shapes, c: Config, maxLr: real, minLr: real, m: nat, n: nat)
    requires sh.Valid() && c.warmup < c.decay && 0.0 <= minLr <= maxLr && m <= n
    requires c.warmup < m || c.warmup <= 0
    requires GetLr(sh, c, maxLr, minLr, m).Ok? && GetLr(sh, c, maxLr, minLr, n).Ok?
    ensures minLr <= GetLr(sh, c, maxLr, minLr, n).value <= GetLr(sh, c, maxLr, minLr, m).value <= maxLr
  {
    if c.style == InverseSquareRoot {
      RootFalls(sh, c, maxLr, m, n);
    } else if c.style != Constant && m <= c.decay {
      var k := if n <= c.decay then n else m;
      CoefficientFalls(sh, c, m, k);
      Between(minLr, maxLr, Coefficient(sh, c, k).value, Coefficient(sh, c, m).value);
    }
  }

  lemma RootFalls(sh: Shapes, c: Config, maxLr: real, m: nat, n: nat)
    requires sh.Valid() && 0.0 <= maxLr && m <= n && (c.warmup < m || c.warmup <= 0)
    ensures RootLr(sh, c, maxLr, n) <= RootLr(sh, c, maxLr, m) <= maxLr
  {
    var w := Max(c.warmup, 1);
    var x, y := sh.rootRatio(w, Max(m, 1)), sh.rootRatio(w, Max(n, 1));
    RootRatioFalls(sh.rootRatio, w, Max(m, 1), Max(n, 1));
    RootOrder(sh, c, maxLr, m, n, x, y);
  }

  lemma RootOrder(sh: Shapes, c: Config, maxLr: real, m: nat, n: nat, x: real, y: real)
    requires x == sh.rootRatio(Max(c.warmup, 1), Max(m, 1)) && y == sh.rootRatio(Max(c.warmup, 1), Max(n, 1))
    requires 0.0 <= maxLr && y <= x <= 1.0
    ensures RootLr(sh, c, maxLr, n) <= RootLr(sh, c, maxLr, m) <= maxLr
  {
    TimesMono(y, x, maxLr);
    TimesMono(x, 1.0, maxLr);
  }

  // ---- One step for all parameter groups ----

  /** A parameter group: its own bounds and multipliers, and the values set by the scheduler. */
  datatype Group = Group(ownMax: Option<real>, ownMin: Option<real>, lrMult: real, wdMult: real, lr: real, weightDecay: real) {
    function MaxLr(c: Config): real {
      if ownMax.Some? then ownMax.value else c.maxLr
    }

    function MinLr(c: Config): real {
      if ownMin.Some? then ownMin.value else c.minLr
    }
  }

  predicate WdOk(c: Config, n: nat) {
    || n > c.wdSteps
    || (c.wdStyle == WdConstant && c.startWd == c.endWd)
    || ((c.wdStyle == WdLinear || c.wdStyle == WdCosine) && c.wdSteps != 0)
  }

  predicate LrOk(c: Config, n: nat) {
    || (0 < c.warmup && n <= c.warmup)
    || c.style == Constant || n > c.decay
    || c.style == InverseSquareRoot
    || (c.decay != c.warmup
        && (c.style == Linear || c.style == Cosine
            || (c.style == Wsd && c.wsdSteps.Some? && (n <= c.decay - c.wsdSteps.value || c.wsdStyle != OtherWsd))))
  }

  /** The rates are defined exactly under these conditions, the same for every group. */
  lemma RatesDefinedIff(sh: Shapes, c: Config, maxLr: real, minLr: real, n: nat)
    ensures GetWd(sh, c, n).Ok? <==> WdOk(c, n)
    ensures GetLr(sh, c, maxLr, minLr, n).Ok? <==> LrOk(c, n)
  {
  }

  predicate StepOk(c: Config, n: nat, groups: seq<Group>) {
    WdOk(c, n) && (groups == [] || LrOk(c, n))
  }

  /** A group with its multiples of the rates. */
  function Scaled(g: Group, lr: real, wd: real): Group {
    g.(lr := lr * g.lrMult, weightDecay := wd * g.wdMult)
  }

  function Updated(sh: Shapes, c: Config, n: nat, g: Group): Group
    requires WdOk(c, n) && LrOk(c, n)
  {
    RatesDefinedIff(sh, c, g.MaxLr(c), g.MinLr(c), n);
    Scaled(g, GetLr(sh, c, g.MaxLr(c), g.MinLr(c), n).value, GetWd(sh, c, n).value)
  }

  /** A step sets a group's learning rate to the rate between the group's own bounds, or the scheduler's where it
      has none, times its multiplier, its weight decay likewise, and nothing else. */
  lemma GroupSet(sh: Shapes, c: Config, n: nat, g: Group)
    requires WdOk(c, n) && LrOk(c, n)
    ensures var maxLr := if g.ownMax.Some? then g.ownMax.value else c.maxLr;
            var minLr := if g.ownMin.Some? then g.ownMin.value else c.minLr;
            && GetLr(sh, c, maxLr, minLr, n).Ok? && GetWd(sh, c, n).Ok?
            && Updated(sh, c, n, g) ==
               Group(g.ownMax, g.ownMin, g.lrMult, g.wdMult,
                     GetLr(sh, c, maxLr, minLr, n).value * g.lrMult, GetWd(sh, c, n).value * g.wdMult)
  {
    RatesDefinedIff(sh, c, g.MaxLr(c), g.MinLr(c), n);
  }

  function UpdatedAll(sh: Shapes, c: Config, n: nat, groups: seq<Group>): (r: seq<Group>)
    requires StepOk(c, n, groups)
    ensures |r| == |groups| && forall i :: 0 <= i < |r| ==> r[i] == Updated(sh, c, n, groups[i])
  {
    seq(|groups|, i requires 0 <= i < |groups| => Updated(sh, c, n, groups[i]))
  }

  // ---- Checkpoints ----

  datatype Checkpoint = Checkpoint(
    maxLr: real, minLr: real, warmup: int, decay: int, style: DecayStyle, numSteps: nat,
    startWd: real, endWd: real, wdSteps: int, wdStyle: WdStyle)

  function DictOf(c: Config, n: nat): Checkpoint {
    Checkpoint(c.maxLr, c.minLr, c.warmup, c.decay, c.style, n, c.startWd, c.endWd, c.wdSteps, c.wdStyle)
  }

  /** Which values win when a checkpoint is loaded. */
  datatype Mode = Override | UseCheckpoint | MustMatch

  function LrLoaded(mode: Mode, c: Config, sd: Checkpoint): Config {
    if mode == Override then c
    else c.(maxLr := sd.maxLr, minLr := sd.minLr, warmup := sd.warmup, decay := sd.decay, style := sd.style)
  }

  function WdLoaded(mode: Mode, c: Config, sd: Checkpoint): Config {
    if mode == Override then c
    else c.(startWd := sd.startWd, endWd := sd.endWd, wdSteps := sd.wdSteps, wdStyle := sd.wdStyle)
  }

  predicate Accepts(mode: Mode, c: Config, sd: Checkpoint) {
    mode == MustMatch ==> LrLoaded(mode, c, sd) == c && WdLoaded(mode, c, sd) == c
  }

  method CheckAndSet<T(==)>(mode: Mode, own: T, saved: T) returns (r: Result<T>)
    ensures r.Err? <==> mode == MustMatch && own != saved
    ensures r.Ok? ==> r.value == if mode == Override then own else saved
  {
    if mode == Override {
      return Ok(own);
    }
    if mode == MustMatch && own != saved {
      return Err;
    }
    r := Ok(saved);
  }

  /** Sets the rates of every group. A learning rate that is not defined fails for the first group. */
  method SetGroups(sh: Shapes, c: Config, n: nat, newWd: real, groups: seq<Group>) returns (ok: bool, updated: seq<Group>)
    requires GetWd(sh, c, n) == Ok(newWd)
    ensures ok <==> StepOk(c, n, groups)
    ensures updated == if ok then UpdatedAll(sh, c, n, groups) else groups
  {
    RatesDefinedIff(sh, c, 0.0, 0.0, n);
    updated := groups;
    for i := 0 to |groups|
      invariant |updated| == |groups| && (i > 0 ==> LrOk(c, n))
      invariant forall j :: 0 <= j < i ==> updated[j] == Updated(sh, c, n, groups[j])
      invariant forall j :: i <= j < |groups| ==> updated[j] == groups[j]
    {
      var g := groups[i];
      RatesDefinedIff(sh, c, g.MaxLr(c), g.MinLr(c), n);
      var newLr := GetLr(sh, c, g.MaxLr(c), g.MinLr(c), n);
      if newLr.Err? {
        assert updated == groups;
        return false, updated;
      }
      updated := updated[i := Scaled(g, newLr.value, newWd)];
    }
    ok := true;
  }

  class OptimizerParamScheduler {
    const shapes: Shapes
    const mode: Mode
    var config: Config
    var numSteps: nat
    var groups: seq<Group>

    constructor (shapes: Shapes, config: Config, groups: seq<Group>, mode: Mode)
      requires config.Valid() && StepOk(config, 0, groups)
      ensures this.shapes == shapes && this.mode == mode && this.config == config && numSteps == 0
      ensures this.groups == UpdatedAll(shapes, config, 0, groups)
    {
      this.shapes, this.mode, this.config, this.groups := shapes, mode, config, groups;
      numSteps := 0;
      new;
      var ok := Step(0);
    }

    /** Counts the steps and sets the rates of every group; a rate that is not defined is an error. */
    method Step(increment: nat) returns (ok: bool)
      modifies this`numSteps, this`groups
      ensures numSteps == old(numSteps) + increment
      ensures ok <==> StepOk(config, numSteps, old(groups))
      ensures groups == if ok then UpdatedAll(shapes, config, numSteps, old(groups)) else old(groups)
    {
      numSteps := numSteps + increment;
      RatesDefinedIff(shapes, config, 0.0, 0.0, numSteps);
      var newWd := GetWd(shapes, config, numSteps);
      if newWd.Err? {
        return false;
      }
      ok, groups := SetGroups(shapes, config, numSteps, newWd.value, groups);
    }

    method StateDict() returns (sd: Checkpoint)
      ensures sd == DictOf(config, numSteps)
    {
      sd := Checkpoint(config.maxLr, config.minLr, config.warmup, config.decay, config.style, numSteps,
                       config.startWd, config.endWd, config.wdSteps, config.wdStyle);
    }

    /** The values for the learning rate, one by one. */
    method LoadLr(sd: Checkpoint) returns (ok: bool)
      modifies this`config
      ensures ok <==> (mode == MustMatch ==> LrLoaded(mode, old(config), sd) == old(config))
      ensures ok ==> config == LrLoaded(mode, old(config), sd)
    {
      var maxLr := CheckAndSet(mode, config.maxLr, sd.maxLr);
      if maxLr.Err? {
        return false;
      }
      config := config.(maxLr := maxLr.value);
      var minLr := CheckAndSet(mode, config.minLr, sd.minLr);
      if minLr.Err? {
        return false;
      }
      config := config.(minLr := minLr.value);
      var warmup := CheckAndSet(mode, config.warmup, sd.warmup);
      if warmup.Err? {
        return false;
      }
      config := config.(warmup := warmup.value);
      var decay := CheckAndSet(mode, config.decay, sd.decay);
      if decay.Err? {
        return false;
      }
      config := config.(decay := decay.value);
      var style := CheckAndSet(mode, config.style, sd.style);
      if style.Err? {
        return false;
      }
      config := config.(style := style.value);
      ok := true;
    }

    /** The values for the weight decay, one by one. */
    method LoadWd(sd: Checkpoint) returns (ok: bool)
      modifies this`config
      ensures ok <==> (mode == MustMatch ==> WdLoaded(mode, old(config), sd) == old(config))
      ensures ok ==> config == WdLoaded(mode, old(config), sd)
    {
      var startWd := CheckAndSet(mode, config.startWd, sd.startWd);
      if startWd.Err? {
        return false;
      }
      config := config.(startWd := startWd.value);
      var endWd := CheckAndSet(mode, config.endWd, sd.endWd);
      if endWd.Err? {
        return false;
      }
      config := config.(endWd := endWd.value);
      var wdSteps := CheckAndSet(mode, config.wdSteps, sd.wdSteps);
      if wdSteps.Err? {
        return false;
      }
      config := config.(wdSteps := wdSteps.value);
      var wdStyle := CheckAndSet(mode, config.wdStyle, sd.wdStyle);
      if wdStyle.Err? {
        return false;
      }
      config := config.(wdStyle := wdStyle.value);
      ok := true;
    }

    /** Loads a checkpoint. The saved steps are added to the steps taken, and the groups are set before the
        weight decay values of the checkpoint are. */
    method LoadStateDict(sd: Checkpoint) returns (ok: bool)
      modifies this
      ensures ok <==> Load(mode, shapes, old(Scheduled()), sd).Ok?
      ensures ok ==> Load(mode, shapes, old(Scheduled()), sd) == Ok(Scheduled())
    {
      ok := LoadLr(sd);
      if !ok {
        return;
      }
      ok := Step(sd.numSteps);
      if !ok {
        return;
      }
      ok := LoadWd(sd);
    }

    ghost function Scheduled(): State
      reads this
    {
      State(config, numSteps, groups)
    }
  }

  /** A scheduler and its groups, as a value. */
  datatype State = State(config: Config, numSteps: nat, groups: seq<Group>)

  function Advance(sh: Shapes, s: State, increment: nat): Result<State> {
    var n := s.numSteps + increment;
    if StepOk(s.config, n, s.groups) then Ok(State(s.config, n, UpdatedAll(sh, s.config, n, s.groups))) else Err
  }

  function Load(mode: Mode, sh: Shapes, s: State, sd: Checkpoint): Result<State> {
    if !Accepts(mode, s.config, sd) then Err
    else
      var r := Advance(sh, s.(config := LrLoaded(mode, s.config, sd)), sd.numSteps);
      if r.Err? then Err else Ok(r.value.(config := WdLoaded(mode, r.value.config, sd)))
  }

  // ---- Whole runs ----

  function Run(sh: Shapes, s: State, increments: seq<nat>): Result<State> {
    if increments == [] then Ok(s)
    else
      var before := Run(sh, s, increments[..|increments| - 1]);
      if before.Err? then Err else Advance(sh, before.value, increments[|increments| - 1])
  }

  /** The groups are the ones given, with the rates of the current step. */
  ghost predicate Settled(sh: Shapes, s: State, groups: seq<Group>) {
    StepOk(s.config, s.numSteps, groups) && s.groups == UpdatedAll(sh, s.config, s.numSteps, groups)
  }

  lemma UpdateTwice(sh: Shapes, c: Config, m: nat, c': Config, n: nat, groups: seq<Group>)
    requires StepOk(c, m, groups) && StepOk(c', n, groups)
    ensures UpdatedAll(sh, c', n, UpdatedAll(sh, c, m, groups)) == UpdatedAll(sh, c', n, groups)
  {
    var once := UpdatedAll(sh, c, m, groups);
    forall i | 0 <= i < |groups|
      ensures Updated(sh, c', n, once[i]) == Updated(sh, c', n, groups[i])
    {
      GroupTwice(sh, c, m, c', n, groups[i]);
    }
  }

  lemma GroupTwice(sh: Shapes, c: Config, m: nat, c': Config, n: nat, g: Group)
    requires WdOk(c, m) && LrOk(c, m) && WdOk(c', n) && LrOk(c', n)
    ensures Updated(sh, c', n, Updated(sh, c, m, g)) == Updated(sh, c', n, g)
  {
    GroupSet(sh, c, m, g);
    GroupSet(sh, c', n, g);
    GroupSet(sh, c', n, Updated(sh, c, m, g));
  }

  lemma {:induction false} RunSettles(sh: Shapes, s: State, groups: seq<Group>, increments: seq<nat>)
    requires Settled(sh, s, groups) && Run(sh, s, increments).Ok?
    ensures var r := Run(sh, s, increments).value; r.config == s.config && s.numSteps <= r.numSteps && Settled(sh, r, groups)
  {
    if increments != [] {
      var n := |increments| - 1;
      RunSettles(sh, s, groups, increments[..n]);
      var mid := Run(sh, s, increments[..n]).value;
      UpdateTwice(sh, mid.config, mid.numSteps, mid.config, mid.numSteps + increments[n], groups);
    }
  }

  lemma {:induction false} RunSplits(sh: Shapes, s: State, a: seq<nat>, b: seq<nat>)
    requires Run(sh, s, a).Ok?
    ensures Run(sh, s, a + b) == Run(sh, Run(sh, s, a).value, b)
  {
    if b == [] {
      assert a + b == a;
    } else {
      var n := |b| - 1;
      assert (a + b)[..|a| + n] == a + b[..n];
      RunSplits(sh, s, a, b[..n]);
    }
  }

  function New(sh: Shapes, c: Config, groups: seq<Group>): State
    requires StepOk(c, 0, groups)
  {
    State(c, 0, UpdatedAll(sh, c, 0, groups))
  }

  /** A fresh scheduler of the same configuration that loads a checkpoint is the original, whatever the
      mode, and so follows it at every later step. */
  lemma {:induction false} ResumeFollows(sh: Shapes, c: Config, groups: seq<Group>, mode: Mode, a: seq<nat>, b: seq<nat>)
    requires c.Valid() && StepOk(c, 0, groups) && Run(sh, New(sh, c, groups), a).Ok?
    ensures var s := Run(sh, New(sh, c, groups), a).value;
            && Load(mode, sh, New(sh, c, groups), DictOf(s.config, s.numSteps)) == Ok(s)
            && Run(sh, s, b) == Run(sh, New(sh, c, groups), a + b)
  {
    var fresh_ := New(sh, c, groups);
    RunSettles(sh, fresh_, groups, a);
    var s := Run(sh, fresh_, a).value;
    UpdateTwice(sh, c, 0, c, s.numSteps, groups);
    RunSplits(sh, fresh_, a, b);
  }

  /** The fields that a load does not take from the checkpoint. */
  predicate KeptFieldsAgree(mode: Mode, own: Config, c: Config) {
    && (mode == Override ==> own == c)
    && own.initLr == c.initLr && own.wsdSteps == c.wsdSteps && own.wsdStyle == c.wsdStyle
  }

  lemma LoadedConfigIff(mode: Mode, own: Config, c: Config, n: nat)
    ensures WdLoaded(mode, LrLoaded(mode, own, DictOf(c, n)), DictOf(c, n)) == c <==> KeptFieldsAgree(mode, own, c)
  {
  }

  /** While a checkpoint is loaded the groups get the learning rate of the checkpoint and the weight decay of the
      scheduler's own values. */
  lemma {:induction false} MixedUpdate(mode: Mode, sh: Shapes, own: Config, c: Config, n: nat, g: Group)
    requires KeptFieldsAgree(mode, own, c) && WdOk(c, n) && LrOk(c, n)
    requires var mixed := LrLoaded(mode, own, DictOf(c, n)); WdOk(mixed, n) && LrOk(mixed, n)
    ensures var mixed := LrLoaded(mode, own, DictOf(c, n));
            && GetWd(sh, own, n).Ok? && GetWd(sh, c, n).Ok?
            && Updated(sh, mixed, n, g) == Updated(sh, c, n, g).(weightDecay := GetWd(sh, own, n).value * g.wdMult)
            && Updated(sh, c, n, g).weightDecay == GetWd(sh, c, n).value * g.wdMult
  {
    var mixed := LrLoaded(mode, own, DictOf(c, n));
    RatesDefinedIff(sh, c, g.MaxLr(c), g.MinLr(c), n);
    RatesDefinedIff(sh, mixed, g.MaxLr(mixed), g.MinLr(mixed), n);
    assert GetWd(sh, mixed, n) == GetWd(sh, own, n);
    assert g.MaxLr(mixed) == g.MaxLr(c) && g.MinLr(mixed) == g.MinLr(c);
    SameLr(sh, mixed, c, g.MaxLr(c), g.MinLr(c), n);
  }

  lemma SameLr(sh: Shapes, a: Config, b: Config, maxLr: real, minLr: real, n: nat)
    requires a.initLr == b.initLr && a.warmup == b.warmup && a.decay == b.decay && a.style == b.style
    requires a.wsdSteps == b.wsdSteps && a.wsdStyle == b.wsdStyle
    ensures GetLr(sh, a, maxLr, minLr, n) == GetLr(sh, b, maxLr, minLr, n)
  {
    assert Coefficient(sh, a, n) == Coefficient(sh, b, n);
  }

  /** The weight decay of every group is the same at step `n` under both configurations. */
  ghost predicate SameWeightDecay(sh: Shapes, own: Config, c: Config, n: nat, groups: seq<Group>) {
    forall i :: 0 <= i < |groups| ==> groups[i].wdMult == 0.0 || GetWd(sh, own, n) == GetWd(sh, c, n)
  }

  lemma {:induction false} GroupsRestoredIff(mode: Mode, sh: Shapes, own: Config, c: Config, n: nat, groups: seq<Group>)
    requires KeptFieldsAgree(mode, own, c) && StepOk(c, n, groups) && StepOk(LrLoaded(mode, own, DictOf(c, n)), n, groups)
    ensures UpdatedAll(sh, LrLoaded(mode, own, DictOf(c, n)), n, groups) == UpdatedAll(sh, c, n, groups)
       <==> SameWeightDecay(sh, own, c, n, groups)
  {
    var mixed := LrLoaded(mode, own, DictOf(c, n));
    var a, b := UpdatedAll(sh, mixed, n, groups), UpdatedAll(sh, c, n, groups);
    forall i | 0 <= i < |groups|
      ensures a[i] == b[i] <==> groups[i].wdMult == 0.0 || GetWd(sh, own, n) == GetWd(sh, c, n)
    {
      MixedUpdate(mode, sh, own, c, n, groups[i]);
      SameProductIff(GetWd(sh, own, n).value, GetWd(sh, c, n).value, groups[i].wdMult);
    }
    if a == b {
      assert forall i :: 0 <= i < |groups| ==> a[i] == b[i];
    }
  }

  /** A scheduler that loads a checkpoint equals the original, parameter groups included, exactly when it has
      taken no steps of its own, agrees on what the checkpoint does not hold or may not replace, and its own
      values give every group the original's weight decay at that step. */
  lemma {:induction false} LoadRestoresIff(mode: Mode, sh: Shapes, own: Config, k: nat, c: Config, n: nat, groups: seq<Group>)
    requires StepOk(own, k, groups) && StepOk(c, n, groups)
    requires Load(mode, sh, State(own, k, UpdatedAll(sh, own, k, groups)), DictOf(c, n)).Ok?
    ensures Load(mode, sh, State(own, k, UpdatedAll(sh, own, k, groups)), DictOf(c, n)) == Ok(State(c, n, UpdatedAll(sh, c, n, groups)))
       <==> k == 0 && KeptFieldsAgree(mode, own, c) && SameWeightDecay(sh, own, c, n, groups)
  {
    var mixed := LrLoaded(mode, own, DictOf(c, n));
    LoadedConfigIff(mode, own, c, n);
    assert StepOk(mixed, k + n, groups);
    UpdateTwice(sh, own, k, mixed, k + n, groups);
    if k == 0 && KeptFieldsAgree(mode, own, c) {
      GroupsRestoredIff(mode, sh, own, c, n, groups);
    }
  }

  /** A group with multipliers of one and no bounds of its own. */
  const PLAIN: Group := Group(None, None, 1.0, 1.0, 0.0, 0.0)

  function ConstantConfig(wd: real): Config {
    Config(1.0, 1.0, 0.0, 0, 10, Constant, wd, wd, 5, WdConstant, None, OtherWsd)
  }

  /** Everything the checkpoint holds is loaded, and yet the group keeps the weight decay the scheduler was made
      with until the next step. */
  lemma StaleWeightDecay(sh: Shapes)
    ensures StepOk(ConstantConfig(0.0), 0, [PLAIN]) && StepOk(ConstantConfig(1.0), 0, [PLAIN])
    ensures var r := Load(UseCheckpoint, sh, New(sh, ConstantConfig(0.0), [PLAIN]), DictOf(ConstantConfig(1.0), 0));
            && r.Ok? && r.value.config == ConstantConfig(1.0) && r.value.numSteps == 0
            && r.value.groups[0].weightDecay == 0.0 && New(sh, ConstantConfig(1.0), [PLAIN]).groups[0].weightDecay == 1.0
  {
  }

  /** A scheduler that has taken steps of its own adds the saved steps to them. */
  lemma LoadAddsSteps(sh: Shapes)
    ensures StepOk(ConstantConfig(1.0), 3, [])
    ensures var c := ConstantConfig(1.0);
            var r := Load(UseCheckpoint, sh, State(c, 3, []), DictOf(c, 4));
            r.Ok? && r.value.config == c && r.value.numSteps == 7
  {
  }

  /** What may happen to a group between steps `m` and `n`: its rate rises as long as warm-up lasts, never rises
      after it and stays between its bounds, and its weight decay never falls. */
  predicate Annealed(c: Config, m: nat, a: Group, n: nat, b: Group) {
    && a.weightDecay <= b.weightDecay
    && (n <= c.warmup ==> a.lr <= b.lr)
    && (c.warmup <= m ==> a.MinLr(c) * a.lrMult <= b.lr <= a.lr <= a.MaxLr(c) * a.lrMult)
  }

  /** Over every run, for every group with sensible bounds and multipliers: the rate rises as long as
      warm-up lasts, never rises after it and stays between its bounds, and the weight decay never falls. */
  lemma {:induction false} RunTrajectory(sh: Shapes, c: Config, groups: seq<Group>, a: seq<nat>, b: seq<nat>, k: nat)
    requires sh.Valid() && c.Valid() && StepOk(c, 0, groups) && k < |groups|
    requires 0.0 <= groups[k].MinLr(c) <= groups[k].MaxLr(c) && c.initLr <= groups[k].MaxLr(c)
    requires 0.0 <= groups[k].lrMult && 0.0 <= groups[k].wdMult
    requires Run(sh, New(sh, c, groups), a).Ok? && Run(sh, New(sh, c, groups), a + b).Ok?
    ensures var s, t := Run(sh, New(sh, c, groups), a).value, Run(sh, New(sh, c, groups), a + b).value;
            && |s.groups| == |t.groups| == |groups| && s.numSteps <= t.numSteps
            && Annealed(c, s.numSteps, s.groups[k], t.numSteps, t.groups[k])
  {
    var m, n := RunGroups(sh, c, groups, a, b, k);
    GroupTrajectory(sh, c, groups[k], m, n);
  }

  /** Over a run every group has the rates of the step the scheduler stands at. */
  lemma RunGroups(sh: Shapes, c: Config, groups: seq<Group>, a: seq<nat>, b: seq<nat>, k: nat) returns (m: nat, n: nat)
    requires StepOk(c, 0, groups) && k < |groups|
    requires Run(sh, New(sh, c, groups), a).Ok? && Run(sh, New(sh, c, groups), a + b).Ok?
    ensures m <= n && WdOk(c, m) && LrOk(c, m) && WdOk(c, n) && LrOk(c, n)
    ensures var s, t := Run(sh, New(sh, c, groups), a).value, Run(sh, New(sh, c, groups), a + b).value;
            && s.numSteps == m && t.numSteps == n && |s.groups| == |t.groups| == |groups|
            && s.groups[k] == Updated(sh, c, m, groups[k]) && t.groups[k] == Updated(sh, c, n, groups[k])
  {
    var fresh_ := New(sh, c, groups);
    RunSettles(sh, fresh_, groups, a);
    var s := Run(sh, fresh_, a).value;
    RunSplits(sh, fresh_, a, b);
    RunSettles(sh, s, groups, b);
    m, n := s.numSteps, Run(sh, s, b).value.numSteps;
  }

  lemma GroupTrajectory(sh: Shapes, c: Config, g: Group, m: nat, n: nat)
    requires sh.Valid() && c.Valid() && m <= n && WdOk(c, m) && LrOk(c, m) && WdOk(c, n) && LrOk(c, n)
    requires 0.0 <= g.MinLr(c) <= g.MaxLr(c) && c.initLr <= g.MaxLr(c) && 0.0 <= g.lrMult && 0.0 <= g.wdMult
    ensures Annealed(c, m, Updated(sh, c, m, g), n, Updated(sh, c, n, g))
  {
    var x, y, u, v := GroupRates(sh, c, g, m, n);
    AnnealedBy(c, g, m, x, u, n, y, v);
  }

  lemma AnnealedBy(c: Config, g: Group, m: nat, x: real, u: real, n: nat, y: real, v: real)
    requires 0.0 <= g.lrMult && 0.0 <= g.wdMult && u <= v
    requires (n <= c.warmup ==> x <= y) && (c.warmup <= m ==> g.MinLr(c) <= y <= x <= g.MaxLr(c))
    ensures Annealed(c, m, Scaled(g, x, u), n, Scaled(g, y, v))
  {
    ScaledMono(g, x, y, u, v);
    ScaledMono(g, g.MinLr(c), y, v, v);
    ScaledMono(g, x, g.MaxLr(c), u, u);
  }

  lemma ScaledMono(g: Group, x: real, y: real, u: real, v: real)
    requires 0.0 <= g.lrMult && 0.0 <= g.wdMult && u <= v
    ensures x <= y ==> Scaled(g, x, u).lr <= Scaled(g, y, v).lr
    ensures y <= x ==> Scaled(g, y, v).lr <= Scaled(g, x, u).lr
    ensures Scaled(g, x, u).weightDecay <= Scaled(g, y, v).weightDecay
    ensures Scaled(g, x, u).lr == x * g.lrMult && Scaled(g, y, v).lr == y * g.lrMult
  {
    TimesMono(u, v, g.wdMult);
    if x <= y {
      TimesMono(x, y, g.lrMult);
    }
    if y <= x {
      TimesMono(y, x, g.lrMult);
    }
  }

  /** The rates of a group at two steps. */
  lemma GroupRates(sh: Shapes, c: Config, g: Group, m: nat, n: nat) returns (x: real, y: real, u: real, v: real)
    requires sh.Valid() && c.Valid() && m <= n && WdOk(c, m) && LrOk(c, m) && WdOk(c, n) && LrOk(c, n)
    requires 0.0 <= g.MinLr(c) <= g.MaxLr(c) && c.initLr <= g.MaxLr(c)
    ensures Updated(sh, c, m, g) == Scaled(g, x, u) && Updated(sh, c, n, g) == Scaled(g, y, v)
    ensures u <= v && (n <= c.warmup ==> x <= y) && (c.warmup <= m ==> g.MinLr(c) <= y <= x <= g.MaxLr(c))
  {
    var maxLr, minLr := g.MaxLr(c), g.MinLr(c);
    RatesDefinedIff(sh, c, maxLr, minLr, m);
    RatesDefinedIff(sh, c, maxLr, minLr, n);
    x, y := GetLr(sh, c, maxLr, minLr, m).value, GetLr(sh, c, maxLr, minLr, n).value;
    u, v := GetWd(sh, c, m).value, GetWd(sh, c, n).value;
    WdRises(sh, c, m, n);
    if 0 < c.warmup && n <= c.warmup {
      WarmupRises(sh, c, maxLr, minLr, m, n);
    }
    if c.warmup <= m {
      DecayFalls(sh, c, maxLr, minLr, m, n);
    }
  }
}
