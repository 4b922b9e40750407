/**
  The tracer's colour value: an immutable r/g/b triple of reals, nominally in
  0..1 per channel, with channel-wise arithmetic and the `unclip` clamp.
 */
module Colors {

  datatype Color = Color(r: real, g: real, b: real)

  const Black: Color := Color(0.0, 0.0, 0.0)

  /** `a * k`: every channel multiplied by the same scalar. */
  function Scale(a: Color, k: real): Color {
    Color(a.r * k, a.g * k, a.b * k)
  }

  /** `a * b`: channel-wise product. */
  function Mul(a: Color, b: Color): Color {
    Color(a.r * b.r, a.g * b.g, a.b * b.b)
  }

  /** `a / k`; the model does not give IEEE's infinities for k = 0. */
  function DivScalar(a: Color, k: real): (c: Color)
    requires k != 0.0
    ensures Scale(c, k) == a
  {
    Color(a.r / k, a.g / k, a.b / k)
  }

  /** `a / b`, channel-wise; every channel of `b` must be non-zero. */
  function Div(a: Color, b: Color): (c: Color)
    requires b.r != 0.0 && b.g != 0.0 && b.b != 0.0
    ensures Mul(c, b) == a
  {
    Color(a.r / b.r, a.g / b.g, a.b / b.b)
  }

  /** `a + b`, channel-wise. */
  function Add(a: Color, b: Color): Color {
    Color(a.r + b.r, a.g + b.g, a.b + b.b)
  }

  /** Channel bounds add up under `+`. */
  lemma AddWithin(a: Color, b: Color, hiA: real, hiB: real)
    requires Within(a, 0.0, hiA) && Within(b, 0.0, hiB)
    ensures Within(Add(a, b), 0.0, hiA + hiB)
  {
  }

  /** `+` is commutative. */
  lemma AddCommutative(a: Color, b: Color)
    ensures Add(a, b) == Add(b, a)
  {
  }

  /** `+` is associative. */
  lemma AddAssociative(a: Color, b: Color, c: Color)
    ensures Add(Add(a, b), c) == Add(a, Add(b, c))
  {
  }

  /** Every channel lies in [lo, hi]. */
  predicate Within(c: Color, lo: real, hi: real) {
    lo <= c.r <= hi && lo <= c.g <= hi && lo <= c.b <= hi
  }

  /** One channel of `unclip`: values above 1 become 1, then values below 0 become 0. */
  function Clip(v: real): real {
    var above := if v > 1.0 then 1.0 else v;
    if above < 0.0 then 0.0 else above
  }

  /**
    `unclip`: clamps each channel into [0, 1]. Channels already inside are
    kept, channels above 1 become 1 and channels below 0 become 0; so the
    result is its own `unclip` (idempotence).
   */
  function Unclip(c: Color): (u: Color)
    ensures Within(u, 0.0, 1.0)
    ensures Within(c, 0.0, 1.0) ==> u == c
    ensures (c.r > 1.0 ==> u.r == 1.0) && (c.g > 1.0 ==> u.g == 1.0) && (c.b > 1.0 ==> u.b == 1.0)
    ensures (c.r < 0.0 ==> u.r == 0.0) && (c.g < 0.0 ==> u.g == 0.0) && (c.b < 0.0 ==> u.b == 0.0)
    ensures (0.0 <= c.r <= 1.0 ==> u.r == c.r) && (0.0 <= c.g <= 1.0 ==> u.g == c.g)
    ensures 0.0 <= c.b <= 1.0 ==> u.b == c.b
  {
    Color(Clip(c.r), Clip(c.g), Clip(c.b))
  }

  /** Two factors in [0, 1] have a product in [0, 1]. */
  lemma ProductInUnit(a: real, k: real)
    requires 0.0 <= a <= 1.0 && 0.0 <= k <= 1.0
    ensures 0.0 <= a * k <= 1.0
  {
    calc {
      a * k;
    <=
      1.0 * k;
    <=
      1.0;
    }
  }

  /** A product of a value in [0, hi] and a factor in [0, 1] stays in [0, hi]. */
  lemma ProductBelow(a: real, k: real, hi: real)
    requires 0.0 <= a <= hi && 0.0 <= k <= 1.0
    ensures 0.0 <= a * k <= hi
  {
    calc {
      a * k;
    <=
      hi * k;
    <=
      hi;
    }
  }

  /**
    A convex blend `a * k + b * (1 - k)` of two colours in [0, hi] stays in
    [0, hi] when `k` is in [0, 1].
   */
  lemma {:induction false} BlendWithin(a: Color, b: Color, k: real, hi: real)
    requires Within(a, 0.0, hi) && Within(b, 0.0, hi) && 0.0 <= k <= 1.0
    ensures Within(Add(Scale(a, k), Scale(b, 1.0 - k)), 0.0, hi)
  {
    ChannelBlend(a.r, b.r, k, hi);
    ChannelBlend(a.g, b.g, k, hi);
    ChannelBlend(a.b, b.b, k, hi);
  }

  lemma ChannelBlend(x: real, y: real, k: real, hi: real)
    requires 0.0 <= x <= hi && 0.0 <= y <= hi && 0.0 <= k <= 1.0
    ensures 0.0 <= x * k + y * (1.0 - k) <= hi
  {
    calc {
      x * k + y * (1.0 - k);
    <=
      hi * k + y * (1.0 - k);
    <=
      hi * k + hi * (1.0 - k);
    ==
      hi;
    }
    calc {
      x * k + y * (1.0 - k);
    >=
      0.0 * k + y * (1.0 - k);
    >=
      0.0 * k + 0.0 * (1.0 - k);
    ==
      0.0;
    }
  }
}
