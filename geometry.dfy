/** The axis-aligned box algebra and the interpolation helpers of the shared
    library Train/lib.js (copied verbatim into Alexei/app.js and Robert/app.js).
    A box is four numbers; nothing forces `min <= max`, so emptiness is a test. */
module Geometry {

  /** `{ minx, miny, maxx, maxy }` in scene pixels. */
  datatype Box = Box(minx: real, miny: real, maxx: real, maxy: real)

  function Width(b: Box): real { b.maxx - b.minx }

  function Height(b: Box): real { b.maxy - b.miny }

  /** The point (x, y) lies in the half-open box [minx, maxx) x [miny, maxy). */
  predicate Inside(b: Box, x: real, y: real) {
    b.minx <= x < b.maxx && b.miny <= y < b.maxy
  }

  /** `bboxOffset`: the same box moved by (x, y). */
  function Offset(b: Box, x: real, y: real): (r: Box)
    ensures Width(r) == Width(b) && Height(r) == Height(b)
    ensures r.minx - b.minx == x && r.maxx - b.maxx == x
    ensures r.miny - b.miny == y && r.maxy - b.maxy == y
    ensures forall px, py :: Inside(b, px, py) <==> Inside(r, px + x, py + y)
    ensures IsEmpty(r) == IsEmpty(b)
  {
    Box(b.minx + x, b.miny + y, b.maxx + x, b.maxy + y)
  }

  /** `bboxShrink`: every side moves inward by m. */
  function Shrink(b: Box, m: real): (r: Box)
    ensures Width(r) == Width(b) - 2.0 * m && Height(r) == Height(b) - 2.0 * m
    ensures r.minx + r.maxx == b.minx + b.maxx && r.miny + r.maxy == b.miny + b.maxy
    ensures m >= 0.0 ==> forall px, py :: Inside(r, px, py) ==> Inside(b, px, py)
  {
    Box(b.minx + m, b.miny + m, b.maxx - m, b.maxy - m)
  }

  /** `bboxFromImage`: the box an image of size w x h covers when drawn at (x, y). */
  function FromImage(w: real, h: real, x: real, y: real): (r: Box)
    ensures r.minx == x && r.miny == y
    ensures Width(r) == w && Height(r) == h
    ensures Inside(r, x, y) <==> w > 0.0 && h > 0.0
  {
    Box(x, y, x + w, y + h)
  }

  function Max(a: real, b: real): real { if a < b then b else a }

  function Min(a: real, b: real): real { if a < b then a else b }

  /** `bboxIntersection`: the region covered by both boxes. */
  function Intersection(a: Box, b: Box): (r: Box)
    ensures r.minx >= a.minx && r.minx >= b.minx && r.miny >= a.miny && r.miny >= b.miny
    ensures r.maxx <= a.maxx && r.maxx <= b.maxx && r.maxy <= a.maxy && r.maxy <= b.maxy
    ensures forall px, py :: Inside(r, px, py) <==> Inside(a, px, py) && Inside(b, px, py)
  {
    Box(Max(a.minx, b.minx), Max(a.miny, b.miny), Min(a.maxx, b.maxx), Min(a.maxy, b.maxy))
  }

  /** `bboxIsEmpty`: width or height is not positive. */
  predicate IsEmpty(b: Box) {
    Width(b) <= 0.0 || Height(b) <= 0.0
  }

  lemma IntersectionCommutes(a: Box, b: Box)
    ensures Intersection(a, b) == Intersection(b, a)
  {
  }

  /** Emptiness as the library tests it agrees with "no point lies inside". */
  lemma EmptyMeansNoPoint(b: Box)
    ensures IsEmpty(b) <==> forall px, py :: !Inside(b, px, py)
  {
    if !IsEmpty(b) {
      assert Inside(b, b.minx, b.miny);
    }
  }

  /** The collision test `!bboxIsEmpty(bboxIntersection(a, b))` holds exactly
      when the two boxes share a point, which happens exactly when the larger
      minimum is below the smaller maximum on both axes. */
  lemma OverlapIff(a: Box, b: Box)
    ensures !IsEmpty(Intersection(a, b)) <==> exists px, py :: Inside(a, px, py) && Inside(b, px, py)
    ensures !IsEmpty(Intersection(a, b)) <==>
      Max(a.minx, b.minx) < Min(a.maxx, b.maxx) && Max(a.miny, b.miny) < Min(a.maxy, b.maxy)
  {
    var r := Intersection(a, b);
    EmptyMeansNoPoint(r);
    if !IsEmpty(r) {
      assert Inside(r, r.minx, r.miny);
      assert Inside(a, r.minx, r.miny) && Inside(b, r.minx, r.miny);
    }
  }

  /** `lerp(a, b, t) = a * (1 - t) + b * t`. */
  function Lerp(a: real, b: real, t: real): (r: real)
    ensures t == 0.0 ==> r == a
    ensures t == 1.0 ==> r == b
    ensures r - a == t * (b - a)
  {
    a * (1.0 - t) + b * t
  }

  /** For t in [0, 1] the interpolated value lies between the two ends. */
  lemma LerpBetween(a: real, b: real, t: real)
    requires 0.0 <= t <= 1.0
    ensures Min(a, b) <= Lerp(a, b, t) <= Max(a, b)
  {
    var c := b - a;
    assert Lerp(a, b, t) - a == t * c;
    if c >= 0.0 {
      MulMono(0.0, t, c);
      MulMono(t, 1.0, c);
    } else {
      MulMono(0.0, t, -c);
      MulMono(t, 1.0, -c);
      assert t * c == -(t * -c);
    }
  }

  lemma MulMono(s: real, t: real, c: real)
    requires s <= t && c >= 0.0
    ensures s * c <= t * c
  {
  }

  lemma MulStrict(s: real, t: real, c: real)
    requires s < t && c > 0.0
    ensures s * c < t * c
  {
  }

  /** A positive part of a positive whole is a fraction in (0, 1]. */
  lemma FractionInUnit(n: real, d: real)
    requires 0.0 < n <= d
    ensures 0.0 < n / d <= 1.0
  {
    var f := n / d;
    assert f * d == n;
    if f <= 0.0 {
      MulMono(f, 0.0, d);
      assert false;
    }
    if f > 1.0 {
      assert (f - 1.0) * d == n - d;
      MulMono(0.0, f - 1.0, d);
      assert false;
    }
  }

  /** JavaScript's `x % 360` on numbers truncates the quotient toward zero. */
  function TruncTurns(x: real): (q: int)
  {
    if x >= 0.0 then (x / 360.0).Floor else -((-x / 360.0).Floor)
  }

  /** `x % 360` as JavaScript computes it: the remainder takes the sign of x. */
  function JsMod360(x: real): (r: real)
    ensures -360.0 < r < 360.0
    ensures x >= 0.0 ==> 0.0 <= r
    ensures x <= 0.0 ==> r <= 0.0
    ensures x - r == Turns(TruncTurns(x))
  {
    x - Turns(TruncTurns(x))
  }

  /** k full turns, in degrees. */
  function Turns(k: int): real { 360.0 * k as real }

  /** The signed arc `lerpAngles` turns by: `2 * da % 360 - da` with `da = (b - a) % 360`. */
  function Arc(a: real, b: real): real {
    var da := JsMod360(b - a);
    JsMod360(2.0 * da) - da
  }

  /** `lerpAngles(a, b, t)`: move from angle a toward b along the shorter arc. */
  function LerpAngles(a: real, b: real, t: real): (r: real)
    ensures t == 0.0 ==> r == a
  {
    a + Arc(a, b) * t
  }

  /** The arc is the difference b - a taken modulo 360 and it never exceeds a half turn. */
  lemma ArcIsShortest(a: real, b: real)
    ensures -180.0 <= Arc(a, b) <= 180.0
    ensures exists k: int :: Arc(a, b) == (b - a) + Turns(k)
  {
    var da := JsMod360(b - a);
    var q1 := TruncTurns(b - a);
    var q2 := TruncTurns(2.0 * da);
    var r2 := JsMod360(2.0 * da);
    assert Arc(a, b) == (b - a) + Turns(-(q1 + q2));
    if da >= 0.0 {
      if 2.0 * da < 360.0 {
        assert q2 == 0;
      } else {
        assert q2 == 1;
      }
    } else {
      if 2.0 * da > -360.0 {
        assert q2 == 0;
      } else {
        assert q2 == -1;
      }
    }
  }
}
