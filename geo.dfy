/**
 * Planar geometry in degree units: `calculateDistance` and the straight-line
 * step that every moving ambulance takes.
 *
 * Dafny's reals have no square root, so `Math.sqrt` is passed in as a
 * function `sqrt`, required to return the non-negative root at the values
 * the model applies it to (`SqrtAt`).
 */
module Geo {

  datatype Point = Point(lat: real, lng: real)

  /** The square of the Euclidean distance between two coordinates. */
  function SqDistance(p: Point, q: Point): real
  {
    (p.lat - q.lat) * (p.lat - q.lat) + (p.lng - q.lng) * (p.lng - q.lng)
  }

  /** A squared distance is never negative, and it is zero exactly between equal coordinates. */
  lemma SqDistanceZero(p: Point, q: Point)
    ensures SqDistance(p, q) >= 0.0
    ensures SqDistance(p, q) == 0.0 <==> p == q
  {
    var a, b := p.lat - q.lat, p.lng - q.lng;
    calc {
      SqDistance(p, q);
    ==
      a * a + b * b;
    >=
      0.0;
    }
    if p != q {
      assert a != 0.0 || b != 0.0;
      calc {
        SqDistance(p, q);
      ==
        a * a + b * b;
      >  { SumOfSquaresPositive(a, b); }
        0.0;
      }
    }
  }

  lemma SumOfSquaresPositive(a: real, b: real)
    requires a != 0.0 || b != 0.0
    ensures a * a + b * b > 0.0
  {
  }

  /** `sqrt` returns the non-negative square root of `x`. */
  predicate SqrtAt(sqrt: real -> real, x: real)
  {
    sqrt(x) >= 0.0 && sqrt(x) * sqrt(x) == x
  }

  /** `sqrt` is the square root everywhere on the non-negative reals. */
  ghost predicate IsSqrt(sqrt: real -> real)
  {
    forall x :: x >= 0.0 ==> SqrtAt(sqrt, x)
  }

  /** `calculateDistance`: the Euclidean distance between two coordinates. */
  function CalculateDistance(p: Point, q: Point, sqrt: real -> real): (d: real)
    requires SqrtAt(sqrt, SqDistance(p, q))
    ensures d >= 0.0 && d * d == SqDistance(p, q)
    ensures d == 0.0 <==> p == q
  {
    var d := sqrt(SqDistance(p, q));
    SqDistanceZero(p, q);
    if d == 0.0 then d
    else
      calc {
        SqDistance(p, q);
      ==
        d * d;
      >  { SumOfSquaresPositive(d, 0.0); }
        0.0;
      }
      d
  }

  /** Square roots are ordered as their squares are, so comparing squared distances picks the same nearest point. */
  lemma RootOrder(sqrt: real -> real, x: real, y: real)
    requires x >= 0.0 && y >= 0.0
    requires SqrtAt(sqrt, x) && SqrtAt(sqrt, y)
    ensures sqrt(x) < sqrt(y) <==> x < y
  {
    var a, b := sqrt(x), sqrt(y);
    if a < b {
      calc {
        x;
      ==
        a * a;
      <=  { MulLeft(a, a, b); }
        a * b;
      ==
        b * a;
      <   { MulLeftStrict(b, a, b); }
        b * b;
      ==
        y;
      }
    } else {
      calc {
        y;
      ==
        b * b;
      <=  { MulLeft(b, b, a); }
        b * a;
      ==
        a * b;
      <=  { MulLeft(a, b, a); }
        a * a;
      ==
        x;
      }
    }
  }

  /** Multiplying by a non-negative factor keeps `<=`. */
  lemma MulLeft(c: real, u: real, v: real)
    requires c >= 0.0 && u <= v
    ensures c * u <= c * v
  {
    assert c * v - c * u == c * (v - u);
  }

  /** Multiplying by a positive factor keeps `<`. */
  lemma MulLeftStrict(c: real, u: real, v: real)
    requires c > 0.0 && u < v
    ensures c * u < c * v
  {
    assert c * v - c * u == c * (v - u);
  }

  /**
   * One straight-line step of length `step` from `p` towards `target`,
   * where `dist` is the distance from `p` to `target` computed, as the
   * motion code does, from `target - p`.
   */
  function Advance(p: Point, target: Point, dist: real, step: real): (r: Point)
    requires dist > 0.0 && 0.0 <= step <= dist
    requires dist * dist == SqDistance(target, p)
    ensures SqDistance(target, r) == (dist - step) * (dist - step)
    ensures SqDistance(r, p) == step * step
  {
    var dLat, dLng := target.lat - p.lat, target.lng - p.lng;
    var r := Point(p.lat + (dLat / dist) * step, p.lng + (dLng / dist) * step);
    var k := (dist - step) / dist;
    var j := step / dist;
    assert target.lat - r.lat == dLat * k;
    assert target.lng - r.lng == dLng * k;
    assert SqDistance(target, r) == (dLat * dLat + dLng * dLng) * (k * k);
    assert dist * k == dist - step;
    assert r.lat - p.lat == dLat * j;
    assert r.lng - p.lng == dLng * j;
    assert SqDistance(r, p) == (dLat * dLat + dLng * dLng) * (j * j);
    assert dist * j == step;
    r
  }

  /** After the step the distance to the target, as `calculateDistance` measures it, is exactly `step` less. */
  lemma AdvanceCloses(p: Point, target: Point, dist: real, step: real, sqrt: real -> real)
    requires dist > 0.0 && 0.0 <= step <= dist
    requires dist * dist == SqDistance(target, p)
    requires SqrtAt(sqrt, SqDistance(target, Advance(p, target, dist, step)))
    ensures CalculateDistance(target, Advance(p, target, dist, step), sqrt) == dist - step
  {
    RootOfSquare(sqrt, SqDistance(target, Advance(p, target, dist, step)), dist - step);
  }

  /** The non-negative root of a square is the number squared. */
  lemma RootOfSquare(sqrt: real -> real, x: real, e: real)
    requires e >= 0.0 && x == e * e && SqrtAt(sqrt, x)
    ensures sqrt(x) == e
  {
    var s := sqrt(x);
    if s < e {
      calc {
        s * s;
      <=
        s * e;
      <
        e * e;
      ==
        s * s;
      }
    } else if e < s {
      calc {
        e * e;
      ==
        s * s;
      >
        s * e;
      >=
        e * e;
      }
    }
  }
}
