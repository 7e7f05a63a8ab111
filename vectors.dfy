/**
 * Three-dimensional vectors over the reals, standing for VPython's `vector`
 * (positions and velocities of the atoms), and the integrator's drift step.
 */
module Vectors {
  import opened Reals

  datatype Vec3 = Vec3(x: real, y: real, z: real)

  const Zero: Vec3 := Vec3(0.0, 0.0, 0.0)

  function Add(a: Vec3, b: Vec3): Vec3 {
    Vec3(a.x + b.x, a.y + b.y, a.z + b.z)
  }

  function Sub(a: Vec3, b: Vec3): Vec3 {
    Vec3(a.x - b.x, a.y - b.y, a.z - b.z)
  }

  function Neg(a: Vec3): Vec3 {
    Vec3(-a.x, -a.y, -a.z)
  }

  /** `a * c` in the source: every component multiplied by the scalar `c`. */
  function Scale(a: Vec3, c: real): Vec3 {
    Vec3(c * a.x, c * a.y, c * a.z)
  }

  /** Inner product; `Dot(a, a)` is `mag(a) ** 2` written without the square root. */
  function Dot(a: Vec3, b: Vec3): real {
    a.x * b.x + a.y * b.y + a.z * b.z
  }


  /** A squared length is never negative. */
  lemma NormSqNonNeg(a: Vec3)
    ensures Dot(a, a) >= 0.0
  {
    calc {
      Dot(a, a);
    ==
      a.x * a.x + a.y * a.y + a.z * a.z;
    >= { SumSquaresNonNeg(a.x, a.y, a.z); }
      0.0;
    }
  }

  /** A non-zero vector has a positive squared length. */
  lemma NormSqPos(a: Vec3)
    requires a != Zero
    ensures Dot(a, a) > 0.0
  {
    assert a.x != 0.0 || a.y != 0.0 || a.z != 0.0;
    calc {
      Dot(a, a);
    ==
      a.x * a.x + a.y * a.y + a.z * a.z;
    > { SumSquaresPos(a.x, a.y, a.z); }
      0.0;
    }
  }

  /** Two different points are a positive squared distance apart. */
  lemma DistinctPointsApart(p: Vec3, q: Vec3)
    requires p != q
    ensures Dot(Sub(p, q), Sub(p, q)) > 0.0
  {
    assert p.x != q.x || p.y != q.y || p.z != q.z;
    NormSqPos(Sub(p, q));
  }

  /**
   * The contact test `mag(r) < 2*size` of the source agrees with the
   * squared comparison used in this model: for the length `d` of `r`
   * (the non-negative root of its squared length) and a positive radius.
   */
  lemma ContactMatchesDistance(r: Vec3, d: real, size: real)
    requires d >= 0.0 && d * d == Dot(r, r)
    requires size > 0.0
    ensures d < 2.0 * size <==> Dot(r, r) < (2.0 * size) * (2.0 * size)
  {
    if d < 2.0 * size {
      SquareMonotone(d, 2.0 * size);
    } else if 2.0 * size < d {
      SquareMonotone(2.0 * size, d);
    }
  }

  /** Component `|a - c r|^2` expanded: used for the energy balance of collisions. */
  lemma NormSqSubScale(a: Vec3, r: Vec3, c: real)
    ensures Dot(Sub(a, Scale(r, c)), Sub(a, Scale(r, c))) == Dot(a, a) - 2.0 * c * Dot(a, r) + c * c * Dot(r, r)
  {
  }

  lemma NormSqAddScale(a: Vec3, r: Vec3, c: real)
    ensures Dot(Add(a, Scale(r, c)), Add(a, Scale(r, c))) == Dot(a, a) + 2.0 * c * Dot(a, r) + c * c * Dot(r, r)
  {
  }

  lemma SubSwap(a: Vec3, b: Vec3)
    ensures Sub(b, a) == Neg(Sub(a, b))
  {
  }

  lemma DotNegNeg(a: Vec3, b: Vec3)
    ensures Dot(Neg(a), Neg(b)) == Dot(a, b)
  {
  }

  lemma DotComm(a: Vec3, b: Vec3)
    ensures Dot(a, b) == Dot(b, a)
  {
  }

  lemma DotSubLeft(a: Vec3, b: Vec3, w: Vec3)
    ensures Dot(Sub(a, b), w) == Dot(a, w) - Dot(b, w)
  {
  }

  lemma DotScaleLeft(a: Vec3, c: real, w: Vec3)
    ensures Dot(Scale(a, c), w) == c * Dot(a, w)
  {
  }

  lemma DotSubScale(a: Vec3, r: Vec3, c: real, w: Vec3)
    ensures Dot(Sub(a, Scale(r, c)), w) == Dot(a, w) - c * Dot(r, w)
  {
  }

  lemma DotAddScale(a: Vec3, r: Vec3, c: real, w: Vec3)
    ensures Dot(Add(a, Scale(r, c)), w) == Dot(a, w) + c * Dot(r, w)
  {
  }

  lemma DotSubScaleOrthogonal(a: Vec3, r: Vec3, c: real, w: Vec3)
    requires Dot(r, w) == 0.0
    ensures Dot(Sub(a, Scale(r, c)), w) == Dot(a, w)
  {
    DotSubScale(a, r, c, w);
  }

  lemma DotAddScaleOrthogonal(a: Vec3, r: Vec3, c: real, w: Vec3)
    requires Dot(r, w) == 0.0
    ensures Dot(Add(a, Scale(r, c)), w) == Dot(a, w)
  {
    DotAddScale(a, r, c, w);
  }

  lemma SubScaleNeg(a: Vec3, r: Vec3, c: real)
    ensures Sub(a, Scale(Neg(r), c)) == Add(a, Scale(r, c))
  {
  }

  lemma SubScales(r: Vec3, a: Vec3, b: real, c: real)
    requires a == Scale(r, b)
    ensures Sub(a, Scale(r, c)) == Scale(r, b - c)
  {
  }

  lemma AddScales(r: Vec3, a: Vec3, b: real, c: real)
    requires a == Scale(r, b)
    ensures Add(a, Scale(r, c)) == Scale(r, b + c)
  {
  }

  lemma SubOfDifferences(a: Vec3, b: Vec3, r: Vec3, c1: real, c2: real)
    ensures Sub(Sub(a, Scale(r, c1)), Add(b, Scale(r, c2))) == Sub(Sub(a, b), Scale(r, c1 + c2))
  {
  }

  /**
   * Integrator (project.py:47-48): every position advanced by its velocity
   * times the time step, `pos += v*dt`.
   */
  function Drift(ps: seq<Vec3>, vs: seq<Vec3>, dt: real): (r: seq<Vec3>)
    requires |ps| == |vs|
    ensures |r| == |ps|
  {
    seq(|ps|, k requires 0 <= k < |ps| => Add(ps[k], Scale(vs[k], dt)))
  }

  /** Drifting backwards by the same step undoes a drift: the integrator is reversible. */
  lemma DriftReversible(ps: seq<Vec3>, vs: seq<Vec3>, dt: real)
    requires |ps| == |vs|
    ensures Drift(Drift(ps, vs, dt), vs, -dt) == ps
  {
    var back := Drift(Drift(ps, vs, dt), vs, -dt);
    forall k | 0 <= k < |ps|
      ensures back[k] == ps[k]
    {
      var a := Drift(ps, vs, dt)[k];
      assert a == Add(ps[k], Scale(vs[k], dt));
      assert back[k] == Add(a, Scale(vs[k], -dt));
    }
  }

  /** Drifting by `dt1` then `dt2` with unchanged velocities drifts by `dt1 + dt2`. */
  lemma DriftComposes(ps: seq<Vec3>, vs: seq<Vec3>, dt1: real, dt2: real)
    requires |ps| == |vs|
    ensures Drift(Drift(ps, vs, dt1), vs, dt2) == Drift(ps, vs, dt1 + dt2)
  {
    var two := Drift(Drift(ps, vs, dt1), vs, dt2);
    forall k | 0 <= k < |ps|
      ensures two[k] == Drift(ps, vs, dt1 + dt2)[k]
    {
      var a := Drift(ps, vs, dt1)[k];
      assert a == Add(ps[k], Scale(vs[k], dt1));
      assert two[k] == Add(a, Scale(vs[k], dt2));
    }
  }
}
