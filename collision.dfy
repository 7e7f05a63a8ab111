/**
 * The closed-form elastic collision of two spheres along the line of their
 * centres (`vcollision`, project.py:37-40), and the conservation laws it obeys.
 */
module Collision {
  import opened Reals
  import opened Vectors

  /**
   * The scalar factor of the source's formula for one atom,
   * `2 m2/(m1+m2) * <v1-v2, r> / |r|^2`, formed as a scalar before it scales
   * `r` (the source scales `r` first and divides by `mag(r) ** 2`; the two are
   * equal over the reals); `d` is the dot product and `n` the squared distance.
   */
  function Coefficient(m1: real, m2: real, d: real, n: real): real
    requires m1 + m2 != 0.0 && n != 0.0
  {
    2.0 * m2 / (m1 + m2) * d / n
  }

  /**
   * New velocities of two colliding atoms, both computed from the same
   * pre-collision positions `p1`, `p2` and velocities `v1`, `v2`:
   *   v1' = v1 - 2 m2/(m1+m2) (p1-p2) <v1-v2, p1-p2> / |p1-p2|^2
   *   v2' = v2 - 2 m1/(m1+m2) (p2-p1) <v2-v1, p2-p1> / |p2-p1|^2
   * The source divides by `m1 + m2` and by `mag(p1 - p2) ** 2`, so coincident
   * centres are outside its domain (its caller never passes them).
   */
  function VCollision(m1: real, p1: Vec3, v1: Vec3, m2: real, p2: Vec3, v2: Vec3): (r: (Vec3, Vec3))
    requires m1 + m2 != 0.0
    requires p1 != p2
  {
    DistinctPointsApart(p1, p2);
    DistinctPointsApart(p2, p1);
    var r1 := Sub(p1, p2);
    var r2 := Sub(p2, p1);
    (Sub(v1, Scale(r1, Coefficient(m1, m2, Dot(Sub(v1, v2), r1), Dot(r1, r1)))),
     Sub(v2, Scale(r2, Coefficient(m2, m1, Dot(Sub(v2, v1), r2), Dot(r2, r2)))))
  }

  /** The source's factor is the other atom's mass times `2 d / ((m1+m2) n)`. */
  lemma CoefficientIsImpulse(m1: real, m2: real, d: real, n: real)
    requires m1 + m2 != 0.0 && n != 0.0
    ensures Coefficient(m1, m2, d, n) == m2 * (2.0 * d / ((m1 + m2) * n))
  {
  }

  /** The impulse factor `k = 2 d / (s n)` is the number with `k s n == 2 d`. */
  lemma ImpulseFactor(d: real, s: real, n: real) returns (k: real)
    requires s != 0.0 && n != 0.0
    ensures k == 2.0 * d / (s * n)
    ensures k * (s * n) == 2.0 * d
  {
    NonZeroProduct(s, n);
    k := 2.0 * d / (s * n);
    DivMul(2.0 * d, s * n);
  }

  /** Atom 1's new velocity is `v1 - m2 k (p1 - p2)`. */
  lemma FirstNormal(m1: real, p1: Vec3, v1: Vec3, m2: real, p2: Vec3, v2: Vec3, k: real)
    requires m1 + m2 != 0.0
    requires p1 != p2
    requires Dot(Sub(p1, p2), Sub(p1, p2)) != 0.0
    requires k == 2.0 * Dot(Sub(v1, v2), Sub(p1, p2)) / ((m1 + m2) * Dot(Sub(p1, p2), Sub(p1, p2)))
    ensures VCollision(m1, p1, v1, m2, p2, v2).0 == Sub(v1, Scale(Sub(p1, p2), m2 * k))
  {
    var r1 := Sub(p1, p2);
    var d, n := Dot(Sub(v1, v2), r1), Dot(r1, r1);
    assert Coefficient(m1, m2, d, n) == m2 * k by {
      CoefficientIsImpulse(m1, m2, d, n);
    }
  }

  /** Atom 2's new velocity, written from its own side, is `v2 + m1 k (p1 - p2)`. */
  lemma SecondNormal(m1: real, p1: Vec3, v1: Vec3, m2: real, p2: Vec3, v2: Vec3, k: real)
    requires m1 + m2 != 0.0
    requires p1 != p2
    requires Dot(Sub(p1, p2), Sub(p1, p2)) != 0.0
    requires k == 2.0 * Dot(Sub(v1, v2), Sub(p1, p2)) / ((m1 + m2) * Dot(Sub(p1, p2), Sub(p1, p2)))
    ensures VCollision(m1, p1, v1, m2, p2, v2).1 == Add(v2, Scale(Sub(p1, p2), m1 * k))
  {
    var r1, r2 := Sub(p1, p2), Sub(p2, p1);
    var d, n := Dot(Sub(v1, v2), r1), Dot(r1, r1);
    assert Dot(r2, r2) == n && Dot(Sub(v2, v1), r2) == d by {
      SubSwap(p1, p2);
      SubSwap(v1, v2);
      DotNegNeg(Sub(v1, v2), r1);
      DotNegNeg(r1, r1);
    }
    assert Coefficient(m2, m1, d, n) == m1 * k by {
      CoefficientIsImpulse(m2, m1, d, n);
      assert m2 + m1 == m1 + m2;
    }
    calc {
      VCollision(m1, p1, v1, m2, p2, v2).1;
    ==
      Sub(v2, Scale(r2, Coefficient(m2, m1, d, n)));
    == { SubSwap(p1, p2); }
      Sub(v2, Scale(Neg(r1), m1 * k));
    == { SubScaleNeg(v2, r1, m1 * k); }
      Add(v2, Scale(r1, m1 * k));
    }
  }

  /**
   * The collision in normal form: for the impulse `k` with
   * `k (m1+m2) |p1-p2|^2 == 2 <v1-v2, p1-p2>`, atom 1 loses `m2 k (p1-p2)`
   * and atom 2 gains `m1 k (p1-p2)`.
   */
  lemma NormalForm(m1: real, p1: Vec3, v1: Vec3, m2: real, p2: Vec3, v2: Vec3) returns (k: real)
    requires m1 + m2 != 0.0
    requires p1 != p2
    ensures k * ((m1 + m2) * Dot(Sub(p1, p2), Sub(p1, p2))) == 2.0 * Dot(Sub(v1, v2), Sub(p1, p2))
    ensures VCollision(m1, p1, v1, m2, p2, v2).0 == Sub(v1, Scale(Sub(p1, p2), m2 * k))
    ensures VCollision(m1, p1, v1, m2, p2, v2).1 == Add(v2, Scale(Sub(p1, p2), m1 * k))
  {
    var r := Sub(p1, p2);
    var d, n := Dot(Sub(v1, v2), r), Dot(r, r);
    DistinctPointsApart(p1, p2);
    k := ImpulseFactor(d, m1 + m2, n);
    FirstNormal(m1, p1, v1, m2, p2, v2, k);
    SecondNormal(m1, p1, v1, m2, p2, v2, k);
  }

  /** Exchanging `m2 k r` and `m1 k r` in opposite directions keeps total momentum. */
  lemma MomentumBalance(m1: real, v1: Vec3, m2: real, v2: Vec3, r: Vec3, k: real)
    ensures Add(Scale(Sub(v1, Scale(r, m2 * k)), m1), Scale(Add(v2, Scale(r, m1 * k)), m2))
         == Add(Scale(v1, m1), Scale(v2, m2))
  {
    var c1, c2 := m2 * k, m1 * k;
    var u1, u2 := Sub(v1, Scale(r, c1)), Add(v2, Scale(r, c2));
    ComponentBalance(m1, m2, k, c1, c2, v1.x, v2.x, r.x, u1.x, u2.x);
    ComponentBalance(m1, m2, k, c1, c2, v1.y, v2.y, r.y, u1.y, u2.y);
    ComponentBalance(m1, m2, k, c1, c2, v1.z, v2.z, r.z, u1.z, u2.z);
  }

  /** One component of the momentum balance, for `e1 = a - c1 r` and `e2 = b + c2 r`. */
  lemma ComponentBalance(m1: real, m2: real, k: real, c1: real, c2: real,
                         a: real, b: real, r: real, e1: real, e2: real)
    requires c1 == m2 * k && c2 == m1 * k
    requires e1 == a - c1 * r && e2 == b + c2 * r
    ensures m1 * e1 + m2 * e2 == m1 * a + m2 * b
  {
  }

  /** Total momentum `m1 v1 + m2 v2` is the same after the collision. */
  lemma ConservesMomentum(m1: real, p1: Vec3, v1: Vec3, m2: real, p2: Vec3, v2: Vec3)
    requires m1 + m2 != 0.0
    requires p1 != p2
    ensures
      var v' := VCollision(m1, p1, v1, m2, p2, v2);
      Add(Scale(v'.0, m1), Scale(v'.1, m2)) == Add(Scale(v1, m1), Scale(v2, m2))
  {
    var k := NormalForm(m1, p1, v1, m2, p2, v2);
    MomentumBalance(m1, v1, m2, v2, Sub(p1, p2), k);
  }

  /** Total kinetic energy `m1 |v1|^2 + m2 |v2|^2` is the same after the collision. */
  lemma ConservesEnergy(m1: real, p1: Vec3, v1: Vec3, m2: real, p2: Vec3, v2: Vec3)
    requires m1 + m2 != 0.0
    requires p1 != p2
    ensures
      var v' := VCollision(m1, p1, v1, m2, p2, v2);
      m1 * Dot(v'.0, v'.0) + m2 * Dot(v'.1, v'.1) == m1 * Dot(v1, v1) + m2 * Dot(v2, v2)
  {
    var k := NormalForm(m1, p1, v1, m2, p2, v2);
    ExchangeKeepsEnergy(m1, v1, m2, v2, Sub(p1, p2), k);
  }

  /** Exchanging momentum along `r` with `k (m1+m2) |r|^2 == 2 <v1-v2, r>` keeps energy. */
  lemma ExchangeKeepsEnergy(m1: real, v1: Vec3, m2: real, v2: Vec3, r: Vec3, k: real)
    requires k * ((m1 + m2) * Dot(r, r)) == 2.0 * Dot(Sub(v1, v2), r)
    ensures m1 * Dot(Sub(v1, Scale(r, m2 * k)), Sub(v1, Scale(r, m2 * k)))
          + m2 * Dot(Add(v2, Scale(r, m1 * k)), Add(v2, Scale(r, m1 * k)))
         == m1 * Dot(v1, v1) + m2 * Dot(v2, v2)
  {
    var c1, c2 := m2 * k, m1 * k;
    var u1, u2 := Sub(v1, Scale(r, c1)), Add(v2, Scale(r, c2));
    DotSubLeft(v1, v2, r);
    NormSqSubScale(v1, r, c1);
    NormSqAddScale(v2, r, c2);
    EnergyBalance(m1, m2, k, c1, c2, Dot(v1, v1), Dot(v2, v2), Dot(v1, r), Dot(v2, r), Dot(r, r),
                  Dot(u1, u1), Dot(u2, u2));
  }

  /**
   * The scalar identity behind energy conservation: with `ar = <v1, r>`,
   * `br = <v2, r>`, `c1 = m2 k`, `c2 = m1 k` and `k (m1+m2) n == 2 (ar - br)`,
   * the energy lost by one atom is gained by the other.
   */
  lemma EnergyBalance(m1: real, m2: real, k: real, c1: real, c2: real,
                      a: real, b: real, ar: real, br: real, n: real, e1: real, e2: real)
    requires c1 == m2 * k && c2 == m1 * k
    requires k * ((m1 + m2) * n) == 2.0 * (ar - br)
    requires e1 == a - 2.0 * c1 * ar + c1 * c1 * n
    requires e2 == b + 2.0 * c2 * br + c2 * c2 * n
    ensures m1 * e1 + m2 * e2 == m1 * a + m2 * b
  {
    var z := k * ((m1 + m2) * n) - 2.0 * (ar - br);
    calc {
      m1 * e1 + m2 * e2;
    ==
      m1 * (a - 2.0 * c1 * ar + c1 * c1 * n) + m2 * (b + 2.0 * c2 * br + c2 * c2 * n);
    ==
      m1 * (a - 2.0 * (m2 * k) * ar + (m2 * k) * (m2 * k) * n)
        + m2 * (b + 2.0 * (m1 * k) * br + (m1 * k) * (m1 * k) * n);
    ==
      m1 * a + m2 * b + (m1 * m2 * k) * z;
    == { MulZero(m1 * m2 * k, z); }
      m1 * a + m2 * b;
    }
  }

  /**
   * After a collision the pair separates exactly as fast as it approached:
   * the relative velocity along the line of centres is reversed.
   */
  lemma ReversesApproach(m1: real, p1: Vec3, v1: Vec3, m2: real, p2: Vec3, v2: Vec3)
    requires m1 + m2 != 0.0
    requires p1 != p2
    ensures
      var v' := VCollision(m1, p1, v1, m2, p2, v2);
      Dot(Sub(p1, p2), Sub(v'.0, v'.1)) == -Dot(Sub(p1, p2), Sub(v1, v2))
  {
    var k := NormalForm(m1, p1, v1, m2, p2, v2);
    ExchangeReverses(m1, v1, m2, v2, Sub(p1, p2), k);
  }

  lemma ExchangeReverses(m1: real, v1: Vec3, m2: real, v2: Vec3, r: Vec3, k: real)
    requires k * ((m1 + m2) * Dot(r, r)) == 2.0 * Dot(Sub(v1, v2), r)
    ensures Dot(r, Sub(Sub(v1, Scale(r, m2 * k)), Add(v2, Scale(r, m1 * k)))) == -Dot(r, Sub(v1, v2))
  {
    var v1', v2' := Sub(v1, Scale(r, m2 * k)), Add(v2, Scale(r, m1 * k));
    var c := m2 * k + m1 * k;
    calc {
      Dot(r, Sub(v1', v2'));
    == { DotComm(r, Sub(v1', v2')); }
      Dot(Sub(v1', v2'), r);
    == { SubOfDifferences(v1, v2, r, m2 * k, m1 * k); }
      Dot(Sub(Sub(v1, v2), Scale(r, c)), r);
    == { DotSubScale(Sub(v1, v2), r, c, r); }
      Dot(Sub(v1, v2), r) - c * Dot(r, r);
    == { SumRearrange(m1, m2, k, Dot(r, r)); }
      Dot(Sub(v1, v2), r) - k * ((m1 + m2) * Dot(r, r));
    ==
      Dot(Sub(v1, v2), r) - 2.0 * Dot(Sub(v1, v2), r);
    == { DotComm(r, Sub(v1, v2)); }
      -Dot(r, Sub(v1, v2));
    }
  }

  lemma SumRearrange(m1: real, m2: real, k: real, n: real)
    ensures (m2 * k + m1 * k) * n == k * ((m1 + m2) * n)
  {
  }

  /**
   * Velocity components perpendicular to the line of centres are left
   * untouched: only the normal component is exchanged.
   */
  lemma KeepsTangential(m1: real, p1: Vec3, v1: Vec3, m2: real, p2: Vec3, v2: Vec3, w: Vec3)
    requires m1 + m2 != 0.0
    requires p1 != p2
    requires Dot(w, Sub(p1, p2)) == 0.0
    ensures
      var v' := VCollision(m1, p1, v1, m2, p2, v2);
      Dot(v'.0, w) == Dot(v1, w) && Dot(v'.1, w) == Dot(v2, w)
  {
    var k := NormalForm(m1, p1, v1, m2, p2, v2);
    var r := Sub(p1, p2);
    DotComm(w, r);
    DotSubScaleOrthogonal(v1, r, m2 * k, w);
    DotAddScaleOrthogonal(v2, r, m1 * k, w);
  }

  /**
   * Equal masses meeting head-on (both velocities along the line of centres)
   * simply swap velocities.
   */
  lemma EqualMassHeadOnSwaps(m: real, p1: Vec3, p2: Vec3, a: real, b: real)
    requires m != 0.0
    requires p1 != p2
    ensures
      var r := Sub(p1, p2);
      VCollision(m, p1, Scale(r, a), m, p2, Scale(r, b)) == (Scale(r, b), Scale(r, a))
  {
    var r := Sub(p1, p2);
    var k := NormalForm(m, p1, Scale(r, a), m, p2, Scale(r, b));
    DistinctPointsApart(p1, p2);
    AlongLine(r, a, b);
    HeadOnImpulse(m, a, b, k, Dot(r, r));
    ExchangeSwaps(r, a, b, m * k);
  }

  /** Two velocities along `r` differ by `(a - b) r`, whose component along `r` is `(a - b) |r|^2`. */
  lemma AlongLine(r: Vec3, a: real, b: real)
    ensures Dot(Sub(Scale(r, a), Scale(r, b)), r) == (a - b) * Dot(r, r)
  {
    SubScales(r, Scale(r, a), a, b);
    DotScaleLeft(r, a - b, r);
  }

  /** With equal masses and `k (m+m) n == 2 (a - b) n`, the exchanged `m k` is `a - b`. */
  lemma HeadOnImpulse(m: real, a: real, b: real, k: real, n: real)
    requires m != 0.0 && n != 0.0
    requires k * ((m + m) * n) == 2.0 * ((a - b) * n)
    ensures m * k == a - b
  {
    assert (m * k) * (2.0 * n) == (a - b) * (2.0 * n);
    CancelRight(m * k, a - b, 2.0 * n);
  }

  /** Exchanging `a - b` along `r` turns `(a r, b r)` into `(b r, a r)`. */
  lemma ExchangeSwaps(r: Vec3, a: real, b: real, c: real)
    requires c == a - b
    ensures (Sub(Scale(r, a), Scale(r, c)), Add(Scale(r, b), Scale(r, c))) == (Scale(r, b), Scale(r, a))
  {
    SubScales(r, Scale(r, a), a, c);
    AddScales(r, Scale(r, b), b, c);
  }

  /** With equal masses the sum of the two velocities is kept. */
  lemma EqualMassKeepsVelocitySum(m: real, p1: Vec3, v1: Vec3, p2: Vec3, v2: Vec3)
    requires m != 0.0
    requires p1 != p2
    ensures
      var v' := VCollision(m, p1, v1, m, p2, v2);
      Add(v'.0, v'.1) == Add(v1, v2)
  {
    var k := NormalForm(m, p1, v1, m, p2, v2);
    ExchangeKeepsSum(v1, v2, Sub(p1, p2), m * k);
  }

  lemma ExchangeKeepsSum(v1: Vec3, v2: Vec3, r: Vec3, c: real)
    ensures Add(Sub(v1, Scale(r, c)), Add(v2, Scale(r, c))) == Add(v1, v2)
  {
  }

  /** With equal masses the sum of the two squared speeds is kept. */
  lemma EqualMassKeepsSquaredSpeeds(m: real, p1: Vec3, v1: Vec3, p2: Vec3, v2: Vec3)
    requires m != 0.0
    requires p1 != p2
    ensures
      var v' := VCollision(m, p1, v1, m, p2, v2);
      Dot(v'.0, v'.0) + Dot(v'.1, v'.1) == Dot(v1, v1) + Dot(v2, v2)
  {
    var v' := VCollision(m, p1, v1, m, p2, v2);
    ConservesEnergy(m, p1, v1, m, p2, v2);
    CancelCommonFactor(m, Dot(v'.0, v'.0), Dot(v'.1, v'.1), Dot(v1, v1), Dot(v2, v2));
  }
}
