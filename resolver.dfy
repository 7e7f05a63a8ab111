/**
 * The pairwise collision pass of each step (project.py:50-53): every pair
 * `i < j` is visited once, in order, and a pair that touches and is closing
 * in exchanges velocities through `VCollision`. Positions do not change
 * during the pass; velocities are updated as soon as a pair fires, so later
 * pairs see the updated values.
 */
module Resolver {
  import opened Reals
  import opened Vectors
  import opened Collision

  /** `mag(pi - pj) < 2*size`, compared squared (see `Vectors.ContactMatchesDistance`). */
  predicate InContact(pi: Vec3, pj: Vec3, size: real) {
    Dot(Sub(pi, pj), Sub(pi, pj)) < (2.0 * size) * (2.0 * size)
  }

  /** `dot(pi - pj, vi - vj) < 0`: the two centres are getting closer. */
  predicate Approaching(pi: Vec3, pj: Vec3, vi: Vec3, vj: Vec3) {
    Dot(Sub(pi, pj), Sub(vi, vj)) < 0.0
  }

  /** Two atoms that are closing in have distinct centres, so the collision formula is defined. */
  lemma ApproachingApart(pi: Vec3, pj: Vec3, vi: Vec3, vj: Vec3)
    requires Approaching(pi, pj, vi, vj)
    ensures pi != pj
  {
  }

  /** The guard of project.py:52 for the pair `(i, j)`. */
  predicate Fires(p: seq<Vec3>, v: seq<Vec3>, size: real, i: int, j: int)
    requires |p| == |v| && 0 <= i < |v| && 0 <= j < |v|
  {
    InContact(p[i], p[j], size) && Approaching(p[i], p[j], v[i], v[j])
  }

  /**
   * One visit of the inner loop: when the guard holds, atoms `i` and `j` get
   * the two results of `VCollision`, both computed from the velocities
   * before the assignment.
   */
  function PairStep(p: seq<Vec3>, v: seq<Vec3>, m: real, size: real, i: int, j: int): (r: seq<Vec3>)
    requires |p| == |v| && 0 <= i < j < |v|
    requires m > 0.0
    ensures |r| == |v|
  {
    if Fires(p, v, size, i, j) then
      ApproachingApart(p[i], p[j], v[i], v[j]);
      var w := VCollision(m, p[i], v[i], m, p[j], v[j]);
      v[i := w.0][j := w.1]
    else
      v
  }

  /**
   * The nested loop `for i in range(N-1): for j in range(i+1, N)` from the
   * visit of pair `(i, j)` onwards.
   */
  function Sweep(p: seq<Vec3>, v: seq<Vec3>, m: real, size: real, i: int, j: int): (r: seq<Vec3>)
    requires |p| == |v| && 0 <= i < j
    requires m > 0.0
    ensures |r| == |v|
    decreases |v| - i, |v| - j
  {
    if i + 1 >= |v| then v
    else if j >= |v| then Sweep(p, v, m, size, i + 1, i + 2)
    else Sweep(p, PairStep(p, v, m, size, i, j), m, size, i, j + 1)
  }

  /** The whole collision pass of one step. */
  function Resolve(p: seq<Vec3>, v: seq<Vec3>, m: real, size: real): (r: seq<Vec3>)
    requires |p| == |v| && m > 0.0
    ensures |r| == |v|
  {
    Sweep(p, v, m, size, 0, 1)
  }

  /** Sum of all velocities; total momentum is `m` times this, the mass being common to all atoms. */
  function VSum(v: seq<Vec3>): Vec3 {
    if |v| == 0 then Zero else Add(v[0], VSum(v[1..]))
  }

  /** Sum of all squared speeds; total kinetic energy is `m/2` times this. */
  function SquaredSpeeds(v: seq<Vec3>): real {
    if |v| == 0 then 0.0 else Dot(v[0], v[0]) + SquaredSpeeds(v[1..])
  }

  lemma {:induction false} VSumUpdate(v: seq<Vec3>, i: int, a: Vec3)
    requires 0 <= i < |v|
    ensures VSum(v[i := a]) == Add(Sub(VSum(v), v[i]), a)
  {
    if i == 0 {
      assert v[i := a][1..] == v[1..];
    } else {
      assert v[i := a][1..] == v[1..][i - 1 := a];
      VSumUpdate(v[1..], i - 1, a);
    }
  }

  lemma {:induction false} SquaredSpeedsUpdate(v: seq<Vec3>, i: int, a: Vec3)
    requires 0 <= i < |v|
    ensures SquaredSpeeds(v[i := a]) == SquaredSpeeds(v) - Dot(v[i], v[i]) + Dot(a, a)
  {
    if i == 0 {
      assert v[i := a][1..] == v[1..];
    } else {
      assert v[i := a][1..] == v[1..][i - 1 := a];
      SquaredSpeedsUpdate(v[1..], i - 1, a);
    }
  }

  /** Only atoms `i` and `j` can change in one visit. */
  lemma PairStepFrame(p: seq<Vec3>, v: seq<Vec3>, m: real, size: real, i: int, j: int, k: int)
    requires |p| == |v| && 0 <= i < j < |v| && m > 0.0
    requires 0 <= k < |v| && k != i && k != j
    ensures PairStep(p, v, m, size, i, j)[k] == v[k]
  {
  }

  /** A visit keeps total momentum. */
  lemma PairStepKeepsMomentum(p: seq<Vec3>, v: seq<Vec3>, m: real, size: real, i: int, j: int)
    requires |p| == |v| && 0 <= i < j < |v| && m > 0.0
    ensures VSum(PairStep(p, v, m, size, i, j)) == VSum(v)
  {
    if Fires(p, v, size, i, j) {
      var w := VCollision(m, p[i], v[i], m, p[j], v[j]);
      VSumUpdate(v, i, w.0);
      VSumUpdate(v[i := w.0], j, w.1);
      EqualMassKeepsVelocitySum(m, p[i], v[i], p[j], v[j]);
      PairSum(VSum(v), v[i], v[j], w.0, w.1);
    }
  }

  /** Replacing two summands whose sum is unchanged leaves the total unchanged. */
  lemma PairSum(s: Vec3, a: Vec3, b: Vec3, a': Vec3, b': Vec3)
    requires Add(a', b') == Add(a, b)
    ensures Add(Sub(Add(Sub(s, a), a'), b), b') == s
  {
  }

  /** A visit keeps total kinetic energy. */
  lemma PairStepKeepsEnergy(p: seq<Vec3>, v: seq<Vec3>, m: real, size: real, i: int, j: int)
    requires |p| == |v| && 0 <= i < j < |v| && m > 0.0
    ensures SquaredSpeeds(PairStep(p, v, m, size, i, j)) == SquaredSpeeds(v)
  {
    if Fires(p, v, size, i, j) {
      var w := VCollision(m, p[i], v[i], m, p[j], v[j]);
      SquaredSpeedsUpdate(v, i, w.0);
      SquaredSpeedsUpdate(v[i := w.0], j, w.1);
      EqualMassKeepsSquaredSpeeds(m, p[i], v[i], p[j], v[j]);
    }
  }

  /**
   * A pair that fires is separating right after its visit, on the same
   * positions. Later pairs of the pass, the walls or the next step can turn
   * either atom back while the two still overlap, and the pair then fires again.
   */
  lemma PairStepSeparates(p: seq<Vec3>, v: seq<Vec3>, m: real, size: real, i: int, j: int)
    requires |p| == |v| && 0 <= i < j < |v| && m > 0.0
    requires Fires(p, v, size, i, j)
    ensures
      var r := PairStep(p, v, m, size, i, j);
      !Approaching(p[i], p[j], r[i], r[j])
  {
    ApproachingApart(p[i], p[j], v[i], v[j]);
    ReversesApproach(m, p[i], v[i], m, p[j], v[j]);
  }

  /** A pair whose guard fails leaves every velocity as it was. */
  lemma PairStepQuiet(p: seq<Vec3>, v: seq<Vec3>, m: real, size: real, i: int, j: int)
    requires |p| == |v| && 0 <= i < j < |v| && m > 0.0
    requires !Fires(p, v, size, i, j)
    ensures PairStep(p, v, m, size, i, j) == v
  {
  }

  /** The collision pass keeps total momentum. */
  lemma {:induction false} SweepKeepsMomentum(p: seq<Vec3>, v: seq<Vec3>, m: real, size: real, i: int, j: int)
    requires |p| == |v| && 0 <= i < j && m > 0.0
    ensures VSum(Sweep(p, v, m, size, i, j)) == VSum(v)
    decreases |v| - i, |v| - j
  {
    if i + 1 >= |v| {
    } else if j >= |v| {
      SweepKeepsMomentum(p, v, m, size, i + 1, i + 2);
    } else {
      PairStepKeepsMomentum(p, v, m, size, i, j);
      SweepKeepsMomentum(p, PairStep(p, v, m, size, i, j), m, size, i, j + 1);
    }
  }

  /** The collision pass keeps total kinetic energy. */
  lemma {:induction false} SweepKeepsEnergy(p: seq<Vec3>, v: seq<Vec3>, m: real, size: real, i: int, j: int)
    requires |p| == |v| && 0 <= i < j && m > 0.0
    ensures SquaredSpeeds(Sweep(p, v, m, size, i, j)) == SquaredSpeeds(v)
    decreases |v| - i, |v| - j
  {
    if i + 1 >= |v| {
    } else if j >= |v| {
      SweepKeepsEnergy(p, v, m, size, i + 1, i + 2);
    } else {
      PairStepKeepsEnergy(p, v, m, size, i, j);
      SweepKeepsEnergy(p, PairStep(p, v, m, size, i, j), m, size, i, j + 1);
    }
  }

  /** No two atoms in contact: the pass changes nothing. */
  lemma {:induction false} SweepApartQuiet(p: seq<Vec3>, v: seq<Vec3>, m: real, size: real, i: int, j: int)
    requires |p| == |v| && 0 <= i < j && m > 0.0
    requires forall a, b :: 0 <= a < b < |p| ==> !InContact(p[a], p[b], size)
    ensures Sweep(p, v, m, size, i, j) == v
    decreases |v| - i, |v| - j
  {
    if i + 1 >= |v| {
    } else if j >= |v| {
      SweepApartQuiet(p, v, m, size, i + 1, i + 2);
    } else {
      PairStepQuiet(p, v, m, size, i, j);
      SweepApartQuiet(p, v, m, size, i, j + 1);
    }
  }

  /**
   * Two equal atoms touching and meeting head-on swap velocities in one
   * collision pass.
   */
  lemma TwoAtomsHeadOn(p1: Vec3, p2: Vec3, m: real, size: real, a: real, b: real)
    requires m > 0.0
    requires InContact(p1, p2, size)
    requires p1 != p2 && a < b
    ensures
      var r := Sub(p1, p2);
      Resolve([p1, p2], [Scale(r, a), Scale(r, b)], m, size) == [Scale(r, b), Scale(r, a)]
  {
    var r := Sub(p1, p2);
    var p, v := [p1, p2], [Scale(r, a), Scale(r, b)];
    assert Approaching(p1, p2, v[0], v[1]) by {
      DistinctPointsApart(p1, p2);
      AlongLine(r, a, b);
      DotComm(r, Sub(v[0], v[1]));
      NegTimesPos(a - b, Dot(r, r));
    }
    var w := [Scale(r, b), Scale(r, a)];
    assert PairStep(p, v, m, size, 0, 1) == w by {
      EqualMassHeadOnSwaps(m, p1, p2, a, b);
    }
    calc {
      Resolve(p, v, m, size);
    ==
      Sweep(p, w, m, size, 0, 2);
    ==
      Sweep(p, w, m, size, 1, 2);
    ==
      w;
    }
  }
}
