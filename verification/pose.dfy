/** The pose legality check: a camera-to-world transform, stored as 16
    row-major single-precision entries, is legal iff its homogeneous row
    (flat offsets 12 to 15) compares equal to 0, 0, 0, 1. */
module Pose {

  /** A floating-point value as the checker's `!=` comparisons see it. The two
      zeros are not distinguished because IEEE 754 equality treats them as equal;
      NaN is kept because it is unequal to everything, itself included. */
  datatype Float = Finite(value: real) | Infinite(negative: bool) | NaN

  /** IEEE 754 equality, the relation behind the source's `!=`. */
  predicate FloatEq(a: Float, b: Float)
  {
    match a
    case Finite(x) => b.Finite? && b.value == x
    case Infinite(n) => b.Infinite? && b.negative == n
    case NaN => false
  }

  /** The 4x4 identity transform in row-major order. */
  const Identity: seq<Float> := seq(16, i => if i % 5 == 0 then Finite(1.0) else Finite(0.0))

  /** A 4x4 matrix in row-major order. */
  type Matrix = m: seq<Float> | |m| == 16 witness Identity

  /** The row a legal affine transform must end with. */
  const HomogeneousRow: seq<Float> := [Finite(0.0), Finite(0.0), Finite(0.0), Finite(1.0)]

  /** The illegal-pose test of the frame loop: any of the four homogeneous
      entries compares unequal to its expected value, with no tolerance. */
  function IsIllegal(m: Matrix): (r: bool)
    ensures r <==> m[12..] != HomogeneousRow
  {
    var illegal := !FloatEq(m[15], Finite(1.0)) || !FloatEq(m[14], Finite(0.0))
                   || !FloatEq(m[13], Finite(0.0)) || !FloatEq(m[12], Finite(0.0));
    assert !illegal ==> m[12..] == HomogeneousRow;
    assert m[12..] == HomogeneousRow ==> m[12] == HomogeneousRow[0] && m[13] == HomogeneousRow[1]
                                          && m[14] == HomogeneousRow[2] && m[15] == HomogeneousRow[3];
    illegal
  }

  /** Replacing any homogeneous entry by a value other than the expected one,
      however close to it, makes the pose illegal; NaN always does. */
  lemma AnyDeviationIsIllegal(m: Matrix, k: nat, x: Float)
    requires 12 <= k < 16
    requires x != HomogeneousRow[k - 12]
    ensures IsIllegal(m[k := x])
  {
    assert m[k := x][12..][k - 12] == x;
  }
}
