/**
 * The 4x4 homogeneous transform of the frame graph, kept symbolic. The
 * graph never computes with matrix entries: it stores transforms, inverts
 * them and multiplies them. A transform is therefore a term over the
 * identity, the caller's matrices and the two composition helpers of the
 * math library, closed under product and inverse. An equation proved
 * between terms holds for the numeric matrices whatever they are.
 */
module Matrices {

  datatype Matrix4 =
    | Identity
      /** A matrix handed in by the caller, named for the reader. */
    | Given(name: string)
      /** TransForms::ComposeEuler(x, y, z, rx, ry, rz): translation plus Euler angles. */
    | ComposeEuler(x: real, y: real, z: real, rx: real, ry: real, rz: real)
      /**
       * TransForms::Compose(position, quaternion): translation (x, y, z)
       * plus the rotation with components qw, qx, qy, qz, in the order
       * Eigen's four-scalar Quaternion constructor takes them.
       */
    | ComposeQuat(x: real, y: real, z: real, qw: real, qx: real, qy: real, qz: real)
      /** The matrix product lhs * rhs. */
    | Mul(lhs: Matrix4, rhs: Matrix4)
      /** Eigen's inverse(). */
    | Inverse(m: Matrix4)

  /**
   * An Eigen quaternion by its components. Eigen's constructor from four
   * scalars takes them in the order w, x, y, z; the identity rotation is
   * w = 1, x = y = z = 0.
   */
  datatype Quaternion = Quaternion(w: real, x: real, y: real, z: real)

  /** Two transforms each of which is the other's inverse, written either way round. */
  predicate InversePair(x: Matrix4, y: Matrix4)
  {
    y == Inverse(x) || x == Inverse(y)
  }
}
