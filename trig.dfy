/** Abstract real trigonometry.

    The geometry code only composes the remote service's `sin`, `cos`, `asin`,
    `acos`, `atan` and the constant pi.  They are not computed here: a `Trig`
    value carries them as uninterpreted functions, and the predicates below
    state the few facts about them that the model relies on.
 */
module Trig {

  datatype Trig = Trig(
    pi: real,
    sin: real -> real,
    cos: real -> real,
    asin: real -> real,
    acos: real -> real,
    atan: real -> real)

  /** sin 0 = 0 and cos 0 = 1: all that the nadir kernel needs. */
  predicate AtZero(t: Trig) {
    t.sin(0.0) == 0.0 && t.cos(0.0) == 1.0
  }

  /** asin maps [-1, 1] into [-pi/2, pi/2] and keeps the sign of its argument. */
  ghost predicate AsinFacts(t: Trig) {
    t.pi > 0.0 &&
    forall x :: -1.0 <= x <= 1.0 ==>
      -t.pi / 2.0 <= t.asin(x) <= t.pi / 2.0 && (t.asin(x) <= 0.0 <==> x <= 0.0)
  }

  /** atan maps every real into the open interval (-pi/2, pi/2). */
  ghost predicate AtanFacts(t: Trig) {
    t.pi > 0.0 &&
    forall x :: -t.pi / 2.0 < t.atan(x) < t.pi / 2.0
  }
}
