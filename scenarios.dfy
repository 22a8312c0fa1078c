/** Concrete runs of the secant loop, worked out from the reference
    definition. */
module Scenarios {
  import opened Secant

  /** f(x) = x * x takes the same value 1 at -1 and at 1, so the secant
      through the starting pair is flat: the guard fires before any row is
      appended and the run stalls with an empty table, although f has a
      root at 0 between the two estimates. */
  lemma SymmetricPairStallsAtOnce(tolerance: real)
    ensures SecantRun(x => x * x, -1.0, 1.0, tolerance) == Outcome([], Stalled)
  {
  }

  /** f(x) = x - 3 is linear, so the first secant estimate is the root 3;
      the second step repeats it with relative error 0, which passes any
      positive tolerance that the first step's error 1/3 did not. */
  lemma LinearConvergesInTwoSteps(tolerance: real)
    requires 0.0 < tolerance <= 1.0 / 3.0
    ensures SecantRun(x => x - 3.0, 1.0, 2.0, tolerance) == Outcome([
      Record(1, 1.0, -2.0, 2.0, -1.0, 3.0, Finite(1.0 / 3.0)),
      Record(2, 2.0, -1.0, 3.0, 0.0, 3.0, Finite(0.0))
    ], Converged)
  {
    var f := x => x - 3.0;
    assert SecantEstimate(1.0, 2.0, -2.0, -1.0) == 3.0;
    assert RelativeError(2.0, 3.0) == Finite(1.0 / 3.0);
    assert SecantEstimate(2.0, 3.0, -1.0, 0.0) == 3.0;
    assert RelativeError(3.0, 3.0) == Finite(0.0);
    assert Iterate(f, tolerance, 1, 2.0, 3.0) == Outcome([Record(2, 2.0, -1.0, 3.0, 0.0, 3.0, Finite(0.0))], Converged);
  }

  /** f(x) = x has its root exactly at 0. The first estimate hits it, so its
      relative error is infinite and cannot converge; the second step starts
      from (2, 0), estimates 0 again with infinite error, and the third
      finds f(0) - f(0) flat and stalls. A root at 0 is never reported as
      converged. */
  lemma RootAtZeroStalls(tolerance: real)
    ensures SecantRun(x => x, 1.0, 2.0, tolerance) == Outcome([
      Record(1, 1.0, 1.0, 2.0, 2.0, 0.0, Infinite),
      Record(2, 2.0, 2.0, 0.0, 0.0, 0.0, Infinite)
    ], Stalled)
  {
    var f := x => x;
    var r1 := Record(1, 1.0, 1.0, 2.0, 2.0, 0.0, Infinite);
    var r2 := Record(2, 2.0, 2.0, 0.0, 0.0, 0.0, Infinite);
    assert f(0.0) == 0.0 && f(1.0) == 1.0 && f(2.0) == 2.0;
    assert Flat(f(0.0), f(0.0));
    assert Iterate(f, tolerance, 2, 0.0, 0.0) == Outcome([], Stalled);
    assert !Flat(f(2.0), f(0.0));
    assert SecantEstimate(2.0, 0.0, f(2.0), f(0.0)) == 0.0;
    assert RelativeError(0.0, 0.0) == Infinite;
    assert Iterate(f, tolerance, 1, 2.0, 0.0) == Outcome([r2], Stalled);
    assert !Flat(f(1.0), f(2.0));
    assert SecantEstimate(1.0, 2.0, f(1.0), f(2.0)) == 0.0;
    assert RelativeError(2.0, 0.0) == Infinite;
    assert Iterate(f, tolerance, 0, 1.0, 2.0) == Outcome([r1, r2], Stalled);
  }
}
