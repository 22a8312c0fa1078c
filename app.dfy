/** The application object that owns the iteration table. Only the
    computing part of the "Calcular" button handler is modelled: the
    tolerance fallback and the secant loop that fills the table. */
module App {
  import opened Secant

  /** A parsed entry: None when the text does not parse as a number. */
  datatype Option<T> = None | Some(value: T)

  class SecantMethodApp {
    /** The rows of the iteration table of the latest run. */
    var iterationsData: seq<Record>

    constructor ()
      ensures iterationsData == []
    {
      iterationsData := [];
    }

    /** Runs the secant method on f from x0, x1. The tolerance is the parsed
        entry, or DefaultTolerance when it did not parse. The table is
        cleared first and then holds exactly the reference run's trace; the
        returned status says how the loop ended. */
    method RunSecantMethod(f: real -> real, x0: real, x1: real, toleranceEntry: Option<real>)
      returns (status: Status)
      modifies this
      ensures toleranceEntry.Some? ==>
        Outcome(iterationsData, status) == SecantRun(f, x0, x1, toleranceEntry.value)
      ensures toleranceEntry.None? ==>
        Outcome(iterationsData, status) == SecantRun(f, x0, x1, DefaultTolerance)
    {
      iterationsData := [];
      var xPrev, xCurr := x0, x1;
      var tolerance := if toleranceEntry.Some? then toleranceEntry.value else DefaultTolerance;

      status := Exhausted;
      for i := 0 to MaxIter
        invariant |iterationsData| == i
        invariant TraceFrom(f, tolerance, 0, x0, x1, iterationsData)
        invariant iterationsData != [] ==> !Converges(iterationsData[i - 1].error, tolerance)
        invariant (xPrev, xCurr) == NextPair(iterationsData, x0, x1)
      {
        var fPrev := f(xPrev);
        var fCurr := f(xCurr);
        if Flat(fPrev, fCurr) {
          status := Stalled;
          assert RunFrom(f, tolerance, 0, x0, x1, Outcome(iterationsData, status));
          break;
        }
        var xNext := SecantEstimate(xPrev, xCurr, fPrev, fCurr);
        var error := RelativeError(xCurr, xNext);
        var r := Record(i + 1, xPrev, fPrev, xCurr, fCurr, xNext, error);
        TraceExtend(f, tolerance, x0, x1, iterationsData, r);
        iterationsData := iterationsData + [r];
        if Converges(error, tolerance) {
          status := Converged;
          assert RunFrom(f, tolerance, 0, x0, x1, Outcome(iterationsData, status));
          break;
        }
        xPrev, xCurr := xCurr, xNext;
      }
      IterateCharacterized(f, tolerance, 0, x0, x1, Outcome(iterationsData, status));
    }
  }
}
