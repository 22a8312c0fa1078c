/** The secant-iteration engine of the root finder: the records a run
    produces, the reference definition of a whole run, and the structural
    properties every run has (bounded length, contiguous indices, chained
    records, a nonzero secant divisor, the exact error formula, and the
    three ways a run ends). Numbers are reals; nothing here is about
    floating-point rounding, convergence or accuracy. */
module Secant {

  /** `max_iter`: the loop body runs at most this many times. */
  const MaxIter: nat := 50

  /** The stagnation guard fires when |f(x_prev) - f(x_curr)| is below this. */
  const StallThreshold: real := 1e-12

  /** The tolerance used when the tolerance entry does not parse as a number. */
  const DefaultTolerance: real := 1e-6

  /** Relative approximate error of a record: a finite value, or +infinity
      when the new estimate is exactly zero. */
  datatype RelError = Finite(value: real) | Infinite

  /** One row of the iteration table: the 1-based iteration number, the two
      points and their function values, the new estimate and its error. */
  datatype Record = Record(
    index: nat,
    xPrev: real,
    fPrev: real,
    xCurr: real,
    fCurr: real,
    xNext: real,
    error: RelError)

  /** How a run ends: the guard found a flat secant, the error dropped below
      the tolerance, or all MaxIter steps ran. */
  datatype Status = Stalled | Converged | Exhausted

  /** Everything a run leaves behind: its trace and how it ended. */
  datatype Outcome = Outcome(trace: seq<Record>, status: Status)

  function Abs(x: real): real {
    if x < 0.0 then -x else x
  }

  /** The stagnation guard: the secant line through the two points is
      numerically flat. When it does not fire, the secant divisor
      fPrev - fCurr is nonzero. */
  predicate Flat(fPrev: real, fCurr: real): (flat: bool)
    ensures !flat ==> fPrev != fCurr
  {
    Abs(fPrev - fCurr) < StallThreshold
  }

  /** The secant estimate, x_curr - f_curr * (x_prev - x_curr) / (f_prev - f_curr). */
  function SecantEstimate(xPrev: real, xCurr: real, fPrev: real, fCurr: real): (x: real)
    requires fPrev != fCurr
    ensures fCurr == 0.0 ==> x == xCurr
    ensures xPrev == xCurr ==> x == xCurr
  {
    xCurr - fCurr * (xPrev - xCurr) / (fPrev - fCurr)
  }

  /** The secant estimate is where the line through (xPrev, fPrev) and
      (xCurr, fCurr) meets the x-axis; it equals xCurr when fCurr is zero. */
  lemma SecantEstimateOnLine(xPrev: real, xCurr: real, fPrev: real, fCurr: real)
    requires fPrev != fCurr
    ensures var x := SecantEstimate(xPrev, xCurr, fPrev, fCurr);
      (x - xCurr) * (fPrev - fCurr) == (0.0 - fCurr) * (xPrev - xCurr) &&
      (fCurr == 0.0 ==> x == xCurr)
  {
    var d := fPrev - fCurr;
    var q := fCurr * (xPrev - xCurr) / d;
    assert q * d == fCurr * (xPrev - xCurr);
  }

  /** The relative error |(xNext - xCurr) / xNext|, or +infinity when
      xNext is zero. */
  function RelativeError(xCurr: real, xNext: real): (e: RelError)
    ensures e.Infinite? <==> xNext == 0.0
    ensures e.Finite? ==> e.value >= 0.0
    ensures xNext == xCurr && xNext != 0.0 ==> e == Finite(0.0)
  {
    if xNext != 0.0 then Finite(Abs((xNext - xCurr) / xNext)) else Infinite
  }

  /** The error is infinite exactly when the estimate is zero; otherwise it
      is the non-negative ratio e with e * |xNext| == |xNext - xCurr|. */
  lemma RelativeErrorMeaning(xCurr: real, xNext: real)
    ensures var e := RelativeError(xCurr, xNext);
      (e.Finite? <==> xNext != 0.0) &&
      (e.Finite? ==> e.value >= 0.0 && e.value * Abs(xNext) == Abs(xNext - xCurr))
  {
    if xNext != 0.0 {
      var q := (xNext - xCurr) / xNext;
      assert q * xNext == xNext - xCurr;
      assert Abs(q) * Abs(xNext) == Abs(q * xNext);
    }
  }

  /** The convergence test `error < tolerance`; +infinity passes it for
      no tolerance. */
  predicate Converges(e: RelError, tolerance: real): (passes: bool)
    ensures e.Infinite? ==> !passes
    ensures e.Finite? && e.value >= 0.0 && tolerance <= 0.0 ==> !passes
  {
    e.Finite? && e.value < tolerance
  }

  /** The run from step i (0-based loop counter) with the pair
      (xPrev, xCurr): one step of the loop, then the rest of the run. */
  function Iterate(f: real -> real, tolerance: real, i: nat, xPrev: real, xCurr: real): (o: Outcome)
    requires i <= MaxIter
    decreases MaxIter - i
    ensures o.status == Converged ==> o.trace != [] && Converges(o.trace[|o.trace| - 1].error, tolerance)
    ensures o.status == Stalled ==> |o.trace| < MaxIter - i
    ensures o.status == Exhausted ==> |o.trace| == MaxIter - i
  {
    if i == MaxIter then Outcome([], Exhausted)
    else
      var fPrev, fCurr := f(xPrev), f(xCurr);
      if Flat(fPrev, fCurr) then Outcome([], Stalled)
      else
        var xNext := SecantEstimate(xPrev, xCurr, fPrev, fCurr);
        var r := Record(i + 1, xPrev, fPrev, xCurr, fCurr, xNext, RelativeError(xCurr, xNext));
        if Converges(r.error, tolerance) then Outcome([r], Converged)
        else
          var rest := Iterate(f, tolerance, i + 1, xCurr, xNext);
          Outcome([r] + rest.trace, rest.status)
  }

  /** A whole run from the initial estimates x0, x1. The lemmas below are
      stated for Iterate from any loop counter; to apply one to a whole run,
      call it with i = 0 and (xPrev, xCurr) = (x0, x1) and first
      `assert SecantRun(f, x0, x1, tolerance) == Iterate(f, tolerance, 0, x0, x1);`
      so that Dafny unfolds this definition. */
  function SecantRun(f: real -> real, x0: real, x1: real, tolerance: real): (o: Outcome)
    ensures o.trace != [] ==> o.trace[0].index == 1 && o.trace[0].xPrev == x0 && o.trace[0].xCurr == x1
  {
    Iterate(f, tolerance, 0, x0, x1)
  }

  /** r is a record the loop can append: f taken at its two points, a
      secant divisor that passed the guard, the secant estimate and its
      relative error. */
  predicate IsStepRecord(f: real -> real, r: Record): (step: bool)
    ensures step ==> r.fPrev != r.fCurr
    ensures step ==> (r.error.Infinite? <==> r.xNext == 0.0)
    ensures step && r.fCurr == 0.0 ==> r.xNext == r.xCurr
  {
    r.fPrev == f(r.xPrev) && r.fCurr == f(r.xCurr) &&
    !Flat(r.fPrev, r.fCurr) &&
    r.xNext == SecantEstimate(r.xPrev, r.xCurr, r.fPrev, r.fCurr) &&
    r.error == RelativeError(r.xCurr, r.xNext)
  }

  /** The pair (x_prev, x_curr) that the step after trace t starts from,
      when the first step starts from (xPrev, xCurr). */
  function NextPair(t: seq<Record>, xPrev: real, xCurr: real): (real, real) {
    if t == [] then (xPrev, xCurr) else (t[|t| - 1].xCurr, t[|t| - 1].xNext)
  }

  /** Declarative description of the trace of a run that starts at loop
      counter i from (xPrev, xCurr), as far as it has got: the records are
      numbered i + 1, i + 2, ..., each is a step record, the first starts
      from (xPrev, xCurr) and each later one from its predecessor's x_curr
      and x_next, and every record but the last failed the convergence
      test. */
  ghost predicate TraceFrom(f: real -> real, tolerance: real, i: nat, xPrev: real, xCurr: real, t: seq<Record>) {
    i <= MaxIter && |t| <= MaxIter - i &&
    (forall k :: 0 <= k < |t| ==> t[k].index == i + k + 1 && IsStepRecord(f, t[k])) &&
    (t != [] ==> t[0].xPrev == xPrev && t[0].xCurr == xCurr) &&
    (forall j, k {:trigger t[j], t[k]} :: 0 <= j && k == j + 1 && k < |t| ==>
      t[k].xPrev == t[j].xCurr && t[k].xCurr == t[j].xNext) &&
    (forall k :: 0 <= k < |t| - 1 ==> !Converges(t[k].error, tolerance))
  }

  /** Declarative description of a finished run: its trace is as above and
      the status names the one reason the run ended. */
  ghost predicate RunFrom(f: real -> real, tolerance: real, i: nat, xPrev: real, xCurr: real, o: Outcome) {
    var t := o.trace;
    TraceFrom(f, tolerance, i, xPrev, xCurr, t) &&
    (o.status == Converged <==> t != [] && Converges(t[|t| - 1].error, tolerance)) &&
    (o.status == Stalled ==>
      |t| < MaxIter - i && Flat(f(NextPair(t, xPrev, xCurr).0), f(NextPair(t, xPrev, xCurr).1))) &&
    (o.status == Exhausted ==> |t| == MaxIter - i)
  }

  /** Appending the record of the next step to an unfinished trace keeps
      it a trace of the same run; this is what one pass of the loop does. */
  lemma TraceExtend(f: real -> real, tolerance: real, x0: real, x1: real, t: seq<Record>, r: Record)
    requires TraceFrom(f, tolerance, 0, x0, x1, t) && |t| < MaxIter
    requires t != [] ==> !Converges(t[|t| - 1].error, tolerance)
    requires r.index == |t| + 1 && IsStepRecord(f, r) && (r.xPrev, r.xCurr) == NextPair(t, x0, x1)
    ensures TraceFrom(f, tolerance, 0, x0, x1, t + [r])
  {
    var u := t + [r];
    forall k | 0 <= k < |u|
      ensures u[k].index == k + 1 && IsStepRecord(f, u[k])
    {
      if k < |t| {
        assert u[k] == t[k];
      }
    }
    forall j, k | 0 <= j && k == j + 1 && k < |u|
      ensures u[k].xPrev == u[j].xCurr && u[k].xCurr == u[j].xNext
    {
      assert u[j] == t[j];
      if k < |t| {
        assert u[k] == t[k];
      }
    }
    forall k | 0 <= k < |u| - 1
      ensures !Converges(u[k].error, tolerance)
    {
      assert u[k] == t[k];
    }
  }

  /** Putting one non-converging step record in front of a run from the
      record's new pair gives a run from the record's old pair. */
  lemma Prepend(f: real -> real, tolerance: real, i: nat, xPrev: real, xCurr: real, r: Record, rest: Outcome)
    requires i < MaxIter
    requires r.index == i + 1 && IsStepRecord(f, r) && r.xPrev == xPrev && r.xCurr == xCurr
    requires !Converges(r.error, tolerance)
    requires RunFrom(f, tolerance, i + 1, r.xCurr, r.xNext, rest)
    ensures RunFrom(f, tolerance, i, xPrev, xCurr, Outcome([r] + rest.trace, rest.status))
  {
    var u := rest.trace;
    var t := [r] + u;
    forall k | 0 <= k < |t|
      ensures t[k].index == i + k + 1 && IsStepRecord(f, t[k])
    {
      if k > 0 {
        assert t[k] == u[k - 1];
      }
    }
    forall j, k | 0 <= j && k == j + 1 && k < |t|
      ensures t[k].xPrev == t[j].xCurr && t[k].xCurr == t[j].xNext
    {
      assert t[k] == u[j];
      if j > 0 {
        assert t[j] == u[j - 1];
      }
    }
    forall k | 0 <= k < |t| - 1
      ensures !Converges(t[k].error, tolerance)
    {
      if k > 0 {
        assert t[k] == u[k - 1];
      }
    }
    assert NextPair(t, xPrev, xCurr) == NextPair(u, r.xCurr, r.xNext);
    if u != [] {
      assert t[|t| - 1] == u[|u| - 1];
    }
  }

  /** The converse of Prepend: a run whose first record does not converge
      is that record followed by a run from the record's new pair. */
  lemma Unprepend(f: real -> real, tolerance: real, i: nat, xPrev: real, xCurr: real, o: Outcome)
    requires RunFrom(f, tolerance, i, xPrev, xCurr, o)
    requires o.trace != [] && !Converges(o.trace[0].error, tolerance)
    ensures i < MaxIter
    ensures RunFrom(f, tolerance, i + 1, o.trace[0].xCurr, o.trace[0].xNext, Outcome(o.trace[1..], o.status))
  {
    var t := o.trace;
    var r := t[0];
    var u := t[1..];
    forall k | 0 <= k < |u|
      ensures u[k].index == i + 1 + k + 1 && IsStepRecord(f, u[k])
    {
      assert u[k] == t[k + 1];
    }
    if u != [] {
      assert u[0] == t[1];
      assert t[1].xPrev == t[0].xCurr && t[1].xCurr == t[0].xNext;
    }
    forall j, k | 0 <= j && k == j + 1 && k < |u|
      ensures u[k].xPrev == u[j].xCurr && u[k].xCurr == u[j].xNext
    {
      assert u[k] == t[k + 1] && u[j] == t[j + 1];
    }
    forall k | 0 <= k < |u| - 1
      ensures !Converges(u[k].error, tolerance)
    {
      assert u[k] == t[k + 1];
    }
    assert NextPair(u, r.xCurr, r.xNext) == NextPair(t, xPrev, xCurr);
    if u != [] {
      assert u[|u| - 1] == t[|t| - 1];
    }
  }

  /** Iterate meets the declarative description. */
  lemma {:induction false} IterateSound(f: real -> real, tolerance: real, i: nat, xPrev: real, xCurr: real)
    requires i <= MaxIter
    ensures RunFrom(f, tolerance, i, xPrev, xCurr, Iterate(f, tolerance, i, xPrev, xCurr))
    decreases MaxIter - i
  {
    if i < MaxIter && !Flat(f(xPrev), f(xCurr)) {
      var fPrev, fCurr := f(xPrev), f(xCurr);
      var xNext := SecantEstimate(xPrev, xCurr, fPrev, fCurr);
      var r := Record(i + 1, xPrev, fPrev, xCurr, fCurr, xNext, RelativeError(xCurr, xNext));
      if !Converges(r.error, tolerance) {
        IterateSound(f, tolerance, i + 1, xCurr, xNext);
        Prepend(f, tolerance, i, xPrev, xCurr, r, Iterate(f, tolerance, i + 1, xCurr, xNext));
      }
    }
  }

  /** The declarative description admits only Iterate's outcome. */
  lemma {:induction false} IterateUnique(f: real -> real, tolerance: real, i: nat, xPrev: real, xCurr: real, o: Outcome)
    requires RunFrom(f, tolerance, i, xPrev, xCurr, o)
    ensures o == Iterate(f, tolerance, i, xPrev, xCurr)
    decreases MaxIter - i
  {
    var t := o.trace;
    if t != [] {
      var fPrev, fCurr := f(xPrev), f(xCurr);
      var xNext := SecantEstimate(xPrev, xCurr, fPrev, fCurr);
      var r := Record(i + 1, xPrev, fPrev, xCurr, fCurr, xNext, RelativeError(xCurr, xNext));
      assert t[0] == r;
      if Converges(r.error, tolerance) {
        assert t == [r];
      } else {
        Unprepend(f, tolerance, i, xPrev, xCurr, o);
        IterateUnique(f, tolerance, i + 1, xCurr, xNext, Outcome(t[1..], o.status));
        assert t == [r] + t[1..];
      }
    }
  }

  /** The reference run from loop counter i is exactly the outcome the
      declarative description admits, in both directions. */
  lemma IterateCharacterized(f: real -> real, tolerance: real, i: nat, xPrev: real, xCurr: real, o: Outcome)
    requires i <= MaxIter
    ensures RunFrom(f, tolerance, i, xPrev, xCurr, o) <==> o == Iterate(f, tolerance, i, xPrev, xCurr)
  {
    IterateSound(f, tolerance, i, xPrev, xCurr);
    if RunFrom(f, tolerance, i, xPrev, xCurr, o) {
      IterateUnique(f, tolerance, i, xPrev, xCurr, o);
    }
  }

  // The corollaries below are stated for the run from any loop counter i
  // and pair (xPrev, xCurr); a whole run, SecantRun(f, x0, x1, tolerance),
  // is the case i = 0, (xPrev, xCurr) = (x0, x1).

  /** A run from loop counter i produces at most MaxIter - i records, so a
      whole run at most MaxIter. */
  lemma TraceBounded(f: real -> real, tolerance: real, i: nat, xPrev: real, xCurr: real)
    requires i <= MaxIter
    ensures |Iterate(f, tolerance, i, xPrev, xCurr).trace| <= MaxIter - i
  {
    IterateSound(f, tolerance, i, xPrev, xCurr);
  }

  /** The record at position k carries iteration number i + k + 1; in a
      whole run, k + 1. */
  lemma IndicesContiguous(f: real -> real, tolerance: real, i: nat, xPrev: real, xCurr: real)
    requires i <= MaxIter
    ensures var t := Iterate(f, tolerance, i, xPrev, xCurr).trace;
      forall k :: 0 <= k < |t| ==> t[k].index == i + k + 1
  {
    IterateSound(f, tolerance, i, xPrev, xCurr);
  }

  /** The first record starts from the pair the run starts from; in a
      whole run, the initial estimates (x0, x1). */
  lemma FirstRecordIsInitialPair(f: real -> real, tolerance: real, i: nat, xPrev: real, xCurr: real)
    requires i <= MaxIter
    ensures var t := Iterate(f, tolerance, i, xPrev, xCurr).trace;
      t != [] ==> t[0].xPrev == xPrev && t[0].xCurr == xCurr
  {
    IterateSound(f, tolerance, i, xPrev, xCurr);
  }

  /** Each record starts from the previous record's x_curr and x_next. */
  lemma RecordsChain(f: real -> real, tolerance: real, i: nat, xPrev: real, xCurr: real)
    requires i <= MaxIter
    ensures var t := Iterate(f, tolerance, i, xPrev, xCurr).trace;
      forall k :: 0 <= k < |t| - 1 ==> t[k + 1].xPrev == t[k].xCurr && t[k + 1].xCurr == t[k].xNext
  {
    IterateSound(f, tolerance, i, xPrev, xCurr);
  }

  /** One step record, spelled out: the guard passed, so the divisor is not
      zero; x_next is the secant formula and lies where the secant line
      meets the x-axis; the error is the relative-error formula, infinite
      exactly when x_next is zero. */
  lemma StepRecordFields(f: real -> real, r: Record)
    requires IsStepRecord(f, r)
    ensures r.fPrev == f(r.xPrev) && r.fCurr == f(r.xCurr)
    ensures Abs(r.fPrev - r.fCurr) >= StallThreshold && r.fPrev - r.fCurr != 0.0
    ensures r.xNext == r.xCurr - r.fCurr * (r.xPrev - r.xCurr) / (r.fPrev - r.fCurr)
    ensures (r.xNext - r.xCurr) * (r.fPrev - r.fCurr) == (0.0 - r.fCurr) * (r.xPrev - r.xCurr)
    ensures r.xNext != 0.0 ==> r.error == Finite(Abs((r.xNext - r.xCurr) / r.xNext))
    ensures r.xNext == 0.0 <==> r.error == Infinite
  {
    SecantEstimateOnLine(r.xPrev, r.xCurr, r.fPrev, r.fCurr);
  }

  /** Every record of a run is a step record (see StepRecordFields). */
  lemma RecordFieldsExact(f: real -> real, tolerance: real, i: nat, xPrev: real, xCurr: real)
    requires i <= MaxIter
    ensures var t := Iterate(f, tolerance, i, xPrev, xCurr).trace;
      forall k :: 0 <= k < |t| ==> IsStepRecord(f, t[k])
  {
    IterateSound(f, tolerance, i, xPrev, xCurr);
  }

  /** Every record except the last failed the convergence test; a record
      with an infinite error never passes it. */
  lemma OnlyLastMayConverge(f: real -> real, tolerance: real, i: nat, xPrev: real, xCurr: real)
    requires i <= MaxIter
    ensures var t := Iterate(f, tolerance, i, xPrev, xCurr).trace;
      (forall k :: 0 <= k < |t| - 1 ==>
        t[k].error.Infinite? || t[k].error.value >= tolerance) &&
      (forall k :: 0 <= k < |t| && t[k].xNext == 0.0 ==> !Converges(t[k].error, tolerance))
  {
    IterateSound(f, tolerance, i, xPrev, xCurr);
  }

  /** A run ends in exactly one of three ways: converged exactly when the
      last record passed the test; exhausted exactly when all remaining
      MaxIter - i steps produced records and the last failed the test;
      stalled exactly when fewer were produced without convergence, and
      then the guard fired on the pair the next step would have used. */
  lemma TerminationCases(f: real -> real, tolerance: real, i: nat, xPrev: real, xCurr: real)
    requires i <= MaxIter
    ensures var o := Iterate(f, tolerance, i, xPrev, xCurr);
      var t := o.trace;
      var converged := t != [] && Converges(t[|t| - 1].error, tolerance);
      (o.status == Converged <==> converged) &&
      (o.status == Exhausted <==> |t| == MaxIter - i && !converged) &&
      (o.status == Stalled <==> |t| < MaxIter - i && !converged) &&
      (o.status == Stalled ==>
        var p := NextPair(t, xPrev, xCurr);
        Flat(f(p.0), f(p.1)))
  {
    IterateSound(f, tolerance, i, xPrev, xCurr);
  }

  /** While a step is left, the trace is empty exactly when the guard fires
      on the starting pair, and then the run stalled. */
  lemma EmptyTraceIffInitialStall(f: real -> real, tolerance: real, i: nat, xPrev: real, xCurr: real)
    requires i < MaxIter
    ensures var o := Iterate(f, tolerance, i, xPrev, xCurr);
      (o.trace == [] <==> Flat(f(xPrev), f(xCurr))) &&
      (o.trace == [] ==> o.status == Stalled)
  {
  }
}
