/** The state validator (`BioStateValidator.verify_state`): decides whether the
    mean membrane voltage observed in the tissue lies in the target state's voltage
    range, and how far outside it lies when it does not. The image analysis that
    produces the mean is not modelled; the mean arrives as an optional number,
    absent when no voltage map could be read. */
module DyeDecode {
  import opened Optional
  import opened Schema
  import PredictMorphology

  /** The outcome of a check; a mismatch carries the deviation in mV. */
  datatype Verdict = NoMapData | Reached | Mismatch(deviation: real)

  function Abs(x: real): real {
    if x < 0.0 then -x else x
  }

  function Min(a: real, b: real): real {
    if a <= b then a else b
  }

  function Max(a: real, b: real): real {
    if a <= b then b else a
  }

  /** Compares the mean against the sorted bounds of the target range: inside,
      both ends included, is success; below, the deviation is the distance to the
      lower bound; above, the distance to the upper bound. */
  function VerifyState(mean: Option<real>, target: BioState): (v: Verdict)
    ensures v.NoMapData? <==> mean.None?
    ensures v.Reached? <==>
      mean.Some? && Min(target.vmemRange.first, target.vmemRange.second) <= mean.value
                 <= Max(target.vmemRange.first, target.vmemRange.second)
    ensures v.Mismatch? ==>
      && v.deviation > 0.0
      && (|| (mean.value < Min(target.vmemRange.first, target.vmemRange.second)
              && v.deviation == Min(target.vmemRange.first, target.vmemRange.second) - mean.value)
          || (mean.value > Max(target.vmemRange.first, target.vmemRange.second)
              && v.deviation == mean.value - Max(target.vmemRange.first, target.vmemRange.second)))
  {
    if mean.None? then NoMapData
    else
      var m := mean.value;
      var (lo, hi) := SortedBounds(target.vmemRange);
      if lo <= m <= hi then Reached
      else if m < lo then Mismatch(lo - m)
      else if m > hi then Mismatch(m - hi)
      else
        // Outside the range, the mean is below the lower or above the upper bound.
        assert false; Mismatch(0.0)
  }

  /** The `(passed, message)` pair returned to the caller; `fmt` renders the
      deviation with two decimals. */
  function Outcome(v: Verdict, fmt: real -> string): (r: (bool, string))
    ensures r.0 <==> v.Reached?
  {
    match v
    case NoMapData => (false, "FAILURE: No Vmem map data.")
    case Reached => (true, "SUCCESS: Tissue has entered the Target Bioelectric State.")
    case Mismatch(d) => (false, "FAILURE: State Mismatch. Deviation: " + fmt(d) + " mV")
  }

  // ---------------------------------------------------------------------------
  // Properties
  // ---------------------------------------------------------------------------

  /** Without a voltage map the check fails with the no-data message, whatever the target. */
  lemma AbsentMapFails(target: BioState, fmt: real -> string)
    ensures Outcome(VerifyState(None, target), fmt) == (false, "FAILURE: No Vmem map data.")
  {
  }

  /** The verdict does not depend on the order in which the two bounds are written. */
  lemma VerdictOrderFree(mean: Option<real>, target: BioState)
    ensures VerifyState(mean, target)
         == VerifyState(mean, target.(vmemRange := VmemRange(target.vmemRange.second, target.vmemRange.first)))
  {
    SortedBoundsSymmetric(target.vmemRange.first, target.vmemRange.second);
  }

  /** The deviation is the distance from the mean to the nearest voltage of the range:
      no voltage of the range is closer, and one of the bounds is that close. */
  lemma DeviationIsDistance(mean: real, target: BioState, x: real)
    requires VerifyState(Some(mean), target).Mismatch?
    requires Min(target.vmemRange.first, target.vmemRange.second) <= x
          <= Max(target.vmemRange.first, target.vmemRange.second)
    ensures VerifyState(Some(mean), target).deviation <= Abs(mean - x)
    ensures VerifyState(Some(mean), target).deviation == Abs(mean - target.vmemRange.first)
         || VerifyState(Some(mean), target).deviation == Abs(mean - target.vmemRange.second)
  {
  }

  /** The validator and the inverse predictor agree on what matching a range means. */
  lemma VerdictAgreesWithPredictor(mean: real, target: BioState)
    ensures VerifyState(Some(mean), target).Reached?
        <==> PredictMorphology.VoltageInRange(mean, target.vmemRange)
  {
  }

  /** The range written as [-30, -50]: -40 mV is inside it, and -60 mV and -20 mV are
      both 10 mV outside it. */
  lemma WrittenRangeExample(domain: string, hours: real, notes: Option<string>)
    ensures var t := BioState(domain, VmemRange(-30.0, -50.0), hours, notes);
      && VerifyState(Some(-40.0), t) == Reached
      && VerifyState(Some(-60.0), t) == Mismatch(10.0)
      && VerifyState(Some(-20.0), t) == Mismatch(10.0)
  {
  }
}
