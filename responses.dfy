/**
 * The two response objects whose fields are derived when they are built:
 * `MachineStatsResponse` (health status from the average defect rate) and
 * `LineStatsResponse` (defect percentage of one production line).
 */
module Responses {
  import opened Wrappers
  import opened Entity

  /** A Java `double`: a finite value, an infinity, or NaN. */
  datatype Double = Finite(r: real) | PositiveInfinity | NegativeInfinity | NaN

  /** Java's `d < bound` on doubles: false whenever `d` is NaN. */
  predicate LessThan(d: Double, bound: real)
  {
    match d
    case Finite(x) => x < bound
    case NegativeInfinity => true
    case PositiveInfinity => false
    case NaN => false
  }

  datatype Status = Healthy | Warning

  /** The rate at and above which a machine is reported as `Warning`. */
  const WarningRate: real := 2.0

  /** The status that both the constructor and `setAvgDefectRate` derive from a rate. */
  function StatusFor(avgDefectRate: Option<Double>): (s: Option<Status>)
    ensures s.None? <==> avgDefectRate.None?
    ensures s == Some(Healthy) <==> avgDefectRate.Some? && LessThan(avgDefectRate.value, WarningRate)
    ensures s == Some(Warning) <==> avgDefectRate.Some? && !LessThan(avgDefectRate.value, WarningRate)
  {
    match avgDefectRate
    case None => None
    case Some(rate) => if LessThan(rate, WarningRate) then Some(Healthy) else Some(Warning)
  }

  /** A finite rate is `Healthy` exactly below 2.0; NaN (a zero-length window over zero defects) is `Warning`. */
  lemma StatusThresholds(x: real)
    ensures StatusFor(Some(Finite(x))) == (if x < 2.0 then Some(Healthy) else Some(Warning))
    ensures StatusFor(Some(NaN)) == Some(Warning)
    ensures StatusFor(Some(PositiveInfinity)) == Some(Warning)
  {
  }

  /**
   * Per-machine statistics over a window. `eventsCount` and `defectsCount`
   * are the fields inherited from `MachineStatsQueryResult`.
   */
  class MachineStatsResponse {
    var eventsCount: int
    var defectsCount: Option<int>
    var machineId: Option<string>
    var start: Option<Instant>
    var end: Option<Instant>
    var avgDefectRate: Option<Double>
    var status: Option<Status>

    /** `status` always agrees with `avgDefectRate`. */
    ghost predicate Valid()
      reads this
    {
      status == StatusFor(avgDefectRate)
    }

    constructor (machineId: Option<string>, start: Option<Instant>, end: Option<Instant>,
                 eventsCount: int, defectsCount: Option<int>, avgDefectRate: Option<Double>)
      ensures Valid()
      ensures this.eventsCount == eventsCount && this.defectsCount == defectsCount
      ensures this.machineId == machineId && this.start == start && this.end == end
      ensures this.avgDefectRate == avgDefectRate
    {
      this.eventsCount := eventsCount;
      this.defectsCount := defectsCount;
      this.machineId := machineId;
      this.start := start;
      this.end := end;
      this.avgDefectRate := avgDefectRate;
      this.status := StatusFor(avgDefectRate);
    }

    method SetAvgDefectRate(avgDefectRate: Option<Double>)
      requires Valid()
      modifies this
      ensures Valid()
      ensures this.avgDefectRate == avgDefectRate
      ensures eventsCount == old(eventsCount) && defectsCount == old(defectsCount)
      ensures machineId == old(machineId) && start == old(start) && end == old(end)
    {
      this.avgDefectRate := avgDefectRate;
      this.status := StatusFor(avgDefectRate);
    }

    method SetMachineId(machineId: Option<string>)
      requires Valid()
      modifies this`machineId
      ensures Valid() && this.machineId == machineId
      ensures avgDefectRate == old(avgDefectRate) && status == old(status)
    {
      this.machineId := machineId;
    }

    method SetStart(start: Option<Instant>)
      requires Valid()
      modifies this`start
      ensures Valid() && this.start == start
      ensures avgDefectRate == old(avgDefectRate) && status == old(status)
    {
      this.start := start;
    }

    method SetEnd(end: Option<Instant>)
      requires Valid()
      modifies this`end
      ensures Valid() && this.end == end
      ensures avgDefectRate == old(avgDefectRate) && status == old(status)
    {
      this.end := end;
    }

    method SetEventsCount(eventsCount: int)
      requires Valid()
      modifies this`eventsCount
      ensures Valid() && this.eventsCount == eventsCount
      ensures avgDefectRate == old(avgDefectRate) && status == old(status)
    {
      this.eventsCount := eventsCount;
    }

    method SetDefectsCount(defectsCount: Option<int>)
      requires Valid()
      modifies this`defectsCount
      ensures Valid() && this.defectsCount == defectsCount
      ensures avgDefectRate == old(avgDefectRate) && status == old(status)
    {
      this.defectsCount := defectsCount;
    }
  }

  /**
   * `Math.round(totalDefects * 100.0 / eventCount * 100.0) / 100.0`, computed
   * exactly: the percentage rounded half up to two decimals.
   */
  function RoundedPercent(totalDefects: int, eventCount: int): (p: real)
    requires eventCount != 0
    ensures var exact := (totalDefects as real) * 100.0 / (eventCount as real);
            exact - 0.005 < p <= exact + 0.005
  {
    var exact := (totalDefects as real) * 100.0 / (eventCount as real);
    var hundredths := (exact * 100.0 + 0.5).Floor;
    assert (hundredths as real) <= exact * 100.0 + 0.5 < (hundredths as real) + 1.0;
    (hundredths as real) / 100.0
  }

  /** The `defectsPercent` that the `LineStatsResponse` constructor derives. */
  function DefectsPercent(totalDefects: Option<int>, eventCount: int): (p: Option<Double>)
    ensures p.Some? <==> eventCount != 0 && totalDefects.Some?
    ensures p.Some? ==> p.value == Finite(RoundedPercent(totalDefects.value, eventCount))
  {
    if eventCount == 0 || totalDefects.None? then None
    else Some(Finite(RoundedPercent(totalDefects.value, eventCount)))
  }

  /** 30 defects over 10 events is reported as 300.0 percent: the value is not clamped. */
  lemma PercentNotClamped()
    ensures DefectsPercent(Some(30), 10) == Some(Finite(300.0))
  {
    assert (30 as real) * 100.0 / (10 as real) == 300.0;
    assert (300.0 * 100.0 + 0.5).Floor == 30000;
  }

  /** One row of the per-line ranking. */
  class LineStatsResponse {
    var lineId: Option<string>
    var totalDefects: Option<int>
    var eventCount: int
    var defectsPercent: Option<Double>

    constructor (lineId: Option<string>, totalDefects: Option<int>, eventCount: int)
      ensures this.lineId == lineId && this.totalDefects == totalDefects && this.eventCount == eventCount
      ensures defectsPercent == DefectsPercent(totalDefects, eventCount)
    {
      this.lineId := lineId;
      this.totalDefects := totalDefects;
      this.eventCount := eventCount;
      this.defectsPercent := DefectsPercent(totalDefects, eventCount);
    }

    /** The setters assign one field and do not re-derive `defectsPercent`. */
    method SetLineId(lineId: Option<string>)
      modifies this`lineId
      ensures this.lineId == lineId
      ensures defectsPercent == old(defectsPercent)
    {
      this.lineId := lineId;
    }

    method SetTotalDefects(totalDefects: Option<int>)
      modifies this`totalDefects
      ensures this.totalDefects == totalDefects
      ensures defectsPercent == old(defectsPercent)
    {
      this.totalDefects := totalDefects;
    }

    method SetEventCount(eventCount: int)
      modifies this`eventCount
      ensures this.eventCount == eventCount
      ensures defectsPercent == old(defectsPercent)
    {
      this.eventCount := eventCount;
    }

    method SetDefectsPercent(defectsPercent: Option<Double>)
      modifies this`defectsPercent
      ensures this.defectsPercent == defectsPercent
    {
      this.defectsPercent := defectsPercent;
    }
  }
}
