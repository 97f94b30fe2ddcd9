/**
 * The `machine_events` entity: one telemetry event reported by a machine.
 *
 * `EventData` is the value of the eight columns; `MachineEvent` is the mutable
 * entity object with its constructor and setters; `Equals` is the entity's
 * semantic equality, which deliberately ignores `receivedTime`.
 */
module Entity {
  import opened Wrappers

  /** An instant on the time line, as nanoseconds since the epoch. */
  type Instant = int

  /** Java's 32-bit `int`. */
  type Int32 = x: int | -0x8000_0000 <= x < 0x8000_0000

  /**
   * The eight columns of an event. `eventId` is the primary key and is never
   * null in this model; every other reference column may be null (`None`).
   */
  datatype EventData = EventData(
    eventId: string,
    eventTime: Option<Instant>,
    receivedTime: Option<Instant>,
    machineId: Option<string>,
    durationMs: Int32,
    defectCount: Option<Int32>,
    lineId: Option<string>,
    factoryId: Option<string>)

  /** Everything `equals` compares: the columns other than `receivedTime`. */
  datatype Payload = Payload(
    eventId: string,
    eventTime: Option<Instant>,
    machineId: Option<string>,
    durationMs: Int32,
    defectCount: Option<Int32>,
    lineId: Option<string>,
    factoryId: Option<string>)

  function PayloadOf(e: EventData): Payload
  {
    Payload(e.eventId, e.eventTime, e.machineId, e.durationMs, e.defectCount, e.lineId, e.factoryId)
  }

  /** The argument of `equals(Object)`: null, another event, or an object of another class. */
  datatype Comparand = NullReference | AnEvent(event: EventData) | OtherClass

  /**
   * `MachineEvent.equals`. The receiver's `eventId`, `eventTime` and
   * `machineId` are dereferenced without a null check, so a null `eventTime`
   * or `machineId` on the receiver raises a NullPointerException once the
   * comparisons before it have succeeded.
   */
  function Equals(self: EventData, o: Comparand): (r: Outcome<bool>)
    ensures !o.AnEvent? ==> r == Returns(false)
    ensures r == Returns(true) <==>
              o.AnEvent? && self.eventTime.Some? && self.machineId.Some? && PayloadOf(self) == PayloadOf(o.event)
    ensures r.ThrowsNullPointer? <==>
              o.AnEvent? && self.eventId == o.event.eventId &&
              (self.eventTime.None? || (self.eventTime == o.event.eventTime && self.machineId.None?))
  {
    match o
    case NullReference => Returns(false)
    case OtherClass => Returns(false)
    case AnEvent(other) =>
      if self.eventId != other.eventId then Returns(false)
      else if self.eventTime.None? then ThrowsNullPointer
      else if self.eventTime != other.eventTime then Returns(false)
      else if self.machineId.None? then ThrowsNullPointer
      else if self.machineId != other.machineId then Returns(false)
      else Returns(self.durationMs == other.durationMs
                   && self.defectCount == other.defectCount
                   && self.lineId == other.lineId
                   && self.factoryId == other.factoryId)
  }

  /** Two events that differ only in `receivedTime` compare alike, from either side. */
  lemma EqualsIgnoresReceivedTime(a: EventData, b: EventData, t: Option<Instant>)
    ensures Equals(a, AnEvent(b)) == Equals(a, AnEvent(b.(receivedTime := t)))
    ensures Equals(a, AnEvent(b)) == Equals(a.(receivedTime := t), AnEvent(b))
  {
  }

  /** With the dereferenced columns present, `equals` is reflexive. */
  lemma EqualsReflexive(a: EventData)
    requires a.eventTime.Some? && a.machineId.Some?
    ensures Equals(a, AnEvent(a)) == Returns(true)
  {
  }

  /** With the dereferenced columns present on both sides, `equals` is symmetric. */
  lemma EqualsSymmetric(a: EventData, b: EventData)
    requires a.eventTime.Some? && a.machineId.Some?
    requires b.eventTime.Some? && b.machineId.Some?
    ensures Equals(a, AnEvent(b)).Returns? && Equals(b, AnEvent(a)).Returns?
    ensures Equals(a, AnEvent(b)) == Equals(b, AnEvent(a))
  {
  }

  /** The entity object: its eight fields, the all-fields constructor and the setters. */
  class MachineEvent {
    var eventId: string
    var eventTime: Option<Instant>
    var receivedTime: Option<Instant>
    var machineId: Option<string>
    var durationMs: Int32
    var defectCount: Option<Int32>
    var lineId: Option<string>
    var factoryId: Option<string>

    /** The current value of the eight fields. */
    function Data(): EventData
      reads this
    {
      EventData(eventId, eventTime, receivedTime, machineId, durationMs, defectCount, lineId, factoryId)
    }

    constructor (eventId: string, eventTime: Option<Instant>, receivedTime: Option<Instant>,
                 machineId: Option<string>, durationMs: Int32, defectCount: Option<Int32>,
                 lineId: Option<string>, factoryId: Option<string>)
      ensures Data() == EventData(eventId, eventTime, receivedTime, machineId, durationMs,
                                  defectCount, lineId, factoryId)
    {
      this.eventId := eventId;
      this.eventTime := eventTime;
      this.receivedTime := receivedTime;
      this.machineId := machineId;
      this.durationMs := durationMs;
      this.defectCount := defectCount;
      this.lineId := lineId;
      this.factoryId := factoryId;
    }

    method SetEventId(eventId: string)
      modifies this
      ensures Data() == old(Data()).(eventId := eventId)
    {
      this.eventId := eventId;
    }

    method SetEventTime(eventTime: Option<Instant>)
      modifies this
      ensures Data() == old(Data()).(eventTime := eventTime)
    {
      this.eventTime := eventTime;
    }

    method SetReceivedTime(receivedTime: Option<Instant>)
      modifies this
      ensures Data() == old(Data()).(receivedTime := receivedTime)
    {
      this.receivedTime := receivedTime;
    }

    method SetMachineId(machineId: Option<string>)
      modifies this
      ensures Data() == old(Data()).(machineId := machineId)
    {
      this.machineId := machineId;
    }

    method SetDurationMs(durationMs: Int32)
      modifies this
      ensures Data() == old(Data()).(durationMs := durationMs)
    {
      this.durationMs := durationMs;
    }

    method SetDefectCount(defectCount: Option<Int32>)
      modifies this
      ensures Data() == old(Data()).(defectCount := defectCount)
    {
      this.defectCount := defectCount;
    }

    method SetLineId(lineId: Option<string>)
      modifies this
      ensures Data() == old(Data()).(lineId := lineId)
    {
      this.lineId := lineId;
    }

    method SetFactoryId(factoryId: Option<string>)
      modifies this
      ensures Data() == old(Data()).(factoryId := factoryId)
    {
      this.factoryId := factoryId;
    }
  }
}
