/**
 * Batch ingestion (`MachineEventService`): validation and normalisation of
 * each event, in-batch deduplication, conflict resolution against the stored
 * rows, stamping of the survivors with the batch's `now`, the unconditional
 * `saveAll`, and the four counters of the response.
 *
 * The functions below state what a batch does; the class's methods do it
 * step by step, with loops, and are proved to agree with them.
 */
module Service {
  import opened Wrappers
  import opened Entity
  import opened Repository

  // ---------------------------------------------------------------------------
  // Validation and normalisation (saveBatch)
  // ---------------------------------------------------------------------------

  /** The longest accepted duration: six hours, in milliseconds. */
  const MaxDurationMs: int := 21600000

  const NanosPerSecond: int := 1_000_000_000

  /** How far past `now` an event time may lie: fifteen minutes. */
  const FutureTolerance: int := 15 * 60 * NanosPerSecond

  datatype RejectionReason = InvalidDuration | FutureEventTime

  /** `MachineEventRejected`: the id of a rejected event and why it was rejected. */
  datatype Rejection = Rejection(eventId: string, reason: RejectionReason)

  /** `MachineEventsBatchResponse`. */
  datatype BatchResponse = BatchResponse(accepted: int, deduped: int, updated: int, rejected: int,
                                         rejections: seq<Rejection>)

  /** What validation makes of one event: the normalised event, or a reason to reject it. */
  datatype Verdict = Accepted(event: EventData) | Rejected(reason: RejectionReason)

  predicate InDurationRange(durationMs: int)
  {
    0 <= durationMs <= MaxDurationMs
  }

  /** The `-1` sentinel for an unknown defect count becomes null; nothing else changes. */
  function Normalize(e: EventData): (n: EventData)
    ensures n.defectCount != Some(-1)
    ensures n == e.(defectCount := n.defectCount)
    ensures e.defectCount == Some(-1) ==> n.defectCount.None?
    ensures e.defectCount != Some(-1) ==> n == e
  {
    if e.defectCount == Some(-1) then e.(defectCount := None) else e
  }

  /**
   * The checks of one event, in the order the loop makes them: the duration
   * first, then the event time, which is dereferenced without a null check.
   */
  function Validate(e: EventData, now: Instant): (v: Outcome<Verdict>)
    ensures !InDurationRange(e.durationMs) ==> v == Returns(Rejected(InvalidDuration))
    ensures InDurationRange(e.durationMs) && e.eventTime.None? ==> v.ThrowsNullPointer?
    ensures InDurationRange(e.durationMs) && e.eventTime.Some? ==>
              v.Returns? &&
              (v.value == Rejected(FutureEventTime) <==> e.eventTime.value > now + FutureTolerance) &&
              (v.value.Accepted? <==> e.eventTime.value <= now + FutureTolerance)
    ensures v.Returns? && v.value.Accepted? ==> v.value.event == Normalize(e)
  {
    if !InDurationRange(e.durationMs) then Returns(Rejected(InvalidDuration))
    else if e.eventTime.None? then ThrowsNullPointer
    else if e.eventTime.value > now + FutureTolerance then Returns(Rejected(FutureEventTime))
    else Returns(Accepted(Normalize(e)))
  }

  /** Both ends of the duration range are accepted; the first values outside it are not. */
  lemma DurationBoundaries(e: EventData, now: Instant)
    requires e.eventTime.Some? && e.eventTime.value <= now
    ensures Validate(e.(durationMs := 0), now).value.Accepted?
    ensures Validate(e.(durationMs := 21600000), now).value.Accepted?
    ensures Validate(e.(durationMs := -1), now) == Returns(Rejected(InvalidDuration))
    ensures Validate(e.(durationMs := -100), now) == Returns(Rejected(InvalidDuration))
    ensures Validate(e.(durationMs := 21600001), now) == Returns(Rejected(InvalidDuration))
    ensures Validate(e.(durationMs := 30000000), now) == Returns(Rejected(InvalidDuration))
  {
  }

  /** An event time of exactly `now` + 15 minutes is accepted; one nanosecond later is not. */
  lemma FutureBoundary(e: EventData, now: Instant)
    requires InDurationRange(e.durationMs)
    ensures Validate(e.(eventTime := Some(now + 900 * NanosPerSecond)), now).value.Accepted?
    ensures Validate(e.(eventTime := Some(now + 900 * NanosPerSecond + 1)), now) == Returns(Rejected(FutureEventTime))
  {
  }

  /** The duration is checked first: a future-dated event with a bad duration is an invalid duration. */
  lemma DurationCheckedFirst(e: EventData, now: Instant)
    requires !InDurationRange(e.durationMs)
    ensures Validate(e, now) == Returns(Rejected(InvalidDuration))
    ensures Validate(e.(eventTime := None), now) == Returns(Rejected(InvalidDuration))
  {
  }

  /** The accepted events and the rejections of a batch. */
  datatype Screened = Screened(valid: seq<EventData>, rejections: seq<Rejection>)

  /** The validation loop of `saveBatch` over the whole list. */
  function Screen(events: seq<EventData>, now: Instant): (s: Outcome<Screened>)
    ensures s.Returns? ==> |s.value.valid| + |s.value.rejections| == |events|
    ensures s.Returns? ==> forall v :: v in s.value.valid ==>
              && InDurationRange(v.durationMs) && v.defectCount != Some(-1)
              && v.eventTime.Some? && v.eventTime.value <= now + FutureTolerance
    decreases |events|
  {
    if events == [] then Returns(Screened([], []))
    else
      var e := events[|events| - 1];
      match Screen(events[..|events| - 1], now)
      case ThrowsNullPointer => ThrowsNullPointer
      case Returns(acc) =>
        match Validate(e, now)
        case ThrowsNullPointer => ThrowsNullPointer
        case Returns(Accepted(n)) => Returns(Screened(acc.valid + [n], acc.rejections))
        case Returns(Rejected(reason)) => Returns(Screened(acc.valid, acc.rejections + [Rejection(e.eventId, reason)]))
  }

  /** The validation loop stops at the first event whose time is null and whose duration is valid. */
  lemma {:induction false} ScreenThrows(events: seq<EventData>, now: Instant)
    ensures Screen(events, now).ThrowsNullPointer? <==>
              exists i :: 0 <= i < |events| && Validate(events[i], now).ThrowsNullPointer?
    decreases |events|
  {
    if events != [] {
      var n := |events| - 1;
      var prefix := events[..n];
      ScreenThrows(prefix, now);
      if exists i :: 0 <= i < n && Validate(prefix[i], now).ThrowsNullPointer? {
        var i :| 0 <= i < n && Validate(prefix[i], now).ThrowsNullPointer?;
        assert events[i] == prefix[i];
      }
      if exists i :: 0 <= i < |events| && Validate(events[i], now).ThrowsNullPointer? {
        var i :| 0 <= i < |events| && Validate(events[i], now).ThrowsNullPointer?;
        if i < n {
          assert prefix[i] == events[i];
        }
      }
    }
  }

  /** Strictly increasing positions inside a list of length `n`. */
  predicate IncreasingPositions(p: seq<nat>, n: nat)
  {
    && (forall k :: 0 <= k < |p| ==> p[k] < n)
    && (forall j, k :: 0 <= j < k < |p| ==> p[j] < p[k])
  }

  /**
   * The positions of the events that validation accepts (`accepted`) or
   * rejects (`!accepted`), in input order.
   */
  function Positions(events: seq<EventData>, now: Instant, accepted: bool): (p: seq<nat>)
    ensures IncreasingPositions(p, |events|)
    decreases |events|
  {
    if events == [] then []
    else
      var n := |events| - 1;
      var v := Validate(events[n], now);
      var p := Positions(events[..n], now, accepted);
      if v.Returns? && v.value.Accepted? == accepted then p + [n] else p
  }

  /** A position is listed exactly when validation returns at it with the wanted verdict. */
  lemma {:induction false} PositionsMembers(events: seq<EventData>, now: Instant, accepted: bool)
    ensures forall i :: i in Positions(events, now, accepted) <==>
              0 <= i < |events| && Validate(events[i], now).Returns? &&
              Validate(events[i], now).value.Accepted? == accepted
    decreases |events|
  {
    if events != [] {
      var n := |events| - 1;
      PositionsMembers(events[..n], now, accepted);
      assert forall i :: 0 <= i < n ==> events[..n][i] == events[i];
    }
  }

  /** The k-th valid event is the normalised k-th accepted input. */
  lemma {:induction false} ScreenKeepsValidOrder(events: seq<EventData>, now: Instant)
    requires Screen(events, now).Returns?
    ensures var valid, accepted := Screen(events, now).value.valid, Positions(events, now, true);
            && |valid| == |accepted|
            && forall k :: 0 <= k < |accepted| ==> valid[k] == Normalize(events[accepted[k]])
    decreases |events|
  {
    if events != [] {
      var n := |events| - 1;
      var prefix := events[..n];
      ScreenKeepsValidOrder(prefix, now);
      var valid, valid0 := Screen(events, now).value.valid, Screen(prefix, now).value.valid;
      var accepted, accepted0 := Positions(events, now, true), Positions(prefix, now, true);
      forall k | 0 <= k < |accepted0| ensures events[accepted0[k]] == prefix[accepted0[k]] {
      }
      if Validate(events[n], now).value.Accepted? {
        assert valid == valid0 + [Normalize(events[n])];
        assert accepted == accepted0 + [n];
      } else {
        assert valid == valid0 && accepted == accepted0;
      }
    }
  }

  /** The k-th rejection carries the id and reason of the k-th rejected input. */
  lemma {:induction false} ScreenKeepsRejectionOrder(events: seq<EventData>, now: Instant)
    requires Screen(events, now).Returns?
    ensures var rejections, rejected := Screen(events, now).value.rejections, Positions(events, now, false);
            && |rejections| == |rejected|
            && forall k :: 0 <= k < |rejected| ==>
                 Validate(events[rejected[k]], now) == Returns(Rejected(rejections[k].reason)) &&
                 rejections[k].eventId == events[rejected[k]].eventId
    decreases |events|
  {
    if events != [] {
      var n := |events| - 1;
      var prefix := events[..n];
      ScreenKeepsRejectionOrder(prefix, now);
      var rejections, rejections0 := Screen(events, now).value.rejections, Screen(prefix, now).value.rejections;
      var rejected, rejected0 := Positions(events, now, false), Positions(prefix, now, false);
      forall k | 0 <= k < |rejected0| ensures events[rejected0[k]] == prefix[rejected0[k]] {
      }
      var v := Validate(events[n], now);
      if v.value.Rejected? {
        assert rejections == rejections0 + [Rejection(events[n].eventId, v.value.reason)];
        assert rejected == rejected0 + [n];
      } else {
        assert rejections == rejections0 && rejected == rejected0;
      }
    }
  }

  /** Every rejected or accepted event counts once: the two position lists partition the input. */
  lemma ScreenPartitions(events: seq<EventData>, now: Instant)
    requires Screen(events, now).Returns?
    ensures forall i :: 0 <= i < |events| ==>
              (i in Positions(events, now, true) <==> i !in Positions(events, now, false))
  {
    ScreenThrows(events, now);
    PositionsMembers(events, now, true);
    PositionsMembers(events, now, false);
  }

  /** Validation at a later `now` gives the same result unless an event crosses the future limit in between. */
  lemma {:induction false} ScreenStable(events: seq<EventData>, now1: Instant, now2: Instant)
    requires now1 <= now2
    requires forall e :: e in events && e.eventTime.Some? ==>
               !(now1 + FutureTolerance < e.eventTime.value <= now2 + FutureTolerance)
    ensures Screen(events, now2) == Screen(events, now1)
    decreases |events|
  {
    if events != [] {
      var n := |events| - 1;
      assert forall e :: e in events[..n] ==> e in events;
      ScreenStable(events[..n], now1, now2);
      assert Validate(events[n], now1) == Validate(events[n], now2);
    }
  }

  // ---------------------------------------------------------------------------
  // In-batch deduplication (persistValidEvents, the putIfAbsent loop)
  // ---------------------------------------------------------------------------

  /** The batch keyed by id, each id holding its first occurrence. */
  function FirstById(events: seq<EventData>): (m: map<string, EventData>)
    ensures m.Keys == IdsOf(events)
    ensures forall id :: id in m ==> m[id].eventId == id && m[id] in events
    decreases |events|
  {
    if events == [] then map[]
    else
      var n := |events| - 1;
      var e := events[n];
      var m := FirstById(events[..n]);
      assert events == events[..n] + [e];
      if e.eventId in m then m else m[e.eventId := e]
  }

  /** A list has at most as many distinct ids as elements. */
  lemma {:induction false} IdsOfSize(events: seq<EventData>)
    ensures |IdsOf(events)| <= |events|
    decreases |events|
  {
    if events != [] {
      var n := |events| - 1;
      IdsOfSize(events[..n]);
      assert IdsOf(events) == IdsOf(events[..n]) + {events[n].eventId} by {
        assert events == events[..n] + [events[n]];
      }
    }
  }

  /** The first occurrence of an id is the one kept; later ones are dropped. */
  lemma {:induction false} FirstByIdKeepsFirst(events: seq<EventData>, i: nat)
    requires i < |events|
    requires forall j :: 0 <= j < i ==> events[j].eventId != events[i].eventId
    ensures FirstById(events)[events[i].eventId] == events[i]
    decreases |events|
  {
    var n := |events| - 1;
    var prefix := events[..n];
    if i < n {
      assert prefix[i] == events[i];
      FirstByIdKeepsFirst(prefix, i);
    } else {
      assert events[i].eventId !in IdsOf(prefix);
    }
  }

  // ---------------------------------------------------------------------------
  // Conflict resolution against the stored rows
  // ---------------------------------------------------------------------------

  /** What becomes of an incoming event whose id already has a stored row. */
  datatype Resolution =
    | Duplicate   // equal to the stored row: counted as deduped, not written
    | Stale       // explicitly older than the stored row: dropped, not counted
    | Update      // written over the stored row, counted as updated

  /**
   * The classification of one stored row against the incoming event:
   * `stored.equals(incoming)` first, then `incoming.receivedTime.isBefore(stored.receivedTime)`
   * when the incoming time is present; `isBefore(null)` raises a NullPointerException.
   */
  function Classify(stored: EventData, incoming: EventData): (r: Outcome<Resolution>)
    ensures r == Returns(Duplicate) <==> Equals(stored, AnEvent(incoming)) == Returns(true)
    ensures r == Returns(Stale) ==>
              incoming.receivedTime.Some? && stored.receivedTime.Some? &&
              incoming.receivedTime.value < stored.receivedTime.value
    ensures r.ThrowsNullPointer? ==>
              Equals(stored, AnEvent(incoming)).ThrowsNullPointer? ||
              (incoming.receivedTime.Some? && stored.receivedTime.None?)
  {
    match Equals(stored, AnEvent(incoming))
    case ThrowsNullPointer => ThrowsNullPointer
    case Returns(true) => Returns(Duplicate)
    case Returns(false) =>
      if incoming.receivedTime.None? then Returns(Update)
      else if stored.receivedTime.None? then ThrowsNullPointer
      else if incoming.receivedTime.value < stored.receivedTime.value then Returns(Stale)
      else Returns(Update)
  }

  /**
   * The three outcomes and the exception, each in terms of `equals` and the
   * two `receivedTime`s: an equal event is a duplicate whatever its time, an
   * explicitly older one is stale, and anything else is an update.
   */
  lemma ClassifyCases(stored: EventData, incoming: EventData)
    ensures Classify(stored, incoming) == Returns(Duplicate) <==> Equals(stored, AnEvent(incoming)) == Returns(true)
    ensures Classify(stored, incoming) == Returns(Stale) <==>
              Equals(stored, AnEvent(incoming)) == Returns(false) &&
              incoming.receivedTime.Some? && stored.receivedTime.Some? &&
              incoming.receivedTime.value < stored.receivedTime.value
    ensures Classify(stored, incoming) == Returns(Update) <==>
              Equals(stored, AnEvent(incoming)) == Returns(false) &&
              (incoming.receivedTime.None? ||
               (stored.receivedTime.Some? && stored.receivedTime.value <= incoming.receivedTime.value))
    ensures Classify(stored, incoming).ThrowsNullPointer? <==>
              Equals(stored, AnEvent(incoming)).ThrowsNullPointer? ||
              (Equals(stored, AnEvent(incoming)) == Returns(false) &&
               incoming.receivedTime.Some? && stored.receivedTime.None?)
  {
  }

  /** A stored row with a null `machineId` cannot be matched again: comparing it with the same event throws. */
  lemma NullMachineIdBreaksResubmission(stored: EventData, incoming: EventData)
    requires stored.eventId == incoming.eventId && stored.eventTime.Some?
    requires stored.eventTime == incoming.eventTime && stored.machineId.None?
    ensures Classify(stored, incoming).ThrowsNullPointer?
  {
  }

  /** The ids of the batch that already have a stored row. */
  function Existing(rows: Rows, batch: map<string, EventData>): set<string>
  {
    batch.Keys * rows.Keys
  }

  /** How each id of a batch resolves against the stored rows. */
  type Verdicts = map<string, Outcome<Resolution>>

  /** The resolution of every id of the batch that already has a stored row. */
  function Classification(rows: Rows, batch: map<string, EventData>): Verdicts
  {
    map id | id in Existing(rows, batch) :: Classify(rows[id], batch[id])
  }

  /** The ids of `scope` that resolve to `c`. */
  function ResolvedAs(verdicts: Verdicts, scope: set<string>, c: Resolution): (ids: set<string>)
    requires scope <= verdicts.Keys
    ensures ids <= scope
  {
    set id | id in scope && verdicts[id] == Returns(c)
  }

  /** Some id of `scope` makes the classification throw. */
  predicate ThrowsIn(verdicts: Verdicts, scope: set<string>)
    requires scope <= verdicts.Keys
  {
    exists id :: id in scope && verdicts[id].ThrowsNullPointer?
  }

  /** The entries of the batch left once the duplicates and stale events of `scope` are removed. */
  function SurvivorsIn(batch: map<string, EventData>, verdicts: Verdicts, scope: set<string>): (s: map<string, EventData>)
    requires scope <= verdicts.Keys
    ensures forall id :: id in s ==> id in batch && s[id] == batch[id]
  {
    batch - (ResolvedAs(verdicts, scope, Duplicate) + ResolvedAs(verdicts, scope, Stale))
  }

  /** Every survivor, stamped with the batch's `now` whatever `receivedTime` it carried. */
  function Stamp(survivors: map<string, EventData>, now: Instant): (w: map<string, EventData>)
    ensures w.Keys == survivors.Keys
    ensures forall id :: id in w ==> w[id].receivedTime == Some(now) && PayloadOf(w[id]) == PayloadOf(survivors[id])
  {
    map id | id in survivors :: survivors[id].(receivedTime := Some(now))
  }

  /** The response of a batch and the table after it. */
  datatype Persisted = Persisted(response: BatchResponse, rows: Rows)

  /** What the classification loop leaves: the surviving entries and the two counters. */
  datatype Resolved = Resolved(survivors: map<string, EventData>, deduped: int, updated: int)

  /**
   * The classification of the whole batch: an exception if any stored id
   * throws, otherwise the survivors and the numbers of duplicates and updates.
   */
  ghost function ResolvedBatch(rows: Rows, batch: map<string, EventData>): (r: Outcome<Resolved>)
    ensures r.ThrowsNullPointer? <==>
              exists id :: id in batch && id in rows && Classify(rows[id], batch[id]).ThrowsNullPointer?
    ensures r.Returns? ==>
              (forall id :: id in r.value.survivors ==> id in batch && r.value.survivors[id] == batch[id]) &&
              (forall id :: id in batch && id !in rows ==> id in r.value.survivors)
  {
    var verdicts := Classification(rows, batch);
    ClassificationThrows(rows, batch);
    NewIdsSurvive(rows, batch);
    if ThrowsIn(verdicts, verdicts.Keys) then ThrowsNullPointer
    else Returns(Resolved(SurvivorsIn(batch, verdicts, verdicts.Keys),
                          |ResolvedAs(verdicts, verdicts.Keys, Duplicate)|,
                          |ResolvedAs(verdicts, verdicts.Keys, Update)|))
  }

  /** The classification throws exactly when comparing some stored id of the batch throws. */
  lemma ClassificationThrows(rows: Rows, batch: map<string, EventData>)
    ensures var v := Classification(rows, batch);
            ThrowsIn(v, v.Keys) <==>
              exists id :: id in batch && id in rows && Classify(rows[id], batch[id]).ThrowsNullPointer?
  {
    var v := Classification(rows, batch);
    if ThrowsIn(v, v.Keys) {
      var id :| id in v.Keys && v[id].ThrowsNullPointer?;
      assert id in batch && id in rows;
    }
    if exists id :: id in batch && id in rows && Classify(rows[id], batch[id]).ThrowsNullPointer? {
      var id :| id in batch && id in rows && Classify(rows[id], batch[id]).ThrowsNullPointer?;
      assert id in v.Keys && v[id].ThrowsNullPointer?;
    }
  }

  /** An id new to the table is never classified, so it always survives. */
  lemma NewIdsSurvive(rows: Rows, batch: map<string, EventData>)
    ensures var v := Classification(rows, batch);
            forall id :: id in batch && id !in rows ==> id in SurvivorsIn(batch, v, v.Keys)
  {
    var v := Classification(rows, batch);
    forall id | id in batch && id !in rows ensures id in SurvivorsIn(batch, v, v.Keys) {
      assert id !in v.Keys;
    }
  }

  /** Overlaying survivors that hold every new id, and only ids of the batch, stores every id of the batch. */
  lemma StampedKeys(rows: Rows, batch: map<string, EventData>, survivors: map<string, EventData>, now: Instant)
    requires forall id :: id in survivors ==> id in batch
    requires forall id :: id in batch && id !in rows ==> id in survivors
    ensures (rows + Stamp(survivors, now)).Keys == rows.Keys + batch.Keys
  {
  }

  /** What resolving the deduplicated batch against the stored rows yields. */
  ghost function Reconcile(rows: Rows, batch: map<string, EventData>, rejections: seq<Rejection>, now: Instant)
    : (p: Outcome<Persisted>)
    ensures p.Returns? ==> p.value.response.rejected == |p.value.response.rejections|
    ensures p.Returns? ==> p.value.rows.Keys == rows.Keys + batch.Keys
  {
    match ResolvedBatch(rows, batch)
    case ThrowsNullPointer => ThrowsNullPointer
    case Returns(Resolved(survivors, deduped, updated)) =>
      StampedKeys(rows, batch, survivors, now);
      Returns(Persisted(BatchResponse(|survivors| - updated, deduped, updated, |rejections|, rejections),
                        rows + Stamp(survivors, now)))
  }

  /** What `persistValidEvents` does with the valid events, given the rows stored before it. */
  ghost function Persist(rows: Rows, valid: seq<EventData>, rejections: seq<Rejection>, now: Instant)
    : (p: Outcome<Persisted>)
    ensures p.Returns? ==> p.value.response.rejections == rejections
    ensures p.Returns? ==> p.value.rows.Keys == rows.Keys + IdsOf(valid)
  {
    Reconcile(rows, FirstById(valid), rejections, now)
  }

  /** `Persist` in terms of the classification of the deduplicated batch. */
  lemma PersistResolved(rows: Rows, valid: seq<EventData>, rejections: seq<Rejection>, now: Instant,
                        resolved: Outcome<Resolved>)
    requires resolved == ResolvedBatch(rows, FirstById(valid))
    ensures resolved.ThrowsNullPointer? <==> Persist(rows, valid, rejections, now).ThrowsNullPointer?
    ensures resolved.Returns? ==>
              var Resolved(survivors, deduped, updated) := resolved.value;
              && Persist(rows, valid, rejections, now).value.response ==
                   BatchResponse(|survivors| - updated, deduped, updated, |rejections|, rejections)
              && Persist(rows, valid, rejections, now).value.rows == rows + Stamp(survivors, now)
  {
  }

  /** What `saveBatch` does with a list of events, given the rows stored before it. */
  ghost function Ingest(rows: Rows, events: seq<EventData>, now: Instant): (p: Outcome<Persisted>)
    ensures p.ThrowsNullPointer? <==>
              Screen(events, now).ThrowsNullPointer? ||
              Persist(rows, Screen(events, now).value.valid, Screen(events, now).value.rejections, now).ThrowsNullPointer?
  {
    match Screen(events, now)
    case ThrowsNullPointer => ThrowsNullPointer
    case Returns(s) => Persist(rows, s.valid, s.rejections, now)
  }

  // ---------------------------------------------------------------------------
  // Properties of a batch
  // ---------------------------------------------------------------------------

  /** The ids that resolve are exactly the stored ids of the batch. */
  lemma ClassificationKeys(rows: Rows, batch: map<string, EventData>)
    ensures Classification(rows, batch).Keys == Existing(rows, batch)
  {
  }

  /** When nothing throws, every classified id is exactly one of deduped, stale or updated. */
  lemma ResolutionPartitions(verdicts: Verdicts)
    requires !ThrowsIn(verdicts, verdicts.Keys)
    ensures |verdicts.Keys| == |ResolvedAs(verdicts, verdicts.Keys, Duplicate)| + |ResolvedAs(verdicts, verdicts.Keys, Stale)|
                               + |ResolvedAs(verdicts, verdicts.Keys, Update)|
  {
    var scope := verdicts.Keys;
    var dup, stale, upd := ResolvedAs(verdicts, scope, Duplicate), ResolvedAs(verdicts, scope, Stale),
                           ResolvedAs(verdicts, scope, Update);
    forall id | id in scope ensures id in dup || id in stale || id in upd {
      match verdicts[id]
      case Returns(Duplicate) =>
      case Returns(Stale) =>
      case Returns(Update) =>
    }
    assert scope == dup + stale + upd;
    assert dup * stale == {} && (dup + stale) * upd == {};
  }

  /** When nothing throws, the survivors are the ids new to the table and the updated ones. */
  lemma SurvivorKeys(rows: Rows, batch: map<string, EventData>)
    requires var v := Classification(rows, batch); !ThrowsIn(v, v.Keys)
    ensures var v := Classification(rows, batch);
            SurvivorsIn(batch, v, v.Keys).Keys == (batch.Keys - rows.Keys) + ResolvedAs(v, v.Keys, Update)
  {
  }

  /** The size of a map whose keys fall into two disjoint parts. */
  lemma SizeOfSplitMap<K, V>(m: map<K, V>, a: set<K>, b: set<K>)
    requires m.Keys == a + b && a * b == {}
    ensures |m| == |a| + |b|
  {
    assert |m| == |m.Keys|;
  }

  /** When nothing throws, there are as many survivors as new ids and updated ids together. */
  lemma SurvivorsCount(rows: Rows, batch: map<string, EventData>)
    requires var v := Classification(rows, batch); !ThrowsIn(v, v.Keys)
    ensures var v := Classification(rows, batch);
            |SurvivorsIn(batch, v, v.Keys)| == |batch.Keys - rows.Keys| + |ResolvedAs(v, v.Keys, Update)|
  {
    var v := Classification(rows, batch);
    SurvivorKeys(rows, batch);
    SizeOfSplitMap(SurvivorsIn(batch, v, v.Keys), batch.Keys - rows.Keys, ResolvedAs(v, v.Keys, Update));
  }

  /** Every id of the batch is either new to the table or already stored. */
  lemma BatchSplits(rows: Rows, batch: map<string, EventData>)
    ensures |batch| == |batch.Keys - rows.Keys| + |Existing(rows, batch)|
  {
    SizeOfSplitMap(batch, batch.Keys - rows.Keys, Existing(rows, batch));
  }

  /**
   * The counters: `accepted` is the number of ids new to the table, and
   * every stored id of the batch is deduped, updated or dropped as stale.
   */
  lemma ReconcileCounters(rows: Rows, batch: map<string, EventData>, rejections: seq<Rejection>, now: Instant)
    requires Reconcile(rows, batch, rejections, now).Returns?
    ensures var r := Reconcile(rows, batch, rejections, now).value.response;
            var v := Classification(rows, batch);
            && r.accepted == |batch.Keys - rows.Keys|
            && r.deduped + r.updated + |ResolvedAs(v, v.Keys, Stale)| == |Existing(rows, batch)|
            && 0 <= r.accepted && r.accepted + r.deduped + r.updated <= |batch|
  {
    ClassificationKeys(rows, batch);
    ResolutionPartitions(Classification(rows, batch));
    SurvivorsCount(rows, batch);
    BatchSplits(rows, batch);
  }

  /** In-batch duplicates are counted nowhere: the counters add up to at most the number of valid events. */
  lemma PersistCounters(rows: Rows, valid: seq<EventData>, rejections: seq<Rejection>, now: Instant)
    requires Persist(rows, valid, rejections, now).Returns?
    ensures var r := Persist(rows, valid, rejections, now).value.response;
            0 <= r.accepted && r.accepted + r.deduped + r.updated <= |IdsOf(valid)| <= |valid|
  {
    ReconcileCounters(rows, FirstById(valid), rejections, now);
    assert |FirstById(valid)| == |FirstById(valid).Keys|;
    IdsOfSize(valid);
  }

  /** Over the whole call, every input event is counted at most once. */
  lemma IngestCounters(rows: Rows, events: seq<EventData>, now: Instant)
    requires Ingest(rows, events, now).Returns?
    ensures var r := Ingest(rows, events, now).value.response;
            && 0 <= r.accepted && r.rejected == |r.rejections|
            && r.accepted + r.deduped + r.updated + r.rejected <= |events|
  {
    var s := Screen(events, now).value;
    PersistCounters(rows, s.valid, s.rejections, now);
  }

  /** Which incoming events survive to be written: the new ids and the updates. */
  lemma SurvivorsAreNewOrUpdated(rows: Rows, batch: map<string, EventData>, id: string)
    requires var v := Classification(rows, batch); !ThrowsIn(v, v.Keys)
    requires id in batch
    ensures var v := Classification(rows, batch);
            id in SurvivorsIn(batch, v, v.Keys) <==> id !in rows || Classify(rows[id], batch[id]) == Returns(Update)
  {
  }

  /**
   * What is written: every new id and every updated id, with the batch's
   * `now` as its `receivedTime`; every other row stays as it was.
   */
  lemma ReconcileWrites(rows: Rows, batch: map<string, EventData>, rejections: seq<Rejection>, now: Instant, id: string)
    requires Reconcile(rows, batch, rejections, now).Returns?
    ensures var after := Reconcile(rows, batch, rejections, now).value.rows;
            && (id in after <==> id in rows || id in batch)
            && (id in batch && (id !in rows || Classify(rows[id], batch[id]) == Returns(Update)) ==>
                  after[id] == batch[id].(receivedTime := Some(now)))
            && (id in rows && (id !in batch || Classify(rows[id], batch[id]) != Returns(Update)) ==>
                  after[id] == rows[id])
  {
    if id in batch {
      SurvivorsAreNewOrUpdated(rows, batch, id);
    }
  }

  /**
   * The batch path writes with `saveAll`, not with the upsert: an update
   * stamped with a `now` earlier than the stored `receivedTime` moves that
   * time backwards, where the upsert would have kept the stored row.
   */
  lemma BatchCanMoveReceivedTimeBack(rows: Rows, batch: map<string, EventData>, rejections: seq<Rejection>,
                                     now: Instant, id: string)
    requires Reconcile(rows, batch, rejections, now).Returns?
    requires id in batch && id in rows
    requires Classify(rows[id], batch[id]) == Returns(Update)
    requires rows[id].receivedTime.Some? && now < rows[id].receivedTime.value
    ensures var after := Reconcile(rows, batch, rejections, now).value.rows;
            && after[id].receivedTime == Some(now)
            && Upsert(rows, after[id])[id] == rows[id]
  {
    ReconcileWrites(rows, batch, rejections, now, id);
  }

  /** An event without `receivedTime` that has an event time and a machine id. */
  predicate Resubmittable(e: EventData)
  {
    e.receivedTime.None? && e.eventTime.Some? && e.machineId.Some?
  }

  /** The valid events of a batch whose events carry a machine id and no `receivedTime` can be resubmitted. */
  lemma ValidEventsResubmittable(events: seq<EventData>, now: Instant)
    requires forall e :: e in events ==> e.receivedTime.None? && e.machineId.Some?
    requires Screen(events, now).Returns?
    ensures forall id :: id in FirstById(Screen(events, now).value.valid) ==>
              Resubmittable(FirstById(Screen(events, now).value.valid)[id])
  {
    var valid := Screen(events, now).value.valid;
    ScreenKeepsValidOrder(events, now);
    var accepted := Positions(events, now, true);
    forall v | v in valid ensures v.receivedTime.None? && v.machineId.Some? {
      var k :| 0 <= k < |valid| && valid[k] == v;
      assert events[accepted[k]] in events;
    }
  }

  /** A resubmittable event matches its own copy, whatever `receivedTime` the copy was stamped with. */
  lemma StampedCopyMatches(e: EventData, now: Instant)
    requires Resubmittable(e)
    ensures Classify(e.(receivedTime := Some(now)), e) == Returns(Duplicate)
  {
  }

  /** When the batch resolves, no stored id of it throws. */
  lemma StoredIdResolves(rows: Rows, batch: map<string, EventData>, id: string)
    requires ResolvedBatch(rows, batch).Returns?
    requires id in batch && id in rows
    ensures Classify(rows[id], batch[id]).Returns?
  {
    assert id in Classification(rows, batch);
  }

  /** After a batch is written, a resubmittable event of it matches its stored row. */
  lemma WrittenEventMatches(rows: Rows, batch: map<string, EventData>, rejections: seq<Rejection>, now: Instant, id: string)
    requires id in batch && Resubmittable(batch[id])
    requires Reconcile(rows, batch, rejections, now).Returns?
    ensures var after := Reconcile(rows, batch, rejections, now).value.rows;
            id in after && Classify(after[id], batch[id]) == Returns(Duplicate)
  {
    ReconcileWrites(rows, batch, rejections, now, id);
    if id in rows && Classify(rows[id], batch[id]) != Returns(Update) {
      StoredIdResolves(rows, batch, id);
      assert Classify(rows[id], batch[id]) != Returns(Stale);
    } else {
      StampedCopyMatches(batch[id], now);
    }
  }

  /** After a batch of resubmittable events is written, each of them matches its stored row. */
  lemma WrittenBatchMatchesItself(rows: Rows, batch: map<string, EventData>, rejections: seq<Rejection>, now: Instant)
    requires forall id :: id in batch ==> Resubmittable(batch[id])
    requires Reconcile(rows, batch, rejections, now).Returns?
    ensures var after := Reconcile(rows, batch, rejections, now).value.rows;
            forall id :: id in batch ==> id in after && Classify(after[id], batch[id]) == Returns(Duplicate)
  {
    forall id | id in batch
      ensures id in Reconcile(rows, batch, rejections, now).value.rows
      ensures Classify(Reconcile(rows, batch, rejections, now).value.rows[id], batch[id]) == Returns(Duplicate)
    {
      WrittenEventMatches(rows, batch, rejections, now, id);
    }
  }

  /** When every event of the batch matches its stored row, all are duplicates and none survives. */
  lemma AllDuplicatesResolve(rows: Rows, batch: map<string, EventData>)
    requires forall id :: id in batch ==> id in rows && Classify(rows[id], batch[id]) == Returns(Duplicate)
    ensures ResolvedBatch(rows, batch) == Returns(Resolved(map[], |batch|, 0))
  {
    var v := Classification(rows, batch);
    assert v.Keys == batch.Keys;
    forall id | id in batch ensures id in ResolvedAs(v, v.Keys, Duplicate) {
    }
    assert ResolvedAs(v, v.Keys, Duplicate) == batch.Keys;
    assert ResolvedAs(v, v.Keys, Update) == {};
    assert |batch| == |batch.Keys|;
    assert SurvivorsIn(batch, v, v.Keys).Keys == {};
  }

  /** A batch whose every event matches its stored row is all deduped and writes nothing. */
  lemma AllDuplicatesWriteNothing(rows: Rows, batch: map<string, EventData>, rejections: seq<Rejection>, now: Instant)
    requires forall id :: id in batch ==> id in rows && Classify(rows[id], batch[id]) == Returns(Duplicate)
    ensures Reconcile(rows, batch, rejections, now).Returns?
    ensures Reconcile(rows, batch, rejections, now).value.rows == rows
    ensures Reconcile(rows, batch, rejections, now).value.response == BatchResponse(0, |batch|, 0, |rejections|, rejections)
  {
    AllDuplicatesResolve(rows, batch);
    assert Stamp(map[], now) == map[];
    assert rows + map[] == rows;
  }

  /**
   * Sending the same batch again (events without `receivedTime`, with a
   * `machineId`, none crossing the future limit in between) writes nothing:
   * every distinct valid id is counted as deduped and none as accepted or updated.
   */
  lemma ResubmissionIsDeduplicated(rows: Rows, events: seq<EventData>, now1: Instant, now2: Instant)
    requires now1 <= now2
    requires forall e :: e in events ==> e.receivedTime.None? && e.machineId.Some?
    requires forall e :: e in events && e.eventTime.Some? ==>
               !(now1 + FutureTolerance < e.eventTime.value <= now2 + FutureTolerance)
    requires Ingest(rows, events, now1).Returns?
    ensures var first := Ingest(rows, events, now1).value;
            var again := Ingest(first.rows, events, now2);
            && again.Returns?
            && again.value.rows == first.rows
            && again.value.response.accepted == 0 && again.value.response.updated == 0
            && again.value.response.deduped == |IdsOf(Screen(events, now1).value.valid)|
            && again.value.response.rejections == first.response.rejections
  {
    ScreenStable(events, now1, now2);
    var s := Screen(events, now1).value;
    var batch := FirstById(s.valid);
    ValidEventsResubmittable(events, now1);
    WrittenBatchMatchesItself(rows, batch, s.rejections, now1);
    AllDuplicatesWriteNothing(Reconcile(rows, batch, s.rejections, now1).value.rows, batch, s.rejections, now2);
  }

  // ---------------------------------------------------------------------------
  // The service object
  // ---------------------------------------------------------------------------

  /**
   * A call that returned `r` and left the table at `after` did what `p`
   * describes: on an exception the table is as it was `before`; otherwise the
   * response and the new table are those of `p`.
   */
  ghost predicate Performed(p: Outcome<Persisted>, r: Outcome<BatchResponse>, before: Rows, after: Rows)
  {
    match p
    case ThrowsNullPointer => r.ThrowsNullPointer? && after == before
    case Returns(Persisted(response, rows)) => r == Returns(response) && after == rows
  }

  class MachineEventService {
    const repository: EventStore

    constructor (repository: EventStore)
      ensures this.repository == repository
    {
      this.repository := repository;
    }

    /**
     * `saveBatch(events)` with the clock reading `now` as a parameter:
     * validates every event, then hands the valid ones to `PersistValidEvents`.
     * A NullPointerException leaves the table as it was.
     */
    method SaveBatch(events: seq<EventData>, now: Instant) returns (r: Outcome<BatchResponse>)
      requires repository.Valid()
      modifies repository
      ensures repository.Valid()
      ensures Performed(Ingest(old(repository.rows), events, now), r, old(repository.rows), repository.rows)
    {
      var valid: seq<EventData> := [];
      var rejections: seq<Rejection> := [];
      for i := 0 to |events|
        invariant Screen(events[..i], now) == Returns(Screened(valid, rejections))
      {
        var e := events[i];
        assert events[..i + 1] == events[..i] + [e];
        if e.durationMs < 0 || e.durationMs > MaxDurationMs {
          rejections := rejections + [Rejection(e.eventId, InvalidDuration)];
        } else if e.eventTime.None? {
          ScreenThrows(events, now);
          assert Validate(events[i], now).ThrowsNullPointer?;
          return ThrowsNullPointer;
        } else if e.eventTime.value > now + FutureTolerance {
          rejections := rejections + [Rejection(e.eventId, FutureEventTime)];
        } else {
          if e.defectCount.Some? && e.defectCount.value == -1 {
            e := e.(defectCount := None);
          }
          valid := valid + [e];
        }
      }
      assert events[..|events|] == events;
      r := PersistValidEvents(valid, rejections, now);
    }

    /** Stamps every survivor with `now` and writes them all with `saveAll`. */
    method SaveStamped(survivors: map<string, EventData>, now: Instant)
      requires repository.Valid()
      requires forall id :: id in survivors ==> survivors[id].eventId == id
      modifies repository
      ensures repository.Valid()
      ensures repository.rows == old(repository.rows) + Stamp(survivors, now)
    {
      var stamped := StampAll(survivors, now);
      SavedStampedSurvivors(repository.rows, survivors, stamped, now);
      repository.SaveAll(stamped);
    }

    /**
     * `persistValidEvents`: keeps the first event of each id, resolves the
     * ids already stored, stamps the survivors with `now`, writes them with
     * `saveAll` and derives the counters.
     */
    method PersistValidEvents(valid: seq<EventData>, rejections: seq<Rejection>, now: Instant)
      returns (r: Outcome<BatchResponse>)
      requires repository.Valid()
      modifies repository
      ensures repository.Valid()
      ensures Performed(Persist(old(repository.rows), valid, rejections, now), r, old(repository.rows), repository.rows)
    {
      ghost var rows := repository.rows;
      var batch := KeepFirstById(valid);
      var existing := repository.FindAllById(batch.Keys);
      var resolved := ResolveStored(rows, batch, existing);
      PersistResolved(rows, valid, rejections, now, resolved);
      if resolved.ThrowsNullPointer? {
        return ThrowsNullPointer;
      }
      var Resolved(survivors, deduped, updated) := resolved.value;
      SaveStamped(survivors, now);
      r := Returns(BatchResponse(|survivors| - updated, deduped, updated, |rejections|, rejections));
      ghost var p := Persist(rows, valid, rejections, now);
      assert p.value.response == r.value && p.value.rows == repository.rows;
      assert r == Returns(p.value.response);
    }
  }

  /** The `putIfAbsent` loop: the first event of each id, keyed by id. */
  method KeepFirstById(valid: seq<EventData>) returns (batch: map<string, EventData>)
    ensures batch == FirstById(valid)
  {
    batch := map[];
    for i := 0 to |valid|
      invariant batch == FirstById(valid[..i])
    {
      assert valid[..i + 1][..i] == valid[..i];
      if valid[i].eventId !in batch {
        batch := batch[valid[i].eventId := valid[i]];
      }
    }
    assert valid[..|valid|] == valid;
  }

  /**
   * The loop over the stored rows found for the batch: a duplicate is counted
   * and removed, a stale event removed, an update counted.
   */
  method ResolveStored(ghost rows: Rows, batch: map<string, EventData>, existing: seq<EventData>)
    returns (r: Outcome<Resolved>)
    requires DistinctIds(existing) && IdsOf(existing) == Existing(rows, batch)
    requires forall k :: 0 <= k < |existing| ==> existing[k].eventId in rows && existing[k] == rows[existing[k].eventId]
    ensures r == ResolvedBatch(rows, batch)
  {
    ghost var verdicts := Classification(rows, batch);
    ClassificationKeys(rows, batch);
    ghost var seen: set<string> := {};
    assert existing[..0] == [];
    var acc := Resolved(batch, 0, 0);
    for k := 0 to |existing|
      invariant seen == IdsOf(existing[..k])
      invariant ResolvedUpTo(batch, verdicts, seen, acc)
    {
      NextStoredIsUnseen(existing, k);
      var next := ResolveOne(batch, verdicts, seen, existing[k], acc);
      if next.ThrowsNullPointer? {
        return ThrowsNullPointer;
      }
      acc := next.value;
      seen := seen + {existing[k].eventId};
    }
    assert existing[..|existing|] == existing;
    r := Returns(acc);
  }

  /** `acc` is what the loop has accumulated once the ids of `seen` are resolved, none of them throwing. */
  ghost predicate ResolvedUpTo(batch: map<string, EventData>, verdicts: Verdicts, seen: set<string>, acc: Resolved)
  {
    && seen <= verdicts.Keys
    && !ThrowsIn(verdicts, seen)
    && acc.survivors == SurvivorsIn(batch, verdicts, seen)
    && acc.deduped == |ResolvedAs(verdicts, seen, Duplicate)|
    && acc.updated == |ResolvedAs(verdicts, seen, Update)|
  }

  /**
   * One turn of the loop: a duplicate is counted and removed, a stale event
   * removed, an update counted; a NullPointerException abandons the loop.
   */
  method ResolveOne(batch: map<string, EventData>, ghost verdicts: Verdicts, ghost seen: set<string>,
                    stored: EventData, acc: Resolved)
    returns (r: Outcome<Resolved>)
    requires ResolvedUpTo(batch, verdicts, seen, acc)
    requires stored.eventId in verdicts && stored.eventId !in seen && stored.eventId in batch
    requires verdicts[stored.eventId] == Classify(stored, batch[stored.eventId])
    ensures r.ThrowsNullPointer? <==> verdicts[stored.eventId].ThrowsNullPointer?
    ensures r.Returns? ==> ResolvedUpTo(batch, verdicts, seen + {stored.eventId}, r.value)
  {
    var id := stored.eventId;
    var incoming := acc.survivors[id];
    var c := Classify(stored, incoming);
    if c.ThrowsNullPointer? {
      return ThrowsNullPointer;
    }
    SeenOneMore(batch, verdicts, seen, id, c.value);
    NoThrowOneMore(verdicts, seen, id);
    OneMoreResolvedAs(verdicts, seen, id, c.value, Duplicate);
    OneMoreResolvedAs(verdicts, seen, id, c.value, Update);
    if c.value == Duplicate {
      r := Returns(Resolved(acc.survivors - {id}, acc.deduped + 1, acc.updated));
    } else if c.value == Stale {
      r := Returns(Resolved(acc.survivors - {id}, acc.deduped, acc.updated));
    } else {
      r := Returns(Resolved(acc.survivors, acc.deduped, acc.updated + 1));
    }
  }

  /** The next stored row of the loop has an id not met before. */
  lemma NextStoredIsUnseen(existing: seq<EventData>, k: nat)
    requires DistinctIds(existing) && k < |existing|
    ensures existing[k].eventId !in IdsOf(existing[..k])
    ensures IdsOf(existing[..k + 1]) == IdsOf(existing[..k]) + {existing[k].eventId}
    ensures IdsOf(existing[..k + 1]) <= IdsOf(existing)
  {
    assert existing[..k + 1] == existing[..k] + [existing[k]];
  }

  /** The stamping step: every survivor with `receivedTime` set to `now`, in the map's own order. */
  method StampAll(survivors: map<string, EventData>, now: Instant) returns (stamped: seq<EventData>)
    requires forall id :: id in survivors ==> survivors[id].eventId == id
    ensures DistinctIds(stamped) && IdsOf(stamped) == survivors.Keys
    ensures forall j :: 0 <= j < |stamped| ==>
              stamped[j].eventId in survivors && stamped[j] == Stamp(survivors, now)[stamped[j].eventId]
  {
    stamped := [];
    var pending := survivors.Keys;
    while pending != {}
      invariant pending <= survivors.Keys
      invariant DistinctIds(stamped) && IdsOf(stamped) == survivors.Keys - pending
      invariant forall j :: 0 <= j < |stamped| ==>
                  stamped[j].eventId in survivors && stamped[j] == Stamp(survivors, now)[stamped[j].eventId]
      decreases pending
    {
      var id :| id in pending;
      var e := survivors[id].(receivedTime := Some(now));
      assert IdsOf(stamped + [e]) == IdsOf(stamped) + {id};
      stamped := stamped + [e];
      pending := pending - {id};
    }
  }

  /** Saving the stamped survivors is overlaying them on the table. */
  lemma SavedStampedSurvivors(rows: Rows, survivors: map<string, EventData>, stamped: seq<EventData>, now: Instant)
    requires DistinctIds(stamped) && IdsOf(stamped) == survivors.Keys
    requires forall j :: 0 <= j < |stamped| ==>
               stamped[j].eventId in survivors && stamped[j] == Stamp(survivors, now)[stamped[j].eventId]
    ensures SavedAll(rows, stamped) == rows + Stamp(survivors, now)
  {
    var saved, expected := SavedAll(rows, stamped), rows + Stamp(survivors, now);
    SavedAllKeys(rows, stamped);
    SavedAllKeepsOthers(rows, stamped);
    forall id | id in survivors ensures saved[id] == expected[id] {
      SavedStampedAt(rows, survivors, stamped, now, id);
    }
    assert saved.Keys == expected.Keys;
  }

  /** The row that saving `stamped` leaves under one survivor's id is its stamped copy. */
  lemma SavedStampedAt(rows: Rows, survivors: map<string, EventData>, stamped: seq<EventData>, now: Instant, id: string)
    requires DistinctIds(stamped) && IdsOf(stamped) == survivors.Keys
    requires forall j :: 0 <= j < |stamped| ==>
               stamped[j].eventId in survivors && stamped[j] == Stamp(survivors, now)[stamped[j].eventId]
    requires id in survivors
    ensures id in SavedAll(rows, stamped) && SavedAll(rows, stamped)[id] == Stamp(survivors, now)[id]
  {
    var e :| e in stamped && e.eventId == id;
    var j :| 0 <= j < |stamped| && stamped[j] == e;
    SavedAllStores(rows, stamped);
  }

  /** Resolving one more stored id `id` whose classification is `c`: the effect on the survivors. */
  lemma SeenOneMore(batch: map<string, EventData>, verdicts: Verdicts, seen: set<string>, id: string, c: Resolution)
    requires seen <= verdicts.Keys && id in verdicts && id !in seen
    requires verdicts[id] == Returns(c)
    ensures SurvivorsIn(batch, verdicts, seen + {id}) ==
              if c == Update then SurvivorsIn(batch, verdicts, seen) else SurvivorsIn(batch, verdicts, seen) - {id}
  {
    OneMoreResolvedAs(verdicts, seen, id, c, Duplicate);
    OneMoreResolvedAs(verdicts, seen, id, c, Stale);
  }

  /** A stored id that resolves without throwing adds no exception to the loop. */
  lemma NoThrowOneMore(verdicts: Verdicts, seen: set<string>, id: string)
    requires seen <= verdicts.Keys && id in verdicts && verdicts[id].Returns?
    requires !ThrowsIn(verdicts, seen)
    ensures !ThrowsIn(verdicts, seen + {id})
  {
  }

  /** Resolving one more stored id `id` whose classification is `c`: the ids resolved as `target`. */
  lemma OneMoreResolvedAs(verdicts: Verdicts, seen: set<string>, id: string, c: Resolution, target: Resolution)
    requires seen <= verdicts.Keys && id in verdicts && id !in seen
    requires verdicts[id] == Returns(c)
    ensures ResolvedAs(verdicts, seen + {id}, target) ==
              ResolvedAs(verdicts, seen, target) + (if c == target then {id} else {})
  {
  }
}
