/**
 * The `machine_events` table behind `MachineEventRepository`: a keyed store
 * from `eventId` to the stored row, its two aggregate queries, the lookup by
 * id, and the conditional upsert.
 */
module Repository {
  import opened Wrappers
  import opened Entity
  import opened Responses

  /** The table: at most one row per `eventId`. */
  type Rows = map<string, EventData>

  /** `t >= start AND t < end` in SQL: a null time is in no window. */
  predicate InWindow(t: Option<Instant>, start: Instant, end: Instant)
  {
    t.Some? && start <= t.value < end
  }

  // ---------------------------------------------------------------------------
  // SQL SUM over a nullable column
  // ---------------------------------------------------------------------------

  /** One step of SQL `SUM`: null values are skipped, and the sum of no values is null. */
  function AddDefects(d: Option<int>, acc: Option<int>): Option<int>
  {
    if d.None? then acc
    else if acc.None? then Some(d.value)
    else Some(d.value + acc.value)
  }

  lemma AddDefectsCommute(a: Option<int>, b: Option<int>, acc: Option<int>)
    ensures AddDefects(a, AddDefects(b, acc)) == AddDefects(b, AddDefects(a, acc))
  {
  }

  /** `SUM(defect_count)` over the rows `ids`: null exactly when every value is null. */
  ghost function SumDefects(rows: Rows, ids: set<string>): (s: Option<int>)
    requires ids <= rows.Keys
    ensures s.None? <==> forall id :: id in ids ==> rows[id].defectCount.None?
    decreases ids
  {
    if ids == {} then None
    else
      var id :| id in ids;
      AddDefects(rows[id].defectCount, SumDefects(rows, ids - {id}))
  }

  /** The sum may be taken apart at any row, whichever row the definition visits first. */
  lemma {:induction false} SumDefectsAt(rows: Rows, ids: set<string>, x: string)
    requires ids <= rows.Keys && x in ids
    ensures SumDefects(rows, ids) == AddDefects(rows[x].defectCount, SumDefects(rows, ids - {x}))
    decreases ids
  {
    var y :| y in ids && SumDefects(rows, ids) == AddDefects(rows[y].defectCount, SumDefects(rows, ids - {y}));
    if y != x {
      var rest := ids - {x} - {y};
      assert ids - {y} - {x} == rest;
      SumDefectsAt(rows, ids - {y}, x);
      SumDefectsAt(rows, ids - {x}, y);
      AddDefectsCommute(rows[x].defectCount, rows[y].defectCount, SumDefects(rows, rest));
    }
  }

  /** The sum only depends on the defect counts of the rows summed. */
  lemma {:induction false} SumDefectsFrame(rows: Rows, rows': Rows, ids: set<string>)
    requires ids <= rows.Keys && ids <= rows'.Keys
    requires forall id :: id in ids ==> rows[id].defectCount == rows'[id].defectCount
    ensures SumDefects(rows, ids) == SumDefects(rows', ids)
    decreases ids
  {
    if ids != {} {
      var id :| id in ids;
      SumDefectsAt(rows, ids, id);
      SumDefectsAt(rows', ids, id);
      SumDefectsFrame(rows, rows', ids - {id});
    }
  }

  // ---------------------------------------------------------------------------
  // getMachineStats
  // ---------------------------------------------------------------------------

  /** `MachineStatsQueryResult`: `COUNT(e)` and the nullable `SUM(e.defectCount)`. */
  datatype StatsQueryResult = StatsQueryResult(eventsCount: nat, defectsCount: Option<int>)

  /** The rows of machine `machineId` whose event time lies in `[start, end)`. */
  function MachineWindow(rows: Rows, machineId: string, start: Instant, end: Instant): (w: set<string>)
    ensures w <= rows.Keys
  {
    set id | id in rows && rows[id].machineId == Some(machineId) && InWindow(rows[id].eventTime, start, end)
  }

  /** `getMachineStats(machineId, start, end)`. */
  ghost function GetMachineStats(rows: Rows, machineId: string, start: Instant, end: Instant): (r: StatsQueryResult)
    ensures r.defectsCount.None? <==>
              forall id :: id in rows && rows[id].machineId == Some(machineId) && InWindow(rows[id].eventTime, start, end)
                           ==> rows[id].defectCount.None?
  {
    var w := MachineWindow(rows, machineId, start, end);
    StatsQueryResult(|w|, SumDefects(rows, w))
  }

  /** A new row that is not in the machine's window (another machine, before `start`, at or after `end`) changes nothing. */
  lemma StatsIgnoreRowOutsideWindow(rows: Rows, e: EventData, machineId: string, start: Instant, end: Instant)
    requires e.eventId !in rows
    requires e.machineId != Some(machineId) || !InWindow(e.eventTime, start, end)
    ensures GetMachineStats(rows[e.eventId := e], machineId, start, end) == GetMachineStats(rows, machineId, start, end)
  {
    var rows' := rows[e.eventId := e];
    assert MachineWindow(rows', machineId, start, end) == MachineWindow(rows, machineId, start, end);
    SumDefectsFrame(rows, rows', MachineWindow(rows, machineId, start, end));
  }

  /**
   * A new row of the machine inside `[start, end)` adds one to the count and
   * its defect count, if present, to the sum; a row without a defect count
   * is still counted.
   */
  lemma StatsCountRowInsideWindow(rows: Rows, e: EventData, machineId: string, start: Instant, end: Instant)
    requires e.eventId !in rows
    requires e.machineId == Some(machineId) && InWindow(e.eventTime, start, end)
    ensures var before := GetMachineStats(rows, machineId, start, end);
            GetMachineStats(rows[e.eventId := e], machineId, start, end)
              == StatsQueryResult(before.eventsCount + 1, AddDefects(e.defectCount, before.defectsCount))
  {
    var rows' := rows[e.eventId := e];
    var w := MachineWindow(rows, machineId, start, end);
    var w' := MachineWindow(rows', machineId, start, end);
    assert w' == w + {e.eventId};
    assert w' - {e.eventId} == w;
    SumDefectsAt(rows', w', e.eventId);
    SumDefectsFrame(rows, rows', w);
  }

  /** The window is half-open: a row at exactly `start` is counted, one at exactly `end` is not. */
  lemma StatsWindowIsHalfOpen(rows: Rows, e: EventData, machineId: string, start: Instant, end: Instant)
    requires e.eventId !in rows && e.machineId == Some(machineId) && start < end
    ensures e.eventTime == Some(start) ==>
              GetMachineStats(rows[e.eventId := e], machineId, start, end).eventsCount
                == GetMachineStats(rows, machineId, start, end).eventsCount + 1
    ensures e.eventTime == Some(end) ==>
              GetMachineStats(rows[e.eventId := e], machineId, start, end)
                == GetMachineStats(rows, machineId, start, end)
  {
    if e.eventTime == Some(start) {
      StatsCountRowInsideWindow(rows, e, machineId, start, end);
    }
    if e.eventTime == Some(end) {
      StatsIgnoreRowOutsideWindow(rows, e, machineId, start, end);
    }
  }

  // ---------------------------------------------------------------------------
  // findTopDefectLines
  // ---------------------------------------------------------------------------

  /** One row of the ranking: `(lineId, SUM(defectCount), COUNT(e))`. */
  datatype LineAggregate = LineAggregate(lineId: Option<string>, totalDefects: Option<int>, eventCount: nat)

  /** The rows of factory `factoryId` whose event time lies in `[from, to)`. */
  function FactoryWindow(rows: Rows, factoryId: string, from: Instant, to: Instant): (w: set<string>)
    ensures w <= rows.Keys
  {
    set id | id in rows && rows[id].factoryId == Some(factoryId) && InWindow(rows[id].eventTime, from, to)
  }

  /** The `GROUP BY e.lineId` keys of the rows `ids`; a null line id is a group of its own. */
  function LinesOf(rows: Rows, ids: set<string>): set<Option<string>>
    requires ids <= rows.Keys
  {
    set id | id in ids :: rows[id].lineId
  }

  /** The rows of `ids` in the group of `line`. */
  function LineGroup(rows: Rows, ids: set<string>, line: Option<string>): (g: set<string>)
    ensures g <= ids
  {
    set id | id in ids && id in rows && rows[id].lineId == line
  }

  /** The aggregate row of one group. */
  ghost function AggregateOf(rows: Rows, ids: set<string>, line: Option<string>): LineAggregate
    requires ids <= rows.Keys
  {
    LineAggregate(line, SumDefects(rows, LineGroup(rows, ids, line)), |LineGroup(rows, ids, line)|)
  }

  /**
   * `line` may come first under `ORDER BY SUM(defectCount) DESC` among `lines`:
   * no remaining non-null sum exceeds its own. Where null sums go is left to
   * the database, so a line with a null sum may come first as well.
   */
  ghost predicate MayRankFirst(rows: Rows, ids: set<string>, line: Option<string>, lines: set<Option<string>>)
    requires ids <= rows.Keys
  {
    var s := AggregateOf(rows, ids, line).totalDefects;
    s.None? ||
    forall h :: h in lines && AggregateOf(rows, ids, h).totalDefects.Some? ==>
      AggregateOf(rows, ids, h).totalDefects.value <= s.value
  }

  /** Every non-empty set of groups has one that may come first. */
  lemma {:induction false} SomeLineRanksFirst(rows: Rows, ids: set<string>, lines: set<Option<string>>)
    requires ids <= rows.Keys && lines != {}
    ensures exists line :: line in lines && MayRankFirst(rows, ids, line, lines)
    decreases lines
  {
    var x :| x in lines;
    if lines - {x} == {} {
      assert lines == {x};
      assert MayRankFirst(rows, ids, x, lines);
    } else {
      SomeLineRanksFirst(rows, ids, lines - {x});
      var y :| y in lines - {x} && MayRankFirst(rows, ids, y, lines - {x});
      var sx := AggregateOf(rows, ids, x).totalDefects;
      var sy := AggregateOf(rows, ids, y).totalDefects;
      if sy.None? || sx.None? || sx.value <= sy.value {
        if sy.None? {
          assert MayRankFirst(rows, ids, y, lines);
        } else if sx.None? {
          assert MayRankFirst(rows, ids, x, lines);
        } else {
          assert MayRankFirst(rows, ids, y, lines);
        }
      } else {
        assert MayRankFirst(rows, ids, x, lines);
      }
    }
  }

  /** The line ids a ranking lists. */
  function LinesListed(r: seq<LineAggregate>): set<Option<string>>
  {
    set a | a in r :: a.lineId
  }

  /** Each entry of `r` is the aggregate of a group of `lines`. */
  ghost predicate ListsAggregates(rows: Rows, ids: set<string>, lines: set<Option<string>>, r: seq<LineAggregate>)
    requires ids <= rows.Keys
  {
    forall i :: 0 <= i < |r| ==> r[i].lineId in lines && r[i] == AggregateOf(rows, ids, r[i].lineId)
  }

  /** One entry per line id. */
  predicate DistinctLines(r: seq<LineAggregate>)
  {
    forall i, j :: 0 <= i < j < |r| ==> r[i].lineId != r[j].lineId
  }

  /** Non-null sums never increase along `r`. */
  predicate SortedBySum(r: seq<LineAggregate>)
  {
    forall i, j :: 0 <= i < j < |r| && r[i].totalDefects.Some? && r[j].totalDefects.Some? ==>
      r[j].totalDefects.value <= r[i].totalDefects.value
  }

  /** No group of `lines` left out of `r` has a larger non-null sum than a listed one. */
  ghost predicate NoLargerLeftOut(rows: Rows, ids: set<string>, lines: set<Option<string>>, r: seq<LineAggregate>)
    requires ids <= rows.Keys
  {
    forall i, h :: 0 <= i < |r| && h in lines && h !in LinesListed(r) && r[i].totalDefects.Some?
                   && AggregateOf(rows, ids, h).totalDefects.Some? ==>
      AggregateOf(rows, ids, h).totalDefects.value <= r[i].totalDefects.value
  }

  /** `r` ranks groups of `lines` the way `ORDER BY SUM(defectCount) DESC` does. */
  ghost predicate IsRanking(rows: Rows, ids: set<string>, lines: set<Option<string>>, r: seq<LineAggregate>)
    requires ids <= rows.Keys
  {
    ListsAggregates(rows, ids, lines, r) && DistinctLines(r) && SortedBySum(r) && NoLargerLeftOut(rows, ids, lines, r)
  }

  lemma ConsListsAggregates(rows: Rows, ids: set<string>, lines: set<Option<string>>, first: Option<string>, tail: seq<LineAggregate>)
    requires ids <= rows.Keys && first in lines
    requires ListsAggregates(rows, ids, lines - {first}, tail)
    ensures ListsAggregates(rows, ids, lines, [AggregateOf(rows, ids, first)] + tail)
  {
    var r := [AggregateOf(rows, ids, first)] + tail;
    forall i | 0 <= i < |r| ensures r[i].lineId in lines && r[i] == AggregateOf(rows, ids, r[i].lineId) {
      if i > 0 {
        assert r[i] == tail[i - 1];
      }
    }
  }

  lemma ConsDistinctLines(rows: Rows, ids: set<string>, lines: set<Option<string>>, first: Option<string>, tail: seq<LineAggregate>)
    requires ids <= rows.Keys
    requires ListsAggregates(rows, ids, lines - {first}, tail) && DistinctLines(tail)
    ensures DistinctLines([AggregateOf(rows, ids, first)] + tail)
  {
    var r := [AggregateOf(rows, ids, first)] + tail;
    forall i, j | 0 <= i < j < |r| ensures r[i].lineId != r[j].lineId {
      assert r[j] == tail[j - 1];
      if i == 0 {
        assert tail[j - 1].lineId in lines - {first};
      } else {
        assert r[i] == tail[i - 1];
      }
    }
  }

  lemma ConsSortedBySum(rows: Rows, ids: set<string>, lines: set<Option<string>>, first: Option<string>, tail: seq<LineAggregate>)
    requires ids <= rows.Keys && MayRankFirst(rows, ids, first, lines)
    requires ListsAggregates(rows, ids, lines - {first}, tail) && SortedBySum(tail)
    ensures SortedBySum([AggregateOf(rows, ids, first)] + tail)
  {
    var r := [AggregateOf(rows, ids, first)] + tail;
    forall i, j | 0 <= i < j < |r| && r[i].totalDefects.Some? && r[j].totalDefects.Some?
      ensures r[j].totalDefects.value <= r[i].totalDefects.value
    {
      assert r[j] == tail[j - 1];
      if i == 0 {
        assert tail[j - 1].lineId in lines;
      } else {
        assert r[i] == tail[i - 1];
      }
    }
  }

  lemma ConsNoLargerLeftOut(rows: Rows, ids: set<string>, lines: set<Option<string>>, first: Option<string>, tail: seq<LineAggregate>)
    requires ids <= rows.Keys && MayRankFirst(rows, ids, first, lines)
    requires NoLargerLeftOut(rows, ids, lines - {first}, tail)
    ensures NoLargerLeftOut(rows, ids, lines, [AggregateOf(rows, ids, first)] + tail)
  {
    var r := [AggregateOf(rows, ids, first)] + tail;
    assert LinesListed(r) == {first} + LinesListed(tail);
    forall i, h | 0 <= i < |r| && h in lines && h !in LinesListed(r) && r[i].totalDefects.Some?
                  && AggregateOf(rows, ids, h).totalDefects.Some?
      ensures AggregateOf(rows, ids, h).totalDefects.value <= r[i].totalDefects.value
    {
      if i > 0 {
        assert r[i] == tail[i - 1];
        assert h in lines - {first};
      }
    }
  }

  /** A line that may rank first, followed by a ranking of the others, is a ranking. */
  lemma RankingCons(rows: Rows, ids: set<string>, lines: set<Option<string>>, first: Option<string>, tail: seq<LineAggregate>)
    requires ids <= rows.Keys && first in lines && MayRankFirst(rows, ids, first, lines)
    requires IsRanking(rows, ids, lines - {first}, tail)
    ensures IsRanking(rows, ids, lines, [AggregateOf(rows, ids, first)] + tail)
  {
    ConsListsAggregates(rows, ids, lines, first, tail);
    ConsDistinctLines(rows, ids, lines, first, tail);
    ConsSortedBySum(rows, ids, lines, first, tail);
    ConsNoLargerLeftOut(rows, ids, lines, first, tail);
  }

  /**
   * The first `k` groups of `lines` in ranking order. The group chosen first
   * among several admissible ones is unspecified, like the database's order
   * of ties and of null sums.
   */
  ghost function RankLines(rows: Rows, ids: set<string>, lines: set<Option<string>>, k: nat): (r: seq<LineAggregate>)
    requires ids <= rows.Keys
    ensures |r| == if k < |lines| then k else |lines|
    ensures IsRanking(rows, ids, lines, r)
    decreases k
  {
    if k == 0 || lines == {} then []
    else
      SomeLineRanksFirst(rows, ids, lines);
      var first :| first in lines && MayRankFirst(rows, ids, first, lines);
      var tail := RankLines(rows, ids, lines - {first}, k - 1);
      RankingCons(rows, ids, lines, first, tail);
      [AggregateOf(rows, ids, first)] + tail
  }

  /** A group listed in the ranking is not empty. */
  lemma GroupOfListedLineIsNonEmpty(rows: Rows, ids: set<string>, line: Option<string>)
    requires ids <= rows.Keys && line in LinesOf(rows, ids)
    ensures AggregateOf(rows, ids, line).eventCount >= 1
  {
    var id :| id in ids && rows[id].lineId == line;
    assert id in LineGroup(rows, ids, line);
  }

  /**
   * `findTopDefectLines(factoryId, from, to, limit)`: at most `limit` groups of
   * the factory's rows in `[from, to)`, one per line id, each with its sum and
   * its (non-zero) size, ordered by sum, and no group left off the page has a
   * larger non-null sum than a listed one.
   */
  ghost function FindTopDefectLines(rows: Rows, factoryId: string, from: Instant, to: Instant, limit: nat)
    : (r: seq<LineAggregate>)
    ensures var w := FactoryWindow(rows, factoryId, from, to);
            |r| == if limit < |LinesOf(rows, w)| then limit else |LinesOf(rows, w)|
    ensures forall i :: 0 <= i < |r| ==>
              var g := LineGroup(rows, FactoryWindow(rows, factoryId, from, to), r[i].lineId);
              r[i].eventCount == |g| >= 1 && r[i].totalDefects == SumDefects(rows, g)
    ensures forall i, j :: 0 <= i < j < |r| ==> r[i].lineId != r[j].lineId
    ensures forall i, j :: 0 <= i < j < |r| && r[i].totalDefects.Some? && r[j].totalDefects.Some? ==>
              r[j].totalDefects.value <= r[i].totalDefects.value
    ensures var w := FactoryWindow(rows, factoryId, from, to);
            NoLargerLeftOut(rows, w, LinesOf(rows, w), r)
  {
    var w := FactoryWindow(rows, factoryId, from, to);
    var r := RankLines(rows, w, LinesOf(rows, w), limit);
    assert forall i :: 0 <= i < |r| ==> r[i].eventCount >= 1 by {
      forall i | 0 <= i < |r| ensures r[i].eventCount >= 1 {
        GroupOfListedLineIsNonEmpty(rows, w, r[i].lineId);
      }
    }
    r
  }

  /**
   * Each ranking row is turned into a `LineStatsResponse` by its constructor,
   * which reports a percentage exactly when the group has a non-null sum.
   */
  lemma TopLinesPercentPresence(rows: Rows, factoryId: string, from: Instant, to: Instant, limit: nat)
    ensures forall a :: a in FindTopDefectLines(rows, factoryId, from, to, limit) ==>
              (DefectsPercent(a.totalDefects, a.eventCount).Some? <==> a.totalDefects.Some?)
  {
  }

  // ---------------------------------------------------------------------------
  // upsertEvent
  // ---------------------------------------------------------------------------

  /**
   * `EXCLUDED.received_time > machine_events.received_time` in SQL: a
   * comparison with null is unknown, which the `WHERE` treats as false.
   */
  predicate IsNewer(incoming: Option<Instant>, stored: Option<Instant>): (newer: bool)
    ensures newer ==> incoming.Some? && stored.Some?
    ensures newer ==> incoming != stored
  {
    incoming.Some? && stored.Some? && incoming.value > stored.value
  }

  /**
   * `upsertEvent(e)`: insert the row when its id is absent; otherwise replace
   * every column only when the incoming `received_time` is strictly later.
   */
  function Upsert(rows: Rows, e: EventData): (r: Rows)
    ensures r.Keys == rows.Keys + {e.eventId}
    ensures forall id :: id in rows && id != e.eventId ==> r[id] == rows[id]
    ensures e.eventId !in rows ==> r[e.eventId] == e
    ensures e.eventId in rows && IsNewer(e.receivedTime, rows[e.eventId].receivedTime) ==> r[e.eventId] == e
    ensures e.eventId in rows && !IsNewer(e.receivedTime, rows[e.eventId].receivedTime) ==> r == rows
  {
    if e.eventId !in rows || IsNewer(e.receivedTime, rows[e.eventId].receivedTime) then rows[e.eventId := e]
    else rows
  }

  /**
   * The stored `received_time` never moves backwards, and a row whose
   * `received_time` is null is never replaced.
   */
  lemma UpsertNeverRegresses(rows: Rows, e: EventData, id: string)
    requires id in rows
    ensures rows[id].receivedTime.Some? ==>
              Upsert(rows, e)[id].receivedTime.Some? &&
              rows[id].receivedTime.value <= Upsert(rows, e)[id].receivedTime.value
    ensures rows[id].receivedTime.None? ==> Upsert(rows, e)[id] == rows[id]
  {
  }

  /** Applying the same upsert twice is the same as applying it once. */
  lemma UpsertIdempotent(rows: Rows, e: EventData)
    ensures Upsert(Upsert(rows, e), e) == Upsert(rows, e)
  {
  }

  /** A sequence of upserts applied in order. */
  function UpsertAll(rows: Rows, writes: seq<EventData>): (r: Rows)
    ensures r.Keys == rows.Keys + (set w | w in writes :: w.eventId)
    decreases |writes|
  {
    if writes == [] then rows
    else Upsert(UpsertAll(rows, writes[..|writes| - 1]), writes[|writes| - 1])
  }

  /**
   * Last writer wins by `received_time`, not by arrival: after any sequence of
   * upserts of one id carrying explicit times, the stored row is the stored
   * row it started from or one of the writes, and its `received_time` is the
   * greatest of them all.
   */
  lemma {:induction false} UpsertAllKeepsNewest(rows: Rows, writes: seq<EventData>, id: string)
    requires forall w :: w in writes ==> w.eventId == id && w.receivedTime.Some?
    requires id in rows ==> rows[id].receivedTime.Some?
    requires id in rows || writes != []
    ensures id in UpsertAll(rows, writes)
    ensures var last := UpsertAll(rows, writes)[id];
            && last.receivedTime.Some?
            && ((id in rows && last == rows[id]) || last in writes)
            && (id in rows ==> rows[id].receivedTime.value <= last.receivedTime.value)
            && (forall w :: w in writes ==> w.receivedTime.value <= last.receivedTime.value)
    decreases |writes|
  {
    if writes != [] {
      var prefix := writes[..|writes| - 1];
      var e := writes[|writes| - 1];
      assert writes == prefix + [e];
      assert forall w :: w in writes <==> w in prefix || w == e;
      var before := UpsertAll(rows, prefix);
      if id in rows || prefix != [] {
        UpsertAllKeepsNewest(rows, prefix, id);
        assert Upsert(before, e)[id] == if IsNewer(e.receivedTime, before[id].receivedTime) then e else before[id];
      } else {
        assert id !in before;
      }
    }
  }

  /** The stored row and the writes all carry different `received_time`s. */
  ghost predicate DistinctReceivedTimes(rows: Rows, writes: seq<EventData>, id: string)
  {
    && (forall i, j :: 0 <= i < |writes| && 0 <= j < |writes| && writes[i].receivedTime == writes[j].receivedTime
                       ==> writes[i] == writes[j])
    && (id in rows ==> forall w :: w in writes ==> w.receivedTime != rows[id].receivedTime)
  }

  lemma SameElements<T>(s: seq<T>, s': seq<T>)
    requires multiset(s) == multiset(s')
    ensures forall x :: x in s <==> x in s'
  {
    forall x ensures x in s <==> x in s' {
      assert x in s <==> x in multiset(s);
      assert x in s' <==> x in multiset(s');
    }
  }

  /**
   * Concurrent writers racing on one id end in the same row whatever order
   * their upserts reach the table, as long as their `received_time`s differ.
   */
  lemma UpsertOrderIndependent(rows: Rows, writes: seq<EventData>, writes': seq<EventData>, id: string)
    requires multiset(writes) == multiset(writes')
    requires forall w :: w in writes ==> w.eventId == id && w.receivedTime.Some?
    requires id in rows ==> rows[id].receivedTime.Some?
    requires id in rows || writes != []
    requires DistinctReceivedTimes(rows, writes, id)
    ensures id in UpsertAll(rows, writes) && id in UpsertAll(rows, writes')
    ensures UpsertAll(rows, writes)[id] == UpsertAll(rows, writes')[id]
  {
    SameElements(writes, writes');
    assert writes' != [] || id in rows by {
      if writes != [] { assert writes[0] in writes'; }
    }
    UpsertAllKeepsNewest(rows, writes, id);
    UpsertAllKeepsNewest(rows, writes', id);
    var a, b := UpsertAll(rows, writes)[id], UpsertAll(rows, writes')[id];
    NewestTimesAgree(rows, writes, writes', id, a, b);
    SameTimeSameContender(rows, writes, id, a, b);
  }

  /** Two winners over the same contenders, each at least as new as every contender, carry the same time. */
  lemma NewestTimesAgree(rows: Rows, writes: seq<EventData>, writes': seq<EventData>, id: string, a: EventData, b: EventData)
    requires forall w :: w in writes <==> w in writes'
    requires forall w :: w in writes ==> w.receivedTime.Some?
    requires a.receivedTime.Some? && b.receivedTime.Some?
    requires (id in rows && a == rows[id]) || a in writes
    requires (id in rows && b == rows[id]) || b in writes'
    requires id in rows ==> rows[id].receivedTime.Some?
    requires id in rows ==> rows[id].receivedTime.value <= a.receivedTime.value
    requires id in rows ==> rows[id].receivedTime.value <= b.receivedTime.value
    requires forall w :: w in writes ==> w.receivedTime.value <= a.receivedTime.value
    requires forall w :: w in writes' ==> w.receivedTime.value <= b.receivedTime.value
    ensures a.receivedTime == b.receivedTime
  {
  }

  /** Under distinct times, two contenders for `id` with the same `received_time` are the same row. */
  lemma SameTimeSameContender(rows: Rows, writes: seq<EventData>, id: string, a: EventData, b: EventData)
    requires DistinctReceivedTimes(rows, writes, id)
    requires (id in rows && a == rows[id]) || a in writes
    requires (id in rows && b == rows[id]) || b in writes
    requires a.receivedTime == b.receivedTime
    ensures a == b
  {
    if a in writes && b in writes {
      var i :| 0 <= i < |writes| && writes[i] == a;
      var j :| 0 <= j < |writes| && writes[j] == b;
      assert writes[i].receivedTime == writes[j].receivedTime;
    }
  }

  // ---------------------------------------------------------------------------
  // The table as an object
  // ---------------------------------------------------------------------------

  /** Overwrites each event in turn under its own id, as `saveAll` does. */
  function SavedAll(rows: Rows, events: seq<EventData>): (r: Rows)
    ensures rows.Keys <= r.Keys
    ensures events != [] ==> events[|events| - 1].eventId in r && r[events[|events| - 1].eventId] == events[|events| - 1]
    decreases |events|
  {
    if events == [] then rows
    else SavedAll(rows, events[..|events| - 1])[events[|events| - 1].eventId := events[|events| - 1]]
  }

  /** The ids of a list of events. */
  function IdsOf(events: seq<EventData>): set<string>
  {
    set e | e in events :: e.eventId
  }

  /** No two events of the list share an id. */
  predicate DistinctIds(events: seq<EventData>)
  {
    forall i, j :: 0 <= i < j < |events| ==> events[i].eventId != events[j].eventId
  }

  /** The ids of a non-empty list: those of all but its last event, and the last one's. */
  lemma IdsOfLast(events: seq<EventData>)
    requires events != []
    ensures IdsOf(events) == IdsOf(events[..|events| - 1]) + {events[|events| - 1].eventId}
  {
    assert events == events[..|events| - 1] + [events[|events| - 1]];
  }

  /** `saveAll` adds the ids of the events to the table and removes none. */
  lemma {:induction false} SavedAllKeys(rows: Rows, events: seq<EventData>)
    ensures SavedAll(rows, events).Keys == rows.Keys + IdsOf(events)
    decreases |events|
  {
    if events != [] {
      SavedAllKeys(rows, events[..|events| - 1]);
      IdsOfLast(events);
    }
  }

  /** With distinct ids, `saveAll` leaves each event under its own id, whatever order the events come in. */
  lemma {:induction false} SavedAllStores(rows: Rows, events: seq<EventData>)
    requires DistinctIds(events)
    ensures forall k :: 0 <= k < |events| ==>
              events[k].eventId in SavedAll(rows, events) && SavedAll(rows, events)[events[k].eventId] == events[k]
    decreases |events|
  {
    if events != [] {
      var n := |events| - 1;
      var prefix := events[..n];
      SavedAllStores(rows, prefix);
      forall k | 0 <= k < n
        ensures events[k].eventId in SavedAll(rows, events) && SavedAll(rows, events)[events[k].eventId] == events[k]
      {
        assert prefix[k] == events[k];
      }
    }
  }

  /** `saveAll` leaves every row whose id no event carries as it was. */
  lemma {:induction false} SavedAllKeepsOthers(rows: Rows, events: seq<EventData>)
    ensures forall id :: id in rows && id !in IdsOf(events) ==>
              id in SavedAll(rows, events) && SavedAll(rows, events)[id] == rows[id]
    decreases |events|
  {
    if events != [] {
      SavedAllKeepsOthers(rows, events[..|events| - 1]);
      IdsOfLast(events);
    }
  }

  /** The rows, each filed under its own id. */
  ghost predicate Keyed(rows: Rows)
  {
    forall id :: id in rows ==> rows[id].eventId == id
  }

  class EventStore {
    var rows: Rows

    ghost predicate Valid()
      reads this
    {
      Keyed(rows)
    }

    constructor ()
      ensures Valid() && rows == map[]
    {
      rows := map[];
    }

    /** `findByEventId(eventId)`: the row with that id, or empty. */
    function FindByEventId(eventId: string): (r: Option<EventData>)
      requires Valid()
      reads this
      ensures r.Some? <==> eventId in rows
      ensures r.Some? ==> r.value == rows[eventId] && r.value.eventId == eventId
    {
      if eventId in rows then Some(rows[eventId]) else None
    }

    /** `findAllById(ids)`: the stored rows among `ids`, each once, in an order the store chooses. */
    method FindAllById(ids: set<string>) returns (found: seq<EventData>)
      requires Valid()
      ensures DistinctIds(found)
      ensures IdsOf(found) == ids * rows.Keys
      ensures forall k :: 0 <= k < |found| ==> found[k].eventId in rows && found[k] == rows[found[k].eventId]
    {
      found := [];
      var remaining := ids * rows.Keys;
      while remaining != {}
        invariant remaining <= ids * rows.Keys
        invariant IdsOf(found) == (ids * rows.Keys) - remaining
        invariant DistinctIds(found)
        invariant forall k :: 0 <= k < |found| ==> found[k].eventId in rows && found[k] == rows[found[k].eventId]
        decreases remaining
      {
        var id :| id in remaining;
        assert IdsOf(found + [rows[id]]) == IdsOf(found) + {id};
        found := found + [rows[id]];
        remaining := remaining - {id};
      }
    }

    /** `saveAll(events)`: an unconditional write of each event under its id. */
    method SaveAll(events: seq<EventData>)
      requires Valid()
      modifies this
      ensures Valid()
      ensures rows == SavedAll(old(rows), events)
    {
      var i := 0;
      while i < |events|
        invariant 0 <= i <= |events|
        invariant Valid()
        invariant rows == SavedAll(old(rows), events[..i])
      {
        assert events[..i + 1][..i] == events[..i];
        rows := rows[events[i].eventId := events[i]];
        i := i + 1;
      }
      assert events[..i] == events;
    }

    /** `upsertEvent(e)`. */
    method UpsertEvent(e: EventData)
      requires Valid()
      modifies this
      ensures Valid()
      ensures rows == Upsert(old(rows), e)
    {
      if e.eventId !in rows || IsNewer(e.receivedTime, rows[e.eventId].receivedTime) {
        rows := rows[e.eventId := e];
      }
    }
  }
}
