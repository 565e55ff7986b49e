/**
 * DataSourceUpdateTracker: the history of update runs of each data source
 * (`evekit_dp_tracker`), keyed by tid. A tracker whose end time is still
 * the sentinel -1 is unfinished.
 */
module UpdateTrackers {
  import opened Wrappers
  import Tables

  datatype UpdateStatus = NotStarted | Finished | Error | Other

  /** Start and end times are -1 until set. */
  const Unset: int := -1

  datatype Tracker = Tracker(
    tid: int,
    source: int,
    trackerStart: int,
    trackerEnd: int,
    dataSourceType: string,
    trackerStatus: UpdateStatus,
    trackerDetail: Option<string>)

  type Trackers = map<int, Tracker>

  predicate IsUnfinished(t: Tracker) {
    t.trackerEnd == Unset
  }

  /** Every tracker is stored under its own tid. */
  predicate Keyed(ts: Trackers) {
    forall k :: k in ts ==> ts[k].tid == k
  }

  /** The tracker table after a write, and the tracker written. */
  datatype Stored = Stored(trackers: Trackers, tracker: Tracker)

  /**
   * A new tracker of the given type: not started, with start and end unset,
   * its tid drawn from the shared sequence whose next value is `next`.
   */
  function CreateTracker(ts: Trackers, next: int, source: int, dtype: string): (r: Stored)
    ensures r.tracker.tid !in ts && next <= r.tracker.tid
    ensures r.tracker.source == source && r.tracker.dataSourceType == dtype
    ensures r.tracker.trackerStatus == NotStarted
    ensures r.tracker.trackerStart == Unset && r.tracker.trackerEnd == Unset
    ensures r.trackers.Keys == ts.Keys + {r.tracker.tid}
    ensures r.trackers[r.tracker.tid] == r.tracker
    ensures Tables.SameExcept(ts, r.trackers, r.tracker.tid)
    ensures Keyed(ts) ==> Keyed(r.trackers)
  {
    var tid := Tables.FreshId(ts.Keys, next);
    var t := Tracker(tid, source, Unset, Unset, dtype, NotStarted, None);
    Stored(ts[tid := t], t)
  }

  /**
   * Stamps the caller's tracker with end time now, the status and the
   * detail message, and stores it under its tid.
   */
  function FinishTracker(ts: Trackers, t: Tracker, status: UpdateStatus, msg: Option<string>, now: int): (r: Stored)
    ensures r.tracker.trackerEnd == now
    ensures r.tracker.trackerStatus == status && r.tracker.trackerDetail == msg
    ensures r.tracker.(trackerEnd := t.trackerEnd, trackerStatus := t.trackerStatus, trackerDetail := t.trackerDetail) == t
    ensures r.trackers.Keys == ts.Keys + {t.tid}
    ensures r.trackers[t.tid] == r.tracker
    ensures Tables.SameExcept(ts, r.trackers, t.tid)
  {
    var finished := t.(trackerEnd := now, trackerStatus := status, trackerDetail := msg);
    Stored(ts[t.tid := finished], finished)
  }

  /** The tracker with this tid, provided it belongs to this source; otherwise null. */
  function Get(ts: Trackers, source: int, tid: int): (r: Option<Tracker>)
    ensures r.Some? <==> tid in ts && ts[tid].source == source
    ensures r.Some? ==> r.value == ts[tid]
  {
    if tid in ts && ts[tid].source == source then Some(ts[tid]) else None
  }

  /** A new tracker is found under its own source, and under no other. */
  lemma CreateThenGet(ts: Trackers, next: int, source: int, dtype: string, other: int)
    requires other != source
    ensures var r := CreateTracker(ts, next, source, dtype);
      && Get(r.trackers, source, r.tracker.tid) == Some(r.tracker)
      && Get(r.trackers, other, r.tracker.tid) == None
  {
  }

  /**
   * The finished tracker is what `get` returns for its own source, and no
   * other source can read it.
   */
  lemma FinishThenGet(ts: Trackers, t: Tracker, status: UpdateStatus, msg: Option<string>, now: int, other: int)
    requires other != t.source
    ensures var r := FinishTracker(ts, t, status, msg, now);
      && Get(r.trackers, t.source, t.tid) == Some(r.tracker)
      && Get(r.trackers, other, t.tid) == None
  {
  }

  /** Rows of the query `getUnfinished`. */
  function UnfinishedOfType(ts: Trackers, source: int, dtype: string): set<int> {
    set k | k in ts && ts[k].source == source && ts[k].dataSourceType == dtype && IsUnfinished(ts[k])
  }

  /**
   * The one unfinished tracker of this type. None when there is no such
   * tracker, and also when there are several (the single-result query fails).
   */
  function GetUnfinishedTracker(ts: Trackers, source: int, dtype: string): (r: Option<Tracker>)
    ensures r.Some? <==> |UnfinishedOfType(ts, source, dtype)| == 1
    ensures r.Some? ==> r.value in ts.Values && r.value.source == source
    ensures r.Some? ==> r.value.dataSourceType == dtype && IsUnfinished(r.value)
  {
    match Tables.Only(UnfinishedOfType(ts, source, dtype))
    case None => None
    case Some(k) => Some(ts[k])
  }

  /** All unfinished trackers of the source, of every type. */
  function GetAllUnfinishedTracker(ts: Trackers, source: int): (r: set<Tracker>)
    ensures forall t :: t in r ==> t in ts.Values && t.source == source && IsUnfinished(t)
    ensures forall k :: k in ts && ts[k].source == source && IsUnfinished(ts[k]) ==> ts[k] in r
  {
    set k | k in ts && ts[k].source == source && IsUnfinished(ts[k]) :: ts[k]
  }

  /** A new tracker is among its source's unfinished trackers. */
  lemma CreateThenUnfinished(ts: Trackers, next: int, source: int, dtype: string)
    ensures var r := CreateTracker(ts, next, source, dtype);
            r.tracker in GetAllUnfinishedTracker(r.trackers, source)
  {
    var r := CreateTracker(ts, next, source, dtype);
    assert r.trackers[r.tracker.tid] == r.tracker;
  }

  /**
   * Once finished at a real time, a tracker leaves its source's unfinished
   * trackers: neither the finished row nor the caller's earlier copy is
   * listed any more.
   */
  lemma FinishThenNotUnfinished(ts: Trackers, t: Tracker, status: UpdateStatus, msg: Option<string>, now: int)
    requires Keyed(ts) && now != Unset
    ensures var r := FinishTracker(ts, t, status, msg, now);
            && r.tracker !in GetAllUnfinishedTracker(r.trackers, t.source)
            && t !in GetAllUnfinishedTracker(r.trackers, t.source)
  {
    var r := FinishTracker(ts, t, status, msg, now);
    forall k | k in r.trackers && r.trackers[k] == t
      ensures k == t.tid
    {
    }
  }

  /** Rows of the query `getLatestFinished`, before ordering. */
  function FinishedOfType(ts: Trackers, source: int, dtype: string): set<int> {
    set k | k in ts && ts[k].source == source && ts[k].dataSourceType == dtype && !IsUnfinished(ts[k])
  }

  /**
   * The finished tracker of this type that ended last, or None if none has
   * finished. Trackers tied on end time come back in an order the database
   * picks; the model takes the least tid among them.
   */
  function GetLatestFinishedTrackers(ts: Trackers, source: int, dtype: string): (r: Option<Tracker>)
    ensures r.None? <==> FinishedOfType(ts, source, dtype) == {}
    ensures r.Some? ==> r.value in ts.Values && r.value.source == source
    ensures r.Some? ==> r.value.dataSourceType == dtype && !IsUnfinished(r.value)
    ensures r.Some? ==> forall k :: k in FinishedOfType(ts, source, dtype) ==> ts[k].trackerEnd <= r.value.trackerEnd
  {
    var finished := FinishedOfType(ts, source, dtype);
    if finished == {} then None
    else Some(ts[Tables.ArgMax(ts, finished, (t: Tracker) => t.trackerEnd)])
  }

  /** All finished trackers of the source, as a set. */
  function FinishedOf(ts: Trackers, source: int): set<Tracker> {
    set k | k in ts && ts[k].source == source && !IsUnfinished(ts[k]) :: ts[k]
  }

  predicate SortedByEndDesc(xs: seq<Tracker>) {
    forall i, j :: 0 <= i < j < |xs| ==> xs[i].trackerEnd >= xs[j].trackerEnd
  }

  /** Places `t` into a list ordered by descending end time. */
  function InsertByEnd(xs: seq<Tracker>, t: Tracker): (r: seq<Tracker>)
    requires SortedByEndDesc(xs)
    ensures SortedByEndDesc(r)
    ensures multiset(r) == multiset(xs) + multiset{t}
    ensures forall i :: 0 <= i < |r| ==> r[i] == t || r[i] in xs
    decreases |xs|
  {
    if xs == [] || xs[0].trackerEnd <= t.trackerEnd then [t] + xs
    else
      var tail := InsertByEnd(xs[1..], t);
      assert xs == [xs[0]] + xs[1..];
      forall i | 0 <= i < |tail|
        ensures tail[i].trackerEnd <= xs[0].trackerEnd
      {
        if tail[i] != t {
          var j :| 0 <= j < |xs[1..]| && xs[1..][j] == tail[i];
          assert xs[j + 1] == tail[i];
        }
      }
      [xs[0]] + tail
  }

  /**
   * Every finished tracker of the source, each once, in descending order of
   * end time (the query `getAllLatestFinished`).
   */
  method GetAllLatestFinishedTrackers(ts: Trackers, source: int) returns (r: seq<Tracker>)
    ensures SortedByEndDesc(r)
    ensures multiset(r) == multiset(FinishedOf(ts, source))
  {
    var rest := FinishedOf(ts, source);
    r := [];
    while rest != {}
      invariant SortedByEndDesc(r)
      invariant multiset(r) + multiset(rest) == multiset(FinishedOf(ts, source))
      decreases |rest|
    {
      var t :| t in rest;
      r := InsertByEnd(r, t);
      assert multiset(rest) == multiset(rest - {t}) + multiset{t};
      rest := rest - {t};
    }
  }

  /**
   * A tracker finished at a time no earlier than any finished tracker of
   * its type becomes (one of) the latest finished trackers of that type.
   */
  lemma FinishBecomesLatest(ts: Trackers, t: Tracker, status: UpdateStatus, msg: Option<string>, now: int)
    requires now != Unset
    requires forall k :: k in FinishedOfType(ts, t.source, t.dataSourceType) ==> ts[k].trackerEnd <= now
    ensures var latest := GetLatestFinishedTrackers(FinishTracker(ts, t, status, msg, now).trackers, t.source, t.dataSourceType);
            latest.Some? && latest.value.trackerEnd == now
  {
    var after := FinishTracker(ts, t, status, msg, now).trackers;
    assert t.tid in FinishedOfType(after, t.source, t.dataSourceType);
  }

  /** A finished tracker leaves the unfinished list, and nothing else joins it. */
  lemma FinishLeavesUnfinished(ts: Trackers, t: Tracker, status: UpdateStatus, msg: Option<string>, now: int)
    requires now != Unset
    ensures var after := FinishTracker(ts, t, status, msg, now).trackers;
            UnfinishedOfType(after, t.source, t.dataSourceType) == UnfinishedOfType(ts, t.source, t.dataSourceType) - {t.tid}
  {
  }

  /** Unfinished trackers of one type are what createTracker adds and finishTracker removes. */
  ghost predicate AtMostOneUnfinished(ts: Trackers) {
    forall j, k ::
      (&& j in ts && k in ts && IsUnfinished(ts[j]) && IsUnfinished(ts[k])
       && ts[j].source == ts[k].source && ts[j].dataSourceType == ts[k].dataSourceType) ==> j == k
  }

  /** With at most one unfinished tracker per type, a null answer means there is none. */
  lemma NoUnfinishedMeansNone(ts: Trackers, source: int, dtype: string)
    requires AtMostOneUnfinished(ts)
    requires GetUnfinishedTracker(ts, source, dtype).None?
    ensures UnfinishedOfType(ts, source, dtype) == {}
  {
    var open := UnfinishedOfType(ts, source, dtype);
    if open != {} {
      Tables.NonEmptyHasElement(open);
      var k :| k in open;
      forall j | j in open
        ensures j == k
      {
      }
      Tables.OnlyMember(open, k);
      assert false;
    }
  }
}
