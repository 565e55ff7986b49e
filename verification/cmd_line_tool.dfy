/**
 * The tracker `create` command of the command-line tool: the only part of
 * CmdLineTool kept here.
 */
module TrackerCommands {
  import opened Wrappers
  import Tables
  import opened UpdateTrackers

  /**
   * Hands back the unfinished tracker of this type when there is one,
   * instead of creating a second; otherwise creates a tracker with an ID
   * from the shared sequence whose next value is `next`.
   */
  function CreateOrReuseTracker(ts: Trackers, next: int, source: int, dtype: string): (r: Stored)
    ensures GetUnfinishedTracker(ts, source, dtype).Some? ==>
      r == Stored(ts, GetUnfinishedTracker(ts, source, dtype).value)
    ensures GetUnfinishedTracker(ts, source, dtype).None? ==>
      && r.tracker.tid !in ts && next <= r.tracker.tid
      && r.tracker.trackerStatus == NotStarted
      && r.tracker.trackerStart == Unset && r.tracker.trackerDetail.None?
      && r.trackers.Keys == ts.Keys + {r.tracker.tid}
      && r.trackers[r.tracker.tid] == r.tracker
      && Tables.SameExcept(ts, r.trackers, r.tracker.tid)
    ensures r.tracker in r.trackers.Values
    ensures r.tracker.source == source && r.tracker.dataSourceType == dtype && IsUnfinished(r.tracker)
  {
    match GetUnfinishedTracker(ts, source, dtype)
    case Some(open) => Stored(ts, open)
    case None => CreateTracker(ts, next, source, dtype)
  }

  /**
   * The command keeps at most one unfinished tracker per (source, type), and
   * afterwards the query for that type finds exactly the tracker it returned.
   */
  lemma CreateOrReuseKeepsOneUnfinished(ts: Trackers, next: int, source: int, dtype: string)
    requires AtMostOneUnfinished(ts)
    ensures var r := CreateOrReuseTracker(ts, next, source, dtype);
            AtMostOneUnfinished(r.trackers) && GetUnfinishedTracker(r.trackers, source, dtype) == Some(r.tracker)
  {
    var r := CreateOrReuseTracker(ts, next, source, dtype);
    if GetUnfinishedTracker(ts, source, dtype).None? {
      NoUnfinishedMeansNone(ts, source, dtype);
      var tid := r.tracker.tid;
      forall k | k in r.trackers && k != tid
        ensures r.trackers[k] == ts[k]
      {
      }
      forall k | k in r.trackers && IsUnfinished(r.trackers[k])
          && r.trackers[k].source == source && r.trackers[k].dataSourceType == dtype
        ensures k == tid
      {
        assert k == tid || k in UnfinishedOfType(ts, source, dtype);
      }
      assert UnfinishedOfType(r.trackers, source, dtype) == {tid};
    } else {
      var k :| UnfinishedOfType(ts, source, dtype) == {k};
      assert r.tracker == ts[k];
    }
  }
}
