/**
  site_workers/job_dispatcher.py: workers claim a batch of undone URLs
  ("working on") and later mark the batch "done", both by appending rows
  to the ledger. Its query compares the status lower-cased.
 */
module JobDispatch {
  import opened Wrappers
  import opened Ledger
  import opened Tables

  const WorkingOn: string := "working on"
  const Done: string := "done"

  /** register_job's default LIMIT. */
  const DefaultLimit: nat := 100

  /** `urls_df['status'] = 'working on'; urls_df['timestamp'] = now; urls_df['worker_id'] = worker_id`. */
  function Claimed(rows: seq<Row>, workerId: string, now: int): (cs: seq<Row>)
    ensures |cs| == |rows|
    ensures forall k :: 0 <= k < |rows| ==>
      cs[k] == rows[k].(status := WorkingOn, timestamp := now, workerId := Some(workerId))
  {
    seq(|rows|, k requires 0 <= k < |rows| => rows[k].(status := WorkingOn, timestamp := now, workerId := Some(workerId)))
  }

  /** `urls_df['status'] = 'done'; urls_df['timestamp'] = now`, every other column copied. */
  function MarkedDone(rows: seq<Row>, now: int): (ds: seq<Row>)
    ensures |ds| == |rows|
    ensures forall k :: 0 <= k < |rows| ==> ds[k] == rows[k].(status := Done, timestamp := now)
  {
    seq(|rows|, k requires 0 <= k < |rows| => rows[k].(status := Done, timestamp := now))
  }

  lemma ClaimedUrls(rows: seq<Row>, workerId: string, now: int)
    ensures Urls(Claimed(rows, workerId, now)) == Urls(rows)
  {
    var cs := Claimed(rows, workerId, now);
    forall u | u in Urls(rows) ensures u in Urls(cs) {
      var r :| r in rows && r.articleUrl == u;
      var k :| 0 <= k < |rows| && rows[k] == r;
      assert cs[k] in cs;
    }
    forall u | u in Urls(cs) ensures u in Urls(rows) {
      var c :| c in cs && c.articleUrl == u;
      var k :| 0 <= k < |cs| && cs[k] == c;
      assert rows[k] in rows;
    }
  }

  /**
    Claiming is exclusive: when the claim's timestamp is later than every
    row already in the ledger, no URL one worker claimed is returned by
    the next register_job, whatever its LIMIT and ranking of ties.
   */
  lemma ClaimExclusive(rows: seq<Row>, tie: nat -> int, limit: nat, workerId: string, now: int,
                       tie2: nat -> int, limit2: nat)
    requires forall r :: r in rows ==> r.timestamp < now
    ensures var claimed := Claimed(UndoneQuery(rows, IgnoreCase, tie, limit), workerId, now);
      Urls(claimed) !! Urls(UndoneQuery(rows + claimed, IgnoreCase, tie2, limit2))
  {
    var claimed := Claimed(UndoneQuery(rows, IgnoreCase, tie, limit), workerId, now);
    forall i, k | 0 <= i < |rows| && 0 <= k < |claimed| ensures rows[i].timestamp < claimed[k].timestamp {
      assert rows[i] in rows;
    }
    TakenStatusesWithdraw(IgnoreCase);
    assert WorkingOn in TakenStatuses;
    AppendWithdraws(rows, claimed, IgnoreCase, tie2, limit2);
  }

  /** The same holds for a batch marked done, which is withdrawn for good. */
  lemma DoneWithdrawn(rows: seq<Row>, batch: seq<Row>, now: int, tie: nat -> int, limit: nat)
    requires forall r :: r in rows ==> r.timestamp < now
    ensures Urls(MarkedDone(batch, now)) !! Urls(UndoneQuery(rows + MarkedDone(batch, now), IgnoreCase, tie, limit))
  {
    var done := MarkedDone(batch, now);
    forall i, k | 0 <= i < |rows| && 0 <= k < |done| ensures rows[i].timestamp < done[k].timestamp {
      assert rows[i] in rows;
    }
    TakenStatusesWithdraw(IgnoreCase);
    assert Done in TakenStatuses;
    AppendWithdraws(rows, done, IgnoreCase, tie, limit);
  }

  /** JobDispatcher over the URL table. */
  class JobDispatcher {
    const urlTable: BQTable<Row>
    const clock: Clock

    constructor(urlTable: BQTable<Row>, clock: Clock)
      ensures this.urlTable == urlTable && this.clock == clock
    {
      this.urlTable := urlTable;
      this.clock := clock;
    }

    /**
      register_job: read at most `limit` URLs whose latest row is
      "not mined" in any letter case and not a PDF, oldest first; stamp
      them "working on" for this worker with one fresh timestamp; append
      them; and return them. `accepted` is whether the upload succeeds;
      when it fails the upload raises, nothing is stored and no batch is
      returned.
     */
    method RegisterJob(workerId: string, limit: nat, tie: nat -> int, accepted: bool)
      returns (r: Result<seq<Row>, InsertError>)
      modifies urlTable, clock
      ensures clock.now > old(clock.now)
      ensures var claimed := Claimed(UndoneQuery(old(urlTable.rows), IgnoreCase, tie, limit), workerId, clock.now);
        && (r.Ok? <==> accepted)
        && (r.Ok? ==> r.value == claimed)
        && urlTable.rows == old(urlTable.rows) + (if accepted then claimed else [])
      ensures urlTable.tableId == old(urlTable.tableId) && urlTable.handle == old(urlTable.handle)
    {
      var urls := UndoneQuery(urlTable.rows, IgnoreCase, tie, limit);
      var now := clock.Tick();
      var claimed := Claimed(urls, workerId, now);
      var errors := urlTable.InsertRows(claimed, accepted);
      if errors == [] {
        r := Ok(claimed);
      } else {
        r := Err(errors[0]);
      }
    }

    /**
      update_job_status: append the batch again with status "done" and
      one fresh timestamp, keeping every other column; the upload either
      succeeds or raises.
     */
    method UpdateJobStatus(batch: seq<Row>, accepted: bool) returns (r: Result<seq<Row>, InsertError>)
      modifies urlTable, clock
      ensures clock.now > old(clock.now)
      ensures (r.Ok? <==> accepted) && (r.Ok? ==> r.value == MarkedDone(batch, clock.now))
      ensures urlTable.rows == old(urlTable.rows) + (if accepted then MarkedDone(batch, clock.now) else [])
      ensures urlTable.tableId == old(urlTable.tableId) && urlTable.handle == old(urlTable.handle)
    {
      var now := clock.Tick();
      var done := MarkedDone(batch, now);
      var errors := urlTable.InsertRows(done, accepted);
      if errors == [] {
        r := Ok(done);
      } else {
        r := Err(errors[0]);
      }
    }
  }
}
