/** The destructive side of hard retention: bounded candidate pages, batches that revalidate
    every candidate inside one transaction, and the audit row that checkpoints them. */
module RetentionStore {
  import opened Keyset
  import opened Store
  import opened RetentionRules

  datatype RunError = ReadInput | WriteInput | StorageError | Configuration | Canceled

  datatype Result<+T> = Ok(value: T) | Err(error: RunError)

  datatype Page = Page(targets: seq<Target>, next: Option<Key>)

  datatype RunOutcome = Running | RunCompleted | RunCanceled | RunFailed

  datatype RunRow = RunRow(
    policy: int, days: int, observed: int, cutoff: int, backup: string, started: int,
    scanned: nat, totals: Totals, batches: nat, truncated: bool, outcome: RunOutcome, finished: Option<int>)

  datatype RunFinish = RunFinish(
    scanned: nat, totals: Totals, batches: nat, truncated: bool, outcome: RunOutcome, finished: int)

  predicate ValidTarget(t: Target, cutoff: int) {
    t.actor != "" && ValidCandidate(t.candidate) && t.candidate.inactive <= cutoff
  }

  function PageRows(db: Database, after: Option<Key>, limit: nat, cutoff: int): seq<Key> {
    First(true, Beyond(true, TargetKeys(db, cutoff), after), limit)
  }

  lemma PageRowsHaveCandidates(db: Database, after: Option<Key>, limit: nat, cutoff: int)
    ensures var rows := PageRows(db, after, limit, cutoff);
            && SetOf(rows) <= TargetKeys(db, cutoff)
            && (forall i :: 0 <= i < |rows| ==> CandidateAt(db, rows[i]).Some?)
            && (forall i :: 0 <= i < |rows| ==> PositionOf(TargetAt(db, rows[i])) == rows[i])
  {
    hide TargetKeys, CandidateAt, First, Precedes;
    var rows := PageRows(db, after, limit, cutoff);
    KeysHaveCandidates(db, cutoff, rows);
    forall i | 0 <= i < |rows|
      ensures PositionOf(TargetAt(db, rows[i])) == rows[i]
    {
      assert rows[i] in SetOf(rows);
      TargetHasCandidate(db, cutoff, rows[i]);
    }
  }

  predicate PageInput(after: Option<Key>, limit: int, cutoff: int) {
    && 1 <= limit <= MAXIMUM_PURGE_PAGE && cutoff >= 0
    && (after.Some? ==> 0 <= after.value.rank <= cutoff && after.value.text != "" && 0 <= after.value.kind <= 1)
  }

  /** The first `limit` rows as candidates, and the last of them as the next position when
      there are more; an inconsistent snapshot fails the read. */
  function PageOf(db: Database, rows: seq<Key>, limit: nat, cutoff: int): Result<Page>
    requires limit > 0 && forall i :: 0 <= i < |rows| ==> CandidateAt(db, rows[i]).Some?
  {
    hide CandidateAt, ValidTarget;
    if exists i :: 0 <= i < |rows| && !ValidTarget(TargetAt(db, rows[i]), cutoff) then Err(StorageError)
    else Ok(Page(TargetsAt(db, rows[..Min(limit, |rows|)]), if |rows| > limit then Some(rows[limit - 1]) else None))
  }

  /** The page a keyset position leads to: the first candidates of the union of both sources
      beyond it. */
  function ReadPage(db: Database, after: Option<Key>, limit: int, cutoff: int): Result<Page> {
    hide First, Beyond, TargetKeys, CandidateAt, PageOf;
    if !PageInput(after, limit, cutoff) then Err(ReadInput)
    else
      PageRowsHaveCandidates(db, after, limit + 1, cutoff);
      PageOf(db, PageRows(db, after, limit + 1, cutoff), limit, cutoff)
  }

  // ---- audit rows ----

  predicate HexDigit(c: char) {
    '0' <= c <= '9' || 'a' <= c <= 'f'
  }

  /** The digest of the backup taken before the run: 64 lower-case hexadecimal digits. */
  predicate ValidDigest(s: string) {
    |s| == 64 && forall i :: 0 <= i < |s| ==> HexDigit(s[i])
  }

  /** The checks the audit table itself makes. */
  predicate RowChecks(row: RunRow) {
    var t := row.totals;
    && 1 <= row.days <= MAXIMUM_RETENTION_DAYS && 0 <= row.cutoff == row.observed - row.days * 86400
    && row.scanned <= MAXIMUM_PURGE_ATTEMPTS && ValidDigest(row.backup)
    && t.relays + t.discoveries + t.skipped <= row.scanned && t.observations <= t.relays + t.discoveries
    && row.batches <= row.scanned && (row.scanned > 0 ==> row.batches > 0)
    && row.observed <= row.started && (row.finished.Some? ==> row.started <= row.finished.value)
    && (row.outcome == Running <==> row.finished.None?)
    && (row.outcome == Running || row.outcome == RunCompleted ==>
          t.relays + t.discoveries + t.skipped == row.scanned)
  }

  function Checkpoint(row: RunRow, attempted: nat, totals: Totals): RunRow {
    row.(scanned := row.scanned + attempted, totals := Add(row.totals, totals), batches := row.batches + 1)
  }

  /** A batch's own transaction, with an optional failure at its k-th candidate or, past the
      last one, at the checkpoint. */
  datatype Fault = Fault(at: nat, error: RunError)

  function BatchReply(db: Database, runs: map<nat, RunRow>, runId: nat, targets: seq<Target>, cutoff: int,
                      fault: Option<Fault>): Result<Totals>
  {
    if runId == 0 || cutoff < 0 || targets == [] || |targets| > MAXIMUM_PURGE_PAGE ||
       (exists i :: 0 <= i < |targets| && !ValidTarget(targets[i], cutoff))
    then Err(WriteInput)
    else if runId !in runs then Err(StorageError)
    else
      var row := runs[runId];
      if row.outcome != Running || row.cutoff != cutoff || row.policy != POLICY_VERSION then Err(WriteInput)
      else if fault.Some? then Err(fault.value.error)
      else if !RowChecks(Checkpoint(row, |targets|, BatchTotals(db, targets, cutoff))) then Err(StorageError)
      else Ok(BatchTotals(db, targets, cutoff))
  }

  /** A batch fits its audit row exactly while the run stays within its attempts. */
  lemma {:induction false} CheckpointFits(db: Database, row: RunRow, targets: seq<Target>, cutoff: int)
    requires RowChecks(row) && row.outcome == Running && targets != []
    ensures RowChecks(Checkpoint(row, |targets|, BatchTotals(db, targets, cutoff))) <==>
              row.scanned + |targets| <= MAXIMUM_PURGE_ATTEMPTS
  {
    hide BatchTotals;
    BatchAccounts(db, targets, cutoff);
  }

  predicate FinishInput(runId: nat, f: RunFinish) {
    var primary := f.totals.relays + f.totals.discoveries;
    && runId > 0 && f.scanned <= MAXIMUM_PURGE_ATTEMPTS && primary <= f.scanned
    && f.totals.observations <= primary && primary + f.totals.skipped <= f.scanned
    && (f.outcome == RunCompleted ==> primary + f.totals.skipped == f.scanned)
    && f.batches <= MAXIMUM_PURGE_ATTEMPTS && (f.scanned == 0 ==> f.batches == 0)
    && (f.scanned > 0 ==> 1 <= f.batches <= f.scanned)
    && f.outcome != Running && f.finished >= 0
  }

  function Finished(row: RunRow, f: RunFinish): RunRow {
    row.(scanned := f.scanned, totals := f.totals, batches := f.batches, truncated := f.truncated,
         outcome := f.outcome, finished := Some(f.finished))
  }

  /** Finalization may add scanned candidates that never committed; it may not invent or lose
      a committed effect, and a final row accepts only its own repetition. */
  function FinishReply(runs: map<nat, RunRow>, runId: nat, f: RunFinish, fault: Option<RunError>): Result<RunRow> {
    if !FinishInput(runId, f) then Err(WriteInput)
    else if runId !in runs then Err(StorageError)
    else
      var row := runs[runId];
      if row.outcome == Running && row.policy != POLICY_VERSION then Err(WriteInput)
      else if row.outcome != Running then
        if row.finished.Some? && row == Finished(row, f) then Ok(row) else Err(WriteInput)
      else if f.totals != row.totals || f.batches < row.batches || f.scanned < row.scanned ||
              (f.outcome == RunCompleted && (f.scanned != row.scanned || f.batches != row.batches))
      then Err(WriteInput)
      else if fault.Some? then Err(fault.value)
      else if !RowChecks(Finished(row, f)) then Err(StorageError)
      else Ok(Finished(row, f))
  }

  /** An accepted finish is final: repeating it is accepted and changes nothing, and no other
      finish and no batch is accepted for that run again. */
  lemma {:induction false} FinishOnce(db: Database, runs: map<nat, RunRow>, runId: nat, f: RunFinish, again: RunFinish,
                                      targets: seq<Target>, cutoff: int)
    requires FinishReply(runs, runId, f, None).Ok?
    ensures var row := FinishReply(runs, runId, f, None).value; var final := runs[runId := row];
            && row.totals == runs[runId].totals
            && (FinishReply(final, runId, again, None) == if again == f then Ok(row) else Err(WriteInput))
            && BatchReply(db, final, runId, targets, cutoff, None).Err?
  {
    hide RowChecks, BatchTotals;
    var row := FinishReply(runs, runId, f, None).value;
    assert row == Finished(row, f);
    assert row == Finished(row, again) ==> again == f;
  }

  /** What the trigger on audit updates allows: only a running row changes, its identity is
      fixed, and no counter runs back. */
  predicate UpdateAllowed(before: RunRow, after: RunRow) {
    var t, u := before.totals, after.totals;
    && after == before.(scanned := after.scanned, totals := u, batches := after.batches, truncated := after.truncated,
                        outcome := after.outcome, finished := after.finished)
    && before.outcome == Running && before.scanned <= after.scanned && before.batches <= after.batches
    && t.relays <= u.relays && t.discoveries <= u.discoveries && t.observations <= u.observations
    && t.events <= u.events && t.skipped <= u.skipped && (before.truncated ==> after.truncated)
  }

  /** Every audit write the store makes passes that trigger: a running row is never marked
      truncated before its run is final, and a final row is never written again. */
  lemma UpdatesAllowed(db: Database, runs: map<nat, RunRow>, runId: nat, targets: seq<Target>, cutoff: int,
                       fault: Option<Fault>, f: RunFinish, failure: Option<RunError>)
    requires runId in runs && (runs[runId].outcome == Running ==> !runs[runId].truncated)
    ensures BatchReply(db, runs, runId, targets, cutoff, fault).Ok? ==>
              var after := Checkpoint(runs[runId], |targets|, BatchTotals(db, targets, cutoff));
              UpdateAllowed(runs[runId], after) && after.outcome == Running && !after.truncated
    ensures var reply := FinishReply(runs, runId, f, failure);
            reply.Ok? ==> reply.value.outcome != Running &&
                          (UpdateAllowed(runs[runId], reply.value) || reply.value == runs[runId])
  {
    hide BatchTotals, RowChecks;
  }

  class RetentionRepository {
    var database: Database
    var runs: map<nat, RunRow>
    var lastRun: nat

    constructor (db: Database)
      ensures database == db && runs == map[] && lastRun == 0
    {
      database, runs, lastRun := db, map[], 0;
    }

    /** Each source bounded on its own, then merged and bounded again. */
    method PurgeCandidates(after: Option<Key>, limit: int, cutoff: int) returns (reply: Result<Page>)
      ensures reply == ReadPage(database, after, limit, cutoff)
    {
      hide TargetKeys, SourceKeys, CandidateAt, First, Beyond, SetOf, PageOf, PositionOf;
      if !PageInput(after, limit, cutoff) { return Err(ReadInput); }
      var lifecycle := Beyond(true, SourceKeys(database, PurgeLifecycle, cutoff), after);
      var discovery := Beyond(true, SourceKeys(database, PurgeDiscovery, cutoff), after);
      var rows := First(true, SetOf(First(true, lifecycle, limit + 1)) + SetOf(First(true, discovery, limit + 1)), limit + 1);
      MergeLimit(true, lifecycle, discovery, limit + 1);
      BeyondUnion(true, SourceKeys(database, PurgeLifecycle, cutoff), SourceKeys(database, PurgeDiscovery, cutoff), after);
      Sources(database, cutoff);
      PageRowsHaveCandidates(database, after, limit + 1, cutoff);
      reply := BuildPage(rows, limit, cutoff);
    }

    method BuildPage(rows: seq<Key>, limit: nat, cutoff: int) returns (reply: Result<Page>)
      requires 1 <= limit && |rows| <= limit + 1
      requires forall i :: 0 <= i < |rows| ==> CandidateAt(database, rows[i]).Some?
      requires forall i :: 0 <= i < |rows| ==> PositionOf(TargetAt(database, rows[i])) == rows[i]
      ensures reply == PageOf(database, rows, limit, cutoff)
    {
      hide ValidTarget, CandidateAt, PositionOf, TargetAt, TargetsAt;
      var targets: seq<Target> := [];
      var next := None;
      var i := 0;
      while i < |rows|
        invariant 0 <= i <= |rows| && |targets| == i <= limit && next.None?
        invariant targets == TargetsAt(database, rows[..i])
        invariant forall j :: 0 <= j < i ==> ValidTarget(TargetAt(database, rows[j]), cutoff)
      {
        var target := TargetAt(database, rows[i]);
        if !ValidTarget(target, cutoff) { return Err(StorageError); }
        if |targets| == limit {
          TargetsLast(database, rows[..i]);
          next := Some(PositionOf(targets[|targets| - 1]));
          break;
        }
        TargetsExtend(database, rows, i);
        targets := targets + [target];
        i := i + 1;
      }
      assert rows[..|rows|] == rows;
      reply := Ok(Page(targets, next));
    }

    method BeginRetentionRun(policy: int, days: int, observed: int, cutoff: int, backup: string, started: int)
      returns (reply: Result<nat>)
      modifies this`runs, this`lastRun
      ensures reply.Ok? <==> policy == POLICY_VERSION && 1 <= days <= MAXIMUM_RETENTION_DAYS && 0 <= cutoff &&
                             observed <= started && cutoff == observed - days * 86400 && ValidDigest(backup)
      ensures reply.Ok? ==>
                && reply.value == old(lastRun) + 1 == lastRun
                && runs == old(runs)[lastRun := RunRow(policy, days, observed, cutoff, backup, started, 0, NO_TOTALS, 0, false, Running, None)]
                && RowChecks(runs[lastRun])
      ensures reply.Err? ==> reply == Err(WriteInput) && runs == old(runs) && lastRun == old(lastRun)
    {
      if policy != POLICY_VERSION || days <= 0 || days > MAXIMUM_RETENTION_DAYS || observed < 0 || cutoff < 0 ||
         cutoff > observed || !ValidDigest(backup) || started < observed
      {
        return Err(WriteInput);
      }
      var seconds := days * 86400;
      if seconds > observed || observed - seconds != cutoff { return Err(WriteInput); }
      lastRun := lastRun + 1;
      runs := runs[lastRun := RunRow(policy, days, observed, cutoff, backup, started, 0, NO_TOTALS, 0, false, Running, None)];
      reply := Ok(lastRun);
    }

    /** One transaction: every candidate is revalidated and purged or skipped, then the audit
        row is checkpointed. Any failure on the way rolls all of it back. */
    method PurgeBatch(runId: nat, targets: seq<Target>, cutoff: int, fault: Option<Fault>) returns (reply: Result<Totals>)
      modifies this`database, this`runs
      ensures reply == BatchReply(old(database), old(runs), runId, targets, cutoff, fault)
      ensures reply.Err? ==> database == old(database) && runs == old(runs)
      ensures reply.Ok? ==>
                && database == AfterBatch(old(database), targets, cutoff)
                && runs == old(runs)[runId := Checkpoint(old(runs)[runId], |targets|, reply.value)]
    {
      hide ValidTarget, StillMatches, RowChecks, AfterBatch, BatchTotals, OneTotals, Execute;
      if runId == 0 || cutoff < 0 || |targets| == 0 || |targets| > MAXIMUM_PURGE_PAGE { return Err(WriteInput); }
      var k := 0;
      while k < |targets|
        invariant 0 <= k <= |targets|
        invariant forall j :: 0 <= j < k ==> ValidTarget(targets[j], cutoff)
      {
        if !ValidTarget(targets[k], cutoff) { return Err(WriteInput); }
        k := k + 1;
      }
      if runId !in runs { return Err(StorageError); }
      var row := runs[runId];
      if row.outcome != Running || row.cutoff != cutoff || row.policy != POLICY_VERSION { return Err(WriteInput); }

      var tables := database;
      var totals := NO_TOTALS;
      var i := 0;
      NothingPurged(database, cutoff);
      while i < |targets|
        invariant 0 <= i <= |targets|
        invariant database == old(database) && runs == old(runs)
        invariant tables == AfterBatch(database, targets[..i], cutoff)
        invariant totals == BatchTotals(database, targets[..i], cutoff)
        invariant fault.Some? ==> fault.value.at >= i
      {
        if fault.Some? && fault.value.at == i { return Err(fault.value.error); }
        ghost var before := tables;
        var target := targets[i];
        var rows := RowsOf(tables, target.actor);
        if !StillMatches(rows, target.candidate, cutoff) {
          totals := totals.(skipped := totals.skipped + 1);
        } else {
          match target.candidate.kind {
            case PurgeLifecycle =>
              totals := totals.(relays := totals.relays + 1, events := totals.events + |rows.relayEvents|);
              rows := rows.(relay := None, relayEvents := []);
            case PurgeDiscovery =>
              totals := totals.(discoveries := totals.discoveries + 1);
              rows := rows.(discovery := None);
          }
          if rows.relay.None? && rows.discovery.None? {
            if rows.observation.Some? { totals := totals.(observations := totals.observations + 1); }
            rows := rows.(observation := None, diagnostic := None);
          }
          tables := Commit(tables, target.actor, rows);
        }
        OnePurge(before, target, cutoff);
        BatchStep(database, targets[..i], target, cutoff);
        assert targets[..i + 1] == targets[..i] + [target];
        i := i + 1;
      }
      assert targets[..i] == targets;
      if fault.Some? { return Err(fault.value.error); }
      var checkpoint := Checkpoint(row, |targets|, totals);
      if !RowChecks(checkpoint) { return Err(StorageError); }
      database := tables;
      runs := runs[runId := checkpoint];
      reply := Ok(totals);
    }

    method FinishRetentionRun(runId: nat, f: RunFinish, fault: Option<RunError>) returns (reply: Result<RunRow>)
      modifies this`runs
      ensures reply == FinishReply(old(runs), runId, f, fault)
      ensures runs == if reply.Ok? then old(runs)[runId := reply.value] else old(runs)
    {
      hide RowChecks;
      if !FinishInput(runId, f) { return Err(WriteInput); }
      if runId !in runs { return Err(StorageError); }
      var checkpoint := runs[runId];
      if checkpoint.outcome == Running && checkpoint.policy != POLICY_VERSION { return Err(WriteInput); }
      if checkpoint.outcome != Running {
        if checkpoint.finished.None? || checkpoint != Finished(checkpoint, f) { return Err(WriteInput); }
        assert runs == runs[runId := checkpoint];
        return Ok(checkpoint);
      }
      if f.totals != checkpoint.totals || f.batches < checkpoint.batches || f.scanned < checkpoint.scanned {
        return Err(WriteInput);
      }
      if f.outcome == RunCompleted && (f.scanned != checkpoint.scanned || f.batches != checkpoint.batches) {
        return Err(WriteInput);
      }
      if fault.Some? { return Err(fault.value); }
      var final := Finished(checkpoint, f);
      if !RowChecks(final) { return Err(StorageError); }
      runs := runs[runId := final];
      reply := Ok(final);
    }
  }

  lemma TargetsExtend(db: Database, rows: seq<Key>, i: nat)
    requires i < |rows| && forall j :: 0 <= j < |rows| ==> CandidateAt(db, rows[j]).Some?
    ensures TargetsAt(db, rows[..i + 1]) == TargetsAt(db, rows[..i]) + [TargetAt(db, rows[i])]
  {
    hide CandidateAt;
  }

  lemma TargetsLast(db: Database, rows: seq<Key>)
    requires rows != [] && forall j :: 0 <= j < |rows| ==> CandidateAt(db, rows[j]).Some?
    ensures TargetsAt(db, rows)[|TargetsAt(db, rows)| - 1] == TargetAt(db, rows[|rows| - 1])
  {
    hide CandidateAt;
  }

  lemma Sources(db: Database, cutoff: int)
    ensures TargetKeys(db, cutoff) == SourceKeys(db, PurgeLifecycle, cutoff) + SourceKeys(db, PurgeDiscovery, cutoff)
  {
    hide SourceKeys;
  }

  lemma NothingPurged(db: Database, cutoff: int)
    ensures AfterBatch(db, [], cutoff) == db && BatchTotals(db, [], cutoff) == NO_TOTALS
  {
  }

  lemma OnePurge(db: Database, t: Target, cutoff: int)
    ensures var r := RowsOf(db, t.actor); var reply := Purge(r, t.candidate, cutoff);
            && (reply.outcome == Purged <==> StillMatches(r, t.candidate, cutoff))
            && Execute(db, Command(t.actor, OpPurge(t.candidate, cutoff))) ==
               (if reply.outcome == Purged then Commit(db, t.actor, reply.rows) else db)
            && OneTotals(r, t, cutoff) ==
               (if reply.outcome != Purged then NO_TOTALS.(skipped := 1)
                else if t.candidate.kind == PurgeLifecycle then
                  Totals(1, 0, if r.observation.Some? && reply.rows.observation.None? then 1 else 0, |r.relayEvents|, 0)
                else Totals(0, 1, if r.observation.Some? && reply.rows.observation.None? then 1 else 0, 0, 0))
  {
    hide StillMatches;
  }
}
