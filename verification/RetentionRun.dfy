/** The bounded retention run: pages through the store while deleting from it, with other
    writers and failures anywhere in between, and finalizes one audit row. */
module RetentionRun {
  import opened Keyset
  import opened Store
  import opened StoreInvariant
  import opened StoreRuns
  import opened RetentionRules
  import opened RetentionStore

  /** What happens around one iteration: other writers' transactions before the page and
      between page and batch, the audit rows other runs write meanwhile, cancellation, and
      failures of either call. */
  datatype Weather = Weather(beforePage: seq<Command>, beforeBatch: seq<Command>, audits: map<nat, RunRow>,
                             canceled: bool, pageFault: Option<RunError>, batchFault: Option<Fault>)

  const CALM := Weather([], [], map[], false, None, None)

  /** Other runs write every audit row but this run's own. */
  function WithAudits(runs: map<nat, RunRow>, audits: map<nat, RunRow>, id: nat): map<nat, RunRow> {
    runs + (audits - {id})
  }

  /** The audit table after so many iterations, but for this run's own row. */
  function AuditsAfter(runs: map<nat, RunRow>, weather: nat -> Weather, id: nat, rounds: nat): map<nat, RunRow> {
    if rounds == 0 then runs else WithAudits(AuditsAfter(runs, weather, id, rounds - 1), weather(rounds - 1).audits, id)
  }

  lemma OwnRow(runs: map<nat, RunRow>, audits: map<nat, RunRow>, id: nat)
    requires id in runs
    ensures id in WithAudits(runs, audits, id) && WithAudits(runs, audits, id)[id] == runs[id]
    ensures WithAudits(runs, audits, id) - {id} == WithAudits(runs - {id}, audits, id)
  {
  }

  lemma NextRound(runs: map<nat, RunRow>, weather: nat -> Weather, id: nat, rounds: nat)
    ensures AuditsAfter(runs, weather, id, 0) == runs
    ensures AuditsAfter(runs, weather, id, rounds + 1) == WithAudits(AuditsAfter(runs, weather, id, rounds), weather(rounds).audits, id)
  {
  }

  lemma {:induction false} CalmAudits(runs: map<nat, RunRow>, weather: nat -> Weather, id: nat, rounds: nat)
    requires forall i :: weather(i) == CALM
    ensures AuditsAfter(runs, weather, id, rounds) == runs
  {
    if rounds > 0 {
      CalmAudits(runs, weather, id, rounds - 1);
      assert weather(rounds - 1) == CALM;
    }
  }

  datatype Report = Report(observed: int, cutoff: int, scanned: nat, oldest: Option<int>, newest: Option<int>,
                           batches: nat, truncated: bool, totals: Totals)

  // ---- page checks ----

  function Positions(targets: seq<Target>): (keys: seq<Key>)
    ensures |keys| == |targets|
  {
    seq(|targets|, i requires 0 <= i < |targets| => PositionOf(targets[i]))
  }

  predicate PageFits(page: Page, previous: Option<Key>, limit: nat, cutoff: int) {
    && |page.targets| <= limit
    && (forall i :: 0 <= i < |page.targets| ==> ValidTarget(page.targets[i], cutoff))
    && (forall i :: 0 <= i < |page.targets| ==> StepsOn(Positions(page.targets), previous, i))
    && (page.next.Some? ==> page.targets != [] && page.next == CursorOf(Positions(page.targets)))
  }

  method ValidatePage(page: Page, previous: Option<Key>, limit: nat, cutoff: int) returns (fits: bool)
    ensures fits == PageFits(page, previous, limit, cutoff)
  {
    hide ValidTarget, Less, PositionOf;
    if |page.targets| > limit { return false; }
    if |page.targets| == 0 { return page.next.None?; }
    var position := previous;
    var i := 0;
    while i < |page.targets|
      invariant 0 <= i <= |page.targets|
      invariant position == if i == 0 then previous else Some(Positions(page.targets)[i - 1])
      invariant forall j :: 0 <= j < i ==> ValidTarget(page.targets[j], cutoff)
      invariant forall j :: 0 <= j < i ==> StepsOn(Positions(page.targets), previous, j)
    {
      var current := PositionOf(page.targets[i]);
      assert (position.None? || Less(position.value, current)) == StepsOn(Positions(page.targets), previous, i);
      if !ValidTarget(page.targets[i], cutoff) || (position.Some? && !Less(position.value, current)) { return false; }
      position := Some(current);
      i := i + 1;
    }
    fits := page.next.None? || page.next == position;
  }

  /** Pages of the store always pass. */
  lemma {:induction false} ReadPageFits(db: Database, after: Option<Key>, limit: nat, cutoff: int)
    requires ReadPage(db, after, limit, cutoff).Ok?
    ensures PageFits(ReadPage(db, after, limit, cutoff).value, after, limit, cutoff)
  {
    hide TargetKeys, ValidTarget, First, CandidateAt, Less, PositionOf;
    var rows := PageRows(db, after, limit + 1, cutoff);
    PageRowsHaveCandidates(db, after, limit + 1, cutoff);
    var page := ReadPage(db, after, limit, cutoff).value;
    assert |page.targets| == Min(limit, |rows|);
    forall i | 0 <= i < |page.targets|
      ensures page.targets[i] == TargetAt(db, rows[i]) && ValidTarget(page.targets[i], cutoff)
    {
    }
    BeyondSteps(TargetKeys(db, cutoff), after, rows);
    var keys := Positions(page.targets);
    assert keys == rows[..|keys|];
    forall i | 0 <= i < |keys|
      ensures StepsOn(keys, after, i)
    {
      assert StepsOn(rows, after, i);
    }
  }

  // ---- the interleaved history ----

  /** The store after the run's first committed batches, other writers included. */
  function StateAfter(db: Database, weather: nat -> Weather, journal: seq<seq<Target>>, cutoff: int): Database
    decreases |journal|, 0
  {
    if journal == [] then db
    else AfterBatch(BeforeBatch(db, weather, journal[..|journal| - 1], cutoff), journal[|journal| - 1], cutoff)
  }

  function BeforeBatch(db: Database, weather: nat -> Weather, journal: seq<seq<Target>>, cutoff: int): Database
    decreases |journal|, 1
  {
    var w := weather(|journal|);
    ExecuteAll(ExecuteAll(StateAfter(db, weather, journal, cutoff), w.beforePage), w.beforeBatch)
  }

  /** What the run's own batches removed, each counted at the state it ran in. */
  function JournalTotals(db: Database, weather: nat -> Weather, journal: seq<seq<Target>>, cutoff: int): Totals
    decreases |journal|
  {
    if journal == [] then NO_TOTALS
    else
      var front, last := journal[..|journal| - 1], journal[|journal| - 1];
      Add(JournalTotals(db, weather, front, cutoff), BatchTotals(BeforeBatch(db, weather, front, cutoff), last, cutoff))
  }

  lemma JournalStep(db: Database, weather: nat -> Weather, journal: seq<seq<Target>>, targets: seq<Target>, cutoff: int)
    ensures var before := BeforeBatch(db, weather, journal, cutoff);
            && before == ExecuteAll(ExecuteAll(StateAfter(db, weather, journal, cutoff), weather(|journal|).beforePage),
                                    weather(|journal|).beforeBatch)
            && StateAfter(db, weather, journal + [targets], cutoff) == AfterBatch(before, targets, cutoff)
            && JournalTotals(db, weather, journal + [targets], cutoff) ==
               Add(JournalTotals(db, weather, journal, cutoff), BatchTotals(before, targets, cutoff))
  {
    assert (journal + [targets])[..|journal|] == journal;
  }

  // ---- undisturbed runs ----

  /** With nobody else writing: the attempted positions are a first part of the positions the
      run started with, exactly they are gone, and the totals are what is missing. */
  predicate Quiet(start: Database, db: Database, cutoff: int, attempted: seq<Key>, totals: Totals) {
    hide TargetKeys, CandidateAt, Precedes, Conserves;
    var all := TargetKeys(start, cutoff);
    && FirstPart(all, attempted)
    && TargetKeys(db, cutoff) == all - SetOf(attempted)
    && (forall k :: k in all ==> CandidateAt(start, k).Some? && ValidTarget(TargetAt(start, k), cutoff))
    && (forall k :: k in all - SetOf(attempted) ==> CandidateAt(db, k) == CandidateAt(start, k))
    && Conserves(start, db, totals) && totals.skipped == 0
  }

  lemma QuietStart(db: Database, cutoff: int, now: int)
    requires SoundDatabase(db, now)
    ensures Quiet(db, db, cutoff, [], NO_TOTALS)
  {
    hide TargetKeys, CandidateAt, Precedes, Sound, ValidCandidate, RelayActors, DiscoveredActors, ObservedActors, RetainedEvents;
    forall k | k in TargetKeys(db, cutoff)
      ensures CandidateAt(db, k).Some? && ValidTarget(TargetAt(db, k), cutoff)
    {
      TargetHasCandidate(db, cutoff, k);
      SoundRows(db, now, k.text);
      SoundTarget(db, now, k);
    }
    assert TargetKeys(db, cutoff) - SetOf([]) == TargetKeys(db, cutoff);
  }

  lemma SoundTarget(db: Database, now: int, k: Key)
    requires SoundDatabase(db, now) && CandidateAt(db, k).Some?
    ensures ValidCandidate(CandidateAt(db, k).value)
  {
    hide Sound, ReadCandidate, ValidCandidate;
    SoundRows(db, now, k.text);
    SoundCandidateValid(RowsOf(db, k.text), db.lastId, now, KindOf(k.kind));
  }

  lemma QuietCursor(start: Database, db: Database, cutoff: int, attempted: seq<Key>, totals: Totals, limit: nat)
    requires Quiet(start, db, cutoff, attempted, totals) && 1 <= limit <= MAXIMUM_PURGE_PAGE && cutoff >= 0
    ensures PageInput(CursorOf(attempted), limit, cutoff)
    ensures Beyond(true, TargetKeys(db, cutoff), CursorOf(attempted)) == TargetKeys(db, cutoff)
  {
    hide TargetKeys, CandidateAt, Precedes, Conserves;
    if attempted != [] {
      var last := attempted[|attempted| - 1];
      assert last in SetOf(attempted);
      TargetHasCandidate(start, cutoff, last);
    }
  }

  /** Then the next page is simply the first rows that are left, and it is never refused. */
  lemma {:induction false} QuietRead(start: Database, db: Database, cutoff: int, attempted: seq<Key>, totals: Totals, limit: nat)
    requires Quiet(start, db, cutoff, attempted, totals) && 1 <= limit <= MAXIMUM_PURGE_PAGE && cutoff >= 0
    ensures var left := TargetKeys(db, cutoff); var keys := First(true, left, limit);
            && SetOf(keys) <= left && (forall i :: 0 <= i < |keys| ==> CandidateAt(db, keys[i]).Some?)
            && ReadPage(db, CursorOf(attempted), limit, cutoff) ==
               Ok(Page(TargetsAt(db, keys), if |left| > limit then CursorOf(keys) else None))
            && Positions(TargetsAt(db, keys)) == keys
  {
    hide TargetKeys, CandidateAt, Precedes, Conserves, ValidTarget, PositionOf, PageInput, Sorted;
    var left := TargetKeys(db, cutoff);
    var keys, rows := First(true, left, limit), First(true, left, limit + 1);
    QuietCursor(start, db, cutoff, attempted, totals, limit);
    PageRowsHaveCandidates(db, CursorOf(attempted), limit + 1, cutoff);
    assert rows == PageRows(db, CursorOf(attempted), limit + 1, cutoff);
    assert keys == rows[..Min(limit, |rows|)];
    forall i | 0 <= i < |rows|
      ensures ValidTarget(TargetAt(db, rows[i]), cutoff)
    {
      assert rows[i] in SetOf(rows);
      assert CandidateAt(db, rows[i]) == CandidateAt(start, rows[i]);
      assert TargetAt(db, rows[i]) == TargetAt(start, rows[i]);
    }
    assert Positions(TargetsAt(db, keys)) == keys;
  }

  lemma {:induction false} QuietStep(start: Database, db: Database, cutoff: int, attempted: seq<Key>, totals: Totals, limit: nat)
    requires Quiet(start, db, cutoff, attempted, totals)
    requires var keys := First(true, TargetKeys(db, cutoff), limit);
             forall i :: 0 <= i < |keys| ==> CandidateAt(db, keys[i]).Some?
    ensures var keys := First(true, TargetKeys(db, cutoff), limit); var targets := TargetsAt(db, keys);
            && Quiet(start, AfterBatch(db, targets, cutoff), cutoff, attempted + keys, Add(totals, BatchTotals(db, targets, cutoff)))
            && |TargetKeys(AfterBatch(db, targets, cutoff), cutoff)| == |TargetKeys(db, cutoff)| - |keys|
  {
    hide TargetKeys, CandidateAt, Precedes, Conserves, ValidTarget, First, Sorted, AfterBatch, BatchTotals, Ordered, TargetAt, TargetsAt;
    var left := TargetKeys(db, cutoff);
    var keys := First(true, left, limit);
    var targets := TargetsAt(db, keys);
    QuietBatch(db, keys, cutoff);
    BatchConserves(db, targets, cutoff);
    ConservesAdd(start, db, AfterBatch(db, targets, cutoff), totals, BatchTotals(db, targets, cutoff));
    FirstSplits(true, left, limit);
    PartExtends(TargetKeys(start, cutoff), attempted, keys);
  }

  lemma ConservesAdd(a: Database, b: Database, c: Database, t: Totals, u: Totals)
    requires Conserves(a, b, t) && Conserves(b, c, u)
    ensures Conserves(a, c, Add(t, u))
  {
    hide RelayActors, DiscoveredActors, ObservedActors, RetainedEvents;
  }

  lemma QuietEnd(start: Database, db: Database, cutoff: int, attempted: seq<Key>, totals: Totals)
    requires Quiet(start, db, cutoff, attempted, totals)
    requires |attempted| == MAXIMUM_PURGE_ATTEMPTS || (TargetKeys(db, cutoff) == {} && |attempted| <= MAXIMUM_PURGE_ATTEMPTS)
    ensures attempted == First(true, TargetKeys(start, cutoff), MAXIMUM_PURGE_ATTEMPTS)
    ensures TargetKeys(db, cutoff) == TargetKeys(start, cutoff) - SetOf(attempted)
    ensures Conserves(start, db, totals) && totals.skipped == 0
  {
    hide TargetKeys, CandidateAt, Precedes, Conserves, ValidTarget, First;
    PartIsFirst(TargetKeys(start, cutoff), attempted, MAXIMUM_PURGE_ATTEMPTS);
  }

  // ---- the run ----

  predicate Policy(days: int, observed: int) {
    1 <= days <= MAXIMUM_RETENTION_DAYS && 0 <= days * 86400 <= observed
  }

  function Bounds(oldest: Option<int>, newest: Option<int>, keys: seq<Key>): (Option<int>, Option<int>) {
    if keys == [] then (oldest, newest)
    else (if oldest.None? then Some(keys[0].rank) else oldest, Some(keys[|keys| - 1].rank))
  }

  method Extend(oldest: Option<int>, newest: Option<int>, targets: seq<Target>) returns (first: Option<int>, last: Option<int>)
    ensures (first, last) == Bounds(oldest, newest, Positions(targets))
  {
    first, last := oldest, newest;
    var i := 0;
    while i < |targets|
      invariant 0 <= i <= |targets|
      invariant (first, last) == Bounds(oldest, newest, Positions(targets)[..i])
    {
      var value := targets[i].candidate.inactive;
      if first.None? { first := Some(value); }
      last := Some(value);
      i := i + 1;
    }
    assert Positions(targets)[..i] == Positions(targets);
  }

  lemma BoundsNone(oldest: Option<int>, newest: Option<int>)
    ensures Bounds(oldest, newest, Positions([])) == (oldest, newest)
  {
  }

  lemma BoundsExtend(a: seq<Key>, b: seq<Key>)
    ensures var (oldest, newest) := Bounds(None, None, a); Bounds(oldest, newest, b) == Bounds(None, None, a + b)
  {
    if b == [] { assert a + b == a; }
  }

  /** The running audit row against the run's own counters. */
  predicate Audited(row: RunRow, report: Report, clean: bool) {
    && row.outcome == Running && row.policy == POLICY_VERSION && row.cutoff == report.cutoff
    && row.observed == report.observed && row.started == report.observed && !row.truncated
    && row.totals == report.totals && RowChecks(row)
    && row.scanned <= report.scanned && row.batches <= report.batches <= report.scanned
    && (report.scanned > 0 ==> report.batches > 0)
    && (clean ==> row.scanned == report.scanned && row.batches == report.batches)
  }

  lemma BatchAudited(db: Database, row: RunRow, report: Report, targets: seq<Target>)
    requires Audited(row, report, true) && targets != [] && report.scanned + |targets| <= MAXIMUM_PURGE_ATTEMPTS
    ensures var counted := report.(scanned := report.scanned + |targets|, batches := report.batches + 1);
            var totals := BatchTotals(db, targets, report.cutoff);
            && Audited(row, counted, false)
            && RowChecks(Checkpoint(row, |targets|, totals)) && Checkpoint(row, |targets|, totals).backup == row.backup
            && Audited(Checkpoint(row, |targets|, totals), counted.(totals := Add(report.totals, totals)), true)
            && totals.relays + totals.discoveries + totals.skipped == |targets|
  {
    hide BatchTotals;
    BatchAccounts(db, targets, report.cutoff);
    CheckpointFits(db, row, targets, report.cutoff);
  }

  function FinishOf(report: Report, failure: Option<RunError>): RunFinish {
    RunFinish(report.scanned, report.totals, report.batches, report.truncated,
              if failure.None? then RunCompleted else if failure.value == Canceled then RunCanceled else RunFailed,
              report.observed)
  }

  /** The store accepts the totals the run reports, however the run ended. */
  lemma {:induction false} FinishAccepted(runs: map<nat, RunRow>, id: nat, report: Report, failure: Option<RunError>,
                                           fault: Option<RunError>)
    requires id > 0 && id in runs && Audited(runs[id], report, failure.None?)
    requires report.scanned <= MAXIMUM_PURGE_ATTEMPTS
    ensures FinishReply(runs, id, FinishOf(report, failure), fault) ==
            if fault.Some? then Err(fault.value) else Ok(Finished(runs[id], FinishOf(report, failure)))
    ensures RowChecks(Finished(runs[id], FinishOf(report, failure)))
  {
  }

  /** One page and its batch. */
  method PurgePage(repository: RetentionRepository, id: nat, cursor: Option<Key>, limit: nat, current: Report, w: Weather,
                   ghost attempted: seq<Key>)
    returns (report: Report, failure: Option<RunError>, next: Option<Key>, targets: seq<Target>)
    requires id > 0 && id in repository.runs && Audited(repository.runs[id], current, true)
    requires 1 <= limit <= MAXIMUM_PURGE_PAGE && current.scanned + limit <= MAXIMUM_PURGE_ATTEMPTS
    requires current.cutoff >= 0 && Ordered(true, attempted) && cursor == CursorOf(attempted)
    modifies repository`database, repository`runs
    ensures id in repository.runs && repository.runs - {id} == WithAudits(old(repository.runs) - {id}, w.audits, id)
    ensures repository.runs[id].backup == old(repository.runs[id].backup)
    ensures Audited(repository.runs[id], report, failure.None?)
    ensures |targets| <= limit && Ordered(true, attempted + Positions(targets))
    ensures report == current.(scanned := current.scanned + |targets|, oldest := report.oldest, newest := report.newest,
                               batches := current.batches + (if targets == [] then 0 else 1), totals := report.totals)
    ensures (report.oldest, report.newest) == Bounds(current.oldest, current.newest, Positions(targets))
    ensures var before := ExecuteAll(ExecuteAll(old(repository.database), w.beforePage), w.beforeBatch);
            if failure.None? && targets != [] then
              && repository.database == AfterBatch(before, targets, current.cutoff)
              && report.totals == Add(current.totals, BatchTotals(before, targets, current.cutoff))
              && var t := BatchTotals(before, targets, current.cutoff); t.relays + t.discoveries + t.skipped == |targets|
            else report.totals == current.totals
    ensures targets == [] ==> next.None?
    ensures next.Some? ==> next == CursorOf(Positions(targets))
    ensures w == CALM && ReadPage(old(repository.database), cursor, limit, current.cutoff).Ok? ==>
              var page := ReadPage(old(repository.database), cursor, limit, current.cutoff).value;
              && failure.None? && targets == page.targets && next == page.next
              && (targets == [] ==> repository.database == old(repository.database))
  {
    hide RowChecks, TargetKeys, CandidateAt, Precedes, First, Sorted, ReadPage, FinishReply, AfterBatch, BatchTotals,
         Ordered, PositionOf, ValidTarget, Bounds, Positions, TargetsAt, Checkpoint, Execute, StepsOn;
    report, failure, next, targets := current, None, None, [];
    assert attempted + Positions([]) == attempted;
    NoCommands(repository.database);
    BoundsNone(current.oldest, current.newest);
    OwnRow(repository.runs, w.audits, id);
    repository.database := ExecuteAll(repository.database, w.beforePage);
    repository.runs := WithAudits(repository.runs, w.audits, id);
    if w.pageFault.Some? { return report, w.pageFault, next, targets; }
    var read := repository.PurgeCandidates(cursor, limit, current.cutoff);
    if read.Err? { return report, Some(read.error), next, targets; }
    var page := read.value;
    ReadPageFits(repository.database, cursor, limit, current.cutoff);
    var fits := ValidatePage(page, cursor, limit, current.cutoff);
    if !fits { return report, Some(Configuration), next, targets; }
    targets := page.targets;
    if |targets| == 0 { return report, failure, next, targets; }
    StepsExtend(attempted, Positions(targets));

    report := report.(batches := report.batches + 1, scanned := report.scanned + |targets|);
    var oldest, newest := Extend(report.oldest, report.newest, targets);
    report := report.(oldest := oldest, newest := newest);
    repository.database := ExecuteAll(repository.database, w.beforeBatch);
    ghost var before := repository.database;
    BatchAudited(before, repository.runs[id], current, targets);
    BatchAccounts(before, targets, current.cutoff);
    var reply := repository.PurgeBatch(id, targets, current.cutoff, w.batchFault);
    if reply.Err? { return report, Some(reply.error), next, targets; }
    var batch := reply.value;
    var primary := batch.relays + batch.discoveries;
    var consistent := primary + batch.skipped == |targets| && batch.observations <= primary;
    if !consistent { return report, Some(Configuration), next, targets; }
    report := report.(totals := Add(report.totals, batch));
    next := page.next;
  }

  /** Pages and batches until nothing is left, the attempts are used up, or something fails.
      `calm` says nothing else happens around the run. */
  method PurgePages(repository: RetentionRepository, id: nat, empty: Report, weather: nat -> Weather, ghost calm: bool)
    returns (report: Report, failure: Option<RunError>, ghost attempted: seq<Key>, ghost journal: seq<seq<Target>>,
             ghost rounds: nat)
    requires id > 0 && id in repository.runs && Audited(repository.runs[id], empty, true) && empty.cutoff >= 0
    requires empty == Report(empty.observed, empty.cutoff, 0, None, None, 0, false, NO_TOTALS)
    requires calm ==> Quiet(repository.database, repository.database, empty.cutoff, [], NO_TOTALS)
    requires calm ==> forall i :: weather(i) == CALM
    modifies repository`database, repository`runs
    ensures id in repository.runs
    ensures repository.runs - {id} == AuditsAfter(old(repository.runs) - {id}, weather, id, rounds)
    ensures report.batches <= rounds <= report.batches + 1
    ensures repository.runs[id].backup == old(repository.runs[id].backup)
    ensures Audited(repository.runs[id], report, failure.None?)
    ensures report.cutoff == empty.cutoff && report.observed == empty.observed
    ensures report.scanned == |attempted| <= MAXIMUM_PURGE_ATTEMPTS && Ordered(true, attempted)
    ensures (report.oldest, report.newest) == Bounds(None, None, attempted)
    ensures report.totals == JournalTotals(old(repository.database), weather, journal, empty.cutoff)
    ensures failure.None? ==> report.totals.relays + report.totals.discoveries + report.totals.skipped == report.scanned
    ensures calm ==>
              && failure.None? && Quiet(old(repository.database), repository.database, empty.cutoff, attempted, report.totals)
              && (|attempted| == MAXIMUM_PURGE_ATTEMPTS || TargetKeys(repository.database, empty.cutoff) == {})
              && (report.truncated <==> TargetKeys(repository.database, empty.cutoff) != {})
  {
    hide RowChecks, Quiet, TargetKeys, CandidateAt, Precedes, Conserves, First, Sorted, ReadPage, SetOf, BatchTotals,
         PageFits, AfterBatch, ExecuteAll, Ordered, PositionOf, JournalTotals, StateAfter, BeforeBatch, Bounds, Positions,
         WithAudits, AuditsAfter;
    ghost var start, cutoff := repository.database, empty.cutoff;
    report, failure := empty, None;
    attempted, journal, rounds := [], [], 0;
    var cursor := None;
    RunStart(start, weather, cutoff);
    NextRound(repository.runs - {id}, weather, id, 0);
    while report.scanned < MAXIMUM_PURGE_ATTEMPTS
      invariant id in repository.runs && rounds == report.batches
      invariant repository.runs - {id} == AuditsAfter(old(repository.runs) - {id}, weather, id, rounds)
      invariant repository.runs[id].backup == old(repository.runs[id].backup)
      invariant Audited(repository.runs[id], report, true)
      invariant report.cutoff == cutoff && report.observed == empty.observed
      invariant failure.None? && !report.truncated
      invariant report.scanned == |attempted| <= MAXIMUM_PURGE_ATTEMPTS && Ordered(true, attempted)
      invariant cursor == CursorOf(attempted) && |journal| == report.batches
      invariant (report.oldest, report.newest) == Bounds(None, None, attempted)
      invariant repository.database == StateAfter(start, weather, journal, cutoff)
      invariant report.totals == JournalTotals(start, weather, journal, cutoff)
      invariant report.totals.relays + report.totals.discoveries + report.totals.skipped == report.scanned
      invariant calm ==> Quiet(start, repository.database, cutoff, attempted, report.totals)
      invariant report.scanned < MAXIMUM_PURGE_ATTEMPTS
      decreases MAXIMUM_PURGE_ATTEMPTS - report.scanned
    {
      var w := weather(report.batches);
      if w.canceled { failure := Some(Canceled); break; }
      var remaining := MAXIMUM_PURGE_ATTEMPTS - report.scanned;
      var limit := MAXIMUM_PURGE_PAGE;
      if remaining < limit { limit := remaining; }
      ghost var before, totals, was := repository.database, report.totals, attempted;
      NextRound(old(repository.runs) - {id}, weather, id, rounds);
      rounds := rounds + 1;
      var next, targets;
      report, failure, next, targets := PurgePage(repository, id, cursor, limit, report, w, attempted);
      attempted := attempted + Positions(targets);
      assert targets == [] ==> attempted == was;
      BoundsExtend(was, Positions(targets));
      NoCommands(before);
      if calm { QuietPage(start, before, cutoff, was, totals, limit); }
      if failure.Some? || |targets| == 0 { break; }
      JournalStep(start, weather, journal, targets, cutoff);
      journal := journal + [targets];
      if next.None? { break; }
      cursor := next;
      if report.scanned == MAXIMUM_PURGE_ATTEMPTS {
        report := report.(truncated := true);
        break;
      }
    }
  }

  /** Any interleaving of other writers, any failure: at most a thousand attempts, none twice;
      the audit row ends with exactly the run's totals, which are what its own batches removed.
      Undisturbed: the first thousand positions are attempted and gone, nothing is skipped,
      every other position is left, and truncation is reported exactly when some are. */
  method Run(repository: RetentionRepository, days: int, observed: int, backup: string, startFault: Option<RunError>,
             weather: nat -> Weather, finishFault: Option<RunError>)
    returns (report: Report, failure: Option<RunError>, ghost attempted: seq<Key>, ghost journal: seq<seq<Target>>,
             ghost rounds: nat)
    modifies repository
    ensures !Policy(days, observed) || !ValidDigest(backup) || startFault.Some? ==>
              failure.Some? && repository.database == old(repository.database) && repository.runs == old(repository.runs)
    ensures Policy(days, observed) && ValidDigest(backup) && startFault.None? ==>
              var id, cutoff := old(repository.lastRun) + 1, observed - days * 86400;
              && report.scanned == |attempted| <= MAXIMUM_PURGE_ATTEMPTS && Ordered(true, attempted)
              && (report.oldest, report.newest) == Bounds(None, None, attempted)
              && report.totals == JournalTotals(old(repository.database), weather, journal, cutoff)
              && id in repository.runs
              && repository.runs - {id} == AuditsAfter(old(repository.runs) - {id}, weather, id, rounds)
              && report.batches <= rounds <= report.batches + 1 && repository.runs[id].backup == backup
              && RowChecks(repository.runs[id]) && repository.runs[id].totals == report.totals
              && (finishFault.None? ==>
                    && repository.runs[id].scanned == report.scanned && repository.runs[id].batches == report.batches
                    && repository.runs[id].truncated == report.truncated
                    && repository.runs[id].outcome == FinishOf(report, failure).outcome)
              && (failure.None? ==>
                    report.totals.relays + report.totals.discoveries + report.totals.skipped == report.scanned)
    ensures forall now :: (Policy(days, observed) && ValidDigest(backup) && startFault.None? && finishFault.None? &&
                           SoundDatabase(old(repository.database), now) && (forall i :: weather(i) == CALM)) ==>
              var start, cutoff, id := old(repository.database), observed - days * 86400, old(repository.lastRun) + 1;
              && repository.runs - {id} == old(repository.runs) - {id}
              && failure.None? && report.totals.skipped == 0
              && attempted == First(true, TargetKeys(start, cutoff), MAXIMUM_PURGE_ATTEMPTS)
              && TargetKeys(repository.database, cutoff) == TargetKeys(start, cutoff) - SetOf(attempted)
              && Conserves(start, repository.database, report.totals)
              && (report.truncated <==> TargetKeys(repository.database, cutoff) != {})
  {
    hide RowChecks, Quiet, TargetKeys, Conserves, First, Ordered, SetOf, SoundDatabase, JournalTotals, Bounds, FinishReply,
         AuditsAfter, ValidDigest;
    ghost var start, audits := repository.database, repository.runs;
    report := Report(0, 0, 0, None, None, 0, false, NO_TOTALS);
    attempted, journal, rounds := [], [], 0;
    if !Policy(days, observed) || !ValidDigest(backup) { return report, Some(Configuration), attempted, journal, rounds; }
    if startFault.Some? { return report, startFault, attempted, journal, rounds; }
    var cutoff := observed - days * 86400;
    var begun := repository.BeginRetentionRun(POLICY_VERSION, days, observed, cutoff, backup, observed);
    var id := begun.value;
    report := report.(observed := observed, cutoff := cutoff);
    ghost var calm := exists now :: SoundDatabase(start, now) && forall i :: weather(i) == CALM;
    if calm {
      var now :| SoundDatabase(start, now);
      QuietStart(start, cutoff, now);
    }
    assert repository.runs[id] == RunRow(POLICY_VERSION, days, observed, cutoff, backup, observed, 0, NO_TOTALS, 0, false, Running, None);
    assert repository.runs - {id} == audits - {id};
    report, failure, attempted, journal, rounds := PurgePages(repository, id, report, weather, calm);
    if calm {
      QuietEnd(start, repository.database, cutoff, attempted, report.totals);
      CalmAudits(audits - {id}, weather, id, rounds);
    }
    FinishAccepted(repository.runs, id, report, failure, finishFault);
    var finish := FinishOf(report, failure);
    var finished := repository.FinishRetentionRun(id, finish, finishFault);
    if failure.None? && finished.Err? { failure := Some(finished.error); }
  }

  lemma RunStart(db: Database, weather: nat -> Weather, cutoff: int)
    ensures StateAfter(db, weather, [], cutoff) == db && JournalTotals(db, weather, [], cutoff) == NO_TOTALS
    ensures Ordered(true, []) && Bounds(None, None, []) == (None, None)
  {
  }

  /** What an undisturbed page and batch do, whichever page it is. */
  lemma QuietPage(start: Database, db: Database, cutoff: int, attempted: seq<Key>, totals: Totals, limit: nat)
    requires Quiet(start, db, cutoff, attempted, totals) && 1 <= limit <= MAXIMUM_PURGE_PAGE && cutoff >= 0
    ensures ReadPage(db, CursorOf(attempted), limit, cutoff).Ok?
    ensures var page := ReadPage(db, CursorOf(attempted), limit, cutoff).value;
            var after := AfterBatch(db, page.targets, cutoff);
            && Quiet(start, after, cutoff, attempted + Positions(page.targets), Add(totals, BatchTotals(db, page.targets, cutoff)))
            && (page.next.None? <==> TargetKeys(after, cutoff) == {})
            && (page.targets == [] ==> TargetKeys(db, cutoff) == {})
  {
    hide TargetKeys, CandidateAt, Quiet, Positions, TargetsAt, AfterBatch, BatchTotals, ReadPage, Sorted;
    QuietRead(start, db, cutoff, attempted, totals, limit);
    QuietStep(start, db, cutoff, attempted, totals, limit);
  }

  // ---- the dry run ----

  /** Each page read beyond the last one continues the first part. */
  lemma {:induction false} DryPage(db: Database, cutoff: int, attempted: seq<Key>, limit: nat)
    requires FirstPart(TargetKeys(db, cutoff), attempted) && limit > 0
    requires ReadPage(db, CursorOf(attempted), limit, cutoff).Ok?
    ensures var page := ReadPage(db, CursorOf(attempted), limit, cutoff).value; var all := TargetKeys(db, cutoff);
            && FirstPart(all, attempted + Positions(page.targets))
            && |attempted| <= |all| && |Positions(page.targets)| == Min(limit, |all| - |attempted|)
            && (page.next.Some? <==> |all| - |attempted| > limit)
            && (page.next.Some? ==> page.next == CursorOf(Positions(page.targets)))
  {
    hide TargetKeys, CandidateAt, Precedes, First, ValidTarget, PositionOf, Sorted, Ordered;
    var all := TargetKeys(db, cutoff);
    var left := all - SetOf(attempted);
    var page := ReadPage(db, CursorOf(attempted), limit, cutoff).value;
    PartCursor(all, attempted);
    PageRowsHaveCandidates(db, CursorOf(attempted), limit + 1, cutoff);
    var rows := PageRows(db, CursorOf(attempted), limit + 1, cutoff);
    FirstOfMore(left, limit);
    assert Positions(page.targets) == rows[..Min(limit, |rows|)];
    OrderedSize(true, attempted);
    assert all == SetOf(attempted) + left;
    FirstSplits(true, left, limit);
    PartExtends(all, attempted, Positions(page.targets));
  }

  lemma SoundReads(db: Database, cutoff: int, now: int, attempted: seq<Key>, limit: nat)
    requires SoundDatabase(db, now) && FirstPart(TargetKeys(db, cutoff), attempted)
    requires 1 <= limit <= MAXIMUM_PURGE_PAGE && cutoff >= 0
    ensures ReadPage(db, CursorOf(attempted), limit, cutoff).Ok?
  {
    hide TargetKeys, CandidateAt, Precedes, First, Sorted, Ordered, SoundDatabase, ValidTarget, PositionOf;
    if attempted != [] {
      var last := attempted[|attempted| - 1];
      assert last in SetOf(attempted);
      SoundPosition(db, cutoff, now, last);
    }
    PageRowsHaveCandidates(db, CursorOf(attempted), limit + 1, cutoff);
    var rows := PageRows(db, CursorOf(attempted), limit + 1, cutoff);
    forall i | 0 <= i < |rows|
      ensures ValidTarget(TargetAt(db, rows[i]), cutoff)
    {
      assert rows[i] in SetOf(rows);
      SoundPosition(db, cutoff, now, rows[i]);
    }
  }

  lemma SoundPosition(db: Database, cutoff: int, now: int, k: Key)
    requires SoundDatabase(db, now) && k in TargetKeys(db, cutoff)
    ensures CandidateAt(db, k).Some? && ValidTarget(TargetAt(db, k), cutoff)
    ensures 0 <= k.rank <= cutoff && k.text != "" && 0 <= k.kind <= 1
  {
    hide TargetKeys, CandidateAt, Sound;
    TargetHasCandidate(db, cutoff, k);
    SoundTarget(db, now, k);
  }

  /** The read-only summary counts, on an unchanged store, exactly the positions an undisturbed
      run attempts: the first thousand, with the same bounds and the same truncation. */
  method Summarize(repository: RetentionRepository, days: int, observed: int)
    returns (report: Report, failure: Option<RunError>, ghost attempted: seq<Key>)
    ensures failure == Some(Configuration) <== days < 0 || days > MAXIMUM_RETENTION_DAYS || observed < 0 || days * 86400 > observed
    ensures days == 0 && observed >= 0 ==> failure.None? && report.scanned == 0 && !report.truncated
    ensures Policy(days, observed) && failure.None? ==>
              var all := TargetKeys(repository.database, observed - days * 86400);
              && attempted == First(true, all, MAXIMUM_PURGE_ATTEMPTS) && report.scanned == |attempted|
              && (report.oldest, report.newest) == Bounds(None, None, attempted)
              && (report.truncated <==> |all| > MAXIMUM_PURGE_ATTEMPTS)
    ensures forall now :: Policy(days, observed) && SoundDatabase(repository.database, now) ==> failure.None?
  {
    hide TargetKeys, First, Sorted, ReadPage, PageFits, FirstPart, SoundDatabase, Bounds, Positions, CursorOf, Ordered, SetOf;
    report := Report(observed, 0, 0, None, None, 0, false, NO_TOTALS);
    failure, attempted := None, [];
    if days < 0 || days > MAXIMUM_RETENTION_DAYS || observed < 0 { return report, Some(Configuration), attempted; }
    var seconds := days * 86400;
    if seconds > observed { return report, Some(Configuration), attempted; }
    var cutoff := observed - seconds;
    report := report.(cutoff := cutoff);
    if days == 0 { return; }
    var cursor := None;
    NothingYet(TargetKeys(repository.database, cutoff));
    while report.scanned < MAXIMUM_PURGE_ATTEMPTS
      invariant failure.None? && !report.truncated && report.scanned == |attempted| < MAXIMUM_PURGE_ATTEMPTS
      invariant FirstPart(TargetKeys(repository.database, cutoff), attempted) && cursor == CursorOf(attempted)
      invariant (report.oldest, report.newest) == Bounds(None, None, attempted)
      decreases MAXIMUM_PURGE_ATTEMPTS - report.scanned
    {
      var remaining := MAXIMUM_PURGE_ATTEMPTS - report.scanned;
      var limit := MAXIMUM_PURGE_PAGE;
      if remaining < limit { limit := remaining; }
      var read := repository.PurgeCandidates(cursor, limit, cutoff);
      forall now | SoundDatabase(repository.database, now)
        ensures read.Ok?
      {
        SoundReads(repository.database, cutoff, now, attempted, limit);
      }
      if read.Err? { return report, Some(read.error), attempted; }
      var page := read.value;
      ReadPageFits(repository.database, cursor, limit, cutoff);
      var fits := ValidatePage(page, cursor, limit, cutoff);
      if !fits { return report, Some(Configuration), attempted; }
      DryPage(repository.database, cutoff, attempted, limit);
      if |page.targets| == 0 {
        assert attempted + Positions(page.targets) == attempted;
        break;
      }
      var oldest, newest := Extend(report.oldest, report.newest, page.targets);
      BoundsExtend(attempted, Positions(page.targets));
      LastOfBoth(attempted, Positions(page.targets));
      attempted := attempted + Positions(page.targets);
      report := report.(batches := report.batches + 1, scanned := report.scanned + |page.targets|, oldest := oldest, newest := newest);
      if page.next.None? { break; }
      cursor := page.next;
      if report.scanned == MAXIMUM_PURGE_ATTEMPTS {
        report := report.(truncated := true);
        break;
      }
    }
    PartIsFirst(TargetKeys(repository.database, cutoff), attempted, MAXIMUM_PURGE_ATTEMPTS);
  }

  lemma NothingYet(all: set<Key>)
    ensures FirstPart(all, []) && CursorOf([]) == None && Bounds(None, None, []) == (None, None)
  {
    hide Precedes;
  }

  lemma LastOfBoth(a: seq<Key>, b: seq<Key>)
    requires b != []
    ensures CursorOf(a + b) == CursorOf(b)
  {
  }
}
