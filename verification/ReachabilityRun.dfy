/** One pass of the reachability worker over its own shrinking queue, with other writers,
    cancellation and unclassified probe failures anywhere in between. */
module ReachabilityRun {
  import opened Keyset
  import opened Evidence
  import opened Store
  import opened StoreRuns
  import opened Repository
  import opened Reachability

  datatype PassError = ReadFailed(error: ReadError) | Configuration | PassCanceled | WriteFailed

  /** Around the n-th read or write: other writers' transactions, cancellation, and storage
      failures of either call. */
  datatype Around = Around(beforePage: seq<Command>, beforeWrite: seq<Command>, canceled: bool,
                           pageFault: bool, writeFault: bool)

  const UNDISTURBED := Around([], [], false, false, false)

  /** Every scanned actor has one result; a pass that failed may owe the last one. */
  predicate Accounted(t: Tally, failed: bool) {
    && t.reachable + t.unreachable + t.skipped <= t.scanned
    && t.scanned <= t.reachable + t.unreachable + t.skipped + (if failed then 1 else 0)
    && t.responsive + t.rejected + t.inboxUnreachable <= t.reachable
  }

  /** Nobody else writes, and every probe is classified. */
  ghost predicate Alone(around: nat -> Around, prober: string -> Answer) {
    && (forall i :: around(i) == UNDISTURBED)
    && (forall actor :: ProbeOne(prober(actor)).Some?)
  }

  method Count(tally: Tally, outcome: Outcome, intent: ProbeIntent) returns (counted: Tally)
    requires outcome == Skipped || outcome == Applied
    requires ValidIntent(intent)
    ensures counted == if outcome == Skipped then tally.(scanned := tally.scanned + 1, skipped := tally.skipped + 1)
                       else Counted(tally, intent)
    ensures Accounted(tally, false) ==> Accounted(counted, false)
    ensures counted.scanned == tally.scanned + 1
  {
    counted := tally.(scanned := tally.scanned + 1);
    if outcome == Skipped {
      counted := counted.(skipped := counted.skipped + 1);
    } else if intent.reachable {
      counted := counted.(reachable := counted.reachable + 1);
      match intent.inboxState {
        case NotChecked =>
        case Responsive => counted := counted.(responsive := counted.responsive + 1);
        case MethodRejected => counted := counted.(rejected := counted.rejected + 1);
        case InboxUnreachable => counted := counted.(inboxUnreachable := counted.inboxUnreachable + 1);
      }
    } else {
      counted := counted.(unreachable := counted.unreachable + 1);
    }
  }

  lemma FailedPass(tally: Tally)
    ensures Accounted(tally, false) ==> Accounted(tally, true)
    ensures Accounted(tally, false) ==> Accounted(tally.(scanned := tally.scanned + 1), true)
  {
  }

  lemma WorkerOutcomes(r: Rows, id: nat, intent: ProbeIntent, observed: int)
    requires ValidIntent(intent) && observed >= 0
    ensures var outcome := Step(r, id, OpRecordReachability(intent, observed)).outcome;
            outcome == Applied || outcome == Skipped
  {
  }

  /** Writes are serialized in candidate order; the first unclassified probe ends the pass. */
  method RecordPage(repository: RelayRepository, keys: seq<Key>, prober: string -> Answer, observed: int,
                    around: nat -> Around, start: Tally, ghost origin: Database, ghost attempted: seq<Key>,
                    ghost calm: bool)
    returns (tally: Tally, failure: Option<PassError>)
    requires observed >= 0 && Accounted(start, false)
    requires calm ==>
               && Alone(around, prober) && Swept(origin, repository.database, observed, attempted, prober)
               && start == TallyOf(attempted, prober)
               && keys == First(true, DueKeys(repository.database, observed), |keys|)
    modifies repository
    ensures Accounted(tally, failure.Some?) && tally.scanned <= start.scanned + |keys|
    ensures failure.None? ==> tally.scanned == start.scanned + |keys|
    ensures calm ==>
              && failure.None? && tally == TallyOf(attempted + keys, prober)
              && Swept(origin, repository.database, observed, attempted + keys, prober)
              && |DueKeys(repository.database, observed)| == old(|DueKeys(repository.database, observed)|) - |keys|
  {
    hide DueKeys, Swept, TallyOf, ProbeOne, Counted, Execute, Step, First, Sorted, ValidIntent, Accounted, Precedes, SetOf;
    tally, failure := start, None;
    var i := 0;
    assert attempted + keys[..0] == attempted && keys[0..] == keys;
    while i < |keys|
      invariant 0 <= i <= |keys| && failure.None?
      invariant Accounted(tally, false) && tally.scanned == start.scanned + i
      invariant calm ==>
        && Swept(origin, repository.database, observed, attempted + keys[..i], prober)
        && tally == TallyOf(attempted + keys[..i], prober)
        && keys[i..] == First(true, DueKeys(repository.database, observed), |keys| - i)
        && |DueKeys(repository.database, observed)| == old(|DueKeys(repository.database, observed)|) - i
    {
      var key := keys[i];
      var intent := ProbeOne(prober(key.text));
      FailedPass(tally);
      if intent.None? { return tally, Some(Configuration); }
      NoCommands(repository.database);
      repository.database := ExecuteAll(repository.database, around(tally.scanned).beforeWrite);
      if around(tally.scanned).writeFault { return tally.(scanned := tally.scanned + 1), Some(WriteFailed); }
      ghost var before := repository.database;
      var probe := intent.value;
      WorkerOutcomes(RowsOf(before, key.text), before.lastId + 1, probe, observed);
      var outcome := repository.RecordReachabilityObservation(key.text, probe, observed);
      if calm {
        SweptNext(origin, before, observed, attempted + keys[..i], keys[i..], prober);
        assert keys[i..][1..] == keys[i + 1..] && keys[i..][0] == key;
        assert attempted + keys[..i] + [key] == attempted + keys[..i + 1];
      }
      tally := Count(tally, outcome, probe);
      i := i + 1;
    }
    assert keys[..i] == keys;
  }

  lemma NextIsFirst(due: set<Key>, keys: seq<Key>)
    requires keys != [] && keys == First(true, due, |keys|)
    ensures keys[0] in due && AllPrecede(true, {keys[0]}, due - {keys[0]})
    ensures keys[1..] == First(true, due - {keys[0]}, |keys| - 1)
  {
    hide First, Sorted, Precedes;
    FirstTail(true, due, |keys|);
  }

  /** One undisturbed write of a page: its first actor is recorded, the others stay the first due. */
  lemma SweptNext(start: Database, db: Database, observed: int, attempted: seq<Key>, left: seq<Key>, prober: string -> Answer)
    requires Swept(start, db, observed, attempted, prober) && observed >= 0
    requires left != [] && left == First(true, DueKeys(db, observed), |left|)
    requires ProbeOne(prober(left[0].text)).Some?
    ensures var k := left[0]; var intent := ProbeOne(prober(k.text)).value;
            var op := OpRecordReachability(intent, observed);
            var after := Execute(db, Command(k.text, op));
            && Step(RowsOf(db, k.text), db.lastId + 1, op).outcome == Applied
            && Swept(start, after, observed, attempted + [k], prober)
            && TallyOf(attempted + [k], prober) == Counted(TallyOf(attempted, prober), intent)
            && left[1..] == First(true, DueKeys(after, observed), |left| - 1)
            && |DueKeys(after, observed)| == |DueKeys(db, observed)| - 1
  {
    hide DueKeys, Swept, TallyOf, ProbeOne, Counted, Execute, Step, First, AllPrecede;
    var k := left[0];
    var intent := ProbeOne(prober(k.text)).value;
    var op := OpRecordReachability(intent, observed);
    NextIsFirst(DueKeys(db, observed), left);
    SweptStep(start, db, observed, attempted, k, prober);
    SweptDue(start, db, observed, attempted, Execute(db, Command(k.text, op)), k, prober);
  }

  lemma SweptDue(start: Database, db: Database, observed: int, keys: seq<Key>, after: Database, k: Key, prober: string -> Answer)
    requires Swept(start, db, observed, keys, prober) && Swept(start, after, observed, keys + [k], prober)
    requires k in DueKeys(db, observed)
    ensures DueKeys(after, observed) == DueKeys(db, observed) - {k}
    ensures |DueKeys(after, observed)| == |DueKeys(db, observed)| - 1
  {
    hide DueKeys, Precedes, RecordedRows, ValidCheck;
    assert SetOf(keys + [k]) == SetOf(keys) + {k};
  }

  /** The next page of an undisturbed pass: the first actors still due. */
  lemma {:induction false} SweptRead(start: Database, db: Database, observed: int, keys: seq<Key>, prober: string -> Answer, limit: nat)
    requires Swept(start, db, observed, keys, prober) && observed >= 0 && 1 <= limit <= MAXIMUM_CANDIDATE_PAGE
    ensures var page := ReadDue(db, CursorOf(keys), limit, observed); var due := DueKeys(db, observed);
            && page == DuePage(First(true, due, limit), if |due| > limit then CursorOf(First(true, due, limit)) else None)
            && First(true, due, limit) == First(true, due, |First(true, due, limit)|)
  {
    hide DueKeys, Swept, First, ValidCheck, DueInput, CursorOf, Beyond, SetOf;
    var due := DueKeys(db, observed);
    SweptCursor(start, db, observed, keys, prober, limit);
    FirstOfMore(due, limit);
    var rows := First(true, due, limit + 1);
    SweptValid(start, db, observed, keys, prober, rows);
  }

  lemma SweptCursor(start: Database, db: Database, observed: int, keys: seq<Key>, prober: string -> Answer, limit: nat)
    requires Swept(start, db, observed, keys, prober) && observed >= 0 && 1 <= limit <= MAXIMUM_CANDIDATE_PAGE
    ensures DueInput(CursorOf(keys), limit, observed)
    ensures Beyond(true, DueKeys(db, observed), CursorOf(keys)) == DueKeys(db, observed)
  {
    hide DueKeys, Precedes, RecordedRows, ValidCheck, Ordered;
    if keys != [] {
      var last := keys[|keys| - 1];
      assert last in SetOf(keys);
      CheckInRange(last, observed);
    }
  }

  lemma SweptValid(start: Database, db: Database, observed: int, keys: seq<Key>, prober: string -> Answer, rows: seq<Key>)
    requires Swept(start, db, observed, keys, prober) && SetOf(rows) <= DueKeys(db, observed)
    ensures forall i :: 0 <= i < |rows| ==> ValidCheck(rows[i], observed) && rows[i].text != ""
  {
    hide DueKeys, Precedes, RecordedRows, ValidCheck, Ordered;
    forall i | 0 <= i < |rows|
      ensures ValidCheck(rows[i], observed) && rows[i].text != ""
    {
      assert rows[i] in SetOf(rows);
    }
  }

  lemma NextPage(start: Database, db: Database, observed: int, keys: seq<Key>, prober: string -> Answer, limit: nat)
    requires Swept(start, db, observed, keys, prober) && observed >= 0 && 1 <= limit <= MAXIMUM_CANDIDATE_PAGE
    ensures var page := ReadDue(db, CursorOf(keys), limit, observed); var due := DueKeys(db, observed);
            && page.DuePage? && page.candidates == First(true, due, |page.candidates|)
            && (page.next.None? <==> |due| == |page.candidates|) && (page.candidates == [] ==> due == {})
            && |page.candidates| <= |due|
  {
    hide DueKeys, Swept, ReadDue, Sorted;
    SweptRead(start, db, observed, keys, prober, limit);
  }

  lemma CheckInRange(k: Key, observed: int)
    requires ValidCheck(k, observed) && observed >= 0
    ensures -1 <= k.rank <= Max(observed - FAILURE_RETRY_MINIMUM, -1)
  {
  }

  lemma SweptEnd(start: Database, db: Database, observed: int, keys: seq<Key>, prober: string -> Answer)
    requires Swept(start, db, observed, keys, prober)
    requires |keys| <= MAXIMUM_ATTEMPTS && (|keys| == MAXIMUM_ATTEMPTS || DueKeys(db, observed) == {})
    ensures keys == First(true, DueKeys(start, observed), MAXIMUM_ATTEMPTS)
    ensures DueKeys(db, observed) == DueKeys(start, observed) - SetOf(keys)
  {
    hide DueKeys, Precedes, RecordedRows, ValidCheck, First;
    PartIsFirst(DueKeys(start, observed), keys, MAXIMUM_ATTEMPTS);
  }

  /** At most 96 attempts whatever happens. Alone: the first 96 due actors are each recorded
      once, nothing is skipped, no page is refused, no other row changes, and truncation is
      reported exactly when somebody is still due. */
  method Run(repository: RelayRepository, prober: string -> Answer, observed: int, around: nat -> Around)
    returns (tally: Tally, truncated: bool, failure: Option<PassError>, ghost attempted: seq<Key>)
    modifies repository
    ensures Accounted(tally, failure.Some?) && tally.scanned <= MAXIMUM_ATTEMPTS && (truncated ==> tally.scanned == MAXIMUM_ATTEMPTS)
    ensures Ordered(true, attempted) && tally.scanned <= |attempted|
    ensures observed < 0 ==> failure == Some(Configuration) && repository.database == old(repository.database)
    ensures forall now :: observed >= 0 && Alone(around, prober) && SoundDatabase(old(repository.database), now) ==>
              && failure.None? && attempted == First(true, DueKeys(old(repository.database), observed), MAXIMUM_ATTEMPTS)
              && Swept(old(repository.database), repository.database, observed, attempted, prober)
              && tally == TallyOf(attempted, prober) && tally.skipped == 0 && tally.scanned == |attempted|
              && (truncated <==> DueKeys(repository.database, observed) != {})
  {
    hide DueKeys, Swept, TallyOf, First, Sorted, SoundDatabase, ReadDue, ExecuteAll, StepsOn, SetOf, Ordered, Accounted,
         ProbeOne;
    ghost var origin := repository.database;
    tally, truncated, failure, attempted := NO_TALLY, false, None, [];
    Beginning();
    FailedPass(tally);
    if observed < 0 { failure := Some(Configuration); return; }
    ghost var calm := Alone(around, prober) && exists now :: SoundDatabase(origin, now);
    if calm {
      var now :| SoundDatabase(origin, now);
      SweptStart(origin, observed, now, prober);
    }
    EmptyTally(prober);
    var after := None;
    while tally.scanned < MAXIMUM_ATTEMPTS
      invariant failure.None? && !truncated && Accounted(tally, false) && tally.scanned < MAXIMUM_ATTEMPTS
      invariant Ordered(true, attempted) && after == CursorOf(attempted) && tally.scanned == |attempted|
      invariant calm ==> Swept(origin, repository.database, observed, attempted, prober) && tally == TallyOf(attempted, prober)
      decreases MAXIMUM_ATTEMPTS - tally.scanned
    {
      ghost var was := attempted;
      FailedPass(tally);
      if around(tally.scanned).canceled { failure := Some(PassCanceled); break; }
      NoCommands(repository.database);
      repository.database := ExecuteAll(repository.database, around(tally.scanned).beforePage);
      var remaining := MAXIMUM_ATTEMPTS - tally.scanned;
      var limit := MAXIMUM_CANDIDATE_PAGE;
      if remaining < limit { limit := remaining; }
      if around(tally.scanned).pageFault { failure := Some(ReadFailed(StorageError)); break; }
      var page := ReachabilityCandidates(repository, after, limit, observed);
      if calm { NextPage(origin, repository.database, observed, attempted, prober, limit); }
      if page.DueError? { failure := Some(ReadFailed(page.error)); break; }
      ReadDueFits(repository.database, after, limit, observed);
      var fits := ValidatePage(page, after, limit, observed);
      if !fits { failure := Some(Configuration); break; }
      if |page.candidates| == 0 { break; }
      StepsExtend(attempted, page.candidates);
      attempted := attempted + page.candidates;
      tally, failure := RecordPage(repository, page.candidates, prober, observed, around, tally, origin, was, calm);
      if failure.Some? { break; }
      if page.next.None? { break; }
      after := page.next;
      if tally.scanned == MAXIMUM_ATTEMPTS {
        truncated := true;
        break;
      }
    }
    if calm { TallySkipsNone(attempted, prober); SweptEnd(origin, repository.database, observed, attempted, prober); }
  }

  lemma Beginning()
    ensures Accounted(NO_TALLY, false)
    ensures Ordered(true, [])
  {
    hide Precedes;
  }

  lemma {:induction false} TallySkipsNone(keys: seq<Key>, prober: string -> Answer)
    ensures TallyOf(keys, prober).skipped == 0
  {
    hide ProbeOne;
    if keys != [] { TallySkipsNone(keys[..|keys| - 1], prober); }
  }

  lemma EmptyTally(prober: string -> Answer)
    ensures TallyOf([], prober) == NO_TALLY
  {
  }
}
