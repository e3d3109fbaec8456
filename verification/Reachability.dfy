/** The reachability worker: one bounded pass probes the actors that are due and records what
    it saw, which takes them off the very queue it is paging through. */
module Reachability {
  import opened Keyset
  import opened Evidence
  import opened Store
  import opened StoreInvariant
  import opened StoreRuns
  import opened Repository

  const MAXIMUM_CANDIDATE_PAGE := 24
  const MAXIMUM_ATTEMPTS := 96

  // ---- due actors ----

  /** The persisted next check decides while it belongs to the last check; otherwise the age of
      that check does, weekly for an actor unseen for a week. */
  predicate Due(r: Rows, observed: int) {
    r.observation.None? || r.observation.value.checked.None? ||
    var row := r.observation.value; var checked := row.checked.value;
    if r.diagnostic.Some? && r.diagnostic.value.updated == checked then r.diagnostic.value.nextCheck <= observed
    else checked < (if row.actorState == Unreachable && LastKnownOnline(r) <= observed - UNREACHABLE_RETRY
                    then observed - UNREACHABLE_RETRY else observed - REACHABILITY_FRESHNESS)
  }

  /** Never checked first, then the oldest check, then the actor. */
  function QueueKey(actor: string, r: Rows): Key {
    Key(if r.observation.Some? && r.observation.value.checked.Some? then r.observation.value.checked.value else -1, actor, 0)
  }

  function DueKeys(db: Database, observed: int): set<Key> {
    set actor | actor in db.rows && Eligible(db.rows[actor]) && Due(db.rows[actor], observed) ::
      QueueKey(actor, db.rows[actor])
  }

  lemma DueKeyIff(db: Database, observed: int, k: Key)
    ensures k in DueKeys(db, observed) <==>
              && k.text in db.rows && Eligible(db.rows[k.text]) && Due(db.rows[k.text], observed)
              && k == QueueKey(k.text, db.rows[k.text])
  {
    hide Eligible, Due;
  }

  /** Whether a retained check time may still be due. */
  predicate ValidCheck(k: Key, observed: int) { k.rank == -1 || 0 <= k.rank <= observed - FAILURE_RETRY_MINIMUM }

  lemma SoundDueKey(db: Database, now: int, observed: int, k: Key)
    requires SoundDatabase(db, now) && k in DueKeys(db, observed)
    ensures ValidCheck(k, observed) && k.text != ""
  {
    hide LogsOk, IsReplay, NoneSuspended, Eligible, DueKeys, LastKnownOnline;
    DueKeyIff(db, observed, k);
    assert Sound(db.rows[k.text], db.lastId, now);
  }

  datatype ReadError = ReadInput | StorageError
  datatype DuePage = DuePage(candidates: seq<Key>, next: Option<Key>) | DueError(error: ReadError)

  predicate DueInput(after: Option<Key>, limit: int, observed: int) {
    && 1 <= limit <= MAXIMUM_CANDIDATE_PAGE && observed >= 0
    && (after.Some? ==> after.value.text != "" && -1 <= after.value.rank <= Max(observed - FAILURE_RETRY_MINIMUM, -1))
  }

  function DueRows(db: Database, after: Option<Key>, limit: nat, observed: int): seq<Key> {
    First(true, Beyond(true, DueKeys(db, observed), after), limit)
  }

  function ReadDue(db: Database, after: Option<Key>, limit: int, observed: int): DuePage {
    hide First, Beyond, DueKeys, ValidCheck;
    if !DueInput(after, limit, observed) then DueError(ReadInput)
    else
      var rows := DueRows(db, after, limit + 1, observed);
      if exists i :: 0 <= i < |rows| && !(ValidCheck(rows[i], observed) && rows[i].text != "") then DueError(StorageError)
      else DuePage(rows[..Min(limit, |rows|)], if |rows| > limit then Some(rows[limit - 1]) else None)
  }

  method ReachabilityCandidates(repository: RelayRepository, after: Option<Key>, limit: int, observed: int)
    returns (page: DuePage)
    ensures page == ReadDue(repository.database, after, limit, observed)
  {
    hide First, Beyond, DueKeys, ValidCheck;
    if !DueInput(after, limit, observed) { return DueError(ReadInput); }
    var rows := DueRows(repository.database, after, limit + 1, observed);
    var candidates, next := [], None;
    var i := 0;
    while i < |rows|
      invariant 0 <= i <= |rows| && i <= limit && next.None?
      invariant candidates == rows[..i]
      invariant forall j :: 0 <= j < i ==> ValidCheck(rows[j], observed) && rows[j].text != ""
    {
      if rows[i].text == "" || !ValidCheck(rows[i], observed) { return DueError(StorageError); }
      if |candidates| == limit {
        next := Some(candidates[|candidates| - 1]);
        break;
      }
      candidates := candidates + [rows[i]];
      i := i + 1;
    }
    page := DuePage(candidates, next);
  }

  // ---- page checks of the worker ----

  predicate PageFits(page: DuePage, after: Option<Key>, limit: nat, observed: int)
    requires page.DuePage?
  {
    var keys := page.candidates;
    && |keys| <= limit && |keys| <= MAXIMUM_CANDIDATE_PAGE
    && (forall i :: 0 <= i < |keys| ==> StepsOn(keys, after, i))
    && (forall i :: 0 <= i < |keys| ==> keys[i].rank <= Max(observed - FAILURE_RETRY_MINIMUM, -1))
    && (page.next.Some? ==> keys != [] && page.next == CursorOf(keys))
  }

  method ValidatePage(page: DuePage, after: Option<Key>, limit: nat, observed: int) returns (fits: bool)
    requires page.DuePage?
    ensures fits == PageFits(page, after, limit, observed)
  {
    hide Less;
    var keys := page.candidates;
    if |keys| > limit || |keys| > MAXIMUM_CANDIDATE_PAGE { return false; }
    if |keys| == 0 { return page.next.None?; }
    var cutoff := observed - FAILURE_RETRY_MINIMUM;
    var previous := after;
    var i := 0;
    while i < |keys|
      invariant 0 <= i <= |keys|
      invariant previous == if i == 0 then after else Some(keys[i - 1])
      invariant forall j :: 0 <= j < i ==> StepsOn(keys, after, j)
      invariant forall j :: 0 <= j < i ==> keys[j].rank <= Max(observed - FAILURE_RETRY_MINIMUM, -1)
    {
      assert (previous.None? || Less(previous.value, keys[i])) == StepsOn(keys, after, i);
      if previous.Some? && !Less(previous.value, keys[i]) { return false; }
      if keys[i].rank > -1 && keys[i].rank > cutoff { return false; }
      previous := Some(keys[i]);
      i := i + 1;
    }
    fits := page.next.None? || page.next == previous;
  }

  /** The worker never rejects a page of the store. */
  lemma {:induction false} ReadDueFits(db: Database, after: Option<Key>, limit: nat, observed: int)
    requires ReadDue(db, after, limit, observed).DuePage?
    ensures PageFits(ReadDue(db, after, limit, observed), after, limit, observed)
  {
    hide DueKeys, First, Less;
    var rows := DueRows(db, after, limit + 1, observed);
    var page := ReadDue(db, after, limit, observed);
    BeyondSteps(DueKeys(db, observed), after, rows);
    forall i | 0 <= i < |page.candidates|
      ensures StepsOn(page.candidates, after, i)
    {
      assert StepsOn(rows, after, i);
    }
  }

  // ---- probes ----

  /** What the prober answers about an actor and about its declared inbox, each with its
      diagnosis; `configuration` marks a local failure. */
  datatype ActorAnswer = ActorFound(same: bool, inboxUrl: string, diagnostic: Diagnostic)
                       | ActorFailed(configuration: bool, diagnostic: Diagnostic)
  datatype InboxAnswer = InboxFound(state: InboxState, diagnostic: Diagnostic)
                       | InboxFailed(configuration: bool, diagnostic: Diagnostic)
  datatype Answer = Answer(actor: ActorAnswer, inbox: InboxAnswer)

  /** Every result the worker writes is a complete one; local and unclassified failures give
      none, and a failed actor always has a diagnosis. */
  function ProbeOne(answer: Answer): (intent: Option<ProbeIntent>)
    ensures intent.Some? ==> ValidIntent(intent.value)
    ensures intent.Some? && !intent.value.reachable ==> intent.value.actorDiagnostic != NO_DIAGNOSTIC
  {
    hide ValidDiagnostic;
    assert ValidDiagnostic(NO_DIAGNOSTIC) by { NothingDiagnosed(); }
    match answer.actor
    case ActorFailed(configuration, d) =>
      if configuration || !ValidDiagnostic(d) || d == NO_DIAGNOSTIC then None
      else Some(ProbeIntent(false, "", NotChecked, d, NO_DIAGNOSTIC))
    case ActorFound(same, url, d) =>
      if !same || d != NO_DIAGNOSTIC then None
      else if url == "" then Some(ProbeIntent(true, "", NotChecked, NO_DIAGNOSTIC, NO_DIAGNOSTIC))
      else match answer.inbox
        case InboxFailed(configuration, e) =>
          if configuration || !ValidDiagnostic(e) then None
          else Some(ProbeIntent(true, url, InboxUnreachable, NO_DIAGNOSTIC, e))
        case InboxFound(state, e) =>
          if !ValidDiagnostic(e) || state == NotChecked then None
          else Some(ProbeIntent(true, url, state, NO_DIAGNOSTIC, e))
  }

  lemma NothingDiagnosed()
    ensures ValidDiagnostic(NO_DIAGNOSTIC)
  {
  }

  datatype Tally = Tally(scanned: nat, reachable: nat, unreachable: nat, skipped: nat,
                         responsive: nat, rejected: nat, inboxUnreachable: nat)

  const NO_TALLY := Tally(0, 0, 0, 0, 0, 0, 0)

  function Counted(t: Tally, intent: ProbeIntent): Tally {
    var t' := t.(scanned := t.scanned + 1);
    if !intent.reachable then t'.(unreachable := t.unreachable + 1)
    else
      var t'' := t'.(reachable := t.reachable + 1);
      match intent.inboxState
      case NotChecked => t''
      case Responsive => t''.(responsive := t.responsive + 1)
      case MethodRejected => t''.(rejected := t.rejected + 1)
      case InboxUnreachable => t''.(inboxUnreachable := t.inboxUnreachable + 1)
  }

  /** The tally of a pass that applied each of these. */
  function TallyOf(keys: seq<Key>, prober: string -> Answer): Tally {
    if keys == [] then NO_TALLY
    else
      var front := TallyOf(keys[..|keys| - 1], prober);
      var intent := ProbeOne(prober(keys[|keys| - 1].text));
      if intent.None? then front else Counted(front, intent.value)
  }

  // ---- the failure streak ----

  function Streak(r: Rows): nat { if r.diagnostic.Some? then r.diagnostic.value.streak else 0 }

  /** Worker failures in a row since the last worker success or since the actor's diagnostic
      row last began, counted over a whole run of transactions. */
  function FailuresInARow(commands: seq<Command>, actor: string): nat {
    if commands == [] then 0
    else
      var front, last := commands[..|commands| - 1], commands[|commands| - 1];
      var before := ExecuteAll(FRESH_DATABASE, front);
      if last.actor != actor || !Committed(Step(RowsOf(before, actor), before.lastId + 1, last.op).outcome)
      then FailuresInARow(front, actor)
      else if last.op.OpRecordReachability? then if last.op.intent.reachable then 0 else FailuresInARow(front, actor) + 1
      else if Step(RowsOf(before, actor), before.lastId + 1, last.op).rows.diagnostic.None? then 0
      else FailuresInARow(front, actor)
  }

  lemma DiagnosticKept(r: Rows, id: nat, op: Op)
    requires !op.OpRecordReachability?
    ensures Step(r, id, op).rows.diagnostic == r.diagnostic || Step(r, id, op).rows.diagnostic.None?
  {
    hide LatestTransition, LatestDiscovery, Verify, StillMatches, ValidProbe, ValidIntent, ObservationOr, DiscoveryAdd;
  }

  lemma WorkerDiagnostic(r: Rows, id: nat, op: Op)
    requires op.OpRecordReachability? && Committed(Step(r, id, op).outcome)
    ensures Streak(Step(r, id, op).rows) ==
            if op.intent.reachable then 0 else if Streak(r) < MAXIMUM_FAILURE_STREAK then Streak(r) + 1 else Streak(r)
  {
    hide ValidIntent, Eligible, LastKnownOnline;
  }

  /** In every reachable state the persisted streak is the number of failures in a row, capped,
      and the next check lies between one hour and seven days after the check it belongs to. */
  lemma {:induction false} StreakCountsFailures(commands: seq<Command>, now: int, actor: string)
    requires Timely(commands, now)
    ensures var r := RowsOf(ExecuteAll(FRESH_DATABASE, commands), actor);
            && Streak(r) == Min(FailuresInARow(commands, actor), MAXIMUM_FAILURE_STREAK)
            && (r.diagnostic.Some? ==> r.diagnostic.value.updated + FAILURE_RETRY_MINIMUM <= r.diagnostic.value.nextCheck
                                       <= r.diagnostic.value.updated + UNREACHABLE_RETRY)
  {
    hide Step, Committed, Sound;
    assert SoundDatabase(FRESH_DATABASE, now);
    ExecuteAllKeeps(FRESH_DATABASE, commands, now, now);
    SoundRows(ExecuteAll(FRESH_DATABASE, commands), now, actor);
    SoundDiagnostic(RowsOf(ExecuteAll(FRESH_DATABASE, commands), actor), ExecuteAll(FRESH_DATABASE, commands).lastId, now);
    if commands != [] {
      var front, last := commands[..|commands| - 1], commands[|commands| - 1];
      StreakCountsFailures(front, now, actor);
      var before := ExecuteAll(FRESH_DATABASE, front);
      var r := RowsOf(before, actor);
      if last.actor == actor && Committed(Step(r, before.lastId + 1, last.op).outcome) {
        if last.op.OpRecordReachability? {
          WorkerDiagnostic(r, before.lastId + 1, last.op);
        } else {
          DiagnosticKept(r, before.lastId + 1, last.op);
        }
      }
    }
  }

  lemma SoundDiagnostic(r: Rows, last: nat, now: int)
    requires Sound(r, last, now)
    ensures r.diagnostic.Some? ==> DiagnosticOk(r.diagnostic.value, r.observation)
  {
    hide LogsOk, IsReplay, NoneSuspended;
  }

  // ---- a pass nobody interferes with ----

  function RecordedRows(r: Rows, answer: Answer, observed: int): Rows {
    var intent := ProbeOne(answer);
    if intent.None? then r
    else RecordReachability(r, intent.value, observed).rows
  }

  function ActorsOf(keys: seq<Key>): set<string> { set k | k in keys :: k.text }

  /** The attempted actors are a first part of those due at the start; each was recorded once,
      every other row is as it was, and exactly they are no longer due. */
  ghost predicate Swept(start: Database, db: Database, observed: int, keys: seq<Key>, prober: string -> Answer) {
    hide DueKeys, Precedes, RecordedRows;
    var all := DueKeys(start, observed);
    && FirstPart(all, keys)
    && DueKeys(db, observed) == all - SetOf(keys)
    && (forall k :: k in all ==> ValidCheck(k, observed) && k.text != "")
    && (forall actor :: RowsOf(db, actor) ==
          if actor in ActorsOf(keys) then RecordedRows(RowsOf(start, actor), prober(actor), observed) else RowsOf(start, actor))
  }

  lemma SweptStart(db: Database, observed: int, now: int, prober: string -> Answer)
    requires SoundDatabase(db, now)
    ensures Swept(db, db, observed, [], prober)
  {
    hide DueKeys, Precedes, RecordedRows, SoundDatabase, ValidCheck;
    forall k | k in DueKeys(db, observed)
      ensures ValidCheck(k, observed) && k.text != ""
    {
      SoundDueKey(db, now, observed, k);
    }
  }

  /** Recording a due actor is applied and puts its next check past the pass. */
  lemma RecordDue(r: Rows, observed: int, intent: ProbeIntent)
    requires Eligible(r) && Due(r, observed) && ValidCheck(QueueKey("", r), observed) && observed >= 0
    requires ValidIntent(intent)
    ensures var reply := RecordReachability(r, intent, observed);
            reply.outcome == Applied && !Due(reply.rows, observed)
  {
    hide Eligible, LastKnownOnline, ValidDiagnostic;
  }

  lemma RecordDueStep(db: Database, k: Key, observed: int, intent: ProbeIntent)
    requires k in DueKeys(db, observed) && ValidCheck(k, observed) && observed >= 0
    requires ValidIntent(intent)
    ensures var op := OpRecordReachability(intent, observed);
            var after := Execute(db, Command(k.text, op));
            && Step(RowsOf(db, k.text), db.lastId + 1, op).outcome == Applied
            && DueKeys(after, observed) == DueKeys(db, observed) - {k}
            && forall actor :: RowsOf(after, actor) ==
                 if actor == k.text then Step(RowsOf(db, k.text), db.lastId + 1, op).rows else RowsOf(db, actor)
  {
    hide Eligible, Due, DueKeys, RecordReachability, ValidIntent, QueueKey;
    var r := RowsOf(db, k.text);
    DueKeyIff(db, observed, k);
    RankOnly(k.text, r);
    RecordDue(r, observed, intent);
    var after := Execute(db, Command(k.text, OpRecordReachability(intent, observed)));
    forall other: Key
      ensures other in DueKeys(after, observed) <==> other in DueKeys(db, observed) - {k}
    {
      DueKeyIff(db, observed, other);
      DueKeyIff(after, observed, other);
    }
  }

  lemma RankOnly(actor: string, r: Rows)
    ensures QueueKey(actor, r).rank == QueueKey("", r).rank && QueueKey(actor, r).text == actor
  {
  }

  lemma {:induction false} SweptStep(start: Database, db: Database, observed: int, keys: seq<Key>, k: Key, prober: string -> Answer)
    requires Swept(start, db, observed, keys, prober) && observed >= 0
    requires k in DueKeys(db, observed) && AllPrecede(true, {k}, DueKeys(db, observed) - {k})
    requires ProbeOne(prober(k.text)).Some?
    ensures var intent := ProbeOne(prober(k.text)).value;
            var op := OpRecordReachability(intent, observed);
            && Step(RowsOf(db, k.text), db.lastId + 1, op).outcome == Applied
            && Swept(start, Execute(db, Command(k.text, op)), observed, keys + [k], prober)
            && TallyOf(keys + [k], prober) == Counted(TallyOf(keys, prober), intent)
  {
    hide DueKeys, Precedes, RecordReachability, ProbeOne, Execute, ValidCheck, Counted, FirstPart, AllPrecede;
    var intent := ProbeOne(prober(k.text)).value;
    RecordDueStep(db, k, observed, intent);
    OnePart(DueKeys(db, observed), k);
    PartExtends(DueKeys(start, observed), keys, [k]);
    PartWithin(DueKeys(start, observed), keys);
    assert k.text !in ActorsOf(keys) by { NewActor(start, observed, keys, k); }
    assert ActorsOf(keys + [k]) == ActorsOf(keys) + {k.text};
    assert (keys + [k])[..|keys|] == keys;
  }

  lemma NewActor(db: Database, observed: int, keys: seq<Key>, k: Key)
    requires SetOf(keys) <= DueKeys(db, observed) && k in DueKeys(db, observed) - SetOf(keys)
    ensures k.text !in ActorsOf(keys)
  {
    hide DueKeys, Eligible, Due, QueueKey;
    DueKeyIff(db, observed, k);
    forall other | other in keys
      ensures other.text != k.text
    {
      assert other in SetOf(keys);
      DueKeyIff(db, observed, other);
    }
  }
}
