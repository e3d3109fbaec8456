/** The durable store. Every table is keyed by the canonical relay actor, so the state is
    one `Rows` record per actor: its row in each table and its slice of each append-only log.
    A transaction is a function from the actor's rows to new rows and an outcome. */
module Store {
  import opened Keyset
  import opened Evidence

  datatype Lifecycle = Registered | Unregistered | Pruned

  datatype RelayRow = RelayRow(
    lifecycle: Lifecycle, suspended: bool, firstRegistered: int, updated: int, lastSeen: int,
    lastHeartbeat: Option<int>, unregisteredAt: Option<int>, prunedAt: Option<int>, suspendedAt: Option<int>)

  datatype DiscoveryRow = DiscoveryRow(
    active: bool, firstDiscovered: int, updated: int, removedAt: Option<int>)

  datatype ObservationRow = ObservationRow(
    actorState: ActorState, checked: Option<int>, success: Option<int>,
    inboxUrl: string, inboxDeclared: Option<int>, inboxState: InboxState, inboxChecked: Option<int>,
    verified: Option<int>, updated: int, revision: nat)

  datatype DiagnosticRow = DiagnosticRow(nextCheck: int, updated: int, streak: nat, actor: Diagnostic, inbox: Diagnostic)

  datatype CandidateState = CandidateUnreachable | CandidateIncompatible | CandidateResolved
  datatype CandidateRow = CandidateRow(
    state: CandidateState, firstSeen: int, lastChecked: int, lastSuccess: Option<int>,
    failureCount: nat, updated: int)

  /** A log entry. Identifiers come from one increasing counter and are never reused. */
  datatype Event<K> = Event(id: nat, kind: K, at: int)
  datatype RelayEventKind = RegisterCreated | RegisterUpdated | RegisterUnchanged | HeartbeatRecorded
                          | UnregisterRemoved | UnregisterAbsent | RelayPruned
  datatype ModerationKind = SuspendApplied | SuspendUnchanged | RestoreApplied | RestoreUnchanged
  datatype DiscoveryKind = DiscoveryAdded | DiscoveryUpdated | DiscoveryUnchanged
                         | DiscoveryRemoved | DiscoveryAbsent
  datatype CandidateKind = CandidateAdded(state: CandidateState) | CandidateUpdated(state: CandidateState) | CandidateClosed

  datatype Rows = Rows(
    relay: Option<RelayRow>, discovery: Option<DiscoveryRow>, observation: Option<ObservationRow>,
    diagnostic: Option<DiagnosticRow>, candidate: Option<CandidateRow>,
    relayEvents: seq<Event<RelayEventKind>>, moderationEvents: seq<Event<ModerationKind>>,
    discoveryEvents: seq<Event<DiscoveryKind>>, candidateEvents: seq<Event<CandidateKind>>)

  const EMPTY := Rows(None, None, None, None, None, [], [], [], [])

  datatype Error = TransitionTime | RelaySuspended | EnrollmentClosed | RelayAbsent
                 | InvalidInput | ObservationMissing | ObservationTime | ObservationConflict
                 | CandidateTime | StorageFailure

  datatype Outcome =
    | Created | Updated | Unchanged | Recorded | Removed | Absent
    | NowSuspended | AlreadySuspended | Restored | AlreadyActive
    | PruneApplied | AlreadyPruned | PruneNotEligible
    | Observed | Applied | Skipped | Promoted | Purged
    | Failed(error: Error)

  datatype Reply = Reply(rows: Rows, outcome: Outcome)

  /** Outcomes whose transaction commits; every other one rolls back. */
  predicate Committed(outcome: Outcome) {
    outcome != AlreadyPruned && outcome != PruneNotEligible && outcome != Skipped && !outcome.Failed?
  }

  // ---- logs ----

  function Max(a: int, b: int): int { if a > b then a else b }

  /** SELECT MAX(recorded_at_unix), or -1 when the log is empty. */
  function LatestAt<K>(events: seq<Event<K>>): int {
    if events == [] then -1 else Max(events[|events| - 1].at, LatestAt(events[..|events| - 1]))
  }

  /** SELECT MAX(event_id), or 0 when the log is empty. */
  function LatestId<K>(events: seq<Event<K>>): nat {
    if events == [] then 0 else Max(events[|events| - 1].id, LatestId(events[..|events| - 1]))
  }

  function LatestTransition(r: Rows): int {
    Max(Max(if r.relay.Some? then Max(r.relay.value.updated, r.relay.value.lastSeen) else -1,
            LatestAt(r.relayEvents)),
        LatestAt(r.moderationEvents))
  }

  function LatestDiscovery(r: Rows): int {
    Max(if r.discovery.Some? then r.discovery.value.updated else -1, LatestAt(r.discoveryEvents))
  }

  // ---- lifecycle ----

  const EMPTY_OBSERVATION := ObservationRow(Unknown, None, None, "", None, NotChecked, None, None, 0, 1)

  function ObservationOr(current: Option<ObservationRow>, at: int): ObservationRow {
    if current.Some? then current.value else EMPTY_OBSERVATION.(updated := at)
  }

  /** Authenticated evidence of an accepted signed request; None when time would run back. */
  function Verify(current: Option<ObservationRow>, at: int): Option<ObservationRow> {
    var row := ObservationOr(current, at);
    if row.verified.Some? && at < row.verified.value then None
    else Some(row.(verified := Some(at), updated := Max(row.updated, at), revision := row.revision + 1))
  }

  function Register(r: Rows, id: nat, enrollmentOpen: bool, at: int): Reply {
    if at < 0 then Reply(r, Failed(TransitionTime))
    else if r.relay.Some? && r.relay.value.suspended then Reply(r, Failed(RelaySuspended))
    else if r.relay.None? && !enrollmentOpen then Reply(r, Failed(EnrollmentClosed))
    else if at < LatestTransition(r) then Reply(r, Failed(TransitionTime))
    else
      var observation := Verify(r.observation, at);
      if observation.None? then Reply(r, Failed(ObservationTime))
      else
        var (row, kind, outcome) :=
          if r.relay.None? then
            (RelayRow(Registered, false, at, at, at, Some(at), None, None, None), RegisterCreated, Created)
          else if r.relay.value.lifecycle == Registered then
            (r.relay.value.(updated := at, lastSeen := at, lastHeartbeat := Some(at)),
             RegisterUnchanged, Unchanged)
          else
            (r.relay.value.(lifecycle := Registered, updated := at, lastSeen := at,
                            lastHeartbeat := Some(at), unregisteredAt := None, prunedAt := None),
             RegisterUpdated, Updated);
        Reply(r.(relay := Some(row), observation := observation,
                 relayEvents := r.relayEvents + [Event(id, kind, at)]), outcome)
  }

  function Heartbeat(r: Rows, id: nat, at: int): Reply {
    if at < 0 then Reply(r, Failed(TransitionTime))
    else if r.relay.None? || r.relay.value.lifecycle != Registered then Reply(r, Failed(RelayAbsent))
    else if r.relay.value.suspended then Reply(r, Failed(RelaySuspended))
    else if at < LatestTransition(r) then Reply(r, Failed(TransitionTime))
    else
      var observation := Verify(r.observation, at);
      if observation.None? then Reply(r, Failed(ObservationTime))
      else Reply(r.(relay := Some(r.relay.value.(updated := at, lastSeen := at, lastHeartbeat := Some(at))),
                    observation := observation,
                    relayEvents := r.relayEvents + [Event(id, HeartbeatRecorded, at)]), Recorded)
  }

  function Unregister(r: Rows, id: nat, at: int): Reply {
    if at < 0 || at < LatestTransition(r) then Reply(r, Failed(TransitionTime))
    else
      var listed := r.relay.Some? && r.relay.value.lifecycle == Registered;
      var retained := r.relay.Some? || r.discovery.Some?;
      var observation := if retained then Verify(r.observation, at) else r.observation;
      if retained && observation.None? then Reply(r, Failed(ObservationTime))
      else
        var relay := if listed then
            Some(r.relay.value.(lifecycle := Unregistered, updated := at, unregisteredAt := Some(at)))
          else r.relay;
        Reply(r.(relay := relay, observation := observation,
                 relayEvents := r.relayEvents +
                   [Event(id, if listed then UnregisterRemoved else UnregisterAbsent, at)]),
              if listed then Removed else Absent)
  }

  function Moderate(r: Rows, id: nat, suspend: bool, at: int): Reply {
    if at < 0 then Reply(r, Failed(TransitionTime))
    else if r.relay.None? then Reply(r, Failed(RelayAbsent))
    else if at < LatestTransition(r) then Reply(r, Failed(TransitionTime))
    else
      var row := r.relay.value;
      var changed := row.suspended != suspend;
      var relay := if changed then
          row.(suspended := suspend, suspendedAt := if suspend then Some(at) else None, updated := at)
        else row;
      var kind := if suspend then (if changed then SuspendApplied else SuspendUnchanged)
                  else if changed then RestoreApplied else RestoreUnchanged;
      Reply(r.(relay := Some(relay), moderationEvents := r.moderationEvents + [Event(id, kind, at)]),
            if suspend then (if changed then NowSuspended else AlreadySuspended)
            else if changed then Restored else AlreadyActive)
  }

  /** A reachable actor with a success inside the freshness window is not pruned. */
  predicate PruneProtected(observation: Option<ObservationRow>, observed: int) {
    && observation.Some? && observation.value.actorState == Reachable
    && observation.value.success.Some?
    && observation.value.success.value >= observed - REACHABILITY_FRESHNESS
  }

  function SoftPrune(r: Rows, id: nat, observed: int): Reply {
    if observed < 0 then Reply(r, Failed(TransitionTime))
    else if r.relay.None? then Reply(r, PruneNotEligible)
    else if r.relay.value.lifecycle == Pruned then Reply(r, AlreadyPruned)
    else if r.relay.value.lifecycle != Registered || r.relay.value.lastSeen > observed - DEAD_BEFORE
    then Reply(r, PruneNotEligible)
    else if PruneProtected(r.observation, observed) then Reply(r, PruneNotEligible)
    else if observed < LatestTransition(r) then Reply(r, PruneNotEligible)
    else Reply(r.(relay := Some(r.relay.value.(lifecycle := Pruned, updated := observed, prunedAt := Some(observed))),
                  relayEvents := r.relayEvents + [Event(id, RelayPruned, observed)]), PruneApplied)
  }

  // ---- discovery ----

  function DiscoveryAdd(r: Rows, at: int): (DiscoveryRow, DiscoveryKind, Outcome) {
    if r.discovery.None? then (DiscoveryRow(true, at, at, None), DiscoveryAdded, Created)
    else if r.discovery.value.active then (r.discovery.value, DiscoveryUnchanged, Unchanged)
    else (r.discovery.value.(active := true, updated := at, removedAt := None), DiscoveryUpdated, Updated)
  }

  function AddDiscovery(r: Rows, id: nat, at: int): Reply {
    if at < 0 || at < LatestDiscovery(r) then Reply(r, Failed(TransitionTime))
    else
      var (row, kind, outcome) := DiscoveryAdd(r, at);
      Reply(r.(discovery := Some(row), discoveryEvents := r.discoveryEvents + [Event(id, kind, at)]), outcome)
  }

  function RemoveDiscovery(r: Rows, id: nat, at: int): Reply {
    if at < 0 || at < LatestDiscovery(r) then Reply(r, Failed(TransitionTime))
    else if r.discovery.Some? && r.discovery.value.active then
      Reply(r.(discovery := Some(r.discovery.value.(active := false, updated := at, removedAt := Some(at))),
               discoveryEvents := r.discoveryEvents + [Event(id, DiscoveryRemoved, at)]), Removed)
    else
      Reply(r.(discoveryEvents := r.discoveryEvents + [Event(id, DiscoveryAbsent, at)]), Absent)
  }

  // ---- observations ----

  function ActorChecked(row: ObservationRow, reachable: bool, inboxUrl: string, at: int): ObservationRow {
    var written := row.(checked := Some(at), updated := Max(row.updated, at), revision := row.revision + 1);
    if reachable then
      written.(actorState := Reachable, success := Some(at), inboxUrl := inboxUrl,
               inboxDeclared := if inboxUrl != "" then Some(at) else None,
               inboxState := NotChecked, inboxChecked := None)
    else written.(actorState := Unreachable)
  }

  function RecordActor(r: Rows, reachable: bool, inboxUrl: string, at: int): Reply {
    if !reachable && inboxUrl != "" then Reply(r, Failed(InvalidInput))
    else if at < 0 then Reply(r, Failed(ObservationTime))
    else if r.relay.None? && r.discovery.None? then Reply(r, Failed(ObservationMissing))
    else if r.observation.Some? && r.observation.value.checked.Some? && at < r.observation.value.checked.value
    then Reply(r, Failed(ObservationTime))
    else Reply(r.(observation := Some(ActorChecked(ObservationOr(r.observation, at), reachable, inboxUrl, at))), Observed)
  }

  function RecordInbox(r: Rows, inboxUrl: string, state: InboxState, at: int): Reply {
    if inboxUrl == "" || state == NotChecked then Reply(r, Failed(InvalidInput))
    else if at < 0 then Reply(r, Failed(ObservationTime))
    else if r.observation.None? || r.observation.value.inboxUrl != inboxUrl
    then Reply(r, Failed(ObservationConflict))
    else
      var row := r.observation.value;
      if (row.inboxDeclared.Some? && at < row.inboxDeclared.value) ||
         (row.inboxChecked.Some? && at < row.inboxChecked.value)
      then Reply(r, Failed(ObservationTime))
      else Reply(r.(observation := Some(row.(inboxState := state, inboxChecked := Some(at),
                                             updated := Max(row.updated, at), revision := row.revision + 1))),
                 Observed)
  }

  /** Public eligibility: an active lifecycle row that is registered or soft-pruned, or an
      active discovery; a retained suspension overrides both. */
  predicate LifecycleListed(r: Rows) {
    r.relay.Some? && r.relay.value.lifecycle != Unregistered && !r.relay.value.suspended
  }

  predicate DiscoveryListed(r: Rows) {
    r.discovery.Some? && r.discovery.value.active && !(r.relay.Some? && r.relay.value.suspended)
  }

  predicate Eligible(r: Rows) { LifecycleListed(r) || DiscoveryListed(r) }

  predicate ValidProbe(reachable: bool, inboxUrl: string, state: InboxState) {
    if !reachable then inboxUrl == "" && state == NotChecked
    else inboxUrl == "" <==> state == NotChecked
  }

  function Reached(row: ObservationRow, inboxUrl: string, state: InboxState, at: int): ObservationRow {
    var declared := if inboxUrl != "" then Some(at) else None;
    row.(actorState := Reachable, checked := Some(at), success := Some(at),
         inboxUrl := inboxUrl, inboxDeclared := declared, inboxState := state, inboxChecked := declared,
         revision := row.revision + 1)
  }

  function Probed(row: ObservationRow, reachable: bool, inboxUrl: string, state: InboxState, at: int): ObservationRow {
    var updated := Max(row.updated, at);
    if reachable then Reached(row, inboxUrl, state, at).(updated := updated)
    else row.(actorState := Unreachable, checked := Some(at), updated := updated, revision := row.revision + 1)
  }

  function LastKnownOnline(r: Rows): int {
    Max(Max(if r.relay.Some? then r.relay.value.lastSeen else -1,
            if r.discovery.Some? then r.discovery.value.firstDiscovered else -1),
        if r.observation.Some? && r.observation.value.success.Some? then r.observation.value.success.value else -1)
  }

  function RetryDelay(streak: nat): int {
    if streak == 1 then FAILURE_RETRY_MINIMUM
    else if streak == 2 then 2 * 3600
    else if streak == 3 then 4 * 3600
    else REACHABILITY_FRESHNESS
  }

  /** The complete result of one worker probe. */
  datatype ProbeIntent = ProbeIntent(
    reachable: bool, inboxUrl: string, inboxState: InboxState, actorDiagnostic: Diagnostic, inboxDiagnostic: Diagnostic)

  predicate ValidIntent(p: ProbeIntent) {
    && ValidDiagnostic(p.actorDiagnostic) && ValidDiagnostic(p.inboxDiagnostic)
    && (if p.reachable then p.actorDiagnostic == NO_DIAGNOSTIC else p.inboxDiagnostic == NO_DIAGNOSTIC)
    && ValidProbe(p.reachable, p.inboxUrl, p.inboxState)
  }

  /** A failed actor check keeps the inbox part of the diagnostic. */
  function NextDiagnostic(r: Rows, p: ProbeIntent, at: int): DiagnosticRow {
    if p.reachable then DiagnosticRow(at + REACHABILITY_FRESHNESS, at, 0, p.actorDiagnostic, p.inboxDiagnostic)
    else
      var previous := if r.diagnostic.Some? then r.diagnostic.value.streak else 0;
      var streak := if previous < MAXIMUM_FAILURE_STREAK then previous + 1 else previous;
      var delay := if LastKnownOnline(r) <= at - UNREACHABLE_RETRY then UNREACHABLE_RETRY else RetryDelay(streak);
      DiagnosticRow(at + delay, at, streak, p.actorDiagnostic,
                    if r.diagnostic.Some? then r.diagnostic.value.inbox else p.inboxDiagnostic)
  }

  function RecordReachability(r: Rows, p: ProbeIntent, at: int): Reply {
    if !ValidIntent(p) then Reply(r, Failed(InvalidInput))
    else if at < 0 then Reply(r, Failed(ObservationTime))
    else if !Eligible(r) then Reply(r, Skipped)
    else if r.observation.Some? && r.observation.value.checked.Some? && r.observation.value.checked.value >= at
    then Reply(r, Skipped)
    else
      var observation := Probed(ObservationOr(r.observation, at), p.reachable, p.inboxUrl, p.inboxState, at);
      Reply(r.(observation := Some(observation), diagnostic := Some(NextDiagnostic(r, p, at))), Applied)
  }

  // ---- private candidates ----

  function RetainCandidate(r: Rows, id: nat, state: CandidateState, at: int): Reply {
    if state == CandidateResolved then Reply(r, Failed(InvalidInput))
    else if at < 0 then Reply(r, Failed(CandidateTime))
    else if r.candidate.None? then
      Reply(r.(candidate := Some(CandidateRow(state, at, at, None, 1, at)),
               candidateEvents := r.candidateEvents + [Event(id, CandidateAdded(state), at)]), Created)
    else if at < r.candidate.value.lastChecked then Reply(r, Failed(CandidateTime))
    else Reply(r.(candidate := Some(r.candidate.value.(state := state, lastChecked := at,
                                                       failureCount := r.candidate.value.failureCount + 1,
                                                       updated := at)),
                  candidateEvents := r.candidateEvents + [Event(id, CandidateUpdated(state), at)]), Updated)
  }

  /** Promotion writes discovery, observation and candidate in one transaction. The row's
      update time is set to the observation time, so the table's check that no evidence is
      newer than the row aborts the transaction when authenticated evidence is newer. */
  function Promote(r: Rows, id: nat, inboxUrl: string, state: InboxState, at: int): Reply {
    if !ValidProbe(true, inboxUrl, state) || at < 0 then Reply(r, Failed(InvalidInput))
    else if r.candidate.None? || r.candidate.value.state == CandidateResolved || r.candidate.value.lastChecked >= at
    then Reply(r, Skipped)
    else if at < LatestDiscovery(r) then Reply(r, Skipped)
    else if r.observation.Some? && r.observation.value.checked.Some? && r.observation.value.checked.value >= at
    then Reply(r, Skipped)
    else
      var (discovery, kind, _) := DiscoveryAdd(r, at);
      var row := ObservationOr(r.observation, at);
      if row.verified.Some? && row.verified.value > at then Reply(r, Failed(StorageFailure))
      else Reply(r.(discovery := Some(discovery),
                    discoveryEvents := r.discoveryEvents + [Event(id, kind, at)],
                    observation := Some(Reached(row, inboxUrl, state, at).(updated := at)),
                    candidate := Some(r.candidate.value.(state := CandidateResolved, lastChecked := at,
                                                         lastSuccess := Some(at), updated := at)),
                    candidateEvents := r.candidateEvents + [Event(id, CandidateClosed, at)]), Promoted)
  }

  // ---- hard retention ----

  datatype PurgeKind = PurgeDiscovery | PurgeLifecycle

  /** The decision versions snapshotted when a purge candidate is read. */
  datatype PurgeCandidate = PurgeCandidate(
    kind: PurgeKind, lifecycle: Option<Lifecycle>, inactive: int, updated: int,
    relayEvent: nat, moderationEvent: nat, discoveryEvent: nat, revision: nat)

  function Revision(r: Rows): nat {
    if r.observation.Some? then r.observation.value.revision else 0
  }

  function InactiveAt(relay: RelayRow): Option<int> {
    match relay.lifecycle
    case Registered => None
    case Unregistered => relay.unregisteredAt
    case Pruned => relay.prunedAt
  }

  /** What the candidate query reads for one actor, without the cutoff. */
  function ReadCandidate(r: Rows, kind: PurgeKind): Option<PurgeCandidate> {
    match kind
    case PurgeLifecycle =>
      if r.relay.None? || r.relay.value.suspended || InactiveAt(r.relay.value).None? then None
      else Some(PurgeCandidate(PurgeLifecycle, Some(r.relay.value.lifecycle), InactiveAt(r.relay.value).value,
                               r.relay.value.updated, LatestId(r.relayEvents), LatestId(r.moderationEvents),
                               0, Revision(r)))
    case PurgeDiscovery =>
      if r.discovery.None? || r.discovery.value.active || r.discovery.value.removedAt.None? then None
      else Some(PurgeCandidate(PurgeDiscovery, None, r.discovery.value.removedAt.value,
                               r.discovery.value.updated, 0, 0, LatestId(r.discoveryEvents), Revision(r)))
  }

  /** Revalidation inside the destructive transaction. */
  predicate StillMatches(r: Rows, c: PurgeCandidate, cutoff: int) {
    match c.kind
    case PurgeLifecycle =>
      && r.relay.Some?
      && InactiveAt(r.relay.value) == Some(c.inactive) && r.relay.value.updated == c.updated
      && Revision(r) == c.revision && c.inactive <= cutoff
      && !r.relay.value.suspended && Some(r.relay.value.lifecycle) == c.lifecycle
      && LatestId(r.relayEvents) == c.relayEvent && LatestId(r.moderationEvents) == c.moderationEvent
    case PurgeDiscovery =>
      && r.discovery.Some?
      && r.discovery.value.removedAt == Some(c.inactive) && r.discovery.value.updated == c.updated
      && Revision(r) == c.revision && c.inactive <= cutoff
      && !r.discovery.value.active && LatestId(r.discoveryEvents) == c.discoveryEvent
  }

  /** The observation, and its diagnostic by cascade, go with the last owner. */
  function DropUnowned(r: Rows): Rows {
    if r.relay.None? && r.discovery.None? then r.(observation := None, diagnostic := None) else r
  }

  function Purge(r: Rows, c: PurgeCandidate, cutoff: int): Reply {
    if !StillMatches(r, c, cutoff) then Reply(r, Skipped)
    else match c.kind
      case PurgeLifecycle => Reply(DropUnowned(r.(relay := None, relayEvents := [])), Purged)
      case PurgeDiscovery => Reply(DropUnowned(r.(discovery := None)), Purged)
  }

  // ---- the transition system ----

  datatype Op =
    | OpRegister(enrollmentOpen: bool, at: int) | OpHeartbeat(at: int) | OpUnregister(at: int)
    | OpModerate(suspend: bool, at: int) | OpSoftPrune(at: int)
    | OpAddDiscovery(at: int) | OpRemoveDiscovery(at: int)
    | OpRecordActor(reachable: bool, inboxUrl: string, at: int)
    | OpRecordInbox(inboxUrl: string, inboxState: InboxState, at: int)
    | OpRecordReachability(intent: ProbeIntent, at: int)
    | OpRetainCandidate(state: CandidateState, at: int)
    | OpPromote(inboxUrl: string, inboxState: InboxState, at: int)
    | OpPurge(candidate: PurgeCandidate, at: int)

  /** One transaction on one actor's rows; `id` is the identifier a new event takes. */
  function Step(r: Rows, id: nat, op: Op): Reply {
    match op
    case OpRegister(open, at) => Register(r, id, open, at)
    case OpHeartbeat(at) => Heartbeat(r, id, at)
    case OpUnregister(at) => Unregister(r, id, at)
    case OpModerate(suspend, at) => Moderate(r, id, suspend, at)
    case OpSoftPrune(at) => SoftPrune(r, id, at)
    case OpAddDiscovery(at) => AddDiscovery(r, id, at)
    case OpRemoveDiscovery(at) => RemoveDiscovery(r, id, at)
    case OpRecordActor(reachable, url, at) => RecordActor(r, reachable, url, at)
    case OpRecordInbox(url, state, at) => RecordInbox(r, url, state, at)
    case OpRecordReachability(intent, at) => RecordReachability(r, intent, at)
    case OpRetainCandidate(state, at) => RetainCandidate(r, id, state, at)
    case OpPromote(url, state, at) => Promote(r, id, url, state, at)
    case OpPurge(c, cutoff) => Purge(r, c, cutoff)
  }

  datatype Command = Command(actor: string, op: Op)

  /** All actors' rows and the last event identifier handed out. */
  datatype Database = Database(rows: map<string, Rows>, lastId: nat)

  const FRESH_DATABASE := Database(map[], 0)

  function RowsOf(db: Database, actor: string): Rows {
    if actor in db.rows then db.rows[actor] else EMPTY
  }

  function Commit(db: Database, actor: string, rows: Rows): Database {
    Database(db.rows[actor := rows], db.lastId + 1)
  }

  function Execute(db: Database, c: Command): Database {
    var reply := Step(RowsOf(db, c.actor), db.lastId + 1, c.op);
    if Committed(reply.outcome) then Commit(db, c.actor, reply.rows) else db
  }

  function ExecuteAll(db: Database, commands: seq<Command>): Database
    decreases |commands|
  {
    if commands == [] then db
    else Execute(ExecuteAll(db, commands[..|commands| - 1]), commands[|commands| - 1])
  }
}
