/** Safety of the store over whole runs: every transaction keeps the invariant, so every
    state reachable from the migrated empty database satisfies it. */
module StoreRuns {
  import opened Keyset
  import opened Evidence
  import opened Store
  import opened StoreInvariant

  lemma LogWider<K(!new)>(events: seq<Event<K>>, last: nat, now: int, last': nat, now': int)
    requires LogOk(events, last, now) && last <= last' && now <= now'
    ensures LogOk(events, last', now')
  {
  }

  lemma SoundWider(r: Rows, last: nat, now: int, last': nat, now': int)
    requires Sound(r, last, now) && last <= last' && now <= now'
    ensures Sound(r, last', now')
  {
    LogWider(r.relayEvents, last, now, last', now');
    LogWider(r.moderationEvents, last, now, last', now');
    LogWider(r.discoveryEvents, last, now, last', now');
  }

  lemma RelayLogKept(r: Rows, e: Event<RelayEventKind>, last: nat, now: int, later: int)
    requires LogsOk(r, last, now) && NoneSuspended(r) && now <= later
    requires e.id == last + 1 && LatestAt(r.relayEvents) <= e.at && LatestAt(r.moderationEvents) <= e.at
    requires 0 <= e.at <= later
    requires SignedKind(e.kind) ==> ReplayModeration(r.moderationEvents) == None
    ensures var r' := r.(relayEvents := r.relayEvents + [e]);
            && LogsOk(r', last + 1, later) && NoneSuspended(r')
            && Replay(r'.relayEvents) == ReplayEvent(Replay(r.relayEvents), e)
  {
    var events := r.relayEvents + [e];
    Appended(r.relayEvents, e);
    LogAppend(r.relayEvents, e, last, now, later);
    LogWider(r.moderationEvents, last, now, last + 1, later);
    LogWider(r.discoveryEvents, last, now, last + 1, later);
    OrderAppend(r.relayEvents, r.moderationEvents, e, last, now);
    SuspensionNow(r.moderationEvents, last, now);
    forall i | 0 <= i < |events| && SignedKind(events[i].kind)
      ensures SuspensionBefore(r.moderationEvents, events[i].id) == None
    {
      if i < |r.relayEvents| { assert events[i] == r.relayEvents[i]; }
    }
  }

  lemma ModerationLogKept(r: Rows, e: Event<ModerationKind>, last: nat, now: int, later: int)
    requires LogsOk(r, last, now) && NoneSuspended(r) && now <= later
    requires e.id == last + 1 && LatestAt(r.relayEvents) <= e.at && LatestAt(r.moderationEvents) <= e.at
    requires 0 <= e.at <= later
    ensures var r' := r.(moderationEvents := r.moderationEvents + [e]);
            && LogsOk(r', last + 1, later) && NoneSuspended(r')
            && ReplayModeration(r'.moderationEvents) ==
               if e.kind == SuspendApplied then Some(e.at)
               else if e.kind == RestoreApplied then None
               else ReplayModeration(r.moderationEvents)
  {
    var events := r.moderationEvents + [e];
    Appended(r.moderationEvents, e);
    LogAppend(r.moderationEvents, e, last, now, later);
    LogWider(r.relayEvents, last, now, last + 1, later);
    LogWider(r.discoveryEvents, last, now, last + 1, later);
    assert LogsInOrder(r.moderationEvents, r.relayEvents);
    OrderAppend(r.moderationEvents, r.relayEvents, e, last, now);
    forall i | 0 <= i < |r.relayEvents| && SignedKind(r.relayEvents[i].kind)
      ensures SuspensionBefore(events, r.relayEvents[i].id) == None
    {
      assert r.relayEvents[i].id <= last;
    }
  }

  lemma DiscoveryLogKept(r: Rows, e: Event<DiscoveryKind>, last: nat, now: int, later: int)
    requires LogsOk(r, last, now) && now <= later
    requires e.id == last + 1 && LatestAt(r.discoveryEvents) <= e.at && 0 <= e.at <= later
    ensures LogsOk(r.(discoveryEvents := r.discoveryEvents + [e]), last + 1, later)
  {
    LogAppend(r.discoveryEvents, e, last, now, later);
    LogWider(r.relayEvents, last, now, last + 1, later);
    LogWider(r.moderationEvents, last, now, last + 1, later);
  }

  lemma VerifyKeeps(current: Option<ObservationRow>, at: int, now: int, later: int)
    requires current.Some? ==> ObservationOk(current.value, now)
    requires 0 <= at <= later && now <= later && Verify(current, at).Some?
    ensures ObservationOk(Verify(current, at).value, later)
    ensures current.Some? ==> Verify(current, at).value.checked == current.value.checked
  {
  }

  /** Writing the lifecycle row, its event and the verified observation together. */
  lemma LifecycleWriteKeeps(r: Rows, r': Rows, e: Event<RelayEventKind>, last: nat, now: int, later: int)
    requires Sound(r, last, now) && now <= later
    requires e.id == last + 1 && LatestAt(r.relayEvents) <= e.at && LatestAt(r.moderationEvents) <= e.at
    requires 0 <= e.at <= later && (SignedKind(e.kind) ==> ReplayModeration(r.moderationEvents) == None)
    requires r' == r.(relay := r'.relay, observation := r'.observation, relayEvents := r.relayEvents + [e])
    requires r'.relay.Some? ==> RelayOk(r'.relay.value, later)
    requires r.relay.Some? ==> r'.relay.Some?
    requires r'.observation == r.observation ||
             (r'.observation == Verify(r.observation, e.at) && r'.observation.Some? && (r'.relay.Some? || r'.discovery.Some?))
    requires ReplayEvent(Replay(r.relayEvents), e) == (if r'.relay.Some? then Some(ViewOf(r'.relay.value)) else None)
    requires (if r'.relay.Some? then r'.relay.value.suspendedAt else None) == (if r.relay.Some? then r.relay.value.suspendedAt else None)
    ensures Sound(r', last + 1, later)
  {
    RelayLogKept(r, e, last, now, later);
    if r'.observation != r.observation { VerifyKeeps(r.observation, e.at, now, later); }
  }

  lemma RegisterKeeps(r: Rows, last: nat, now: int, open: bool, at: int, later: int)
    requires Sound(r, last, now) && now <= later && at <= later
    requires Committed(Register(r, last + 1, open, at).outcome)
    ensures Sound(Register(r, last + 1, open, at).rows, last + 1, later)
  {
    var r' := Register(r, last + 1, open, at).rows;
    LifecycleWriteKeeps(r, r', r'.relayEvents[|r.relayEvents|], last, now, later);
  }

  lemma HeartbeatKeeps(r: Rows, last: nat, now: int, at: int, later: int)
    requires Sound(r, last, now) && now <= later && at <= later
    requires Committed(Heartbeat(r, last + 1, at).outcome)
    ensures Sound(Heartbeat(r, last + 1, at).rows, last + 1, later)
  {
    var r' := Heartbeat(r, last + 1, at).rows;
    LifecycleWriteKeeps(r, r', r'.relayEvents[|r.relayEvents|], last, now, later);
  }

  lemma UnregisterKeeps(r: Rows, last: nat, now: int, at: int, later: int)
    requires Sound(r, last, now) && now <= later && at <= later
    requires Committed(Unregister(r, last + 1, at).outcome)
    ensures Sound(Unregister(r, last + 1, at).rows, last + 1, later)
  {
    var r' := Unregister(r, last + 1, at).rows;
    LifecycleWriteKeeps(r, r', r'.relayEvents[|r.relayEvents|], last, now, later);
  }

  lemma SoftPruneKeeps(r: Rows, last: nat, now: int, at: int, later: int)
    requires Sound(r, last, now) && now <= later && at <= later
    requires Committed(SoftPrune(r, last + 1, at).outcome)
    ensures Sound(SoftPrune(r, last + 1, at).rows, last + 1, later)
  {
    var r' := SoftPrune(r, last + 1, at).rows;
    LifecycleWriteKeeps(r, r', r'.relayEvents[|r.relayEvents|], last, now, later);
  }

  lemma ModerateKeeps(r: Rows, last: nat, now: int, suspend: bool, at: int, later: int)
    requires Sound(r, last, now) && now <= later && at <= later
    requires Committed(Moderate(r, last + 1, suspend, at).outcome)
    ensures Sound(Moderate(r, last + 1, suspend, at).rows, last + 1, later)
  {
    var reply := Moderate(r, last + 1, suspend, at);
    var e := reply.rows.moderationEvents[|r.moderationEvents|];
    ModerationLogKept(r, e, last, now, later);
    assert reply.rows == r.(moderationEvents := r.moderationEvents + [e]).(relay := reply.rows.relay);
  }

  /** Writing an added or confirmed discovery and its event. */
  lemma DiscoveryAddKeeps(r: Rows, last: nat, now: int, at: int, later: int)
    requires Sound(r, last, now) && now <= later && 0 <= at <= later && LatestDiscovery(r) <= at
    ensures var (row, kind, _) := DiscoveryAdd(r, at);
            Sound(r.(discovery := Some(row), discoveryEvents := r.discoveryEvents + [Event(last + 1, kind, at)]), last + 1, later)
  {
    hide LatestAt, LogOk, LogsInOrder;
    var (row, kind, _) := DiscoveryAdd(r, at);
    DiscoveryLogKept(r, Event(last + 1, kind, at), last, now, later);
  }

  lemma AddDiscoveryKeeps(r: Rows, last: nat, now: int, at: int, later: int)
    requires Sound(r, last, now) && now <= later && at <= later
    requires Committed(AddDiscovery(r, last + 1, at).outcome)
    ensures Sound(AddDiscovery(r, last + 1, at).rows, last + 1, later)
  {
    hide Sound, LatestDiscovery, DiscoveryAdd;
    DiscoveryAddKeeps(r, last, now, at, later);
  }

  lemma RemoveDiscoveryKeeps(r: Rows, last: nat, now: int, at: int, later: int)
    requires Sound(r, last, now) && now <= later && at <= later
    requires Committed(RemoveDiscovery(r, last + 1, at).outcome)
    ensures Sound(RemoveDiscovery(r, last + 1, at).rows, last + 1, later)
  {
    hide LatestAt, LogOk, LogsInOrder, RelayOk, ObservationOk, DiagnosticOk;
    SoundWider(r, last, now, last + 1, later);
    var r' := RemoveDiscovery(r, last + 1, at).rows;
    DiscoveryLogKept(r, r'.discoveryEvents[|r.discoveryEvents|], last, now, later);
  }

  /** Replacing the observation, diagnostic or candidate row of sound rows. */
  lemma ObservationReplaced(r: Rows, r': Rows, last: nat, later: int)
    requires Sound(r, last, later)
    requires r' == r.(observation := r'.observation, diagnostic := r'.diagnostic, candidate := r'.candidate,
                     candidateEvents := r'.candidateEvents)
    requires r'.observation.Some? ==> ObservationOk(r'.observation.value, later) && (r.relay.Some? || r.discovery.Some?)
    requires r'.diagnostic.Some? ==> DiagnosticOk(r'.diagnostic.value, r'.observation)
    ensures Sound(r', last, later)
  {
    hide LogOk, LogsInOrder, ObservationOk, DiagnosticOk, RelayOk, DiscoveryOk;
  }

  /** A write to the observation, diagnostic or candidate row alone. */
  lemma ObservationWriteKeeps(r: Rows, r': Rows, last: nat, now: int, later: int)
    requires Sound(r, last, now) && now <= later
    requires r' == r.(observation := r'.observation, diagnostic := r'.diagnostic, candidate := r'.candidate,
                     candidateEvents := r'.candidateEvents)
    requires r'.observation.Some? ==> ObservationOk(r'.observation.value, later) && (r.relay.Some? || r.discovery.Some?)
    requires r'.diagnostic.Some? ==> DiagnosticOk(r'.diagnostic.value, r'.observation)
    ensures Sound(r', last + 1, later)
  {
    hide Sound;
    SoundWider(r, last, now, last + 1, later);
    ObservationReplaced(r, r', last + 1, later);
  }

  /** The observation a promotion writes is consistent, and later than any diagnostic's check. */
  lemma PromotedObservation(r: Rows, now: int, inboxUrl: string, state: InboxState, at: int, later: int)
    requires TablesOk(r, now) && now <= later && 0 <= at <= later && ValidProbe(true, inboxUrl, state)
    requires r.observation.Some? && r.observation.value.checked.Some? ==> r.observation.value.checked.value < at
    requires r.observation.Some? && r.observation.value.verified.Some? ==> r.observation.value.verified.value <= at
    ensures var row := Reached(ObservationOr(r.observation, at), inboxUrl, state, at).(updated := at);
            ObservationOk(row, later) && (r.diagnostic.Some? ==> DiagnosticOk(r.diagnostic.value, Some(row)))
  {
    hide RelayOk, DiscoveryOk;
  }

  /** The discovery write, then the observation and candidate write, of one transaction. */
  lemma PromoteKeeps(r: Rows, last: nat, now: int, url: string, state: InboxState, at: int, later: int)
    requires Sound(r, last, now) && now <= later && at <= later
    requires Committed(Promote(r, last + 1, url, state, at).outcome)
    ensures Sound(Promote(r, last + 1, url, state, at).rows, last + 1, later)
  {
    hide TablesOk, LogsOk, IsReplay, NoneSuspended, LatestDiscovery, DiscoveryAdd, ValidProbe, Reached, ObservationOk, DiagnosticOk;
    var (discovery, kind, _) := DiscoveryAdd(r, at);
    var added := r.(discovery := Some(discovery), discoveryEvents := r.discoveryEvents + [Event(last + 1, kind, at)]);
    var r' := Promote(r, last + 1, url, state, at).rows;
    DiscoveryAddKeeps(r, last, now, at, later);
    PromotedObservation(r, now, url, state, at, later);
    assert r' == added.(observation := r'.observation, candidate := r'.candidate, candidateEvents := r'.candidateEvents);
    ObservationReplaced(added, r', last + 1, later);
  }

  lemma RecordActorKeeps(r: Rows, last: nat, now: int, reachable: bool, url: string, at: int, later: int)
    requires Sound(r, last, now) && now <= later && at <= later
    requires Committed(RecordActor(r, reachable, url, at).outcome)
    ensures Sound(RecordActor(r, reachable, url, at).rows, last + 1, later)
  {
    hide LogsOk, IsReplay, NoneSuspended, RelayOk, DiscoveryOk;
    ObservationWriteKeeps(r, RecordActor(r, reachable, url, at).rows, last, now, later);
  }

  lemma RecordInboxKeeps(r: Rows, last: nat, now: int, url: string, state: InboxState, at: int, later: int)
    requires Sound(r, last, now) && now <= later && at <= later
    requires Committed(RecordInbox(r, url, state, at).outcome)
    ensures Sound(RecordInbox(r, url, state, at).rows, last + 1, later)
  {
    hide LogsOk, IsReplay, NoneSuspended, RelayOk, DiscoveryOk;
    ObservationWriteKeeps(r, RecordInbox(r, url, state, at).rows, last, now, later);
  }

  lemma NextCheckInBounds(r: Rows, p: ProbeIntent, at: int)
    requires ValidIntent(p)
    requires r.diagnostic.Some? ==> r.diagnostic.value.streak <= MAXIMUM_FAILURE_STREAK && ValidDiagnostic(r.diagnostic.value.inbox)
    ensures var d := NextDiagnostic(r, p, at);
            && ValidDiagnostic(d.actor) && ValidDiagnostic(d.inbox) && (d.streak == 0 ==> d.actor == NO_DIAGNOSTIC)
            && d.streak <= MAXIMUM_FAILURE_STREAK && d.updated == at
            && at + FAILURE_RETRY_MINIMUM <= d.nextCheck <= at + UNREACHABLE_RETRY
  {
    hide ValidDiagnostic, ValidProbe;
  }

  lemma RecordReachabilityKeeps(r: Rows, last: nat, now: int, p: ProbeIntent, at: int, later: int)
    requires Sound(r, last, now) && now <= later && at <= later
    requires Committed(RecordReachability(r, p, at).outcome)
    ensures Sound(RecordReachability(r, p, at).rows, last + 1, later)
  {
    hide LogsOk, IsReplay, NoneSuspended, RelayOk, DiscoveryOk, NextDiagnostic, ValidDiagnostic;
    NextCheckInBounds(r, p, at);
    ObservationWriteKeeps(r, RecordReachability(r, p, at).rows, last, now, later);
  }

  lemma LifecycleDropped(r: Rows, last: nat, now: int)
    requires Sound(r, last, now) && r.relay.Some? && !r.relay.value.suspended
    ensures Sound(DropUnowned(r.(relay := None, relayEvents := [])), last, now)
  {
    hide LatestId, DiscoveryOk, ObservationOk, DiagnosticOk, LogOk, ReplayModeration, SuspensionBefore;
    NoEvents(last, now);
  }

  lemma NoEvents(last: nat, now: int)
    ensures LogOk<RelayEventKind>([], last, now)
  {
  }

  lemma DiscoveryDropped(r: Rows, last: nat, now: int)
    requires Sound(r, last, now)
    ensures Sound(DropUnowned(r.(discovery := None)), last, now)
  {
    hide LatestId, DiscoveryOk, ObservationOk, DiagnosticOk, RelayOk, LogOk, LogsInOrder, Replay, ReplayModeration, SuspensionBefore;
  }

  lemma PurgeKeeps(r: Rows, last: nat, now: int, c: PurgeCandidate, cutoff: int, later: int)
    requires Sound(r, last, now) && now <= later
    requires Committed(Purge(r, c, cutoff).outcome)
    ensures Sound(Purge(r, c, cutoff).rows, last + 1, later)
  {
    hide Sound, DropUnowned, LatestId;
    SoundWider(r, last, now, last + 1, later);
    match c.kind
    case PurgeLifecycle => LifecycleDropped(r, last + 1, later);
    case PurgeDiscovery => DiscoveryDropped(r, last + 1, later);
  }

  lemma RetainCandidateKeeps(r: Rows, last: nat, now: int, state: CandidateState, at: int, later: int)
    requires Sound(r, last, now) && now <= later && at <= later
    requires Committed(RetainCandidate(r, last + 1, state, at).outcome)
    ensures Sound(RetainCandidate(r, last + 1, state, at).rows, last + 1, later)
  {
    SoundWider(r, last, now, last + 1, later);
    ObservationWriteKeeps(r, RetainCandidate(r, last + 1, state, at).rows, last, now, later);
  }

  /** Every committed transaction keeps the invariant at any clock not before its own time. */
  lemma StepKeeps(r: Rows, last: nat, now: int, op: Op, later: int)
    requires Sound(r, last, now) && now <= later && op.at <= later
    ensures Committed(Step(r, last + 1, op).outcome) ==> Sound(Step(r, last + 1, op).rows, last + 1, later)
  {
    hide Sound;
    if !Committed(Step(r, last + 1, op).outcome) { return; }
    match op
    case OpRegister(open, at) => RegisterKeeps(r, last, now, open, at, later);
    case OpHeartbeat(at) => HeartbeatKeeps(r, last, now, at, later);
    case OpUnregister(at) => UnregisterKeeps(r, last, now, at, later);
    case OpModerate(suspend, at) => ModerateKeeps(r, last, now, suspend, at, later);
    case OpSoftPrune(at) => SoftPruneKeeps(r, last, now, at, later);
    case OpAddDiscovery(at) => AddDiscoveryKeeps(r, last, now, at, later);
    case OpRemoveDiscovery(at) => RemoveDiscoveryKeeps(r, last, now, at, later);
    case OpRecordActor(reachable, url, at) => RecordActorKeeps(r, last, now, reachable, url, at, later);
    case OpRecordInbox(url, state, at) => RecordInboxKeeps(r, last, now, url, state, at, later);
    case OpRecordReachability(intent, at) => RecordReachabilityKeeps(r, last, now, intent, at, later);
    case OpRetainCandidate(state, at) =>
      RetainCandidateKeeps(r, last, now, state, at, later);
    case OpPromote(url, state, at) => PromoteKeeps(r, last, now, url, state, at, later);
    case OpPurge(c, cutoff) => PurgeKeeps(r, last, now, c, cutoff, later);
  }

  // ---- whole databases ----

  predicate SoundDatabase(db: Database, now: int) {
    && (forall actor :: actor in db.rows ==> Sound(db.rows[actor], db.lastId, now))
    && "" !in db.rows
  }

  lemma SoundRows(db: Database, now: int, actor: string)
    requires SoundDatabase(db, now)
    ensures Sound(RowsOf(db, actor), db.lastId, now)
  {
  }

  lemma SoundDatabaseWider(db: Database, now: int, last: nat, later: int)
    requires SoundDatabase(db, now) && now <= later && db.lastId <= last
    ensures SoundDatabase(db.(lastId := last), later)
  {
    hide Sound;
    forall actor | actor in db.rows
      ensures Sound(db.rows[actor], last, later)
    {
      SoundWider(db.rows[actor], db.lastId, now, last, later);
    }
  }

  lemma CommitKeeps(db: Database, now: int, actor: string, rows: Rows, later: int)
    requires SoundDatabase(db, now) && now <= later && actor != ""
    requires Sound(rows, db.lastId + 1, later)
    ensures SoundDatabase(Commit(db, actor, rows), later)
    ensures forall other :: RowsOf(Commit(db, actor, rows), other) == if other == actor then rows else RowsOf(db, other)
  {
    hide Sound;
    SoundDatabaseWider(db, now, db.lastId + 1, later);
  }


  lemma ExecuteKeeps(db: Database, now: int, c: Command, later: int)
    requires SoundDatabase(db, now) && now <= later && c.op.at <= later && c.actor != ""
    ensures SoundDatabase(Execute(db, c), later)
    ensures forall other :: other != c.actor ==> RowsOf(Execute(db, c), other) == RowsOf(db, other)
  {
    hide Step, Sound;
    var rows := RowsOf(db, c.actor);
    var reply := Step(rows, db.lastId + 1, c.op);
    SoundRows(db, now, c.actor);
    if Committed(reply.outcome) {
      StepKeeps(rows, db.lastId, now, c.op, later);
      CommitKeeps(db, now, c.actor, reply.rows, later);
    } else {
      SoundDatabaseWider(db, now, db.lastId, later);
    }
  }

  lemma NoCommands(db: Database)
    ensures ExecuteAll(db, []) == db
  {
  }

  /** Commands that name an actor and carry a time no later than `now`. */
  predicate Timely(commands: seq<Command>, now: int) {
    forall i :: 0 <= i < |commands| ==> commands[i].actor != "" && commands[i].op.at <= now
  }

  lemma {:induction false} ExecuteAllKeeps(db: Database, commands: seq<Command>, now: int, later: int)
    requires SoundDatabase(db, now) && now <= later && Timely(commands, later)
    ensures SoundDatabase(ExecuteAll(db, commands), later)
    decreases |commands|
  {
    if commands == [] {
      SoundDatabaseWider(db, now, db.lastId, later);
    } else {
      ExecuteAllKeeps(db, commands[..|commands| - 1], now, later);
      ExecuteKeeps(ExecuteAll(db, commands[..|commands| - 1]), later, commands[|commands| - 1], later);
    }
  }

  /** State is the fold of its logs, in every state any run of transactions reaches: the
      lifecycle row is the replay of its events and the suspension the replay of moderation,
      also after a purge and a new registration; event times never run back within or across
      the two logs; nothing signed was accepted inside a suspension; every observation row
      has an owner. */
  lemma StateIsReplayOfLogs(commands: seq<Command>, now: int, actor: string)
    requires Timely(commands, now)
    ensures var r := RowsOf(ExecuteAll(FRESH_DATABASE, commands), actor);
            && Replay(r.relayEvents) == (if r.relay.Some? then Some(ViewOf(r.relay.value)) else None)
            && ReplayModeration(r.moderationEvents) == (if r.relay.Some? then r.relay.value.suspendedAt else None)
            && LogsInOrder(r.relayEvents, r.moderationEvents) && NoneSuspended(r)
            && (forall i, j :: 0 <= i < j < |r.relayEvents| ==> r.relayEvents[i].at <= r.relayEvents[j].at)
            && (forall i, j :: 0 <= i < j < |r.moderationEvents| ==> r.moderationEvents[i].at <= r.moderationEvents[j].at)
            && (forall i, j :: 0 <= i < j < |r.discoveryEvents| ==> r.discoveryEvents[i].at <= r.discoveryEvents[j].at)
            && (r.observation.Some? ==> r.relay.Some? || r.discovery.Some?)
            && (r.diagnostic.Some? ==> r.observation.Some?)
  {
    assert SoundDatabase(FRESH_DATABASE, now);
    ExecuteAllKeeps(FRESH_DATABASE, commands, now, now);
    SoundRows(ExecuteAll(FRESH_DATABASE, commands), now, actor);
  }
}
