/** The relay repository: each method is one immediate transaction. It works on a copy of the
    actor's rows, returns early to roll back, and commits by writing the copy back. */
module Repository {
  import opened Keyset
  import opened Evidence
  import opened Store

  class RelayRepository {
    var database: Database

    constructor ()
      ensures database == FRESH_DATABASE
    {
      database := FRESH_DATABASE;
    }

    method Register(actor: string, enrollmentOpen: bool, at: int) returns (outcome: Outcome)
      modifies this
      ensures database == Execute(old(database), Command(actor, OpRegister(enrollmentOpen, at)))
      ensures outcome == Step(RowsOf(old(database), actor), old(database).lastId + 1, OpRegister(enrollmentOpen, at)).outcome
    {
      if at < 0 { return Failed(TransitionTime); }
      var rows := RowsOf(database, actor);
      if rows.relay.Some? && rows.relay.value.suspended { return Failed(RelaySuspended); }
      if rows.relay.None? && !enrollmentOpen { return Failed(EnrollmentClosed); }
      if at < LatestTransition(rows) { return Failed(TransitionTime); }

      outcome := Created;
      var kind := RegisterCreated;
      if rows.relay.None? {
        rows := rows.(relay := Some(RelayRow(Registered, false, at, at, at, Some(at), None, None, None)));
      } else if rows.relay.value.lifecycle == Registered {
        outcome, kind := Unchanged, RegisterUnchanged;
        rows := rows.(relay := Some(rows.relay.value.(updated := at, lastSeen := at, lastHeartbeat := Some(at))));
      } else {
        outcome, kind := Updated, RegisterUpdated;
        rows := rows.(relay := Some(rows.relay.value.(lifecycle := Registered, updated := at, lastSeen := at,
                                                      lastHeartbeat := Some(at), unregisteredAt := None,
                                                      prunedAt := None)));
      }
      var verified := Verify(rows.observation, at);
      if verified.None? { return Failed(ObservationTime); }
      rows := rows.(observation := verified);
      rows := rows.(relayEvents := rows.relayEvents + [Event(database.lastId + 1, kind, at)]);
      database := Commit(database, actor, rows);
    }

    method Heartbeat(actor: string, at: int) returns (outcome: Outcome)
      modifies this
      ensures database == Execute(old(database), Command(actor, OpHeartbeat(at)))
      ensures outcome == Step(RowsOf(old(database), actor), old(database).lastId + 1, OpHeartbeat(at)).outcome
    {
      if at < 0 { return Failed(TransitionTime); }
      var rows := RowsOf(database, actor);
      if rows.relay.None? || rows.relay.value.lifecycle != Registered { return Failed(RelayAbsent); }
      if rows.relay.value.suspended { return Failed(RelaySuspended); }
      if at < LatestTransition(rows) { return Failed(TransitionTime); }
      rows := rows.(relay := Some(rows.relay.value.(updated := at, lastSeen := at, lastHeartbeat := Some(at))));
      var verified := Verify(rows.observation, at);
      if verified.None? { return Failed(ObservationTime); }
      rows := rows.(observation := verified);
      rows := rows.(relayEvents := rows.relayEvents + [Event(database.lastId + 1, HeartbeatRecorded, at)]);
      database := Commit(database, actor, rows);
      outcome := Recorded;
    }

    method Unregister(actor: string, at: int) returns (outcome: Outcome)
      modifies this
      ensures database == Execute(old(database), Command(actor, OpUnregister(at)))
      ensures outcome == Step(RowsOf(old(database), actor), old(database).lastId + 1, OpUnregister(at)).outcome
    {
      if at < 0 { return Failed(TransitionTime); }
      var rows := RowsOf(database, actor);
      if at < LatestTransition(rows) { return Failed(TransitionTime); }
      outcome := Absent;
      var kind := UnregisterAbsent;
      if rows.relay.Some? && rows.relay.value.lifecycle == Registered {
        outcome, kind := Removed, UnregisterRemoved;
        rows := rows.(relay := Some(rows.relay.value.(lifecycle := Unregistered, updated := at,
                                                      unregisteredAt := Some(at))));
      }
      if rows.relay.Some? || rows.discovery.Some? {
        var verified := Verify(rows.observation, at);
        if verified.None? { return Failed(ObservationTime); }
        rows := rows.(observation := verified);
      }
      rows := rows.(relayEvents := rows.relayEvents + [Event(database.lastId + 1, kind, at)]);
      database := Commit(database, actor, rows);
    }

    /** Suspend (`suspend`) or restore; both confirm when nothing changes. */
    method Moderate(actor: string, suspend: bool, at: int) returns (outcome: Outcome)
      modifies this
      ensures database == Execute(old(database), Command(actor, OpModerate(suspend, at)))
      ensures outcome == Step(RowsOf(old(database), actor), old(database).lastId + 1, OpModerate(suspend, at)).outcome
    {
      if at < 0 { return Failed(TransitionTime); }
      var rows := RowsOf(database, actor);
      if rows.relay.None? { return Failed(RelayAbsent); }
      if at < LatestTransition(rows) { return Failed(TransitionTime); }
      var kind, changed;
      match (rows.relay.value.suspended, suspend) {
        case (false, true) => outcome, kind, changed := NowSuspended, SuspendApplied, true;
        case (true, true) => outcome, kind, changed := AlreadySuspended, SuspendUnchanged, false;
        case (true, false) => outcome, kind, changed := Restored, RestoreApplied, true;
        case (false, false) => outcome, kind, changed := AlreadyActive, RestoreUnchanged, false;
      }
      if changed {
        var suspendedAt := None;
        if suspend { suspendedAt := Some(at); }
        rows := rows.(relay := Some(rows.relay.value.(suspended := suspend, suspendedAt := suspendedAt, updated := at)));
      }
      rows := rows.(moderationEvents := rows.moderationEvents + [Event(database.lastId + 1, kind, at)]);
      database := Commit(database, actor, rows);
    }

    method SoftPrune(actor: string, observed: int) returns (outcome: Outcome)
      modifies this
      ensures database == Execute(old(database), Command(actor, OpSoftPrune(observed)))
      ensures outcome == Step(RowsOf(old(database), actor), old(database).lastId + 1, OpSoftPrune(observed)).outcome
    {
      if observed < 0 { return Failed(TransitionTime); }
      var rows := RowsOf(database, actor);
      if rows.relay.None? { return PruneNotEligible; }
      if rows.relay.value.lifecycle == Pruned { return AlreadyPruned; }
      if rows.relay.value.lifecycle != Registered || rows.relay.value.lastSeen > observed - DEAD_BEFORE {
        return PruneNotEligible;
      }
      if PruneProtected(rows.observation, observed) { return PruneNotEligible; }
      if observed < LatestTransition(rows) { return PruneNotEligible; }
      rows := rows.(relay := Some(rows.relay.value.(lifecycle := Pruned, updated := observed, prunedAt := Some(observed))));
      rows := rows.(relayEvents := rows.relayEvents + [Event(database.lastId + 1, RelayPruned, observed)]);
      database := Commit(database, actor, rows);
      outcome := PruneApplied;
    }

    method AddDiscovery(actor: string, at: int) returns (outcome: Outcome)
      modifies this
      ensures database == Execute(old(database), Command(actor, OpAddDiscovery(at)))
      ensures outcome == Step(RowsOf(old(database), actor), old(database).lastId + 1, OpAddDiscovery(at)).outcome
    {
      if at < 0 { return Failed(TransitionTime); }
      var rows := RowsOf(database, actor);
      if at < LatestDiscovery(rows) { return Failed(TransitionTime); }
      var row, kind;
      row, kind, outcome := WriteDiscovery(rows, at);
      rows := rows.(discovery := Some(row));
      rows := rows.(discoveryEvents := rows.discoveryEvents + [Event(database.lastId + 1, kind, at)]);
      database := Commit(database, actor, rows);
    }

    /** The discovery row after an addition: new, confirmed or reactivated. */
    method WriteDiscovery(rows: Rows, at: int) returns (row: DiscoveryRow, kind: DiscoveryKind, outcome: Outcome)
      ensures (row, kind, outcome) == DiscoveryAdd(rows, at)
    {
      if rows.discovery.None? {
        return DiscoveryRow(true, at, at, None), DiscoveryAdded, Created;
      }
      row, kind, outcome := rows.discovery.value, DiscoveryUnchanged, Unchanged;
      if !row.active {
        row, kind, outcome := row.(active := true, updated := at, removedAt := None), DiscoveryUpdated, Updated;
      }
    }

    method RemoveDiscovery(actor: string, at: int) returns (outcome: Outcome)
      modifies this
      ensures database == Execute(old(database), Command(actor, OpRemoveDiscovery(at)))
      ensures outcome == Step(RowsOf(old(database), actor), old(database).lastId + 1, OpRemoveDiscovery(at)).outcome
    {
      if at < 0 { return Failed(TransitionTime); }
      var rows := RowsOf(database, actor);
      if at < LatestDiscovery(rows) { return Failed(TransitionTime); }
      outcome := Absent;
      var kind := DiscoveryAbsent;
      if rows.discovery.Some? && rows.discovery.value.active {
        outcome, kind := Removed, DiscoveryRemoved;
        rows := rows.(discovery := Some(rows.discovery.value.(active := false, updated := at, removedAt := Some(at))));
      }
      rows := rows.(discoveryEvents := rows.discoveryEvents + [Event(database.lastId + 1, kind, at)]);
      database := Commit(database, actor, rows);
    }

    method RecordActorObservation(actor: string, reachable: bool, inboxUrl: string, at: int) returns (outcome: Outcome)
      modifies this
      ensures database == Execute(old(database), Command(actor, OpRecordActor(reachable, inboxUrl, at)))
      ensures outcome == Step(RowsOf(old(database), actor), old(database).lastId + 1, OpRecordActor(reachable, inboxUrl, at)).outcome
    {
      hide ActorChecked, ObservationOr;
      if !reachable && inboxUrl != "" { return Failed(InvalidInput); }
      if at < 0 { return Failed(ObservationTime); }
      var rows := RowsOf(database, actor);
      if rows.relay.None? && rows.discovery.None? { return Failed(ObservationMissing); }
      if rows.observation.Some? && rows.observation.value.checked.Some? && at < rows.observation.value.checked.value {
        return Failed(ObservationTime);
      }
      var row := WriteActor(rows.observation, reachable, inboxUrl, at);
      rows := rows.(observation := Some(row));
      database := Commit(database, actor, rows);
      outcome := Observed;
    }

    /** The observation row after one actor check: a new success forgets the inbox's own check. */
    method WriteActor(current: Option<ObservationRow>, reachable: bool, inboxUrl: string, at: int) returns (row: ObservationRow)
      ensures row == ActorChecked(ObservationOr(current, at), reachable, inboxUrl, at)
    {
      row := EMPTY_OBSERVATION.(updated := at);
      if current.Some? { row := current.value; }
      row := row.(updated := Max(row.updated, at), checked := Some(at), revision := row.revision + 1);
      if reachable {
        row := row.(actorState := Reachable, success := Some(at), inboxUrl := inboxUrl, inboxDeclared := None,
                    inboxState := NotChecked, inboxChecked := None);
        if inboxUrl != "" { row := row.(inboxDeclared := Some(at)); }
      } else {
        row := row.(actorState := Unreachable);
      }
    }

    method RecordInboxObservation(actor: string, inboxUrl: string, state: InboxState, at: int) returns (outcome: Outcome)
      modifies this
      ensures database == Execute(old(database), Command(actor, OpRecordInbox(inboxUrl, state, at)))
      ensures outcome == Step(RowsOf(old(database), actor), old(database).lastId + 1, OpRecordInbox(inboxUrl, state, at)).outcome
    {
      if inboxUrl == "" || state == NotChecked { return Failed(InvalidInput); }
      if at < 0 { return Failed(ObservationTime); }
      var rows := RowsOf(database, actor);
      if rows.observation.None? || rows.observation.value.inboxUrl != inboxUrl { return Failed(ObservationConflict); }
      var row := rows.observation.value;
      if (row.inboxDeclared.Some? && at < row.inboxDeclared.value) ||
         (row.inboxChecked.Some? && at < row.inboxChecked.value) {
        return Failed(ObservationTime);
      }
      row := row.(updated := Max(row.updated, at), inboxState := state, inboxChecked := Some(at),
                  revision := row.revision + 1);
      database := Commit(database, actor, rows.(observation := Some(row)));
      outcome := Observed;
    }

    method RecordReachabilityObservation(actor: string, intent: ProbeIntent, at: int) returns (outcome: Outcome)
      modifies this
      ensures database == Execute(old(database), Command(actor, OpRecordReachability(intent, at)))
      ensures outcome == Step(RowsOf(old(database), actor), old(database).lastId + 1, OpRecordReachability(intent, at)).outcome
    {
      hide NextDiagnostic, Eligible, ValidIntent, Probed, ObservationOr;
      if !ValidIntent(intent) { return Failed(InvalidInput); }
      if at < 0 { return Failed(ObservationTime); }
      var rows := RowsOf(database, actor);
      if !Eligible(rows) { return Skipped; }
      if rows.observation.Some? && rows.observation.value.checked.Some? && rows.observation.value.checked.value >= at {
        return Skipped;
      }
      var diagnostic := ScheduleNextCheck(rows, intent, at);
      var row := WriteProbe(rows.observation, intent.reachable, intent.inboxUrl, intent.inboxState, at);
      rows := rows.(observation := Some(row), diagnostic := Some(diagnostic));
      database := Commit(database, actor, rows);
      outcome := Applied;
    }

    /** The observation row after one probe: a failure keeps the last success and the inbox. */
    method WriteProbe(current: Option<ObservationRow>, reachable: bool, inboxUrl: string, state: InboxState, at: int)
      returns (row: ObservationRow)
      ensures row == Probed(ObservationOr(current, at), reachable, inboxUrl, state, at)
    {
      row := EMPTY_OBSERVATION.(updated := at);
      if current.Some? { row := current.value; }
      row := row.(updated := Max(row.updated, at), checked := Some(at), revision := row.revision + 1);
      if reachable {
        row := row.(actorState := Reachable, success := Some(at), inboxUrl := inboxUrl, inboxDeclared := None,
                    inboxState := state, inboxChecked := None);
        if inboxUrl != "" { row := row.(inboxDeclared := Some(at), inboxChecked := Some(at)); }
      } else {
        row := row.(actorState := Unreachable);
      }
    }

    /** Failure streak, the persisted earliest next check and the diagnosis of one worker result. */
    method ScheduleNextCheck(rows: Rows, intent: ProbeIntent, at: int) returns (diagnostic: DiagnosticRow)
      ensures diagnostic == NextDiagnostic(rows, intent, at)
    {
      var nextCheck, streak := at + REACHABILITY_FRESHNESS, 0;
      if !intent.reachable {
        if rows.diagnostic.Some? { streak := rows.diagnostic.value.streak; }
        if streak < MAXIMUM_FAILURE_STREAK { streak := streak + 1; }
        var retry := REACHABILITY_FRESHNESS;
        if streak == 1 { retry := FAILURE_RETRY_MINIMUM; }
        else if streak == 2 { retry := 2 * 3600; }
        else if streak == 3 { retry := 4 * 3600; }
        nextCheck := at + retry;
        if LastKnownOnline(rows) <= at - UNREACHABLE_RETRY { nextCheck := at + UNREACHABLE_RETRY; }
      }
      diagnostic := DiagnosticRow(nextCheck, at, streak, intent.actorDiagnostic, intent.inboxDiagnostic);
      if rows.diagnostic.Some? && !intent.reachable { diagnostic := diagnostic.(inbox := rows.diagnostic.value.inbox); }
    }

    method RetainDiscoveryCandidate(actor: string, state: CandidateState, at: int) returns (outcome: Outcome)
      modifies this
      ensures database == Execute(old(database), Command(actor, OpRetainCandidate(state, at)))
      ensures outcome == Step(RowsOf(old(database), actor), old(database).lastId + 1, OpRetainCandidate(state, at)).outcome
    {
      if state == CandidateResolved { return Failed(InvalidInput); }
      if at < 0 { return Failed(CandidateTime); }
      var rows := RowsOf(database, actor);
      if rows.candidate.Some? && at < rows.candidate.value.lastChecked { return Failed(CandidateTime); }
      var kind := CandidateAdded(state);
      if rows.candidate.None? {
        outcome := Created;
        rows := rows.(candidate := Some(CandidateRow(state, at, at, None, 1, at)));
      } else {
        outcome, kind := Updated, CandidateUpdated(state);
        var row := rows.candidate.value;
        rows := rows.(candidate := Some(row.(state := state, lastChecked := at, failureCount := row.failureCount + 1,
                                             updated := at)));
      }
      rows := rows.(candidateEvents := rows.candidateEvents + [Event(database.lastId + 1, kind, at)]);
      database := Commit(database, actor, rows);
    }

    method PromoteDiscoveryCandidate(actor: string, inboxUrl: string, state: InboxState, at: int) returns (outcome: Outcome)
      modifies this
      ensures database == Execute(old(database), Command(actor, OpPromote(inboxUrl, state, at)))
      ensures outcome == Step(RowsOf(old(database), actor), old(database).lastId + 1, OpPromote(inboxUrl, state, at)).outcome
    {
      hide Promote;
      var reply := WritePromotion(RowsOf(database, actor), database.lastId + 1, inboxUrl, state, at);
      outcome := reply.outcome;
      if Committed(outcome) { database := Commit(database, actor, reply.rows); }
    }

    /** The writes of one promotion on a copy of the rows; a refused one is rolled back. */
    method WritePromotion(before: Rows, id: nat, inboxUrl: string, state: InboxState, at: int) returns (reply: Reply)
      ensures reply == Promote(before, id, inboxUrl, state, at)
    {
      hide LatestDiscovery, ValidProbe, DiscoveryAdd, Reached;
      if !ValidProbe(true, inboxUrl, state) || at < 0 { return Reply(before, Failed(InvalidInput)); }
      var rows := before;
      if rows.candidate.None? || rows.candidate.value.state == CandidateResolved ||
         rows.candidate.value.lastChecked >= at {
        return Reply(before, Skipped);
      }
      if at < LatestDiscovery(rows) { return Reply(before, Skipped); }
      var discovery, kind, _ := WriteDiscovery(rows, at);
      rows := rows.(discovery := Some(discovery));
      rows := rows.(discoveryEvents := rows.discoveryEvents + [Event(id, kind, at)]);
      if rows.observation.Some? && rows.observation.value.checked.Some? && rows.observation.value.checked.value >= at {
        return Reply(before, Skipped);
      }
      var row := WriteProbe(rows.observation, true, inboxUrl, state, at);
      row := row.(updated := at);
      ProbeKeepsVerified(ObservationOr(rows.observation, at), inboxUrl, state, at);
      if row.verified.Some? && row.updated < row.verified.value { return Reply(before, Failed(StorageFailure)); }
      rows := rows.(observation := Some(row));
      rows := rows.(candidate := Some(rows.candidate.value.(state := CandidateResolved, lastChecked := at,
                                                            lastSuccess := Some(at), updated := at)));
      rows := rows.(candidateEvents := rows.candidateEvents + [Event(id, CandidateClosed, at)]);
      reply := Reply(rows, Promoted);
    }
  }

  lemma ProbeKeepsVerified(row: ObservationRow, inboxUrl: string, state: InboxState, at: int)
    ensures Reached(row, inboxUrl, state, at).verified == row.verified
  {
  }
}
