/** Optimistic revalidation: a purge candidate read earlier is purged exactly when no
    committed write touched its decision versions in between. */
module PurgeSafety {
  import opened Keyset
  import opened Store
  import opened StoreInvariant
  import opened StoreRuns

  /** Committed writes that change what a candidate of this kind was decided on. */
  predicate Disturbs(kind: PurgeKind, op: Op, outcome: Outcome) {
    && Committed(outcome)
    && match op
       case OpRegister(_, _) => true
       case OpHeartbeat(_) => true
       case OpUnregister(_) => true
       case OpModerate(_, _) => kind == PurgeLifecycle
       case OpSoftPrune(_) => kind == PurgeLifecycle
       case OpAddDiscovery(_) => kind == PurgeDiscovery
       case OpRemoveDiscovery(_) => kind == PurgeDiscovery
       case OpRecordActor(_, _, _) => true
       case OpRecordInbox(_, _, _) => true
       case OpRecordReachability(_, _) => true
       case OpRetainCandidate(_, _) => false
       case OpPromote(_, _, _) => true
       case OpPurge(c, _) => c.kind == kind
  }

  /** Some write of the run disturbed the actor. */
  predicate Disturbed(db: Database, commands: seq<Command>, actor: string, kind: PurgeKind)
    decreases |commands|
  {
    commands != [] &&
    var before, last := ExecuteAll(db, commands[..|commands| - 1]), commands[|commands| - 1];
    || Disturbed(db, commands[..|commands| - 1], actor, kind)
    || (last.actor == actor && Disturbs(kind, last.op, Step(RowsOf(before, actor), before.lastId + 1, last.op).outcome))
  }

  /** What a candidate of this kind depends on. */
  predicate SameBasis(kind: PurgeKind, a: Rows, b: Rows) {
    a.observation == b.observation &&
    match kind
    case PurgeLifecycle => a.relay == b.relay && a.relayEvents == b.relayEvents && a.moderationEvents == b.moderationEvents
    case PurgeDiscovery => a.discovery == b.discovery && a.discoveryEvents == b.discoveryEvents
  }

  /** The row is gone or one of its versions has moved past the snapshot. */
  predicate Stale(r: Rows, c: PurgeCandidate) {
    match c.kind
    case PurgeLifecycle =>
      r.relay.None? || LatestId(r.relayEvents) > c.relayEvent || LatestId(r.moderationEvents) > c.moderationEvent ||
      Revision(r) > c.revision
    case PurgeDiscovery =>
      r.discovery.None? || LatestId(r.discoveryEvents) > c.discoveryEvent || Revision(r) > c.revision
  }

  /** One transaction's effect on the versions of a row that stays: nothing runs back, and a
      row that appears comes with a fresh event. */
  predicate Advances(kind: PurgeKind, r: Rows, r': Rows, id: nat) {
    match kind
    case PurgeLifecycle =>
      r'.relay.None? ||
      (&& (r.relay.None? ==> LatestId(r'.relayEvents) >= id)
       && (r.relay.Some? ==> LatestId(r'.relayEvents) >= LatestId(r.relayEvents) && Revision(r') >= Revision(r))
       && LatestId(r'.moderationEvents) >= LatestId(r.moderationEvents))
    case PurgeDiscovery =>
      r'.discovery.None? ||
      (&& (r.discovery.None? ==> LatestId(r'.discoveryEvents) >= id)
       && (r.discovery.Some? ==> Revision(r') >= Revision(r))
       && LatestId(r'.discoveryEvents) >= LatestId(r.discoveryEvents))
  }

  /** A disturbing transaction removes the row or strictly raises one version. */
  predicate Moves(kind: PurgeKind, r: Rows, r': Rows, id: nat) {
    match kind
    case PurgeLifecycle =>
      r'.relay.None? || LatestId(r'.relayEvents) >= id || LatestId(r'.moderationEvents) >= id || Revision(r') > Revision(r)
    case PurgeDiscovery =>
      r'.discovery.None? || LatestId(r'.discoveryEvents) >= id || Revision(r') > Revision(r)
  }

  predicate VersionsKept(kind: PurgeKind, r: Rows, r': Rows, id: nat, disturbs: bool) {
    && Advances(kind, r, r', id)
    && (if disturbs then Moves(kind, r, r', id)
        else SameBasis(kind, r', r) || (if kind == PurgeLifecycle then r.relay.None? else r.discovery.None?))
  }

  predicate Grows<K(!new,==)>(a: seq<Event<K>>, b: seq<Event<K>>, id: nat) {
    b == a || (|b| == |a| + 1 && b[..|a|] == a && b[|a|].id == id)
  }

  lemma GrowsLatest<K(!new)>(a: seq<Event<K>>, b: seq<Event<K>>, id: nat)
    requires Grows(a, b, id)
    ensures LatestId(b) >= LatestId(a) && (b != a ==> LatestId(b) >= id)
  {
  }

  /** A write that appends at most one entry to each log and replaces the observation, if at
      all, by one of a higher revision. */
  lemma AppendingVersions(kind: PurgeKind, r: Rows, r': Rows, id: nat)
    requires Grows(r.relayEvents, r'.relayEvents, id)
    requires Grows(r.moderationEvents, r'.moderationEvents, id)
    requires Grows(r.discoveryEvents, r'.discoveryEvents, id)
    requires r'.observation == r.observation || Revision(r') > Revision(r)
    requires r.relay.Some? ==> r'.relay.Some?
    requires r.discovery.Some? ==> r'.discovery.Some?
    requires r.relay.None? && r'.relay.Some? ==> r'.relayEvents != r.relayEvents
    requires r.discovery.None? && r'.discovery.Some? ==> r'.discoveryEvents != r.discoveryEvents
    ensures Advances(kind, r, r', id)
    ensures r'.relayEvents != r.relayEvents ==> LatestId(r'.relayEvents) >= id
    ensures r'.moderationEvents != r.moderationEvents ==> LatestId(r'.moderationEvents) >= id
    ensures r'.discoveryEvents != r.discoveryEvents ==> LatestId(r'.discoveryEvents) >= id
  {
    GrowsLatest(r.relayEvents, r'.relayEvents, id);
    GrowsLatest(r.moderationEvents, r'.moderationEvents, id);
    GrowsLatest(r.discoveryEvents, r'.discoveryEvents, id);
  }

  lemma SignedVersions(kind: PurgeKind, r: Rows, id: nat, op: Op)
    requires op.OpRegister? || op.OpHeartbeat?
    requires Committed(Step(r, id, op).outcome)
    ensures VersionsKept(kind, r, Step(r, id, op).rows, id, true)
  {
    hide LatestId, LatestTransition;
    AppendingVersions(kind, r, Step(r, id, op).rows, id);
  }

  lemma UnregisterVersions(kind: PurgeKind, r: Rows, id: nat, at: int)
    requires Committed(Unregister(r, id, at).outcome)
    ensures VersionsKept(kind, r, Unregister(r, id, at).rows, id, true)
  {
    hide LatestId, LatestTransition;
    AppendingVersions(kind, r, Unregister(r, id, at).rows, id);
  }

  lemma AdministrativeVersions(kind: PurgeKind, r: Rows, id: nat, op: Op)
    requires op.OpModerate? || op.OpSoftPrune?
    requires Committed(Step(r, id, op).outcome)
    ensures VersionsKept(kind, r, Step(r, id, op).rows, id, kind == PurgeLifecycle)
  {
    hide LatestId, LatestTransition;
    AppendingVersions(kind, r, Step(r, id, op).rows, id);
  }

  lemma DiscoveryVersions(kind: PurgeKind, r: Rows, id: nat, op: Op)
    requires op.OpAddDiscovery? || op.OpRemoveDiscovery?
    requires Committed(Step(r, id, op).outcome)
    ensures VersionsKept(kind, r, Step(r, id, op).rows, id, kind == PurgeDiscovery)
  {
    hide LatestId, LatestDiscovery;
    AppendingVersions(kind, r, Step(r, id, op).rows, id);
  }

  lemma ObservationVersions(kind: PurgeKind, r: Rows, id: nat, op: Op)
    requires op.OpRecordActor? || op.OpRecordInbox? || op.OpRecordReachability? || op.OpPromote?
    requires Committed(Step(r, id, op).outcome)
    ensures VersionsKept(kind, r, Step(r, id, op).rows, id, true)
  {
    hide LatestId, LatestDiscovery, NextDiagnostic, ValidProbe, ValidIntent, Eligible;
    AppendingVersions(kind, r, Step(r, id, op).rows, id);
  }

  lemma StepVersions(kind: PurgeKind, r: Rows, id: nat, op: Op)
    requires r.observation.Some? ==> r.relay.Some? || r.discovery.Some?
    requires Committed(Step(r, id, op).outcome)
    ensures VersionsKept(kind, r, Step(r, id, op).rows, id, Disturbs(kind, op, Step(r, id, op).outcome))
  {
    hide VersionsKept;
    match op
    case OpRegister(_, _) => SignedVersions(kind, r, id, op);
    case OpHeartbeat(_) => SignedVersions(kind, r, id, op);
    case OpUnregister(at) => UnregisterVersions(kind, r, id, at);
    case OpModerate(_, _) => AdministrativeVersions(kind, r, id, op);
    case OpSoftPrune(_) => AdministrativeVersions(kind, r, id, op);
    case OpAddDiscovery(_) => DiscoveryVersions(kind, r, id, op);
    case OpRemoveDiscovery(_) => DiscoveryVersions(kind, r, id, op);
    case OpRecordActor(_, _, _) => ObservationVersions(kind, r, id, op);
    case OpRecordInbox(_, _, _) => ObservationVersions(kind, r, id, op);
    case OpRecordReachability(_, _) => ObservationVersions(kind, r, id, op);
    case OpPromote(_, _, _) => ObservationVersions(kind, r, id, op);
    case OpRetainCandidate(state, at) => RetainVersions(kind, r, id, state, at);
    case OpPurge(c, cutoff) => PurgeVersions(kind, r, id, c, cutoff);
  }

  lemma RetainVersions(kind: PurgeKind, r: Rows, id: nat, state: CandidateState, at: int)
    requires Committed(RetainCandidate(r, id, state, at).outcome)
    ensures VersionsKept(kind, r, RetainCandidate(r, id, state, at).rows, id, false)
  {
  }

  lemma PurgeVersions(kind: PurgeKind, r: Rows, id: nat, c: PurgeCandidate, cutoff: int)
    requires r.observation.Some? ==> r.relay.Some? || r.discovery.Some?
    requires Committed(Purge(r, c, cutoff).outcome)
    ensures VersionsKept(kind, r, Purge(r, c, cutoff).rows, id, c.kind == kind)
  {
  }

  lemma VersionsBounded(r: Rows, last: nat, now: int, c: PurgeCandidate)
    requires Sound(r, last, now) && ReadCandidate(r, c.kind) == Some(c)
    ensures c.relayEvent <= last && c.moderationEvent <= last && c.discoveryEvent <= last
  {
    LatestIdIn(r.relayEvents, last, now);
    LatestIdIn(r.moderationEvents, last, now);
    LatestIdIn(r.discoveryEvents, last, now);
  }

  /** Along a run the actor's rows keep the candidate's basis until the first disturbing
      write, and are stale from then on, whatever is deleted or created again. */
  lemma {:induction false} BasisOrStale(db: Database, now: int, commands: seq<Command>, later: int,
                                        actor: string, c: PurgeCandidate)
    requires SoundDatabase(db, now) && now <= later && Timely(commands, later)
    requires ReadCandidate(RowsOf(db, actor), c.kind) == Some(c)
    ensures var r := RowsOf(ExecuteAll(db, commands), actor);
            if Disturbed(db, commands, actor, c.kind) then Stale(r, c) else SameBasis(c.kind, r, RowsOf(db, actor))
    ensures ExecuteAll(db, commands).lastId >= db.lastId
    decreases |commands|
  {
    hide Step, Sound, Disturbs, VersionsKept, Committed;
    if commands != [] {
      var front := commands[..|commands| - 1];
      var command := commands[|commands| - 1];
      var before := ExecuteAll(db, front);
      BasisOrStale(db, now, front, later, actor, c);
      ExecuteAllKeeps(db, front, now, later);
      SoundRows(db, now, actor);
      VersionsBounded(RowsOf(db, actor), db.lastId, now, c);
      var r := RowsOf(before, actor);
      if command.actor == actor {
        var reply := Step(r, before.lastId + 1, command.op);
        SoundRows(before, later, actor);
        OwnerOf(r, before.lastId, later);
        if Committed(reply.outcome) {
          StepVersions(c.kind, r, before.lastId + 1, command.op);
          StaleStep(r, reply.rows, before.lastId + 1, c, RowsOf(db, actor),
                    Disturbed(db, front, actor, c.kind), Disturbs(c.kind, command.op, reply.outcome));
        } else {
          NotDisturbing(c.kind, command.op, reply.outcome);
        }
      }
    }
  }

  lemma OwnerOf(r: Rows, last: nat, now: int)
    requires Sound(r, last, now)
    ensures r.observation.Some? ==> r.relay.Some? || r.discovery.Some?
  {
  }

  lemma NotDisturbing(kind: PurgeKind, op: Op, outcome: Outcome)
    requires !Committed(outcome)
    ensures !Disturbs(kind, op, outcome)
  {
  }

  lemma StaleStep(r: Rows, r': Rows, id: nat, c: PurgeCandidate, origin: Rows, disturbed: bool, disturbs: bool)
    requires VersionsKept(c.kind, r, r', id, disturbs)
    requires ReadCandidate(origin, c.kind) == Some(c)
    requires c.relayEvent < id && c.moderationEvent < id && c.discoveryEvent < id
    requires if disturbed then Stale(r, c) else SameBasis(c.kind, r, origin)
    ensures if disturbed || disturbs then Stale(r', c) else SameBasis(c.kind, r', origin)
  {
    hide LatestId;
  }

  /** No stale purge, and no lost one: after any run of other transactions the batch purges
      the candidate exactly when it is old enough and no committed write disturbed it. */
  lemma {:induction false} PurgedIffUndisturbed(db: Database, now: int, commands: seq<Command>, later: int,
                                                actor: string, c: PurgeCandidate, cutoff: int)
    requires SoundDatabase(db, now) && now <= later && Timely(commands, later)
    requires ReadCandidate(RowsOf(db, actor), c.kind) == Some(c)
    ensures var r := RowsOf(ExecuteAll(db, commands), actor);
            Purge(r, c, cutoff).outcome == Purged <==>
              c.inactive <= cutoff && !Disturbed(db, commands, actor, c.kind)
  {
    BasisOrStale(db, now, commands, later, actor, c);
    MatchesIff(RowsOf(db, actor), RowsOf(ExecuteAll(db, commands), actor), c, cutoff);
  }

  lemma MatchesIff(origin: Rows, r: Rows, c: PurgeCandidate, cutoff: int)
    requires ReadCandidate(origin, c.kind) == Some(c)
    ensures Stale(r, c) ==> !StillMatches(r, c, cutoff)
    ensures SameBasis(c.kind, r, origin) ==> (StillMatches(r, c, cutoff) <==> c.inactive <= cutoff)
  {
    hide LatestId;
  }
}
