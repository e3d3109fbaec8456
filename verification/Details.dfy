/** The public projection of one actor's rows, and what the store's writers guarantee it. */
module Details {
  import opened Keyset
  import opened Evidence
  import opened Store
  import opened StoreInvariant
  import opened StoreRuns

  /** A row that is not public, one that is, or retained data the reader must reject. */
  datatype Detail = Hidden | Shown(relay: Relay) | Broken

  function FirstKnown(r: Rows): Option<int> {
    if r.relay.Some? && r.discovery.Some? then
      Some(if r.relay.value.firstRegistered <= r.discovery.value.firstDiscovered
           then r.relay.value.firstRegistered else r.discovery.value.firstDiscovered)
    else if r.relay.Some? then Some(r.relay.value.firstRegistered)
    else if r.discovery.Some? then Some(r.discovery.value.firstDiscovered)
    else None
  }

  /** The joined rows of one actor as evidence, its tier not yet assigned. */
  function Assemble(r: Rows, firstKnown: int, heartbeat: Health): Relay {
    var o := if r.observation.Some? then r.observation.value else EMPTY_OBSERVATION;
    Relay(r.relay.Some? && r.relay.value.lifecycle != Unregistered,
          r.relay.Some? && r.relay.value.lifecycle == Registered,
          r.discovery.Some? && r.discovery.value.active, firstKnown, 0,
          heartbeat, if r.relay.Some? then Some(r.relay.value.lastSeen) else None,
          if r.relay.Some? then r.relay.value.lastHeartbeat else None,
          o.actorState, o.checked, o.success,
          if r.diagnostic.Some? then Some(r.diagnostic.value.nextCheck) else None,
          o.inboxUrl, o.inboxDeclared, o.inboxState, o.inboxChecked, o.verified,
          if r.diagnostic.Some? then r.diagnostic.value.actor else NO_DIAGNOSTIC,
          if r.diagnostic.Some? then r.diagnostic.value.inbox else NO_DIAGNOSTIC)
  }

  function ReadDetail(r: Rows, observed: int): Detail {
    if r.relay.Some? && r.relay.value.suspended then Hidden
    else if !(r.relay.Some? && r.relay.value.lifecycle != Unregistered) &&
            !(r.discovery.Some? && r.discovery.value.active) then Hidden
    else if FirstKnown(r).None? then Broken
    else
      var heartbeat := ClassifyPublicHeartbeat(if r.relay.Some? then r.relay.value.lastHeartbeat else None, observed);
      if heartbeat.None? then Broken
      else
        var relay := Assemble(r, FirstKnown(r).value, heartbeat.value);
        var tier := ClassifyTier(relay, observed);
        if tier.None? then Broken
        else if !ValidEvidence(relay.(tier := tier.value), observed) then Broken
        else Shown(relay.(tier := tier.value))
  }

  /** Presence in the compatibility listing, which cuts off at thirty days. */
  predicate CompatibilityListed(r: Rows, observed: int) {
    && r.relay.Some? && r.relay.value.lifecycle == Registered && !r.relay.value.suspended
    && r.relay.value.lastSeen > observed - DEAD_BEFORE
  }

  lemma AssembledValid(r: Rows, now: int, observed: int)
    requires TablesOk(r, now) && Eligible(r) && 0 <= now <= observed
    ensures FirstKnown(r).Some?
    ensures var heartbeat := ClassifyPublicHeartbeat(if r.relay.Some? then r.relay.value.lastHeartbeat else None, observed);
            && heartbeat.Some?
            && var relay := Assemble(r, FirstKnown(r).value, heartbeat.value);
               var tier := ClassifyTier(relay, observed);
               tier.Some? && ValidEvidence(relay.(tier := tier.value), observed)
  {
    var heartbeat := ClassifyPublicHeartbeat(if r.relay.Some? then r.relay.value.lastHeartbeat else None, observed);
    var relay := Assemble(r, FirstKnown(r).value, heartbeat.value);
    var tier := ClassifyTier(relay, observed);
    assert ClassifyTier(relay.(tier := tier.value), observed) == tier;
  }

  /** Writer and reader agree: whatever sound rows hold, at any time not before the recorded
      writes a row is shown exactly when it is publicly eligible, and every shown row passes
      the evidence check. The reader never meets data it must reject. */
  lemma {:induction false} SoundRowsProject(r: Rows, last: nat, now: int, observed: int)
    requires Sound(r, last, now) && 0 <= now <= observed
    ensures ReadDetail(r, observed).Shown? <==> Eligible(r)
    ensures ReadDetail(r, observed).Hidden? <==> !Eligible(r)
    ensures ReadDetail(r, observed).Shown? ==> ValidRelay(ReadDetail(r, observed).relay, observed)
  {
    hide LogsOk, IsReplay, NoneSuspended, TablesOk, ValidEvidence, ClassifyTier, ClassifyPublicHeartbeat, Assemble;
    if Eligible(r) { AssembledValid(r, now, observed); }
  }

  /** With no new evidence a relay only ages: its tier number never falls as time passes. */
  lemma {:induction false} TiersOnlyAge(r: Rows, last: nat, now: int, earlier: int, later: int)
    requires Sound(r, last, now) && 0 <= now <= earlier <= later && Eligible(r)
    ensures ReadDetail(r, earlier).Shown? && ReadDetail(r, later).Shown?
    ensures ReadDetail(r, earlier).relay.tier <= ReadDetail(r, later).relay.tier
  {
    hide ValidEvidence, LogsOk, IsReplay, NoneSuspended;
    SoundRowsProject(r, last, now, earlier);
    SoundRowsProject(r, last, now, later);
  }

  /** Soft pruning is invisible: a prune that applies changes neither the relay's tier nor its
      presence in either listing, at any time from the prune on; other writes of the actor may
      carry a later time than the prune. */
  lemma {:induction false} PruningIsInvisible(r: Rows, last: nat, now: int, at: int, observed: int)
    requires Sound(r, last, now) && 0 <= now <= observed && at <= observed
    requires SoftPrune(r, last + 1, at).outcome == PruneApplied
    ensures var pruned := SoftPrune(r, last + 1, at).rows;
            && !CompatibilityListed(r, observed) && !CompatibilityListed(pruned, observed)
            && (ReadDetail(pruned, observed).Shown? <==> ReadDetail(r, observed).Shown?)
            && (ReadDetail(pruned, observed).Shown? ==>
                  ReadDetail(pruned, observed).relay == ReadDetail(r, observed).relay.(registered := false))
  {
    hide ReadDetail, LogsOk, IsReplay, NoneSuspended;
    var pruned := SoftPrune(r, last + 1, at).rows;
    var later := if now < at then at else now;
    SoftPruneKeeps(r, last, now, at, later);
    SoundRowsProject(r, last, now, observed);
    SoundRowsProject(pruned, last + 1, later, observed);
    if Eligible(r) {
      PrunedTier(r, pruned, at, observed);
    }
  }

  lemma PrunedTier(r: Rows, pruned: Rows, at: int, observed: int)
    requires r.relay.Some? && r.relay.value.lifecycle == Registered && r.relay.value.lastSeen <= at - DEAD_BEFORE
    requires r.relay.value.lastHeartbeat == Some(r.relay.value.lastSeen) && at <= observed
    requires pruned.observation == r.observation && pruned.discovery == r.discovery
    requires pruned.diagnostic == r.diagnostic
    requires pruned.relay == Some(r.relay.value.(lifecycle := Pruned, updated := at, prunedAt := Some(at)))
    requires ReadDetail(r, observed).Shown? && ReadDetail(pruned, observed).Shown?
    ensures ReadDetail(pruned, observed).relay == ReadDetail(r, observed).relay.(registered := false)
  {
    hide ValidEvidence;
    assert FirstKnown(pruned) == FirstKnown(r);
  }

  /** After any run of transactions, every actor projects cleanly. */
  lemma {:induction false} EveryReachableRowProjects(commands: seq<Command>, now: int, observed: int, actor: string)
    requires Timely(commands, now) && 0 <= now <= observed
    ensures var r := RowsOf(ExecuteAll(FRESH_DATABASE, commands), actor);
            && !ReadDetail(r, observed).Broken? && (ReadDetail(r, observed).Shown? <==> Eligible(r))
            && (ReadDetail(r, observed).Shown? ==> ValidRelay(ReadDetail(r, observed).relay, observed))
  {
    hide Execute, ReadDetail, Sound, ValidRelay, Eligible;
    ExecuteAllKeeps(FRESH_DATABASE, commands, now, now);
    var db := ExecuteAll(FRESH_DATABASE, commands);
    SoundRows(db, now, actor);
    SoundRowsProject(RowsOf(db, actor), db.lastId, now, observed);
  }
}
