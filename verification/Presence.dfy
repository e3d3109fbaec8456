/** What the transactions mean for the public directory, across writer and reader: who is
    listed after a signed request, a promotion or a restoration, what a prune may take, and
    discovery state as the replay of its log. */
module Presence {
  import opened Keyset
  import opened Evidence
  import opened Store
  import opened StoreInvariant
  import opened StoreRuns
  import opened Details
  import opened Projection
  import opened Pages

  // ---- discovery is its log ----

  function ReplayDiscovery(events: seq<Event<DiscoveryKind>>): Option<DiscoveryRow> {
    if events == [] then None
    else
      var e, before := events[|events| - 1], ReplayDiscovery(events[..|events| - 1]);
      match e.kind
      case DiscoveryAdded => Some(DiscoveryRow(true, e.at, e.at, None))
      case DiscoveryUpdated => if before.None? then None else Some(before.value.(active := true, updated := e.at, removedAt := None))
      case DiscoveryRemoved => if before.None? then None else Some(before.value.(active := false, updated := e.at, removedAt := Some(e.at)))
      case DiscoveryUnchanged => before
      case DiscoveryAbsent => before
  }

  /** A purge takes the row and keeps the log, so without a row the log ends in a removal. */
  predicate DiscoveryReplays(r: Rows) {
    var replay := ReplayDiscovery(r.discoveryEvents);
    if r.discovery.Some? then replay == r.discovery else replay.None? || !replay.value.active
  }

  lemma DiscoveryAppended(events: seq<Event<DiscoveryKind>>, e: Event<DiscoveryKind>)
    ensures (events + [e])[..|events|] == events && (events + [e])[|events|] == e
  {
  }

  lemma DiscoveryStep(r: Rows, id: nat, op: Op)
    requires DiscoveryReplays(r)
    ensures DiscoveryReplays(Step(r, id, op).rows)
  {
    hide LatestTransition, LatestDiscovery, Verify, ValidProbe, ValidIntent, Eligible, NextDiagnostic, LatestId, Reached, ObservationOr;
    var rows := Step(r, id, op).rows;
    if rows.discoveryEvents != r.discoveryEvents {
      DiscoveryAppended(r.discoveryEvents, rows.discoveryEvents[|r.discoveryEvents|]);
    }
  }

  /** In every reachable state the discovery row is the replay of the discovery log; where a
      purge took the row, the log ends in its removal. */
  lemma {:induction false} DiscoveryIsReplayOfLog(commands: seq<Command>, actor: string)
    ensures DiscoveryReplays(RowsOf(ExecuteAll(FRESH_DATABASE, commands), actor))
    decreases |commands|
  {
    hide Step, DiscoveryReplays;
    if commands == [] {
      NoDiscovery();
    } else {
      var front, last := commands[..|commands| - 1], commands[|commands| - 1];
      var before := ExecuteAll(FRESH_DATABASE, front);
      DiscoveryIsReplayOfLog(front, actor);
      if last.actor == actor { DiscoveryStep(RowsOf(before, actor), before.lastId + 1, last.op); }
    }
  }

  lemma NoDiscovery()
    ensures DiscoveryReplays(EMPTY)
  {
  }

  // ---- candidates are their log ----

  /** The table's own checks of a private candidate. */
  predicate CandidateOk(row: CandidateRow) {
    && 0 <= row.firstSeen <= row.lastChecked <= row.updated
    && (row.lastSuccess.Some? ==> row.firstSeen <= row.lastSuccess.value <= row.lastChecked)
    && (if row.state == CandidateResolved then row.lastSuccess.Some? else row.failureCount >= 1)
  }

  function AfterCheck(row: Option<CandidateRow>, e: Event<CandidateKind>): Option<CandidateRow> {
    match e.kind
    case CandidateAdded(state) => Some(CandidateRow(state, e.at, e.at, None, 1, e.at))
    case CandidateUpdated(state) =>
      if row.None? then None
      else Some(row.value.(state := state, lastChecked := e.at, failureCount := row.value.failureCount + 1, updated := e.at))
    case CandidateClosed =>
      if row.None? then None
      else Some(row.value.(state := CandidateResolved, lastChecked := e.at, lastSuccess := Some(e.at), updated := e.at))
  }

  function ReplayCandidate(events: seq<Event<CandidateKind>>): Option<CandidateRow> {
    if events == [] then None
    else AfterCheck(ReplayCandidate(events[..|events| - 1]), events[|events| - 1])
  }

  function FailedChecks(events: seq<Event<CandidateKind>>): nat {
    if events == [] then 0
    else FailedChecks(events[..|events| - 1]) + if events[|events| - 1].kind == CandidateClosed then 0 else 1
  }

  /** Times never run back, and a check that closes the candidate is later than all before it. */
  predicate InTime(events: seq<Event<CandidateKind>>) {
    forall i, j :: 0 <= i < j < |events| ==> Follows(events[i], events[j])
  }

  predicate Follows(a: Event<CandidateKind>, b: Event<CandidateKind>) {
    a.at <= b.at && (b.kind == CandidateClosed ==> a.at < b.at)
  }

  lemma InTimeAppended(events: seq<Event<CandidateKind>>, e: Event<CandidateKind>)
    requires InTime(events) && forall i :: 0 <= i < |events| ==> Follows(events[i], e)
    ensures InTime(events + [e])
  {
    hide Follows;
  }

  /** The candidate and its log together. */
  predicate CandidateReplays(row: Option<CandidateRow>, events: seq<Event<CandidateKind>>) {
    && ReplayCandidate(events) == row && (row.None? ==> events == [])
    && (row.Some? ==>
          && CandidateOk(row.value) && row.value.failureCount == FailedChecks(events)
          && (forall i :: 0 <= i < |events| ==> events[i].at <= row.value.lastChecked))
    && InTime(events)
  }

  lemma CheckAppended(row: Option<CandidateRow>, events: seq<Event<CandidateKind>>, e: Event<CandidateKind>)
    requires CandidateReplays(row, events) && e.at >= 0
    requires e.kind.CandidateAdded? <==> row.None?
    requires !e.kind.CandidateClosed? ==> e.kind.state != CandidateResolved
    requires row.Some? ==> row.value.lastChecked < e.at || (e.kind.CandidateUpdated? && row.value.lastChecked == e.at)
    ensures CandidateReplays(AfterCheck(row, e), events + [e])
  {
    var longer := events + [e];
    assert longer[..|events|] == events && longer[|events|] == e;
    hide InTime;
    InTimeAppended(events, e);
  }

  lemma RetainedStep(r: Rows, id: nat, state: CandidateState, at: int)
    requires CandidateReplays(r.candidate, r.candidateEvents)
    ensures var after := RetainCandidate(r, id, state, at).rows; CandidateReplays(after.candidate, after.candidateEvents)
  {
    hide CandidateReplays;
    var after := RetainCandidate(r, id, state, at).rows;
    if after != r { CheckAppended(r.candidate, r.candidateEvents, after.candidateEvents[|r.candidateEvents|]); }
  }

  lemma PromotedStep(r: Rows, id: nat, inboxUrl: string, state: InboxState, at: int)
    requires CandidateReplays(r.candidate, r.candidateEvents)
    ensures var after := Promote(r, id, inboxUrl, state, at).rows; CandidateReplays(after.candidate, after.candidateEvents)
  {
    hide LatestDiscovery, ValidProbe, Reached, ObservationOr, DiscoveryAdd, CandidateReplays;
    var reply := Promote(r, id, inboxUrl, state, at);
    if reply.outcome == Promoted {
      CheckAppended(r.candidate, r.candidateEvents, reply.rows.candidateEvents[|r.candidateEvents|]);
    }
  }

  lemma CandidateStep(r: Rows, id: nat, op: Op)
    requires CandidateReplays(r.candidate, r.candidateEvents)
    ensures var after := Step(r, id, op).rows; CandidateReplays(after.candidate, after.candidateEvents)
  {
    hide LatestTransition, LatestDiscovery, Verify, ValidProbe, ValidIntent, Eligible, NextDiagnostic, Reached, ObservationOr, DiscoveryAdd,
         RetainCandidate, Promote, CandidateReplays;
    match op
    case OpRetainCandidate(state, at) => RetainedStep(r, id, state, at);
    case OpPromote(url, state, at) => PromotedStep(r, id, url, state, at);
    case _ =>
  }

  /** In every reachable state the private candidate is the replay of its log and passes the
      table's checks: its failure count is the number of failed checks, log times never run
      back, and a candidate is resolved strictly after every check before it. */
  lemma {:induction false} CandidateIsReplayOfLog(commands: seq<Command>, actor: string)
    ensures var r := RowsOf(ExecuteAll(FRESH_DATABASE, commands), actor); CandidateReplays(r.candidate, r.candidateEvents)
    decreases |commands|
  {
    hide Step, CandidateReplays;
    if commands == [] {
      NoCandidate();
    } else {
      var front, last := commands[..|commands| - 1], commands[|commands| - 1];
      var before := ExecuteAll(FRESH_DATABASE, front);
      CandidateIsReplayOfLog(front, actor);
      if last.actor == actor { CandidateStep(RowsOf(before, actor), before.lastId + 1, last.op); }
    }
  }

  lemma NoCandidate()
    ensures CandidateReplays(None, [])
  {
  }

  // ---- presence ----

  /** A prune takes exactly the registered relays unseen for thirty days that show neither
      online signal at its time or any later one, provided no lifecycle or moderation entry is
      newer; once the log is not ahead of it, the moment itself decides. It never takes a relay
      in tier one or two. */
  lemma {:induction false} PrunesExactlyTheOffline(r: Rows, last: nat, now: int, id: nat, at: int)
    requires Sound(r, last, now) && 0 <= now
    ensures SoftPrune(r, id, at).outcome == PruneApplied <==>
              && r.relay.Some? && r.relay.value.lifecycle == Registered && r.relay.value.lastSeen <= at - DEAD_BEFORE
              && LatestTransition(r) <= at && (forall t :: at <= t ==> !OnlineRow(r, t))
    ensures now <= at ==> LatestTransition(r) <= at && ((forall t :: at <= t ==> !OnlineRow(r, t)) <==> !OnlineRow(r, at))
  {
    hide IsReplay, NoneSuspended, LogsInOrder;
    LogNotLater(r.relayEvents, last, now);
    LogNotLater(r.moderationEvents, last, now);
    if PruneProtected(r.observation, at) {
      assert OnlineRow(r, Max(at, r.observation.value.success.value));
    }
  }

  lemma {:induction false} LogNotLater<K(!new)>(events: seq<Event<K>>, last: nat, now: int)
    requires LogOk(events, last, now)
    ensures LatestAt(events) <= Max(now, -1)
  {
    if events != [] {
      LogNotLater(events[..|events| - 1], last, now);
    }
  }

  /** An accepted registration or heartbeat lists the relay at every read from the last write
      on, and keeps it in tier one or two for 36 hours; after that the actor check decides. */
  lemma {:induction false} SignedIsListed(r: Rows, last: nat, now: int, op: Op, observed: int)
    requires Sound(r, last, now) && 0 <= now <= observed && op.at <= observed && (op.OpRegister? || op.OpHeartbeat?)
    requires Committed(Step(r, last + 1, op).outcome)
    ensures var detail := ReadDetail(Step(r, last + 1, op).rows, observed);
            && detail.Shown? && detail.relay.registered
            && (detail.relay.tier <= 2 <==> observed <= op.at + HEALTHY_THROUGH || FreshActor(detail.relay, observed))
  {
    hide ReadDetail, Sound, LatestTransition, Verify;
    var rows := Step(r, last + 1, op).rows;
    var later := Max(now, op.at);
    StepKeeps(r, last, now, op, later);
    SoundRowsProject(rows, last + 1, later, observed);
    ShownSignals(rows, observed);
  }

  /** The two online signals of a public row, as its stored rows give them. */
  lemma ShownSignals(r: Rows, observed: int)
    requires ReadDetail(r, observed).Shown?
    ensures var relay := ReadDetail(r, observed).relay;
            && (relay.tier <= 2 <==> FreshActor(relay, observed) || CurrentHeartbeat(relay, observed))
            && (relay.registered <==> r.relay.Some? && r.relay.value.lifecycle == Registered)
            && relay.lastHeartbeat == (if r.relay.Some? then r.relay.value.lastHeartbeat else None)
            && (r.observation.Some? ==>
                  && relay.actorState == r.observation.value.actorState
                  && relay.checked == r.observation.value.checked && relay.success == r.observation.value.success)
  {
    hide ValidEvidence;
  }

  /** A promoted candidate is listed at every read from the last write on, in tier one or two
      for six hours and after that as long as a heartbeat is current, unless it is suspended. */
  lemma {:induction false} PromotedIsListed(r: Rows, last: nat, now: int, inboxUrl: string, state: InboxState, at: int,
                                            observed: int)
    requires Sound(r, last, now) && 0 <= now <= observed && at <= observed
    requires Promote(r, last + 1, inboxUrl, state, at).outcome == Promoted
    ensures var rows := Promote(r, last + 1, inboxUrl, state, at).rows; var detail := ReadDetail(rows, observed);
            && rows.candidate.Some? && rows.candidate.value.state == CandidateResolved
            && (if r.relay.Some? && r.relay.value.suspended then detail.Hidden?
                else
                  && detail.Shown?
                  && (detail.relay.tier <= 2 <==>
                        observed <= at + REACHABILITY_FRESHNESS || CurrentHeartbeat(detail.relay, observed)))
  {
    hide ReadDetail, Sound, LatestDiscovery;
    var rows := Promote(r, last + 1, inboxUrl, state, at).rows;
    var later := Max(now, at);
    PromoteKeeps(r, last, now, inboxUrl, state, at, later);
    SoundRowsProject(rows, last + 1, later, observed);
    if rows.relay.None? || !rows.relay.value.suspended { ShownSignals(rows, observed); }
  }

  /** A promotion takes its actor, and no other, off the pending candidates and onto the
      directory, unless it is suspended. */
  lemma {:induction false} PromotionSettlesPending(db: Database, actor: string, inboxUrl: string, state: InboxState, at: int)
    requires Promote(RowsOf(db, actor), db.lastId + 1, inboxUrl, state, at).outcome == Promoted
    ensures var r := RowsOf(db, actor); var after := Execute(db, Command(actor, OpPromote(inboxUrl, state, at)));
            && PendingActors(after) == PendingActors(db) - {actor} && (actor in PendingActors(db) <==> !Eligible(r))
            && Public(after) == Public(db) + (if r.relay.Some? && r.relay.value.suspended then {} else {actor})
  {
    hide LatestDiscovery, ValidProbe, Reached, ObservationOr;
  }

  /** What a promotion checks of its own accord: an open candidate and discovery and actor
      evidence that are older than the probe. */
  predicate PromotionAdmitted(r: Rows, inboxUrl: string, state: InboxState, at: int) {
    && ValidProbe(true, inboxUrl, state) && at >= 0
    && r.candidate.Some? && r.candidate.value.state != CandidateResolved && r.candidate.value.lastChecked < at
    && LatestDiscovery(r) <= at
    && (r.observation.Some? && r.observation.value.checked.Some? ==> r.observation.value.checked.value < at)
  }

  /** An admitted promotion goes through exactly when no authenticated evidence is newer than
      the probe; otherwise the table's own check aborts it. */
  lemma {:induction false} PromotesUnlessVerifiedLater(r: Rows, id: nat, inboxUrl: string, state: InboxState, at: int)
    ensures var outcome := Promote(r, id, inboxUrl, state, at).outcome;
            && (outcome == Promoted || outcome == Failed(StorageFailure) <==> PromotionAdmitted(r, inboxUrl, state, at))
            && (PromotionAdmitted(r, inboxUrl, state, at) ==>
                  (outcome == Promoted <==>
                     (r.observation.Some? && r.observation.value.verified.Some? ==> r.observation.value.verified.value <= at)))
  {
    hide ValidProbe, LatestDiscovery;
  }

  /** It does fail in a reachable store: a candidate retained at 10, its actor registered at 30,
      and the probe of 20 promoted after that. */
  lemma {:induction false} PromotionCanFail(actor: string)
    ensures var db := ExecuteAll(FRESH_DATABASE, [Command(actor, OpRetainCandidate(CandidateUnreachable, 10)),
                                                  Command(actor, OpRegister(true, 30))]);
            && PromotionAdmitted(RowsOf(db, actor), "", NotChecked, 20)
            && Step(RowsOf(db, actor), db.lastId + 1, OpPromote("", NotChecked, 20)).outcome == Failed(StorageFailure)
  {
    hide Step, PromotionAdmitted, Promote;
    var retain, register := Command(actor, OpRetainCandidate(CandidateUnreachable, 10)), Command(actor, OpRegister(true, 30));
    var first := Execute(FRESH_DATABASE, retain);
    RetainedFirst();
    RegisteredNext();
    assert [retain, register][..1] == [retain] && [retain][..0] == [];
    assert ExecuteAll(FRESH_DATABASE, [retain]) == first;
    assert ExecuteAll(FRESH_DATABASE, [retain, register]) == Execute(first, register);
  }

  const RETAINED := EMPTY.(candidate := Some(CandidateRow(CandidateUnreachable, 10, 10, None, 1, 10)),
                           candidateEvents := [Event(1, CandidateAdded(CandidateUnreachable), 10)])

  lemma RetainedFirst()
    ensures Step(EMPTY, 1, OpRetainCandidate(CandidateUnreachable, 10)) == Reply(RETAINED, Created)
  {
    assert [] + [Event(1, CandidateAdded(CandidateUnreachable), 10)] == [Event(1, CandidateAdded(CandidateUnreachable), 10)];
  }

  lemma RegisteredRows()
    ensures var reply := Register(RETAINED, 2, true, 30); var r := reply.rows;
            && reply.outcome == Created && r.candidate == RETAINED.candidate && r.discovery.None? && r.discoveryEvents == []
            && r.observation == Some(EMPTY_OBSERVATION.(verified := Some(30), updated := 30, revision := 2))
  {
  }

  lemma RegisteredNext()
    ensures var reply := Step(RETAINED, 2, OpRegister(true, 30));
            && reply.outcome == Created && PromotionAdmitted(reply.rows, "", NotChecked, 20)
            && Step(reply.rows, 3, OpPromote("", NotChecked, 20)).outcome == Failed(StorageFailure)
  {
    hide Register, Promote;
    RegisteredRows();
    var rows := Register(RETAINED, 2, true, 30).rows;
    PromotesUnlessVerifiedLater(rows, 3, "", NotChecked, 20);
  }

  /** Restoring undoes suspending: in between the actor is hidden, afterwards its public row is
      what it would have been, at every observation time. */
  lemma {:induction false} RestoreUndoesSuspend(r: Rows, id: nat, suspendAt: int, id': nat, restoreAt: int, observed: int)
    requires Moderate(r, id, true, suspendAt).outcome == NowSuspended
    requires Moderate(Moderate(r, id, true, suspendAt).rows, id', false, restoreAt).outcome == Restored
    ensures var suspended := Moderate(r, id, true, suspendAt).rows;
            var restored := Moderate(suspended, id', false, restoreAt).rows;
            && ReadDetail(suspended, observed).Hidden? && ReadDetail(restored, observed) == ReadDetail(r, observed)
            && (Eligible(restored) <==> Eligible(r))
  {
    hide ClassifyTier, ValidEvidence, ClassifyPublicHeartbeat, LatestTransition;
    var restored := Moderate(Moderate(r, id, true, suspendAt).rows, id', false, restoreAt).rows;
    assert FirstKnown(restored) == FirstKnown(r);
    assert forall heartbeat, known :: Assemble(restored, known, heartbeat) == Assemble(r, known, heartbeat);
  }
}
