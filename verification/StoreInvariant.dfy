/** What every transaction keeps: table checks, ownership, log order, and that the lifecycle
    and moderation state of an actor is the replay of its logs. */
module StoreInvariant {
  import opened Keyset
  import opened Evidence
  import opened Store

  // ---- rows ----

  predicate RelayOk(row: RelayRow, now: int) {
    && 0 <= row.firstRegistered <= row.lastSeen <= row.updated <= now
    && row.lastHeartbeat == Some(row.lastSeen)
    && (row.unregisteredAt.Some? <==> row.lifecycle == Unregistered)
    && (row.unregisteredAt.Some? ==> row.lastSeen <= row.unregisteredAt.value <= row.updated)
    && (row.prunedAt.Some? <==> row.lifecycle == Pruned)
    && (row.prunedAt.Some? ==> row.lastSeen <= row.prunedAt.value <= row.updated)
    && (row.suspended <==> row.suspendedAt.Some?)
  }

  predicate DiscoveryOk(row: DiscoveryRow, now: int) {
    && 0 <= row.firstDiscovered <= row.updated <= now
    && (row.active <==> row.removedAt.None?)
    && (row.removedAt.Some? ==> row.firstDiscovered <= row.removedAt.value <= row.updated)
  }

  predicate ObservationOk(row: ObservationRow, now: int) {
    && 0 <= row.updated <= now && row.revision >= 1
    && ValidActorTimes(row.actorState, row.checked, row.success)
    && ValidInbox(row.inboxUrl, row.inboxDeclared, row.inboxState, row.inboxChecked)
    && ObservedTime(row.checked, row.updated) && ObservedTime(row.success, row.updated)
    && ObservedTime(row.inboxDeclared, row.updated) && ObservedTime(row.inboxChecked, row.updated)
    && ObservedTime(row.verified, row.updated)
  }

  /** The next check of a worker write lies between one hour and seven days ahead of it, and
      only a failure leaves a diagnosis of the actor. */
  predicate DiagnosticOk(row: DiagnosticRow, observation: Option<ObservationRow>) {
    && row.streak <= MAXIMUM_FAILURE_STREAK && (row.streak == 0 ==> row.actor == NO_DIAGNOSTIC)
    && ValidDiagnostic(row.actor) && ValidDiagnostic(row.inbox)
    && row.updated + FAILURE_RETRY_MINIMUM <= row.nextCheck <= row.updated + UNREACHABLE_RETRY
    && observation.Some? && observation.value.checked.Some?
    && 0 <= row.updated <= observation.value.checked.value
  }

  predicate TablesOk(r: Rows, now: int) {
    && (r.relay.Some? ==> RelayOk(r.relay.value, now))
    && (r.discovery.Some? ==> DiscoveryOk(r.discovery.value, now))
    && (r.observation.Some? ==> ObservationOk(r.observation.value, now) && (r.relay.Some? || r.discovery.Some?))
    && (r.diagnostic.Some? ==> DiagnosticOk(r.diagnostic.value, r.observation))
  }

  // ---- logs ----

  predicate LogOk<K(!new)>(events: seq<Event<K>>, last: nat, now: int) {
    && (forall i :: 0 <= i < |events| ==> 1 <= events[i].id <= last && 0 <= events[i].at <= now)
    && (forall i, j :: 0 <= i < j < |events| ==> events[i].id < events[j].id && events[i].at <= events[j].at)
  }

  /** Across two logs of one actor the later entry never carries the earlier time. */
  predicate LogsInOrder<K(!new), L(!new)>(a: seq<Event<K>>, b: seq<Event<L>>) {
    forall i, j :: 0 <= i < |a| && 0 <= j < |b| ==>
      a[i].id != b[j].id && (a[i].id < b[j].id ==> a[i].at <= b[j].at) && (b[j].id < a[i].id ==> b[j].at <= a[i].at)
  }

  predicate LogsOk(r: Rows, last: nat, now: int) {
    && LogOk(r.relayEvents, last, now) && LogOk(r.moderationEvents, last, now)
    && LogOk(r.discoveryEvents, last, now) && LogsInOrder(r.relayEvents, r.moderationEvents)
  }

  // ---- replay ----

  /** The part of a lifecycle row its event log determines. */
  datatype View = View(lifecycle: Lifecycle, firstRegistered: int, lastSeen: int, lastHeartbeat: Option<int>,
                       unregisteredAt: Option<int>, prunedAt: Option<int>)

  function ReplayEvent(view: Option<View>, e: Event<RelayEventKind>): Option<View> {
    if e.kind == RegisterCreated then Some(View(Registered, e.at, e.at, Some(e.at), None, None))
    else if view.None? || e.kind == UnregisterAbsent then view
    else
      var v := view.value;
      if e.kind == HeartbeatRecorded then Some(v.(lastSeen := e.at, lastHeartbeat := Some(e.at)))
      else if e.kind == UnregisterRemoved then Some(v.(lifecycle := Unregistered, unregisteredAt := Some(e.at)))
      else if e.kind == RelayPruned then Some(v.(lifecycle := Pruned, prunedAt := Some(e.at)))
      else Some(View(Registered, v.firstRegistered, e.at, Some(e.at), None, None))
  }

  function Replay(events: seq<Event<RelayEventKind>>): Option<View> {
    if events == [] then None
    else ReplayEvent(Replay(events[..|events| - 1]), events[|events| - 1])
  }

  /** When the suspension in force began, if any. */
  function ReplayModeration(events: seq<Event<ModerationKind>>): Option<int> {
    if events == [] then None
    else
      var e := events[|events| - 1];
      if e.kind == SuspendApplied then Some(e.at)
      else if e.kind == RestoreApplied then None
      else ReplayModeration(events[..|events| - 1])
  }

  /** The suspension in force just before the entry `id` was written. */
  function SuspensionBefore(events: seq<Event<ModerationKind>>, id: nat): Option<int> {
    if events == [] || events[|events| - 1].id < id then ReplayModeration(events)
    else SuspensionBefore(events[..|events| - 1], id)
  }

  predicate SignedKind(kind: RelayEventKind) {
    kind == RegisterCreated || kind == RegisterUpdated || kind == RegisterUnchanged || kind == HeartbeatRecorded
  }

  predicate NoneSuspended(r: Rows) {
    forall i :: 0 <= i < |r.relayEvents| && SignedKind(r.relayEvents[i].kind) ==>
      SuspensionBefore(r.moderationEvents, r.relayEvents[i].id) == None
  }

  function ViewOf(row: RelayRow): View {
    View(row.lifecycle, row.firstRegistered, row.lastSeen, row.lastHeartbeat, row.unregisteredAt, row.prunedAt)
  }

  predicate IsReplay(r: Rows) {
    && Replay(r.relayEvents) == (if r.relay.Some? then Some(ViewOf(r.relay.value)) else None)
    && ReplayModeration(r.moderationEvents) == (if r.relay.Some? then r.relay.value.suspendedAt else None)
  }

  /** The invariant of one actor's rows at clock bound `now`. */
  predicate Sound(r: Rows, last: nat, now: int) {
    TablesOk(r, now) && LogsOk(r, last, now) && IsReplay(r) && NoneSuspended(r)
  }

  // ---- log lemmas ----

  lemma {:induction false} LatestBounds<K(!new)>(events: seq<Event<K>>)
    ensures forall i :: 0 <= i < |events| ==> events[i].at <= LatestAt(events) && events[i].id <= LatestId(events)
  {
    if events != [] {
      var front := events[..|events| - 1];
      LatestBounds(front);
      forall i | 0 <= i < |events|
        ensures events[i].at <= LatestAt(events) && events[i].id <= LatestId(events)
      {
        if i < |front| { assert front[i] == events[i]; }
      }
    }
  }

  lemma {:induction false} LatestIdIn<K(!new)>(events: seq<Event<K>>, last: nat, now: int)
    requires LogOk(events, last, now)
    ensures LatestId(events) <= last
    ensures events != [] ==> LatestId(events) == events[|events| - 1].id
  {
    if events != [] { LatestIdIn(events[..|events| - 1], last, now); }
  }

  lemma Appended<K(!new)>(events: seq<Event<K>>, e: Event<K>)
    ensures (events + [e])[..|events|] == events && (events + [e])[|events + [e]| - 1] == e
    ensures LatestId(events + [e]) == Max(e.id, LatestId(events))
  {
    assert (events + [e])[..|events|] == events;
  }

  lemma LogAppend<K(!new)>(events: seq<Event<K>>, e: Event<K>, last: nat, now: int, later: int)
    requires LogOk(events, last, now) && now <= later
    requires e.id == last + 1 && LatestAt(events) <= e.at && 0 <= e.at <= later
    ensures LogOk(events + [e], last + 1, later)
  {
    LatestBounds(events);
  }

  lemma OrderAppend<K(!new), L(!new)>(a: seq<Event<K>>, b: seq<Event<L>>, e: Event<K>, last: nat, now: int)
    requires LogOk(b, last, now) && LogsInOrder(a, b)
    requires e.id == last + 1 && LatestAt(b) <= e.at
    ensures LogsInOrder(a + [e], b) && LogsInOrder(b, a + [e])
  {
    LatestBounds(b);
    var c := a + [e];
    forall i, j | 0 <= i < |c| && 0 <= j < |b|
      ensures c[i].id != b[j].id && (c[i].id < b[j].id ==> c[i].at <= b[j].at) && (b[j].id < c[i].id ==> b[j].at <= c[i].at)
    {
      if i < |a| { assert c[i] == a[i]; }
    }
  }

  lemma SuspensionNow(events: seq<Event<ModerationKind>>, last: nat, now: int)
    requires LogOk(events, last, now)
    ensures SuspensionBefore(events, last + 1) == ReplayModeration(events)
  {
  }
}
