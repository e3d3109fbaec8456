/** Hard retention: candidate pages over two bounded sources, destructive batches that
    revalidate each candidate, and the run audit row that must reconcile with them. */
module RetentionRules {
  import opened Keyset
  import opened Store
  import opened StoreInvariant
  import opened StoreRuns
  import opened PurgeSafety

  const MAXIMUM_RETENTION_DAYS := 36500
  const MAXIMUM_PURGE_PAGE := 100
  const MAXIMUM_PURGE_ATTEMPTS := 1000
  const POLICY_VERSION := 2

  /** A purge candidate together with the actor it was read for. */
  datatype Target = Target(actor: string, candidate: PurgeCandidate)

  function KindRank(kind: PurgeKind): int { if kind == PurgeDiscovery then 0 else 1 }

  function KindOf(rank: int): PurgeKind { if rank == 0 then PurgeDiscovery else PurgeLifecycle }

  function PositionOf(t: Target): Key {
    Key(t.candidate.inactive, t.actor, KindRank(t.candidate.kind))
  }

  predicate IsTarget(r: Rows, kind: PurgeKind, cutoff: int) {
    ReadCandidate(r, kind).Some? && ReadCandidate(r, kind).value.inactive <= cutoff
  }

  /** One source of candidates, at its positions. */
  function SourceKeys(db: Database, kind: PurgeKind, cutoff: int): set<Key> {
    set actor | actor in db.rows && IsTarget(db.rows[actor], kind, cutoff) ::
      Key(ReadCandidate(db.rows[actor], kind).value.inactive, actor, KindRank(kind))
  }

  function TargetKeys(db: Database, cutoff: int): set<Key> {
    SourceKeys(db, PurgeLifecycle, cutoff) + SourceKeys(db, PurgeDiscovery, cutoff)
  }

  function CandidateAt(db: Database, k: Key): Option<PurgeCandidate> {
    ReadCandidate(RowsOf(db, k.text), KindOf(k.kind))
  }

  /** The snapshot's own consistency, checked by readers and by the batch. */
  predicate ValidCandidate(c: PurgeCandidate) {
    && 0 <= c.inactive <= c.updated
    && (c.kind == PurgeLifecycle <==> c.lifecycle == Some(Unregistered) || c.lifecycle == Some(Pruned))
    && (c.kind == PurgeDiscovery ==> c.lifecycle.None?)
  }

  lemma TargetHasCandidate(db: Database, cutoff: int, k: Key)
    requires k in TargetKeys(db, cutoff)
    ensures CandidateAt(db, k).Some? && k.text in db.rows
    ensures PositionOf(Target(k.text, CandidateAt(db, k).value)) == k
    ensures CandidateAt(db, k).value.inactive <= cutoff && CandidateAt(db, k).value.kind == KindOf(k.kind)
  {
    hide ReadCandidate;
    CandidateKind(RowsOf(db, k.text), KindOf(k.kind));
  }

  lemma CandidateKind(r: Rows, kind: PurgeKind)
    ensures ReadCandidate(r, kind).Some? ==> ReadCandidate(r, kind).value.kind == kind
  {
  }

  lemma SoundCandidateValid(r: Rows, last: nat, now: int, kind: PurgeKind)
    requires Sound(r, last, now) && ReadCandidate(r, kind).Some?
    ensures ValidCandidate(ReadCandidate(r, kind).value)
  {
    hide LogsOk, IsReplay, NoneSuspended;
  }

  // ---- batches ----

  datatype Totals = Totals(relays: nat, discoveries: nat, observations: nat, events: nat, skipped: nat)

  const NO_TOTALS := Totals(0, 0, 0, 0, 0)

  function Add(a: Totals, b: Totals): Totals {
    Totals(a.relays + b.relays, a.discoveries + b.discoveries, a.observations + b.observations,
           a.events + b.events, a.skipped + b.skipped)
  }

  function PurgeCommands(targets: seq<Target>, cutoff: int): seq<Command> {
    seq(|targets|, i requires 0 <= i < |targets| => Command(targets[i].actor, OpPurge(targets[i].candidate, cutoff)))
  }

  /** The store after a batch: the candidates' purge transactions in order. */
  function AfterBatch(db: Database, targets: seq<Target>, cutoff: int): Database {
    ExecuteAll(db, PurgeCommands(targets, cutoff))
  }

  function OneTotals(r: Rows, t: Target, cutoff: int): Totals {
    var reply := Purge(r, t.candidate, cutoff);
    if reply.outcome != Purged then NO_TOTALS.(skipped := 1)
    else
      var dropped := if r.observation.Some? && reply.rows.observation.None? then 1 else 0;
      if t.candidate.kind == PurgeLifecycle then Totals(1, 0, dropped, |r.relayEvents|, 0)
      else Totals(0, 1, dropped, 0, 0)
  }

  function BatchTotals(db: Database, targets: seq<Target>, cutoff: int): Totals
    decreases |targets|
  {
    if targets == [] then NO_TOTALS
    else
      var front := targets[..|targets| - 1];
      var last := targets[|targets| - 1];
      Add(BatchTotals(db, front, cutoff), OneTotals(RowsOf(AfterBatch(db, front, cutoff), last.actor), last, cutoff))
  }

  lemma BatchStep(db: Database, targets: seq<Target>, t: Target, cutoff: int)
    ensures AfterBatch(db, targets + [t], cutoff) ==
            Execute(AfterBatch(db, targets, cutoff), Command(t.actor, OpPurge(t.candidate, cutoff)))
    ensures BatchTotals(db, targets + [t], cutoff) ==
            Add(BatchTotals(db, targets, cutoff), OneTotals(RowsOf(AfterBatch(db, targets, cutoff), t.actor), t, cutoff))
  {
    hide Execute, OneTotals;
    var all := PurgeCommands(targets + [t], cutoff);
    assert all[..|targets|] == PurgeCommands(targets, cutoff);
    assert (targets + [t])[..|targets|] == targets;
  }

  lemma NothingBatched(db: Database, cutoff: int)
    ensures BatchTotals(db, [], cutoff) == NO_TOTALS
  {
  }

  lemma OneAccounts(r: Rows, t: Target, cutoff: int)
    ensures var one := OneTotals(r, t, cutoff);
            one.relays + one.discoveries + one.skipped == 1 && one.observations <= one.relays + one.discoveries
  {
    hide Purge;
  }

  /** Every candidate is either purged or skipped. */
  lemma {:induction false} BatchAccounts(db: Database, targets: seq<Target>, cutoff: int)
    ensures var t := BatchTotals(db, targets, cutoff);
            t.relays + t.discoveries + t.skipped == |targets| && t.observations <= t.relays + t.discoveries
    decreases |targets|
  {
    hide AfterBatch, OneTotals, BatchTotals, RowsOf;
    if targets == [] {
      NothingBatched(db, cutoff);
    } else {
      var front, last := targets[..|targets| - 1], targets[|targets| - 1];
      BatchAccounts(db, front, cutoff);
      assert front + [last] == targets;
      BatchStep(db, front, last, cutoff);
      OneAccounts(RowsOf(AfterBatch(db, front, cutoff), last.actor), last, cutoff);
    }
  }

  lemma {:induction false} ExecuteTwice(db: Database, first: seq<Command>, second: seq<Command>)
    ensures ExecuteAll(db, first + second) == ExecuteAll(ExecuteAll(db, first), second)
    decreases |second|
  {
    hide Execute;
    if second == [] {
      assert first + second == first;
    } else {
      ExecuteTwice(db, first, second[..|second| - 1]);
      assert (first + second)[..|first + second| - 1] == first + second[..|second| - 1];
    }
  }

  /** Inside a batch: a candidate read before other writers ran is skipped exactly when one of
      them, or an earlier purge of the batch, disturbed it. */
  lemma {:induction false} SkippedIffDisturbed(db: Database, now: int, others: seq<Command>, later: int,
                                               targets: seq<Target>, i: nat, cutoff: int)
    requires SoundDatabase(db, now) && now <= later && Timely(others, later) && i < |targets|
    requires Timely(PurgeCommands(targets[..i], cutoff), later) && targets[i].candidate.inactive <= cutoff
    requires ReadCandidate(RowsOf(db, targets[i].actor), targets[i].candidate.kind) == Some(targets[i].candidate)
    ensures var r := RowsOf(AfterBatch(ExecuteAll(db, others), targets[..i], cutoff), targets[i].actor);
            OneTotals(r, targets[i], cutoff).skipped == 1 <==>
              Disturbed(db, others + PurgeCommands(targets[..i], cutoff), targets[i].actor, targets[i].candidate.kind)
  {
    hide Execute, Disturbed, Purge, SoundDatabase, ReadCandidate, ExecuteAll;
    var purges := PurgeCommands(targets[..i], cutoff);
    ExecuteTwice(db, others, purges);
    assert Timely(others + purges, later);
    PurgedIffUndisturbed(db, now, others + purges, later, targets[i].actor, targets[i].candidate, cutoff);
  }

  // ---- conservation ----

  function RelayActors(db: Database): set<string> {
    set actor | actor in db.rows && db.rows[actor].relay.Some?
  }

  function DiscoveredActors(db: Database): set<string> {
    set actor | actor in db.rows && db.rows[actor].discovery.Some?
  }

  function ObservedActors(db: Database): set<string> {
    set actor | actor in db.rows && db.rows[actor].observation.Some?
  }

  /** Every retained lifecycle event, as actor and index. */
  function RetainedEvents(db: Database): set<(string, int)> {
    set actor, i | actor in db.rows && 0 <= i < |db.rows[actor].relayEvents| :: (actor, i)
  }

  function EventsOf(actor: string, n: nat): set<(string, int)> {
    set i | 0 <= i < n :: (actor, i)
  }

  lemma {:induction false} EventsOfSize(actor: string, n: nat)
    ensures |EventsOf(actor, n)| == n
  {
    if n == 0 {
      assert EventsOf(actor, n) == {};
    } else {
      EventsOfSize(actor, n - 1);
      assert EventsOf(actor, n) == EventsOf(actor, n - 1) + {(actor, n - 1)};
    }
  }

  predicate Conserves(db: Database, after: Database, t: Totals) {
    && |RelayActors(db)| == |RelayActors(after)| + t.relays
    && |DiscoveredActors(db)| == |DiscoveredActors(after)| + t.discoveries
    && |ObservedActors(db)| == |ObservedActors(after)| + t.observations
    && |RetainedEvents(db)| == |RetainedEvents(after)| + t.events
  }

  lemma PurgeShape(r: Rows, t: Target, cutoff: int)
    ensures var reply := Purge(r, t.candidate, cutoff);
            reply.outcome == Purged ==>
              && (t.candidate.kind == PurgeLifecycle ==>
                    r.relay.Some? && reply.rows.relay.None? && reply.rows.discovery == r.discovery && reply.rows.relayEvents == [])
              && (t.candidate.kind == PurgeDiscovery ==>
                    r.discovery.Some? && reply.rows.discovery.None? && reply.rows.relay == r.relay && reply.rows.relayEvents == r.relayEvents)
              && (reply.rows.observation.Some? ==> r.observation.Some?)
    ensures Purge(r, t.candidate, cutoff).outcome == Purged || !Committed(Purge(r, t.candidate, cutoff).outcome)
  {
  }

  lemma OneChanged(before: set<string>, after: set<string>, actor: string)
    requires forall other :: other != actor ==> (other in before <==> other in after)
    ensures |after| == |before| + (if actor in after then 1 else 0) - (if actor in before then 1 else 0)
  {
    var others := before - {actor};
    assert others == after - {actor};
    assert before == others + (if actor in before then {actor} else {});
    assert after == others + (if actor in after then {actor} else {});
  }

  lemma OwnersCount(db: Database, actor: string, rows: Rows)
    ensures var after := Commit(db, actor, rows);
            && |RelayActors(after)| == |RelayActors(db)| + Has(rows.relay) - Has(RowsOf(db, actor).relay)
            && |DiscoveredActors(after)| == |DiscoveredActors(db)| + Has(rows.discovery) - Has(RowsOf(db, actor).discovery)
            && |ObservedActors(after)| == |ObservedActors(db)| + Has(rows.observation) - Has(RowsOf(db, actor).observation)
  {
    var after := Commit(db, actor, rows);
    OneChanged(RelayActors(db), RelayActors(after), actor);
    OneChanged(DiscoveredActors(db), DiscoveredActors(after), actor);
    OneChanged(ObservedActors(db), ObservedActors(after), actor);
  }

  function Has<T>(row: Option<T>): int { if row.Some? then 1 else 0 }

  function OthersEvents(db: Database, actor: string): set<(string, int)> {
    set e | e in RetainedEvents(db) && e.0 != actor
  }

  lemma EventsSplit(db: Database, actor: string)
    ensures |RetainedEvents(db)| == |OthersEvents(db, actor)| + |RowsOf(db, actor).relayEvents|
  {
    var own := EventsOf(actor, |RowsOf(db, actor).relayEvents|);
    EventsOfSize(actor, |RowsOf(db, actor).relayEvents|);
    assert RetainedEvents(db) == OthersEvents(db, actor) + own;
    assert OthersEvents(db, actor) !! own;
  }

  lemma EventCount(db: Database, actor: string, rows: Rows)
    ensures |RetainedEvents(Commit(db, actor, rows))| == |RetainedEvents(db)| + |rows.relayEvents| - |RowsOf(db, actor).relayEvents|
  {
    var after := Commit(db, actor, rows);
    EventsSplit(db, actor);
    EventsSplit(after, actor);
    assert OthersEvents(db, actor) == OthersEvents(after, actor);
  }

  lemma OneConserves(db: Database, t: Target, cutoff: int)
    ensures Conserves(db, Execute(db, Command(t.actor, OpPurge(t.candidate, cutoff))), OneTotals(RowsOf(db, t.actor), t, cutoff))
  {
    hide Purge, RelayActors, DiscoveredActors, ObservedActors, RetainedEvents, Commit;
    var r := RowsOf(db, t.actor);
    var reply := Purge(r, t.candidate, cutoff);
    PurgeShape(r, t, cutoff);
    OwnersCount(db, t.actor, reply.rows);
    EventCount(db, t.actor, reply.rows);
  }

  /** The totals a batch reports are exactly the rows and events it removed. */
  lemma {:induction false} BatchConserves(db: Database, targets: seq<Target>, cutoff: int)
    ensures Conserves(db, AfterBatch(db, targets, cutoff), BatchTotals(db, targets, cutoff))
    decreases |targets|
  {
    hide Execute, OneTotals, Purge, RelayActors, DiscoveredActors, ObservedActors, RetainedEvents;
    if targets == [] {
      assert AfterBatch(db, targets, cutoff) == db;
    } else {
      var front, t := targets[..|targets| - 1], targets[|targets| - 1];
      BatchConserves(db, front, cutoff);
      BatchStep(db, front, t, cutoff);
      assert front + [t] == targets;
      OneConserves(AfterBatch(db, front, cutoff), t, cutoff);
    }
  }

  // ---- undisturbed batches ----

  function TargetAt(db: Database, k: Key): Target
    requires CandidateAt(db, k).Some?
  {
    Target(k.text, CandidateAt(db, k).value)
  }

  function TargetsAt(db: Database, keys: seq<Key>): (targets: seq<Target>)
    requires forall i :: 0 <= i < |keys| ==> CandidateAt(db, keys[i]).Some?
    ensures |targets| == |keys|
  {
    seq(|keys|, i requires 0 <= i < |keys| => TargetAt(db, keys[i]))
  }

  /** Positions present: one per actor and source with a candidate old enough. */
  lemma KeyIff(db: Database, cutoff: int, k: Key)
    ensures k in TargetKeys(db, cutoff) <==>
              && k.text in db.rows && (k.kind == 0 || k.kind == 1)
              && IsTarget(db.rows[k.text], KindOf(k.kind), cutoff)
              && k.rank == CandidateAt(db, k).value.inactive
  {
    hide ReadCandidate;
    if k in SourceKeys(db, PurgeLifecycle, cutoff) {}
    if k in SourceKeys(db, PurgeDiscovery, cutoff) {}
    if k.text in db.rows && k == Key(k.rank, k.text, k.kind) && IsTarget(db.rows[k.text], KindOf(k.kind), cutoff) &&
       (k.kind == 0 || k.kind == 1) && k.rank == CandidateAt(db, k).value.inactive {
      assert k in SourceKeys(db, KindOf(k.kind), cutoff);
    }
  }

  lemma PurgeOneSource(r: Rows, kind: PurgeKind, cutoff: int)
    requires IsTarget(r, kind, cutoff)
    ensures var reply := Purge(r, ReadCandidate(r, kind).value, cutoff);
            && reply.outcome == Purged && ReadCandidate(reply.rows, kind).None?
            && forall other :: other != kind ==> ReadCandidate(reply.rows, other) == ReadCandidate(r, other)
  {
    hide LatestId;
    CandidateKind(r, kind);
    MatchesIff(r, r, ReadCandidate(r, kind).value, cutoff);
  }

  /** Purging a fresh candidate removes its position and no other. */
  lemma PurgeOne(db: Database, k: Key, cutoff: int)
    requires k in TargetKeys(db, cutoff) && CandidateAt(db, k).Some?
    ensures var t := TargetAt(db, k); var after := Execute(db, Command(k.text, OpPurge(t.candidate, cutoff)));
            && OneTotals(RowsOf(db, k.text), t, cutoff).skipped == 0
            && TargetKeys(after, cutoff) == TargetKeys(db, cutoff) - {k}
            && forall other :: other in TargetKeys(after, cutoff) ==> CandidateAt(after, other) == CandidateAt(db, other)
  {
    hide Purge, ReadCandidate, TargetKeys;
    var kind := KindOf(k.kind);
    KeyIff(db, cutoff, k);
    PurgeOneSource(RowsOf(db, k.text), kind, cutoff);
    var after := Execute(db, Command(k.text, OpPurge(TargetAt(db, k).candidate, cutoff)));
    forall other: Key
      ensures other in TargetKeys(after, cutoff) <==> other in TargetKeys(db, cutoff) - {k}
      ensures other in TargetKeys(after, cutoff) ==> CandidateAt(after, other) == CandidateAt(db, other)
    {
      KeyIff(db, cutoff, other);
      KeyIff(after, cutoff, other);
      if other.text == k.text && KindOf(other.kind) != kind {
        assert CandidateAt(after, other) == CandidateAt(db, other);
      }
    }
  }

  lemma KeysHaveCandidates(db: Database, cutoff: int, keys: seq<Key>)
    requires SetOf(keys) <= TargetKeys(db, cutoff)
    ensures forall i :: 0 <= i < |keys| ==> CandidateAt(db, keys[i]).Some?
  {
    hide TargetKeys, CandidateAt;
    forall i | 0 <= i < |keys|
      ensures CandidateAt(db, keys[i]).Some?
    {
      assert keys[i] in SetOf(keys);
      TargetHasCandidate(db, cutoff, keys[i]);
    }
  }

  /** With no interleaved writer a batch read from the store skips nothing and removes exactly
      the positions of its page. */
  lemma {:induction false} QuietBatch(db: Database, keys: seq<Key>, cutoff: int)
    requires Ordered(true, keys) && SetOf(keys) <= TargetKeys(db, cutoff)
    requires forall i :: 0 <= i < |keys| ==> CandidateAt(db, keys[i]).Some?
    ensures var after := AfterBatch(db, TargetsAt(db, keys), cutoff);
            && BatchTotals(db, TargetsAt(db, keys), cutoff).skipped == 0
            && TargetKeys(after, cutoff) == TargetKeys(db, cutoff) - SetOf(keys)
            && forall k :: k in TargetKeys(after, cutoff) ==> CandidateAt(after, k) == CandidateAt(db, k)
    decreases |keys|
  {
    hide TargetKeys, CandidateAt, Execute, OneTotals, Precedes;
    if keys == [] {
      assert TargetsAt(db, keys) == [] && AfterBatch(db, [], cutoff) == db;
    } else {
      var n := |keys| - 1;
      var front, k := keys[..n], keys[n];
      var before := AfterBatch(db, TargetsAt(db, front), cutoff);
      assert TargetsAt(db, keys) == TargetsAt(db, front) + [TargetAt(db, k)];
      HeadTail(true, keys, n);
      assert keys[..n + 1] == keys;
      LastIsNew(keys);
      QuietBatch(db, front, cutoff);
      BatchStep(db, TargetsAt(db, front), TargetAt(db, k), cutoff);
      PurgeOne(before, k, cutoff);
    }
  }

  lemma LastIsNew(keys: seq<Key>)
    requires Ordered(true, keys) && keys != []
    ensures keys[|keys| - 1] in SetOf(keys) && keys[|keys| - 1] !in SetOf(keys[..|keys| - 1])
  {
    hide Precedes;
    var k := keys[|keys| - 1];
    forall i | 0 <= i < |keys| - 1
      ensures keys[i] != k
    {
      PrecedesTotal(true, keys[i], k);
    }
  }
}
