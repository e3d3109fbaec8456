/** Profile history over whole runs: any sequence of source replacements and identity deletions
    from the empty store of one actor. */
module ProfileRuns {
  import opened Keyset
  import opened Profile

  /** A source replacement, or the deletion of the actor's last identity by retention. */
  datatype ProfileOp = OpReplace(retained: bool, intent: Intent, at: int) | OpIdentityDelete

  const EMPTY_CONTENTS := Contents(map[], [])

  function Apply(c: Contents, op: ProfileOp): Contents {
    match op
    case OpReplace(retained, intent, at) => Replace(c, retained, intent, at).0
    case OpIdentityDelete => Contents(map[], c.events)
  }

  function After(ops: seq<ProfileOp>): Contents {
    if ops == [] then EMPTY_CONTENTS else Apply(After(ops[..|ops| - 1]), ops[|ops| - 1])
  }

  /** The k-th operation logged an event of the slot. */
  predicate Writes(ops: seq<ProfileOp>, slot: Slot, k: nat)
    requires k < |ops|
  {
    CountOf(After(ops[..k + 1]).events, slot) > CountOf(After(ops[..k]).events, slot)
  }

  /** The event it logged is a set. */
  predicate Sets(ops: seq<ProfileOp>, slot: Slot, k: nat)
    requires k < |ops|
  {
    Writes(ops, slot, k) && Fold(After(ops[..k + 1]).events, slot).Some?
  }

  /** The slot's last event is a set, and an identity deletion came after it. */
  predicate DeletedAfterLastSet(ops: seq<ProfileOp>, slot: Slot) {
    exists s, d :: 0 <= s < d < |ops| && Sets(ops, slot, s) && ops[d].OpIdentityDelete? &&
                   forall k :: s < k < |ops| ==> !Writes(ops, slot, k)
  }

  // ---- one operation ----

  lemma ApplyAppends(c: Contents, op: ProfileOp)
    ensures c.events <= Apply(c, op).events
  {
    hide Oversized, Mismatch, LatestAt, AllAssert, Untouched, ReplaceFirst;
    match op
    case OpIdentityDelete =>
    case OpReplace(_, intent, at) => ReplaceEffect(c, intent, at, |FIELDS|);
  }

  lemma {:induction false} CountGrows(a: seq<ProfileEvent>, b: seq<ProfileEvent>, slot: Slot)
    requires a <= b
    ensures CountOf(a, slot) <= CountOf(b, slot)
    ensures CountOf(a, slot) == CountOf(b, slot) ==> Fold(a, slot) == Fold(b, slot)
    decreases |b|
  {
    if a != b { CountGrows(a, b[..|b| - 1], slot); }
  }

  /** Logged events alone end a purge exactly for the slots they write. */
  lemma {:induction false} PurgedAppend(history: seq<Entry>, more: seq<Entry>, slot: Slot)
    requires IdentityPurged !in more
    ensures EventsOf(history) <= EventsOf(history + more)
    ensures PurgedSince(history + more, slot) <==>
              PurgedSince(history, slot) && CountOf(EventsOf(history + more), slot) == CountOf(EventsOf(history), slot)
    decreases |more|
  {
    hide Fold;
    if more == [] {
      assert history + more == history;
    } else {
      var front, last := more[..|more| - 1], more[|more| - 1];
      assert last in more;
      PurgedAppend(history, front, slot);
      assert history + more == history + front + [last];
      HistoryAppended(history + front, last.event, slot);
      var events := EventsOf(history + front);
      assert (events + [last.event])[..|events|] == events;
      CountGrows(EventsOf(history), events, slot);
    }
  }

  lemma ApplyKeeps(c: Contents, history: seq<Entry>, op: ProfileOp, slot: Slot) returns (after: seq<Entry>)
    requires ProfileOk(c, history)
    ensures ProfileOk(Apply(c, op), after)
    ensures PurgedSince(after, slot) <==>
              op.OpIdentityDelete? || (PurgedSince(history, slot) && CountOf(Apply(c, op).events, slot) == CountOf(c.events, slot))
  {
    hide EventsOk, Fold, CountOf, Oversized, Mismatch, LatestAt, ReplaceFirst;
    match op {
      case OpIdentityDelete =>
        PurgeKeeps(c, history);
        after := history + [IdentityPurged];
      case OpReplace(retained, intent, at) =>
        if Replace(c, retained, intent, at).1.Refused? {
          after := history;
        } else {
          var more := ReplaceFirstKeeps(c, history, intent, at, |FIELDS|);
          after := history + more;
          PurgedAppend(history, more, slot);
        }
    }
  }

  // ---- runs ----

  /** Whether the slot's last write or identity deletion is a deletion. */
  predicate DeletedSince(ops: seq<ProfileOp>, slot: Slot) {
    ops != [] &&
    (ops[|ops| - 1].OpIdentityDelete? ||
     (!Writes(ops, slot, |ops| - 1) && DeletedSince(ops[..|ops| - 1], slot)))
  }

  lemma {:induction false} RunKeeps(ops: seq<ProfileOp>, slot: Slot) returns (history: seq<Entry>)
    ensures ProfileOk(After(ops), history) && (PurgedSince(history, slot) <==> DeletedSince(ops, slot))
    decreases |ops|
  {
    hide ProfileOk, Apply, CountOf;
    if ops == [] {
      history := [];
      EmptyOk();
    } else {
      var front, op := ops[..|ops| - 1], ops[|ops| - 1];
      var before := RunKeeps(front, slot);
      history := ApplyKeeps(After(front), before, op, slot);
      assert ops[..|ops|] == ops;
      LaterEvents(front, op, slot);
    }
  }

  lemma EmptyOk()
    ensures ProfileOk(EMPTY_CONTENTS, [])
  {
  }

  lemma LaterEvents(front: seq<ProfileOp>, op: ProfileOp, slot: Slot)
    ensures CountOf(After(front).events, slot) <= CountOf(Apply(After(front), op).events, slot)
    ensures CountOf(After(front).events, slot) == CountOf(Apply(After(front), op).events, slot) ==>
              Fold(After(front).events, slot) == Fold(Apply(After(front), op).events, slot)
  {
    hide Apply, CountOf, Fold;
    ApplyAppends(After(front), op);
    CountGrows(After(front).events, Apply(After(front), op).events, slot);
  }

  /** An operation that writes nothing leaves the fold. */
  lemma UnwrittenStep(ops: seq<ProfileOp>, slot: Slot, k: nat)
    requires k < |ops|
    ensures !Writes(ops, slot, k) ==> Fold(After(ops[..k + 1]).events, slot) == Fold(After(ops[..k]).events, slot)
    ensures ops[k].OpIdentityDelete? ==> !Writes(ops, slot, k)
  {
    hide CountOf, Fold;
    assert ops[..k + 1][..k] == ops[..k] && ops[..k + 1][k] == ops[k];
    LaterEvents(ops[..k], ops[k], slot);
  }

  lemma {:induction false} UnwrittenSince(ops: seq<ProfileOp>, slot: Slot, s: nat, n: nat)
    requires s <= n <= |ops| && forall k :: s <= k < n ==> !Writes(ops, slot, k)
    ensures Fold(After(ops[..n]).events, slot) == Fold(After(ops[..s]).events, slot)
    decreases n
  {
    hide Writes, Fold, After;
    if s < n {
      UnwrittenSince(ops, slot, s, n - 1);
      UnwrittenStep(ops, slot, n - 1);
    }
  }

  /** A slot whose fold has a value was set by an operation after which nothing wrote it. */
  lemma {:induction false} LastSet(ops: seq<ProfileOp>, slot: Slot, n: nat) returns (s: nat)
    requires n <= |ops| && Fold(After(ops[..n]).events, slot).Some?
    ensures s < n && Sets(ops, slot, s) && forall k :: s < k < n ==> !Writes(ops, slot, k)
    decreases n
  {
    hide Writes, Fold;
    NothingFolds(slot);
    assert ops[..0] == [];
    UnwrittenStep(ops, slot, n - 1);
    if Writes(ops, slot, n - 1) { s := n - 1; } else { s := LastSet(ops, slot, n - 1); }
  }

  lemma NothingFolds(slot: Slot)
    ensures Fold([], slot) == None
  {
  }

  lemma WritesPrefix(ops: seq<ProfileOp>, slot: Slot, n: nat, k: nat)
    requires k < n <= |ops|
    ensures Writes(ops[..n], slot, k) == Writes(ops, slot, k)
  {
    hide CountOf, After;
    assert ops[..n][..k + 1] == ops[..k + 1] && ops[..n][..k] == ops[..k];
  }

  lemma {:induction false} DeletedSinceIff(ops: seq<ProfileOp>, slot: Slot)
    ensures DeletedSince(ops, slot) <==>
              exists d :: 0 <= d < |ops| && ops[d].OpIdentityDelete? && forall k :: d < k < |ops| ==> !Writes(ops, slot, k)
    decreases |ops|
  {
    hide Writes;
    if ops != [] {
      var n := |ops| - 1;
      var front := ops[..n];
      DeletedSinceIff(front, slot);
      forall k | 0 <= k < n
        ensures Writes(front, slot, k) == Writes(ops, slot, k)
      {
        WritesPrefix(ops, slot, n, k);
      }
      if DeletedSince(ops, slot) && !ops[n].OpIdentityDelete? {
        var d :| 0 <= d < n && front[d].OpIdentityDelete? && forall k :: d < k < n ==> !Writes(front, slot, k);
        assert ops[d].OpIdentityDelete?;
      }
      if d :| 0 <= d < n && ops[d].OpIdentityDelete? && forall k :: d < k < |ops| ==> !Writes(ops, slot, k) {
        assert front[d].OpIdentityDelete?;
      }
    }
  }

  lemma {:induction false} DeletedAfterLastSetIff(ops: seq<ProfileOp>, slot: Slot)
    ensures DeletedAfterLastSet(ops, slot) <==> DeletedSince(ops, slot) && Fold(After(ops).events, slot).Some?
  {
    hide Writes, Fold, DeletedSince, After;
    DeletedSinceIff(ops, slot);
    assert ops[..|ops|] == ops;
    if DeletedAfterLastSet(ops, slot) {
      var s, d :| 0 <= s < d < |ops| && Sets(ops, slot, s) && ops[d].OpIdentityDelete? &&
                  forall k :: s < k < |ops| ==> !Writes(ops, slot, k);
      UnwrittenSince(ops, slot, s + 1, |ops|);
    }
    if DeletedSince(ops, slot) && Fold(After(ops).events, slot).Some? {
      var d :| 0 <= d < |ops| && ops[d].OpIdentityDelete? && forall k :: d < k < |ops| ==> !Writes(ops, slot, k);
      var s := LastSet(ops, slot, |ops|);
      UnwrittenStep(ops, slot, d);
      assert s < d;
    }
  }

  /** Over every run a current value is the fold of its slot's events if and only if no
      identity deletion came after the slot's last set. */
  lemma {:induction false} ValueIsFold(ops: seq<ProfileOp>, slot: Slot)
    ensures Lookup(After(ops).values, slot) == Fold(After(ops).events, slot) <==> !DeletedAfterLastSet(ops, slot)
    ensures DeletedAfterLastSet(ops, slot) ==> Lookup(After(ops).values, slot) == None
  {
    hide Fold, PurgedSince, DeletedSince, DeletedAfterLastSet, After, EventsOk;
    var history := RunKeeps(ops, slot);
    DeletedAfterLastSetIff(ops, slot);
    assert Lookup(After(ops).values, slot) == if PurgedSince(history, slot) then None else Fold(After(ops).events, slot);
  }

  /** A run of replacements alone always leaves every value the fold of its events. */
  lemma {:induction false} ReplacementsFold(ops: seq<ProfileOp>, slot: Slot)
    requires forall i :: 0 <= i < |ops| ==> ops[i].OpReplace?
    ensures Lookup(After(ops).values, slot) == Fold(After(ops).events, slot)
  {
    hide Fold, After, Writes;
    ValueIsFold(ops, slot);
  }

  /** In every run each slot's revisions are 1 to n without gap or restart, also across
      clears and deletions, each source's times never run back, and the next replacement of
      the source meets no revision mismatch. */
  lemma {:induction false} RunRevisions(ops: seq<ProfileOp>, source: Source)
    ensures EventsOk(After(ops).events) && !Mismatch(After(ops), source)
  {
    hide EventsOk, After, Mismatch, Fold;
    var history := RunKeeps(ops, Slot(source, Notes));
    NeverMismatched(After(ops), history, source);
  }

  /** They do come apart: one imported note, then the deletion of the actor's last identity. */
  lemma {:induction false} ValueCanBeLost()
    ensures var slot := Slot(Csv, Notes);
            var ops := [OpReplace(true, Intent(Csv, "list", "", map[Notes := "note"]), 0), OpIdentityDelete];
            && DeletedAfterLastSet(ops, slot) && Lookup(After(ops).values, slot) == None
            && var fold := Fold(After(ops).events, slot); fold.Some? && fold.value.value == "note"
  {
    hide ReplaceFirst, Fold, Writes, DeletedAfterLastSet, AllAssert, Untouched;
    var slot := Slot(Csv, Notes);
    var intent := Intent(Csv, "list", "", map[Notes := "note"]);
    var imported := OpReplace(true, intent, 0);
    var ops := [imported, OpIdentityDelete];
    assert ops[..1] == [imported] && [imported][..0] == [];
    ReplacementMeaning(EMPTY_CONTENTS, true, intent, 0);
    assert After([imported]) == Replace(EMPTY_CONTENTS, true, intent, 0).0;
    assert AssertsField(After([imported]), intent, Notes);
    ReplacementsFold([imported], slot);
    assert After(ops) == Contents(map[], After([imported]).events);
    ValueIsFold(ops, slot);
  }
}
