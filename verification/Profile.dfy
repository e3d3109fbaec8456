/** Source-scoped descriptive profiles of one actor: current assertions, their append-only
    history, and the effective value of each field. */
module Profile {
  import opened Keyset

  datatype Source = Csv | Relay | Override

  datatype Field = ParticipationMode | Availability | RelayType | Languages | Countries | Regions | Topics
                 | ContactFediverse | ContactEmail | ContactUrl | ParticipationUrl | Notes

  const FIELDS: seq<Field> :=
    [ParticipationMode, Availability, RelayType, Languages, Countries, Regions, Topics,
     ContactFediverse, ContactEmail, ContactUrl, ParticipationUrl, Notes]

  const MAXIMUM_VALUE_BYTES := 4096

  function Priority(source: Source): int {
    match source
    case Override => 3
    case Relay => 2
    case Csv => 1
  }

  datatype Slot = Slot(source: Source, field: Field)

  datatype ValueRow = ValueRow(value: string, sourceLabel: string, sourceUrl: string, accepted: int, revision: int)

  /** An append-only event; no value is a clear. */
  datatype ProfileEvent = ProfileEvent(slot: Slot, value: Option<string>, sourceLabel: string, sourceUrl: string, revision: int, at: int)

  datatype Contents = Contents(values: map<Slot, ValueRow>, events: seq<ProfileEvent>)

  function Lookup(values: map<Slot, ValueRow>, slot: Slot): Option<ValueRow> {
    if slot in values then Some(values[slot]) else None
  }

  /** MAX(revision) of one slot's history, zero when it has none. */
  function LatestRevision(events: seq<ProfileEvent>, slot: Slot): int {
    if events == [] then 0
    else
      var last, before := events[|events| - 1], LatestRevision(events[..|events| - 1], slot);
      if last.slot == slot && last.revision > before then last.revision else before
  }

  /** MAX(recorded time) of one source's history. */
  function LatestAt(events: seq<ProfileEvent>, source: Source): int {
    if events == [] then -1
    else
      var last, before := events[|events| - 1], LatestAt(events[..|events| - 1], source);
      if last.slot.source == source && last.at > before then last.at else before
  }

  // ---- replacing one source ----

  /** One source's complete assertion set, already normalized and encoded field by field. */
  datatype Intent = Intent(source: Source, sourceLabel: string, sourceUrl: string, fields: map<Field, string>)

  datatype Change = FieldCreated | FieldUpdated | FieldCleared | FieldUnchanged

  datatype Summary = Summary(created: nat, updated: nat, cleared: nat, same: nat)

  const NO_CHANGES := Summary(0, 0, 0, 0)

  function Tallied(s: Summary, change: Change): Summary {
    match change
    case FieldCreated => s.(created := s.created + 1)
    case FieldUpdated => s.(updated := s.updated + 1)
    case FieldCleared => s.(cleared := s.cleared + 1)
    case FieldUnchanged => s.(same := s.same + 1)
  }

  predicate Asserts(row: ValueRow, value: string, intent: Intent) {
    row.value == value && row.sourceLabel == intent.sourceLabel && row.sourceUrl == intent.sourceUrl
  }

  function ReplaceField(c: Contents, intent: Intent, field: Field, at: int): (Contents, Change) {
    var slot := Slot(intent.source, field);
    var revision := LatestRevision(c.events, slot) + 1;
    if field !in intent.fields then
      if slot !in c.values then (c, FieldUnchanged)
      else (Contents(c.values - {slot},
                     c.events + [ProfileEvent(slot, None, intent.sourceLabel, intent.sourceUrl, revision, at)]), FieldCleared)
    else
      var value := intent.fields[field];
      if slot in c.values && Asserts(c.values[slot], value, intent) then (c, FieldUnchanged)
      else (Contents(c.values[slot := ValueRow(value, intent.sourceLabel, intent.sourceUrl, at, revision)],
                     c.events + [ProfileEvent(slot, Some(value), intent.sourceLabel, intent.sourceUrl, revision, at)]),
            if slot in c.values then FieldUpdated else FieldCreated)
  }

  function ReplaceFirst(c: Contents, intent: Intent, at: int, n: nat): (Contents, Summary)
    requires n <= |FIELDS|
  {
    if n == 0 then (c, NO_CHANGES)
    else
      var (before, summary) := ReplaceFirst(c, intent, at, n - 1);
      var (after, change) := ReplaceField(before, intent, FIELDS[n - 1], at);
      (after, Tallied(summary, change))
  }

  datatype Error = ProfileTime | ProfileAbsent | ProfileInput | StorageFailure

  datatype Reply = Replaced(summary: Summary) | Refused(error: Error)

  predicate Oversized(intent: Intent) {
    exists field :: field in intent.fields && |intent.fields[field]| > MAXIMUM_VALUE_BYTES
  }

  // ---- history ----

  /** What happened to an actor's profile: an event, or the deletion of its last identity. */
  datatype Entry = Logged(event: ProfileEvent) | IdentityPurged

  function EventsOf(history: seq<Entry>): seq<ProfileEvent> {
    if history == [] then []
    else
      var last := history[|history| - 1];
      EventsOf(history[..|history| - 1]) + (if last.Logged? then [last.event] else [])
  }

  function RowOf(e: ProfileEvent): Option<ValueRow> {
    if e.value.None? then None else Some(ValueRow(e.value.value, e.sourceLabel, e.sourceUrl, e.at, e.revision))
  }

  /** The fold of one slot's events alone. */
  function Fold(events: seq<ProfileEvent>, slot: Slot): Option<ValueRow> {
    if events == [] then None
    else
      var last := events[|events| - 1];
      if last.slot == slot then RowOf(last) else Fold(events[..|events| - 1], slot)
  }

  /** Whether the last identity was deleted after the slot's last event. */
  predicate PurgedSince(history: seq<Entry>, slot: Slot) {
    history != [] &&
    var last := history[|history| - 1];
    last.IdentityPurged? || (last.event.slot != slot && PurgedSince(history[..|history| - 1], slot))
  }

  function CountOf(events: seq<ProfileEvent>, slot: Slot): nat {
    if events == [] then 0
    else CountOf(events[..|events| - 1], slot) + (if events[|events| - 1].slot == slot then 1 else 0)
  }

  /** Each slot's revisions are 1, 2, 3 and so on, and each source's times never run back. */
  predicate EventsOk(events: seq<ProfileEvent>) {
    && (forall i :: 0 <= i < |events| ==> events[i].revision == CountOf(events[..i], events[i].slot) + 1 && events[i].at >= 0)
    && (forall i, j :: 0 <= i < j < |events| && events[i].slot.source == events[j].slot.source ==> events[i].at <= events[j].at)
  }

  /** The store is its history: every current value is the fold of its slot's events, unless
      the last identity was deleted since. */
  ghost predicate ProfileOk(c: Contents, history: seq<Entry>) {
    && c.events == EventsOf(history) && EventsOk(c.events)
    && forall slot: Slot :: Lookup(c.values, slot) == if PurgedSince(history, slot) then None else Fold(c.events, slot)
  }

  lemma {:induction false} RevisionIsCount(events: seq<ProfileEvent>, slot: Slot)
    requires EventsOk(events)
    ensures LatestRevision(events, slot) == CountOf(events, slot)
    ensures Fold(events, slot).Some? ==> Fold(events, slot).value.revision == CountOf(events, slot)
  {
    if events != [] {
      var front := events[..|events| - 1];
      EventsFront(events);
      RevisionIsCount(front, slot);
      assert events[..|events| - 1] == front;
    }
  }

  lemma EventsFront(events: seq<ProfileEvent>)
    requires EventsOk(events) && events != []
    ensures EventsOk(events[..|events| - 1])
  {
    var front := events[..|events| - 1];
    forall i | 0 <= i < |front|
      ensures front[i].revision == CountOf(front[..i], front[i].slot) + 1
    {
      assert front[..i] == events[..i];
    }
  }

  lemma {:induction false} LatestAtBounds(events: seq<ProfileEvent>, source: Source)
    ensures forall i :: 0 <= i < |events| && events[i].slot.source == source ==> events[i].at <= LatestAt(events, source)
  {
    if events != [] {
      var front := events[..|events| - 1];
      LatestAtBounds(front, source);
      forall i | 0 <= i < |events| && events[i].slot.source == source
        ensures events[i].at <= LatestAt(events, source)
      {
        if i < |front| { assert front[i] == events[i]; }
      }
    }
  }

  lemma TimesAppended(events: seq<ProfileEvent>, e: ProfileEvent)
    requires EventsOk(events) && LatestAt(events, e.slot.source) <= e.at
    ensures var all := events + [e];
            forall i, j :: 0 <= i < j < |all| && all[i].slot.source == all[j].slot.source ==> all[i].at <= all[j].at
    ensures LatestAt(events + [e], e.slot.source) == e.at
  {
    hide CountOf;
    LatestAtBounds(events, e.slot.source);
    assert (events + [e])[..|events|] == events;
  }

  lemma EventAppended(events: seq<ProfileEvent>, e: ProfileEvent)
    requires EventsOk(events) && e.revision == LatestRevision(events, e.slot) + 1
    requires e.at >= 0 && LatestAt(events, e.slot.source) <= e.at
    ensures EventsOk(events + [e]) && LatestAt(events + [e], e.slot.source) == e.at
  {
    hide CountOf, LatestRevision, LatestAt;
    var all, n := events + [e], |events|;
    RevisionIsCount(events, e.slot);
    TimesAppended(events, e);
    assert all[..n] == events && all[n] == e;
    forall i | 0 <= i < |all|
      ensures all[i].revision == CountOf(all[..i], all[i].slot) + 1 && all[i].at >= 0
    {
      if i < n { assert all[..i] == events[..i] && all[i] == events[i]; }
    }
  }

  lemma HistoryAppended(history: seq<Entry>, e: ProfileEvent, slot: Slot)
    ensures EventsOf(history + [Logged(e)]) == EventsOf(history) + [e]
    ensures PurgedSince(history + [Logged(e)], slot) == (e.slot != slot && PurgedSince(history, slot))
    ensures Fold(EventsOf(history) + [e], slot) == if e.slot == slot then RowOf(e) else Fold(EventsOf(history), slot)
  {
    assert (history + [Logged(e)])[..|history|] == history;
    assert (EventsOf(history) + [e])[..|EventsOf(history)|] == EventsOf(history);
  }

  /** One field's replacement keeps the store and its history together. */
  lemma {:induction false} ReplaceFieldKeeps(c: Contents, history: seq<Entry>, intent: Intent, field: Field, at: int)
    returns (more: seq<Entry>)
    requires ProfileOk(c, history) && at >= 0 && LatestAt(c.events, intent.source) <= at
    ensures var (after, change) := ReplaceField(c, intent, field, at);
            && ProfileOk(after, history + more) && LatestAt(after.events, intent.source) <= at
            && (change == FieldUnchanged <==> after == c)
    ensures IdentityPurged !in more
  {
    hide EventsOk, Fold, PurgedSince, EventsOf, LatestRevision, LatestAt;
    var slot := Slot(intent.source, field);
    var (after, change) := ReplaceField(c, intent, field, at);
    if change == FieldUnchanged {
      more := [];
      assert history + [] == history;
    } else {
      var e := after.events[|c.events|];
      assert after.events == c.events + [e];
      more := [Logged(e)];
      EventAppended(c.events, e);
      forall other: Slot
        ensures Lookup(after.values, other) == if PurgedSince(history + more, other) then None else Fold(after.events, other)
      {
        HistoryAppended(history, e, other);
      }
      HistoryAppended(history, e, slot);
    }
  }

  lemma {:induction false} ReplaceFirstKeeps(c: Contents, history: seq<Entry>, intent: Intent, at: int, n: nat) returns (more: seq<Entry>)
    requires ProfileOk(c, history) && at >= 0 && LatestAt(c.events, intent.source) <= at && n <= |FIELDS|
    ensures ProfileOk(ReplaceFirst(c, intent, at, n).0, history + more)
    ensures LatestAt(ReplaceFirst(c, intent, at, n).0.events, intent.source) <= at && IdentityPurged !in more
    decreases n
  {
    hide ProfileOk, ReplaceField, LatestAt;
    if n == 0 {
      more := [];
      assert history + [] == history;
    } else {
      var first := ReplaceFirstKeeps(c, history, intent, at, n - 1);
      var next := ReplaceFieldKeeps(ReplaceFirst(c, intent, at, n - 1).0, history + first, intent, FIELDS[n - 1], at);
      more := first + next;
      assert history + first + next == history + more;
    }
  }

  lemma PurgeKeeps(c: Contents, history: seq<Entry>)
    requires ProfileOk(c, history)
    ensures ProfileOk(Contents(map[], c.events), history + [IdentityPurged])
  {
    hide EventsOk, Fold;
    assert (history + [IdentityPurged])[..|history|] == history;
  }

  // ---- what a replacement does ----

  predicate AssertsField(c: Contents, intent: Intent, field: Field) {
    var slot := Slot(intent.source, field);
    if field in intent.fields then slot in c.values && Asserts(c.values[slot], intent.fields[field], intent) else slot !in c.values
  }

  lemma FieldsDistinct(i: nat, j: nat)
    requires i < |FIELDS| && j < |FIELDS| && FIELDS[i] == FIELDS[j]
    ensures i == j
  {
  }

  lemma ReplaceFieldEffect(c: Contents, intent: Intent, field: Field, at: int)
    ensures var (after, change) := ReplaceField(c, intent, field, at);
            && AssertsField(after, intent, field)
            && (AssertsField(c, intent, field) <==> change == FieldUnchanged) && (change == FieldUnchanged ==> after == c)
            && (forall slot: Slot :: slot != Slot(intent.source, field) ==> Lookup(after.values, slot) == Lookup(c.values, slot))
            && |after.events| == |c.events| + (if change == FieldUnchanged then 0 else 1)
            && c.events <= after.events
  {
    hide LatestRevision;
  }

  /** The first n fields of the source are exactly what the intent says. */
  predicate AllAssert(c: Contents, intent: Intent, n: nat)
    requires n <= |FIELDS|
  {
    forall k :: 0 <= k < n ==> AssertsField(c, intent, FIELDS[k])
  }

  /** Every slot outside the first n fields of the source is as it was. */
  ghost predicate Untouched(c: Contents, after: Contents, intent: Intent, n: nat)
    requires n <= |FIELDS|
  {
    forall slot: Slot :: slot.source != intent.source || slot.field !in FIELDS[..n] ==>
      Lookup(after.values, slot) == Lookup(c.values, slot)
  }

  /** After its first n fields a replacement has made exactly those assert the intent, touched
      no other slot, and appended one event for each change. */
  lemma {:induction false} ReplaceEffect(c: Contents, intent: Intent, at: int, n: nat)
    requires n <= |FIELDS|
    ensures var (after, s) := ReplaceFirst(c, intent, at, n);
            && AllAssert(after, intent, n) && Untouched(c, after, intent, n)
            && s.created + s.updated + s.cleared + s.same == n
            && |after.events| == |c.events| + n - s.same && c.events <= after.events
            && (s.same == n <==> AllAssert(c, intent, n)) && (s.same == n ==> after == c)
  {
    hide ReplaceField, AllAssert, Untouched, AssertsField;
    if n == 0 {
      NoFields(c, intent);
    } else {
      var (before, s) := ReplaceFirst(c, intent, at, n - 1);
      var (after, change) := ReplaceField(before, intent, FIELDS[n - 1], at);
      ReplaceEffect(c, intent, at, n - 1);
      ReplaceFieldEffect(before, intent, FIELDS[n - 1], at);
      NextUntouched(c, before, after, intent, n);
      NextAsserts(c, before, after, intent, n);
    }
  }

  lemma NoFields(c: Contents, intent: Intent)
    ensures AllAssert(c, intent, 0) && Untouched(c, c, intent, 0)
  {
  }

  lemma FieldIsNew(n: nat)
    requires 0 < n <= |FIELDS|
    ensures FIELDS[n - 1] !in FIELDS[..n - 1] && FIELDS[..n] == FIELDS[..n - 1] + [FIELDS[n - 1]]
  {
    if FIELDS[n - 1] in FIELDS[..n - 1] {
      var k :| 0 <= k < n - 1 && FIELDS[..n - 1][k] == FIELDS[n - 1];
      FieldsDistinct(k, n - 1);
    }
  }

  lemma NextUntouched(c: Contents, before: Contents, after: Contents, intent: Intent, n: nat)
    requires 0 < n <= |FIELDS| && Untouched(c, before, intent, n - 1)
    requires forall slot: Slot :: slot != Slot(intent.source, FIELDS[n - 1]) ==> Lookup(after.values, slot) == Lookup(before.values, slot)
    ensures Untouched(c, after, intent, n)
    ensures AssertsField(before, intent, FIELDS[n - 1]) <==> AssertsField(c, intent, FIELDS[n - 1])
  {
    hide Asserts, Lookup, AssertsField;
    FieldIsNew(n);
    SameLookup(c, before, intent, FIELDS[n - 1]);
  }

  lemma NextAsserts(c: Contents, before: Contents, after: Contents, intent: Intent, n: nat)
    requires 0 < n <= |FIELDS|
    requires forall slot: Slot :: slot != Slot(intent.source, FIELDS[n - 1]) ==> Lookup(after.values, slot) == Lookup(before.values, slot)
    ensures AllAssert(after, intent, n) <==> AllAssert(before, intent, n - 1) && AssertsField(after, intent, FIELDS[n - 1])
    ensures AllAssert(c, intent, n) <==> AllAssert(c, intent, n - 1) && AssertsField(c, intent, FIELDS[n - 1])
  {
    hide Asserts, Lookup, AssertsField;
    forall k | 0 <= k < n - 1
      ensures AssertsField(after, intent, FIELDS[k]) <==> AssertsField(before, intent, FIELDS[k])
    {
      if FIELDS[k] == FIELDS[n - 1] { FieldsDistinct(k, n - 1); }
      SameLookup(before, after, intent, FIELDS[k]);
    }
  }

  lemma SameLookup(a: Contents, b: Contents, intent: Intent, field: Field)
    requires Lookup(a.values, Slot(intent.source, field)) == Lookup(b.values, Slot(intent.source, field))
    ensures AssertsField(a, intent, field) <==> AssertsField(b, intent, field)
  {
    hide Asserts;
  }

  // ---- the transaction ----

  /** A current value whose revision is not the last of its history. */
  predicate Mismatch(c: Contents, source: Source) {
    exists slot :: slot in c.values && slot.source == source && LatestRevision(c.events, slot) != c.values[slot].revision
  }

  function Replace(c: Contents, retained: bool, intent: Intent, at: int): (Contents, Reply) {
    if at < 0 then (c, Refused(ProfileTime))
    else if !retained then (c, Refused(ProfileAbsent))
    else if at < LatestAt(c.events, intent.source) then (c, Refused(ProfileTime))
    else if Mismatch(c, intent.source) then (c, Refused(StorageFailure))
    else if Oversized(intent) then (c, Refused(ProfileInput))
    else
      var (after, summary) := ReplaceFirst(c, intent, at, |FIELDS|);
      (after, Replaced(summary))
  }

  lemma NeverMismatched(c: Contents, history: seq<Entry>, source: Source)
    requires ProfileOk(c, history)
    ensures !Mismatch(c, source)
  {
    hide EventsOk, PurgedSince, Fold, LatestRevision;
    forall slot | slot in c.values
      ensures LatestRevision(c.events, slot) == c.values[slot].revision
    {
      assert Lookup(c.values, slot) == Fold(c.events, slot);
      RevisionIsCount(c.events, slot);
    }
  }

  lemma AllFields(field: Field)
    ensures field in FIELDS && FIELDS[..|FIELDS|] == FIELDS
  {
    var i := match field
      case ParticipationMode => 0 case Availability => 1 case RelayType => 2 case Languages => 3
      case Countries => 4 case Regions => 5 case Topics => 6 case ContactFediverse => 7
      case ContactEmail => 8 case ContactUrl => 9 case ParticipationUrl => 10 case Notes => 11;
    assert FIELDS[i] == field;
  }

  /** An accepted replacement makes the source assert exactly the intent, leaves every other
      source alone, accounts for all twelve fields, and appends one event per change. */
  lemma {:induction false} ReplacementMeaning(c: Contents, retained: bool, intent: Intent, at: int)
    requires Replace(c, retained, intent, at).1.Replaced?
    ensures var (after, reply) := Replace(c, retained, intent, at); var s := reply.summary;
            && (forall field :: AssertsField(after, intent, field))
            && (forall slot: Slot :: slot.source != intent.source ==> Lookup(after.values, slot) == Lookup(c.values, slot))
            && s.created + s.updated + s.cleared + s.same == |FIELDS|
            && |after.events| == |c.events| + s.created + s.updated + s.cleared && c.events <= after.events
  {
    hide AssertsField, Mismatch, Oversized, ReplaceFirst, LatestAt;
    ReplaceEffect(c, intent, at, |FIELDS|);
    var after := Replace(c, retained, intent, at).0;
    forall field: Field
      ensures AssertsField(after, intent, field)
    {
      AllFields(field);
    }
  }

  /** Repeating a replacement, then or later, is all unchanged and appends nothing. */
  lemma {:induction false} RepeatIsUnchanged(c: Contents, history: seq<Entry>, intent: Intent, at: int, later: int)
    requires ProfileOk(c, history) && Replace(c, true, intent, at).1.Replaced? && at <= later
    ensures var after := Replace(c, true, intent, at).0;
            Replace(after, true, intent, later) == (after, Replaced(Summary(0, 0, 0, |FIELDS|)))
  {
    hide AssertsField, Mismatch, Oversized, ProfileOk, AllAssert, Untouched, LatestAt, ReplaceFirst;
    var after := Replace(c, true, intent, at).0;
    var more := ReplaceFirstKeeps(c, history, intent, at, |FIELDS|);
    NeverMismatched(after, history + more, intent.source);
    ReplaceEffect(c, intent, at, |FIELDS|);
    ReplaceEffect(after, intent, later, |FIELDS|);
  }

  // ---- effective values ----

  /** The value of the best source that asserts the field. */
  function Best(values: map<Slot, ValueRow>, field: Field): Option<string> {
    if Slot(Override, field) in values then Some(values[Slot(Override, field)].value)
    else if Slot(Relay, field) in values then Some(values[Slot(Relay, field)].value)
    else if Slot(Csv, field) in values then Some(values[Slot(Csv, field)].value)
    else None
  }

  /** A stored row as the query for effective values returns it. */
  datatype Row = Row(slot: Slot, value: string)

  /** The query: every stored value once, each field's rows from the highest priority down. */
  predicate IsQuery(rows: seq<Row>, values: map<Slot, ValueRow>) {
    && (forall i :: 0 <= i < |rows| ==> rows[i].slot in values && rows[i].value == values[rows[i].slot].value)
    && (forall slot :: slot in values ==> exists i :: 0 <= i < |rows| && rows[i].slot == slot)
    && (forall i, j :: 0 <= i < j < |rows| && rows[i].slot.field == rows[j].slot.field ==>
          Priority(rows[i].slot.source) > Priority(rows[j].slot.source))
  }

  /** The first row of each field decides it. */
  method ReadEffective(rows: seq<Row>, ghost values: map<Slot, ValueRow>) returns (profile: map<Field, string>)
    requires IsQuery(rows, values)
    ensures forall field :: if field in profile then Best(values, field) == Some(profile[field]) else Best(values, field) == None
  {
    hide Priority, Best;
    profile := map[];
    var seen: set<Field> := {};
    var i := 0;
    while i < |rows|
      invariant 0 <= i <= |rows| && profile.Keys == seen
      invariant forall k :: 0 <= k < i ==> rows[k].slot.field in seen
      invariant forall field :: field in seen ==> exists k :: 0 <= k < i && FirstOf(rows, k, field) && profile[field] == rows[k].value
    {
      var row := rows[i];
      if row.slot.field !in seen {
        assert FirstOf(rows, i, row.slot.field);
        profile := profile[row.slot.field := row.value];
        seen := seen + {row.slot.field};
      }
      i := i + 1;
    }
    forall field: Field
      ensures if field in profile then Best(values, field) == Some(profile[field]) else Best(values, field) == None
    {
      if field in profile {
        var k :| 0 <= k < |rows| && FirstOf(rows, k, field) && profile[field] == rows[k].value;
        FirstIsBest(rows, values, k, field);
      } else {
        NoneIsBest(rows, values, field);
      }
    }
  }

  predicate FirstOf(rows: seq<Row>, k: nat, field: Field)
    requires k < |rows|
  {
    rows[k].slot.field == field && forall j :: 0 <= j < k ==> rows[j].slot.field != field
  }

  lemma FirstIsBest(rows: seq<Row>, values: map<Slot, ValueRow>, k: nat, field: Field)
    requires IsQuery(rows, values) && k < |rows| && FirstOf(rows, k, field)
    ensures Best(values, field) == Some(rows[k].value)
  {
    forall source: Source | Slot(source, field) in values
      ensures Priority(source) <= Priority(rows[k].slot.source)
    {
      var j :| 0 <= j < |rows| && rows[j].slot == Slot(source, field);
    }
    BestIsHighest(values, field, rows[k].slot.source);
  }

  lemma NoneIsBest(rows: seq<Row>, values: map<Slot, ValueRow>, field: Field)
    requires IsQuery(rows, values) && forall k :: 0 <= k < |rows| ==> rows[k].slot.field != field
    ensures Best(values, field) == None
  {
    forall slot | slot in values
      ensures slot.field != field
    {
      var j :| 0 <= j < |rows| && rows[j].slot == slot;
    }
  }

  /** The effective value is the one asserted by the highest-priority source that asserts any. */
  lemma {:induction false} BestIsHighest(values: map<Slot, ValueRow>, field: Field, source: Source)
    requires Slot(source, field) in values
    ensures (forall other :: Slot(other, field) in values ==> Priority(other) <= Priority(source)) ==>
              Best(values, field) == Some(values[Slot(source, field)].value)
    ensures Best(values, field).Some?
  {
    assert Slot(Override, field) in values ==> Priority(Override) == 3;
    assert Slot(Relay, field) in values ==> Priority(Relay) == 2;
  }

  // ---- the store ----

  class ProfileStore {
    var values: map<Slot, ValueRow>
    var events: seq<ProfileEvent>
    ghost var history: seq<Entry>

    constructor ()
      ensures Valid() && values == map[] && events == [] && history == []
    {
      values, events, history := map[], [], [];
    }

    ghost predicate Valid()
      reads this
    {
      ProfileOk(Contents(values, events), history)
    }

    /** One transaction over the twelve fields; any refusal leaves everything as it was. */
    method ReplaceProfileSource(retained: bool, intent: Intent, at: int) returns (reply: Reply)
      requires Valid()
      modifies this
      ensures Valid() && old(history) <= history && IdentityPurged !in history[|old(history)|..]
      ensures (Contents(values, events), reply) == Replace(old(Contents(values, events)), retained, intent, at)
    {
      hide ProfileOk, LatestAt, ReplaceField, Mismatch, Oversized;
      ghost var start := Contents(values, events);
      assert history[|history|..] == [];
      if at < 0 { return Refused(ProfileTime); }
      if !retained { return Refused(ProfileAbsent); }
      if at < LatestAt(events, intent.source) { return Refused(ProfileTime); }
      if Mismatch(Contents(values, events), intent.source) { return Refused(StorageFailure); }

      var current := Contents(values, events);
      var summary := NO_CHANGES;
      var i := 0;
      while i < |FIELDS|
        invariant 0 <= i <= |FIELDS| && values == old(values) && events == old(events) && history == old(history)
        invariant (current, summary) == ReplaceFirst(start, intent, at, i)
        invariant NoneOversized(intent, i)
      {
        var field := FIELDS[i];
        if field in intent.fields && |intent.fields[field]| > MAXIMUM_VALUE_BYTES {
          OneOversized(intent, field);
          return Refused(ProfileInput);
        }
        var change;
        current, change := WriteField(current, intent, field, at);
        match change {
          case FieldCreated => summary := summary.(created := summary.created + 1);
          case FieldUpdated => summary := summary.(updated := summary.updated + 1);
          case FieldCleared => summary := summary.(cleared := summary.cleared + 1);
          case FieldUnchanged => summary := summary.(same := summary.same + 1);
        }
        i := i + 1;
      }
      NotOversized(intent);
      ghost var more := ReplaceFirstKeeps(start, history, intent, at, |FIELDS|);
      values, events := current.values, current.events;
      history := history + more;
      assert history[|old(history)|..] == more;
      reply := Replaced(summary);
    }

    /** One field: clear, keep, or write with the next revision, and log what changed. */
    method WriteField(c: Contents, intent: Intent, field: Field, at: int) returns (after: Contents, change: Change)
      ensures (after, change) == ReplaceField(c, intent, field, at)
    {
      hide LatestRevision, Asserts;
      var slot := Slot(intent.source, field);
      var revision := LatestRevision(c.events, slot) + 1;
      if field !in intent.fields {
        if slot !in c.values { return c, FieldUnchanged; }
        var clear := ProfileEvent(slot, None, intent.sourceLabel, intent.sourceUrl, revision, at);
        return Contents(c.values - {slot}, c.events + [clear]), FieldCleared;
      }
      var value := intent.fields[field];
      if slot in c.values && Asserts(c.values[slot], value, intent) { return c, FieldUnchanged; }
      change := FieldCreated;
      if slot in c.values { change := FieldUpdated; }
      var row := ValueRow(value, intent.sourceLabel, intent.sourceUrl, at, revision);
      var written := ProfileEvent(slot, Some(value), intent.sourceLabel, intent.sourceUrl, revision, at);
      after := Contents(c.values[slot := row], c.events + [written]);
    }

    /** The actor's last lifecycle or discovery row was deleted: current values go, history stays. */
    method CleanUpAfterIdentityDelete()
      requires Valid()
      modifies this
      ensures Valid() && values == map[] && events == old(events) && history == old(history) + [IdentityPurged]
    {
      PurgeKeeps(Contents(values, events), history);
      values := map[];
      history := history + [IdentityPurged];
    }
  }

  predicate NoneOversized(intent: Intent, n: nat)
    requires n <= |FIELDS|
  {
    forall k :: 0 <= k < n && FIELDS[k] in intent.fields ==> |intent.fields[FIELDS[k]]| <= MAXIMUM_VALUE_BYTES
  }

  lemma OneOversized(intent: Intent, field: Field)
    requires field in intent.fields && |intent.fields[field]| > MAXIMUM_VALUE_BYTES
    ensures Oversized(intent)
  {
  }

  lemma NotOversized(intent: Intent)
    requires NoneOversized(intent, |FIELDS|)
    ensures !Oversized(intent)
  {
    forall field | field in intent.fields
      ensures |intent.fields[field]| <= MAXIMUM_VALUE_BYTES
    {
      AllFields(field);
    }
  }
}
