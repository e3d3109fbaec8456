/** Administrator mail of the growth guard: one persisted row schedules an alert for each state
    change and reminders after it, a delivery runs outside the lock, and a restart reloads the
    row. Times are Unix seconds. */
module GrowthAlerts {
  import opened Keyset
  import opened Growth

  const DAY := 86400

  datatype Kind = WarningAlert | CriticalAlert | HardAlert | RecoveredAlert

  function KindOf(state: State): Kind {
    match state
    case Normal => RecoveredAlert
    case Warning => WarningAlert
    case Critical => CriticalAlert
    case Hard => HardAlert
  }

  datatype Mail = Mail(kind: Kind, at: int)

  datatype Pending = Pending(kind: Kind, since: int, retryAfter: int, attempt: nat)

  /** The singleton row. */
  datatype Row = Row(state: State, sampled: int, physical: int, transition: int, last: Option<Mail>, pending: Option<Pending>)

  const MIGRATED := Row(Normal, 0, 0, 0, None, None)

  /** The checks of the table, and that a pending alert is about the state in force. */
  predicate RowOk(row: Row) {
    && row.sampled >= 0 && row.physical >= 0 && row.transition >= 0 && (row.last.Some? ==> row.last.value.at >= 0)
    && (row.pending.Some? ==>
          && row.pending.value.kind == KindOf(row.state) && row.pending.value.attempt <= 3
          && row.pending.value.since >= 0 && row.pending.value.retryAfter >= 0)
  }

  // ---- what one sample schedules ----

  function Fresh(state: State, now: int): Option<Pending> { Some(Pending(KindOf(state), now, now, 0)) }

  function Entered(row: Row, enabled: bool, now: int, state: State): Row {
    if state == row.state then row
    else row.(state := state, transition := now, pending := if enabled then Fresh(state, now) else None)
  }

  /** The state in force was never mailed, or its last mail is a reminder interval old. */
  predicate Unmailed(row: Row) { row.last.None? || row.last.value.kind != KindOf(row.state) }

  predicate ReminderDue(row: Row, reminder: int, now: int) { row.last.Some? && now - row.last.value.at >= reminder }

  function Scheduled(row: Row, enabled: bool, reminder: int, now: int, state: State, physical: int): Row {
    var entered := Entered(row, enabled, now, state);
    var pending :=
      if enabled && state != Normal && entered.pending.None? && (Unmailed(entered) || ReminderDue(entered, reminder, now))
      then Fresh(state, now) else entered.pending;
    entered.(pending := pending, sampled := now, physical := physical)
  }

  // ---- one delivery ----

  /** What a delivery was started for. */
  datatype Claim = Claim(kind: Kind, since: int)

  function Due(row: Row, enabled: bool, now: int): Option<Claim> {
    if !enabled || now < 0 || row.pending.None? || now < row.pending.value.retryAfter then None
    else Some(Claim(row.pending.value.kind, row.pending.value.since))
  }

  function RetryDelay(previousAttempt: nat): int {
    if previousAttempt == 0 then 5 * 60
    else if previousAttempt == 1 then 15 * 60
    else if previousAttempt == 2 then 60 * 60
    else DAY
  }

  /** The row after a delivery; None when a newer alert has replaced the one it was for. */
  function Settled(row: Row, claim: Claim, now: int, delivered: bool): Option<Row> {
    if row.pending.None? || row.pending.value.kind != claim.kind || row.pending.value.since != claim.since || now < 0 then None
    else if delivered then Some(row.(last := Some(Mail(claim.kind, now)), pending := None))
    else
      var previous := row.pending.value.attempt;
      Some(row.(pending := Some(row.pending.value.(attempt := if previous < 3 then previous + 1 else 3,
                                                   retryAfter := now + RetryDelay(previous)))))
  }

  // ---- runs ----

  /** The process: its row in memory, the row in the database, whether mail is on, and the
      delivery in flight. */
  datatype Guard = Guard(loaded: Row, stored: Row, enabled: bool, inFlight: Option<Claim>)

  datatype Step =
    | Sampled(now: int, pressure: int, physical: int, periodic: bool, saved: bool)
    | Began(now: int)
    | Ended(now: int, delivered: bool, saved: bool)
    | Restarted(now: int, enabled: bool)

  const INSTALLED := Guard(MIGRATED, MIGRATED, false, None)

  datatype Policy = Policy(warning: int, reminder: int)

  predicate ValidPolicy(p: Policy) { ValidWarning(p.warning) && p.reminder > 0 }

  function Apply(g: Guard, s: Step, p: Policy): Guard {
    match s
    case Sampled(now, pressure, physical, periodic, saved) =>
      if now < 0 then g
      else
        var row := Scheduled(g.loaded, g.enabled, p.reminder, now, NextState(pressure, g.loaded.state, p.warning), physical);
        var written := row.state != g.loaded.state || periodic || row.pending != g.loaded.pending;
        g.(loaded := row, stored := if written && saved then row else g.stored)
    case Began(now) => if g.inFlight.None? then g.(inFlight := Due(g.loaded, g.enabled, now)) else g
    case Ended(now, delivered, saved) =>
      if g.inFlight.None? then g
      else
        var row := Settled(g.loaded, g.inFlight.value, now, delivered);
        if row.None? then g.(inFlight := None)
        else Guard(row.value, if saved then row.value else g.stored, g.enabled, None)
    case Restarted(_, enabled) => Guard(g.stored, g.stored, enabled, None)
  }

  function After(steps: seq<Step>, p: Policy): Guard {
    if steps == [] then INSTALLED else Apply(After(steps[..|steps| - 1], p), steps[|steps| - 1], p)
  }

  /** The step starts a delivery. */
  predicate Starts(g: Guard, s: Step, p: Policy) { s.Began? && g.inFlight.None? && Apply(g, s, p).inFlight.Some? }

  predicate Changes(g: Guard, s: Step, p: Policy) { s.Sampled? && Apply(g, s, p).loaded.state != g.loaded.state }

  datatype Totals = Totals(attempts: nat, transitions: nat, restarts: nat)

  function TotalsOf(steps: seq<Step>, p: Policy): Totals {
    if steps == [] then Totals(0, 0, 0)
    else
      var t, g, s := TotalsOf(steps[..|steps| - 1], p), After(steps[..|steps| - 1], p), steps[|steps| - 1];
      Totals(t.attempts + if Starts(g, s, p) then 1 else 0,
             t.transitions + if Changes(g, s, p) then 1 else 0,
             t.restarts + if s.Restarted? then 1 else 0)
  }

  predicate Clocked(steps: seq<Step>, start: int) {
    && start >= 0 && (forall i :: 0 <= i < |steps| ==> start <= steps[i].now)
    && (forall i, j :: 0 <= i < j < |steps| ==> steps[i].now <= steps[j].now)
    && (forall i :: 0 <= i < |steps| && steps[i].Sampled? ==> steps[i].pressure >= 0 && steps[i].physical >= 0)
  }

  function LastNow(steps: seq<Step>, start: int): int { if steps == [] then start else steps[|steps| - 1].now }

  // ---- the alert is always about the state in force ----

  predicate GuardOk(g: Guard) { RowOk(g.loaded) && RowOk(g.stored) && (g.inFlight.Some? ==> g.enabled) }

  lemma StepOk(g: Guard, s: Step, p: Policy)
    requires GuardOk(g) && s.now >= 0 && (s.Sampled? ==> s.physical >= 0)
    ensures GuardOk(Apply(g, s, p))
  {
    hide NextState;
  }

  lemma {:induction false} RunOk(steps: seq<Step>, p: Policy, start: int)
    requires Clocked(steps, start)
    ensures GuardOk(After(steps, p))
  {
    hide Apply, GuardOk;
    if steps == [] {
      InstalledOk();
    } else {
      var front := steps[..|steps| - 1];
      RunOk(front, p, start);
      StepOk(After(front, p), steps[|steps| - 1], p);
    }
  }

  lemma InstalledOk()
    ensures GuardOk(INSTALLED)
  {
  }

  // ---- how many deliveries ----

  /** The shorter of the reminder interval and a day: what a wait is counted in. */
  function Wait(p: Policy): int { Min(p.reminder, DAY) }

  function Capped(x: int, most: int): int { if x < 0 then 0 else if x > most then most else x }

  /** Deliveries that may still start without waiting, times the wait; after the quick retries
      and after a success it grows back with time. */
  function Reserve(g: Guard, wait: int, now: int): int {
    var row := g.loaded;
    if row.pending.Some? then
      var a := row.pending.value;
      var sending := g.inFlight == Some(Claim(a.kind, a.since));
      if a.attempt == 0 then if sending then 3 * wait else 4 * wait
      else if a.attempt == 1 then if sending then 2 * wait else 3 * wait
      else if a.attempt == 2 then if sending then wait else 2 * wait
      else if sending then 0 else Capped(wait - (a.retryAfter - now), wait)
    else if row.state == Normal then 0
    else if Unmailed(row) then 4 * wait
    else Capped(4 * (now - row.last.value.at), 4 * wait)
  }

  /** A step pays for the delivery it starts out of the reserve, which four times the time
      passed and four waits for each state change or restart make up for. */
  predicate Pays(g: Guard, s: Step, p: Policy, now: int) {
    Reserve(Apply(g, s, p), Wait(p), s.now) + (if Starts(g, s, p) then Wait(p) else 0) <=
    Reserve(g, Wait(p), now) + 4 * (s.now - now) + (if Changes(g, s, p) || s.Restarted? then 4 * Wait(p) else 0)
  }

  lemma SamplePays(g: Guard, s: Step, p: Policy, now: int)
    requires GuardOk(g) && ValidPolicy(p) && 0 <= now <= s.now && s.Sampled?
    ensures Pays(g, s, p, now)
  {
    hide NextState;
  }

  lemma DeliveryPays(g: Guard, s: Step, p: Policy, now: int)
    requires GuardOk(g) && ValidPolicy(p) && 0 <= now <= s.now && s.Ended? && s.delivered
    ensures Pays(g, s, p, now)
  {
    hide RetryDelay;
  }

  lemma FailurePays(g: Guard, s: Step, p: Policy, now: int)
    requires GuardOk(g) && ValidPolicy(p) && 0 <= now <= s.now && s.Ended? && !s.delivered
    ensures Pays(g, s, p, now)
  {
    hide Unmailed, KindOf, Wait, NextState, Scheduled, Due;
    WaitIsPositive(p);
    if g.inFlight.Some? && Settled(g.loaded, g.inFlight.value, s.now, false).Some? {
      var a := g.loaded.pending.value;
      assert a.attempt == 0 || a.attempt == 1 || a.attempt == 2 || a.attempt == 3;
    }
  }

  lemma BeginningPays(g: Guard, s: Step, p: Policy, now: int)
    requires GuardOk(g) && ValidPolicy(p) && 0 <= now <= s.now && s.Began?
    ensures Pays(g, s, p, now)
  {
    hide Unmailed, KindOf;
  }

  lemma RestartPays(g: Guard, s: Step, p: Policy, now: int)
    requires GuardOk(g) && ValidPolicy(p) && 0 <= now <= s.now && s.Restarted?
    ensures Pays(g, s, p, now)
  {
    hide Unmailed, KindOf;
    ReserveIsNat(g, Wait(p), now);
  }

  lemma StepPays(g: Guard, s: Step, p: Policy, now: int)
    requires GuardOk(g) && ValidPolicy(p) && 0 <= now <= s.now
    ensures Pays(g, s, p, now)
  {
    hide Pays, GuardOk;
    match s {
      case Sampled(_, _, _, _, _) => SamplePays(g, s, p, now);
      case Ended(_, delivered, _) => if delivered { DeliveryPays(g, s, p, now); } else { FailurePays(g, s, p, now); }
      case Began(_) => BeginningPays(g, s, p, now);
      case Restarted(_, _) => RestartPays(g, s, p, now);
    }
  }

  lemma ReserveIsNat(g: Guard, wait: int, now: int)
    requires wait > 0
    ensures Reserve(g, wait, now) >= 0
  {
  }

  lemma {:induction false} AttemptsPaid(steps: seq<Step>, p: Policy, start: int)
    requires Clocked(steps, start) && ValidPolicy(p)
    ensures var t := TotalsOf(steps, p); var wait := Wait(p);
            t.attempts * wait + Reserve(After(steps, p), wait, LastNow(steps, start)) <=
            4 * ((t.transitions + t.restarts) * wait) + 4 * (LastNow(steps, start) - start)
  {
    hide Apply, Reserve, GuardOk, Starts, Changes, Wait, ValidPolicy;
    var wait := Wait(p);
    if steps == [] {
      NothingReserved(wait, start);
    } else {
      var front, s := steps[..|steps| - 1], steps[|steps| - 1];
      AttemptsPaid(front, p, start);
      RunOk(front, p, start);
      StepPays(After(front, p), s, p, LastNow(front, start));
      ChangeOrRestart(After(front, p), s, p);
      OneMore(TotalsOf(front, p), TotalsOf(steps, p), wait);
    }
  }

  lemma OneMore(t: Totals, u: Totals, wait: int)
    requires t.attempts <= u.attempts <= t.attempts + 1
    requires t.transitions + t.restarts <= u.transitions + u.restarts <= t.transitions + t.restarts + 1
    ensures u.attempts * wait == t.attempts * wait + (if u.attempts > t.attempts then wait else 0)
    ensures (u.transitions + u.restarts) * wait ==
            (t.transitions + t.restarts) * wait + (if u.transitions + u.restarts > t.transitions + t.restarts then wait else 0)
  {
  }

  lemma NothingReserved(wait: int, now: int)
    ensures Reserve(INSTALLED, wait, now) == 0
  {
  }

  lemma ChangeOrRestart(g: Guard, s: Step, p: Policy)
    ensures !(Changes(g, s, p) && s.Restarted?)
  {
  }

  /** No mail storm: over any interleaving of samples, deliveries, failed writes and restarts,
      deliveries started number at most four for each state change, each restart and each
      reminder interval, or day if that is shorter, that passed. */
  lemma {:induction false} NoMailStorm(steps: seq<Step>, p: Policy, start: int)
    requires Clocked(steps, start) && ValidPolicy(p)
    ensures var t := TotalsOf(steps, p);
            t.attempts * Wait(p) <= 4 * ((t.transitions + t.restarts) * Wait(p)) + 4 * (LastNow(steps, start) - start)
  {
    hide Reserve;
    AttemptsPaid(steps, p, start);
    ReserveIsNat(After(steps, p), Wait(p), LastNow(steps, start));
  }

  // ---- restarts of a guard whose writes were saved ----

  predicate AllSaved(steps: seq<Step>) {
    forall i :: 0 <= i < |steps| ==> (steps[i].Sampled? || steps[i].Ended? ==> steps[i].saved)
  }

  /** The stored row, but for the measurements a sample need not write. */
  predicate Stored(g: Guard) {
    g.loaded == g.stored.(sampled := g.loaded.sampled, physical := g.loaded.physical)
  }

  lemma {:induction false} SavedIsStored(steps: seq<Step>, p: Policy, start: int)
    requires AllSaved(steps) && Clocked(steps, start)
    ensures Stored(After(steps, p))
  {
    hide NextState, Due;
    if steps != [] {
      var front, s := steps[..|steps| - 1], steps[|steps| - 1];
      SavedIsStored(front, p, start);
      assert steps[|steps| - 1] == s && s.now >= 0;
      SavedStep(After(front, p), s, p);
    }
  }

  lemma SavedStep(g: Guard, s: Step, p: Policy)
    requires Stored(g) && s.now >= 0 && (s.Sampled? || s.Ended? ==> s.saved)
    ensures Stored(Apply(g, s, p))
  {
    hide NextState, Due;
  }

  /** The pressures sampled along a run. */
  function Pressures(steps: seq<Step>): seq<int> {
    if steps == [] then []
    else
      var s := steps[|steps| - 1];
      Pressures(steps[..|steps| - 1]) + if s.Sampled? && s.now >= 0 then [s.pressure] else []
  }

  /** Restarts forget nothing then: the state is what all pressures led to, and its changes are
      theirs. */
  lemma {:induction false} RestartsForgetNothing(steps: seq<Step>, p: Policy, start: int)
    requires AllSaved(steps) && Clocked(steps, start)
    ensures After(steps, p).loaded.state == StateAfter(Normal, p.warning, Pressures(steps))
    ensures TotalsOf(steps, p).transitions == StateChanges(Normal, p.warning, Pressures(steps))
    ensures forall i :: 0 <= i < |Pressures(steps)| ==> Pressures(steps)[i] >= 0
  {
    hide NextState, Apply, Starts, StateAfter, StateChanges;
    NothingSampled(p.warning);
    if steps != [] {
      var front, s := steps[..|steps| - 1], steps[|steps| - 1];
      RestartsForgetNothing(front, p, start);
      SavedIsStored(front, p, start);
      if s.Sampled? { SampledPressure(Pressures(front), p.warning, s); } else { assert Pressures(steps) == Pressures(front); }
      StepState(After(front, p), s, p);
    }
  }

  lemma NothingSampled(warning: int)
    ensures StateAfter(Normal, warning, []) == Normal && StateChanges(Normal, warning, []) == 0
  {
  }

  lemma StepState(g: Guard, s: Step, p: Policy)
    requires Stored(g) && s.now >= 0
    ensures Apply(g, s, p).loaded.state == if s.Sampled? then NextState(s.pressure, g.loaded.state, p.warning) else g.loaded.state
  {
    hide NextState, Due;
  }

  lemma SampledPressure(pressures: seq<int>, warning: int, s: Step)
    requires s.Sampled?
    ensures var more := pressures + [s.pressure];
            && StateAfter(Normal, warning, more) == NextState(s.pressure, StateAfter(Normal, warning, pressures), warning)
            && StateChanges(Normal, warning, more) == StateChanges(Normal, warning, pressures) +
               (if StateAfter(Normal, warning, more) != StateAfter(Normal, warning, pressures) then 1 else 0)
  {
    hide NextState;
    assert (pressures + [s.pressure])[..|pressures|] == pressures;
  }

  /** With every write saved, deliveries are bounded by how far pressure fell, restarts and time. */
  lemma {:induction false} MailsFollowPressure(steps: seq<Step>, p: Policy, start: int)
    requires AllSaved(steps) && Clocked(steps, start) && ValidPolicy(p)
    ensures var t := TotalsOf(steps, p);
            3 * (t.attempts * Wait(p)) <=
            4 * ((2 * TotalFall(Pressures(steps)) + 9 + 3 * t.restarts) * Wait(p)) + 12 * (LastNow(steps, start) - start)
  {
    hide TotalFall, StateChanges, Wait, TotalsOf, Pressures;
    NoMailStorm(steps, p, start);
    RestartsForgetNothing(steps, p, start);
    var fall, wait, t := TotalFall(Pressures(steps)), Wait(p), TotalsOf(steps, p);
    ChangesPaidByFalls(p.warning, Pressures(steps));
    WaitIsPositive(p);
    Scale(3 * t.transitions, 2 * fall + 9, wait);
    assert 3 * ((t.transitions + t.restarts) * wait) == 3 * t.transitions * wait + 3 * t.restarts * wait;
    assert (2 * fall + 9 + 3 * t.restarts) * wait == (2 * fall + 9) * wait + 3 * t.restarts * wait;
  }

  lemma WaitIsPositive(p: Policy)
    requires ValidPolicy(p)
    ensures 0 < Wait(p) <= DAY
  {
  }

  lemma Scale(a: int, b: int, m: int)
    requires a <= b && m > 0
    ensures a * m <= b * m
  {
  }

  // ---- reminders ----

  /** The state in force was mailed at `at` and nothing is scheduled or under way. */
  predicate Quiet(g: Guard, at: int) {
    g.inFlight.None? && g.loaded.pending.None? && g.loaded.last == Some(Mail(KindOf(g.loaded.state), at))
  }

  lemma QuietStep(g: Guard, s: Step, p: Policy, at: int)
    requires Quiet(g, at) && Stored(g) && 0 <= s.now < at + p.reminder && !Changes(g, s, p)
    ensures Quiet(Apply(g, s, p), at) && !Starts(g, s, p)
  {
    hide NextState;
  }

  lemma SavedBefore(steps: seq<Step>, start: int, m: nat)
    requires AllSaved(steps) && Clocked(steps, start) && m < |steps|
    ensures AllSaved(steps[..m]) && Clocked(steps[..m], start) && steps[m].now >= 0
  {
  }

  lemma {:induction false} StaysQuiet(steps: seq<Step>, p: Policy, start: int, n: nat, m: nat, at: int)
    requires AllSaved(steps) && Clocked(steps, start) && n <= m <= |steps| && Quiet(After(steps[..n], p), at)
    requires forall i :: n <= i < m ==> !Changes(After(steps[..i], p), steps[i], p) && steps[i].now < at + p.reminder
    ensures Quiet(After(steps[..m], p), at)
    decreases m
  {
    hide Apply, Quiet, Stored, Changes, AllSaved, Clocked;
    if n < m {
      SavedBefore(steps, start, m - 1);
      StaysQuiet(steps, p, start, n, m - 1, at);
      SavedIsStored(steps[..m - 1], p, start);
      assert steps[..m][..m - 1] == steps[..m - 1];
      QuietStep(After(steps[..m - 1], p), steps[m - 1], p, at);
    }
  }

  /** The n-th step records a delivery. */
  predicate Records(steps: seq<Step>, p: Policy, n: nat)
    requires n < |steps|
  {
    var g := After(steps[..n], p);
    && steps[n].Ended? && steps[n].delivered && g.inFlight.Some?
    && Settled(g.loaded, g.inFlight.value, steps[n].now, true).Some?
  }

  lemma QuietUntil(steps: seq<Step>, p: Policy, start: int, n: nat, m: nat)
    requires AllSaved(steps) && Clocked(steps, start) && n < m < |steps| && Records(steps, p, n)
    requires forall i :: n < i < m ==> !Changes(After(steps[..i], p), steps[i], p)
    requires steps[m].now < steps[n].now + p.reminder
    ensures !Starts(After(steps[..m], p), steps[m], p)
  {
    hide Apply, Settled, Starts, Changes;
    var at := steps[n].now;
    RunOk(steps[..n], p, start);
    assert steps[..n + 1][..n] == steps[..n];
    DeliveredIsQuiet(After(steps[..n], p), steps[n], p);
    StaysQuiet(steps, p, start, n + 1, m, at);
    BeginsNothing(After(steps[..m], p), steps[m], p, at);
  }

  /** A recorded delivery suppresses the next one for a whole reminder interval, also across
      restarts, unless the state changes. */
  lemma {:induction false} RemindersAreSpaced(steps: seq<Step>, p: Policy, start: int, n: nat, m: nat)
    requires AllSaved(steps) && Clocked(steps, start) && n < m < |steps| && Records(steps, p, n)
    requires forall i :: n < i < m ==> !Changes(After(steps[..i], p), steps[i], p)
    requires Starts(After(steps[..m], p), steps[m], p)
    ensures steps[m].now >= steps[n].now + p.reminder
  {
    hide Changes, Starts, Records;
    if steps[m].now < steps[n].now + p.reminder { QuietUntil(steps, p, start, n, m); }
  }

  lemma DeliveredIsQuiet(g: Guard, s: Step, p: Policy)
    requires GuardOk(g) && s.Ended? && s.delivered && g.inFlight.Some? && Settled(g.loaded, g.inFlight.value, s.now, true).Some?
    ensures Quiet(Apply(g, s, p), s.now)
  {
  }

  lemma BeginsNothing(g: Guard, s: Step, p: Policy, at: int)
    requires Quiet(g, at)
    ensures !Starts(g, s, p)
  {
  }

  // ---- the administrator is told ----

  /** A sample was taken since the process started. */
  predicate Sighted(steps: seq<Step>) {
    steps != [] && !steps[|steps| - 1].Restarted? && (steps[|steps| - 1].Sampled? || Sighted(steps[..|steps| - 1]))
  }

  /** The state in force is normal, or an alert for it is scheduled within a day, or its mail
      was less than a reminder interval old at the last sample. */
  predicate Told(row: Row, p: Policy, now: int) {
    || row.state == Normal
    || (row.pending.Some? && row.pending.value.kind == KindOf(row.state) && row.pending.value.retryAfter <= now + DAY)
    || (row.last.Some? && row.last.value.kind == KindOf(row.state) && row.sampled - row.last.value.at < p.reminder)
  }

  /** Nothing in a row lies further ahead than a day. */
  predicate InTime(row: Row, now: int) {
    row.sampled <= now && (row.pending.Some? ==> row.pending.value.retryAfter <= now + DAY)
  }

  lemma ToldStep(g: Guard, s: Step, p: Policy, now: int, sighted: bool)
    requires GuardOk(g) && ValidPolicy(p) && 0 <= now <= s.now
    requires InTime(g.loaded, now) && InTime(g.stored, now)
    requires g.enabled && sighted ==> Told(g.loaded, p, now)
    ensures var h := Apply(g, s, p);
            && InTime(h.loaded, s.now) && InTime(h.stored, s.now)
            && (h.enabled && !s.Restarted? && (s.Sampled? || sighted) ==> Told(h.loaded, p, s.now))
  {
    hide NextState;
  }

  /** Whenever mail is on and a sample was taken since the last start, the administrator has
      been told of a state that is not normal, or is about to be, within a day. */
  lemma {:induction false} AdministratorIsTold(steps: seq<Step>, p: Policy, start: int)
    requires Clocked(steps, start) && ValidPolicy(p)
    ensures var g := After(steps, p);
            && InTime(g.loaded, LastNow(steps, start)) && InTime(g.stored, LastNow(steps, start))
            && (g.enabled && Sighted(steps) ==> Told(g.loaded, p, LastNow(steps, start)))
  {
    hide Apply, Told, GuardOk;
    if steps != [] {
      var front := steps[..|steps| - 1];
      AdministratorIsTold(front, p, start);
      RunOk(front, p, start);
      ToldStep(After(front, p), steps[|steps| - 1], p, LastNow(front, start), Sighted(front));
    }
  }
}
