/** Database growth: percent thresholds, the state machine with recovery hysteresis, and what
    a reading of the database measures. */
module Growth {
  import opened Keyset

  const INT64_MAXIMUM := 0x7fff_ffff_ffff_ffff
  const MAXIMUM_BYTES := 0x100_0000_0000
  const CRITICAL_PERCENT := 90
  const HARD_PERCENT := 100
  const HYSTERESIS := 5
  const REPORT_PERCENT := 999

  datatype State = Normal | Warning | Critical | Hard

  // ---- percent arithmetic ----

  predicate AtLeastPercent(value: int, maximum: int, percent: int) {
    if maximum <= 0 || value < 0 || percent <= 0 then false
    else value >= maximum || value >= (maximum * percent + 99) / 100
  }

  function BoundedPercent(value: int, maximum: int): int {
    if maximum <= 0 || value <= 0 then 0
    else if value >= maximum * REPORT_PERCENT / 100 then REPORT_PERCENT
    else value * 100 / maximum
  }

  lemma CeilingIsFloor(value: int, maximum: int, percent: int)
    requires maximum > 0 && value >= 0
    ensures value >= (maximum * percent + 99) / 100 <==> value * 100 / maximum >= percent
  {
    var product, hundred := maximum * percent, value * 100;
    assert (product + 99) / 100 * 100 <= product + 99 < (product + 99) / 100 * 100 + 100;
    var q := hundred / maximum;
    assert q * maximum <= hundred < q * maximum + maximum;
    if q >= percent { Times(percent, q, maximum); } else { Times(q + 1, percent, maximum); }
    assert (q + 1) * maximum == q * maximum + maximum;
  }

  lemma Times(a: int, b: int, m: int)
    requires a <= b && m >= 0
    ensures a * m <= b * m
  {
  }

  /** The integer ceiling test against a threshold is the same test on the reported, floored
      percent, for every threshold up to one hundred. */
  lemma {:induction false} ThresholdIsReportedPercent(value: int, maximum: int, percent: int)
    requires 1 <= percent <= 100
    ensures AtLeastPercent(value, maximum, percent) <==> BoundedPercent(value, maximum) >= percent
  {
    if maximum > 0 && value >= 0 {
      CeilingIsFloor(value, maximum, percent);
      if value >= maximum { CeilingIsFloor(value, maximum, 100); }
    }
  }

  /** No intermediate product leaves the 64-bit range for configured byte limits. */
  lemma {:induction false} ProductsFit(value: int, maximum: int, percent: int)
    requires 0 < maximum <= MAXIMUM_BYTES && 1 <= percent <= 100 && 0 <= value <= INT64_MAXIMUM
    ensures 0 <= maximum * percent + 99 <= INT64_MAXIMUM && maximum * REPORT_PERCENT <= INT64_MAXIMUM
    ensures value < maximum * REPORT_PERCENT / 100 ==> value * 100 <= INT64_MAXIMUM
  {
    Times(percent, 100, maximum);
  }

  function CheckedMultiply(a: int, b: int): Option<int> {
    if a < 0 || b < 0 || (a != 0 && b > INT64_MAXIMUM / a) then None else Some(a * b)
  }

  lemma {:induction false} CheckedMultiplyExact(a: int, b: int)
    ensures CheckedMultiply(a, b) == if a >= 0 && b >= 0 && a * b <= INT64_MAXIMUM then Some(a * b) else None
  {
    if a > 0 && b >= 0 {
      var q := INT64_MAXIMUM / a;
      assert q * a <= INT64_MAXIMUM < q * a + a;
      if b <= q { Times(b, q, a); } else { Times(q + 1, b, a); assert (q + 1) * a == q * a + a; }
    }
  }

  // ---- states ----

  function Rank(state: State): int {
    match state
    case Normal => 0
    case Warning => 1
    case Critical => 2
    case Hard => 3
  }

  function Classify(used: int, mainLimit: int, family: int, maximum: int, warning: int): State {
    if AtLeastPercent(used, mainLimit, HARD_PERCENT) || AtLeastPercent(family, maximum, HARD_PERCENT) then Hard
    else if AtLeastPercent(used, mainLimit, CRITICAL_PERCENT) || AtLeastPercent(family, maximum, CRITICAL_PERCENT) then Critical
    else if AtLeastPercent(used, mainLimit, warning) || AtLeastPercent(family, maximum, warning) then Warning
    else Normal
  }

  function Pressure(used: int, mainLimit: int, family: int, maximum: int): int {
    var logical, physical := BoundedPercent(used, mainLimit), BoundedPercent(family, maximum);
    if physical > logical then physical else logical
  }

  /** The pressure a state stands for. */
  function Threshold(state: State, warning: int): int {
    match state
    case Normal => 0
    case Warning => warning
    case Critical => CRITICAL_PERCENT
    case Hard => HARD_PERCENT
  }

  predicate ValidWarning(warning: int) { 1 <= warning < CRITICAL_PERCENT }

  function BaseState(pressure: int, warning: int): State {
    if pressure >= HARD_PERCENT then Hard
    else if pressure >= CRITICAL_PERCENT then Critical
    else if pressure >= warning then Warning
    else Normal
  }

  /** The class of the raw byte counts is a function of the reported pressure alone. */
  lemma {:induction false} ClassIsPressure(used: int, mainLimit: int, family: int, maximum: int, warning: int)
    requires ValidWarning(warning)
    ensures Classify(used, mainLimit, family, maximum, warning) == BaseState(Pressure(used, mainLimit, family, maximum), warning)
  {
    hide AtLeastPercent, BoundedPercent;
    ThresholdIsReportedPercent(used, mainLimit, HARD_PERCENT);
    ThresholdIsReportedPercent(family, maximum, HARD_PERCENT);
    ThresholdIsReportedPercent(used, mainLimit, CRITICAL_PERCENT);
    ThresholdIsReportedPercent(family, maximum, CRITICAL_PERCENT);
    ThresholdIsReportedPercent(used, mainLimit, warning);
    ThresholdIsReportedPercent(family, maximum, warning);
  }

  /** Up at once; down only five points below the threshold of the state left. */
  function Hysteresis(base: State, pressure: int, previous: State, warning: int): State {
    if Rank(base) >= Rank(previous) then base
    else match previous
      case Hard => if pressure >= HARD_PERCENT - HYSTERESIS then Hard else base
      case Critical => if pressure >= CRITICAL_PERCENT - HYSTERESIS then Critical else base
      case Warning => if pressure >= warning - HYSTERESIS then Warning else base
      case Normal => base
  }

  function NextState(pressure: int, previous: State, warning: int): State {
    Hysteresis(BaseState(pressure, warning), pressure, previous, warning)
  }

  /** Where a state can go: never below what the pressure says, one step of memory at most, and
      left downward exactly when pressure is more than five points below its threshold. */
  lemma {:induction false} NextStateMeaning(pressure: int, previous: State, warning: int)
    requires ValidWarning(warning) && pressure >= 0
    ensures var next := NextState(pressure, previous, warning);
            && Rank(next) >= Rank(BaseState(pressure, warning))
            && (next == previous || next == BaseState(pressure, warning))
            && (Rank(next) < Rank(previous) <==> pressure < Threshold(previous, warning) - HYSTERESIS)
            && (next != previous ==> pressure >= Threshold(next, warning))
            && (pressure >= HARD_PERCENT ==> next == Hard)
  {
  }

  /** A warning level of five percent or less is never recovered from: warning goes back to
      normal for some pressure if and only if the configured level is at least six. */
  lemma {:induction false} WarningRecovers(warning: int)
    requires ValidWarning(warning)
    ensures (exists pressure :: pressure >= 0 && NextState(pressure, Warning, warning) == Normal) <==> warning >= 6
  {
    if warning >= 6 {
      assert NextState(0, Warning, warning) == Normal;
    }
  }

  // ---- sample sequences ----

  function StateAfter(start: State, warning: int, pressures: seq<int>): State {
    if pressures == [] then start
    else NextState(pressures[|pressures| - 1], StateAfter(start, warning, pressures[..|pressures| - 1]), warning)
  }

  /** Whether the state the run started with was already left. */
  predicate LeftStart(start: State, warning: int, pressures: seq<int>) {
    pressures != [] &&
    (LeftStart(start, warning, pressures[..|pressures| - 1]) || StateAfter(start, warning, pressures) != start)
  }

  /** Downward changes, not counting the exit from the state the run started with. */
  function DownwardChanges(start: State, warning: int, pressures: seq<int>): nat {
    if pressures == [] then 0
    else
      var front := pressures[..|pressures| - 1];
      DownwardChanges(start, warning, front) +
      (if LeftStart(start, warning, front) && Rank(StateAfter(start, warning, pressures)) < Rank(StateAfter(start, warning, front))
       then 1 else 0)
  }

  function TotalFall(pressures: seq<int>): nat {
    if |pressures| < 2 then 0
    else
      var last, before := pressures[|pressures| - 1], pressures[|pressures| - 2];
      TotalFall(pressures[..|pressures| - 1]) + (if last < before then before - last else 0)
  }

  /** How far pressure has already fallen below the threshold of the state it is in. */
  function Owed(start: State, warning: int, pressures: seq<int>): nat {
    if pressures == [] || !LeftStart(start, warning, pressures) then 0
    else
      var gap := Threshold(StateAfter(start, warning, pressures), warning) - pressures[|pressures| - 1];
      if gap > 0 then gap else 0
  }

  lemma {:induction false} FallsPayForChanges(start: State, warning: int, pressures: seq<int>)
    requires ValidWarning(warning) && forall i :: 0 <= i < |pressures| ==> pressures[i] >= 0
    ensures 6 * DownwardChanges(start, warning, pressures) + Owed(start, warning, pressures) <= TotalFall(pressures)
  {
    hide NextState, Threshold;
    if pressures != [] {
      var n := |pressures| - 1;
      var front := pressures[..n];
      FallsPayForChanges(start, warning, front);
      NextStateMeaning(pressures[n], StateAfter(start, warning, front), warning);
      var was, next := StateAfter(start, warning, front), StateAfter(start, warning, pressures);
      assert next == NextState(pressures[n], was, warning);
      if LeftStart(start, warning, front) {
        var before := front[n - 1];
        assert before == pressures[n - 1];
        assert TotalFall(pressures) == TotalFall(front) + (if pressures[n] < before then before - pressures[n] else 0);
        assert Owed(start, warning, front) >= Threshold(was, warning) - before;
        if Rank(next) < Rank(was) {
          assert DownwardChanges(start, warning, pressures) == DownwardChanges(start, warning, front) + 1;
        }
      } else {
        assert DownwardChanges(start, warning, pressures) == DownwardChanges(start, warning, front);
      }
    }
  }

  /** No flapping: over every sequence of samples, six times the downward changes is at most
      the total fall of pressure, in percent points. */
  lemma {:induction false} NoFlapping(start: State, warning: int, pressures: seq<int>)
    requires ValidWarning(warning) && forall i :: 0 <= i < |pressures| ==> pressures[i] >= 0
    ensures 6 * DownwardChanges(start, warning, pressures) <= TotalFall(pressures)
  {
    hide DownwardChanges, TotalFall, Owed;
    FallsPayForChanges(start, warning, pressures);
  }

  /** How often the state changed along a run of samples. */
  function StateChanges(start: State, warning: int, pressures: seq<int>): nat {
    if pressures == [] then 0
    else
      var front := pressures[..|pressures| - 1];
      StateChanges(start, warning, front) +
      (if StateAfter(start, warning, pressures) != StateAfter(start, warning, front) then 1 else 0)
  }

  lemma {:induction false} ChangesClimb(warning: int, pressures: seq<int>)
    ensures StateChanges(Normal, warning, pressures) <=
            4 * DownwardChanges(Normal, warning, pressures) + Rank(StateAfter(Normal, warning, pressures))
    ensures StateAfter(Normal, warning, pressures) != Normal ==> LeftStart(Normal, warning, pressures)
  {
    hide NextState;
    if pressures != [] {
      ChangesClimb(warning, pressures[..|pressures| - 1]);
    }
  }

  /** From normal, three times the state changes is at most twice the total fall, plus nine. */
  lemma {:induction false} ChangesPaidByFalls(warning: int, pressures: seq<int>)
    requires ValidWarning(warning) && forall i :: 0 <= i < |pressures| ==> pressures[i] >= 0
    ensures 3 * StateChanges(Normal, warning, pressures) <= 2 * TotalFall(pressures) + 9
  {
    hide DownwardChanges, TotalFall, StateChanges, StateAfter;
    ChangesClimb(warning, pressures);
    NoFlapping(Normal, warning, pressures);
  }

  // ---- readings ----

  /** What one sample reads from the database and its files. */
  datatype Reading = Reading(pageSize: int, pageCount: int, freePages: int, maxPages: int, mainBytes: int, walBytes: int, shmBytes: int)

  predicate ValidReading(r: Reading) {
    && r.pageSize > 0 && 0 <= r.freePages <= r.pageCount && r.maxPages > 0
    && r.mainBytes >= 0 && r.walBytes >= 0 && r.shmBytes >= 0
    && r.pageCount * r.pageSize <= INT64_MAXIMUM && r.mainBytes + r.walBytes + r.shmBytes <= INT64_MAXIMUM
  }

  function UsedBytes(r: Reading): int { (r.pageCount - r.freePages) * r.pageSize }

  function FamilyBytes(r: Reading): int { r.mainBytes + r.walBytes + r.shmBytes }

  /** Byte counts of a reading, refused when inconsistent or outside the 64-bit range. */
  method Measure(r: Reading) returns (sizes: Option<(int, int)>)
    ensures sizes == if ValidReading(r) then Some((UsedBytes(r), FamilyBytes(r))) else None
  {
    if r.pageSize <= 0 || r.pageCount < 0 || r.freePages < 0 || r.freePages > r.pageCount ||
       r.maxPages <= 0 || r.mainBytes < 0 || r.walBytes < 0 || r.shmBytes < 0
    {
      return None;
    }
    CheckedMultiplyExact(r.pageCount, r.pageSize);
    CheckedMultiplyExact(r.pageCount - r.freePages, r.pageSize);
    Times(r.pageCount - r.freePages, r.pageCount, r.pageSize);
    var used, total := CheckedMultiply(r.pageCount - r.freePages, r.pageSize), CheckedMultiply(r.pageCount, r.pageSize);
    var family := r.mainBytes + r.walBytes + r.shmBytes;
    if used.None? || total.None? || family > INT64_MAXIMUM { return None; }
    sizes := Some((used.value, family));
  }

  lemma SampledState(start: State, warning: int, pressures: seq<int>, pressure: int)
    ensures StateAfter(start, warning, pressures + [pressure]) == NextState(pressure, StateAfter(start, warning, pressures), warning)
    ensures StateAfter(start, warning, []) == start
  {
    hide NextState;
    assert (pressures + [pressure])[..|pressures|] == pressures;
  }

  lemma PressureIsNat(used: int, mainLimit: int, family: int, maximum: int)
    requires mainLimit > 0 && maximum > 0
    ensures Pressure(used, mainLimit, family, maximum) >= 0
  {
    if used > 0 { assert used * 100 / mainLimit >= 0; }
    if family > 0 { assert family * 100 / maximum >= 0; }
  }
}
