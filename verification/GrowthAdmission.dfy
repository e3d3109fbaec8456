/** The growth guard itself: it samples right before every mutation, admits one writer at a time,
    keeps the alert row and starts and settles its mail. */
module GrowthAdmission {
  import opened Keyset
  import opened Growth
  import opened GrowthAlerts

  datatype Sample = Sample(observed: int, state: State, pressure: int, used: int, family: int, growth: Option<int>,
                           writeAllowed: bool)

  datatype Weight = Weight(used: int, family: int, pressure: int, state: State)

  datatype Admission = Lease | RefusedHard | SampleFailed

  class GrowthGuard {
    const maxBytes: int
    const mainLimit: int
    const warning: int
    const reminder: int
    const emailEnabled: bool
    var loaded: Row
    var stored: Row
    var last: Option<Sample>
    var healthy: bool
    var held: bool
    ghost const first: State
    ghost var pressures: seq<int>
    ghost var inFlight: Option<Claim>
    ghost var steps: seq<Step>

    /** A start of the process: the row that earlier ones left is reloaded. */
    constructor (maxBytes: int, mainLimit: int, warning: int, reminder: int, emailEnabled: bool, row: Row,
                 ghost past: seq<Step>, ghost at: int)
      requires 0 < maxBytes <= MAXIMUM_BYTES && 0 < mainLimit <= maxBytes && ValidPolicy(Policy(warning, reminder))
      requires row == After(past, Policy(warning, reminder)).stored
      ensures Valid() && this.maxBytes == maxBytes && this.mainLimit == mainLimit && this.warning == warning
      ensures this.reminder == reminder && this.emailEnabled == emailEnabled
      ensures loaded == stored == row && first == row.state && pressures == [] && !held && !healthy
      ensures steps == past + [Restarted(at, emailEnabled)]
    {
      this.maxBytes, this.mainLimit, this.warning := maxBytes, mainLimit, warning;
      this.reminder, this.emailEnabled := reminder, emailEnabled;
      loaded, stored, last, healthy, held := row, row, None, false, false;
      first, pressures, inFlight, steps := row.state, [], None, past + [Restarted(at, emailEnabled)];
      OneStep(past, Restarted(at, emailEnabled), Policy(warning, reminder));
    }

    /** The row is what the steps so far left, its state what the pressures sampled lead to, and
        the last sample is the one it describes. */
    ghost predicate Valid()
      reads this
    {
      && 0 < maxBytes <= MAXIMUM_BYTES && 0 < mainLimit <= maxBytes && ValidPolicy(Policy(warning, reminder))
      && (forall i :: 0 <= i < |pressures| ==> pressures[i] >= 0)
      && Guard(loaded, stored, emailEnabled, inFlight) == After(steps, Policy(warning, reminder))
      && loaded.state == StateAfter(first, warning, pressures)
      && (last.Some? ==>
            last.value.state == loaded.state && last.value.observed == loaded.sampled && last.value.family == loaded.physical)
      && (healthy ==> last.Some?)
    }

    /** One sample; `saved` is whether the row could be written if it had to be. The growth it
        reports is against the last measured size, in this process or the one before. */
    method SampleLocked(reading: Option<Reading>, now: int, periodic: bool, saved: bool)
      returns (sample: Option<Sample>, transitioned: bool)
      requires Valid()
      modifies this`loaded, this`stored, this`last, this`healthy, this`pressures, this`steps
      ensures Valid() && healthy == sample.Some?
      ensures if now >= 0 && reading.Some? && ValidReading(reading.value) then
                && var pressure := Pressure(UsedBytes(reading.value), mainLimit, FamilyBytes(reading.value), maxBytes);
                   var s := Sampled(now, pressure, FamilyBytes(reading.value), periodic, saved);
                && pressures == old(pressures) + [pressure] && steps == old(steps) + [s]
                && loaded.state == NextState(pressure, old(loaded.state), warning)
                && last == Some(Sample(now, loaded.state, pressure, UsedBytes(reading.value), FamilyBytes(reading.value),
                                       if old(loaded.sampled) == 0 then None else Some(FamilyBytes(reading.value) - old(loaded.physical)),
                                       loaded.state != Hard))
                && (sample.Some? ==> sample == last && transitioned == (loaded.state != old(loaded.state)))
                && (sample.None? <==> !saved && (periodic || loaded.state != old(loaded.state) || loaded.pending != old(loaded.pending)))
              else sample.None? && pressures == old(pressures) && steps == old(steps) && loaded == old(loaded) &&
                   stored == old(stored) && last == old(last)
    {
      hide Pressure, ValidReading, UsedBytes, FamilyBytes, StateAfter, After, ValidPolicy, NextState;
      transitioned := false;
      if now < 0 || reading.None? { healthy := false; return None, false; }
      var weight := Weigh(reading.value);
      if weight.None? { healthy := false; return None, false; }
      sample, transitioned := Keep(weight.value, now, periodic, saved);
    }

    /** Against the last size measured in this process, or else the one in the row. */
    method Growth(family: int) returns (growth: Option<int>)
      requires last.Some? ==> last.value.observed == loaded.sampled && last.value.family == loaded.physical
      ensures growth == if loaded.sampled == 0 then None else Some(family - loaded.physical)
    {
      growth := None;
      if last.Some? && last.value.observed != 0 {
        growth := Some(family - last.value.family);
      } else if loaded.sampled != 0 {
        growth := Some(family - loaded.physical);
      }
    }

    /** The guard after a sample of this weight: the row, in memory and if necessary stored. */
    method Keep(w: Weight, now: int, periodic: bool, saved: bool) returns (sample: Option<Sample>, transitioned: bool)
      requires Valid() && now >= 0 && w.pressure >= 0 && w.state == NextState(w.pressure, loaded.state, warning)
      modifies this`loaded, this`stored, this`last, this`healthy, this`pressures, this`steps
      ensures Valid() && healthy == sample.Some? && transitioned == (w.state != old(loaded.state))
      ensures pressures == old(pressures) + [w.pressure]
      ensures steps == old(steps) + [Sampled(now, w.pressure, w.family, periodic, saved)]
      ensures loaded.state == w.state
      ensures last == Some(Sample(now, w.state, w.pressure, w.used, w.family,
                                  if old(loaded.sampled) == 0 then None else Some(w.family - old(loaded.physical)), w.state != Hard))
      ensures sample.Some? ==> sample == last
      ensures sample.None? <==> !saved && (periodic || loaded.state != old(loaded.state) || loaded.pending != old(loaded.pending))
    {
      hide StateAfter, After, Apply, Scheduled, ValidPolicy, NextState;
      var growth := Growth(w.family);
      SampledState(first, warning, pressures, w.pressure);
      ghost var s := Sampled(now, w.pressure, w.family, periodic, saved);
      OneStep(steps, s, Policy(warning, reminder));
      SampledRow(Guard(loaded, stored, emailEnabled, inFlight), s, Policy(warning, reminder));
      pressures, steps := pressures + [w.pressure], steps + [s];
      transitioned := w.state != loaded.state;
      var row, changed := Schedule(now, w.state, w.family);
      loaded := row;
      last := Some(Sample(now, w.state, w.pressure, w.used, w.family, growth, w.state != Hard));
      if transitioned || periodic || changed {
        if !saved { healthy := false; return None, transitioned; }
        stored := loaded;
      }
      healthy := true;
      sample := last;
    }

    /** What a reading weighs and the state it leads to. */
    method Weigh(r: Reading) returns (weight: Option<Weight>)
      requires ValidPolicy(Policy(warning, reminder)) && mainLimit > 0 && maxBytes > 0
      ensures weight.Some? <==> ValidReading(r)
      ensures weight.Some? ==>
                && var pressure := Pressure(UsedBytes(r), mainLimit, FamilyBytes(r), maxBytes);
                   weight.value == Weight(UsedBytes(r), FamilyBytes(r), pressure, NextState(pressure, loaded.state, warning))
      ensures weight.Some? ==> weight.value.pressure >= 0
    {
      hide AtLeastPercent, BoundedPercent, Hysteresis, BaseState, Classify, Pressure, ValidReading, UsedBytes, FamilyBytes;
      var sizes := Measure(r);
      if sizes.None? { return None; }
      var (used, family) := sizes.value;
      var pressure := Pressure(used, mainLimit, family, maxBytes);
      PressureIsNat(used, mainLimit, family, maxBytes);
      var base := Classify(used, mainLimit, family, maxBytes, warning);
      ClassIsPressure(used, mainLimit, family, maxBytes, warning);
      weight := Some(Weight(used, family, pressure, Hysteresis(base, pressure, loaded.state, warning)));
    }

    /** The alert a sample of this state leaves: for a change, for a state never mailed, or as a
        reminder. */
    method Schedule(now: int, state: State, physical: int) returns (row: Row, changed: bool)
      ensures row == Scheduled(loaded, emailEnabled, reminder, now, state, physical)
      ensures row.state == state && row.sampled == now && row.physical == physical
      ensures changed <==> state != loaded.state || row.pending != loaded.pending
    {
      row, changed := loaded, false;
      if state != row.state {
        row := row.(state := state, transition := now);
        if emailEnabled {
          row := row.(pending := Some(Pending(KindOf(state), now, now, 0)));
        } else {
          row := row.(pending := None);
        }
        changed := true;
      }
      if emailEnabled && state != Normal && row.pending.None? &&
         (row.last.None? || row.last.value.kind != KindOf(state)) {
        row, changed := row.(pending := Some(Pending(KindOf(state), now, now, 0))), true;
      }
      if emailEnabled && state != Normal && row.pending.None? && row.last.Some? && now - row.last.value.at >= reminder {
        row, changed := row.(pending := Some(Pending(KindOf(state), now, now, 0))), true;
      }
      row := row.(sampled := now, physical := physical);
    }

    /** Starts the delivery that is due, if any; it goes on without the lock. */
    method BeginDelivery(now: int) returns (claim: Option<Claim>)
      requires Valid() && !held && inFlight.None?
      modifies this`inFlight, this`steps
      ensures Valid() && steps == old(steps) + [Began(now)] && claim == inFlight
    {
      hide StateAfter, After;
      OneStep(steps, Began(now), Policy(warning, reminder));
      claim := None;
      if emailEnabled && now >= 0 && loaded.pending.Some? && now >= loaded.pending.value.retryAfter {
        claim := Some(Claim(loaded.pending.value.kind, loaded.pending.value.since));
      }
      inFlight, steps := claim, steps + [Began(now)];
    }

    /** Records how the delivery went, unless a newer alert has superseded it. */
    method EndDelivery(claim: Claim, now: int, delivered: bool, saved: bool)
      requires Valid() && !held && inFlight == Some(claim)
      modifies this`inFlight, this`steps, this`loaded, this`stored, this`healthy
      ensures Valid() && inFlight.None? && steps == old(steps) + [Ended(now, delivered, saved)]
      ensures healthy <==> old(healthy) && (saved || Settled(old(loaded), claim, now, delivered).None?)
    {
      hide StateAfter, After;
      OneStep(steps, Ended(now, delivered, saved), Policy(warning, reminder));
      inFlight, steps := None, steps + [Ended(now, delivered, saved)];
      if loaded.pending.None? || loaded.pending.value.kind != claim.kind || loaded.pending.value.since != claim.since { return; }
      if now < 0 { return; }
      if delivered {
        loaded := loaded.(last := Some(Mail(claim.kind, now)), pending := None);
      } else {
        var previous := loaded.pending.value.attempt;
        var attempt := previous + 1;
        if attempt > 3 { attempt := 3; }
        loaded := loaded.(pending := Some(loaded.pending.value.(attempt := attempt, retryAfter := now + RetryDelay(previous))));
      }
      if saved { stored := loaded; } else { healthy := false; }
    }

    /** Sample, then admit one writer; the guard stays held until the lease is released. */
    method AcquireWrite(reading: Option<Reading>, now: int, saved: bool) returns (admission: Admission)
      requires Valid() && !held
      modifies this
      ensures Valid() && inFlight == old(inFlight) && (held <==> admission == Lease)
      ensures admission == SampleFailed <==>
                now < 0 || reading.None? || !ValidReading(reading.value) ||
                (!saved && (loaded.state != old(loaded.state) || loaded.pending != old(loaded.pending)))
      ensures admission == Lease ==> loaded.state != Hard
      ensures admission == RefusedHard ==> loaded.state == Hard
      ensures admission != SampleFailed ==>
                && var pressure := Pressure(UsedBytes(reading.value), mainLimit, FamilyBytes(reading.value), maxBytes);
                   loaded.state == NextState(pressure, old(loaded.state), warning) && pressures == old(pressures) + [pressure]
      ensures reading.Some? && Pressure(UsedBytes(reading.value), mainLimit, FamilyBytes(reading.value), maxBytes) >= HARD_PERCENT ==>
                admission != Lease
    {
      hide AtLeastPercent, BoundedPercent, Pressure, ValidReading, UsedBytes, After, StateAfter;
      ghost var before := loaded.state;
      held := true;
      var sample, _ := SampleLocked(reading, now, false, saved);
      if sample.None? { held := false; return SampleFailed; }
      assert pressures[|pressures| - 1] == sample.value.pressure;
      NextStateMeaning(sample.value.pressure, before, warning);
      if sample.value.state == Hard { held := false; return RefusedHard; }
      admission := Lease;
    }

    /** The lease gives the guard to the next writer. */
    method Release()
      requires Valid() && held
      modifies this`held
      ensures Valid() && !held
    {
      held := false;
    }

    method Ready() returns (ready: bool)
      requires Valid()
      ensures ready <==> healthy && loaded.state != Hard
    {
      if !healthy { return false; }
      ready := last.value.state != Hard;
    }
  }

  lemma SampledRow(g: Guard, s: Step, p: Policy)
    requires s.Sampled? && s.now >= 0
    ensures var row := Scheduled(g.loaded, g.enabled, p.reminder, s.now, NextState(s.pressure, g.loaded.state, p.warning), s.physical);
            Apply(g, s, p) == Guard(row, if s.saved && (row.state != g.loaded.state || s.periodic || row.pending != g.loaded.pending)
                                         then row else g.stored, g.enabled, g.inFlight)
  {
    hide Scheduled, NextState;
  }

  lemma OneStep(steps: seq<Step>, s: Step, p: Policy)
    ensures After(steps + [s], p) == Apply(After(steps, p), s, p)
  {
    hide Apply;
    assert (steps + [s])[..|steps|] == steps;
  }
}
