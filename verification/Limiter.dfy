/** The request admission limiter: a source bucket and a concurrency slot first, then one actor
    bucket per permit, all on one clock that never runs back. */
module Limiter {
  import opened Buckets

  const MAXIMUM_CONCURRENT := 100_000
  const MAXIMUM_CLEANUP := 4096
  const MAXIMUM_RETRY_AFTER := 300 * 1_000_000_000

  datatype Config = Config(source: Rate, actor: Rate, maxSources: int, maxActors: int, maxConcurrent: int,
                           idleTtl: int, cleanupLimit: int, overloadRetryAfter: int)

  predicate ValidConfig(c: Config) {
    && ValidRate(c.source) && ValidRate(c.actor)
    && 1 <= c.maxSources <= MAXIMUM_ENTRIES && 1 <= c.maxActors <= MAXIMUM_ENTRIES
    && 1 <= c.maxConcurrent <= MAXIMUM_CONCURRENT && 1 <= c.cleanupLimit <= MAXIMUM_CLEANUP
    && MinimumFullRefill(c.source) <= c.idleTtl && MinimumFullRefill(c.actor) <= c.idleTtl
    && c.idleTtl <= MAXIMUM_IDLE_TTL && 0 < c.overloadRetryAfter <= MAXIMUM_RETRY_AFTER
  }

  function SourceLimits(c: Config): Limits { Limits(c.source, c.maxSources, c.idleTtl, c.cleanupLimit, c.overloadRetryAfter) }

  function ActorLimits(c: Config): Limits { Limits(c.actor, c.maxActors, c.idleTtl, c.cleanupLimit, c.overloadRetryAfter) }

  // ---- bucket keys ----

  function Digit(n: nat): char { '0' + (n % 10) as char }

  function Decimal(n: nat): string {
    if n < 10 then [Digit(n)] else Decimal(n / 10) + [Digit(n)]
  }

  function BucketKey(operation: string, identity: string): string {
    Decimal(|operation|) + ":" + operation + identity
  }

  lemma {:induction false} DecimalDigits(n: nat)
    ensures forall i :: 0 <= i < |Decimal(n)| ==> '0' <= Decimal(n)[i] <= '9'
  {
    if n >= 10 { DecimalDigits(n / 10); }
  }

  lemma {:induction false} DecimalUnique(m: nat, n: nat)
    requires Decimal(m) == Decimal(n)
    ensures m == n
  {
    var a, b := Decimal(m), Decimal(n);
    assert a[|a| - 1] == Digit(m) && b[|b| - 1] == Digit(n);
    if m >= 10 && n >= 10 {
      assert a[..|a| - 1] == Decimal(m / 10) && b[..|b| - 1] == Decimal(n / 10);
      DecimalUnique(m / 10, n / 10);
    }
  }

  lemma FirstColon(a: string, b: string, x: string, y: string)
    requires a + ":" + x == b + ":" + y
    requires forall i :: 0 <= i < |a| ==> a[i] != ':'
    requires forall i :: 0 <= i < |b| ==> b[i] != ':'
    ensures a == b && x == y
  {
    var s := a + ":" + x;
    assert s[|a|] == ':' && (b + ":" + y)[|b|] == ':' && s == b + ":" + y;
    assert forall i :: 0 <= i < |a| ==> s[i] == a[i];
    assert forall i :: 0 <= i < |b| ==> s[i] == b[i];
    assert a == s[..|a|] && b == s[..|b|] && x == s[|a| + 1..] && y == s[|b| + 1..];
  }

  /** Buckets of different operations or identities never share a key. */
  lemma {:induction false} KeysSeparate(operation: string, identity: string, operation': string, identity': string)
    ensures BucketKey(operation, identity) == BucketKey(operation', identity') <==> operation == operation' && identity == identity'
  {
    if BucketKey(operation, identity) == BucketKey(operation', identity') {
      var m, n := |operation|, |operation'|;
      DecimalDigits(m);
      DecimalDigits(n);
      assert Decimal(m) + ":" + (operation + identity) == BucketKey(operation, identity);
      assert Decimal(n) + ":" + (operation' + identity') == BucketKey(operation', identity');
      FirstColon(Decimal(m), Decimal(n), operation + identity, operation' + identity');
      DecimalUnique(m, n);
      assert operation == (operation + identity)[..m] && operation' == (operation' + identity')[..n];
      assert identity == (operation + identity)[m..] && identity' == (operation' + identity')[n..];
    }
  }

  // ---- the limiter ----

  datatype Verdict = Admitted | SourceRateLimited | ActorRateLimited | ConcurrencyLimited | CapacityRefused | Canceled | Invalid

  datatype Admission = Admission(verdict: Verdict, retryAfter: int)

  function AdmissionOf(result: Result, limited: Verdict): Admission {
    match result.decision
    case Allowed => Admission(Admitted, 0)
    case RateLimited => Admission(limited, result.retryAfter)
    case CapacityLimited => Admission(CapacityRefused, result.retryAfter)
  }

  class Permit {
    const limiter: AdmissionLimiter
    const operation: string
    var active: bool
    var actorChecked: bool

    constructor (limiter: AdmissionLimiter, operation: string)
      ensures this.limiter == limiter && this.operation == operation && active && !actorChecked
    {
      this.limiter, this.operation := limiter, operation;
      active, actorChecked := true, false;
    }
  }

  ghost function ActiveIn(permits: set<Permit>): set<Permit>
    reads permits`active
  {
    set p | p in permits && p.active
  }

  class AdmissionLimiter {
    const config: Config
    const sources: BucketPool
    const actors: BucketPool
    var inFlight: int
    var lastNow: int
    ghost var permits: set<Permit>

    constructor (config: Config)
      requires ValidConfig(config)
      ensures Valid() && this.config == config && permits == {} && fresh(sources) && fresh(actors)
    {
      this.config := config;
      sources := new BucketPool(SourceLimits(config));
      actors := new BucketPool(ActorLimits(config));
      inFlight, lastNow, permits := 0, 0, {};
    }

    /** In-flight is the number of active permits and never above the ceiling. */
    ghost predicate Valid()
      reads this, sources, actors, permits
    {
      && ValidConfig(config) && sources != actors
      && sources.Valid() && sources.limits == SourceLimits(config) && sources.clock <= lastNow
      && actors.Valid() && actors.limits == ActorLimits(config) && actors.clock <= lastNow
      && (forall p :: p in permits ==> p.limiter == this)
      && 0 <= inFlight == |ActiveIn(permits)| <= config.maxConcurrent
    }

    method CurrentTime(now: int) returns (time: int)
      modifies this`lastNow
      ensures time == lastNow == if now < old(lastNow) then old(lastNow) else now
    {
      if now < lastNow { return lastNow; }
      lastNow := now;
      time := now;
    }

    /** The first stage: refuse on the ceiling before touching any bucket, else take one source
        token; the permit exists exactly when the request is admitted. */
    method AdmitSource(validInput: bool, canceled: bool, operation: string, source: string, now: int)
      returns (permit: Permit?, admission: Admission)
      requires Valid()
      modifies this, sources
      ensures Valid() && actors.history == old(actors.history)
      ensures !validInput ==> admission.verdict == Invalid
      ensures validInput && canceled ==> admission.verdict == Canceled
      ensures validInput && !canceled && old(inFlight) == config.maxConcurrent ==>
                admission == Admission(ConcurrencyLimited, config.overloadRetryAfter)
      ensures !validInput || canceled || old(inFlight) == config.maxConcurrent ==>
                sources.history == old(sources.history) && lastNow == old(lastNow)
      ensures validInput && !canceled && old(inFlight) < config.maxConcurrent ==>
                && lastNow == (if now < old(lastNow) then old(lastNow) else now)
                && sources.history != [] && var e := sources.history[|sources.history| - 1];
                   && sources.history == old(sources.history) + [e]
                   && e.key == BucketKey(operation, source) && e.at == lastNow
                   && admission == AdmissionOf(e.result, SourceRateLimited)
      ensures permit != null <==> admission.verdict == Admitted
      ensures permit == null ==> permits == old(permits) && inFlight == old(inFlight)
      ensures permit != null ==>
                && fresh(permit) && permit.active && !permit.actorChecked && permit.operation == operation
                && permits == old(permits) + {permit} && inFlight == old(inFlight) + 1
    {
      hide PoolOk, ValidLimits, BucketKey, ValidConfig, Buckets.Admitted;
      permit := null;
      if !validInput { return null, Admission(Invalid, 0); }
      if canceled { return null, Admission(Canceled, 0); }
      if inFlight >= config.maxConcurrent { return null, Admission(ConcurrencyLimited, config.overloadRetryAfter); }
      var time := CurrentTime(now);
      var result := sources.Admit(BucketKey(operation, source), time);
      admission := AdmissionOf(result, SourceRateLimited);
      if result.decision != Allowed { return; }
      permit := Grant(operation);
    }

    method Grant(operation: string) returns (permit: Permit)
      requires Valid() && inFlight < config.maxConcurrent
      modifies this`inFlight, this`permits
      ensures Valid() && fresh(permit) && permit.active && !permit.actorChecked && permit.operation == operation
      ensures permits == old(permits) + {permit} && inFlight == old(inFlight) + 1
    {
      hide PoolOk, ValidLimits, ValidConfig;
      permit := new Permit(this, operation);
      ghost var before := ActiveIn(permits);
      inFlight := inFlight + 1;
      permits := permits + {permit};
      assert ActiveIn(permits) == before + {permit};
    }

    /** The second stage, once per permit and only while it is held. */
    method AdmitActor(permit: Permit, validInput: bool, canceled: bool, operation: string, actor: string, now: int)
      returns (admission: Admission)
      requires Valid() && permit in permits
      modifies this`lastNow, actors, permit`actorChecked
      ensures Valid() && inFlight == old(inFlight) && sources.history == old(sources.history)
      ensures var usable := old(permit.active && permit.operation == operation && !permit.actorChecked);
              if !validInput || canceled || !usable then
                && admission.verdict == (if validInput && canceled then Canceled else Invalid)
                && actors.history == old(actors.history) && permit.actorChecked == old(permit.actorChecked)
              else
                && permit.actorChecked && actors.history != []
                && var e := actors.history[|actors.history| - 1];
                   && actors.history == old(actors.history) + [e]
                   && e.key == BucketKey(operation, actor) && e.at == lastNow
                   && admission == AdmissionOf(e.result, ActorRateLimited)
    {
      hide PoolOk, ValidLimits, BucketKey, ValidConfig, Buckets.Admitted;
      if !validInput { return Admission(Invalid, 0); }
      if canceled { return Admission(Canceled, 0); }
      if !permit.active || permit.operation != operation || permit.actorChecked { return Admission(Invalid, 0); }
      permit.actorChecked := true;
      var time := CurrentTime(now);
      var result := actors.Admit(BucketKey(operation, actor), time);
      admission := AdmissionOf(result, ActorRateLimited);
    }

    /** Gives the slot back once, however often it is called. */
    method Release(permit: Permit)
      requires Valid() && permit in permits
      modifies this`inFlight, permit`active
      ensures Valid() && !permit.active
      ensures inFlight == old(inFlight) - (if old(permit.active) then 1 else 0)
    {
      if permit.active {
        ghost var before := ActiveIn(permits);
        assert permit in before;
        permit.active := false;
        assert ActiveIn(permits) == before - {permit};
        if inFlight > 0 { inFlight := inFlight - 1; }
        assert ActiveIn(permits) == before - {permit} && |before - {permit}| == |before| - 1;
      }
    }
  }
}
