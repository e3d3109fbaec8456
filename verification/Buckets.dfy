/** Discrete token buckets in a bounded pool with idle eviction, against a reference that
    never forgets a key: a continuous level that refills at one token per interval. */
module Buckets {
  import opened Keyset

  const MAXIMUM_ENTRIES := 1_000_000
  const MAXIMUM_BURST := 100_000
  const MAXIMUM_INTERVAL := 24 * 3600 * 1_000_000_000
  const MAXIMUM_IDLE_TTL := 30 * 24 * 3600 * 1_000_000_000

  datatype Rate = Rate(burst: int, interval: int)

  datatype Bucket = Bucket(tokens: int, lastRefill: int, lastSeen: int)

  datatype Decision = Allowed | RateLimited | CapacityLimited

  datatype Result = Result(decision: Decision, retryAfter: int)

  /** Keys in `order` run from the least to the most recently seen. */
  datatype Pool = Pool(entries: map<string, Bucket>, order: seq<string>)

  datatype Limits = Limits(rate: Rate, maximum: int, idleTtl: int, cleanupLimit: int, overloadRetryAfter: int)

  predicate ValidRate(rate: Rate) {
    1 <= rate.burst <= MAXIMUM_BURST && 0 < rate.interval <= MAXIMUM_INTERVAL
  }

  function MinimumFullRefill(rate: Rate): int {
    if !ValidRate(rate) || rate.burst > MAXIMUM_IDLE_TTL / rate.interval then MAXIMUM_IDLE_TTL + 1
    else rate.burst * rate.interval
  }

  predicate ValidLimits(c: Limits) {
    && ValidRate(c.rate) && 1 <= c.maximum <= MAXIMUM_ENTRIES && c.cleanupLimit >= 1
    && MinimumFullRefill(c.rate) <= c.idleTtl <= MAXIMUM_IDLE_TTL && c.overloadRetryAfter > 0
  }

  lemma ProductBound(a: int, b: int, top: int)
    requires b > 0
    ensures a <= top / b <==> a * b <= top
  {
    var q := top / b;
    assert top == q * b + top % b;
    if a <= q { assert a * b <= q * b; }
    if a > q { assert a * b >= (q + 1) * b; }
  }

  /** The division guard that keeps the product from overflowing loses nothing: a configuration
      is accepted exactly when its idle time covers one full refill. */
  lemma {:induction false} IdleCoversRefill(c: Limits)
    requires ValidRate(c.rate) && 1 <= c.maximum <= MAXIMUM_ENTRIES && c.cleanupLimit >= 1 && c.overloadRetryAfter > 0
    ensures ValidLimits(c) <==> c.rate.burst * c.rate.interval <= c.idleTtl <= MAXIMUM_IDLE_TTL
  {
    ProductBound(c.rate.burst, c.rate.interval, MAXIMUM_IDLE_TTL);
  }

  // ---- the pool ----

  predicate Distinct(order: seq<string>) {
    forall i, j :: 0 <= i < j < |order| ==> order[i] != order[j]
  }

  predicate InSeenOrder(entries: map<string, Bucket>, order: seq<string>) {
    forall i, j :: 0 <= i < j < |order| && order[i] in entries && order[j] in entries ==>
      entries[order[i]].lastSeen <= entries[order[j]].lastSeen
  }

  /** Map and list hold the same keys, and the list is in last-seen order. */
  ghost predicate Consistent(pool: Pool) {
    && Distinct(pool.order) && InSeenOrder(pool.entries, pool.order)
    && forall key :: key in pool.order <==> key in pool.entries
  }

  function Refilled(b: Bucket, now: int, rate: Rate): Bucket
    requires rate.interval > 0
  {
    if now <= b.lastRefill then b
    else
      var steps := (now - b.lastRefill) / rate.interval;
      if b.tokens + steps >= rate.burst then b.(tokens := rate.burst, lastRefill := now)
      else b.(tokens := b.tokens + steps, lastRefill := b.lastRefill + steps * rate.interval)
  }

  function RetryAfter(b: Bucket, now: int, interval: int): int {
    if now <= b.lastRefill || now - b.lastRefill >= interval then interval else interval - (now - b.lastRefill)
  }

  predicate Idle(b: Bucket, now: int, ttl: int) { now >= b.lastSeen && now - b.lastSeen >= ttl }

  lemma FrontIn(pool: Pool)
    requires Consistent(pool) && pool.order != []
    ensures pool.order[0] in pool.entries
  {
  }

  lemma ConsistentTail(pool: Pool)
    requires Consistent(pool) && pool.order != []
    ensures Consistent(Pool(pool.entries - {pool.order[0]}, pool.order[1..]))
  {
    var oldest, rest := pool.order[0], pool.order[1..];
    assert pool.order == [oldest] + rest;
    assert oldest !in rest;
  }

  /** Up to `limit` buckets leave from the front of the list while they are idle. */
  function Cleaned(pool: Pool, now: int, ttl: int, limit: nat): (r: Pool)
    requires Consistent(pool)
    ensures Consistent(r) && r.entries.Keys <= pool.entries.Keys
    ensures forall key :: key in r.entries ==> r.entries[key] == pool.entries[key]
    decreases limit
  {
    if pool.order == [] then pool else
    FrontIn(pool);
    if limit == 0 || !Idle(pool.entries[pool.order[0]], now, ttl) then pool
    else
      ConsistentTail(pool);
      Cleaned(Pool(pool.entries - {pool.order[0]}, pool.order[1..]), now, ttl, limit - 1)
  }

  lemma CleanedStep(pool: Pool, now: int, ttl: int, limit: nat)
    requires Consistent(pool) && limit > 0 && pool.order != [] && pool.order[0] in pool.entries
    requires Idle(pool.entries[pool.order[0]], now, ttl)
    ensures Consistent(Pool(pool.entries - {pool.order[0]}, pool.order[1..]))
    ensures Cleaned(pool, now, ttl, limit) == Cleaned(Pool(pool.entries - {pool.order[0]}, pool.order[1..]), now, ttl, limit - 1)
  {
    hide Consistent;
    ConsistentTail(pool);
  }

  /** Nothing is removed past the limit, from an empty list, or from a busy front. */
  lemma CleanedStops(pool: Pool, now: int, ttl: int, limit: nat)
    requires Consistent(pool)
    requires limit == 0 || pool.order == [] || (pool.order[0] in pool.entries && !Idle(pool.entries[pool.order[0]], now, ttl))
    ensures Cleaned(pool, now, ttl, limit) == pool
  {
    hide Consistent;
  }

  function Without(order: seq<string>, key: string): seq<string> {
    if order == [] then []
    else if order[0] == key then order[1..]
    else [order[0]] + Without(order[1..], key)
  }

  lemma {:induction false} WithoutKey(order: seq<string>, key: string)
    requires Distinct(order)
    ensures forall k :: k in Without(order, key) <==> k in order && k != key
    ensures Distinct(Without(order, key))
  {
    if order != [] {
      assert order == [order[0]] + order[1..];
      assert forall i :: 0 <= i < |order[1..]| ==> order[1..][i] != order[0];
      if order[0] != key {
        WithoutKey(order[1..], key);
        var r := Without(order[1..], key);
        assert order[0] !in r;
        assert forall i :: 0 <= i < |r| ==> r[i] != order[0];
      }
    }
  }

  lemma {:induction false} WithoutAt(order: seq<string>, key: string) returns (i: nat)
    requires key in order
    ensures i < |order| && order[i] == key && Without(order, key) == order[..i] + order[i + 1..]
  {
    if order[0] == key {
      i := 0;
    } else {
      var j := WithoutAt(order[1..], key);
      i := j + 1;
    }
  }

  lemma WithoutInOrder(entries: map<string, Bucket>, order: seq<string>, key: string)
    requires InSeenOrder(entries, order) && key in order
    ensures InSeenOrder(entries, Without(order, key))
  {
    var i := WithoutAt(order, key);
    var rest := Without(order, key);
    assert forall j :: 0 <= j < |rest| ==> rest[j] == order[if j < i then j else j + 1];
  }

  lemma AppendLatest(entries: map<string, Bucket>, rest: seq<string>, key: string, b: Bucket)
    requires Distinct(rest) && InSeenOrder(entries, rest) && key !in rest
    requires forall k :: k in entries ==> entries[k].lastSeen <= b.lastSeen
    requires forall k :: k in rest <==> k in entries && k != key
    ensures Consistent(Pool(entries[key := b], rest + [key]))
  {
    var order := rest + [key];
    assert forall k :: k in order <==> k in rest || k == key;
    assert forall i :: 0 <= i < |rest| ==> rest[i] in rest && rest[i] != key;
  }

  /** Moving a key to the back with the latest time keeps the list in last-seen order. */
  lemma MovedToBack(pool: Pool, key: string, b: Bucket)
    requires Consistent(pool)
    requires forall k :: k in pool.entries ==> pool.entries[k].lastSeen <= b.lastSeen
    ensures Consistent(Pool(pool.entries[key := b], (if key in pool.entries then Without(pool.order, key) else pool.order) + [key]))
  {
    hide InSeenOrder, Distinct, Without;
    if key in pool.entries {
      WithoutKey(pool.order, key);
      WithoutInOrder(pool.entries, pool.order, key);
      AppendLatest(pool.entries, Without(pool.order, key), key, b);
    } else {
      AppendLatest(pool.entries, pool.order, key, b);
    }
  }

  /** One request: cleanup, then a new full bucket or a refilled one, moved to the back. */
  function Admitted(pool: Pool, key: string, now: int, c: Limits): (Pool, Result)
    requires Consistent(pool) && ValidLimits(c)
  {
    var cleaned := Cleaned(pool, now, c.idleTtl, c.cleanupLimit);
    if key !in cleaned.entries && |cleaned.entries| >= c.maximum then (cleaned, Result(CapacityLimited, c.overloadRetryAfter))
    else
      var b := if key in cleaned.entries then
                 var refilled := Refilled(cleaned.entries[key], now, c.rate);
                 refilled.(lastSeen := if now > refilled.lastSeen then now else refilled.lastSeen)
               else Bucket(c.rate.burst, now, now);
      var order := (if key in cleaned.entries then Without(cleaned.order, key) else cleaned.order) + [key];
      if b.tokens < 1 then
        (Pool(cleaned.entries[key := b], order), Result(RateLimited, RetryAfter(b, now, c.rate.interval)))
      else (Pool(cleaned.entries[key := b.(tokens := b.tokens - 1)], order), Result(Allowed, 0))
  }

  // ---- the reference: one level per key, never forgotten ----

  datatype Entry = Entry(key: string, at: int, result: Result)

  /** A key's level, in units of time: full before its first request, minus one interval per
      allowed request, plus the time passed, never above full. */
  function Level(history: seq<Entry>, key: string, rate: Rate, now: int): int
    decreases |history|
  {
    if history == [] then rate.burst * rate.interval
    else
      var front, last := history[..|history| - 1], history[|history| - 1];
      if last.key != key || last.result.decision == CapacityLimited then Level(front, key, rate, now)
      else Min(rate.burst * rate.interval,
                 Level(front, key, rate, last.at) - (if last.result.decision == Allowed then rate.interval else 0) + now - last.at)
  }

  /** What the reference decides; a refusal names the time the level still lacks. */
  predicate Decides(history: seq<Entry>, e: Entry, c: Limits) {
    var level := Level(history, e.key, c.rate, e.at);
    match e.result.decision
    case Allowed => level >= c.rate.interval
    case RateLimited => level < c.rate.interval && e.result.retryAfter == c.rate.interval - level
    case CapacityLimited => e.result.retryAfter == c.overloadRetryAfter
  }

  /** A history in clock order whose decisions are the reference's, capacity refusals aside. */
  predicate Faithful(history: seq<Entry>, c: Limits, clock: int) {
    && (forall i :: 0 <= i < |history| ==> history[i].at <= clock && Decides(history[..i], history[i], c))
    && (forall i, j :: 0 <= i < j < |history| ==> history[i].at <= history[j].at)
  }

  lemma {:induction false} FaithfulFront(history: seq<Entry>, c: Limits, clock: int)
    requires Faithful(history, c, clock) && history != []
    ensures var front, last := history[..|history| - 1], history[|history| - 1];
            Faithful(front, c, last.at) && Decides(front, last, c) && last.at <= clock
  {
    hide Decides;
    var front := history[..|history| - 1];
    forall i | 0 <= i < |front|
      ensures Decides(front[..i], front[i], c)
    {
      assert front[..i] == history[..i];
    }
  }

  lemma FaithfulExtends(history: seq<Entry>, e: Entry, c: Limits, clock: int)
    requires Faithful(history, c, clock) && clock <= e.at && Decides(history, e, c)
    ensures Faithful(history + [e], c, e.at)
  {
    hide Decides;
    var all := history + [e];
    forall i | 0 <= i < |all|
      ensures Decides(all[..i], all[i], c)
    {
      assert all[..i] == history[..i];
      assert history[..|history|] == history;
    }
  }

  lemma {:induction false} LevelBounds(history: seq<Entry>, key: string, c: Limits, clock: int, now: int)
    requires Faithful(history, c, clock) && clock <= now && ValidRate(c.rate)
    ensures 0 <= Level(history, key, c.rate, now) <= c.rate.burst * c.rate.interval
    decreases |history|
  {
    hide Faithful;
    if history != [] {
      var front, last := history[..|history| - 1], history[|history| - 1];
      FaithfulFront(history, c, clock);
      LevelBounds(front, key, c, last.at, last.at);
      LevelBounds(front, key, c, last.at, now);
    }
  }

  /** Time alone refills the level up to full. */
  lemma {:induction false} LevelLater(history: seq<Entry>, key: string, c: Limits, clock: int, now: int, later: int)
    requires Faithful(history, c, clock) && clock <= now <= later && ValidRate(c.rate)
    ensures Level(history, key, c.rate, later) == Min(c.rate.burst * c.rate.interval, Level(history, key, c.rate, now) + later - now)
    decreases |history|
  {
    hide Faithful;
    if history != [] {
      FaithfulFront(history, c, clock);
      LevelLater(history[..|history| - 1], key, c, history[|history| - 1].at, now, later);
    }
  }

  function AllowedIn(history: seq<Entry>, key: string): nat {
    if history == [] then 0
    else
      var last := history[|history| - 1];
      AllowedIn(history[..|history| - 1], key) + (if last.key == key && last.result.decision == Allowed then 1 else 0)
  }

  lemma {:induction false} LevelPaysForAllowed(history: seq<Entry>, key: string, c: Limits, clock: int, i: nat, start: int, now: int)
    requires Faithful(history, c, clock) && i <= |history| && clock <= now && ValidRate(c.rate)
    requires (i < |history| ==> start <= history[i].at) && (i > 0 ==> history[i - 1].at <= start) && start <= now
    ensures Level(history, key, c.rate, now) + AllowedIn(history[i..], key) * c.rate.interval <=
            Level(history[..i], key, c.rate, start) + now - start
    decreases |history|
  {
    hide Faithful;
    if i == |history| {
      assert history[..i] == history && history[i..] == [];
      if history != [] {
        FaithfulAt(history, c, clock, start);
        LevelLater(history, key, c, start, start, now);
      }
    } else {
      var n := |history| - 1;
      var front, last := history[..n], history[n];
      FaithfulFront(history, c, clock);
      InClockOrder(history, c, clock, i);
      LevelPaysForAllowed(front, key, c, last.at, i, start, last.at);
      LevelLater(front, key, c, last.at, last.at, now);
      assert front[..i] == history[..i];
      AllowedStep(history, i, key, c.rate.interval);
      LevelStep(history, key, c.rate, now);
    }
  }

  lemma InClockOrder(history: seq<Entry>, c: Limits, clock: int, i: nat)
    requires Faithful(history, c, clock) && i < |history|
    ensures history[i].at <= history[|history| - 1].at
  {
    hide Decides;
  }

  lemma AllowedStep(history: seq<Entry>, i: nat, key: string, interval: int)
    requires i < |history|
    ensures var n := |history| - 1; var last := history[n];
            AllowedIn(history[i..], key) * interval ==
            AllowedIn(history[..n][i..], key) * interval + (if last.key == key && last.result.decision == Allowed then interval else 0)
  {
    var n := |history| - 1;
    assert history[i..][..n - i] == history[..n][i..] && history[i..][n - i] == history[n];
  }

  /** Appending an entry costs its key at most what it was allowed. */
  lemma LevelStep(history: seq<Entry>, key: string, rate: Rate, now: int)
    requires history != []
    ensures var n := |history| - 1; var last := history[n];
            Level(history, key, rate, now) <=
            (if last.key == key && last.result.decision != CapacityLimited
             then Level(history[..n], key, rate, last.at) - (if last.result.decision == Allowed then rate.interval else 0) + now - last.at
             else Level(history[..n], key, rate, now))
  {
  }

  lemma FaithfulAt(history: seq<Entry>, c: Limits, clock: int, start: int)
    requires Faithful(history, c, clock) && history != [] && history[|history| - 1].at <= start
    ensures Faithful(history, c, start)
  {
    hide Decides;
  }

  /** In every window, whatever the pool evicted meanwhile, a key is allowed at most its burst
      plus one request per elapsed refill interval. */
  lemma {:induction false} WindowBound(history: seq<Entry>, key: string, c: Limits, clock: int, i: nat, j: nat)
    requires Faithful(history, c, clock) && i < j <= |history| && ValidRate(c.rate)
    ensures AllowedIn(history[i..j], key) <= c.rate.burst + (history[j - 1].at - history[i].at) / c.rate.interval
  {
    hide Faithful, Level, AllowedIn;
    var upto, start, now := history[..j], history[i].at, history[j - 1].at;
    FaithfulPrefix(history, c, clock, j);
    FaithfulPrefix(history, c, clock, i);
    InClockOrder(upto, c, now, i);
    InOrderBefore(history, c, clock, i);
    LevelPaysForAllowed(upto, key, c, now, i, start, now);
    LevelBounds(upto, key, c, now, now);
    assert upto[..i] == history[..i] && upto[i..] == history[i..j];
    LevelBounds(history[..i], key, c, start, start);
    CountBound(AllowedIn(history[i..j], key), c.rate, now - start);
  }

  lemma InOrderBefore(history: seq<Entry>, c: Limits, clock: int, i: nat)
    requires Faithful(history, c, clock) && i < |history|
    ensures i > 0 ==> history[i - 1].at <= history[i].at
  {
    hide Decides;
  }

  lemma CountBound(count: int, rate: Rate, window: int)
    requires rate.interval > 0 && count * rate.interval <= rate.burst * rate.interval + window
    ensures count <= rate.burst + window / rate.interval
  {
    assert (count - rate.burst) * rate.interval == count * rate.interval - rate.burst * rate.interval;
    ProductBound(count - rate.burst, rate.interval, window);
  }

  lemma FaithfulPrefix(history: seq<Entry>, c: Limits, clock: int, n: nat)
    requires Faithful(history, c, clock) && n <= |history|
    ensures n > 0 ==> Faithful(history[..n], c, history[n - 1].at)
    ensures n < |history| ==> Faithful(history[..n], c, history[n].at)
  {
    hide Decides;
    forall i | 0 <= i < n
      ensures Decides(history[..n][..i], history[..n][i], c)
    {
      assert history[..n][..i] == history[..i];
    }
  }

  // ---- the pool keeps the reference's levels ----

  function BucketLevel(b: Bucket, rate: Rate, now: int): int {
    Min(rate.burst * rate.interval, b.tokens * rate.interval + now - b.lastRefill)
  }

  predicate BucketOk(b: Bucket, c: Limits, clock: int) {
    0 <= b.tokens <= c.rate.burst && b.lastRefill <= b.lastSeen <= clock
  }

  /** A pooled key's bucket holds its level; a key without a bucket is full. */
  ghost predicate Matches(entries: map<string, Bucket>, history: seq<Entry>, c: Limits, clock: int) {
    && (forall key :: key in entries ==> BucketOk(entries[key], c, clock))
    && (forall key, now :: key in entries && clock <= now ==> Level(history, key, c.rate, now) == BucketLevel(entries[key], c.rate, now))
    && (forall key, now :: key !in entries && clock <= now ==> Level(history, key, c.rate, now) == c.rate.burst * c.rate.interval)
  }

  ghost predicate PoolOk(pool: Pool, history: seq<Entry>, c: Limits, clock: int) {
    && Consistent(pool) && |pool.entries| <= c.maximum
    && Faithful(history, c, clock) && Matches(pool.entries, history, c, clock)
  }

  lemma IdleIsFull(b: Bucket, c: Limits, clock: int, now: int, later: int)
    requires ValidLimits(c) && BucketOk(b, c, clock) && Idle(b, now, c.idleTtl) && now <= later
    ensures BucketLevel(b, c.rate, later) == c.rate.burst * c.rate.interval
  {
    IdleCoversRefill(c);
    assert b.tokens * c.rate.interval >= 0;
  }

  /** Eviction forgets nothing: an idle bucket is full, and so is one that is not there. */
  lemma {:induction false} CleanedMatches(pool: Pool, history: seq<Entry>, c: Limits, clock: int, now: int, limit: nat)
    requires ValidLimits(c) && Consistent(pool) && Matches(pool.entries, history, c, clock) && clock <= now
    ensures Matches(Cleaned(pool, now, c.idleTtl, limit).entries, history, c, now)
    decreases limit
  {
    hide ValidLimits, Consistent, Level, BucketLevel, Idle;
    if limit > 0 && pool.order != [] {
      FrontIn(pool);
      var oldest := pool.order[0];
      if Idle(pool.entries[oldest], now, c.idleTtl) {
        forall later | now <= later
          ensures BucketLevel(pool.entries[oldest], c.rate, later) == c.rate.burst * c.rate.interval
        {
          IdleIsFull(pool.entries[oldest], c, clock, now, later);
        }
        ConsistentTail(pool);
        CleanedMatches(Pool(pool.entries - {oldest}, pool.order[1..]), history, c, now, now, limit - 1);
      }
    }
  }

  /** A refilled bucket states its level exactly, and has a token exactly when the level has an
      interval. */
  lemma RefilledExact(b: Bucket, c: Limits, clock: int, now: int)
    requires ValidRate(c.rate) && BucketOk(b, c, clock) && clock <= now
    ensures var r := Refilled(b, now, c.rate);
            && 0 <= r.tokens <= c.rate.burst && r.lastRefill <= now && r.lastSeen == b.lastSeen
            && now - r.lastRefill < c.rate.interval
            && r.tokens * c.rate.interval + now - r.lastRefill == BucketLevel(b, c.rate, now)
  {
    hide MinimumFullRefill;
    var elapsed := now - b.lastRefill;
    var steps := elapsed / c.rate.interval;
    RefillSteps(elapsed, c.rate.interval);
    SplitTime(elapsed, c.rate.interval);
    TimesOrder(b.tokens, c.rate.burst, c.rate.interval);
    if b.tokens + steps >= c.rate.burst {
      RefillsFully(b.tokens, steps, c.rate, elapsed);
    } else {
      RefillsPartly(b.tokens, steps, c.rate, elapsed);
    }
  }

  lemma RefillsFully(tokens: int, steps: int, rate: Rate, elapsed: int)
    requires rate.interval > 0 && tokens + steps >= rate.burst && steps * rate.interval <= elapsed
    ensures rate.burst * rate.interval <= tokens * rate.interval + elapsed
  {
    TimesSum(tokens, steps, rate.interval);
    TimesOrder(rate.burst, tokens + steps, rate.interval);
  }

  lemma RefillsPartly(tokens: int, steps: int, rate: Rate, elapsed: int)
    requires rate.interval > 0 && tokens + steps < rate.burst
    requires steps * rate.interval <= elapsed < steps * rate.interval + rate.interval
    ensures (tokens + steps) * rate.interval + elapsed - steps * rate.interval == tokens * rate.interval + elapsed
    ensures tokens * rate.interval + elapsed <= rate.burst * rate.interval
  {
    TimesSum(tokens, steps, rate.interval);
    TimesSum(tokens + steps, 1, rate.interval);
    TimesOrder(tokens + steps + 1, rate.burst, rate.interval);
  }

  lemma RefillSteps(elapsed: int, interval: int)
    requires interval > 0
    ensures elapsed >= 0 ==> elapsed / interval >= 0
    ensures elapsed / interval == 0 ==> elapsed / interval * interval == 0
  {
  }

  lemma SplitTime(elapsed: int, interval: int)
    requires interval > 0
    ensures elapsed / interval * interval <= elapsed < elapsed / interval * interval + interval
  {
  }

  lemma TimesSum(a: int, b: int, interval: int)
    ensures (a + b) * interval == a * interval + b * interval
  {
  }

  lemma TimesOrder(a: int, b: int, interval: int)
    requires a <= b && interval > 0
    ensures a * interval <= b * interval
  {
  }

  lemma ExactDecides(r: Bucket, rate: Rate, now: int, level: int)
    requires ValidRate(rate) && 0 <= r.tokens && r.lastRefill <= now && now - r.lastRefill < rate.interval
    requires r.tokens * rate.interval + now - r.lastRefill == level
    ensures r.tokens >= 1 <==> level >= rate.interval
    ensures r.tokens < 1 ==> RetryAfter(r, now, rate.interval) == rate.interval - level
    ensures (r.tokens - 1) * rate.interval + now - r.lastRefill == level - rate.interval
  {
    if r.tokens >= 1 { assert r.tokens * rate.interval >= rate.interval; }
    assert (r.tokens - 1) * rate.interval == r.tokens * rate.interval - rate.interval;
  }

  /** The bucket a request finds: refilled, or new and full. */
  function Found(entries: map<string, Bucket>, key: string, now: int, c: Limits): Bucket
    requires c.rate.interval > 0
  {
    if key in entries then
      var refilled := Refilled(entries[key], now, c.rate);
      refilled.(lastSeen := if now > refilled.lastSeen then now else refilled.lastSeen)
    else Bucket(c.rate.burst, now, now)
  }

  lemma FoundExact(entries: map<string, Bucket>, history: seq<Entry>, key: string, now: int, c: Limits)
    requires ValidRate(c.rate) && Matches(entries, history, c, now)
    ensures var b := Found(entries, key, now, c);
            && 0 <= b.tokens <= c.rate.burst && b.lastRefill <= now == b.lastSeen && now - b.lastRefill < c.rate.interval
            && b.tokens * c.rate.interval + now - b.lastRefill == Level(history, key, c.rate, now)
  {
    hide Level, Refilled;
    if key in entries { RefilledExact(entries[key], c, now, now); }
  }

  /** Writing back the bucket a request leaves keeps every level. */
  lemma {:induction false} WriteMatches(entries: map<string, Bucket>, history: seq<Entry>, e: Entry, b: Bucket, c: Limits)
    requires ValidRate(c.rate) && Matches(entries, history, c, e.at) && Faithful(history, c, e.at)
    requires e.result.decision != CapacityLimited && BucketOk(b, c, e.at)
    requires b.tokens * c.rate.interval + e.at - b.lastRefill ==
             Level(history, e.key, c.rate, e.at) - (if e.result.decision == Allowed then c.rate.interval else 0)
    ensures Matches(entries[e.key := b], history + [e], c, e.at)
  {
    hide Faithful, BucketOk;
    forall key, now | e.at <= now
      ensures Level(history + [e], key, c.rate, now) ==
              if key == e.key then BucketLevel(b, c.rate, now) else Level(history, key, c.rate, now)
    {
      LevelAppend(history, e, key, c.rate, now);
    }
  }

  lemma LevelAppend(history: seq<Entry>, e: Entry, key: string, rate: Rate, now: int)
    ensures Level(history + [e], key, rate, now) ==
            if e.key != key || e.result.decision == CapacityLimited then Level(history, key, rate, now)
            else Min(rate.burst * rate.interval,
                       Level(history, key, rate, e.at) - (if e.result.decision == Allowed then rate.interval else 0) + now - e.at)
  {
    assert (history + [e])[..|history|] == history;
  }

  lemma CapacityMatches(entries: map<string, Bucket>, history: seq<Entry>, e: Entry, c: Limits)
    requires Matches(entries, history, c, e.at) && e.result.decision == CapacityLimited
    ensures Matches(entries, history + [e], c, e.at)
  {
    hide Level, BucketLevel, BucketOk;
    forall key, now ensures Level(history + [e], key, c.rate, now) == Level(history, key, c.rate, now)
    {
      LevelAppend(history, e, key, c.rate, now);
    }
  }

  lemma SizeAfterWrite(entries: map<string, Bucket>, key: string, b: Bucket, maximum: int)
    requires |entries| <= maximum && (key in entries || |entries| < maximum)
    ensures |entries[key := b]| <= maximum
  {
    if key in entries { assert entries[key := b].Keys == entries.Keys; }
  }

  lemma CleanedSize(pool: Pool, now: int, ttl: int, limit: nat)
    requires Consistent(pool)
    ensures |Cleaned(pool, now, ttl, limit).entries| <= |pool.entries|
    ensures pool.order != [] && Idle(pool.entries[pool.order[0]], now, ttl) && limit > 0 ==>
              |Cleaned(pool, now, ttl, limit).entries| < |pool.entries|
    decreases limit
  {
    hide Consistent, Idle;
    if limit > 0 && pool.order != [] {
      FrontIn(pool);
      var oldest := pool.order[0];
      if Idle(pool.entries[oldest], now, ttl) {
        ConsistentTail(pool);
        var rest := Pool(pool.entries - {oldest}, pool.order[1..]);
        assert rest.entries.Keys == pool.entries.Keys - {oldest};
        CleanedSize(rest, now, ttl, limit - 1);
      }
    }
  }

  /** The main simulation: every admission decides as the reference does, and the pool it leaves
      still holds the reference's levels. */
  lemma {:induction false} AdmitKeeps(pool: Pool, history: seq<Entry>, c: Limits, clock: int, key: string, now: int)
    requires PoolOk(pool, history, c, clock) && ValidLimits(c) && clock <= now
    ensures var (after, result) := Admitted(pool, key, now, c);
            PoolOk(after, history + [Entry(key, now, result)], c, now)
  {
    hide Consistent, Faithful, Matches, Level, Cleaned, Refilled, RetryAfter, Without, BucketLevel, MinimumFullRefill;
    var cleaned := Cleaned(pool, now, c.idleTtl, c.cleanupLimit);
    CleanedMatches(pool, history, c, clock, now, c.cleanupLimit);
    CleanedSize(pool, now, c.idleTtl, c.cleanupLimit);
    var (after, result) := Admitted(pool, key, now, c);
    var e := Entry(key, now, result);
    if result.decision == CapacityLimited {
      CapacityMatches(cleaned.entries, history, e, c);
      FaithfulExtends(history, e, c, clock);
    } else {
      var b := Found(cleaned.entries, key, now, c);
      FoundExact(cleaned.entries, history, key, now, c);
      ExactDecides(b, c.rate, now, Level(history, key, c.rate, now));
      FaithfulExtends(history, e, c, clock);
      FaithfulLater(history, c, clock, now);
      var left := if b.tokens < 1 then b else b.(tokens := b.tokens - 1);
      WriteMatches(cleaned.entries, history, e, left, c);
      SeenBy(cleaned.entries, history, c, now, left);
      MovedToBack(cleaned, key, left);
      SizeAfterWrite(cleaned.entries, key, left, c.maximum);
    }
  }

  lemma FaithfulLater(history: seq<Entry>, c: Limits, clock: int, now: int)
    requires Faithful(history, c, clock) && clock <= now
    ensures Faithful(history, c, now)
  {
    hide Decides;
  }

  lemma SeenBy(entries: map<string, Bucket>, history: seq<Entry>, c: Limits, now: int, b: Bucket)
    requires Matches(entries, history, c, now) && b.lastSeen == now
    ensures forall k :: k in entries ==> entries[k].lastSeen <= b.lastSeen
  {
    hide Level, BucketLevel;
  }

  /** A capacity refusal means no bucket in the pool is idle: nothing evictable was kept. */
  lemma {:induction false} CapacityMeansBusy(pool: Pool, c: Limits, key: string, now: int)
    requires Consistent(pool) && ValidLimits(c) && |pool.entries| <= c.maximum
    requires forall k :: k in pool.entries ==> pool.entries[k].lastSeen <= now
    ensures var (after, result) := Admitted(pool, key, now, c);
            result.decision == CapacityLimited ==>
              && after == pool && |pool.entries| == c.maximum && key !in pool.entries
              && forall k :: k in pool.entries ==> now - pool.entries[k].lastSeen < c.idleTtl
  {
    hide MinimumFullRefill, Refilled, RetryAfter, Without, Distinct;
    CleanedSize(pool, now, c.idleTtl, c.cleanupLimit);
    var (after, result) := Admitted(pool, key, now, c);
    if result.decision == CapacityLimited {
      forall k | k in pool.entries
        ensures now - pool.entries[k].lastSeen < c.idleTtl
      {
        assert k in pool.order;
        var i :| 0 <= i < |pool.order| && pool.order[i] == k;
        FrontIn(pool);
        assert i > 0 ==> pool.entries[pool.order[0]].lastSeen <= pool.entries[pool.order[i]].lastSeen;
      }
    }
  }

  /** Between the refusal and the request only refusals happened to the key. */
  predicate NoneAllowed(history: seq<Entry>, key: string) {
    forall i :: 0 <= i < |history| && history[i].key == key ==> history[i].result.decision != Allowed
  }

  lemma {:induction false} UnspentLevel(history: seq<Entry>, n: nat, key: string, c: Limits, clock: int, now: int)
    requires Faithful(history, c, clock) && n <= |history| && clock <= now && ValidRate(c.rate)
    requires NoneAllowed(history[n..], key)
    ensures Level(history, key, c.rate, now) == Level(history[..n], key, c.rate, now)
    decreases |history|
  {
    hide Faithful;
    if n == |history| {
      assert history[..n] == history;
    } else {
      var m := |history| - 1;
      var front, last := history[..m], history[m];
      FaithfulFront(history, c, clock);
      assert front[n..] == history[n..][..m - n] && history[n..][m - n] == last && front[..n] == history[..n];
      UnspentLevel(front, n, key, c, last.at, last.at);
      UnspentLevel(front, n, key, c, last.at, now);
      LevelLater(front, key, c, last.at, last.at, now);
    }
  }

  /** Refusals are exact: a key refused with a delay is refused at every later time before that
      delay is over, and allowed from then on (unless its bucket left and the pool is full). */
  lemma {:induction false} RefusalIsExact(history: seq<Entry>, n: nat, later: Entry, c: Limits, clock: int)
    requires Faithful(history, c, clock) && clock <= later.at && ValidRate(c.rate) && Decides(history, later, c)
    requires n < |history| && history[n].key == later.key && history[n].result.decision == RateLimited
    requires NoneAllowed(history[n..], later.key) && later.result.decision != CapacityLimited
    ensures later.result.decision == Allowed <==> later.at >= history[n].at + history[n].result.retryAfter
  {
    hide Faithful, Level;
    var refused := history[n];
    FaithfulPrefix(history, c, clock, n);
    InClockOrder(history, c, clock, n);
    DecidedAt(history, c, clock, n);
    UnspentLevel(history, n, later.key, c, clock, later.at);
    LevelLater(history[..n], later.key, c, refused.at, refused.at, later.at);
    LevelBounds(history[..n], later.key, c, refused.at, refused.at);
    assert c.rate.burst * c.rate.interval >= c.rate.interval;
  }

  lemma DecidedAt(history: seq<Entry>, c: Limits, clock: int, n: nat)
    requires Faithful(history, c, clock) && n < |history|
    ensures Decides(history[..n], history[n], c) && history[|history| - 1].at <= clock
  {
    hide Decides;
  }

  lemma TokensBounded(entries: map<string, Bucket>, history: seq<Entry>, c: Limits, clock: int)
    requires Matches(entries, history, c, clock)
    ensures forall key :: key in entries ==> entries[key].tokens <= c.rate.burst
  {
    hide Level, BucketLevel;
  }

  class BucketPool {
    var entries: map<string, Bucket>
    var order: seq<string>
    const limits: Limits
    ghost var history: seq<Entry>
    ghost var clock: int

    constructor (limits: Limits)
      requires ValidLimits(limits)
      ensures this.limits == limits && Contents() == Pool(map[], []) && history == [] && clock == 0 && Valid()
    {
      this.limits := limits;
      entries, order, history, clock := map[], [], [], 0;
    }

    /** Everything this pool ever decided is what a pool that never evicts would have decided. */
    ghost predicate Valid()
      reads this
    {
      ValidLimits(limits) && PoolOk(Contents(), history, limits, clock)
    }

    function Contents(): Pool
      reads this
    {
      Pool(entries, order)
    }

    method Cleanup(now: int)
      requires Consistent(Contents()) && limits.cleanupLimit >= 0
      modifies this`entries, this`order
      ensures Contents() == Cleaned(old(Contents()), now, limits.idleTtl, limits.cleanupLimit)
    {
      hide Consistent, Idle, Cleaned;
      var removed := 0;
      while removed < limits.cleanupLimit
        invariant 0 <= removed <= limits.cleanupLimit && Consistent(Contents())
        invariant Cleaned(Contents(), now, limits.idleTtl, limits.cleanupLimit - removed) ==
                  Cleaned(old(Contents()), now, limits.idleTtl, limits.cleanupLimit)
      {
        ghost var pool := Contents();
        if |order| == 0 {
          CleanedStops(pool, now, limits.idleTtl, limits.cleanupLimit - removed);
          return;
        }
        FrontIn(pool);
        if !Idle(entries[order[0]], now, limits.idleTtl) {
          CleanedStops(pool, now, limits.idleTtl, limits.cleanupLimit - removed);
          return;
        }
        ConsistentTail(pool);
        CleanedStep(pool, now, limits.idleTtl, limits.cleanupLimit - removed);
        entries := entries - {order[0]};
        order := order[1..];
        removed := removed + 1;
      }
      CleanedStops(Contents(), now, limits.idleTtl, 0);
    }

    /** Restore one token per elapsed interval, keeping the remainder. */
    method Refill(b: Bucket, now: int) returns (r: Bucket)
      requires ValidRate(limits.rate) && b.tokens <= limits.rate.burst
      ensures r == Refilled(b, now, limits.rate)
    {
      hide MinimumFullRefill;
      RefillSteps(now - b.lastRefill, limits.rate.interval);
      r := b;
      if now <= b.lastRefill || b.tokens >= limits.rate.burst {
        if b.tokens >= limits.rate.burst && now > b.lastRefill {
          r := r.(lastRefill := now);
        }
        return;
      }
      var elapsed := now - b.lastRefill;
      var steps := elapsed / limits.rate.interval;
      if steps < 1 { return; }
      var available := limits.rate.burst - b.tokens;
      if steps >= available {
        r := r.(tokens := limits.rate.burst, lastRefill := now);
        return;
      }
      r := r.(tokens := r.tokens + steps, lastRefill := r.lastRefill + steps * limits.rate.interval);
    }

    /** Clean up, find or make the key's bucket, move it to the back and take a token. */
    method Take(key: string, now: int) returns (result: Result)
      requires Consistent(Contents()) && ValidLimits(limits)
      requires forall k :: k in entries ==> entries[k].tokens <= limits.rate.burst
      modifies this`entries, this`order
      ensures (Contents(), result) == Admitted(old(Contents()), key, now, limits)
    {
      hide Consistent, Cleaned, Refilled, RetryAfter, Without, MinimumFullRefill;
      Cleanup(now);
      var entry;
      if key !in entries {
        if |entries| >= limits.maximum { return Result(CapacityLimited, limits.overloadRetryAfter); }
        entry := Bucket(limits.rate.burst, now, now);
        order := order + [key];
      } else {
        entry := Refill(entries[key], now);
        if now > entry.lastSeen { entry := entry.(lastSeen := now); }
        order := Without(order, key) + [key];
      }
      ghost var others := entries;
      entries := entries[key := entry];
      if entry.tokens < 1 { return Result(RateLimited, RetryAfter(entry, now, limits.rate.interval)); }
      entry := entry.(tokens := entry.tokens - 1);
      entries := entries[key := entry];
      assert entries == others[key := entry];
      result := Result(Allowed, 0);
    }

    method Admit(key: string, now: int) returns (result: Result)
      requires Valid() && clock <= now
      modifies this
      ensures (Contents(), result) == Admitted(old(Contents()), key, now, limits)
      ensures Valid() && clock == now && history == old(history) + [Entry(key, now, result)]
    {
      hide Consistent, Admitted, ValidLimits, Matches, Faithful;
      TokensBounded(entries, history, limits, clock);
      AdmitKeeps(Contents(), history, limits, clock, key, now);
      result := Take(key, now);
      history, clock := history + [Entry(key, now, result)], now;
    }
  }
}
