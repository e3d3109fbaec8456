/** Signature replay protection: the acceptance window of created and expires (section 2.3 of
    RFC 9421), the nonce reservation that outlives it, and bounded cleanup of reservations.
    Clock readings are nanoseconds; signature parameters and reservations are whole seconds. */
module Replay {
  import opened Keyset

  const SECOND := 1_000_000_000
  const MAXIMUM_AGE := 300
  const FUTURE_SKEW := 30
  const MAXIMUM_LIFETIME := 300
  const REPLAY_TTL := 600
  const MAXIMUM_CLEANUP_BATCH := 4096
  const SAFE_DELAY := 270

  datatype Signature = Signature(keyId: string, nonce: string, created: int, expires: int)

  function Seconds(time: int): int { time / SECOND }

  predicate InWindow(s: Signature, now: int) {
    && now - MAXIMUM_AGE * SECOND <= s.created * SECOND <= now + FUTURE_SKEW * SECOND
    && s.created < s.expires <= s.created + MAXIMUM_LIFETIME && now < s.expires * SECOND
  }

  /** The opaque key of a signer and nonce; what the digest is taken of. */
  function ReplayKey(s: Signature): string { s.keyId + ['\0'] + s.nonce }

  // ---- the durable store ----

  /** Reservations by key, each until its expiry. */
  type Reservations = map<string, int>

  function Expired(store: Reservations, now: int): set<Key> {
    set key | key in store && store[key] <= now :: Key(store[key], key, 0)
  }

  /** The expired reservations a cleanup of bounded size removes: oldest first. */
  function Swept(store: Reservations, now: int, maximum: nat): set<string> {
    Texts(First(true, Expired(store, now), maximum))
  }

  function Texts(rows: seq<Key>): set<string> {
    set k | k in rows :: k.text
  }

  function AfterCleanup(store: Reservations, now: int, maximum: nat): Reservations {
    store - Swept(store, now, maximum)
  }

  function WithoutExpired(store: Reservations, key: string, now: int): Reservations {
    if key in store && store[key] <= now then store - {key} else store
  }

  predicate ReservationInput(now: int, expires: int) { 0 <= now < expires <= now + REPLAY_TTL }

  /** Whether the key was reserved, and the store after it; None is a refused input. */
  function AfterReserve(store: Reservations, key: string, expires: int, now: int, batch: nat): (Reservations, Option<bool>) {
    if !ReservationInput(now, expires) then (store, None)
    else
      var cleaned := AfterCleanup(WithoutExpired(store, key, now), now, batch);
      if key in cleaned then (cleaned, Some(false)) else (cleaned[key := expires], Some(true))
  }

  /** Cleanup removes only expired reservations, as many as it may. */
  lemma {:induction false} CleanupIsBounded(store: Reservations, now: int, maximum: nat)
    ensures var after := AfterCleanup(store, now, maximum);
            && (forall key :: key in after ==> key in store && after[key] == store[key])
            && (forall key :: key in store && key !in after ==> store[key] <= now)
            && |after| == |store| - Min(maximum, |Expired(store, now)|)
  {
    hide Sorted, First;
    var rows := First(true, Expired(store, now), maximum);
    forall k | k in rows
      ensures k in Expired(store, now)
    {
      assert k in SetOf(rows);
    }
    SweptSize(store, now, rows, |rows|);
    assert Swept(store, now, maximum) <= store.Keys;
    assert AfterCleanup(store, now, maximum).Keys == store.Keys - Swept(store, now, maximum);
    assert rows[..|rows|] == rows;
  }

  lemma {:induction false} SweptSize(store: Reservations, now: int, rows: seq<Key>, n: nat)
    requires n <= |rows| && Ordered(true, rows) && forall k :: k in rows ==> k in Expired(store, now)
    ensures |Texts(rows[..n])| == n
  {
    hide Precedes, Texts;
    if n == 0 {
      assert Texts(rows[..0]) == {} by { NoTexts(); assert rows[..0] == []; }
    } else {
      SweptSize(store, now, rows, n - 1);
      var last := rows[n - 1];
      assert rows[..n] == rows[..n - 1] + [last];
      forall k | k in rows[..n - 1]
        ensures k.text != last.text
      {
        var i :| 0 <= i < n - 1 && rows[i] == k;
        PrecedesTotal(true, rows[i], last);
        OneKeyPerText(store, now, k, last);
      }
      TextsPush(rows[..n - 1], last);
    }
  }

  lemma NoTexts()
    ensures Texts([]) == {}
  {
  }

  lemma TextsPush(rows: seq<Key>, last: Key)
    requires forall k :: k in rows ==> k.text != last.text
    ensures Texts(rows + [last]) == Texts(rows) + {last.text} && last.text !in Texts(rows)
  {
  }

  lemma OneKeyPerText(store: Reservations, now: int, a: Key, b: Key)
    requires a in Expired(store, now) && b in Expired(store, now) && a != b
    ensures a.text != b.text
  {
  }

  class DurableReplayStore {
    var reservations: Reservations
    const cleanupBatch: nat

    constructor (cleanupBatch: nat)
      requires 1 <= cleanupBatch <= MAXIMUM_CLEANUP_BATCH
      ensures reservations == map[] && this.cleanupBatch == cleanupBatch
    {
      reservations, this.cleanupBatch := map[], cleanupBatch;
    }

    /** One transaction: drop this key if expired, clean up one batch, insert if absent. */
    method Reserve(key: string, expiresAt: int, clock: int) returns (reserved: Option<bool>)
      modifies this
      ensures (reservations, reserved) ==
              AfterReserve(old(reservations), key, Seconds(expiresAt), Seconds(clock), cleanupBatch)
    {
      var now, expires := Seconds(clock), Seconds(expiresAt);
      if now < 0 || expires <= now || expires > now + REPLAY_TTL { return None; }
      if key in reservations && reservations[key] <= now { reservations := reservations - {key}; }
      var _ := DeleteExpired(now, cleanupBatch);
      if key in reservations { return Some(false); }
      reservations := reservations[key := expires];
      reserved := Some(true);
    }

    method DeleteExpired(now: int, maximum: nat) returns (deleted: nat)
      modifies this
      ensures reservations == AfterCleanup(old(reservations), now, maximum)
      ensures deleted == |old(reservations)| - |reservations| <= maximum
    {
      CleanupIsBounded(reservations, now, maximum);
      var rows := First(true, Expired(reservations, now), maximum);
      var keys := Texts(rows);
      deleted := |reservations|;
      reservations := reservations - keys;
      deleted := deleted - |reservations|;
    }

    method CleanupExpired(clock: int, maximum: int) returns (deleted: Option<nat>)
      modifies this
      ensures deleted.None? <==> maximum <= 0 || maximum > MAXIMUM_CLEANUP_BATCH || Seconds(clock) < 0
      ensures deleted.None? ==> reservations == old(reservations)
      ensures deleted.Some? ==>
                && reservations == AfterCleanup(old(reservations), Seconds(clock), maximum)
                && deleted.value == Min(maximum, |Expired(old(reservations), Seconds(clock))|)
    {
      if maximum <= 0 || maximum > MAXIMUM_CLEANUP_BATCH { return None; }
      var now := Seconds(clock);
      if now < 0 { return None; }
      CleanupIsBounded(reservations, now, maximum);
      var count := DeleteExpired(now, maximum);
      deleted := Some(count);
    }
  }

  // ---- the process-local reference store ----

  function LiveIn(store: Reservations, now: int): Reservations {
    map key | key in store && store[key] > now :: store[key]
  }

  datatype MemoryReply = Reserved | AlreadyReserved | Full | Refused

  /** Expired entries are dropped only when the store is full. */
  function AfterMemoryReserve(entries: Reservations, capacity: nat, key: string, expires: int, now: int): (Reservations, MemoryReply) {
    if capacity == 0 || expires <= now then (entries, Refused)
    else if key in entries && entries[key] > now then (entries, AlreadyReserved)
    else
      var without := entries - {key};
      var kept := if |without| >= capacity then LiveIn(without, now) else without;
      if |kept| >= capacity then (kept, Full) else (kept[key := expires], Reserved)
  }

  /** Refuses for lack of room exactly when the key is free and live entries fill the store;
      expired entries never matter. */
  lemma MemoryMeaning(entries: Reservations, capacity: nat, key: string, expires: int, now: int)
    ensures var (after, reply) := AfterMemoryReserve(entries, capacity, key, expires, now); var live := LiveIn(entries, now);
            && (reply == Refused <==> capacity == 0 || expires <= now)
            && (reply == AlreadyReserved <==> capacity > 0 && expires > now && key in live)
            && (reply == Full <==> capacity > 0 && expires > now && key !in live && |live| >= capacity)
            && LiveIn(after, now) == (if reply == Reserved then live[key := expires] else live)
  {
    hide LiveIn;
    LiveWithout(entries, key, now);
    if expires > now && !(key in entries && entries[key] > now) {
      var without := entries - {key};
      LiveSize(without, now);
      LiveLater(without, now, now);
      LivePut(without, key, expires, now);
      LivePut(LiveIn(without, now), key, expires, now);
    }
  }

  lemma LiveWithout(store: Reservations, key: string, now: int)
    ensures key in LiveIn(store, now) <==> key in store && store[key] > now
    ensures key !in LiveIn(store, now) ==> LiveIn(store - {key}, now) == LiveIn(store, now)
  {
  }

  class MemoryReplayStore {
    var entries: Reservations
    const capacity: nat

    constructor (capacity: nat)
      ensures entries == map[] && this.capacity == if capacity == 0 then 10_000 else capacity
    {
      entries, this.capacity := map[], if capacity == 0 then 10_000 else capacity;
    }

    /** Refuses for lack of room exactly when the key is free and live entries fill it. */
    method Reserve(key: string, expiresAt: int, clock: int) returns (reply: MemoryReply)
      modifies this
      ensures var now, expires, live := Seconds(clock), Seconds(expiresAt), LiveIn(old(entries), Seconds(clock));
              && (reply == Refused <==> capacity == 0 || expires <= now)
              && (reply == AlreadyReserved <==> capacity > 0 && expires > now && key in live)
              && (reply == Full <==> capacity > 0 && expires > now && key !in live && |live| >= capacity)
              && LiveIn(entries, now) == (if reply == Reserved then live[key := expires] else live)
      ensures (entries, reply) == AfterMemoryReserve(old(entries), capacity, key, Seconds(expiresAt), Seconds(clock))
    {
      hide Seconds;
      var now, expires := Seconds(clock), Seconds(expiresAt);
      MemoryMeaning(entries, capacity, key, expires, now);
      if capacity == 0 || expires <= now { return Refused; }
      if key in entries {
        if entries[key] > now { return AlreadyReserved; }
        entries := entries - {key};
      }
      assert entries == old(entries) - {key};
      if |entries| >= capacity { DropExpired(now); }
      if |entries| >= capacity { return Full; }
      entries := entries[key := expires];
      reply := Reserved;
    }

    method DropExpired(now: int)
      modifies this
      ensures entries == LiveIn(old(entries), now)
    {
      var pending := entries.Keys;
      while pending != {}
        invariant pending <= old(entries).Keys
        invariant forall key :: key in entries <==> key in old(entries) && (key in pending || old(entries)[key] > now)
        invariant forall key :: key in entries ==> entries[key] == old(entries)[key]
        decreases |pending|
      {
        var candidate :| candidate in pending;
        if candidate in entries && entries[candidate] <= now { entries := entries - {candidate}; }
        pending := pending - {candidate};
      }
    }
  }

  lemma LiveSize(store: Reservations, now: int)
    ensures |LiveIn(store, now)| <= |store|
  {
    SubsetSize(LiveIn(store, now).Keys, store.Keys);
  }

  /** From agreeing live reservations both stores answer alike and still agree, unless the
      memory store is full: that is when the durable one would reserve and its live
      reservations number the capacity. */
  lemma {:induction false} StoresAgree(durable: Reservations, memory: Reservations, capacity: nat, key: string, expires: int,
                                       now: int, batch: nat)
    requires LiveIn(durable, now) == LiveIn(memory, now) && ReservationInput(now, expires) && capacity > 0
    ensures var (after, reserved) := AfterReserve(durable, key, expires, now, batch);
            var (kept, reply) := AfterMemoryReserve(memory, capacity, key, expires, now);
            && reply != Refused && (reply == AlreadyReserved <==> reserved == Some(false))
            && (reply == Full <==> reserved == Some(true) && |LiveIn(durable, now)| >= capacity)
            && (reply == Reserved <==> reserved == Some(true) && |LiveIn(durable, now)| < capacity)
            && (reply != Full ==> LiveIn(after, now) == LiveIn(kept, now))
  {
    hide AfterCleanup, LiveIn, AfterMemoryReserve;
    var cleaned := AfterCleanup(WithoutExpired(durable, key, now), now, batch);
    CleanedLive(durable, key, now, batch);
    LivePut(cleaned, key, expires, now);
    MemoryMeaning(memory, capacity, key, expires, now);
  }

  /** What reaches both stores: a reservation, or a cleanup, which the memory store has none of. */
  datatype Request = Ask(key: string, expires: int, now: int) | Clean(maximum: nat, now: int)

  function DurableAfter(requests: seq<Request>, batch: nat): Reservations {
    if requests == [] then map[]
    else
      var before, r := DurableAfter(requests[..|requests| - 1], batch), requests[|requests| - 1];
      match r
      case Ask(key, expires, now) => AfterReserve(before, key, expires, now, batch).0
      case Clean(maximum, now) => AfterCleanup(before, now, maximum)
  }

  function MemoryAfter(requests: seq<Request>, capacity: nat): Reservations {
    if requests == [] then map[]
    else
      var before, r := MemoryAfter(requests[..|requests| - 1], capacity), requests[|requests| - 1];
      match r
      case Ask(key, expires, now) => AfterMemoryReserve(before, capacity, key, expires, now).0
      case Clean(_, _) => before
  }

  /** The two answers to the n-th request. */
  function DurableAnswer(requests: seq<Request>, batch: nat, n: nat): Option<bool>
    requires n < |requests| && requests[n].Ask?
  {
    AfterReserve(DurableAfter(requests[..n], batch), requests[n].key, requests[n].expires, requests[n].now, batch).1
  }

  function MemoryAnswer(requests: seq<Request>, capacity: nat, n: nat): MemoryReply
    requires n < |requests| && requests[n].Ask?
  {
    AfterMemoryReserve(MemoryAfter(requests[..n], capacity), capacity, requests[n].key, requests[n].expires, requests[n].now).1
  }

  predicate InClock(requests: seq<Request>) {
    && (forall i, j :: 0 <= i < j < |requests| ==> requests[i].now <= requests[j].now)
    && (forall i :: 0 <= i < |requests| && requests[i].Ask? ==> ReservationInput(requests[i].now, requests[i].expires))
  }

  /** When the durable store would reserve, its live reservations are fewer than the capacity. */
  predicate RoomAt(requests: seq<Request>, batch: nat, capacity: nat, n: nat)
    requires n < |requests|
  {
    requests[n].Ask? && DurableAnswer(requests, batch, n) == Some(true) ==>
      |LiveIn(DurableAfter(requests[..n], batch), requests[n].now)| < capacity
  }

  /** The n-th request is answered alike. */
  predicate AlikeAt(requests: seq<Request>, batch: nat, capacity: nat, n: nat)
    requires n < |requests|
  {
    requests[n].Ask? ==>
      MemoryAnswer(requests, capacity, n) == if DurableAnswer(requests, batch, n) == Some(true) then Reserved else AlreadyReserved
  }

  lemma LiveLater(store: Reservations, now: int, later: int)
    requires now <= later
    ensures LiveIn(LiveIn(store, now), later) == LiveIn(store, later)
  {
  }

  lemma RoomBefore(requests: seq<Request>, batch: nat, capacity: nat, m: nat)
    requires m <= |requests| && forall n :: 0 <= n < m ==> RoomAt(requests, batch, capacity, n)
    ensures forall n :: 0 <= n < m ==> RoomAt(requests[..m], batch, capacity, n)
  {
    hide DurableAfter, AfterReserve, LiveIn;
    forall n | 0 <= n < m
      ensures RoomAt(requests[..m], batch, capacity, n)
    {
      assert requests[..m][..n] == requests[..n] && requests[..m][n] == requests[n];
      assert RoomAt(requests, batch, capacity, n);
    }
  }

  lemma {:induction false} LiveAgree(requests: seq<Request>, batch: nat, capacity: nat, now: int)
    requires InClock(requests) && capacity > 0 && forall i :: 0 <= i < |requests| ==> requests[i].now <= now
    requires forall n :: 0 <= n < |requests| ==> RoomAt(requests, batch, capacity, n)
    ensures LiveIn(DurableAfter(requests, batch), now) == LiveIn(MemoryAfter(requests, capacity), now)
  {
    hide AfterReserve, AfterMemoryReserve, AfterCleanup, LiveIn;
    if requests == [] { return; }
    var n := |requests| - 1;
    var front, r := requests[..n], requests[n];
    RoomBefore(requests, batch, capacity, n);
    LiveAgree(front, batch, capacity, r.now);
    var durable, memory := DurableAfter(front, batch), MemoryAfter(front, capacity);
    match r {
      case Ask(key, expires, _) =>
        assert RoomAt(requests, batch, capacity, n);
        StoresAgree(durable, memory, capacity, key, expires, r.now, batch);
      case Clean(maximum, _) => CleanedKeepsLive(durable, r.now, maximum);
    }
    LiveLater(DurableAfter(requests, batch), r.now, now);
    LiveLater(MemoryAfter(requests, capacity), r.now, now);
  }

  lemma CleanedKeepsLive(store: Reservations, now: int, maximum: nat)
    ensures LiveIn(AfterCleanup(store, now, maximum), now) == LiveIn(store, now)
  {
    hide AfterCleanup;
    CleanupIsBounded(store, now, maximum);
  }

  /** With room so far, the next answer is the same in both exactly if there is room for it. */
  lemma {:induction false} NextAlike(requests: seq<Request>, batch: nat, capacity: nat, n: nat)
    requires InClock(requests) && capacity > 0 && n < |requests|
    requires forall i :: 0 <= i < n ==> RoomAt(requests, batch, capacity, i)
    ensures AlikeAt(requests, batch, capacity, n) <==> RoomAt(requests, batch, capacity, n)
  {
    hide AfterReserve, AfterMemoryReserve, LiveIn, DurableAfter, MemoryAfter;
    RoomBefore(requests, batch, capacity, n);
    LiveAgree(requests[..n], batch, capacity, requests[n].now);
    if requests[n].Ask? {
      StoresAgree(DurableAfter(requests[..n], batch), MemoryAfter(requests[..n], capacity), capacity, requests[n].key,
                  requests[n].expires, requests[n].now, batch);
    }
  }

  /** Over every run from empty stores, with cleanups of the durable one in between, both give
      the same answer to every request if and only if the live reservations always leave room. */
  lemma {:induction false} RunsAgree(requests: seq<Request>, batch: nat, capacity: nat)
    requires InClock(requests) && capacity > 0
    ensures (forall n :: 0 <= n < |requests| ==> AlikeAt(requests, batch, capacity, n)) <==>
            (forall n :: 0 <= n < |requests| ==> RoomAt(requests, batch, capacity, n))
  {
    hide AlikeAt, RoomAt, InClock;
    var n := 0;
    while n < |requests| && RoomAt(requests, batch, capacity, n)
      invariant 0 <= n <= |requests|
      invariant forall i :: 0 <= i < n ==> RoomAt(requests, batch, capacity, i) && AlikeAt(requests, batch, capacity, i)
    {
      NextAlike(requests, batch, capacity, n);
      n := n + 1;
    }
    if n < |requests| { NextAlike(requests, batch, capacity, n); }
  }

  lemma CleanedLive(store: Reservations, key: string, now: int, batch: nat)
    ensures var cleaned := AfterCleanup(WithoutExpired(store, key, now), now, batch);
            LiveIn(cleaned, now) == LiveIn(store, now) && (key in cleaned <==> key in LiveIn(store, now))
  {
    hide AfterCleanup;
    CleanupIsBounded(WithoutExpired(store, key, now), now, batch);
  }

  lemma LivePut(store: Reservations, key: string, expires: int, now: int)
    requires expires > now
    ensures LiveIn(store[key := expires], now) == LiveIn(store, now)[key := expires]
  {
  }

  // ---- no signature twice ----

  /** One thing that reaches the store: a request verified at `verified`, its expiry read at
      `read`, or a cleanup; `stamp` is the store's own clock reading and `commit` when the
      transaction takes effect. */
  datatype Act =
    | Attempt(signature: Signature, verified: int, read: int, stamp: int, commit: int)
    | Cleanup(stamp: int, commit: int, maximum: nat)

  function AfterAct(store: Reservations, act: Act, batch: nat): (Reservations, Option<bool>) {
    match act
    case Attempt(s, _, read, stamp, _) =>
      AfterReserve(store, ReplayKey(s), Seconds(read) + REPLAY_TTL, Seconds(stamp), batch)
    case Cleanup(stamp, _, maximum) => (AfterCleanup(store, Seconds(stamp), maximum), None)
  }

  function StoreAfter(acts: seq<Act>, batch: nat): Reservations {
    if acts == [] then map[] else AfterAct(StoreAfter(acts[..|acts| - 1], batch), acts[|acts| - 1], batch).0
  }

  /** The n-th act is a request that got through. */
  predicate Accepted(acts: seq<Act>, batch: nat, n: nat)
    requires n < |acts|
  {
    acts[n].Attempt? && AfterAct(StoreAfter(acts[..n], batch), acts[n], batch).1 == Some(true)
  }

  /** Transactions commit in clock order, and every request is verified before it reserves,
      within `delay` nanoseconds. */
  predicate Orderly(acts: seq<Act>, delay: int) {
    && (forall i, j :: 0 <= i < j < |acts| ==> acts[i].commit <= acts[j].commit)
    && (forall i :: 0 <= i < |acts| ==> acts[i].stamp <= acts[i].commit)
    && (forall i :: 0 <= i < |acts| && acts[i].Attempt? ==>
          && InWindow(acts[i].signature, acts[i].verified)
          && acts[i].verified <= acts[i].read <= acts[i].stamp && acts[i].commit <= acts[i].verified + delay)
  }

  /** A reservation stays until some clock reading reaches its expiry. */
  lemma {:induction false} ReservationStays(acts: seq<Act>, batch: nat, n: nat, m: nat)
    requires n < m <= |acts| && Accepted(acts, batch, n)
    requires var expiry := Seconds(acts[n].read) + REPLAY_TTL; forall i :: n < i < m ==> Seconds(acts[i].stamp) < expiry
    ensures var key := ReplayKey(acts[n].signature); var store := StoreAfter(acts[..m], batch);
            key in store && store[key] == Seconds(acts[n].read) + REPLAY_TTL
    decreases m
  {
    hide Seconds, ReplayKey, AfterCleanup, Swept;
    assert acts[..m][..m - 1] == acts[..m - 1];
    if m > n + 1 {
      ReservationStays(acts, batch, n, m - 1);
      ActKeeps(StoreAfter(acts[..m - 1], batch), acts[m - 1], batch, ReplayKey(acts[n].signature));
    }
  }

  lemma ActKeeps(store: Reservations, act: Act, batch: nat, key: string)
    requires key in store && Seconds(act.stamp) < store[key]
    ensures var after := AfterAct(store, act, batch).0; key in after && after[key] == store[key]
  {
    hide Seconds, ReplayKey, AfterCleanup, Swept;
    var now := Seconds(act.stamp);
    match act {
      case Attempt(s, _, _, _, _) => CleanupIsBounded(WithoutExpired(store, ReplayKey(s), now), now, batch);
      case Cleanup(_, _, maximum) => CleanupIsBounded(store, now, maximum);
    }
  }

  /** An accepted request finds no reservation of its key that is still live. */
  lemma AcceptedFindsNone(store: Reservations, act: Act, batch: nat)
    requires act.Attempt? && AfterAct(store, act, batch).1 == Some(true)
    ensures ReplayKey(act.signature) in store ==> store[ReplayKey(act.signature)] <= Seconds(act.stamp)
  {
    hide Seconds, ReplayKey, AfterCleanup, Swept;
    var now := Seconds(act.stamp);
    CleanupIsBounded(WithoutExpired(store, ReplayKey(act.signature), now), now, batch);
  }

  /** If a signature got through twice, the second reservation committed at or after the expiry
      of the first. */
  lemma {:induction false} SecondIsLate(acts: seq<Act>, batch: nat, delay: int, n: nat, m: nat)
    requires n < m < |acts| && Orderly(acts, delay) && Accepted(acts, batch, n) && Accepted(acts, batch, m)
    requires ReplayKey(acts[n].signature) == ReplayKey(acts[m].signature)
    ensures acts[m].commit >= (Seconds(acts[n].read) + REPLAY_TTL) * SECOND
  {
    hide ReplayKey, AfterAct, InWindow;
    var expiry := Seconds(acts[n].read) + REPLAY_TTL;
    if forall i :: n < i < m ==> Seconds(acts[i].stamp) < expiry {
      ReservationStays(acts, batch, n, m);
      AcceptedFindsNone(StoreAfter(acts[..m], batch), acts[m], batch);
    } else {
      var i :| n < i < m && Seconds(acts[i].stamp) >= expiry;
    }
  }

  /** No signature is accepted twice, whatever requests and cleanups interleave, as long as no
      request takes more than 270 seconds from verification to its reservation. */
  lemma {:induction false} NoSignatureTwice(acts: seq<Act>, batch: nat, n: nat, m: nat)
    requires n < m < |acts| && Orderly(acts, SAFE_DELAY * SECOND)
    requires Accepted(acts, batch, n) && acts[m].Attempt? && acts[m].signature == acts[n].signature
    ensures !Accepted(acts, batch, m)
  {
    hide ReplayKey, AfterAct, StoreAfter;
    if Accepted(acts, batch, m) {
      SecondIsLate(acts, batch, SAFE_DELAY * SECOND, n, m);
    }
  }

  /** One nanosecond more is too much: a request verified at the very end of its window and
      delayed that long is accepted a second time. */
  lemma LongerDelayReplays()
    ensures var s := Signature("key", "nonce", 1030, 1330);
            var first := Attempt(s, 1000 * SECOND, 1000 * SECOND, 1000 * SECOND, 1000 * SECOND);
            var last := 1330 * SECOND - 1;
            var again := Attempt(s, last, last, 1600 * SECOND, 1600 * SECOND);
            && Orderly([first, again], SAFE_DELAY * SECOND + 1)
            && Accepted([first, again], 1, 0) && Accepted([first, again], 1, 1)
  {
    var s := Signature("key", "nonce", 1030, 1330);
    hide ReplayKey, AfterReserve;
    var key := ReplayKey(s);
    var first := Attempt(s, 1000 * SECOND, 1000 * SECOND, 1000 * SECOND, 1000 * SECOND);
    var last := 1330 * SECOND - 1;
    var again := Attempt(s, last, last, 1600 * SECOND, 1600 * SECOND);
    assert [first, again][..0] == [] && [first, again][..1] == [first] && [first][..0] == [];
    ReserveFree(map[], key, 1600, 1000, 1);
    ReserveFree(map[key := 1600], key, 1929, 1600, 1);
  }

  lemma ReserveFree(store: Reservations, key: string, expires: int, now: int, batch: nat)
    requires ReservationInput(now, expires) && (key in store ==> store[key] <= now) && store.Keys <= {key}
    ensures AfterReserve(store, key, expires, now, batch) == (map[key := expires], Some(true))
  {
    hide AfterCleanup;
    var without := WithoutExpired(store, key, now);
    assert without == map[];
    CleanupIsBounded(without, now, batch);
  }
}
