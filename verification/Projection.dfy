/** The public directory in pages: tier-ordered scans in both directions over the merged
    lifecycle and discovery sources, bounded by 400 retained identities a request. */
module Projection {
  import opened Keyset
  import opened Evidence
  import opened Store
  import opened StoreInvariant
  import opened StoreRuns
  import opened Details

  const MAXIMUM_PAGE := 100
  const MAXIMUM_SCAN := 400

  // ---- what there is to list ----

  function LifecycleActors(db: Database): set<string> {
    set actor | actor in db.rows && LifecycleListed(db.rows[actor])
  }

  function DiscoveryActors(db: Database): set<string> {
    set actor | actor in db.rows && DiscoveryListed(db.rows[actor])
  }

  function Public(db: Database): set<string> {
    set actor | actor in db.rows && Eligible(db.rows[actor])
  }

  function TierKeys(actors: set<string>, tier: int): set<Key> {
    set actor | actor in actors :: Key(tier, actor, 0)
  }

  lemma {:induction false} TierKeysSize(actors: set<string>, tier: int)
    ensures |TierKeys(actors, tier)| == |actors|
    decreases actors
  {
    if actors == {} {
      assert TierKeys(actors, tier) == {};
    } else {
      var a :| a in actors;
      TierKeysSize(actors - {a}, tier);
      assert TierKeys(actors, tier) == TierKeys(actors - {a}, tier) + {Key(tier, a, 0)};
    }
  }

  /** Every scan position: a tier and a retained public identity. */
  function Grid(db: Database): set<Key> {
    TierKeys(Public(db), 1) + TierKeys(Public(db), 2) + TierKeys(Public(db), 3) + TierKeys(Public(db), 4)
  }

  /** Every public relay at the position of its own tier. */
  function Listed(db: Database, observed: int): set<Key> {
    set actor | actor in Public(db) && ReadDetail(db.rows[actor], observed).Shown? ::
      Key(ReadDetail(db.rows[actor], observed).relay.tier, actor, 0)
  }

  predicate ValidCursor(cursor: Option<Key>) {
    cursor.None? || (ValidTier(cursor.value.rank) && cursor.value.text != "" && cursor.value.kind == 0)
  }

  /** The reader meets no row it must reject. */
  predicate Readable(db: Database, observed: int) {
    "" !in db.rows && forall actor :: actor in Public(db) ==> ReadDetail(db.rows[actor], observed).Shown?
  }

  lemma SoundIsReadable(db: Database, now: int, observed: int)
    requires SoundDatabase(db, now) && 0 <= now <= observed
    ensures Readable(db, observed)
  {
    hide Sound, ReadDetail, Eligible;
    forall actor | actor in Public(db)
      ensures ReadDetail(db.rows[actor], observed).Shown?
    {
      SoundRowsProject(db.rows[actor], db.lastId, now, observed);
    }
  }

  // ---- candidate reads ----

  function Boundary(tier: int, boundary: string): Option<Key> {
    if boundary == "" then None else Some(Key(tier, boundary, 0))
  }

  /** Two-index merge of two ordered actor lists, equal heads taken once. */
  method MergeActors(up: bool, left: seq<Key>, right: seq<Key>, limit: nat) returns (merged: seq<Key>)
    requires Ordered(up, left) && Ordered(up, right)
    ensures merged == First(up, SetOf(left) + SetOf(right), limit)
  {
    hide Precedes, First, Sorted;
    merged := [];
    var i, j := 0, 0;
    while |merged| < limit && (i < |left| || j < |right|)
      invariant i <= |left| && j <= |right| && |merged| <= limit
      invariant Ordered(up, merged) && SetOf(merged) == SetOf(left[..i]) + SetOf(right[..j])
      invariant AllPrecede(up, SetOf(merged), SetOf(left[i..]) + SetOf(right[j..]))
    {
      var next, i', j';
      if j >= |right| {
        next, i', j' := left[i], i + 1, j;
      } else if i >= |left| {
        next, i', j' := right[j], i, j + 1;
      } else if Precedes(up, left[i], right[j]) {
        next, i', j' := left[i], i + 1, j;
      } else if Precedes(up, right[j], left[i]) {
        next, i', j' := right[j], i, j + 1;
      } else {
        PrecedesTotal(up, left[i], right[j]);
        next, i', j' := left[i], i + 1, j + 1;
      }
      MergeStep(up, left, right, merged, i, j, next, i', j');
      merged := merged + [next];
      i, j := i', j';
    }
    MergeDone(up, left, right, merged, i, j, limit);
  }

  lemma MergeDone(up: bool, left: seq<Key>, right: seq<Key>, merged: seq<Key>, i: nat, j: nat, limit: nat)
    requires i <= |left| && j <= |right| && |merged| <= limit && (|merged| == limit || (i == |left| && j == |right|))
    requires Ordered(up, merged) && SetOf(merged) == SetOf(left[..i]) + SetOf(right[..j])
    requires AllPrecede(up, SetOf(merged), SetOf(left[i..]) + SetOf(right[j..]))
    ensures merged == First(up, SetOf(left) + SetOf(right), limit)
  {
    hide Precedes, Ordered, First, Sorted;
    var all := SetOf(left) + SetOf(right);
    assert left == left[..i] + left[i..] && right == right[..j] + right[j..];
    OrderedSize(up, merged);
    SubsetSize(SetOf(merged), all);
    assert all == SetOf(merged) + (SetOf(left[i..]) + SetOf(right[j..]));
    FirstIs(up, merged, all, limit);
  }

  lemma MergeStep(up: bool, left: seq<Key>, right: seq<Key>, merged: seq<Key>,
                  i: nat, j: nat, next: Key, i': nat, j': nat)
    requires Ordered(up, left) && Ordered(up, right) && Ordered(up, merged)
    requires i <= i' <= |left| && j <= j' <= |right| && i' <= i + 1 && j' <= j + 1 && i + j < i' + j'
    requires i < i' ==> left[i] == next
    requires j < j' ==> right[j] == next
    requires i == i' && i < |left| ==> Precedes(up, next, left[i])
    requires j == j' && j < |right| ==> Precedes(up, next, right[j])
    requires SetOf(merged) == SetOf(left[..i]) + SetOf(right[..j])
    requires AllPrecede(up, SetOf(merged), SetOf(left[i..]) + SetOf(right[j..]))
    ensures Ordered(up, merged + [next])
    ensures SetOf(merged + [next]) == SetOf(left[..i']) + SetOf(right[..j'])
    ensures AllPrecede(up, SetOf(merged + [next]), SetOf(left[i'..]) + SetOf(right[j'..]))
  {
    hide Precedes, Ordered, Sorted, AllPrecede, SetOf;
    SideStep(up, left, i, i', next);
    SideStep(up, right, j, j', next);
    PushNext(up, merged, next, SetOf(left[i..]), SetOf(right[j..]), SetOf(left[i'..]), SetOf(right[j'..]));
  }

  lemma PushNext(up: bool, merged: seq<Key>, next: Key, l: set<Key>, r: set<Key>, l': set<Key>, r': set<Key>)
    requires Ordered(up, merged) && AllPrecede(up, SetOf(merged), l + r) && next in l + r && l' <= l && r' <= r
    requires AllPrecede(up, {next}, l') && AllPrecede(up, {next}, r')
    ensures Ordered(up, merged + [next]) && SetOf(merged + [next]) == SetOf(merged) + {next}
    ensures AllPrecede(up, SetOf(merged + [next]), l' + r')
  {
    hide Precedes, Ordered, Sorted;
    OrderedOne(up, next);
    ConcatOrdered(up, merged, [next]);
  }

  /** What moving one index past the next row, or leaving it, does to its side. */
  lemma SideStep(up: bool, s: seq<Key>, i: nat, i': nat, next: Key)
    requires Ordered(up, s) && i <= i' <= |s| && i' <= i + 1
    requires i < i' ==> s[i] == next
    requires i == i' && i < |s| ==> Precedes(up, next, s[i])
    ensures SetOf(s[..i']) == SetOf(s[..i]) + (if i < i' then {next} else {})
    ensures SetOf(s[i'..]) <= SetOf(s[i..]) && (i < i' ==> next in SetOf(s[i..]))
    ensures AllPrecede(up, {next}, SetOf(s[i'..]))
  {
    hide Precedes, Ordered;
    if i < |s| { HeadTail(up, s, i); }
    if i == i' {
      forall x | x in SetOf(s[i..])
        ensures Precedes(up, next, x)
      {
        if x != s[i] { PrecedesTransitive(up, next, s[i], x); }
      }
    }
  }

  /** Candidate identities of one tier scan after (or before) a boundary: each source is read
      with its own limit, then the two are merged under the same limit. */
  method ReadCandidates(up: bool, db: Database, tier: int, boundary: string, limit: nat) returns (candidates: seq<Key>)
    ensures candidates == First(up, Beyond(up, TierKeys(Public(db), tier), Boundary(tier, boundary)), limit)
  {
    hide Precedes, First;
    var relays := First(up, Beyond(up, TierKeys(LifecycleActors(db), tier), Boundary(tier, boundary)), limit);
    var discoveries := First(up, Beyond(up, TierKeys(DiscoveryActors(db), tier), Boundary(tier, boundary)), limit);
    candidates := MergeActors(up, relays, discoveries, limit);
    MergeLimit(up, Beyond(up, TierKeys(LifecycleActors(db), tier), Boundary(tier, boundary)),
               Beyond(up, TierKeys(DiscoveryActors(db), tier), Boundary(tier, boundary)), limit);
    BeyondUnion(up, TierKeys(LifecycleActors(db), tier), TierKeys(DiscoveryActors(db), tier), Boundary(tier, boundary));
    assert TierKeys(LifecycleActors(db), tier) + TierKeys(DiscoveryActors(db), tier) == TierKeys(Public(db), tier);
  }

  // ---- the bounded scan ----

  /** Positions still ahead of a scan of `tier` that has passed `boundary`; an empty boundary
      is the start of the tier in the direction of the scan. */
  function Ahead(up: bool, grid: set<Key>, tier: int, boundary: string): set<Key> {
    set x | x in grid &&
      ((if up then x.rank > tier else x.rank < tier) ||
       (x.rank == tier && (boundary == "" || Precedes(up, Key(tier, boundary, 0), x))))
  }

  function OfTier(s: set<Key>, tier: int): set<Key> {
    set x | x in s && x.rank == tier
  }

  lemma TierAhead(up: bool, db: Database, tier: int, boundary: string)
    requires ValidTier(tier)
    ensures OfTier(Ahead(up, Grid(db), tier, boundary), tier) ==
            Beyond(up, TierKeys(Public(db), tier), Boundary(tier, boundary))
  {
    hide Precedes, Grid, TierKeys;
    GridTier(db, tier);
    forall x
      ensures x in OfTier(Ahead(up, Grid(db), tier, boundary), tier) <==>
              x in Beyond(up, TierKeys(Public(db), tier), Boundary(tier, boundary))
    {
      assert x in Grid(db) && x.rank == tier <==> x in TierKeys(Public(db), tier);
    }
  }

  lemma GridTier(db: Database, tier: int)
    requires ValidTier(tier)
    ensures forall x :: x in Grid(db) && x.rank == tier <==> x in TierKeys(Public(db), tier)
  {
    hide Public;
  }

  lemma AheadOfEmptyTier(up: bool, grid: set<Key>, tier: int, boundary: string)
    requires OfTier(Ahead(up, grid, tier, boundary), tier) == {}
    ensures Ahead(up, grid, tier, boundary) == Ahead(up, grid, if up then tier + 1 else tier - 1, "")
  {
    hide Precedes;
    forall x | x in Ahead(up, grid, tier, boundary)
      ensures x.rank != tier
    {
      assert x.rank == tier ==> x in OfTier(Ahead(up, grid, tier, boundary), tier);
    }
  }

  /** Passing the first position ahead leaves exactly the others ahead. */
  lemma PassOne(up: bool, grid: set<Key>, tier: int, boundary: string, k: Key, limit: nat)
    requires limit > 0 && OfTier(Ahead(up, grid, tier, boundary), tier) != {}
    requires k == First(up, OfTier(Ahead(up, grid, tier, boundary), tier), limit)[0]
    requires k.kind == 0 && k.text != ""
    ensures k.rank == tier && k in Ahead(up, grid, tier, boundary)
    ensures Ahead(up, grid, tier, k.text) == Ahead(up, grid, tier, boundary) - {k}
    ensures AllPrecede(up, {k}, Ahead(up, grid, tier, k.text))
    ensures First(up, OfTier(Ahead(up, grid, tier, k.text), tier), limit - 1) ==
            First(up, OfTier(Ahead(up, grid, tier, boundary), tier), limit)[1..]
  {
    hide Precedes, First;
    var rest := Ahead(up, grid, tier, boundary);
    var here := OfTier(rest, tier);
    FirstTail(up, here, limit);
    forall x | x in rest && x != k
      ensures Precedes(up, k, x)
    {
      if x.rank == tier { assert x in here; } else { RankPrecedes(up, k, x); }
    }
    forall x | x in grid && x.rank == tier && Precedes(up, k, x)
      ensures x in rest && x != k
    {
      PrecedesTotal(up, k, x);
      if boundary != "" { PrecedesTransitive(up, Key(tier, boundary, 0), k, x); }
    }
    assert k == Key(tier, k.text, 0);
    assert Ahead(up, grid, tier, k.text) == rest - {k};
    assert OfTier(rest - {k}, tier) == here - {k};
  }

  lemma RankPrecedes(up: bool, a: Key, b: Key)
    requires if up then a.rank < b.rank else b.rank < a.rank
    ensures Precedes(up, a, b)
  {
  }

  /** One more passed position extends the sorted result by at most itself. */
  lemma SortedExtend(up: bool, listed: set<Key>, passed: set<Key>, k: Key)
    requires AllPrecede(up, passed, {k})
    ensures Sorted(up, listed * (passed + {k})) == Sorted(up, listed * passed) + (if k in listed then [k] else [])
  {
    hide Precedes, Sorted;
    if k in listed {
      assert listed * (passed + {k}) == listed * passed + {k};
      SortedPush(up, listed * passed, k);
    } else {
      ExtendByNone(up, listed, passed, k);
    }
  }

  lemma ExtendByNone(up: bool, listed: set<Key>, passed: set<Key>, k: Key)
    requires k !in listed
    ensures Sorted(up, listed * (passed + {k})) == Sorted(up, listed * passed) + []
  {
    hide Sorted;
    assert listed * (passed + {k}) == listed * passed;
  }

  /** Full: the page limit was reached. More: the identity budget ran out inside a tier.
      Spent: it ran out exactly at the end of a tier. Done: nothing is ahead. */
  datatype Stop = Failure | Full | More | Spent | Done

  /** Reads the joined rows of one batch; fails when one of them must be rejected. */
  method ReadDetails(db: Database, candidates: seq<Key>, observed: int) returns (ok: bool, details: map<string, Detail>)
    ensures ok ==> forall i :: 0 <= i < |candidates| ==>
                     candidates[i].text in details && details[candidates[i].text] == ReadDetail(RowsOf(db, candidates[i].text), observed)
                     && !details[candidates[i].text].Broken?
    ensures !ok ==> exists i :: 0 <= i < |candidates| && ReadDetail(RowsOf(db, candidates[i].text), observed).Broken?
  {
    hide ReadDetail;
    details := map[];
    for n := 0 to |candidates|
      invariant forall i :: 0 <= i < n ==>
                  candidates[i].text in details && details[candidates[i].text] == ReadDetail(RowsOf(db, candidates[i].text), observed)
                  && !details[candidates[i].text].Broken?
    {
      var detail := ReadDetail(RowsOf(db, candidates[n].text), observed);
      if detail.Broken? { return false, details; }
      details := details[candidates[n].text := detail];
    }
    ok := true;
  }

  /** What a scan has done when it stands in `tier` past `boundary`. */
  predicate Progress(up: bool, db: Database, observed: int, start: set<Key>, tier: int, boundary: string,
                     scanned: nat, relays: seq<Key>) {
    var rest := Ahead(up, Grid(db), tier, boundary);
    && rest <= start && AllPrecede(up, start - rest, rest) && scanned == |start - rest|
    && relays == Sorted(up, Listed(db, observed) * (start - rest))
  }

  lemma StartProgress(up: bool, db: Database, observed: int, tier: int, boundary: string)
    ensures Progress(up, db, observed, Ahead(up, Grid(db), tier, boundary), tier, boundary, 0, [])
  {
    hide Precedes;
    var start := Ahead(up, Grid(db), tier, boundary);
    assert start - start == {} && Listed(db, observed) * {} == {};
  }

  lemma AheadInGrid(up: bool, db: Database, tier: int, boundary: string, k: Key)
    requires k in Ahead(up, Grid(db), tier, boundary) && "" !in db.rows
    ensures k.text in Public(db) && k.text != "" && k.kind == 0 && k in Grid(db)
  {
    hide Precedes, Eligible;
  }

  lemma PassProgress(up: bool, db: Database, observed: int, start: set<Key>, tier: int, boundary: string,
                     scanned: nat, relays: seq<Key>, k: Key, limit: nat)
    requires "" !in db.rows && limit > 0
    requires Progress(up, db, observed, start, tier, boundary, scanned, relays)
    requires OfTier(Ahead(up, Grid(db), tier, boundary), tier) != {}
    requires k == First(up, OfTier(Ahead(up, Grid(db), tier, boundary), tier), limit)[0]
    ensures k.rank == tier && k.text in Public(db) && k.text != "" && k.kind == 0 && k in start
    ensures Progress(up, db, observed, start, tier, k.text, scanned + 1,
                     relays + (if k in Listed(db, observed) then [k] else []))
    ensures First(up, OfTier(Ahead(up, Grid(db), tier, k.text), tier), limit - 1) ==
            First(up, OfTier(Ahead(up, Grid(db), tier, boundary), tier), limit)[1..]
  {
    hide Precedes, First, Sorted, Listed, Eligible, Ahead, Grid, Public;
    var rest := Ahead(up, Grid(db), tier, boundary);
    FirstTail(up, OfTier(rest, tier), limit);
    AheadInGrid(up, db, tier, boundary, k);
    PassOne(up, Grid(db), tier, boundary, k, limit);
    SortedExtend(up, Listed(db, observed), start - rest, k);
    assert start - (rest - {k}) == (start - rest) + {k};
  }

  function LastTier(up: bool): int { if up then 4 else 1 }

  function NextTier(up: bool, tier: int): int { if up then tier + 1 else tier - 1 }

  lemma LastTierAhead(up: bool, db: Database, tier: int, boundary: string)
    requires tier == LastTier(up) && OfTier(Ahead(up, Grid(db), tier, boundary), tier) == {}
    ensures Ahead(up, Grid(db), tier, boundary) == {}
  {
    hide Precedes;
    AheadOfEmptyTier(up, Grid(db), tier, boundary);
  }

  lemma ListedAt(db: Database, observed: int, k: Key)
    requires k.text in Public(db) && k.kind == 0
    ensures k in Listed(db, observed) <==>
            ReadDetail(RowsOf(db, k.text), observed).Shown? && ReadDetail(RowsOf(db, k.text), observed).relay.tier == k.rank
  {
    hide ReadDetail, Eligible;
  }

  /** Takes one batch of candidates in order, keeping those of the scanned tier. */
  method ScanBatch(up: bool, db: Database, observed: int, ghost start: set<Key>, tier: int, boundary0: string,
                   candidates: seq<Key>, scanCount: nat, details: map<string, Detail>,
                   limit: nat, relays0: seq<Key>, scanned0: nat)
    returns (full: bool, relays: seq<Key>, boundary: string, scanned: nat)
    requires "" !in db.rows && 0 < scanCount <= |candidates| && |relays0| < limit
    requires Progress(up, db, observed, start, tier, boundary0, scanned0, relays0)
    requires scanned0 + scanCount <= MAXIMUM_SCAN
    requires candidates == First(up, OfTier(Ahead(up, Grid(db), tier, boundary0), tier), MAXIMUM_SCAN - scanned0 + 1)
    requires forall i :: 0 <= i < scanCount ==>
               (var actor := candidates[..scanCount][i].text;
                actor in details && details[actor] == ReadDetail(RowsOf(db, actor), observed))
    ensures Progress(up, db, observed, start, tier, boundary, scanned, relays)
    ensures boundary != "" && Key(tier, boundary, 0) in start
    ensures if full then |relays| == limit && relays[limit - 1] == Key(tier, boundary, 0)
            else |relays| < limit && scanned == scanned0 + scanCount &&
                 First(up, OfTier(Ahead(up, Grid(db), tier, boundary), tier), MAXIMUM_SCAN - scanned + 1) == candidates[scanCount..]
  {
    hide Precedes, First, Sorted, Listed, ReadDetail, Grid, Public, Ahead, OfTier, Eligible, Progress;
    relays, boundary, scanned := relays0, boundary0, scanned0;
    for i := 0 to scanCount
      invariant scanned == scanned0 + i && |relays| < limit
      invariant i > 0 ==> boundary != "" && Key(tier, boundary, 0) in start
      invariant Progress(up, db, observed, start, tier, boundary, scanned, relays)
      invariant First(up, OfTier(Ahead(up, Grid(db), tier, boundary), tier), MAXIMUM_SCAN - scanned + 1) == candidates[i..]
    {
      ghost var ahead := OfTier(Ahead(up, Grid(db), tier, boundary), tier);
      NotEmpty(up, ahead, MAXIMUM_SCAN - scanned + 1);
      PassProgress(up, db, observed, start, tier, boundary, scanned, relays, candidates[i], MAXIMUM_SCAN - scanned + 1);
      ListedAt(db, observed, candidates[i]);
      assert candidates[..scanCount][i] == candidates[i];
      assert relays + [] == relays;
      var actor := candidates[i].text;
      assert candidates[i] == Key(tier, actor, 0);
      scanned := scanned + 1;
      boundary := actor;
      if details[actor].Shown? && details[actor].relay.tier == tier {
        relays := relays + [Key(tier, actor, 0)];
        if |relays| == limit { return true, relays, boundary, scanned; }
      }
    }
    full := false;
  }

  /** Both directions' scan: tier by tier, candidates after the boundary, at most 400 retained
      identities, stopping at the page limit. */
  method Scan(up: bool, db: Database, tier0: int, boundary0: string, limit: nat, observed: int)
    returns (stop: Stop, relays: seq<Key>, tier: int, boundary: string, scanned: nat)
    requires ValidTier(tier0) && limit > 0 && "" !in db.rows
    ensures Readable(db, observed) ==> stop != Failure
    ensures stop != Failure ==>
      ValidTier(tier) && |relays| <= limit &&
      Progress(up, db, observed, Ahead(up, Grid(db), tier0, boundary0), tier, boundary, scanned, relays)
    ensures stop == Full || stop == More || stop == Spent ==>
      boundary != "" && Key(tier, boundary, 0) in Ahead(up, Grid(db), tier0, boundary0)
    ensures stop != Failure && stop != Full ==> |relays| < limit
    ensures stop == Full ==> |relays| == limit && relays[limit - 1] == Key(tier, boundary, 0)
    ensures stop == More || stop == Spent ==> scanned == MAXIMUM_SCAN
    ensures stop == Spent ==> OfTier(Ahead(up, Grid(db), tier, boundary), tier) == {}
    ensures stop == More ==> OfTier(Ahead(up, Grid(db), tier, boundary), tier) != {}
    ensures stop == Done ==> Ahead(up, Grid(db), tier, boundary) == {} && scanned < MAXIMUM_SCAN
  {
    hide Precedes, First, Sorted, Listed, ReadDetail, Grid, Public, Ahead, OfTier, Eligible;
    ghost var start := Ahead(up, Grid(db), tier0, boundary0);
    tier, boundary, scanned, relays := tier0, boundary0, 0, [];
    StartProgress(up, db, observed, tier, boundary);
    while true
      invariant ValidTier(tier) && scanned < MAXIMUM_SCAN && |relays| < limit
      invariant Progress(up, db, observed, start, tier, boundary, scanned, relays)
      decreases if up then 4 - tier else tier
    {
      hide Progress;
      var remaining := MAXIMUM_SCAN - scanned;
      var candidates := ReadCandidates(up, db, tier, boundary, remaining + 1);
      TierAhead(up, db, tier, boundary);
      ghost var here := OfTier(Ahead(up, Grid(db), tier, boundary), tier);
      if |candidates| > 0 {
        var scanCount := Min(|candidates|, remaining);
        var ok, details := ReadDetails(db, candidates[..scanCount], observed);
        if !ok {
          RejectedIsUnreadable(db, here, candidates, scanCount, observed);
          return Failure, [], tier, boundary, scanned;
        }
        var full;
        full, relays, boundary, scanned :=
          ScanBatch(up, db, observed, start, tier, boundary, candidates, scanCount, details, limit, relays, scanned);
        if full { return Full, relays, tier, boundary, scanned; }
        if |candidates| > scanCount {
          NotEmpty(up, OfTier(Ahead(up, Grid(db), tier, boundary), tier), remaining + 1 - scanCount);
          return More, relays, tier, boundary, scanned;
        }
        NoneLeft(up, OfTier(Ahead(up, Grid(db), tier, boundary), tier), remaining + 1 - scanCount);
        if scanned == MAXIMUM_SCAN { return Spent, relays, tier, boundary, scanned; }
      } else {
        NoneLeft(up, here, remaining + 1);
      }
      if tier == LastTier(up) {
        LastTierAhead(up, db, tier, boundary);
        return Done, relays, tier, boundary, scanned;
      }
      AheadOfEmptyTier(up, Grid(db), tier, boundary);
      SameProgress(up, db, observed, start, tier, boundary, NextTier(up, tier), "", scanned, relays);
      tier, boundary := NextTier(up, tier), "";
    }
  }

  lemma NotEmpty(up: bool, s: set<Key>, limit: nat)
    requires First(up, s, limit) != []
    ensures s != {}
  {
    assert First(up, s, limit)[0] in SetOf(First(up, s, limit));
  }

  lemma NoneLeft(up: bool, s: set<Key>, limit: nat)
    requires First(up, s, limit) == [] && limit > 0
    ensures s == {}
  {
  }

  lemma SameProgress(up: bool, db: Database, observed: int, start: set<Key>, tier: int, boundary: string,
                     tier': int, boundary': string, scanned: nat, relays: seq<Key>)
    requires Progress(up, db, observed, start, tier, boundary, scanned, relays)
    requires Ahead(up, Grid(db), tier, boundary) == Ahead(up, Grid(db), tier', boundary')
    ensures Progress(up, db, observed, start, tier', boundary', scanned, relays)
  {
    hide Precedes, Sorted, Ahead;
  }

  lemma RejectedIsUnreadable(db: Database, here: set<Key>, candidates: seq<Key>, n: nat, observed: int)
    requires n <= |candidates| && SetOf(candidates) <= here
    requires forall k :: k in here ==> k.text in Public(db)
    requires exists i :: 0 <= i < n && ReadDetail(RowsOf(db, candidates[..n][i].text), observed).Broken?
    ensures !Readable(db, observed)
  {
    hide ReadDetail, Eligible;
    var i :| 0 <= i < n && ReadDetail(RowsOf(db, candidates[..n][i].text), observed).Broken?;
    assert candidates[i] in SetOf(candidates);
  }

  // ---- pages ----

  datatype Page = Page(relays: seq<Key>, previous: Option<Key>, next: Option<Key>)
  datatype PageResult = InvalidQuery | DataError | Loaded(page: Page)

  /** What one page covers, in scan order: exactly the public relays between the cursor it
      started from and the link it offers, or to the end when it offers none. A link moves
      on, and a page with a link is full or has used the whole identity budget. */
  predicate Segment(up: bool, db: Database, observed: int, start: Option<Key>, relays: seq<Key>,
                    link: Option<Key>, limit: nat) {
    && |relays| <= limit && ValidCursor(link)
    && relays == Sorted(up, Beyond(up, Listed(db, observed), start) -
                            (if link.Some? then Beyond(up, Listed(db, observed), link) else {}))
    && (link.Some? ==>
          && link.value in Beyond(up, Grid(db), start)
          && (|relays| == limit || |Beyond(up, Grid(db), start) - Beyond(up, Grid(db), link)| == MAXIMUM_SCAN))
  }

  lemma ListedInGrid(db: Database, observed: int)
    ensures Listed(db, observed) <= Grid(db)
  {
    hide Eligible;
    forall k | k in Listed(db, observed)
      ensures k in Grid(db)
    {
      var actor :| actor in Public(db) && ReadDetail(db.rows[actor], observed).Shown? &&
                   k == Key(ReadDetail(db.rows[actor], observed).relay.tier, actor, 0);
      ShownTier(db.rows[actor], observed);
    }
  }

  lemma ShownTier(r: Rows, observed: int)
    requires ReadDetail(r, observed).Shown?
    ensures ValidTier(ReadDetail(r, observed).relay.tier)
  {
    hide ValidEvidence;
  }

  lemma AheadIsBeyond(up: bool, db: Database, tier: int, boundary: string)
    requires boundary != ""
    ensures Ahead(up, Grid(db), tier, boundary) == Beyond(up, Grid(db), Some(Key(tier, boundary, 0)))
  {
    hide TextLess;
  }

  lemma FirstTierAhead(db: Database)
    ensures Ahead(true, Grid(db), 1, "") == Beyond(true, Grid(db), None)
  {
    hide Precedes;
  }

  lemma BeyondSubset(up: bool, small: set<Key>, large: set<Key>, after: Option<Key>)
    requires small <= large
    ensures small * Beyond(up, large, after) == Beyond(up, small, after)
  {
    hide Precedes;
  }

  /** A scan that stopped at a position covers the segment up to it. */
  lemma StoppedSegment(up: bool, db: Database, observed: int, start: Option<Key>, tier: int, boundary: string,
                       scanned: nat, relays: seq<Key>, limit: nat)
    requires ValidTier(tier) && boundary != "" && |relays| <= limit
    requires Progress(up, db, observed, Beyond(up, Grid(db), start), tier, boundary, scanned, relays)
    requires Key(tier, boundary, 0) in Beyond(up, Grid(db), start)
    requires |relays| == limit || scanned == MAXIMUM_SCAN
    ensures Segment(up, db, observed, start, relays, Some(Key(tier, boundary, 0)), limit)
    ensures Ahead(up, Grid(db), tier, boundary) == {} ==> Segment(up, db, observed, start, relays, None, limit)
    ensures Beyond(up, Listed(db, observed), Some(Key(tier, boundary, 0))) == {} ==> Segment(up, db, observed, start, relays, None, limit)
  {
    hide Precedes, Sorted, Listed, Grid, Ahead, Beyond;
    var listed, grid, link := Listed(db, observed), Grid(db), Some(Key(tier, boundary, 0));
    AheadIsBeyond(up, db, tier, boundary);
    ListedInGrid(db, observed);
    BeyondSubset(up, listed, grid, start);
    BeyondSubset(up, listed, grid, link);
    assert listed * (Beyond(up, grid, start) - Beyond(up, grid, link)) ==
           Beyond(up, listed, start) - Beyond(up, listed, link);
    assert Beyond(up, listed, start) - {} == Beyond(up, listed, start);
  }

  /** What a scan passed and what is still ahead make up what there was. */
  lemma ScanCounts(up: bool, db: Database, observed: int, start: set<Key>, tier: int, boundary: string,
                   scanned: nat, relays: seq<Key>)
    requires Progress(up, db, observed, start, tier, boundary, scanned, relays)
    ensures |start| == scanned + |Ahead(up, Grid(db), tier, boundary)|
  {
    hide Precedes, Sorted, Listed, Grid, Ahead;
    var rest := Ahead(up, Grid(db), tier, boundary);
    assert start == (start - rest) + rest;
  }

  /** Every public identity has a position in every tier, so lower tiers are never all behind. */
  lemma LowerTiersAhead(db: Database, tier: int, boundary: string)
    requires 1 < tier <= 4 && Key(tier, boundary, 0) in Grid(db)
    ensures Ahead(false, Grid(db), tier, boundary) != {}
  {
    hide Precedes, Eligible;
    assert Key(tier - 1, boundary, 0) in Ahead(false, Grid(db), tier, boundary);
  }

  /** A scan with nothing ahead covers everything. */
  lemma FinishedSegment(up: bool, db: Database, observed: int, start: Option<Key>, tier: int, boundary: string,
                        scanned: nat, relays: seq<Key>, limit: nat)
    requires |relays| <= limit && Ahead(up, Grid(db), tier, boundary) == {}
    requires Progress(up, db, observed, Beyond(up, Grid(db), start), tier, boundary, scanned, relays)
    ensures Segment(up, db, observed, start, relays, None, limit)
  {
    hide Precedes, Sorted, Listed, Grid, Ahead, Beyond;
    ListedInGrid(db, observed);
    BeyondSubset(up, Listed(db, observed), Grid(db), start);
    assert Beyond(up, Grid(db), start) - {} == Beyond(up, Grid(db), start);
    assert Beyond(up, Listed(db, observed), start) - {} == Beyond(up, Listed(db, observed), start);
  }

  /** Whether a public relay lies beyond a cursor: never a false "no"; a false "yes" only when
      the identity budget ran out before the answer was known. */
  method HasRelay(up: bool, db: Database, cursor: Key, observed: int) returns (ok: bool, has: bool)
    requires ValidCursor(Some(cursor)) && "" !in db.rows
    ensures Readable(db, observed) ==> ok
    ensures ok && !has ==> Beyond(up, Listed(db, observed), Some(cursor)) == {}
    ensures ok && has ==> Beyond(up, Listed(db, observed), Some(cursor)) != {} ||
                          |Beyond(up, Grid(db), Some(cursor))| >= MAXIMUM_SCAN
  {
    hide Precedes, Sorted, Listed, Grid, Ahead, Beyond;
    var stop, relays, tier, boundary, scanned := Scan(up, db, cursor.rank, cursor.text, 1, observed);
    AheadIsBeyond(up, db, cursor.rank, cursor.text);
    assert cursor == Key(cursor.rank, cursor.text, 0);
    ok, has := stop != Failure, stop == Full || stop == More || (stop == Spent && tier != LastTier(up));
    if ok {
      ProbeAnswer(up, db, observed, cursor, tier, boundary, scanned, relays);
      if stop == Spent && !has { LastTierAhead(up, db, tier, boundary); }
    }
  }

  lemma ProbeAnswer(up: bool, db: Database, observed: int, cursor: Key, tier: int, boundary: string,
                    scanned: nat, relays: seq<Key>)
    requires Progress(up, db, observed, Beyond(up, Grid(db), Some(cursor)), tier, boundary, scanned, relays)
    ensures relays != [] ==> Beyond(up, Listed(db, observed), Some(cursor)) != {}
    ensures |Beyond(up, Grid(db), Some(cursor))| >= scanned
    ensures relays == [] && Ahead(up, Grid(db), tier, boundary) == {} ==> Beyond(up, Listed(db, observed), Some(cursor)) == {}
  {
    hide Precedes, Sorted, Listed, Grid, Ahead, Beyond;
    var start, rest := Beyond(up, Grid(db), Some(cursor)), Ahead(up, Grid(db), tier, boundary);
    ListedInGrid(db, observed);
    BeyondSubset(up, Listed(db, observed), Grid(db), Some(cursor));
    SubsetSize(start - rest, start);
    if rest == {} { assert start - rest == start; }
    if relays != [] {
      assert relays[0] in SetOf(relays);
    }
  }
}
