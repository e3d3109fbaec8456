/** The local export: walks the directory with full pages and a fixed page budget. */
module Export {
  import opened Keyset
  import opened Store
  import opened Details
  import opened Projection
  import opened Pages

  const MAXIMUM_EXPORT_PAGES := 256
  const MAXIMUM_EXPORT_RELAYS := 10000

  datatype Scope = ActiveRelays | AllRelays | UnavailableRelays
  datatype ExportResult = Exported(relays: seq<Key>) | ExportFailed | ExportData | ExportLimit

  predicate ScopeIncludes(scope: Scope, tier: int) {
    match scope
    case ActiveRelays => tier == 1 || tier == 2
    case UnavailableRelays => tier == 3 || tier == 4
    case AllRelays => 1 <= tier <= 4
  }

  predicate CursorAdvances(previous: Option<Key>, next: Key) {
    ValidCursor(Some(next)) && (previous.None? || Less(previous.value, next))
  }

  function Scoped(scope: Scope, s: set<Key>): set<Key> {
    set k | k in s && ScopeIncludes(scope, k.rank)
  }

  /** The relays that have been walked once the cursor stands at `after`. */
  function Walked(db: Database, observed: int, after: Option<Key>): set<Key> {
    if after.None? then {} else Listed(db, observed) - Beyond(true, Listed(db, observed), after)
  }

  function Actors(s: set<Key>): set<string> {
    set k | k in s :: k.text
  }

  /** Adds one page to the export, stopping at the relay ceiling. */
  method Collect(db: Database, observed: int, scope: Scope, ghost walked: set<Key>, page: seq<Key>,
                 relays0: seq<Key>, seen0: set<string>)
    returns (limited: bool, unique: bool, relays: seq<Key>, seen: set<string>)
    requires Ordered(true, page) && AllPrecede(true, walked, SetOf(page))
    requires walked <= Listed(db, observed) && SetOf(page) <= Listed(db, observed)
    requires relays0 == Sorted(true, Scoped(scope, walked)) && seen0 == Actors(walked)
    requires |relays0| <= MAXIMUM_EXPORT_RELAYS
    ensures limited ==> |Scoped(scope, walked + SetOf(page))| > MAXIMUM_EXPORT_RELAYS
    ensures !limited ==>
      && unique && |relays| <= MAXIMUM_EXPORT_RELAYS
      && relays == Sorted(true, Scoped(scope, walked + SetOf(page))) && seen == Actors(walked + SetOf(page))
  {
    hide Precedes, Sorted, Listed;
    relays, seen, unique := relays0, seen0, true;
    assert walked + SetOf(page[..0]) == walked;
    for i := 0 to |page|
      invariant unique && |relays| <= MAXIMUM_EXPORT_RELAYS
      invariant relays == Sorted(true, Scoped(scope, walked + SetOf(page[..i])))
      invariant seen == Actors(walked + SetOf(page[..i]))
    {
      CollectOne(db, observed, scope, walked, page, i);
      unique := unique && page[i].text !in seen;
      seen := seen + {page[i].text};
      if ScopeIncludes(scope, page[i].rank) {
        if |relays| >= MAXIMUM_EXPORT_RELAYS {
          MoreIsLarger(scope, walked, page, i);
          return true, unique, relays, seen;
        }
        relays := relays + [page[i]];
      }
    }
    assert page[..|page|] == page;
    limited := false;
  }

  lemma CollectOne(db: Database, observed: int, scope: Scope, walked: set<Key>, page: seq<Key>, i: nat)
    requires Ordered(true, page) && AllPrecede(true, walked, SetOf(page)) && i < |page|
    requires walked <= Listed(db, observed) && SetOf(page) <= Listed(db, observed)
    ensures var before, after := walked + SetOf(page[..i]), walked + SetOf(page[..i + 1]);
            && Actors(after) == Actors(before) + {page[i].text} && page[i].text !in Actors(before)
            && (if ScopeIncludes(scope, page[i].rank)
                then Sorted(true, Scoped(scope, after)) == Sorted(true, Scoped(scope, before)) + [page[i]] &&
                     |Scoped(scope, after)| == |Scoped(scope, before)| + 1
                else Scoped(scope, after) == Scoped(scope, before))
  {
    hide Precedes, Sorted, Listed, Ordered, Actors, Scoped;
    var before, k := walked + SetOf(page[..i]), page[i];
    PageStep(walked, page, i);
    ActorStep(db, observed, before, k);
    ScopeStep(scope, before, k);
  }

  lemma PageStep(walked: set<Key>, page: seq<Key>, i: nat)
    requires Ordered(true, page) && AllPrecede(true, walked, SetOf(page)) && i < |page|
    ensures walked + SetOf(page[..i + 1]) == walked + SetOf(page[..i]) + {page[i]}
    ensures AllPrecede(true, walked + SetOf(page[..i]), {page[i]})
    ensures SetOf(page[..i]) <= SetOf(page) && page[i] in SetOf(page)
  {
    hide Precedes, Ordered;
    HeadTail(true, page, i);
    OrderedCut(true, page, i);
  }

  lemma ActorStep(db: Database, observed: int, before: set<Key>, k: Key)
    requires before <= Listed(db, observed) && k in Listed(db, observed) && AllPrecede(true, before, {k})
    ensures Actors(before + {k}) == Actors(before) + {k.text} && k.text !in Actors(before) && k !in before
  {
    hide Precedes, Listed;
    forall x | x in before
      ensures x.text != k.text && x != k
    {
      OneTierEach(db, observed, x, k);
      PrecedesTotal(true, x, k);
    }
  }

  lemma ScopeStep(scope: Scope, before: set<Key>, k: Key)
    requires AllPrecede(true, before, {k}) && k !in before
    ensures if ScopeIncludes(scope, k.rank)
            then Sorted(true, Scoped(scope, before + {k})) == Sorted(true, Scoped(scope, before)) + [k] &&
                 |Scoped(scope, before + {k})| == |Scoped(scope, before)| + 1
            else Scoped(scope, before + {k}) == Scoped(scope, before)
  {
    hide Precedes, Sorted;
    if ScopeIncludes(scope, k.rank) {
      assert Scoped(scope, before + {k}) == Scoped(scope, before) + {k};
      SortedPush(true, Scoped(scope, before), k);
    } else {
      assert Scoped(scope, before + {k}) == Scoped(scope, before);
    }
  }

  lemma OneTierEach(db: Database, observed: int, x: Key, y: Key)
    requires x in Listed(db, observed) && y in Listed(db, observed)
    ensures x.text == y.text ==> x == y
  {
    hide ReadDetail, Eligible;
  }

  lemma MoreIsLarger(scope: Scope, walked: set<Key>, page: seq<Key>, i: nat)
    requires i < |page|
    ensures |Scoped(scope, walked + SetOf(page[..i + 1]))| <= |Scoped(scope, walked + SetOf(page))|
  {
    SubsetSize(Scoped(scope, walked + SetOf(page[..i + 1])), Scoped(scope, walked + SetOf(page)));
  }

  /** What one forward page adds to the walk. */
  lemma PageWalked(db: Database, observed: int, after: Option<Key>, page: seq<Key>, next: Option<Key>, limit: nat)
    requires Segment(true, db, observed, after, page, next, limit)
    ensures Ordered(true, page) && SetOf(page) <= Listed(db, observed) && Walked(db, observed, after) <= Listed(db, observed)
    ensures AllPrecede(true, Walked(db, observed, after), SetOf(page))
    ensures Walked(db, observed, after) + SetOf(page) == if next.Some? then Walked(db, observed, next) else Listed(db, observed)
  {
    hide Precedes, Sorted, Listed, Grid;
    var listed := Listed(db, observed);
    if after.Some? {
      forall x, y | x in Walked(db, observed, after) && y in SetOf(page)
        ensures Precedes(true, x, y)
      {
        PrecedesTotal(true, x, after.value);
        if x != after.value { PrecedesTransitive(true, x, after.value, y); }
      }
      if next.Some? { LinkSplits(true, listed, after, next.value); }
    }
  }

  lemma GridSize(db: Database)
    ensures |Grid(db)| <= 4 * |Public(db)|
  {
    hide Public, TierKeys;
    TierKeysSize(Public(db), 1);
    TierKeysSize(Public(db), 2);
    TierKeysSize(Public(db), 3);
    TierKeysSize(Public(db), 4);
  }

  lemma ListedSize(db: Database, observed: int)
    ensures |Listed(db, observed)| <= |Public(db)|
    ensures Readable(db, observed) ==> |Listed(db, observed)| == |Public(db)|
  {
    hide ReadDetail, Eligible;
    var shown := set actor | actor in Public(db) && ReadDetail(db.rows[actor], observed).Shown?;
    ImageSize(db, observed, shown);
    assert Listed(db, observed) == set actor | actor in shown :: Key(ReadDetail(db.rows[actor], observed).relay.tier, actor, 0);
    SubsetSize(shown, Public(db));
    if Readable(db, observed) { assert shown == Public(db); }
  }

  /** Pages so far: each was full, or used the whole identity budget. */
  predicate Budget(db: Database, observed: int, after: Option<Key>, pages: nat, full: nat, spent: nat) {
    && pages == full + spent
    && 100 * full + |Beyond(true, Listed(db, observed), after)| <= |Public(db)|
    && 400 * spent + |Beyond(true, Grid(db), after)| <= 4 * |Public(db)|
  }

  lemma StartBudget(db: Database, observed: int)
    ensures Budget(db, observed, None, 0, 0, 0)
  {
    hide Listed, Grid, Public;
    GridSize(db);
    ListedSize(db, observed);
    assert Beyond(true, Listed(db, observed), None) == Listed(db, observed);
    assert Beyond(true, Grid(db), None) == Grid(db);
  }

  lemma NextBudget(db: Database, observed: int, after: Option<Key>, pages: nat, full: nat, spent: nat,
                   page: seq<Key>, next: Option<Key>)
    requires Budget(db, observed, after, pages, full, spent) && next.Some?
    requires Segment(true, db, observed, after, page, next, MAXIMUM_PAGE)
    ensures if |page| == MAXIMUM_PAGE then Budget(db, observed, next, pages + 1, full + 1, spent)
            else Budget(db, observed, next, pages + 1, full, spent + 1)
    ensures CursorAdvances(after, next.value)
  {
    hide Listed, Grid, Public, Sorted, Segment, Less;
    LegSplits(true, db, observed, after, Leg(page, next), MAXIMUM_PAGE);
    LinkAdvances(db, observed, after, page, next);
  }

  lemma LinkAdvances(db: Database, observed: int, after: Option<Key>, page: seq<Key>, next: Option<Key>)
    requires Segment(true, db, observed, after, page, next, MAXIMUM_PAGE) && next.Some?
    ensures CursorAdvances(after, next.value)
  {
    hide Listed, Grid, Sorted, Less;
  }

  /** Walks every page with one observation time. The export of a scope is exactly its public
      relays in order. With at most 10000 identities it always completes, in no more than
      2 * (N / 100) + 1 pages, well inside its 256; the unrestricted scope is refused for
      size exactly beyond 10000. */
  method Render(db: Database, scope: Scope, observed: int) returns (result: ExportResult, pages: nat)
    requires "" !in db.rows
    ensures result.Exported? ==> result.relays == Sorted(true, Scoped(scope, Listed(db, observed)))
    ensures result.Exported? ==> pages <= 2 * (|Public(db)| / 100) + 1
    ensures result != ExportData && (Readable(db, observed) ==> result != ExportFailed)
    ensures Readable(db, observed) && |Public(db)| <= MAXIMUM_EXPORT_RELAYS ==> result.Exported?
    ensures Readable(db, observed) && scope == AllRelays ==>
              (result == ExportLimit <==> |Public(db)| > MAXIMUM_EXPORT_RELAYS)
  {
    hide Sorted, Listed, Grid, Beyond, Segment, Readable, Public, Walked, Scoped, Actors, CursorAdvances;
    var after: Option<Key> := None;
    var relays: seq<Key> := [];
    var seen: set<string> := {};
    var valid := true;
    ghost var full, spent := 0, 0;
    pages := 0;
    StartBudget(db, observed);
    StartWalk(db, observed, scope);
    while pages < MAXIMUM_EXPORT_PAGES
      invariant valid && |relays| <= MAXIMUM_EXPORT_RELAYS && ValidCursor(after)
      invariant Budget(db, observed, after, pages, full, spent)
      invariant relays == Sorted(true, Scoped(scope, Walked(db, observed, after))) && seen == Actors(Walked(db, observed, after))
    {
      var listing := ListAfter(db, after, MAXIMUM_PAGE, observed);
      if !listing.Loaded? { return ExportFailed, pages; }
      var page := listing.page;
      PageWalked(db, observed, after, page.relays, page.next, MAXIMUM_PAGE);
      ghost var walked := Walked(db, observed, after);
      var limited, unique;
      limited, unique, relays, seen := Collect(db, observed, scope, walked, page.relays, relays, seen);
      if limited {
        TooMany(db, observed, scope, walked, page.relays);
        return ExportLimit, pages;
      }
      valid := valid && unique;
      pages := pages + 1;
      if page.next.None? {
        result := if valid then Exported(relays) else ExportData;
        WholeScope(db, observed, scope);
        return result, pages;
      }
      NextBudget(db, observed, after, pages - 1, full, spent, page.relays, page.next);
      LinkCursor(db, observed, after, page.relays, page.next);
      valid := valid && CursorAdvances(after, page.next.value);
      if |page.relays| == MAXIMUM_PAGE { full := full + 1; } else { spent := spent + 1; }
      after := page.next;
    }
    result := ExportLimit;
  }

  lemma StartWalk(db: Database, observed: int, scope: Scope)
    ensures Sorted(true, Scoped(scope, Walked(db, observed, None))) == [] && Actors(Walked(db, observed, None)) == {}
  {
    assert Scoped(scope, {}) == {};
  }

  lemma LinkCursor(db: Database, observed: int, after: Option<Key>, page: seq<Key>, next: Option<Key>)
    requires Segment(true, db, observed, after, page, next, MAXIMUM_PAGE)
    ensures ValidCursor(next)
  {
    hide Listed, Grid, Sorted;
  }

  lemma TooMany(db: Database, observed: int, scope: Scope, walked: set<Key>, page: seq<Key>)
    requires |Scoped(scope, walked + SetOf(page))| > MAXIMUM_EXPORT_RELAYS
    requires walked <= Listed(db, observed) && SetOf(page) <= Listed(db, observed)
    ensures |Public(db)| > MAXIMUM_EXPORT_RELAYS
  {
    hide Listed, Public;
    SubsetSize(Scoped(scope, walked + SetOf(page)), Listed(db, observed));
    ListedSize(db, observed);
  }

  lemma WholeScope(db: Database, observed: int, scope: Scope)
    ensures Readable(db, observed) && scope == AllRelays ==> |Sorted(true, Scoped(scope, Listed(db, observed)))| == |Public(db)|
  {
    hide Listed, Public, Sorted, Grid;
    ListedSize(db, observed);
    ListedInGrid(db, observed);
    if scope == AllRelays {
      forall k | k in Listed(db, observed)
        ensures ScopeIncludes(AllRelays, k.rank)
      {
        GridTiers(db, k);
      }
      assert Scoped(AllRelays, Listed(db, observed)) == Listed(db, observed);
    }
  }

  lemma GridTiers(db: Database, k: Key)
    requires k in Grid(db)
    ensures 1 <= k.rank <= 4
  {
  }
}
