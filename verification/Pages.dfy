/** Page links and walks: forward and reverse directory pages, what the HTTP layer accepts,
    and what following the links enumerates. */
module Pages {
  import opened Keyset
  import opened Evidence
  import opened Store
  import opened Details
  import opened Projection

  function Reversed(s: seq<Key>): (r: seq<Key>)
    ensures |r| == |s| && forall i :: 0 <= i < |s| ==> r[i] == s[|s| - 1 - i]
  {
    seq(|s|, i requires 0 <= i < |s| => s[|s| - 1 - i])
  }

  /** Reverses a page by swapping from both ends. */
  method ReverseRelays(relays: seq<Key>) returns (reversed: seq<Key>)
    ensures reversed == Reversed(relays)
  {
    reversed := relays;
    var left, right := 0, |relays| - 1;
    while left < right
      invariant 0 <= left <= right + 2 && left + right == |relays| - 1 && |reversed| == |relays|
      invariant forall i :: 0 <= i < left || right < i < |relays| ==> reversed[i] == relays[|relays| - 1 - i]
      invariant forall i :: left <= i <= right ==> reversed[i] == relays[i]
    {
      reversed := reversed[left := reversed[right]][right := reversed[left]];
      left, right := left + 1, right - 1;
    }
  }

  lemma ReversedSorted(s: set<Key>)
    ensures Reversed(Sorted(false, s)) == Sorted(true, s)
  {
    hide Less;
    var down := Sorted(false, s);
    var r := Reversed(down);
    forall x
      ensures x in r <==> x in down
    {
      if x in down {
        var i :| 0 <= i < |down| && down[i] == x;
        assert r[|down| - 1 - i] == x;
      }
    }
    assert SetOf(r) == SetOf(down);
    SortedIs(true, r, s);
  }

  // ---- forward ----

  /** The link back from a forward page. */
  function ForwardPrevious(after: Option<Key>, relays: seq<Key>): Option<Key> {
    if after.None? then None else if relays == [] then after else Some(relays[0])
  }

  method ListAfter(db: Database, after: Option<Key>, limit: nat, observed: int) returns (result: PageResult)
    requires ValidCursor(after) && limit > 0 && "" !in db.rows
    ensures result != InvalidQuery && (Readable(db, observed) ==> result.Loaded?)
    ensures result.Loaded? ==>
      && Segment(true, db, observed, after, result.page.relays, result.page.next, limit)
      && result.page.previous == ForwardPrevious(after, result.page.relays)
  {
    hide Precedes, Sorted, Listed, Grid, Ahead, Beyond, Segment, Progress;
    var tier, boundary := 1, "";
    if after.Some? {
      tier, boundary := after.value.rank, after.value.text;
      AheadIsBeyond(true, db, tier, boundary);
      assert after.value == Key(tier, boundary, 0);
    } else {
      FirstTierAhead(db);
    }
    var stop, relays, scanned;
    stop, relays, tier, boundary, scanned := Scan(true, db, tier, boundary, limit, observed);
    if stop == Failure { return DataError; }
    var next := None;
    if stop == Done {
      FinishedSegment(true, db, observed, after, tier, boundary, scanned, relays, limit);
    } else {
      StoppedSegment(true, db, observed, after, tier, boundary, scanned, relays, limit);
      if stop == Full {
        var ok, more := HasRelay(true, db, relays[|relays| - 1], observed);
        if !ok { return DataError; }
        if more { next := Some(relays[|relays| - 1]); }
      } else if stop == More || tier < 4 {
        next := Some(Key(tier, boundary, 0));
      } else {
        LastTierAhead(true, db, tier, boundary);
      }
    }
    result := Loaded(Page(relays, ForwardPrevious(after, relays), next));
  }

  // ---- reverse ----

  /** A reverse page: the segment below the cursor, listed upwards, with a link forward to its
      last relay. A page that holds none links to the scan position instead, once the scan has
      used its whole identity budget. */
  predicate ReversePage(db: Database, observed: int, before: Key, page: Page, limit: nat) {
    var below := Beyond(false, Grid(db), Some(before));
    && Segment(false, db, observed, Some(before), Reversed(page.relays), page.previous, limit)
    && (page.relays != [] ==> page.next == Some(page.relays[|page.relays| - 1]))
    && (page.relays == [] ==>
          && (page.next.Some? <==> |below| >= MAXIMUM_SCAN) && (page.previous.Some? <==> |below| > MAXIMUM_SCAN)
          && (page.next.Some? ==> page.next.value in below) && (page.previous.Some? ==> page.previous == page.next))
  }

  lemma MakeReversePage(db: Database, observed: int, before: Key, found: seq<Key>, relays: seq<Key>,
                        previous: Option<Key>, next: Option<Key>, limit: nat)
    requires Segment(false, db, observed, Some(before), found, previous, limit) && Reversed(relays) == found
    requires relays != [] ==> next == Some(relays[|relays| - 1])
    requires relays == [] ==> next.Some? == (|Beyond(false, Grid(db), Some(before))| >= MAXIMUM_SCAN)
    requires relays == [] ==> previous.Some? == (|Beyond(false, Grid(db), Some(before))| > MAXIMUM_SCAN)
    requires relays == [] && next.Some? ==> next.value in Beyond(false, Grid(db), Some(before))
    requires relays == [] && previous.Some? ==> previous == next
    ensures ReversePage(db, observed, before, Page(relays, previous, next), limit)
  {
    hide Segment, Listed, Grid, Beyond;
  }

  method ListBefore(db: Database, before: Key, limit: nat, observed: int) returns (result: PageResult)
    requires ValidCursor(Some(before)) && limit > 0 && "" !in db.rows
    ensures result != InvalidQuery && (Readable(db, observed) ==> result.Loaded?)
    ensures result.Loaded? ==> ReversePage(db, observed, before, result.page, limit)
  {
    hide Precedes, Sorted, Listed, Grid, Ahead, Beyond, Segment, Progress, Readable, ReversePage, Reversed, OfTier;
    AheadIsBeyond(false, db, before.rank, before.text);
    assert before == Key(before.rank, before.text, 0);
    var stop, found, tier, boundary, scanned := Scan(false, db, before.rank, before.text, limit, observed);
    if stop == Failure { return DataError; }
    ScanCounts(false, db, observed, Beyond(false, Grid(db), Some(before)), tier, boundary, scanned, found);
    var relays := ReverseRelays(found);
    ReversedTwice(found);
    var previous, next := None, None;
    if relays != [] { next := Some(relays[|relays| - 1]); }
    if stop == Done {
      FinishedSegment(false, db, observed, Some(before), tier, boundary, scanned, found, limit);
    } else {
      StoppedSegment(false, db, observed, Some(before), tier, boundary, scanned, found, limit);
      if stop == Full {
        var ok, more := HasRelay(false, db, relays[0], observed);
        if !ok { return DataError; }
        if more { previous := Some(relays[0]); }
      } else {
        var continuation := Key(tier, boundary, 0);
        RestAhead(db, before, stop, tier, boundary);
        if stop == More || tier > 1 { previous := Some(continuation); }
        if relays == [] { next := Some(continuation); }
      }
    }
    MakeReversePage(db, observed, before, found, relays, previous, next, limit);
    result := Loaded(Page(relays, previous, next));
  }

  /** Something is left after the budget ran out exactly when the code continues from there. */
  lemma RestAhead(db: Database, before: Key, stop: Stop, tier: int, boundary: string)
    requires ValidTier(tier) && (stop == More || stop == Spent)
    requires stop == More ==> OfTier(Ahead(false, Grid(db), tier, boundary), tier) != {}
    requires stop == Spent ==> OfTier(Ahead(false, Grid(db), tier, boundary), tier) == {}
    requires Key(tier, boundary, 0) in Beyond(false, Grid(db), Some(before))
    ensures Ahead(false, Grid(db), tier, boundary) != {} <==> stop == More || tier > 1
  {
    hide Precedes, Grid;
    if stop == Spent {
      if tier > 1 { LowerTiersAhead(db, tier, boundary); } else { LastTierAhead(false, db, tier, boundary); }
    }
  }

  /** A reverse page has no link in either direction if and only if no public relay lies below
      its cursor and fewer scan positions than the budget do. */
  lemma {:induction false} NoLinksIff(db: Database, observed: int, before: Key, page: Page, limit: nat)
    requires ReversePage(db, observed, before, page, limit)
    ensures page.previous.None? && page.next.None? <==>
              Beyond(false, Listed(db, observed), Some(before)) == {} &&
              |Beyond(false, Grid(db), Some(before))| < MAXIMUM_SCAN
  {
    hide Listed, Grid, Beyond, Sorted;
    var below := Beyond(false, Listed(db, observed), Some(before));
    if page.previous.None? {
      WholeSegment(false, db, observed, Some(before), Reversed(page.relays), limit);
      assert |page.relays| == |below|;
    }
    if below == {} {
      assert below - (if page.previous.Some? then Beyond(false, Listed(db, observed), page.previous) else {}) == {};
      assert |page.relays| == 0;
    }
  }

  lemma ReversedTwice(s: seq<Key>)
    ensures Reversed(Reversed(s)) == s
    ensures s != [] ==> Reversed(s)[0] == s[|s| - 1] && Reversed(s)[|s| - 1] == s[0]
  {
  }

  /** One bounded request; at most one cursor, and a page size from 1 to 100. */
  method ListDirectoryRelays(db: Database, after: Option<Key>, before: Option<Key>, limit: int, observed: int)
    returns (result: PageResult)
    requires "" !in db.rows
    ensures result == InvalidQuery <==>
      !ValidCursor(after) || !ValidCursor(before) || (after.Some? && before.Some?) ||
      limit <= 0 || limit > MAXIMUM_PAGE || observed < 0
    ensures result != InvalidQuery && Readable(db, observed) ==> result.Loaded?
    ensures result.Loaded? ==>
      if before.Some? then ReversePage(db, observed, before.value, result.page, limit)
      else Segment(true, db, observed, after, result.page.relays, result.page.next, limit) &&
           result.page.previous == ForwardPrevious(after, result.page.relays)
  {
    hide Segment, Listed, Grid, Beyond, Readable;
    if !ValidCursor(after) || !ValidCursor(before) || (after.Some? && before.Some?) ||
       limit <= 0 || limit > MAXIMUM_PAGE {
      return InvalidQuery;
    }
    if observed < 0 { return InvalidQuery; }
    if before.Some? {
      result := ListBefore(db, before.value, limit, observed);
    } else {
      result := ListAfter(db, after, limit, observed);
    }
  }

  // ---- walks ----

  datatype Leg = Leg(relays: seq<Key>, link: Option<Key>)

  /** Legs that follow one another by their links from `start`, the last offering none. */
  predicate Walk(up: bool, db: Database, observed: int, start: Option<Key>, legs: seq<Leg>, limit: nat)
    decreases |legs|
  {
    hide Segment;
    && legs != [] && Segment(up, db, observed, start, legs[0].relays, legs[0].link, limit)
    && (if |legs| == 1 then legs[0].link.None? else legs[0].link.Some? && Walk(up, db, observed, legs[0].link, legs[1..], limit))
  }

  /** Legs that follow one another and all offer a link onwards. */
  predicate Linked(up: bool, db: Database, observed: int, start: Option<Key>, legs: seq<Leg>, limit: nat)
    decreases |legs|
  {
    hide Segment;
    legs != [] ==>
      && legs[0].link.Some? && Segment(up, db, observed, start, legs[0].relays, legs[0].link, limit)
      && Linked(up, db, observed, legs[0].link, legs[1..], limit)
  }

  function Concat(legs: seq<Leg>): seq<Key> {
    if legs == [] then [] else legs[0].relays + Concat(legs[1..])
  }

  lemma LinkSplits(up: bool, s: set<Key>, start: Option<Key>, link: Key)
    requires start.Some? ==> Precedes(up, start.value, link)
    ensures Beyond(up, s, Some(link)) <= Beyond(up, s, start)
    ensures AllPrecede(up, Beyond(up, s, start) - Beyond(up, s, Some(link)), Beyond(up, s, Some(link)))
  {
    hide Precedes;
    OrderLaws(up);
    forall x, y | x in Beyond(up, s, start) - Beyond(up, s, Some(link)) && y in Beyond(up, s, Some(link))
      ensures Precedes(up, x, y)
    {
      assert Precedes(up, x, link) || x == link;
    }
  }

  lemma LegSplits(up: bool, db: Database, observed: int, start: Option<Key>, leg: Leg, limit: nat)
    requires Segment(up, db, observed, start, leg.relays, leg.link, limit) && leg.link.Some?
    ensures leg.relays + Sorted(up, Beyond(up, Listed(db, observed), leg.link)) == Sorted(up, Beyond(up, Listed(db, observed), start))
    ensures |Beyond(up, Listed(db, observed), start)| == |leg.relays| + |Beyond(up, Listed(db, observed), leg.link)|
    ensures |Beyond(up, Grid(db), leg.link)| < |Beyond(up, Grid(db), start)|
    ensures |leg.relays| == limit || |Beyond(up, Grid(db), start)| == MAXIMUM_SCAN + |Beyond(up, Grid(db), leg.link)|
  {
    hide Precedes, Sorted, Listed, Grid;
    var listed, grid := Listed(db, observed), Grid(db);
    LinkSplits(up, listed, start, leg.link.value);
    LinkSplits(up, grid, start, leg.link.value);
    var here := Beyond(up, listed, start) - Beyond(up, listed, leg.link);
    SortedUnion(up, here, Beyond(up, listed, leg.link));
    assert here + Beyond(up, listed, leg.link) == Beyond(up, listed, start);
    assert |leg.relays| == |here|;
    PrecedesTotal(up, leg.link.value, leg.link.value);
    assert leg.link.value in Beyond(up, grid, start) - Beyond(up, grid, leg.link);
    assert Beyond(up, grid, start) == (Beyond(up, grid, start) - Beyond(up, grid, leg.link)) + Beyond(up, grid, leg.link);
  }

  /** Any complete walk, in either direction and from any cursor, lists exactly the public
      relays beyond that cursor in (tier, actor) order, each once. */
  lemma {:induction false} WalkListsEverything(up: bool, db: Database, observed: int, start: Option<Key>,
                                               legs: seq<Leg>, limit: nat)
    requires Walk(up, db, observed, start, legs, limit)
    ensures Concat(legs) == Sorted(up, Beyond(up, Listed(db, observed), start))
    decreases |legs|
  {
    hide Sorted, Listed, Grid, Beyond, Segment;
    if |legs| == 1 {
      WholeSegment(up, db, observed, start, legs[0].relays, limit);
      assert Concat(legs[1..]) == [];
      assert legs[0].relays + [] == legs[0].relays;
    } else {
      LegSplits(up, db, observed, start, legs[0], limit);
      WalkListsEverything(up, db, observed, legs[0].link, legs[1..], limit);
    }
  }

  /** From the zero cursor a complete forward walk is the whole listing. */
  lemma ForwardWalkIsTheListing(db: Database, observed: int, legs: seq<Leg>, limit: nat)
    requires Walk(true, db, observed, None, legs, limit)
    ensures Concat(legs) == Sorted(true, Listed(db, observed))
  {
    hide Sorted, Listed, Walk;
    WalkListsEverything(true, db, observed, None, legs, limit);
    assert Beyond(true, Listed(db, observed), None) == Listed(db, observed);
  }

  lemma WholeSegment(up: bool, db: Database, observed: int, start: Option<Key>, relays: seq<Key>, limit: nat)
    requires Segment(up, db, observed, start, relays, None, limit)
    ensures relays == Sorted(up, Beyond(up, Listed(db, observed), start))
  {
    hide Sorted, Listed, Grid, Beyond;
    assert Beyond(up, Listed(db, observed), start) - {} == Beyond(up, Listed(db, observed), start);
  }

  /** A walk ends: every link leaves fewer scan positions ahead, so legs that all offer one
      number no more than the positions there were. */
  lemma {:induction false} LinksRunOut(up: bool, db: Database, observed: int, start: Option<Key>, legs: seq<Leg>, limit: nat)
    requires Linked(up, db, observed, start, legs, limit)
    ensures |legs| <= |Beyond(up, Grid(db), start)|
    decreases |legs|
  {
    hide Sorted, Listed, Grid, Beyond, Segment;
    if legs != [] {
      LegSplits(up, db, observed, start, legs[0], limit);
      LinksRunOut(up, db, observed, legs[0].link, legs[1..], limit);
    }
  }

  /** Where the next leg starts. */
  function EndOf(start: Option<Key>, legs: seq<Leg>): Option<Key> {
    if legs == [] then start else legs[|legs| - 1].link
  }

  lemma {:induction false} LinkedAppend(up: bool, db: Database, observed: int, start: Option<Key>, legs: seq<Leg>, leg: Leg,
                                        limit: nat)
    requires Linked(up, db, observed, start, legs, limit)
    requires Segment(up, db, observed, EndOf(start, legs), leg.relays, leg.link, limit)
    ensures leg.link.Some? ==> Linked(up, db, observed, start, legs + [leg], limit)
    ensures leg.link.None? ==> Walk(up, db, observed, start, legs + [leg], limit)
    ensures Concat(legs + [leg]) == Concat(legs) + leg.relays
    decreases |legs|
  {
    hide Segment;
    if legs == [] {
      assert [leg][1..] == [] && Concat([]) == [];
      assert leg.relays + [] == leg.relays && [] + leg.relays == leg.relays;
    } else {
      var rest := legs[1..];
      LinkedAppend(up, db, observed, legs[0].link, rest, leg, limit);
      assert (legs + [leg])[1..] == rest + [leg];
      assert legs[0].relays + (Concat(rest) + leg.relays) == legs[0].relays + Concat(rest) + leg.relays;
    }
  }

  /** Follows the links forward from any cursor, with any page limit: it ends, having listed
      exactly the public relays beyond the cursor. */
  method WalkForward(db: Database, start: Option<Key>, limit: nat, observed: int)
    returns (ok: bool, relays: seq<Key>, ghost legs: seq<Leg>)
    requires ValidCursor(start) && limit > 0 && "" !in db.rows
    ensures Readable(db, observed) ==> ok
    ensures ok ==> Walk(true, db, observed, start, legs, limit) && relays == Concat(legs)
    ensures ok ==> relays == Sorted(true, Beyond(true, Listed(db, observed), start))
  {
    hide Sorted, Listed, Grid, Beyond, Segment, Readable, Walk;
    relays, legs := [], [];
    var cursor := start;
    while true
      invariant ValidCursor(cursor) && cursor == EndOf(start, legs)
      invariant Linked(true, db, observed, start, legs, limit) && relays == Concat(legs)
      decreases |Beyond(true, Grid(db), cursor)|
    {
      hide Linked, Concat;
      var listing := ListAfter(db, cursor, limit, observed);
      if !listing.Loaded? { return false, relays, legs; }
      var page := listing.page;
      ghost var leg := Leg(page.relays, page.next);
      LinkedAppend(true, db, observed, start, legs, leg, limit);
      relays, legs := relays + page.relays, legs + [leg];
      LinkValid(true, db, observed, cursor, page.relays, page.next, limit);
      if page.next.None? {
        WalkListsEverything(true, db, observed, start, legs, limit);
        return true, relays, legs;
      }
      LegSplits(true, db, observed, cursor, leg, limit);
      cursor := page.next;
    }
  }

  /** Follows the links back: the same relays below the cursor, put together upwards. */
  method WalkBackward(db: Database, before: Key, limit: nat, observed: int)
    returns (ok: bool, relays: seq<Key>, ghost legs: seq<Leg>)
    requires ValidCursor(Some(before)) && limit > 0 && "" !in db.rows
    ensures Readable(db, observed) ==> ok
    ensures ok ==> Walk(false, db, observed, Some(before), legs, limit) && Reversed(relays) == Concat(legs)
    ensures ok ==> relays == Sorted(true, Beyond(false, Listed(db, observed), Some(before)))
  {
    hide Sorted, Listed, Grid, Beyond, Segment, Readable, Walk, Reversed;
    relays, legs := [], [];
    var cursor := before;
    assert Reversed([]) == [];
    while true
      invariant ValidCursor(Some(cursor)) && Some(cursor) == EndOf(Some(before), legs)
      invariant Linked(false, db, observed, Some(before), legs, limit) && Reversed(relays) == Concat(legs)
      decreases |Beyond(false, Grid(db), Some(cursor))|
    {
      hide Linked, Concat;
      var listing := ListBefore(db, cursor, limit, observed);
      if !listing.Loaded? { return false, relays, legs; }
      var page := listing.page;
      ghost var leg := Leg(Reversed(page.relays), page.previous);
      LinkedAppend(false, db, observed, Some(before), legs, leg, limit);
      ReversedConcat(page.relays, relays);
      relays, legs := page.relays + relays, legs + [leg];
      LinkValid(false, db, observed, Some(cursor), leg.relays, page.previous, limit);
      if page.previous.None? {
        WalkListsEverything(false, db, observed, Some(before), legs, limit);
        ReversedTwice(relays);
        ReversedSorted(Beyond(false, Listed(db, observed), Some(before)));
        return true, relays, legs;
      }
      LegSplits(false, db, observed, Some(cursor), leg, limit);
      cursor := page.previous.value;
    }
  }

  lemma LinkValid(up: bool, db: Database, observed: int, start: Option<Key>, relays: seq<Key>, link: Option<Key>, limit: nat)
    requires Segment(up, db, observed, start, relays, link, limit)
    ensures ValidCursor(link)
  {
    hide Sorted, Listed, Grid, Beyond;
  }

  lemma ReversedConcat(a: seq<Key>, b: seq<Key>)
    ensures Reversed(a + b) == Reversed(b) + Reversed(a)
  {
  }

  // ---- totals ----

  /** The public summary counts: public identities, and those with either online signal. */
  predicate OnlineRow(r: Rows, observed: int) {
    || (r.observation.Some? && r.observation.value.actorState == Reachable
        && r.observation.value.checked.Some? && r.observation.value.success.Some?
        && r.observation.value.checked == r.observation.value.success
        && observed - REACHABILITY_FRESHNESS <= r.observation.value.success.value <= observed)
    || (r.relay.Some? && r.relay.value.lifecycle == Registered && r.relay.value.lastHeartbeat.Some?
        && observed - HEALTHY_THROUGH <= r.relay.value.lastHeartbeat.value <= observed)
  }

  function OnlineActors(db: Database, observed: int): set<string> {
    set actor | actor in Public(db) && OnlineRow(db.rows[actor], observed)
  }

  /** Private candidates still open, unless their actor is public by another way. */
  function PendingActors(db: Database): set<string> {
    set actor | actor in db.rows && db.rows[actor].candidate.Some?
                && db.rows[actor].candidate.value.state != CandidateResolved && !Eligible(db.rows[actor])
  }

  datatype Summary = Summary(known: int, online: int, offline: int, pending: int)

  function ReadSummary(db: Database, observed: int): Option<Summary> {
    if observed < 0 then None
    else
      var known, online := |Public(db)|, |OnlineActors(db, observed)|;
      Some(Summary(known, online, known - online, |PendingActors(db)|))
  }

  lemma OnlineIsTierOneOrTwo(r: Rows, observed: int)
    requires Eligible(r) && ReadDetail(r, observed).Shown?
    ensures OnlineRow(r, observed) <==> ReadDetail(r, observed).relay.tier <= 2
  {
    hide ValidEvidence;
  }

  lemma {:induction false} ImageSize(db: Database, observed: int, actors: set<string>)
    requires forall actor :: actor in actors ==> actor in db.rows && ReadDetail(db.rows[actor], observed).Shown?
    ensures |set actor | actor in actors :: Key(ReadDetail(db.rows[actor], observed).relay.tier, actor, 0)| == |actors|
    decreases actors
  {
    hide ReadDetail;
    var image := set actor | actor in actors :: Key(ReadDetail(db.rows[actor], observed).relay.tier, actor, 0);
    if actors == {} {
      assert image == {};
    } else {
      var a :| a in actors;
      var rest := actors - {a};
      ImageSize(db, observed, rest);
      var k := Key(ReadDetail(db.rows[a], observed).relay.tier, a, 0);
      var others := set actor | actor in rest :: Key(ReadDetail(db.rows[actor], observed).relay.tier, actor, 0);
      assert image == others + {k} && k !in others;
    }
  }

  lemma {:induction false} OnlineAreListed(db: Database, observed: int)
    requires Readable(db, observed)
    ensures |Public(db)| == |Listed(db, observed)|
    ensures |OnlineActors(db, observed)| == |set k | k in Listed(db, observed) && k.rank <= 2|
  {
    hide ReadDetail, Eligible, OnlineRow;
    ImageSize(db, observed, Public(db));
    assert Listed(db, observed) == set actor | actor in Public(db) :: Key(ReadDetail(db.rows[actor], observed).relay.tier, actor, 0);
    ImageSize(db, observed, OnlineActors(db, observed));
    forall actor | actor in Public(db)
      ensures OnlineRow(db.rows[actor], observed) <==> ReadDetail(db.rows[actor], observed).relay.tier <= 2
    {
      OnlineIsTierOneOrTwo(db.rows[actor], observed);
    }
    assert (set k | k in Listed(db, observed) && k.rank <= 2) ==
           set actor | actor in OnlineActors(db, observed) :: Key(ReadDetail(db.rows[actor], observed).relay.tier, actor, 0);
  }

  lemma ListedIsPublic(db: Database, observed: int)
    ensures forall k :: k in Listed(db, observed) ==> k.text in Public(db) && k.text !in PendingActors(db)
  {
    hide ReadDetail, Eligible;
  }

  /** The summary and the listing count the same relays: known is the length of the complete
      walk, online the number of its relays in the first two tiers, offline that of the last
      two, and no pending candidate is among them. */
  lemma SummaryCountsTheListing(db: Database, observed: int)
    requires Readable(db, observed) && observed >= 0
    ensures var listed := Listed(db, observed);
            && ReadSummary(db, observed) == Some(Summary(|Sorted(true, listed)|, |set k | k in listed && k.rank <= 2|,
                                                         |set k | k in listed && k.rank > 2|, |PendingActors(db)|))
            && (forall k :: k in listed ==> k.text !in PendingActors(db))
  {
    hide Listed, Public, PendingActors, OnlineActors, Sorted, Readable;
    var listed := Listed(db, observed);
    OnlineAreListed(db, observed);
    ListedIsPublic(db, observed);
    var online, offline := set k | k in listed && k.rank <= 2, set k | k in listed && k.rank > 2;
    assert listed == online + offline && online !! offline;
  }
}
