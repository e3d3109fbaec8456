/** The HTTP layer's consistency checks of directory pages, which accept every page the
    repository returns. */
module Consumers {
  import opened Keyset
  import opened Evidence
  import opened Store
  import opened Details
  import opened Projection
  import opened Pages

  // ---- the HTTP layer ----

  predicate PresentableRow(db: Database, observed: int, k: Key) {
    && k.text in db.rows
    && var detail := ReadDetail(db.rows[k.text], observed);
       detail.Shown? && ValidRelay(detail.relay, observed) && detail.relay.tier == k.rank
  }

  predicate RowAccepted(db: Database, observed: int, after: Option<Key>, before: Option<Key>, previous: Option<Key>, k: Key) {
    && PresentableRow(db, observed, k)
    && (previous.Some? ==> Less(previous.value, k))
    && (after.Some? ==> Less(after.value, k))
    && (before.Some? ==> Less(k, before.value))
  }

  predicate LinksAccepted(after: Option<Key>, before: Option<Key>, page: Page) {
    && (page.previous.Some? ==>
          && ValidCursor(page.previous) && (after.Some? || before.Some?)
          && (after.Some? ==> !Less(page.previous.value, after.value))
          && (before.Some? ==> Less(page.previous.value, before.value))
          && (page.relays != [] ==> !Less(page.relays[0], page.previous.value)))
    && (page.next.Some? ==>
          && ValidCursor(page.next)
          && (after.Some? ==> Less(after.value, page.next.value))
          && (before.Some? ==> Less(page.next.value, before.value))
          && (page.relays != [] ==> !Less(page.next.value, page.relays[|page.relays| - 1]))
          && (page.previous.Some? ==> !Less(page.next.value, page.previous.value)))
  }

  function RowBefore(relays: seq<Key>, i: nat): Option<Key>
    requires i < |relays|
  {
    if i == 0 then None else Some(relays[i - 1])
  }

  predicate RowsAccepted(db: Database, observed: int, after: Option<Key>, before: Option<Key>, relays: seq<Key>, n: nat)
    requires n <= |relays|
  {
    forall i :: 0 <= i < n ==> RowAccepted(db, observed, after, before, RowBefore(relays, i), relays[i])
  }

  predicate PageAccepted(db: Database, observed: int, after: Option<Key>, before: Option<Key>, limit: nat, page: Page) {
    && |page.relays| <= limit && LinksAccepted(after, before, page)
    && RowsAccepted(db, observed, after, before, page.relays, |page.relays|)
  }

  /** The presentation loop with its running previous position. */
  method CheckPage(db: Database, observed: int, after: Option<Key>, before: Option<Key>, limit: nat, page: Page)
    returns (accepted: bool)
    ensures accepted <==> PageAccepted(db, observed, after, before, limit, page)
  {
    hide RowAccepted, LinksAccepted;
    if |page.relays| > limit { return false; }
    var previous: Option<Key> := None;
    for i := 0 to |page.relays|
      invariant i < |page.relays| ==> previous == RowBefore(page.relays, i)
      invariant RowsAccepted(db, observed, after, before, page.relays, i)
    {
      var current := page.relays[i];
      if !RowAccepted(db, observed, after, before, previous, current) { return false; }
      previous := Some(current);
    }
    accepted := LinksAccepted(after, before, page);
  }

  lemma ListedPresentable(db: Database, observed: int, k: Key)
    requires k in Listed(db, observed)
    ensures PresentableRow(db, observed, k)
  {
    hide Eligible, ValidEvidence;
  }

  /** Rows of a forward page lie in order between the cursor and the link. */
  lemma SegmentRows(up: bool, db: Database, observed: int, start: Option<Key>, relays: seq<Key>, link: Option<Key>,
                    limit: nat, i: nat)
    requires Segment(up, db, observed, start, relays, link, limit) && i < |relays|
    ensures relays[i] in Listed(db, observed)
    ensures start.Some? ==> Precedes(up, start.value, relays[i])
    ensures link.Some? ==> !Precedes(up, link.value, relays[i])
    ensures i > 0 ==> Precedes(up, relays[i - 1], relays[i])
  {
    hide Precedes, Listed, Grid, Sorted;
    assert relays[i] in SetOf(relays);
  }

  lemma ListedCursor(db: Database, observed: int, k: Key)
    requires k in Listed(db, observed) && "" !in db.rows
    ensures ValidCursor(Some(k))
  {
    hide Eligible, ReadDetail;
    ListedInGrid(db, observed);
  }

  lemma ForwardLinksAccepted(db: Database, observed: int, after: Option<Key>, limit: nat, page: Page)
    requires Segment(true, db, observed, after, page.relays, page.next, limit) && "" !in db.rows
    requires page.previous == ForwardPrevious(after, page.relays) && ValidCursor(after)
    ensures LinksAccepted(after, None, page)
  {
    hide Less, Listed, Sorted, Grid, Ordered;
    var n := |page.relays|;
    if n > 0 {
      SegmentRows(true, db, observed, after, page.relays, page.next, limit, 0);
      SegmentRows(true, db, observed, after, page.relays, page.next, limit, n - 1);
      ListedCursor(db, observed, page.relays[0]);
      LessTotal(page.relays[0], page.relays[0]);
      if after.Some? { LessTotal(after.value, page.relays[0]); }
    } else if after.Some? {
      LessTotal(after.value, after.value);
      if page.next.Some? { LessTotal(after.value, page.next.value); }
    }
  }

  /** No forward page the repository returns is rejected. */
  lemma {:induction false} ForwardPageAccepted(db: Database, observed: int, after: Option<Key>, limit: nat, page: Page)
    requires Segment(true, db, observed, after, page.relays, page.next, limit) && "" !in db.rows
    requires page.previous == ForwardPrevious(after, page.relays) && ValidCursor(after)
    ensures PageAccepted(db, observed, after, None, limit, page)
  {
    hide Less, Listed, Sorted, PresentableRow, Grid, LinksAccepted;
    ForwardLinksAccepted(db, observed, after, limit, page);
    forall i | 0 <= i < |page.relays|
      ensures RowAccepted(db, observed, after, None, RowBefore(page.relays, i), page.relays[i])
    {
      SegmentRows(true, db, observed, after, page.relays, page.next, limit, i);
      ListedPresentable(db, observed, page.relays[i]);
    }
  }

  lemma ReverseLinksAccepted(db: Database, observed: int, before: Key, limit: nat, page: Page)
    requires ReversePage(db, observed, before, page, limit) && "" !in db.rows && ValidCursor(Some(before))
    ensures LinksAccepted(None, Some(before), page)
  {
    hide Less, Listed, Sorted, Ordered;
    var down, n := Reversed(page.relays), |page.relays|;
    if n > 0 {
      SegmentRows(false, db, observed, Some(before), down, page.previous, limit, 0);
      SegmentRows(false, db, observed, Some(before), down, page.previous, limit, n - 1);
      assert down[0] == page.relays[n - 1] && down[n - 1] == page.relays[0];
      ListedCursor(db, observed, page.relays[n - 1]);
      LessTotal(page.relays[n - 1], page.relays[n - 1]);
    } else if page.previous.Some? {
      LessTotal(page.previous.value, page.previous.value);
    }
  }

  /** No reverse page the repository returns is rejected. */
  lemma {:induction false} ReversePageAccepted(db: Database, observed: int, before: Key, limit: nat, page: Page)
    requires ReversePage(db, observed, before, page, limit) && "" !in db.rows && ValidCursor(Some(before))
    ensures PageAccepted(db, observed, None, Some(before), limit, page)
  {
    hide Less, Listed, Sorted, PresentableRow, Grid, LinksAccepted;
    ReverseLinksAccepted(db, observed, before, limit, page);
    var down, n := Reversed(page.relays), |page.relays|;
    forall i | 0 <= i < n
      ensures RowAccepted(db, observed, None, Some(before), RowBefore(page.relays, i), page.relays[i])
    {
      SegmentRows(false, db, observed, Some(before), down, page.previous, limit, n - 1 - i);
      if i > 0 { SegmentRows(false, db, observed, Some(before), down, page.previous, limit, n - i); }
      ListedPresentable(db, observed, page.relays[i]);
    }
  }
}
