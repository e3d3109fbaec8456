/** A reachable directory whose reverse page is empty and yet has both links: relays registered
    once and silent for sixty days stand in the last tier, so a cursor at the top of that tier has
    no relay below it and three times as many scan positions as relays. */
module EmptyPages {
  import opened Keyset
  import opened Store
  import opened Details
  import opened Projection
  import opened Pages
  import ActorPath

  const SIXTY_DAYS := 60 * 86400
  const ORIGIN := "https://relay.example"
  const CURSOR := ORIGIN + "/a"
  const TOP_OF_LAST_TIER := Key(4, CURSOR, 0)

  function Path(n: nat): (path: string)
    ensures |path| == n + 1
  {
    "/" + seq(n, _ => 'b')
  }

  function Name(n: nat): (name: string)
    ensures |name| == |ORIGIN| + n + 1
  {
    ORIGIN + Path(n)
  }

  function Names(n: nat): set<string> {
    set i | 1 <= i <= n :: Name(i)
  }

  function Registrations(n: nat): seq<Command> {
    seq(n, i requires 0 <= i < n => Command(Name(i + 1), OpRegister(true, 0)))
  }

  function Silent(n: nat): Database { ExecuteAll(FRESH_DATABASE, Registrations(n)) }

  lemma {:induction false} NamesSize(n: nat)
    ensures |Names(n)| == n
  {
    if n == 0 {
      assert Names(0) == {};
    } else {
      NamesSize(n - 1);
      assert Names(n) == Names(n - 1) + {Name(n)};
      assert Name(n) !in Names(n - 1);
    }
  }

  predicate SilentRow(r: Rows) {
    && r.relay == Some(RelayRow(Registered, false, 0, 0, 0, Some(0), None, None, None))
    && r.discovery.None? && r.diagnostic.None?
    && r.observation == Some(EMPTY_OBSERVATION.(verified := Some(0), revision := 2))
  }

  lemma SilentStep(id: nat)
    ensures var reply := Register(EMPTY, id, true, 0); Committed(reply.outcome) && SilentRow(reply.rows)
  {
  }

  lemma SilentNext(n: nat)
    requires n > 0 && Name(n) !in Silent(n - 1).rows
    ensures Silent(n) == Commit(Silent(n - 1), Name(n), Register(EMPTY, Silent(n - 1).lastId + 1, true, 0).rows)
  {
    hide Register;
    assert Registrations(n)[..n - 1] == Registrations(n - 1);
    assert Registrations(n)[n - 1] == Command(Name(n), OpRegister(true, 0));
    SilentStep(Silent(n - 1).lastId + 1);
  }

  lemma {:induction false} SilentRows(n: nat)
    ensures Silent(n).rows.Keys == Names(n)
    ensures forall actor :: actor in Silent(n).rows ==> SilentRow(Silent(n).rows[actor])
  {
    hide SilentRow, Register, Silent;
    if n == 0 {
      NobodySilent();
    } else {
      SilentRows(n - 1);
      assert Name(n) !in Names(n - 1);
      SilentNext(n);
      SilentStep(Silent(n - 1).lastId + 1);
      assert Names(n) == Names(n - 1) + {Name(n)};
    }
  }

  lemma NobodySilent()
    ensures Silent(0).rows == map[] && Names(0) == {}
  {
    assert Registrations(0) == [];
  }

  lemma SilentTier(r: Rows)
    requires SilentRow(r)
    ensures Eligible(r) && ReadDetail(r, SIXTY_DAYS).Shown? && ReadDetail(r, SIXTY_DAYS).relay.tier == 4
  {
  }

  lemma PositionsBelow(names: set<string>)
    requires forall actor :: actor in names ==> !TextLess(actor, CURSOR)
    ensures var grid := TierKeys(names, 1) + TierKeys(names, 2) + TierKeys(names, 3) + TierKeys(names, 4);
            Beyond(false, grid, Some(TOP_OF_LAST_TIER)) == TierKeys(names, 1) + TierKeys(names, 2) + TierKeys(names, 3)
    ensures |TierKeys(names, 1) + TierKeys(names, 2) + TierKeys(names, 3)| == 3 * |names|
  {
    hide TextLess;
    TierKeysSize(names, 1);
    TierKeysSize(names, 2);
    TierKeysSize(names, 3);
    assert TierKeys(names, 1) !! TierKeys(names, 2);
    assert TierKeys(names, 1) + TierKeys(names, 2) !! TierKeys(names, 3);
  }

  lemma RelaysBelow(db: Database)
    requires forall actor :: actor in Public(db) ==>
               !TextLess(actor, CURSOR) && (ReadDetail(db.rows[actor], SIXTY_DAYS).Shown? ==> ReadDetail(db.rows[actor], SIXTY_DAYS).relay.tier == 4)
    ensures Beyond(false, Listed(db, SIXTY_DAYS), Some(TOP_OF_LAST_TIER)) == {}
  {
    hide TextLess, ReadDetail, Eligible;
  }

  lemma {:induction false} NothingBelow(n: nat)
    ensures Readable(Silent(n), SIXTY_DAYS)
    ensures Beyond(false, Listed(Silent(n), SIXTY_DAYS), Some(TOP_OF_LAST_TIER)) == {}
    ensures |Beyond(false, Grid(Silent(n)), Some(TOP_OF_LAST_TIER))| == 3 * n
  {
    hide ReadDetail, SilentRow, Eligible, TextLess, Silent, Listed, TierKeys, Beyond, Names;
    var db := Silent(n);
    SilentRows(n);
    NamesSize(n);
    forall actor | actor in db.rows
      ensures Eligible(db.rows[actor]) && ReadDetail(db.rows[actor], SIXTY_DAYS).Shown?
      ensures ReadDetail(db.rows[actor], SIXTY_DAYS).relay.tier == 4 && !TextLess(actor, CURSOR) && actor != ""
    {
      SilentTier(db.rows[actor]);
      NotBelow(n, actor);
    }
    assert Public(db) == Names(n);
    RelaysBelow(db);
    PositionsBelow(Names(n));
  }

  lemma NotBelow(n: nat, actor: string)
    requires actor in Names(n)
    ensures !TextLess(actor, CURSOR) && actor != ""
  {
    var i :| 1 <= i <= n && actor == Name(i);
    SamePrefix(ORIGIN, Path(i), "/a");
    assert Path(i)[1..][0] == 'b' && "/a"[1..][0] == 'a';
  }

  lemma {:induction false} SamePrefix(prefix: string, a: string, b: string)
    ensures TextLess(prefix + a, prefix + b) == TextLess(a, b)
  {
    if prefix == "" {
      assert prefix + a == a && prefix + b == b;
    } else {
      SamePrefix(prefix[1..], a, b);
      assert (prefix + a)[1..] == prefix[1..] + a && (prefix + b)[1..] == prefix[1..] + b;
    }
  }

  // ---- the names are canonical ----

  function Ascii(s: string): (text: ActorPath.Bytes)
    requires forall i :: 0 <= i < |s| ==> s[i] < 128 as char
    ensures |text| == |s|
  {
    seq(|s|, i requires 0 <= i < |s| => s[i] as int)
  }

  /** The cursor's path and every relay's path are their own normal form. */
  lemma {:induction false} NamesAreCanonical(n: nat)
    ensures ActorPath.Normalize(Ascii(Path(n))) == Some(Ascii(Path(n)))
    ensures ActorPath.Normalize(Ascii("/a")) == Some(Ascii("/a"))
  {
    ActorPath.LettersNormal(Ascii(Path(n)));
    ActorPath.LettersNormal(Ascii("/a"));
  }

  /** With 134 such relays every reverse page there is empty and links both ways. */
  lemma {:induction false} EmptyPageLinks(page: Page, limit: nat)
    requires ReversePage(Silent(134), SIXTY_DAYS, TOP_OF_LAST_TIER, page, limit)
    ensures page.relays == [] && page.previous.Some? && page.previous == page.next
  {
    hide Silent, Grid, Listed, Beyond, Sorted;
    NothingBelow(134);
    var below := Beyond(false, Listed(Silent(134), SIXTY_DAYS), Some(TOP_OF_LAST_TIER));
    assert below - (if page.previous.Some? then Beyond(false, Listed(Silent(134), SIXTY_DAYS), page.previous) else {}) == {};
    assert |page.relays| == 0;
  }
}
