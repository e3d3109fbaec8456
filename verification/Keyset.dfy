/** Keyset positions: the total order every paged read of the store sorts by, the ordered
    enumeration of a finite set of positions in either direction, and bounded pages of it. */
module Keyset {

  datatype Option<+T> = None | Some(value: T)

  /** One position: a leading number (tier or time), a text and a last tie-breaker. */
  datatype Key = Key(rank: int, text: string, kind: int)

  /** Bytewise text order. */
  predicate TextLess(a: string, b: string) {
    |b| > 0 && (|a| == 0 || a[0] < b[0] || (a[0] == b[0] && TextLess(a[1..], b[1..])))
  }

  predicate Less(a: Key, b: Key) {
    || a.rank < b.rank
    || (a.rank == b.rank && TextLess(a.text, b.text))
    || (a.rank == b.rank && a.text == b.text && a.kind < b.kind)
  }

  /** The order of an ascending (`up`) or descending read. */
  predicate Precedes(up: bool, a: Key, b: Key) {
    if up then Less(a, b) else Less(b, a)
  }

  lemma {:induction false} TextTrichotomy(a: string, b: string)
    ensures TextLess(a, b) || a == b || TextLess(b, a)
    ensures !(TextLess(a, b) && TextLess(b, a))
    ensures !TextLess(a, a)
  {
    if |a| > 0 {
      TextTrichotomy(a[1..], a[1..]);
      if |b| > 0 && a[0] == b[0] {
        TextTrichotomy(a[1..], b[1..]);
        assert a == [a[0]] + a[1..] && b == [b[0]] + b[1..];
      }
    }
  }

  lemma {:induction false} TextTransitive(a: string, b: string, c: string)
    requires TextLess(a, b) && TextLess(b, c)
    ensures TextLess(a, c)
  {
    if |a| > 0 && a[0] == b[0] == c[0] {
      TextTransitive(a[1..], b[1..], c[1..]);
    }
  }

  lemma LessTransitive(a: Key, b: Key, c: Key)
    requires Less(a, b) && Less(b, c)
    ensures Less(a, c)
  {
    hide TextLess;
    if TextLess(a.text, b.text) && TextLess(b.text, c.text) {
      TextTransitive(a.text, b.text, c.text);
    }
  }

  lemma LessTotal(a: Key, b: Key)
    ensures Less(a, b) || a == b || Less(b, a)
    ensures !(Less(a, b) && Less(b, a)) && !Less(a, a)
  {
    hide TextLess;
    TextTrichotomy(a.text, b.text);
  }

  lemma PrecedesTransitive(up: bool, a: Key, b: Key, c: Key)
    requires Precedes(up, a, b) && Precedes(up, b, c)
    ensures Precedes(up, a, c)
  {
    hide Less;
    if up { LessTransitive(a, b, c); } else { LessTransitive(c, b, a); }
  }

  lemma PrecedesTotal(up: bool, a: Key, b: Key)
    ensures Precedes(up, a, b) || a == b || Precedes(up, b, a)
    ensures Precedes(up, a, b) ==> a != b && !Precedes(up, b, a)
  {
    hide Less;
    LessTotal(a, b);
  }

  /** Positions are totally ordered, in either direction. */
  lemma OrderLaws(up: bool)
    ensures forall a, b :: Precedes(up, a, b) || a == b || Precedes(up, b, a)
    ensures forall a, b :: Precedes(up, a, b) ==> a != b && !Precedes(up, b, a)
    ensures forall a, b, c :: Precedes(up, a, b) && Precedes(up, b, c) ==> Precedes(up, a, c)
  {
    hide Precedes;
    forall a: Key, b: Key
      ensures Precedes(up, a, b) || a == b || Precedes(up, b, a)
      ensures Precedes(up, a, b) ==> a != b && !Precedes(up, b, a)
    {
      PrecedesTotal(up, a, b);
    }
    forall a: Key, b: Key, c: Key | Precedes(up, a, b) && Precedes(up, b, c)
      ensures Precedes(up, a, c)
    {
      PrecedesTransitive(up, a, b, c);
    }
  }

  predicate Ordered(up: bool, s: seq<Key>) {
    forall i, j :: 0 <= i < j < |s| ==> Precedes(up, s[i], s[j])
  }

  function SetOf(s: seq<Key>): set<Key> {
    set x | x in s
  }

  predicate AllPrecede(up: bool, a: set<Key>, b: set<Key>) {
    forall x, y :: x in a && y in b ==> Precedes(up, x, y)
  }

  lemma ConcatOrdered(up: bool, a: seq<Key>, b: seq<Key>)
    requires Ordered(up, a) && Ordered(up, b) && AllPrecede(up, SetOf(a), SetOf(b))
    ensures Ordered(up, a + b) && SetOf(a + b) == SetOf(a) + SetOf(b)
  {
    hide Precedes;
    var c := a + b;
    forall i, j | 0 <= i < j < |c|
      ensures Precedes(up, c[i], c[j])
    {
      if i < |a| <= j { assert a[i] in SetOf(a) && b[j - |a|] in SetOf(b); }
    }
  }

  lemma {:induction false} LeastExists(up: bool, s: set<Key>)
    requires s != {}
    ensures exists m :: m in s && forall x :: x in s ==> !Precedes(up, x, m)
  {
    hide Precedes;
    OrderLaws(up);
    var y :| y in s;
    var t := s - {y};
    if t == {} {
      assert s == {y};
    } else {
      LeastExists(up, t);
      var m :| m in t && forall x :: x in t ==> !Precedes(up, x, m);
      var least := if Precedes(up, y, m) then y else m;
      assert least in s && forall x :: x in s ==> !Precedes(up, x, least);
    }
  }

  function Least(up: bool, s: set<Key>): (m: Key)
    requires s != {}
    ensures m in s && forall x :: x in s && x != m ==> Precedes(up, m, x)
  {
    OrderLaws(up);
    LeastExists(up, s);
    var m :| m in s && forall x | x in s :: !Precedes(up, x, m);
    m
  }

  /** The rows of a set in key order: what ORDER BY returns. */
  function Sorted(up: bool, s: set<Key>): (r: seq<Key>)
    ensures Ordered(up, r) && SetOf(r) == s && |r| == |s|
    decreases s
  {
    if s == {} then [] else
      var m := Least(up, s);
      var rest := Sorted(up, s - {m});
      LeastFirst(up, s, m, rest);
      [m] + rest
  }

  lemma LeastFirst(up: bool, s: set<Key>, m: Key, rest: seq<Key>)
    requires m in s && SetOf(rest) == s - {m} && Ordered(up, rest)
    requires forall x :: x in s && x != m ==> Precedes(up, m, x)
    ensures Ordered(up, [m] + rest) && SetOf([m] + rest) == s
  {
    hide Precedes;
    assert SetOf([m]) == {m};
    ConcatOrdered(up, [m], rest);
  }

  lemma {:induction false} OrderedUnique(up: bool, a: seq<Key>, b: seq<Key>)
    requires Ordered(up, a) && Ordered(up, b) && SetOf(a) == SetOf(b)
    ensures a == b
  {
    hide Precedes;
    OrderLaws(up);
    assert forall x :: x in a <==> x in SetOf(a);
    assert forall x :: x in b <==> x in SetOf(b);
    assert |b| > 0 ==> b[0] in SetOf(b);
    if |a| > 0 {
      assert a[0] in b;
      assert |b| > 0 && b[0] in a;
      assert a[0] == b[0];
      assert SetOf(a[1..]) == SetOf(b[1..]) by {
        forall x ensures x in a[1..] <==> x in b[1..] {
          assert x in a <==> x == a[0] || x in a[1..];
          assert x in b <==> x == b[0] || x in b[1..];
          assert a[0] !in a[1..] && a[0] !in b[1..];
        }
      }
      OrderedUnique(up, a[1..], b[1..]);
      assert a == [a[0]] + a[1..] && b == [b[0]] + b[1..];
    }
  }

  /** Sorting is determined by order and membership alone. */
  lemma SortedIs(up: bool, r: seq<Key>, s: set<Key>)
    requires Ordered(up, r) && SetOf(r) == s
    ensures r == Sorted(up, s)
  {
    OrderedUnique(up, r, Sorted(up, s));
  }

  /** Sorting a set cut in two is sorting the parts. */
  lemma SortedUnion(up: bool, a: set<Key>, b: set<Key>)
    requires AllPrecede(up, a, b)
    ensures Sorted(up, a + b) == Sorted(up, a) + Sorted(up, b)
  {
    hide Precedes;
    ConcatOrdered(up, Sorted(up, a), Sorted(up, b));
    SortedIs(up, Sorted(up, a) + Sorted(up, b), a + b);
  }

  function Min(a: int, b: int): int { if a < b then a else b }

  /** The first rows of a set: ORDER BY with LIMIT. */
  function First(up: bool, s: set<Key>, limit: nat): (r: seq<Key>)
    ensures |r| == Min(limit, |s|) && Ordered(up, r) && SetOf(r) <= s
  {
    var r := Sorted(up, s)[..Min(limit, |s|)];
    assert forall x :: x in r ==> x in SetOf(Sorted(up, s));
    r
  }

  /** The rows after a keyset cursor; no cursor starts before the first row. */
  function Beyond(up: bool, s: set<Key>, after: Option<Key>): set<Key> {
    set x | x in s && (after.None? || Precedes(up, after.value, x))
  }

  lemma OrderedCut(up: bool, all: seq<Key>, n: nat)
    requires Ordered(up, all) && n <= |all|
    ensures SetOf(all[n..]) == SetOf(all) - SetOf(all[..n])
    ensures AllPrecede(up, SetOf(all[..n]), SetOf(all[n..]))
  {
    hide Precedes;
    OrderLaws(up);
    var page, rest := all[..n], all[n..];
    forall x, y | x in page && y in rest
      ensures Precedes(up, x, y)
    {
      var i :| 0 <= i < n && all[i] == x;
      var j :| n <= j < |all| && all[j] == y;
    }
    assert all == page + rest;
  }

  lemma HeadTail(up: bool, s: seq<Key>, i: nat)
    requires Ordered(up, s) && i < |s|
    ensures SetOf(s[i..]) == {s[i]} + SetOf(s[i + 1..])
    ensures SetOf(s[..i + 1]) == SetOf(s[..i]) + {s[i]}
    ensures AllPrecede(up, {s[i]}, SetOf(s[i + 1..])) && s[i] !in SetOf(s[i + 1..])
  {
    hide Precedes;
    assert s[i..] == [s[i]] + s[i + 1..] && s[..i + 1] == s[..i] + [s[i]];
    forall x | x in SetOf(s[i + 1..])
      ensures Precedes(up, s[i], x) && x != s[i]
    {
      var k :| i < k < |s| && s[k] == x;
      PrecedesTotal(up, s[i], x);
    }
  }

  /** The first rows lie before the rest. */
  lemma FirstSplits(up: bool, s: set<Key>, limit: nat)
    ensures AllPrecede(up, SetOf(First(up, s, limit)), s - SetOf(First(up, s, limit)))
    ensures |s - SetOf(First(up, s, limit))| == |s| - |First(up, s, limit)|
    ensures Sorted(up, s) == First(up, s, limit) + Sorted(up, s - SetOf(First(up, s, limit)))
  {
    hide Precedes, Sorted, AllPrecede;
    var all := Sorted(up, s);
    var n := Min(limit, |s|);
    OrderedCut(up, all, n);
    assert all == all[..n] + all[n..];
    SortedIs(up, all[n..], s - SetOf(all[..n]));
  }

  /** An ordered part of a set that precedes the rest of it is its first rows. */
  lemma FirstIs(up: bool, m: seq<Key>, s: set<Key>, limit: nat)
    requires Ordered(up, m) && SetOf(m) <= s && |m| == Min(limit, |s|)
    requires AllPrecede(up, SetOf(m), s - SetOf(m))
    ensures m == First(up, s, limit)
  {
    hide Precedes, Sorted, AllPrecede;
    SortedUnion(up, SetOf(m), s - SetOf(m));
    SortedIs(up, m, SetOf(m));
    assert SetOf(m) + (s - SetOf(m)) == s;
  }

  /** Bounding two sources separately and merging loses no row of the bounded union. */
  lemma MergeLimit(up: bool, a: set<Key>, b: set<Key>, limit: nat)
    ensures First(up, SetOf(First(up, a, limit)) + SetOf(First(up, b, limit)), limit) == First(up, a + b, limit)
  {
    hide Precedes, Ordered, First, Sorted;
    var fa, fb := SetOf(First(up, a, limit)), SetOf(First(up, b, limit));
    var m := First(up, fa + fb, limit);
    MergedSize(up, a, b, limit);
    SourceRowsBelow(up, a, fa + fb, limit);
    SourceRowsBelow(up, b, fa + fb, limit);
    FirstIs(up, m, a + b, limit);
  }

  lemma MergedSize(up: bool, a: set<Key>, b: set<Key>, limit: nat)
    ensures Min(limit, |SetOf(First(up, a, limit)) + SetOf(First(up, b, limit))|) == Min(limit, |a + b|)
  {
    hide Precedes, Ordered;
    var fa, fb := SetOf(First(up, a, limit)), SetOf(First(up, b, limit));
    OrderedSize(up, First(up, a, limit));
    OrderedSize(up, First(up, b, limit));
    if |a| <= limit && |b| <= limit {
      FullFirst(up, a, limit);
      FullFirst(up, b, limit);
    } else {
      SubsetSize(fa, fa + fb);
      SubsetSize(fb, fa + fb);
      SubsetSize(fa + fb, a + b);
    }
  }

  lemma FullFirst(up: bool, s: set<Key>, limit: nat)
    requires |s| <= limit
    ensures First(up, s, limit) == Sorted(up, s) && SetOf(First(up, s, limit)) == s
  {
    assert Sorted(up, s)[..|s|] == Sorted(up, s);
  }

  lemma {:induction false} SubsetSize<T>(a: set<T>, b: set<T>)
    requires a <= b
    ensures |a| <= |b|
  {
    assert b == a + (b - a);
  }

  lemma OrderedSize(up: bool, r: seq<Key>)
    requires Ordered(up, r)
    ensures |SetOf(r)| == |r|
  {
    SortedIs(up, r, SetOf(r));
  }

  /** A row its own source cut off lies after the whole merged page. */
  lemma SourceRowsBelow(up: bool, a: set<Key>, merged: set<Key>, limit: nat)
    requires SetOf(First(up, a, limit)) <= merged
    ensures AllPrecede(up, SetOf(First(up, merged, limit)), a - SetOf(First(up, merged, limit)))
  {
    hide Precedes, Ordered, First, Sorted;
    var fa := SetOf(First(up, a, limit));
    var m := SetOf(First(up, merged, limit));
    FirstSplits(up, a, limit);
    FirstSplits(up, merged, limit);
    OrderedSize(up, First(up, a, limit));
    OrderedSize(up, First(up, merged, limit));
    forall y, x | y in m && x in a - m
      ensures Precedes(up, y, x)
    {
      if x !in fa {
        assert x in a - fa && |a - fa| > 0;
        PrecedesTotal(up, x, y);
        if Precedes(up, x, y) {
          forall f | f in fa
            ensures f in m - {y}
          {
            PrecedesTransitive(up, f, x, y);
            PrecedesTotal(up, f, y);
            assert f !in m ==> f in merged - m && Precedes(up, y, f);
          }
          SubsetSize(fa, m - {y});
          assert false;
        }
      }
    }
  }

  lemma BeyondLast(up: bool, left: set<Key>, page: seq<Key>)
    requires page != [] && Ordered(up, page) && SetOf(page) <= left
    requires AllPrecede(up, SetOf(page), left - SetOf(page))
    ensures Beyond(up, left, Some(page[|page| - 1])) == left - SetOf(page)
  {
    hide Precedes;
    OrderLaws(up);
    var last := page[|page| - 1];
    assert last in SetOf(page);
    forall x | x in left
      ensures Precedes(up, last, x) <==> x !in SetOf(page)
    {
      if x in SetOf(page) {
        var i :| 0 <= i < |page| && page[i] == x;
        assert i < |page| - 1 ==> Precedes(up, page[i], last);
      }
    }
  }

  lemma OrderedTail(up: bool, s: seq<Key>)
    requires Ordered(up, s) && s != []
    ensures Ordered(up, s[1..])
  {
  }

  /** The first row of a nonempty set precedes the rest, which it cuts off by itself. */
  lemma FirstTail(up: bool, s: set<Key>, limit: nat)
    requires limit > 0 && s != {}
    ensures First(up, s, limit) != []
    ensures var k := First(up, s, limit)[0];
            && k in s && AllPrecede(up, {k}, s - {k})
            && First(up, s - {k}, limit - 1) == First(up, s, limit)[1..]
  {
    hide Precedes, First, Sorted, Ordered, AllPrecede, SetOf;
    var page := First(up, s, limit);
    FirstSplits(up, s, limit);
    TailOfPage(up, s, page);
    FirstIs(up, page[1..], s - {page[0]}, limit - 1);
  }

  lemma TailOfPage(up: bool, s: set<Key>, page: seq<Key>)
    requires page != [] && Ordered(up, page) && SetOf(page) <= s && AllPrecede(up, SetOf(page), s - SetOf(page))
    ensures var k, tail := page[0], page[1..];
            && k in s && |s - {k}| == |s| - 1 && Ordered(up, tail) && SetOf(tail) <= s - {k}
            && AllPrecede(up, {k}, s - {k}) && AllPrecede(up, SetOf(tail), (s - {k}) - SetOf(tail))
  {
    hide Precedes, Ordered;
    HeadTail(up, page, 0);
    assert page[0..] == page;
    OrderedTail(up, page);
    assert page[0] in SetOf(page);
  }

  lemma OrderedOne(up: bool, k: Key)
    ensures Ordered(up, [k]) && SetOf([k]) == {k} && Sorted(up, {k}) == [k]
  {
    hide Precedes, Sorted;
    assert SetOf([k]) == {k};
    SortedIs(up, [k], {k});
  }

  lemma SortedPush(up: bool, a: set<Key>, k: Key)
    requires AllPrecede(up, a, {k})
    ensures Sorted(up, a + {k}) == Sorted(up, a) + [k]
  {
    hide Precedes, Sorted;
    SortedUnion(up, a, {k});
    OrderedOne(up, k);
  }

  /** The position a page leads on to: its last row. */
  function CursorOf(keys: seq<Key>): Option<Key> {
    if keys == [] then None else Some(keys[|keys| - 1])
  }

  /** Rows that each follow the one before are in order. */
  lemma {:induction false} StepsOrder(keys: seq<Key>)
    requires forall i :: 0 < i < |keys| ==> Less(keys[i - 1], keys[i])
    ensures Ordered(true, keys)
  {
    hide Less;
    if |keys| > 1 {
      var n := |keys| - 1;
      StepsOrder(keys[..n]);
      forall i | 0 <= i < n
        ensures Precedes(true, keys[i], keys[n])
      {
        if i < n - 1 {
          assert Precedes(true, keys[..n][i], keys[..n][n - 1]);
          PrecedesTransitive(true, keys[i], keys[n - 1], keys[n]);
        }
      }
      assert forall i, j :: 0 <= i < j < n ==> Precedes(true, keys[..n][i], keys[..n][j]);
    }
  }

  /** A page is what is read for it, less the row that shows there are more. */
  lemma FirstOfMore(s: set<Key>, limit: nat)
    requires limit > 0
    ensures var rows, page := First(true, s, limit + 1), First(true, s, limit);
            && page == rows[..Min(limit, |rows|)] && page == First(true, s, |page|)
            && (|rows| > limit <==> |s| > limit) && (|rows| > limit ==> CursorOf(page) == Some(rows[limit - 1]))
  {
    hide Sorted, Ordered;
  }

  /** The i-th row follows the one before it, or the page before. */
  predicate StepsOn(keys: seq<Key>, previous: Option<Key>, i: nat)
    requires i < |keys|
  {
    var before := if i == 0 then previous else Some(keys[i - 1]);
    before.None? || Less(before.value, keys[i])
  }

  /** Rows that step on from an ordered part keep it ordered. */
  lemma {:induction false} StepsExtend(part: seq<Key>, keys: seq<Key>)
    requires Ordered(true, part) && forall i :: 0 <= i < |keys| ==> StepsOn(keys, CursorOf(part), i)
    ensures Ordered(true, part + keys)
    ensures keys != [] ==> CursorOf(part + keys) == CursorOf(keys)
  {
    hide Less;
    var all := part + keys;
    forall i | 0 < i < |all|
      ensures Less(all[i - 1], all[i])
    {
      if i < |part| {
        assert Precedes(true, part[i - 1], part[i]);
      } else {
        assert StepsOn(keys, CursorOf(part), i - |part|);
      }
    }
    StepsOrder(all);
  }

  /** Rows of an ordered read beyond a cursor step on from it. */
  lemma {:induction false} BeyondSteps(s: set<Key>, after: Option<Key>, keys: seq<Key>)
    requires Ordered(true, keys) && SetOf(keys) <= Beyond(true, s, after)
    ensures forall i :: 0 <= i < |keys| ==> StepsOn(keys, after, i)
  {
    hide Less;
    forall i | 0 <= i < |keys|
      ensures StepsOn(keys, after, i)
    {
      assert keys[i] in SetOf(keys);
      assert i > 0 ==> Precedes(true, keys[i - 1], keys[i]);
    }
  }

  /** An ordered first part of a set of positions. */
  predicate FirstPart(all: set<Key>, part: seq<Key>) {
    hide Precedes;
    Ordered(true, part) && SetOf(part) <= all && AllPrecede(true, SetOf(part), all - SetOf(part))
  }

  /** A first part continued by a first part of the rest. */
  lemma PartExtends(all: set<Key>, a: seq<Key>, b: seq<Key>)
    requires FirstPart(all, a) && FirstPart(all - SetOf(a), b)
    ensures FirstPart(all, a + b) && SetOf(a + b) == SetOf(a) + SetOf(b)
    ensures all - SetOf(a + b) == all - SetOf(a) - SetOf(b)
  {
    hide Precedes, Ordered;
    ConcatOrdered(true, a, b);
  }

  lemma OnePart(all: set<Key>, k: Key)
    requires k in all && AllPrecede(true, {k}, all - {k})
    ensures FirstPart(all, [k]) && SetOf([k]) == {k}
  {
    hide Precedes;
    OrderedOne(true, k);
  }

  lemma PartWithin(all: set<Key>, part: seq<Key>)
    requires FirstPart(all, part)
    ensures SetOf(part) <= all
  {
  }

  lemma PartCursor(all: set<Key>, part: seq<Key>)
    requires FirstPart(all, part)
    ensures Beyond(true, all, CursorOf(part)) == all - SetOf(part)
  {
    hide Precedes;
    if part != [] { BeyondLast(true, all, part); }
  }

  /** A first part as long as a bound allows is the bounded read. */
  lemma PartIsFirst(all: set<Key>, part: seq<Key>, limit: nat)
    requires FirstPart(all, part) && |part| <= limit && (|part| == limit || |part| == |all| || all - SetOf(part) == {})
    ensures part == First(true, all, limit)
  {
    hide Precedes, First, Sorted, Ordered;
    OrderedSize(true, part);
    SubsetSize(SetOf(part), all);
    assert all == SetOf(part) + (all - SetOf(part));
    FirstIs(true, part, all, limit);
  }

  lemma BeyondUnion(up: bool, a: set<Key>, b: set<Key>, after: Option<Key>)
    ensures Beyond(up, a + b, after) == Beyond(up, a, after) + Beyond(up, b, after)
  {
    hide Precedes;
  }
}
