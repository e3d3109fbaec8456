/** Spreadsheet exchange of profile lists: escaping, formula protection and normalization.
    Text is code points of valid UTF-8. */
module ProfileCsv {
  import opened Keyset

  const MAXIMUM_LIST_ITEMS := 16
  const MAXIMUM_ITEM_BYTES := 128

  // ---- text ----

  /** Unicode white space, as trimming understands it. */
  predicate Space(c: char) {
    || '\U{9}' <= c <= '\U{D}' || c == ' ' || c == '\U{85}' || c == '\U{A0}' || c == '\U{1680}'
    || '\U{2000}' <= c <= '\U{200A}' || c == '\U{2028}' || c == '\U{2029}' || c == '\U{202F}' || c == '\U{205F}' || c == '\U{3000}'
  }

  function TrimLeft(s: string): string {
    if s != "" && Space(s[0]) then TrimLeft(s[1..]) else s
  }

  function TrimRight(s: string): string {
    if s != "" && Space(s[|s| - 1]) then TrimRight(s[..|s| - 1]) else s
  }

  function Trim(s: string): string { TrimRight(TrimLeft(s)) }

  function Utf8Size(c: char): nat {
    if c < '\U{80}' then 1 else if c < '\U{800}' then 2 else if c < '\U{10000}' then 3 else 4
  }

  function Utf8Length(s: string): nat {
    if s == "" then 0 else Utf8Size(s[0]) + Utf8Length(s[1..])
  }

  predicate ContainsControl(s: string) {
    exists i :: 0 <= i < |s| && (s[i] < ' ' || s[i] == '\U{7F}')
  }

  // ---- list normalization ----

  /** The trimmed item, refused when empty, too long or with a control character. */
  function NormalizeItem(value: string): Option<string> {
    var text := Trim(value);
    if text == "" || Utf8Length(text) > MAXIMUM_ITEM_BYTES || ContainsControl(text) then None else Some(text)
  }

  function KeysOf(texts: set<string>): set<Key> { set text | text in texts :: Key(0, text, 0) }

  function TextsOf(keys: seq<Key>): seq<string> { seq(|keys|, i requires 0 <= i < |keys| => keys[i].text) }

  predicate AllNormalize(values: seq<string>) {
    forall i :: 0 <= i < |values| ==> NormalizeItem(values[i]).Some?
  }

  function UniqueItems(values: seq<string>): set<string> {
    set value | value in values && NormalizeItem(value).Some? :: NormalizeItem(value).value
  }

  /** The distinct trimmed items in bytewise order. */
  function NormalizeList(values: seq<string>): Option<seq<string>> {
    if |values| > MAXIMUM_LIST_ITEMS || !AllNormalize(values) then None
    else Some(TextsOf(Sorted(true, KeysOf(UniqueItems(values)))))
  }

  /** Lists that are already in normal form. */
  predicate Normalized(xs: seq<string>) {
    && |xs| <= MAXIMUM_LIST_ITEMS
    && (forall i :: 0 <= i < |xs| ==> NormalizeItem(xs[i]) == Some(xs[i]))
    && (forall i, j :: 0 <= i < j < |xs| ==> TextLess(xs[i], xs[j]))
  }

  method NormalizeProfileList(values: seq<string>) returns (r: Option<seq<string>>)
    ensures r == NormalizeList(values)
  {
    hide NormalizeItem, Sorted;
    if |values| == 0 {
      NothingNormalizes();
      return Some([]);
    }
    if |values| > MAXIMUM_LIST_ITEMS { return None; }
    var unique: set<string> := {};
    var i := 0;
    while i < |values|
      invariant 0 <= i <= |values|
      invariant AllNormalize(values[..i]) && unique == UniqueItems(values[..i])
    {
      var normalized := NormalizeItem(values[i]);
      if normalized.None? { return None; }
      UniquePush(values[..i], values[i]);
      assert values[..i] + [values[i]] == values[..i + 1];
      unique := unique + {normalized.value};
      i := i + 1;
    }
    assert values[..i] == values;
    r := Some(TextsOf(Sorted(true, KeysOf(unique))));
  }

  lemma NothingNormalizes()
    ensures NormalizeList([]) == Some([])
  {
    hide NormalizeItem;
    assert UniqueItems([]) == {} && KeysOf({}) == {};
    assert Sorted(true, {}) == [];
    assert TextsOf([]) == [];
  }

  lemma UniquePush(values: seq<string>, value: string)
    requires AllNormalize(values) && NormalizeItem(value).Some?
    ensures AllNormalize(values + [value])
    ensures UniqueItems(values + [value]) == UniqueItems(values) + {NormalizeItem(value).value}
  {
    hide NormalizeItem;
  }

  // ---- lists in one cell ----

  function ReplaceAll(s: string, c: char, with: string): string {
    if s == "" then "" else (if s[0] == c then with else [s[0]]) + ReplaceAll(s[1..], c, with)
  }

  function EncodeItem(value: string): string {
    ReplaceAll(ReplaceAll(value, '\\', "\\\\"), ';', "\\;")
  }

  function Join(parts: seq<string>): string {
    if parts == [] then "" else if |parts| == 1 then parts[0] else parts[0] + ";" + Join(parts[1..])
  }

  function EncodedItems(values: seq<string>): seq<string> {
    seq(|values|, i requires 0 <= i < |values| => EncodeItem(values[i]))
  }

  function EncodeList(values: seq<string>): string { Join(EncodedItems(values)) }

  function Before(item: string, rest: Option<seq<string>>): Option<seq<string>> {
    if Trim(item) == "" || rest.None? then None else Some([Trim(item)] + rest.value)
  }

  /** The items of the rest of a cell, given the item begun and whether a backslash is pending. */
  function Items(value: string, item: string, escaped: bool): Option<seq<string>>
    decreases |value|
  {
    if value == "" then if escaped then None else Before(item, Some([]))
    else
      var c, rest := value[0], value[1..];
      if escaped then if c != ';' && c != '\\' then None else Items(rest, item + [c], false)
      else if c == '\\' then Items(rest, item, true)
      else if c == ';' then Before(item, Items(rest, "", false))
      else Items(rest, item + [c], false)
  }

  function DecodeList(value: string): Option<seq<string>> {
    if value == "" then Some([])
    else
      var items := Items(value, "", false);
      if items.None? then None else NormalizeList(items.value)
  }

  function After(parts: seq<string>, rest: Option<seq<string>>): Option<seq<string>> {
    if rest.None? then None else Some(parts + rest.value)
  }

  method DecodeCellList(value: string) returns (r: Option<seq<string>>)
    ensures r == DecodeList(value)
  {
    hide Trim, NormalizeList;
    if value == "" { return Some([]); }
    var parts: seq<string> := [];
    var item := "";
    var escaped := false;
    var index := 0;
    assert value[0..] == value;
    AfterNone(Items(value, "", false));
    while index < |value|
      invariant 0 <= index <= |value|
      invariant Items(value, "", false) == After(parts, Items(value[index..], item, escaped))
    {
      var character := value[index];
      assert value[index..][0] == character && value[index..][1..] == value[index + 1..];
      if escaped {
        if character != ';' && character != '\\' { return None; }
        item := item + [character];
        escaped := false;
      } else {
        match character {
          case '\\' => escaped := true;
          case ';' =>
            var normalized := Trim(item);
            if normalized == "" { return None; }
            AfterBefore(parts, item, Items(value[index + 1..], "", false));
            parts := parts + [normalized];
            item := "";
          case _ => item := item + [character];
        }
      }
      index := index + 1;
    }
    assert value[index..] == "";
    if escaped { return None; }
    var normalized := Trim(item);
    if normalized == "" { return None; }
    AfterBefore(parts, item, Some([]));
    parts := parts + [normalized];
    assert parts + [] == parts;
    r := NormalizeProfileList(parts);
  }

  lemma AfterNone(rest: Option<seq<string>>)
    ensures After([], rest) == rest
  {
    if rest.Some? { assert [] + rest.value == rest.value; }
  }

  lemma AfterBefore(parts: seq<string>, item: string, rest: Option<seq<string>>)
    requires Trim(item) != ""
    ensures After(parts, Before(item, rest)) == After(parts + [Trim(item)], rest)
  {
    hide Trim;
    if rest.Some? { assert parts + ([Trim(item)] + rest.value) == parts + [Trim(item)] + rest.value; }
  }

  // ---- formula protection ----

  predicate FormulaTrigger(c: char) { c == '=' || c == '+' || c == '-' || c == '@' }

  function ProtectCell(value: string): string {
    if value != "" && (value[0] == '\'' || FormulaTrigger(value[0])) then "'" + value else value
  }

  function UnprotectCell(value: string): string {
    if |value| >= 2 && value[0] == '\'' && (value[1] == '\'' || FormulaTrigger(value[1])) then value[1..] else value
  }

  /** No exported cell looks like a formula, and import restores every value. */
  lemma {:induction false} ProtectionRoundTrip(value: string)
    ensures UnprotectCell(ProtectCell(value)) == value
    ensures ProtectCell(value) != "" ==> !FormulaTrigger(ProtectCell(value)[0])
  {
    assert ("'" + value)[1..] == value;
  }

  // ---- round trips ----

  lemma {:induction false} TrimFixed(s: string)
    ensures Trim(s) == s <==> s == "" || (!Space(s[0]) && !Space(s[|s| - 1]))
  {
    LeftBounds(s);
    RightBounds(TrimLeft(s));
  }

  lemma {:induction false} LeftBounds(s: string)
    ensures |TrimLeft(s)| <= |s| && (|TrimLeft(s)| == |s| ==> TrimLeft(s) == s)
    ensures s != "" && Space(s[0]) ==> |TrimLeft(s)| < |s|
    ensures TrimLeft(s) != "" ==> !Space(TrimLeft(s)[0])
  {
    if s != "" { LeftBounds(s[1..]); }
  }

  lemma {:induction false} RightBounds(s: string)
    ensures |TrimRight(s)| <= |s| && (|TrimRight(s)| == |s| ==> TrimRight(s) == s)
    ensures s != "" && Space(s[|s| - 1]) ==> |TrimRight(s)| < |s|
    ensures TrimRight(s) != "" ==> !Space(TrimRight(s)[|TrimRight(s)| - 1]) && TrimRight(s)[0] == s[0]
  {
    if s != "" { RightBounds(s[..|s| - 1]); }
  }

  lemma {:induction false} TrimTwice(s: string)
    ensures Trim(Trim(s)) == Trim(s)
  {
    LeftBounds(s);
    RightBounds(TrimLeft(s));
    TrimFixed(Trim(s));
  }

  function EscapeChar(c: char): string {
    if c == '\\' then "\\\\" else if c == ';' then "\\;" else [c]
  }

  lemma {:induction false} EncodeItemStep(value: string)
    requires value != ""
    ensures EncodeItem(value) == EscapeChar(value[0]) + EncodeItem(value[1..])
  {
    var inner := ReplaceAll(value[1..], '\\', "\\\\");
    if value[0] == '\\' {
      assert ReplaceAll(value, '\\', "\\\\") == ['\\', '\\'] + inner;
      assert (['\\', '\\'] + inner)[1..] == ['\\'] + inner && (['\\'] + inner)[1..] == inner;
      var done := ReplaceAll(inner, ';', "\\;");
      assert ReplaceAll(['\\'] + inner, ';', "\\;") == ['\\'] + done;
      assert ['\\'] + (['\\'] + done) == "\\\\" + done;
    } else {
      assert ReplaceAll(value, '\\', "\\\\") == [value[0]] + inner;
      assert ([value[0]] + inner)[1..] == inner;
    }
  }

  /** Reading back an escaped item reads the item. */
  lemma {:induction false} ItemsOfEncoded(value: string, rest: string, item: string)
    ensures Items(EncodeItem(value) + rest, item, false) == Items(rest, item + value, false)
    decreases |value|
  {
    hide EncodeItem, Before;
    if value == "" {
      assert EncodeItem("") == "" by { NothingEncoded(); }
      assert "" + rest == rest && item + "" == item;
    } else {
      EncodeItemStep(value);
      var c, tail := value[0], EncodeItem(value[1..]) + rest;
      var text := EncodeItem(value) + rest;
      assert text == EscapeChar(c) + tail;
      ItemsOfEncoded(value[1..], rest, item + [c]);
      assert item + [c] + value[1..] == item + value;
      if c == '\\' || c == ';' {
        assert text == ['\\', c] + tail && text[1..] == [c] + tail && text[1..][1..] == tail;
      } else {
        assert text[1..] == tail;
      }
    }
  }

  lemma NothingEncoded()
    ensures EncodeItem("") == ""
  {
  }

  predicate Trimmed(xs: seq<string>) {
    forall i :: 0 <= i < |xs| ==> xs[i] != "" && Trim(xs[i]) == xs[i]
  }

  /** Whatever backslashes and semicolons the items contain. */
  lemma {:induction false} ItemsOfList(xs: seq<string>)
    requires xs != [] && Trimmed(xs)
    ensures Items(EncodeList(xs), "", false) == Some(xs)
    decreases |xs|
  {
    hide Trim, EncodeItem;
    var x, parts := xs[0], EncodedItems(xs);
    assert "" + x == x && EncodeItem(x) + "" == EncodeItem(x);
    if |xs| == 1 {
      ItemsOfEncoded(x, "", "");
      assert parts == [EncodeItem(x)] && xs == [x];
      assert Items("", x, false) == Before(x, Some([])) && [x] + [] == [x];
    } else {
      var rest := xs[1..];
      ItemsOfList(rest);
      assert parts[1..] == EncodedItems(rest);
      var tail := ";" + EncodeList(rest);
      assert EncodeList(xs) == EncodeItem(x) + tail;
      ItemsOfEncoded(x, tail, "");
      assert tail[1..] == EncodeList(rest);
      assert xs == [x] + rest;
    }
  }

  lemma {:induction false} NormalizeNormalized(xs: seq<string>)
    requires Normalized(xs)
    ensures NormalizeList(xs) == Some(xs)
  {
    hide NormalizeItem, TextLess;
    var keys := seq(|xs|, i requires 0 <= i < |xs| => Key(0, xs[i], 0));
    assert forall i :: 0 <= i < |xs| ==> keys[i] == Key(0, xs[i], 0);
    assert Ordered(true, keys);
    ItemKeys(xs, keys);
    SortedIs(true, keys, KeysOf(UniqueItems(xs)));
    assert TextsOf(keys) == xs;
  }

  lemma ItemKeys(xs: seq<string>, keys: seq<Key>)
    requires |keys| == |xs| && forall i :: 0 <= i < |xs| ==> keys[i] == Key(0, xs[i], 0) && NormalizeItem(xs[i]) == Some(xs[i])
    ensures SetOf(keys) == KeysOf(UniqueItems(xs))
  {
    hide NormalizeItem;
    forall k: Key
      ensures k in SetOf(keys) <==> k in KeysOf(UniqueItems(xs))
    {
      if k in keys {
        var i :| 0 <= i < |keys| && keys[i] == k;
        assert xs[i] in xs && xs[i] in UniqueItems(xs);
      }
      if k in KeysOf(UniqueItems(xs)) {
        var text :| text in UniqueItems(xs) && k == Key(0, text, 0);
        var value :| value in xs && NormalizeItem(value) == Some(text);
        var i :| 0 <= i < |xs| && xs[i] == value;
        assert keys[i] == k;
      }
    }
  }

  /** Every normalized list survives one cell. */
  lemma {:induction false} ListRoundTrip(xs: seq<string>)
    requires Normalized(xs)
    ensures DecodeList(EncodeList(xs)) == Some(xs)
  {
    hide TextLess, Utf8Length, ContainsControl, EncodeItem, Items, NormalizeList, Trim;
    NormalizeNormalized(xs);
    if xs != [] {
      assert Trimmed(xs);
      ItemsOfList(xs);
      assert Items(EncodeList(xs), "", false) != Items("", "", false) by { EmptyItems(); }
    }
  }

  lemma EmptyItems()
    ensures Items("", "", false) == None
  {
  }

  // ---- the whole cell ----

  function DecodeCell(cell: string): Option<seq<string>> {
    DecodeList(Trim(UnprotectCell(cell)))
  }

  lemma {:induction false} EncodeItemEnds(value: string)
    requires value != "" && !Space(value[0]) && !Space(value[|value| - 1])
    ensures var e := EncodeItem(value); e != "" && !Space(e[0]) && !Space(e[|e| - 1])
    decreases |value|
  {
    hide EncodeItem;
    EncodeItemStep(value);
    NothingEncoded();
    EncodeItemLast(value);
  }

  lemma {:induction false} EncodeItemLast(value: string)
    requires value != ""
    ensures var e := EncodeItem(value); e != "" && e[|e| - 1] == value[|value| - 1]
  {
    hide EncodeItem;
    var head, tail := EscapeChar(value[0]), EncodeItem(value[1..]);
    EncodeItemStep(value);
    NothingEncoded();
    if |value| == 1 {
      assert value[1..] == "" && head + tail == head;
    } else {
      EncodeItemLast(value[1..]);
      assert (head + tail)[|head + tail| - 1] == tail[|tail| - 1];
    }
  }

  lemma {:induction false} JoinEnds(parts: seq<string>)
    requires parts != [] && forall i :: 0 <= i < |parts| ==> parts[i] != "" && !Space(parts[i][0]) && !Space(parts[i][|parts[i]| - 1])
    ensures var s := Join(parts); s != "" && !Space(s[0]) && !Space(s[|s| - 1])
  {
    if |parts| > 1 { JoinEnds(parts[1..]); }
  }

  /** Trimming an encoded list changes nothing. */
  lemma {:induction false} EncodedIsTrimmed(xs: seq<string>)
    requires Trimmed(xs)
    ensures Trim(EncodeList(xs)) == EncodeList(xs)
  {
    hide Trim, EncodeItem, Space;
    TrimFixed(EncodeList(xs));
    if xs != [] {
      forall i | 0 <= i < |xs|
        ensures var e := EncodeItem(xs[i]); e != "" && !Space(e[0]) && !Space(e[|e| - 1])
      {
        TrimFixed(xs[i]);
        EncodeItemEnds(xs[i]);
      }
      JoinEnds(EncodedItems(xs));
    }
  }

  /** Export followed by import, with formula protection and trimming, returns the list. */
  lemma {:induction false} CellRoundTrip(xs: seq<string>)
    requires Normalized(xs)
    ensures DecodeCell(ProtectCell(EncodeList(xs))) == Some(xs)
  {
    hide TextLess, EncodeList, DecodeList, ProtectCell, UnprotectCell, Trim, Utf8Length, ContainsControl;
    ProtectionRoundTrip(EncodeList(xs));
    assert Trimmed(xs);
    EncodedIsTrimmed(xs);
    ListRoundTrip(xs);
  }

  /** Whatever an import accepts is normalized, so exporting it again loses nothing. */
  lemma {:induction false} ImportIsNormal(cell: string)
    ensures DecodeCell(cell).Some? ==>
              Normalized(DecodeCell(cell).value) && DecodeCell(ProtectCell(EncodeList(DecodeCell(cell).value))) == DecodeCell(cell)
  {
    hide TextLess, Items, EncodeList, ProtectCell, NormalizeItem, Normalized, NormalizeList;
    var value := Trim(UnprotectCell(cell));
    if DecodeCell(cell).Some? {
      var items := Items(value, "", false);
      if value == "" { EmptyNormal(); } else { NormalizeIsNormal(items.value); }
      CellRoundTrip(DecodeCell(cell).value);
    }
  }

  lemma EmptyNormal()
    ensures Normalized([])
  {
  }

  lemma {:induction false} NormalizeIsNormal(values: seq<string>)
    requires NormalizeList(values).Some?
    ensures Normalized(NormalizeList(values).value)
  {
    hide TextLess, Sorted, Utf8Length, ContainsControl, Trim;
    var unique := UniqueItems(values);
    var keys := Sorted(true, KeysOf(unique));
    var r := TextsOf(keys);
    UniqueSize(values);
    KeysSize(unique);
    forall i | 0 <= i < |r|
      ensures NormalizeItem(r[i]) == Some(r[i]) && keys[i] == Key(0, r[i], 0)
    {
      assert keys[i] in SetOf(keys);
      var text :| text in unique && keys[i] == Key(0, text, 0);
      var value :| value in values && NormalizeItem(value) == Some(text);
      TrimTwice(value);
    }
    forall i, j | 0 <= i < j < |r|
      ensures TextLess(r[i], r[j])
    {
      assert Precedes(true, keys[i], keys[j]);
    }
  }

  lemma {:induction false} UniqueSize(values: seq<string>)
    ensures |UniqueItems(values)| <= |values|
  {
    hide NormalizeItem;
    if values == [] {
      assert UniqueItems(values) == {};
    } else {
      var n := |values| - 1;
      UniqueSize(values[..n]);
      var more := if NormalizeItem(values[n]).Some? then {NormalizeItem(values[n]).value} else {};
      assert values == values[..n] + [values[n]];
      assert UniqueItems(values) == UniqueItems(values[..n]) + more;
    }
  }

  lemma {:induction false} KeysSize(texts: set<string>)
    ensures |KeysOf(texts)| == |texts|
  {
    if texts == {} {
      assert KeysOf(texts) == {};
    } else {
      var text :| text in texts;
      KeysSize(texts - {text});
      assert KeysOf(texts) == KeysOf(texts - {text}) + {Key(0, text, 0)};
    }
  }
}
