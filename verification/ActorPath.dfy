/** Canonical actor paths: percent encoding normalized as in sections 6.2.2.1 and 6.2.2.2 of
    RFC 3986, and the paths that are refused. Text is bytes. */
module ActorPath {
  import opened Keyset

  type Byte = b: int | 0 <= b < 256
  type Bytes = seq<Byte>

  const PERCENT: Byte := 0x25
  const SLASH: Byte := 0x2f
  const DOT: Byte := 0x2e
  const BACKSLASH: Byte := 0x5c
  const DELETE: Byte := 0x7f

  function HexValue(c: Byte): Option<Byte> {
    if 0x30 <= c <= 0x39 then Some(c - 0x30)
    else if 0x61 <= c <= 0x66 then Some(c - 0x61 + 10)
    else if 0x41 <= c <= 0x46 then Some(c - 0x41 + 10)
    else None
  }

  function UpperHex(n: Byte): Byte
    requires n < 16
  {
    if n < 10 then 0x30 + n else 0x41 + n - 10
  }

  predicate Unreserved(c: Byte) {
    0x61 <= c <= 0x7a || 0x41 <= c <= 0x5a || 0x30 <= c <= 0x39 || c == 0x2d || c == DOT || c == 0x5f || c == 0x7e
  }

  predicate Control(c: Byte) { c < 0x20 || c == DELETE }

  // ---- reading a path as tokens ----

  /** One byte of the decoded path and whether the text wrote it as an escape. */
  datatype Token = Token(value: Byte, escaped: bool)

  predicate AllowedLiteral(c: Byte) { c != PERCENT && c != BACKSLASH && !Control(c) }

  predicate AllowedEscape(v: Byte) { v != PERCENT && v != SLASH && v != BACKSLASH && !Control(v) }

  predicate Allowed(t: Token) { if t.escaped then AllowedEscape(t.value) else AllowedLiteral(t.value) }

  /** The escape at the start of the text. */
  function ReadEscape(p: Bytes): Option<Byte> {
    if |p| < 3 || HexValue(p[1]).None? || HexValue(p[2]).None? then None
    else
      var high, low := HexValue(p[1]).value, HexValue(p[2]).value;
      if high < 16 && low < 16 then Some(high * 16 + low) else None
  }

  /** The path's tokens; hexadecimal case is forgotten. */
  function Read(p: Bytes): Option<seq<Token>> {
    if p == [] then Some([])
    else if p[0] != PERCENT then
      if !AllowedLiteral(p[0]) || Read(p[1..]).None? then None else Some([Token(p[0], false)] + Read(p[1..]).value)
    else
      var value := ReadEscape(p);
      if value.None? || !AllowedEscape(value.value) || Read(p[3..]).None? then None
      else Some([Token(value.value, true)] + Read(p[3..]).value)
  }

  function Values(ts: seq<Token>): (r: Bytes)
    ensures |r| == |ts|
  {
    seq(|ts|, i requires 0 <= i < |ts| => ts[i].value)
  }

  /** The bytes a path stands for. */
  function Decoded(p: Bytes): Bytes
    requires Read(p).Some?
  {
    Values(Read(p).value)
  }

  /** Two readable paths that differ only by hexadecimal case and by escaping of unreserved
      characters. */
  predicate Same(p: Bytes, q: Bytes)
    requires Read(p).Some? && Read(q).Some?
  {
    var a, b := Read(p).value, Read(q).value;
    |a| == |b| && forall i :: 0 <= i < |a| ==>
      a[i].value == b[i].value && (a[i].escaped == b[i].escaped || Unreserved(a[i].value))
  }

  // ---- the normal form ----

  function Canon(t: Token): Token { Token(t.value, t.escaped && !Unreserved(t.value)) }

  function Canons(ts: seq<Token>): (r: seq<Token>)
    ensures |r| == |ts|
  {
    seq(|ts|, i requires 0 <= i < |ts| => Canon(ts[i]))
  }

  function Render(t: Token): Bytes {
    if t.escaped then [PERCENT, UpperHex(t.value / 16), UpperHex(t.value % 16)] else [t.value]
  }

  function RenderAll(ts: seq<Token>): Bytes {
    if ts == [] then [] else Render(ts[0]) + RenderAll(ts[1..])
  }

  // ---- acceptance ----

  predicate Continuation(b: Byte) { 0x80 <= b <= 0xbf }

  /** Code points of well-formed UTF-8: no overlong form, no surrogate, nothing past U+10FFFF. */
  function Utf8(s: Bytes): Option<seq<int>>
    decreases |s|
  {
    if s == [] then Some([])
    else
      var (n, point) := FirstPoint(s);
      if n == 0 || Utf8(s[n..]).None? then None else Some([point] + Utf8(s[n..]).value)
  }

  /** Length and value of the first code point; length zero when it is malformed. */
  function FirstPoint(s: Bytes): (r: (nat, int))
    requires s != []
    ensures r.0 <= |s|
  {
    var b := s[0];
    if b < 0x80 then (1, b)
    else if 0xc2 <= b <= 0xdf && |s| >= 2 && Continuation(s[1]) then (2, Point(b as int - 0xc0, s[1..2]))
    else if 0xe0 <= b <= 0xef && |s| >= 3 && Continuation(s[1]) && Continuation(s[2])
            && (b == 0xe0 ==> s[1] >= 0xa0) && (b == 0xed ==> s[1] <= 0x9f) then
      (3, Point(b as int - 0xe0, s[1..3]))
    else if 0xf0 <= b <= 0xf4 && |s| >= 4 && Continuation(s[1]) && Continuation(s[2]) && Continuation(s[3])
            && (b == 0xf0 ==> s[1] >= 0x90) && (b == 0xf4 ==> s[1] <= 0x8f) then
      (4, Point(b as int - 0xf0, s[1..4]))
    else (0, 0)
  }

  /** Leading bits followed by six bits of each continuation byte. */
  function Point(leading: int, rest: Bytes): int
    decreases |rest|
  {
    if rest == [] then leading else Point(leading * 64 + rest[0] as int - 0x80, rest[1..])
  }

  predicate ControlPoint(point: int) { 0 <= point < 0x20 || 0x7f <= point <= 0x9f }

  predicate ReadableText(s: Bytes) {
    Utf8(s).Some? && forall point :: point in Utf8(s).value ==> !ControlPoint(point)
  }

  predicate EmptySegment(s: Bytes) {
    exists i :: 0 <= i < |s| - 1 && s[i] == SLASH && s[i + 1] == SLASH
  }

  /** The text between slashes. */
  function Split(s: Bytes): (r: seq<Bytes>)
    ensures r != []
  {
    if s == [] then [[]]
    else
      var rest := Split(s[1..]);
      if s[0] == SLASH then [[]] + rest else [[s[0]] + rest[0]] + rest[1..]
  }

  predicate DotSegment(s: Bytes) { [DOT] in Split(s) || [DOT, DOT] in Split(s) }

  /** The canonical path; None is any of the refusals. */
  function Normalize(escaped: Bytes): Option<Bytes> {
    if escaped == [] then Some([SLASH])
    else if escaped[0] != SLASH || Read(escaped).None? then None
    else
      var path := RenderAll(Canons(Read(escaped).value));
      if !ReadableText(Decoded(escaped)) || EmptySegment(path) || DotSegment(path) then None else Some(path)
  }

  // ---- tokens and text ----

  lemma HexRoundTrip(v: Byte)
    ensures v / 16 < 16 && HexValue(UpperHex(v / 16)) == Some(v / 16) && HexValue(UpperHex(v % 16)) == Some(v % 16)
    ensures v / 16 * 16 + v % 16 == v
  {
  }

  /** Rendering allowed tokens and reading them back loses nothing. */
  lemma {:induction false} ReadRender(ts: seq<Token>)
    requires forall i :: 0 <= i < |ts| ==> Allowed(ts[i])
    ensures Read(RenderAll(ts)) == Some(ts)
  {
    hide UpperHex, HexValue;
    if ts != [] {
      var text, head := RenderAll(ts), Render(ts[0]);
      ReadRender(ts[1..]);
      HexRoundTrip(ts[0].value);
      assert text[|head|..] == RenderAll(ts[1..]);
      assert ts == [ts[0]] + ts[1..];
    }
  }

  lemma {:induction false} ReadAllowed(p: Bytes)
    ensures Read(p).Some? ==> forall i :: 0 <= i < |Read(p).value| ==> Allowed(Read(p).value[i])
  {
    hide AllowedLiteral, AllowedEscape, ReadEscape;
    if p != [] {
      if p[0] != PERCENT { ReadAllowed(p[1..]); } else if |p| >= 3 { ReadAllowed(p[3..]); }
      assert ReadEscape(p).Some? ==> |p| >= 3 by { EscapeLength(p); }
    }
  }

  lemma EscapeLength(p: Bytes)
    ensures ReadEscape(p).Some? ==> |p| >= 3
  {
  }

  lemma CanonAllowed(t: Token)
    requires Allowed(t)
    ensures Allowed(Canon(t)) && Canon(Canon(t)) == Canon(t)
  {
  }

  /** What the normal form reads back as. */
  lemma {:induction false} NormalReads(p: Bytes)
    requires Read(p).Some?
    ensures Read(RenderAll(Canons(Read(p).value))) == Some(Canons(Read(p).value))
  {
    hide Read, Canon, Allowed;
    ReadAllowed(p);
    forall i | 0 <= i < |Read(p).value|
      ensures Allowed(Canons(Read(p).value)[i])
    {
      CanonAllowed(Read(p).value[i]);
    }
    ReadRender(Canons(Read(p).value));
  }

  lemma CanonsTwice(ts: seq<Token>)
    ensures Canons(Canons(ts)) == Canons(ts) && Values(Canons(ts)) == Values(ts)
  {
  }

  /** Normalization is idempotent and keeps the bytes the path stands for. */
  lemma {:induction false} NormalForm(p: Bytes)
    requires Normalize(p).Some?
    ensures var n := Normalize(p).value;
            && Normalize(n) == Some(n) && Read(n).Some?
            && (p != [] ==> Read(p).Some? && Decoded(n) == Decoded(p))
  {
    hide ReadableText, EmptySegment, DotSegment, Canons, Values, Read, RenderAll;
    if p == [] {
      SlashNormal();
    } else {
      var ts := Read(p).value;
      NormalReads(p);
      CanonsTwice(ts);
      StartsWithSlash(p);
    }
  }

  lemma SlashNormal()
    ensures Normalize([SLASH]) == Some([SLASH]) && Read([SLASH]).Some?
  {
    var p: Bytes := [SLASH];
    var nothing: seq<Token> := [];
    assert p[1..] == [] && Read(p[1..]) == Some(nothing) && AllowedLiteral(p[0]);
    assert [Token(SLASH, false)] + nothing == [Token(SLASH, false)];
    assert Read(p) == Some([Token(SLASH, false)]);
    var none: Bytes := [];
    assert RenderAll([Token(SLASH, false)]) == [SLASH] + none == p;
    assert Canons([Token(SLASH, false)]) == [Token(SLASH, false)];
    assert Decoded(p) == [SLASH] == p;
    assert Utf8(none) == Some([]) && Utf8(p) == Some([0x2f]);
    assert Split(none) == [[]] && Split(p) == [[], []];
  }

  predicate Letter(b: Byte) { 0x61 <= b <= 0x7a }

  function Literals(p: Bytes): (ts: seq<Token>)
    ensures |ts| == |p|
  {
    seq(|p|, i requires 0 <= i < |p| => Token(p[i], false))
  }

  lemma {:induction false} LiteralsRead(p: Bytes)
    requires forall i :: 0 <= i < |p| ==> AllowedLiteral(p[i])
    ensures Read(p) == Some(Literals(p)) && RenderAll(Literals(p)) == p
  {
    hide ReadEscape, AllowedLiteral;
    if p == [] {
      assert Literals(p) == [];
    } else {
      LiteralsRead(p[1..]);
      assert p[0] != PERCENT by { LiteralIsPlain(p[0]); }
      assert Literals(p) == [Token(p[0], false)] + Literals(p[1..]);
      assert p == [p[0]] + p[1..];
    }
  }

  lemma LiteralIsPlain(b: Byte)
    requires AllowedLiteral(b)
    ensures b != PERCENT
  {
  }

  lemma LiteralsCanon(p: Bytes)
    ensures Canons(Literals(p)) == Literals(p) && Values(Literals(p)) == p
  {
  }

  lemma {:induction false} LettersText(p: Bytes)
    requires forall i :: 0 <= i < |p| ==> Letter(p[i])
    ensures Utf8(p).Some? && forall point :: point in Utf8(p).value ==> 0x61 <= point <= 0x7a
    ensures Split(p) == [p]
  {
    hide Point;
    if p != [] {
      LettersText(p[1..]);
      assert Letter(p[0]) && FirstPoint(p) == (1, p[0] as int);
      assert p == [p[0]] + p[1..];
    }
  }

  /** A slash and lower-case letters are a normal form. */
  lemma {:induction false} LettersNormal(p: Bytes)
    requires p != [] && p[0] == SLASH && forall i :: 1 <= i < |p| ==> Letter(p[i])
    ensures Normalize(p) == Some(p)
  {
    hide Read, RenderAll, Canons, Values, Literals, ReadableText, EmptySegment, DotSegment;
    LiteralsRead(p);
    LiteralsCanon(p);
    SlashText(p);
  }

  lemma SlashText(p: Bytes)
    requires p != [] && p[0] == SLASH && forall i :: 1 <= i < |p| ==> Letter(p[i])
    ensures ReadableText(p) && !EmptySegment(p) && !DotSegment(p)
  {
    var rest := p[1..];
    LettersText(rest);
    assert Utf8(p) == Some([0x2f] + Utf8(rest).value);
    assert Split(p) == [[]] + [rest];
  }

  lemma StartsWithSlash(p: Bytes)
    requires p != [] && p[0] == SLASH && Read(p).Some?
    ensures var n := RenderAll(Canons(Read(p).value)); n != [] && n[0] == SLASH
  {
    assert Read(p).value[0] == Token(SLASH, false);
  }

  /** The empty path is the root. */
  function Effective(p: Bytes): Bytes { if p == [] then [SLASH] else p }

  /** Two accepted paths have the same normal form exactly when they are the same up to
      hexadecimal case and escaping of unreserved characters. */
  lemma {:induction false} NormalFormDecidesSame(p: Bytes, q: Bytes)
    requires Normalize(p).Some? && Normalize(q).Some?
    ensures Read(Effective(p)).Some? && Read(Effective(q)).Some?
    ensures Normalize(p) == Normalize(q) <==> Same(Effective(p), Effective(q))
  {
    hide ReadableText, EmptySegment, DotSegment, Canons, RenderAll, Same;
    SlashNormal();
    var a, b := Effective(p), Effective(q);
    assert Normalize(p) == Normalize(a) && Normalize(q) == Normalize(b);
    NormalReads(a);
    NormalReads(b);
    SameCanons(a, b);
  }

  lemma SameCanons(p: Bytes, q: Bytes)
    requires Read(p).Some? && Read(q).Some?
    ensures Same(p, q) <==> Canons(Read(p).value) == Canons(Read(q).value)
  {
    hide Read, Unreserved;
    var ts, us := Read(p).value, Read(q).value;
    var a, b := Canons(ts), Canons(us);
    if a == b {
      assert |ts| == |us|;
      assert forall i :: 0 <= i < |a| ==> a[i] == Canon(ts[i]) && b[i] == Canon(us[i]) && a[i] == b[i];
    }
    if Same(p, q) {
      assert forall i :: 0 <= i < |a| ==> a[i] == b[i];
    }
  }

  // ---- the loop ----

  function Scan(p: Bytes): Option<Bytes> {
    if Read(p).None? then None else Some(RenderAll(Canons(Read(p).value)))
  }

  function Prefixed(head: Bytes, rest: Option<Bytes>): Option<Bytes> {
    if rest.None? then None else Some(head + rest.value)
  }

  lemma PrefixedTwice(a: Bytes, b: Bytes, rest: Option<Bytes>)
    ensures Prefixed(a, Prefixed(b, rest)) == Prefixed(a + b, rest)
    ensures Prefixed([], rest) == rest && Prefixed(a, Some([])) == Some(a)
  {
    if rest.Some? {
      assert a + (b + rest.value) == a + b + rest.value;
      var none: Bytes := [];
      assert none + rest.value == rest.value;
    }
    var none: Bytes := [];
    assert a + none == a;
  }

  lemma ScanToken(t: Token, ts: seq<Token>)
    ensures RenderAll(Canons([t] + ts)) == Render(Canon(t)) + RenderAll(Canons(ts))
  {
    assert Canons([t] + ts) == [Canon(t)] + Canons(ts);
  }

  lemma ScanStep(p: Bytes)
    requires p != []
    ensures p[0] != PERCENT ==>
              Scan(p) == if AllowedLiteral(p[0]) then Prefixed([p[0]], Scan(p[1..])) else None
    ensures p[0] == PERCENT ==>
              Scan(p) == if ReadEscape(p).None? || !AllowedEscape(ReadEscape(p).value) then None
                         else Prefixed(Render(Canon(Token(ReadEscape(p).value, true))), Scan(p[3..]))
  {
    hide Render, Canons, RenderAll;
    if p[0] != PERCENT {
      if Read(p).Some? {
        ScanToken(Token(p[0], false), Read(p[1..]).value);
        LiteralRenders(p[0]);
      }
    } else if Read(p).Some? {
      ScanToken(Token(ReadEscape(p).value, true), Read(p[3..]).value);
    }
  }

  lemma LiteralRenders(c: Byte)
    ensures Render(Canon(Token(c, false))) == [c]
  {
  }

  method NormalizeActorPath(escaped: Bytes) returns (path: Option<Bytes>)
    ensures path == Normalize(escaped)
  {
    hide Read, RenderAll, Canons, ReadableText, EmptySegment, DotSegment, Values, Prefixed;
    if |escaped| == 0 { return Some([SLASH]); }
    if escaped[0] != SLASH { return None; }
    var normalized: Bytes := [];
    var index := 0;
    assert escaped[0..] == escaped;
    PrefixedTwice([], [], Scan(escaped));
    while index < |escaped|
      invariant 0 <= index <= |escaped|
      invariant Scan(escaped) == Prefixed(normalized, Scan(escaped[index..]))
    {
      ScanStep(escaped[index..]);
      var character := escaped[index];
      if character != PERCENT {
        if character == BACKSLASH || character < 0x20 || character == DELETE { NothingFits(normalized); return None; }
        PrefixedTwice(normalized, [character], Scan(escaped[index + 1..]));
        assert escaped[index..][1..] == escaped[index + 1..];
        normalized := normalized + [character];
        index := index + 1;
        continue;
      }
      NothingFits(normalized);
      if index + 2 >= |escaped| { return None; }
      assert escaped[index..][3..] == escaped[index + 3..];
      var high, low := HexValue(escaped[index + 1]), HexValue(escaped[index + 2]);
      if high.None? || low.None? { return None; }
      HexBelow(escaped[index + 1]);
      HexBelow(escaped[index + 2]);
      var value := high.value * 16 + low.value;
      assert ReadEscape(escaped[index..]) == Some(value);
      if value == PERCENT || value == SLASH || value == BACKSLASH || value < 0x20 || value == DELETE { return None; }
      PrefixedTwice(normalized, Render(Canon(Token(value, true))), Scan(escaped[index + 3..]));
      if Unreserved(value) {
        normalized := normalized + [value];
      } else {
        normalized := normalized + [PERCENT, UpperHex(value / 16), UpperHex(value % 16)];
      }
      index := index + 3;
    }
    NothingScanned();
    assert escaped[index..] == [];
    PrefixedTwice(normalized, [], Some([]));
    NormalReads(escaped);
    CanonsTwice(Read(escaped).value);
    var decoded := Decoded(normalized);
    if !ReadableText(decoded) { return None; }
    if EmptySegment(normalized) { return None; }
    if DotSegment(normalized) { return None; }
    path := Some(normalized);
  }

  lemma NothingFits(a: Bytes)
    ensures Prefixed(a, None) == None
  {
  }

  lemma HexBelow(c: Byte)
    ensures HexValue(c).Some? ==> HexValue(c).value < 16
  {
  }

  lemma NothingScanned()
    ensures Scan([]) == Some([])
  {
  }

  // ---- segments survive decoding ----

  lemma {:induction false} SplitPrefix(head: Bytes, rest: Bytes)
    requires SLASH !in head
    ensures Split(head + rest) == [head + Split(rest)[0]] + Split(rest)[1..]
  {
    if head == [] {
      assert head + rest == rest && head + Split(rest)[0] == Split(rest)[0];
    } else {
      SplitPrefix(head[1..], rest);
      assert head[0] in head && (head + rest)[1..] == head[1..] + rest;
      assert [head[0]] + (head[1..] + Split(rest)[0]) == head + Split(rest)[0];
    }
  }

  /** A segment as written and as it decodes are empty or dots together. */
  predicate Alike(text: Bytes, bytes: Bytes) {
    && (text == [] <==> bytes == []) && (text == [DOT] <==> bytes == [DOT])
    && (text == [DOT, DOT] <==> bytes == [DOT, DOT])
  }

  lemma AlikePrepend(t: Token, text: Bytes, bytes: Bytes)
    requires t == Canon(t) && Allowed(t) && Alike(text, bytes)
    ensures Alike(Render(t) + text, [t.value] + bytes)
    ensures t.value == SLASH ==> Render(t) == [SLASH]
    ensures t.value != SLASH ==> SLASH !in Render(t)
  {
    var whole := Render(t) + text;
    if t.escaped {
      assert |whole| >= 3 && ([t.value] + bytes)[0] == t.value && !Unreserved(t.value);
    } else {
      assert whole[1..] == text && ([t.value] + bytes)[1..] == bytes;
      assert whole == [DOT, DOT] ==> whole[1..] == [DOT];
      assert [t.value] + bytes == [DOT, DOT] ==> ([t.value] + bytes)[1..] == [DOT];
    }
  }

  lemma {:induction false} SplitRender(ts: seq<Token>)
    requires forall i :: 0 <= i < |ts| ==> ts[i] == Canon(ts[i]) && Allowed(ts[i])
    ensures |Split(RenderAll(ts))| == |Split(Values(ts))|
    ensures forall k :: 0 <= k < |Split(Values(ts))| ==> Alike(Split(RenderAll(ts))[k], Split(Values(ts))[k])
  {
    hide Alike, Canon, Allowed, Render;
    if ts == [] {
      assert Alike([], []) by { EmptyAlike(); }
    } else {
      var rest := ts[1..];
      SplitRender(rest);
      var text, bytes := Split(RenderAll(rest)), Split(Values(rest));
      assert Values(ts) == [ts[0].value] + Values(rest);
      AlikePrepend(ts[0], text[0], bytes[0]);
      EmptyAlike();
      if ts[0].value == SLASH {
        assert Split([SLASH] + RenderAll(rest)) == [[]] + text by { assert ([SLASH] + RenderAll(rest))[1..] == RenderAll(rest); }
        assert Split([SLASH] + Values(rest)) == [[]] + bytes by { assert ([SLASH] + Values(rest))[1..] == Values(rest); }
      } else {
        SplitPrefix(Render(ts[0]), RenderAll(rest));
        SplitPrefix([ts[0].value], Values(rest));
      }
    }
  }

  lemma EmptyAlike()
    ensures Alike([], [])
  {
  }

  /** An empty segment between two others. */
  predicate InnerEmpty(parts: seq<Bytes>) {
    exists k :: 0 < k < |parts| - 1 && parts[k] == []
  }

  lemma EmptyStep(s: Bytes)
    requires s != []
    ensures EmptySegment(s) <==> EmptySegment(s[1..]) || (|s| > 1 && s[0] == SLASH && s[1] == SLASH)
  {
    var rest := s[1..];
    if EmptySegment(rest) {
      var i :| 0 <= i < |rest| - 1 && rest[i] == SLASH && rest[i + 1] == SLASH;
      assert s[i + 1] == SLASH && s[i + 2] == SLASH;
    }
    if EmptySegment(s) {
      var i :| 0 <= i < |s| - 1 && s[i] == SLASH && s[i + 1] == SLASH;
      if i > 0 { assert rest[i - 1] == SLASH && rest[i - 1 + 1] == SLASH; }
    }
  }

  lemma InnerStep(first: Bytes, tails: seq<Bytes>)
    ensures InnerEmpty([first] + tails) <==> InnerEmpty(tails) || (|tails| > 1 && tails[0] == [])
    ensures tails != [] ==> (InnerEmpty([first] + tails[1..]) <==> InnerEmpty(tails))
  {
    var parts := [first] + tails;
    if |tails| > 1 && tails[0] == [] { assert parts[1] == []; }
    if InnerEmpty(tails) {
      var k :| 0 < k < |tails| - 1 && tails[k] == [];
      assert parts[k + 1] == [] && ([first] + tails[1..])[k] == [];
    }
    if InnerEmpty(parts) {
      var k :| 0 < k < |parts| - 1 && parts[k] == [];
      assert tails[k - 1] == [];
    }
    if tails != [] && InnerEmpty([first] + tails[1..]) {
      var k :| 0 < k < |[first] + tails[1..]| - 1 && ([first] + tails[1..])[k] == [];
      assert tails[k] == [];
    }
  }

  lemma FirstEmpty(s: Bytes)
    ensures |Split(s)| > 1 && Split(s)[0] == [] <==> s != [] && s[0] == SLASH
  {
  }

  /** Adjacent slashes are an empty segment between two others. */
  lemma {:induction false} InnerSegments(s: Bytes)
    ensures EmptySegment(s) <==> InnerEmpty(Split(s))
  {
    hide EmptySegment, InnerEmpty;
    if s == [] {
      NoSegments();
    } else {
      InnerSegments(s[1..]);
      EmptyStep(s);
      FirstEmpty(s[1..]);
      InnerStep([], Split(s[1..]));
      InnerStep([s[0]] + Split(s[1..])[0], Split(s[1..]));
    }
  }

  lemma NoSegments()
    ensures !EmptySegment([]) && !InnerEmpty(Split([]))
  {
  }

  /** No dot segment and no empty segment survives, neither in the text of a normal form nor in
      the bytes it decodes to. */
  lemma {:induction false} NoDotSurvives(p: Bytes)
    requires Normalize(p).Some?
    ensures var n := Normalize(p).value;
            && Read(n).Some? && !EmptySegment(n) && !DotSegment(n)
            && !EmptySegment(Decoded(n)) && !DotSegment(Decoded(n))
  {
    hide ReadableText, Read, Canons, RenderAll, EmptySegment, Split, Canon, Allowed, InnerEmpty;
    SlashNormal();
    NormalForm(p);
    var n := Normalize(p).value;
    var ts := Read(n).value;
    NormalTokens(n);
    SplitRender(ts);
    InnerSegments(n);
    InnerSegments(Decoded(n));
    var text, bytes := Split(n), Split(Decoded(n));
    assert forall k :: 0 <= k < |bytes| ==> Alike(text[k], bytes[k]);
    SameInner(text, bytes);
    forall k | 0 <= k < |bytes|
      ensures bytes[k] != [DOT] && bytes[k] != [DOT, DOT]
    {
      assert Alike(text[k], bytes[k]) && text[k] in text;
    }
  }

  lemma SameInner(text: seq<Bytes>, bytes: seq<Bytes>)
    requires |text| == |bytes| && forall k :: 0 <= k < |bytes| ==> Alike(text[k], bytes[k])
    ensures InnerEmpty(text) <==> InnerEmpty(bytes)
  {
    if InnerEmpty(bytes) {
      var k :| 0 < k < |bytes| - 1 && bytes[k] == [];
      assert Alike(text[k], bytes[k]);
    }
    if InnerEmpty(text) {
      var k :| 0 < k < |text| - 1 && text[k] == [];
      assert Alike(text[k], bytes[k]);
    }
  }

  /** A normal form reads as canonical tokens and is their rendering. */
  lemma NormalTokens(n: Bytes)
    requires Normalize(n) == Some(n) && n != [] && Read(n).Some?
    ensures var ts := Read(n).value;
            n == RenderAll(ts) && forall i :: 0 <= i < |ts| ==> ts[i] == Canon(ts[i]) && Allowed(ts[i])
  {
    hide ReadableText, Read, RenderAll, EmptySegment, DotSegment, Canon, Allowed;
    var ts := Read(n).value;
    NormalReads(n);
    ReadAllowed(n);
    assert Canons(ts) == ts;
    assert forall i :: 0 <= i < |ts| ==> Canons(ts)[i] == Canon(ts[i]);
  }
}
