/**
 * JSON text of strings and numbers as `JSON.stringify` writes it (section 7 of RFC 8259). Text is a sequence of
 * UTF-16 code units, so that lone surrogates and the code-unit order of `<` are what they are in JavaScript.
 */
module JsonText {
  import opened Sorting

  /** UTF-16 code units. */
  type JsString = seq<int>

  const QUOTATION := 34
  const BACKSLASH := 92
  const COMMA := 44
  const COLON := 58
  const OPEN_BRACKET := 91
  const CLOSE_BRACKET := 93
  const OPEN_BRACE := 123
  const CLOSE_BRACE := 125

  // ── Numbers ─────────────────────────────────────────────────────

  predicate IsDigit(c: int) {
    48 <= c <= 57
  }

  /** Digits, sign, point and exponent: no JSON punctuation. */
  predicate IsNumberUnit(c: int) {
    IsDigit(c) || c == 43 || c == 45 || c == 46 || c == 101
  }

  predicate IsNumberText(t: JsString) {
    && t != [] && (IsDigit(t[0]) || t[0] == 45)
    && forall i :: 0 <= i < |t| ==> IsNumberUnit(t[i])
  }

  /** A finite double other than -0, named by its shortest round-trip text, which is its own. */
  type NumberText = t: JsString | IsNumberText(t) witness [48]

  const ZERO: NumberText := [48]

  // ── Strings ─────────────────────────────────────────────────────

  predicate IsHigh(c: int) {
    0xD800 <= c <= 0xDBFF
  }

  predicate IsLow(c: int) {
    0xDC00 <= c <= 0xDFFF
  }

  function HexDigit(n: int): int {
    if n < 10 then 48 + n else 87 + n
  }

  function HexEscape(c: int): (r: JsString)
    ensures |r| == 6
  {
    [BACKSLASH, 117, HexDigit(c / 4096), HexDigit(c / 256 % 16), HexDigit(c / 16 % 16), HexDigit(c % 16)]
  }

  /** The letter of a two-unit escape, or 0. */
  function ShortEscape(c: int): int {
    if c == 8 then 98
    else if c == 9 then 116
    else if c == 10 then 110
    else if c == 12 then 102
    else if c == 13 then 114
    else if c == QUOTATION || c == BACKSLASH then c
    else 0
  }

  function EscapeUnit(c: int): (r: JsString)
    ensures 1 <= |r| <= 6
  {
    if ShortEscape(c) != 0 then [BACKSLASH, ShortEscape(c)]
    else if 0 <= c < 0x20 || IsHigh(c) || IsLow(c) then HexEscape(c)
    else [c]
  }

  predicate IsPair(s: JsString) {
    |s| >= 2 && IsHigh(s[0]) && IsLow(s[1])
  }

  function Escape(s: JsString): JsString {
    if s == [] then []
    else if IsPair(s) then [s[0], s[1]] + Escape(s[2..])
    else EscapeUnit(s[0]) + Escape(s[1..])
  }

  /** `JSON.stringify` of a string. */
  function Quote(s: JsString): (r: JsString) {
    [QUOTATION] + (Escape(s) + [QUOTATION])
  }

  // ── Escaping is unambiguous ─────────────────────────────────────

  lemma HexIsInjective(c: int, d: int)
    requires 0 <= c < 0x10000 && 0 <= d < 0x10000
    requires HexEscape(c) == HexEscape(d)
    ensures c == d
  {
    var x, y := HexEscape(c), HexEscape(d);
    assert x[2] == y[2] && x[3] == y[3] && x[4] == y[4] && x[5] == y[5];
    HexDigits(c);
    HexDigits(d);
  }

  lemma HexDigits(c: int)
    requires 0 <= c < 0x10000
    ensures c == c / 4096 * 4096 + c / 256 % 16 * 256 + c / 16 % 16 * 16 + c % 16
    ensures 0 <= c / 4096 < 16
  {
    assert c == c / 16 * 16 + c % 16;
    assert c / 16 == c / 16 / 16 * 16 + c / 16 % 16;
    assert c / 16 / 16 == c / 256;
    assert c / 256 == c / 256 / 16 * 16 + c / 256 % 16;
    assert c / 256 / 16 == c / 4096;
  }

  /** No unit's escape is a prefix of another's. */
  lemma UnitIsReadable(c: int, d: int, x: JsString, y: JsString)
    requires EscapeUnit(c) + x == EscapeUnit(d) + y
    ensures c == d && x == y
  {
    var s, t := EscapeUnit(c) + x, EscapeUnit(d) + y;
    assert s[0] == t[0];
    assert s[0] == EscapeUnit(c)[0] && t[0] == EscapeUnit(d)[0];
    if s[0] == BACKSLASH {
      assert s[1] == t[1];
      assert s[1] == EscapeUnit(c)[1] && t[1] == EscapeUnit(d)[1];
      if s[1] == 117 {
        assert s[..6] == HexEscape(c) && t[..6] == HexEscape(d);
        HexIsInjective(c, d);
      }
    }
    assert s[|EscapeUnit(c)|..] == x && t[|EscapeUnit(d)|..] == y;
  }

  lemma EscapedHead(s: JsString, rest: JsString)
    requires s != []
    ensures Escape(s) != [] && Escape(s)[0] == (if IsPair(s) then s[0] else EscapeUnit(s[0])[0])
    ensures Escape(s)[0] != QUOTATION
    ensures IsHigh(Escape(s)[0]) <==> IsPair(s)
  {
  }

  lemma HeadOf(t: JsString, y: JsString)
    ensures var text := Escape(t) + ([QUOTATION] + y);
            if t == [] then text == [QUOTATION] + y else text[0] == Escape(t)[0] != QUOTATION
  {
    if t != [] {
      EscapedHead(t, []);
    } else {
      assert [] + ([QUOTATION] + y) == [QUOTATION] + y;
    }
  }

  /** The empty text ends at once, and no other does. */
  lemma EmptyIsReadable(t: JsString, x: JsString, y: JsString)
    requires [QUOTATION] + x == Escape(t) + ([QUOTATION] + y)
    ensures t == [] && x == y
  {
    HeadOf(t, y);
    hide Escape;
    assert ([QUOTATION] + x)[0] == QUOTATION;
    assert ([QUOTATION] + x)[1..] == x && ([QUOTATION] + y)[1..] == y;
  }

  lemma Grouped(a: JsString, b: JsString, x: JsString)
    ensures a + b + x == a + (b + x)
  {
  }

  /** What the escape of a text begins with: a pair as it is, or the escape of its first unit. */
  lemma EscapedRest(s: JsString, x: JsString)
    requires s != []
    ensures IsPair(s) ==> Escape(s) + x == [s[0], s[1]] + (Escape(s[2..]) + x)
    ensures !IsPair(s) ==> Escape(s) + x == EscapeUnit(s[0]) + (Escape(s[1..]) + x)
  {
    if IsPair(s) {
      Grouped([s[0], s[1]], Escape(s[2..]), x);
    } else {
      Grouped(EscapeUnit(s[0]), Escape(s[1..]), x);
    }
    hide EscapeUnit;
  }

  lemma SameHead(s: JsString, t: JsString, x: JsString, y: JsString)
    requires s != [] && t != [] && Escape(s) + x == Escape(t) + y
    ensures IsPair(s) <==> IsPair(t)
  {
    EscapedHead(s, []);
    EscapedHead(t, []);
    hide Escape, IsPair, IsHigh, EscapeUnit;
    assert (Escape(s) + x)[0] == Escape(s)[0] && (Escape(t) + y)[0] == Escape(t)[0];
  }

  lemma PairIsReadable(a: JsString, b: JsString, x: JsString, y: JsString)
    requires |a| == |b| && a + x == b + y
    ensures a == b && x == y
  {
    assert (a + x)[..|a|] == a && (b + y)[..|b|] == b && (a + x)[|a|..] == x && (b + y)[|b|..] == y;
  }

  /** Quoted text ends at its own closing quotation mark, wherever it stands. */
  lemma {:induction false} EscapeIsReadable(s: JsString, t: JsString, x: JsString, y: JsString)
    requires Escape(s) + ([QUOTATION] + x) == Escape(t) + ([QUOTATION] + y)
    ensures s == t && x == y
    decreases |s|
  {
    if s == [] {
      assert Escape(s) + ([QUOTATION] + x) == [QUOTATION] + x;
      EmptyIsReadable(t, x, y);
    } else if t == [] {
      assert Escape(t) + ([QUOTATION] + y) == [QUOTATION] + y;
      EmptyIsReadable(s, y, x);
    } else {
      hide Escape, EscapeUnit;
      var p, q := [QUOTATION] + x, [QUOTATION] + y;
      SameHead(s, t, p, q);
      EscapedRest(s, p);
      EscapedRest(t, q);
      if IsPair(s) {
        PairIsReadable([s[0], s[1]], [t[0], t[1]], Escape(s[2..]) + p, Escape(t[2..]) + q);
        EscapeIsReadable(s[2..], t[2..], x, y);
        assert s == [s[0], s[1]] + s[2..] && t == [t[0], t[1]] + t[2..];
        assert [s[0], s[1]][0] == [t[0], t[1]][0] && [s[0], s[1]][1] == [t[0], t[1]][1];
      } else {
        UnitIsReadable(s[0], t[0], Escape(s[1..]) + p, Escape(t[1..]) + q);
        EscapeIsReadable(s[1..], t[1..], x, y);
        assert s == [s[0]] + s[1..] && t == [t[0]] + t[1..];
      }
    }
  }

  lemma QuoteIsReadable(s: JsString, t: JsString, x: JsString, y: JsString)
    requires Quote(s) + x == Quote(t) + y
    ensures s == t && x == y
  {
    var a, b := Quote(s) + x, Quote(t) + y;
    assert a[1..] == Escape(s) + ([QUOTATION] + x);
    assert b[1..] == Escape(t) + ([QUOTATION] + y);
    EscapeIsReadable(s, t, x, y);
  }

  // ── The order of `<` ────────────────────────────────────────────

  predicate UnitLess(x: int, y: int) {
    x < y
  }

  /** `left < right` on strings: by code units. */
  predicate TextLess(a: JsString, b: JsString) {
    LexLess(UnitLess, a, b)
  }

  lemma TextOrder()
    ensures StrictTotal(TextLess)
  {
    forall a: JsString, b: JsString ensures !(TextLess(a, b) && TextLess(b, a)) && (a == b || TextLess(a, b) || TextLess(b, a)) {
      LexAsymmetric(UnitLess, a, b);
      LexConnected(UnitLess, a, b);
    }
    forall a: JsString, b: JsString, c: JsString | TextLess(a, b) && TextLess(b, c) ensures TextLess(a, c) {
      LexTransitive(UnitLess, a, b, c);
    }
  }
}
