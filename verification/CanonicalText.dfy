/**
 * What the canonical text looks like, said without the serializer: literals, numbers, strings that read back by the
 * escapes of section 7 of RFC 8259, arrays in their own order, and objects with their normalised keys in ascending order
 * of UTF-16 code units.
 */
module CanonicalText {
  import opened Wrappers
  import opened Sorting
  import opened JsonText
  import opened CanonicalJson
  import opened CanonicalJsonLaws

  // ── Reading a string ────────────────────────────────────────────

  /** The value of a hexadecimal digit, in either case. */
  function HexValue(c: int): Option<int> {
    if 48 <= c <= 57 then Some(c - 48)
    else if 65 <= c <= 70 then Some(c - 55)
    else if 97 <= c <= 102 then Some(c - 87)
    else None
  }

  function FourHex(t: JsString): Option<int>
    requires |t| >= 4
  {
    match (HexValue(t[0]), HexValue(t[1]), HexValue(t[2]), HexValue(t[3]))
    case (Some(a), Some(b), Some(c), Some(d)) => Some(4096 * a + 256 * b + 16 * c + d)
    case _ => None
  }

  /** The two-unit escapes of the grammar. */
  function ShortMeaning(e: int): Option<int> {
    if e == 34 then Some(34)  // quotation mark
    else if e == 92 then Some(92)  // reverse solidus
    else if e == 47 then Some(47)  // solidus
    else if e == 98 then Some(8)  // backspace
    else if e == 102 then Some(12)  // form feed
    else if e == 110 then Some(10)  // line feed
    else if e == 114 then Some(13)  // carriage return
    else if e == 116 then Some(9)  // tab
    else None
  }

  /** The first unit of the content of a string literal, and how many units of text it takes. */
  function ReadUnit(t: JsString): Option<(int, nat)> {
    if t == [] || t[0] == 34 || 0 <= t[0] < 32 then None
    else if t[0] != 92 then Some((t[0], 1))
    else if |t| < 2 then None
    else if t[1] == 117 then
      if |t| < 6 then None else match FourHex(t[2..6]) case None => None case Some(c) => Some((c, 6))
    else match ShortMeaning(t[1]) case None => None case Some(c) => Some((c, 2))
  }

  /** The content of a string literal up to its closing mark, and what follows. */
  function ReadString(t: JsString): Option<(JsString, JsString)>
    decreases |t|
  {
    if t != [] && t[0] == 34 then Some(([], t[1..]))
    else
      match ReadUnit(t)
      case None => None
      case Some(u) =>
        if u.1 == 0 || u.1 > |t| then None
        else match ReadString(t[u.1..]) case None => None case Some(r) => Some(([u.0] + r.0, r.1))
  }

  /** The text of a string literal, whole: a quotation mark, its content, and the closing one at the end. */
  predicate IsLiteralOf(t: JsString, s: JsString) {
    t != [] && t[0] == 34 && ReadString(t[1..]) == Some((s, []))
  }

  // ── What is written ─────────────────────────────────────────────

  function Separated(parts: seq<JsString>): JsString {
    if parts == [] then [] else if |parts| == 1 then parts[0] else parts[0] + ([44] + Separated(parts[1..]))
  }

  /** Ascending order of code units: a smaller unit at the first difference, or a proper prefix. */
  ghost predicate Precedes(a: JsString, b: JsString) {
    exists n :: 0 <= n <= |a| && n < |b| && a[..n] == b[..n] && (n == |a| || a[n] < b[n])
  }

  /** `order` goes through the numbers below `n`, each once. */
  ghost predicate Reorders(order: seq<nat>, n: nat) {
    |order| == n && (forall i :: 0 <= i < n ==> order[i] < n) && forall i, j :: 0 <= i < j < n ==> order[i] != order[j]
  }

  /** `t` is the canonical text of `v`. */
  ghost predicate Writes(v: Value, t: JsString, nfc: Normalizer)
    decreases v
  {
    match v
    case Null => t == [110, 117, 108, 108]
    case Boolean(b) => t == if b then [116, 114, 117, 101] else [102, 97, 108, 115, 101]
    case Text(s) => IsLiteralOf(t, nfc(s))
    case Num(n) => (match n case Finite(text) => t == text case NegativeZero => t == [48] case NonFinite => false)
    case Arr(items) =>
      exists parts: seq<JsString> ::
        && |parts| == |items| && (forall i :: 0 <= i < |items| ==> Writes(items[i], parts[i], nfc))
        && t == [91] + (Separated(parts) + [93])
    case Obj(props) =>
      exists order: seq<nat>, keys: seq<JsString>, texts: seq<JsString> ::
        && Reorders(order, |props|) && |keys| == |props| && |texts| == |props|
        && (forall i :: 0 <= i < |props| ==> IsLiteralOf(keys[i], nfc(props[order[i]].key)))
        && (forall i :: 0 <= i < |props| ==> Writes(props[order[i]].value, texts[i], nfc))
        && (forall i, j :: 0 <= i < j < |props| ==> Precedes(nfc(props[order[i]].key), nfc(props[order[j]].key)))
        && t == [123] + (Separated(Members(keys, texts)) + [125])
    case Foreign => false
  }

  function Members(keys: seq<JsString>, texts: seq<JsString>): (r: seq<JsString>)
    requires |keys| == |texts|
    ensures |r| == |keys| && forall i :: 0 <= i < |r| ==> r[i] == keys[i] + ([58] + texts[i])
  {
    seq(|keys|, i requires 0 <= i < |keys| => keys[i] + ([58] + texts[i]))
  }

  // ── Strings ─────────────────────────────────────────────────────

  lemma HexRead(c: int)
    requires 0 <= c < 0x10000
    ensures FourHex([HexDigit(c / 4096), HexDigit(c / 256 % 16), HexDigit(c / 16 % 16), HexDigit(c % 16)]) == Some(c)
  {
    HexDigits(c);
    HexDigitRead(c / 4096);
    HexDigitRead(c / 256 % 16);
    HexDigitRead(c / 16 % 16);
    HexDigitRead(c % 16);
  }

  lemma HexDigitRead(n: int)
    requires 0 <= n < 16
    ensures HexValue(HexDigit(n)) == Some(n)
  {
  }

  lemma EscapedUnitRead(c: int, rest: JsString)
    ensures ReadUnit(EscapeUnit(c) + rest) == Some((c, |EscapeUnit(c)|))
  {
    var t := EscapeUnit(c) + rest;
    if ShortEscape(c) == 0 && (0 <= c < 0x20 || IsHigh(c) || IsLow(c)) {
      assert t[2..6] == HexEscape(c)[2..6];
      assert HexEscape(c)[2..6] == [HexDigit(c / 4096), HexDigit(c / 256 % 16), HexDigit(c / 16 % 16), HexDigit(c % 16)];
      HexRead(c);
      assert t[0] == 92 && t[1] == 117;
    } else if ShortEscape(c) != 0 {
      assert t[0] == 92 && t[1] == ShortEscape(c);
    } else {
      assert t[0] == c;
    }
  }

  /** One unit read, and on with the rest. */
  lemma ReadsOn(unit: JsString, c: int, rest: JsString)
    requires unit != [] && unit[0] != 34 && ReadUnit(unit + rest) == Some((c, |unit|)) && ReadString(rest).Some?
    ensures ReadString(unit + rest) == Some(([c] + ReadString(rest).value.0, ReadString(rest).value.1))
  {
    var t := unit + rest;
    assert t[0] == unit[0] && t[|unit|..] == rest;
    hide ReadUnit;
  }

  lemma PairRead(s: JsString, tail: JsString)
    requires IsPair(s) && ReadString(Escape(s[2..]) + tail).Some? && ReadString(Escape(s[2..]) + tail).value.0 == s[2..]
    ensures ReadString(Escape(s) + tail) == Some((s, ReadString(Escape(s[2..]) + tail).value.1))
  {
    hide Escape, ReadString;
    var more := Escape(s[2..]) + tail;
    EscapedRest(s, tail);
    assert [s[0], s[1]] + more == [s[0]] + ([s[1]] + more);
    RawRead(s[1], more);
    RawRead(s[0], [s[1]] + more);
    assert s == [s[0]] + ([s[1]] + s[2..]);
  }

  lemma RawRead(c: int, rest: JsString)
    requires c >= 128 && ReadString(rest).Some?
    ensures ReadString([c] + rest) == Some(([c] + ReadString(rest).value.0, ReadString(rest).value.1))
  {
    hide ReadString;
    assert ([c] + rest)[0] == c;
    ReadsOn([c], c, rest);
  }

  lemma UnitRead(s: JsString, tail: JsString)
    requires s != [] && !IsPair(s)
    requires ReadString(Escape(s[1..]) + tail).Some? && ReadString(Escape(s[1..]) + tail).value.0 == s[1..]
    ensures ReadString(Escape(s) + tail) == Some((s, ReadString(Escape(s[1..]) + tail).value.1))
  {
    hide *;
    var more := Escape(s[1..]) + tail;
    EscapedRest(s, tail);
    EscapedUnitRead(s[0], more);
    UnitIsNoMark(s[0]);
    ReadsOn(EscapeUnit(s[0]), s[0], more);
    assert s == [s[0]] + s[1..];
  }

  lemma {:induction false} EscapedRead(s: JsString, rest: JsString)
    ensures ReadString(Escape(s) + ([34] + rest)) == Some((s, rest))
    decreases |s|
  {
    var tail := [34] + rest;
    if s == [] {
      assert Escape(s) + tail == tail && tail[0] == 34 && tail[1..] == rest;
    } else if IsPair(s) {
      hide Escape, ReadString;
      EscapedRead(s[2..], rest);
      PairRead(s, tail);
    } else {
      hide Escape, ReadString;
      EscapedRead(s[1..], rest);
      UnitRead(s, tail);
    }
  }

  lemma UnitIsNoMark(c: int)
    ensures EscapeUnit(c) != [] && EscapeUnit(c)[0] != 34
  {
  }

  lemma QuoteIsLiteral(s: JsString)
    ensures IsLiteralOf(Quote(s), s)
  {
    EscapedRead(s, []);
    hide Escape, ReadString;
    assert [34] + [] == [34];
    assert Quote(s)[1..] == Escape(s) + [34];
  }

  // ── How a string is escaped ─────────────────────────────────────

  /** What must not stand in the text as it is: marks, control characters, and surrogates without a partner. */
  predicate MustEscape(c: int) {
    c == 34 || c == 92 || 0 <= c < 32 || 0xD800 <= c <= 0xDFFF
  }

  /** As it is unless it must be escaped; then the short escape if the grammar has one, else four lower-case digits. */
  ghost predicate ShortestFor(unit: JsString, c: int) {
    && (!MustEscape(c) <==> unit == [c])
    && (MustEscape(c) && (exists e :: ShortMeaning(e) == Some(c)) ==> |unit| == 2)
    && (MustEscape(c) && !(exists e :: ShortMeaning(e) == Some(c)) ==>
          |unit| == 6 && forall i :: 2 <= i < 6 ==> 48 <= unit[i] <= 57 || 97 <= unit[i] <= 102)
  }

  /** Whole surrogate pairs stand as they are, and every other unit as short as it can. */
  lemma EscapesAsLittleAsPossible(s: JsString)
    requires s != []
    ensures |s| >= 2 && 0xD800 <= s[0] <= 0xDBFF && 0xDC00 <= s[1] <= 0xDFFF ==> Escape(s) == [s[0], s[1]] + Escape(s[2..])
    ensures !(|s| >= 2 && 0xD800 <= s[0] <= 0xDBFF && 0xDC00 <= s[1] <= 0xDFFF) ==>
              exists unit: JsString :: Escape(s) == unit + Escape(s[1..]) && ShortestFor(unit, s[0])
  {
    UnitIsShort(s[0]);
    hide ShortestFor, EscapeUnit;
  }

  lemma UnitIsShort(c: int)
    ensures ShortestFor(EscapeUnit(c), c)
  {
    if ShortEscape(c) != 0 {
      assert ShortMeaning(ShortEscape(c)) == Some(c);
    } else {
      assert forall e :: ShortMeaning(e) == Some(c) ==> !MustEscape(c);
    }
    HexIsLower(c);
    hide HexEscape;
  }

  lemma HexIsLower(c: int)
    ensures 0 <= c < 0x10000 ==> forall i :: 2 <= i < 6 ==> 48 <= HexEscape(c)[i] <= 57 || 97 <= HexEscape(c)[i] <= 102
  {
    if 0 <= c < 0x10000 {
      HexDigits(c);
    }
  }

  // ── Lists ───────────────────────────────────────────────────────

  lemma {:induction false} ListedIs(texts: seq<JsString>, close: int)
    ensures Listed(texts, close) == Separated(texts) + [close]
  {
    if |texts| > 1 {
      ListedIs(texts[1..], close);
      assert texts[0] + ([44] + (Separated(texts[1..]) + [close])) == texts[0] + ([44] + Separated(texts[1..])) + [close];
    }
  }

  // ── Order ───────────────────────────────────────────────────────

  lemma {:induction false} LessPrecedes(a: JsString, b: JsString)
    requires TextLess(a, b)
    ensures Precedes(a, b)
  {
    if a == [] {
      assert a[..0] == b[..0];
    } else if a[0] == b[0] {
      LessPrecedes(a[1..], b[1..]);
      var n :| 0 <= n <= |a[1..]| && n < |b[1..]| && a[1..][..n] == b[1..][..n] && (n == |a[1..]| || a[1..][n] < b[1..][n]);
      assert a[..n + 1] == [a[0]] + a[1..][..n] && b[..n + 1] == [b[0]] + b[1..][..n];
    } else {
      assert a[..0] == b[..0];
    }
  }

  /** Where the sorted entries come from. */
  lemma SortedOrder(entries: seq<Entry>) returns (order: seq<nat>)
    requires NoDuplicates(entries)
    ensures Reorders(order, |entries|) && |Sort(KeyLess, entries)| == |entries|
    ensures forall i :: 0 <= i < |entries| ==> Sort(KeyLess, entries)[i] == entries[order[i]]
  {
    var es := Sort(KeyLess, entries);
    SortPermutes(KeyLess, entries);
    NoDuplicatesPermuted(entries, es);
    hide Sort, KeyLess;
    order := PositionsOf(entries, es);
  }

  lemma {:induction false} PositionsOf(entries: seq<Entry>, es: seq<Entry>) returns (order: seq<nat>)
    requires NoDuplicates(es) && forall e :: e in es ==> e in entries
    ensures |order| == |es| && forall i :: 0 <= i < |es| ==> order[i] < |entries| && es[i] == entries[order[i]]
    ensures forall i, j :: 0 <= i < j < |es| ==> order[i] != order[j]
  {
    order := [];
    if es != [] {
      var last := |es| - 1;
      order := PositionsOf(entries, es[..last]);
      assert es[last] in es;
      var k :| 0 <= k < |entries| && entries[k] == es[last];
      order := order + [k];
    }
  }

  // ── The law ─────────────────────────────────────────────────────

  /** Of every accepted value, the serializer's text is the canonical one. */
  lemma {:induction false} TextIsCanonical(v: Value, nfc: Normalizer)
    requires Serialize(v, nfc).Some?
    ensures Writes(v, Serialize(v, nfc).value, nfc)
    decreases v
  {
    match v {
      case Null =>
      case Boolean(_) =>
      case Text(s) => QuoteIsLiteral(nfc(s));
      case Num(_) =>
      case Arr(items) =>
        var texts := SerializeAll(items, nfc).value;
        ListedIs(texts, CLOSE_BRACKET);
        forall i | 0 <= i < |items| ensures Writes(items[i], texts[i], nfc) {
          TextIsCanonical(items[i], nfc);
        }
      case Obj(props) =>
        forall i | 0 <= i < |props| ensures Serialize(props[i].value, nfc).Some? && Writes(props[i].value, Serialize(props[i].value, nfc).value, nfc) {
          assert SerializeProps(props, nfc).value[i].key == nfc(props[i].key);
          TextIsCanonical(props[i].value, nfc);
        }
        ObjectIsWritten(props, nfc);
    }
  }

  lemma ObjectIsWritten(props: seq<Prop>, nfc: Normalizer)
    requires Serialize(Obj(props), nfc).Some?
    requires forall i :: 0 <= i < |props| ==>
               Serialize(props[i].value, nfc).Some? && Writes(props[i].value, Serialize(props[i].value, nfc).value, nfc)
    ensures Writes(Obj(props), Serialize(Obj(props), nfc).value, nfc)
  {
    var entries := SerializeProps(props, nfc).value;
    assert |entries| == |props| && forall i :: 0 <= i < |props| ==>
      entries[i].key == nfc(props[i].key) && Serialize(props[i].value, nfc) == Some(entries[i].text);
    KeysOrderEntries(props, nfc);
    var t := [OPEN_BRACE] + Listed(EntryTexts(Sort(KeyLess, entries)), CLOSE_BRACE);
    assert Serialize(Obj(props), nfc) == Some(t);
    hide Serialize, SerializeProps, Listed, EntryTexts, Sort, KeyLess, StrictTotalOn, NoDuplicates, Writes, EntryText;
    var order := SortedOrder(entries);
    KeysAscend(entries, Sort(KeyLess, entries));
    var keys, texts := EntriesWritten(props, entries, order, nfc);
    ObjectWrites(props, t, order, keys, texts, nfc);
  }

  /** The two columns of the printed entries. */
  lemma EntriesWritten(props: seq<Prop>, entries: seq<Entry>, order: seq<nat>, nfc: Normalizer)
      returns (keys: seq<JsString>, texts: seq<JsString>)
    requires |entries| == |props| && Reorders(order, |props|) && |Sort(KeyLess, entries)| == |props|
    requires forall i :: 0 <= i < |props| ==> Sort(KeyLess, entries)[i] == entries[order[i]] && entries[i].key == nfc(props[i].key)
    ensures |keys| == |props| && |texts| == |props|
    ensures forall i :: 0 <= i < |props| ==> IsLiteralOf(keys[i], nfc(props[order[i]].key)) && texts[i] == entries[order[i]].text
    ensures [OPEN_BRACE] + Listed(EntryTexts(Sort(KeyLess, entries)), CLOSE_BRACE) == [123] + (Separated(Members(keys, texts)) + [125])
  {
    hide Sort, KeyLess, Quote, IsLiteralOf, Listed, Separated;
    var es := Sort(KeyLess, entries);
    keys := seq(|props|, i requires 0 <= i < |props| => Quote(es[i].key));
    texts := seq(|props|, i requires 0 <= i < |props| => es[i].text);
    ListedIs(EntryTexts(es), CLOSE_BRACE);
    assert EntryTexts(es) == Members(keys, texts);
    forall i | 0 <= i < |props| ensures IsLiteralOf(keys[i], nfc(props[order[i]].key)) {
      QuoteIsLiteral(es[i].key);
    }
  }

  lemma ObjectWrites(props: seq<Prop>, t: JsString, order: seq<nat>, keys: seq<JsString>, texts: seq<JsString>,
      nfc: Normalizer)
    requires Reorders(order, |props|) && |keys| == |props| && |texts| == |props|
    requires forall i :: 0 <= i < |props| ==> IsLiteralOf(keys[i], nfc(props[order[i]].key)) && Writes(props[order[i]].value, texts[i], nfc)
    requires forall i, j :: 0 <= i < j < |props| ==> Precedes(nfc(props[order[i]].key), nfc(props[order[j]].key))
    requires t == [123] + (Separated(Members(keys, texts)) + [125])
    ensures Writes(Obj(props), t, nfc)
  {
    hide IsLiteralOf, Precedes, Separated, Members;
  }

  lemma KeysAscend(entries: seq<Entry>, es: seq<Entry>)
    requires StrictTotalOn(KeyLess, entries) && NoDuplicates(entries) && es == Sort(KeyLess, entries)
    ensures forall i, j :: 0 <= i < j < |es| ==> Precedes(es[i].key, es[j].key)
  {
    SortPermutes(KeyLess, entries);
    SortSorts(KeyLess, entries);
    NoDuplicatesPermuted(entries, es);
    forall i, j | 0 <= i < j < |es| ensures Precedes(es[i].key, es[j].key) {
      assert es[i] in entries && es[j] in entries && !KeyLess(es[j], es[i]) && es[i] != es[j];
      LessPrecedes(es[i].key, es[j].key);
    }
  }

  /** The serializer rejects a value, or writes its canonical text. */
  lemma AcceptedIsWritten(v: Value, nfc: Normalizer)
    ensures match Serialize(v, nfc) case None => !Acceptable(v, nfc) case Some(t) => Acceptable(v, nfc) && Writes(v, t, nfc)
  {
    hide Serialize, Writes, Acceptable;
    AcceptsExactly(v, nfc);
    if Serialize(v, nfc).Some? {
      TextIsCanonical(v, nfc);
    }
  }
}
