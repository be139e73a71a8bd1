/**
 * Two accepted values have the same canonical text exactly when they are equal up to key order, normal form and
 * the sign of zero: the text is order-blind, and a hash of it loses nothing else.
 */
module CanonicalJsonLaws {
  import opened Wrappers
  import opened Sorting
  import opened JsonText
  import opened CanonicalJson

  // ── The text determines the value ───────────────────────────────

  /** What may stand after a value inside a text: nothing that could prolong a number. */
  predicate Stops(rest: JsString) {
    rest == [] || rest[0] == COMMA || rest[0] == CLOSE_BRACKET || rest[0] == CLOSE_BRACE
  }

  /** The first unit of a value's text tells what kind of value it is. */
  predicate LeadOf(v: Value, c: int) {
    match v
    case Null => c == 110
    case Boolean(b) => c == if b then 116 else 102
    case Text(_) => c == QUOTATION
    case Num(_) => IsDigit(c) || c == 45
    case Arr(_) => c == OPEN_BRACKET
    case Obj(_) => c == OPEN_BRACE
    case Foreign => false
  }

  lemma FirstUnit(v: Value, nfc: Normalizer)
    requires Serialize(v, nfc).Some?
    ensures Serialize(v, nfc).value != [] && LeadOf(v, Serialize(v, nfc).value[0])
  {
    hide SerializeAll, SerializeProps, DistinctKeys, Escape, Listed, EntryTexts;
  }

  /** How many number units a text starts with. */
  function Span(s: JsString): nat {
    if s == [] || !IsNumberUnit(s[0]) then 0 else 1 + Span(s[1..])
  }

  lemma {:induction false} SpanOfNumber(s: JsString, x: JsString)
    requires (forall i :: 0 <= i < |s| ==> IsNumberUnit(s[i])) && Stops(x)
    ensures Span(s + x) == |s|
  {
    if s == [] {
      assert s + x == x;
    } else {
      assert (s + x)[1..] == s[1..] + x;
      SpanOfNumber(s[1..], x);
    }
  }

  lemma NumberIsReadable(s: JsString, t: JsString, x: JsString, y: JsString)
    requires forall i :: 0 <= i < |s| ==> IsNumberUnit(s[i])
    requires forall i :: 0 <= i < |t| ==> IsNumberUnit(t[i])
    requires s + x == t + y && Stops(x) && Stops(y)
    ensures s == t && x == y
  {
    SpanOfNumber(s, x);
    SpanOfNumber(t, y);
    assert (s + x)[..|s|] == s && (t + y)[..|t|] == t;
    assert (s + x)[|s|..] == x && (t + y)[|t|..] == y;
  }

  /** A list starts with the closing mark exactly when it is empty. */
  lemma ListedHead(texts: seq<JsString>, close: int, rest: JsString)
    requires texts != []
    ensures Listed(texts, close) + rest
         == texts[0] + (if |texts| == 1 then [close] + rest else [COMMA] + (Listed(texts[1..], close) + rest))
    ensures |texts[0]| < |Listed(texts, close)|
    ensures |texts| > 1 ==> |Listed(texts[1..], close)| < |Listed(texts, close)|
  {
  }

  predicate Printed(items: seq<Value>, texts: seq<JsString>, nfc: Normalizer) {
    |items| == |texts| && forall i :: 0 <= i < |items| ==> Serialize(items[i], nfc) == Some(texts[i])
  }

  /** The property at `i` is the one printed as `e`. */
  predicate Prints(props: seq<Prop>, i: int, e: Entry, nfc: Normalizer) {
    0 <= i < |props| && nfc(props[i].key) == e.key && Serialize(props[i].value, nfc) == Some(e.text)
  }

  /** Some property is printed as `e`. */
  ghost predicate IsPrint(props: seq<Prop>, e: Entry, nfc: Normalizer) {
    exists i :: Prints(props, i, e, nfc)
  }

  ghost predicate AllPrints(props: seq<Prop>, es: seq<Entry>, nfc: Normalizer) {
    forall e :: e in es ==> IsPrint(props, e, nfc)
  }

  /** The property at `i` is printed somewhere among `es`. */
  ghost predicate IsPrinted(props: seq<Prop>, i: int, es: seq<Entry>, nfc: Normalizer) {
    exists e :: e in es && Prints(props, i, e, nfc)
  }

  ghost predicate AllPrinted(props: seq<Prop>, es: seq<Entry>, nfc: Normalizer) {
    forall i :: 0 <= i < |props| ==> IsPrinted(props, i, es, nfc)
  }

  /** The first unit tells the kinds of value apart. */
  lemma SameKind(v: Value, w: Value, a: JsString, b: JsString, x: JsString, y: JsString, nfc: Normalizer)
    requires Serialize(v, nfc) == Some(a) && Serialize(w, nfc) == Some(b) && a + x == b + y
    ensures v.Null? == w.Null? && v.Boolean? == w.Boolean? && (v.Boolean? ==> v == w)
    ensures v.Text? == w.Text? && v.Num? == w.Num? && v.Arr? == w.Arr? && v.Obj? == w.Obj?
  {
    FirstUnit(v, nfc);
    FirstUnit(w, nfc);
    assert a[0] == (a + x)[0] == (b + y)[0] == b[0];
    hide SerializeAll, SerializeProps, DistinctKeys, Quote, Listed, EntryTexts, Sort, KeysWithin, TextOfNumber;
  }

  lemma SameLength(a: JsString, b: JsString, x: JsString, y: JsString)
    requires a + x == b + y && a == b
    ensures x == y
  {
    assert (a + x)[|a|..] == x && (b + y)[|b|..] == y;
  }

  lemma {:induction false} Readable(v: Value, w: Value, a: JsString, b: JsString, x: JsString, y: JsString,
      nfc: Normalizer)
    requires Serialize(v, nfc) == Some(a) && Serialize(w, nfc) == Some(b)
    requires a + x == b + y && Stops(x) && Stops(y)
    ensures a == b && x == y && Equivalent(v, w, nfc)
    decreases |a|, 1
  {
    hide SerializeAll, SerializeProps, DistinctKeys, Quote, Listed, EntryTexts, Sort, KeysWithin;
    SameKind(v, w, a, b, x, y, nfc);
    match v {
      case Null => SameLength(a, b, x, y);
      case Boolean(c) => SameLength(a, b, x, y);
      case Text(s) => QuoteIsReadable(nfc(s), nfc(w.s), x, y);
      case Num(m) => NumberIsReadable(a, b, x, y);
      case Arr(items) => ArrayIsReadable(items, w.items, a, b, x, y, nfc);
      case Obj(props) => ObjectIsReadable(props, w.props, a, b, x, y, nfc);
    }
  }

  lemma {:induction false} ArrayIsReadable(items: seq<Value>, others: seq<Value>, a: JsString, b: JsString, x: JsString,
      y: JsString, nfc: Normalizer)
    requires Serialize(Arr(items), nfc) == Some(a) && Serialize(Arr(others), nfc) == Some(b)
    requires a + x == b + y
    ensures a == b && x == y && Equivalent(Arr(items), Arr(others), nfc)
    decreases |a|, 0
  {
    hide SerializeAll, Listed;
    var texts, otherTexts := SerializeAll(items, nfc).value, SerializeAll(others, nfc).value;
    assert (a + x)[1..] == Listed(texts, CLOSE_BRACKET) + x;
    assert (b + y)[1..] == Listed(otherTexts, CLOSE_BRACKET) + y;
    ListIsReadable(items, texts, others, otherTexts, x, y, nfc);
  }

  lemma {:induction false} ListIsReadable(items: seq<Value>, texts: seq<JsString>, others: seq<Value>,
      otherTexts: seq<JsString>, x: JsString, y: JsString, nfc: Normalizer)
    requires Printed(items, texts, nfc) && Printed(others, otherTexts, nfc)
    requires Listed(texts, CLOSE_BRACKET) + x == Listed(otherTexts, CLOSE_BRACKET) + y
    ensures texts == otherTexts && x == y
    ensures forall i :: 0 <= i < |items| ==> Equivalent(items[i], others[i], nfc)
    decreases |Listed(texts, CLOSE_BRACKET)|, |texts| + 1
  {
    hide Serialize, Equivalent;
    var s, t := Listed(texts, CLOSE_BRACKET) + x, Listed(otherTexts, CLOSE_BRACKET) + y;
    if texts != [] {
      FirstUnit(items[0], nfc);
      ListedHead(texts, CLOSE_BRACKET, x);
    }
    if otherTexts != [] {
      FirstUnit(others[0], nfc);
      ListedHead(otherTexts, CLOSE_BRACKET, y);
    }
    if texts == [] || otherTexts == [] {
      assert s[0] == t[0];
      assert s[1..] == x && t[1..] == y;
    } else {
      var x' := if |texts| == 1 then [CLOSE_BRACKET] + x else [COMMA] + (Listed(texts[1..], CLOSE_BRACKET) + x);
      var y' := if |otherTexts| == 1 then [CLOSE_BRACKET] + y else [COMMA] + (Listed(otherTexts[1..], CLOSE_BRACKET) + y);
      Readable(items[0], others[0], texts[0], otherTexts[0], x', y', nfc);
      assert x'[0] == y'[0] && x'[1..] == y'[1..];
      if |texts| == 1 {
        assert texts == [texts[0]] && otherTexts == [otherTexts[0]];
      } else {
        ListIsReadable(items[1..], texts[1..], others[1..], otherTexts[1..], x, y, nfc);
        assert texts == [texts[0]] + texts[1..] && otherTexts == [otherTexts[0]] + otherTexts[1..];
        forall i | 0 <= i < |items| ensures Equivalent(items[i], others[i], nfc) {
          if i > 0 {
            assert items[i] == items[1..][i - 1] && others[i] == others[1..][i - 1];
          }
        }
      }
    }
  }

  lemma {:induction false} ObjectIsReadable(p: seq<Prop>, q: seq<Prop>, a: JsString, b: JsString, x: JsString,
      y: JsString, nfc: Normalizer)
    requires Serialize(Obj(p), nfc) == Some(a) && Serialize(Obj(q), nfc) == Some(b)
    requires a + x == b + y
    ensures a == b && x == y && Equivalent(Obj(p), Obj(q), nfc)
    decreases |a|, 0
  {
    hide SerializeProps, Listed, EntryTexts, Sort, DistinctKeys;
    var entries, others := SerializeProps(p, nfc).value, SerializeProps(q, nfc).value;
    var es, fs := Sort(KeyLess, entries), Sort(KeyLess, others);
    var s, t := Listed(EntryTexts(es), CLOSE_BRACE), Listed(EntryTexts(fs), CLOSE_BRACE);
    assert (a + x)[1..] == s + x && (b + y)[1..] == t + y;
    SortedArePrinted(p, nfc);
    SortedArePrinted(q, nfc);
    EntriesAreReadable(p, es, q, fs, x, y, nfc);
    SameEntriesSameObject(p, q, es, nfc);
  }

  /** The printed entries are those of the properties, all of them. */
  lemma SortedArePrinted(p: seq<Prop>, nfc: Normalizer)
    requires SerializeProps(p, nfc).Some?
    ensures AllPrints(p, Sort(KeyLess, SerializeProps(p, nfc).value), nfc)
    ensures AllPrinted(p, Sort(KeyLess, SerializeProps(p, nfc).value), nfc)
  {
    hide Serialize, KeyLess, Sort;
    var entries := SerializeProps(p, nfc).value;
    var es := Sort(KeyLess, entries);
    SortPermutes(KeyLess, entries);
    forall e | e in es ensures IsPrint(p, e, nfc) {
      var i :| 0 <= i < |entries| && entries[i] == e;
      assert Prints(p, i, e, nfc);
    }
    forall i | 0 <= i < |p| ensures IsPrinted(p, i, es, nfc) {
      assert entries[i] in es && Prints(p, i, entries[i], nfc);
    }
  }

  lemma {:induction false} EntriesAreReadable(p: seq<Prop>, es: seq<Entry>, q: seq<Prop>, fs: seq<Entry>, x: JsString,
      y: JsString, nfc: Normalizer)
    requires AllPrints(p, es, nfc) && AllPrints(q, fs, nfc)
    requires Listed(EntryTexts(es), CLOSE_BRACE) + x == Listed(EntryTexts(fs), CLOSE_BRACE) + y
    ensures es == fs && x == y
    ensures forall k, i, j :: 0 <= k < |es| && Prints(p, i, es[k], nfc) && Prints(q, j, fs[k], nfc) ==>
              Equivalent(p[i].value, q[j].value, nfc)
    decreases |Listed(EntryTexts(es), CLOSE_BRACE)|, |es| + 1
  {
    hide Serialize, Equivalent, Quote;
    var texts, others := EntryTexts(es), EntryTexts(fs);
    var s, t := Listed(texts, CLOSE_BRACE) + x, Listed(others, CLOSE_BRACE) + y;
    if es != [] {
      ListedHead(texts, CLOSE_BRACE, x);
      EntryHead(es[0]);
    }
    if fs != [] {
      ListedHead(others, CLOSE_BRACE, y);
      EntryHead(fs[0]);
    }
    if es == [] || fs == [] {
      assert s[0] == t[0];
      assert s[1..] == x && t[1..] == y;
    } else {
      var x' := if |texts| == 1 then [CLOSE_BRACE] + x else [COMMA] + (Listed(texts[1..], CLOSE_BRACE) + x);
      var y' := if |others| == 1 then [CLOSE_BRACE] + y else [COMMA] + (Listed(others[1..], CLOSE_BRACE) + y);
      assert s == texts[0] + x' && t == others[0] + y';
      EntryIsReadable(p, es[0], q, fs[0], x', y', nfc);
      assert x'[0] == y'[0] && x'[1..] == y'[1..];
      if |texts| == 1 {
        assert es == [es[0]] && fs == [fs[0]];
      } else {
        assert texts[1..] == EntryTexts(es[1..]) && others[1..] == EntryTexts(fs[1..]);
        EntriesAreReadable(p, es[1..], q, fs[1..], x, y, nfc);
        assert es == [es[0]] + es[1..] && fs == [fs[0]] + fs[1..];
        forall k, i, j | 0 <= k < |es| && Prints(p, i, es[k], nfc) && Prints(q, j, fs[k], nfc)
          ensures Equivalent(p[i].value, q[j].value, nfc)
        {
          if k > 0 {
            assert es[k] == es[1..][k - 1] && fs[k] == fs[1..][k - 1];
          }
        }
      }
    }
  }

  lemma EntryHead(e: Entry)
    ensures EntryText(e) != [] && EntryText(e)[0] == QUOTATION
    ensures |e.text| < |EntryText(e)|
  {
    hide Escape;
  }

  lemma {:induction false} EntryIsReadable(p: seq<Prop>, e: Entry, q: seq<Prop>, f: Entry, x: JsString, y: JsString,
      nfc: Normalizer)
    requires IsPrint(p, e, nfc) && IsPrint(q, f, nfc)
    requires EntryText(e) + x == EntryText(f) + y && Stops(x) && Stops(y)
    ensures e == f && x == y
    ensures forall i, j :: Prints(p, i, e, nfc) && Prints(q, j, f, nfc) ==> Equivalent(p[i].value, q[j].value, nfc)
    decreases |EntryText(e)|, 0
  {
    hide Serialize, Equivalent, Quote;
    EntryHead(e);
    assert EntryText(e) + x == Quote(e.key) + ([COLON] + (e.text + x));
    assert EntryText(f) + y == Quote(f.key) + ([COLON] + (f.text + y));
    QuoteIsReadable(e.key, f.key, [COLON] + (e.text + x), [COLON] + (f.text + y));
    assert ([COLON] + (e.text + x))[1..] == e.text + x;
    assert ([COLON] + (f.text + y))[1..] == f.text + y;
    forall i, j | Prints(p, i, e, nfc) && Prints(q, j, f, nfc)
      ensures Equivalent(p[i].value, q[j].value, nfc) && e.text == f.text && x == y
    {
      Readable(p[i].value, q[j].value, e.text, f.text, x, y, nfc);
    }
  }

  lemma SameEntriesSameObject(p: seq<Prop>, q: seq<Prop>, es: seq<Entry>, nfc: Normalizer)
    requires DistinctKeys(p, nfc) && DistinctKeys(q, nfc)
    requires AllPrints(p, es, nfc) && AllPrints(q, es, nfc)
    requires AllPrinted(p, es, nfc) && AllPrinted(q, es, nfc)
    requires forall k, i, j :: 0 <= k < |es| && Prints(p, i, es[k], nfc) && Prints(q, j, es[k], nfc) ==>
              Equivalent(p[i].value, q[j].value, nfc)
    ensures Equivalent(Obj(p), Obj(q), nfc)
  {
    hide Serialize;
    KeysOfEntries(p, q, es, nfc);
    KeysOfEntries(q, p, es, nfc);
    forall i, j | 0 <= i < |p| && 0 <= j < |q| && nfc(p[i].key) == nfc(q[j].key)
      ensures Equivalent(p[i].value, q[j].value, nfc)
    {
      assert IsPrinted(p, i, es, nfc);
      var e :| e in es && Prints(p, i, e, nfc);
      OnlyPrint(q, j, e, nfc);
      var k :| 0 <= k < |es| && es[k] == e;
    }
  }

  /** With distinct keys, the key tells which property an entry prints. */
  lemma OnlyPrint(q: seq<Prop>, j: int, e: Entry, nfc: Normalizer)
    requires DistinctKeys(q, nfc) && IsPrint(q, e, nfc)
    requires 0 <= j < |q| && nfc(q[j].key) == e.key
    ensures Prints(q, j, e, nfc)
  {
    hide Serialize;
    var j' :| Prints(q, j', e, nfc);
    assert j' == j;
  }

  lemma KeysOfEntries(p: seq<Prop>, q: seq<Prop>, es: seq<Entry>, nfc: Normalizer)
    requires AllPrints(q, es, nfc) && AllPrinted(p, es, nfc)
    ensures KeysWithin(p, q, nfc)
  {
    hide Serialize;
    forall i | 0 <= i < |p| ensures HasKey(q, nfc(p[i].key), nfc) {
      assert IsPrinted(p, i, es, nfc);
      var e :| e in es && Prints(p, i, e, nfc);
      var j :| Prints(q, j, e, nfc);
    }
  }

  // ── The value determines the text ───────────────────────────────

  /** Keys that are all different order the entries strictly. */
  lemma KeysOrderEntries(p: seq<Prop>, nfc: Normalizer)
    requires DistinctKeys(p, nfc) && SerializeProps(p, nfc).Some?
    ensures StrictTotalOn(KeyLess, SerializeProps(p, nfc).value)
    ensures NoDuplicates(SerializeProps(p, nfc).value)
  {
    hide Serialize, SerializeProps, TextLess;
    TextOrder();
    PropsPrinted(p, nfc);
    var entries := SerializeProps(p, nfc).value;
    forall a, b | a in entries && b in entries && a.key == b.key ensures a == b {
      var i :| 0 <= i < |entries| && entries[i] == a;
      var j :| 0 <= j < |entries| && entries[j] == b;
      assert i == j;
    }
  }

  lemma PropsPrinted(p: seq<Prop>, nfc: Normalizer)
    requires SerializeProps(p, nfc).Some?
    ensures |SerializeProps(p, nfc).value| == |p|
    ensures forall i :: 0 <= i < |p| ==> Prints(p, i, SerializeProps(p, nfc).value[i], nfc)
  {
    hide Serialize;
  }

  lemma {:induction false} EquivalentSameText(v: Value, w: Value, nfc: Normalizer)
    requires Serialize(v, nfc).Some? && Serialize(w, nfc).Some?
    requires Equivalent(v, w, nfc)
    ensures Serialize(v, nfc) == Serialize(w, nfc)
    decreases v
  {
    hide SerializeAll, SerializeProps, DistinctKeys, Quote, Listed, EntryTexts, Sort, KeysWithin;
    match v {
      case Arr(items) =>
        var texts, others := SerializeAll(items, nfc).value, SerializeAll(w.items, nfc).value;
        forall i | 0 <= i < |items| ensures texts[i] == others[i] {
          EquivalentSameText(items[i], w.items[i], nfc);
        }
        assert texts == others;
      case Obj(props) =>
        forall i, j | 0 <= i < |props| && 0 <= j < |w.props| && nfc(props[i].key) == nfc(w.props[j].key)
          ensures SerializeProps(props, nfc).value[i] == SerializeProps(w.props, nfc).value[j]
        {
          EquivalentSameText(props[i].value, w.props[j].value, nfc);
          PropsPrinted(props, nfc);
          PropsPrinted(w.props, nfc);
        }
        SameEntries(props, w.props, nfc);
      case _ =>
    }
  }

  lemma SameEntries(p: seq<Prop>, q: seq<Prop>, nfc: Normalizer)
    requires DistinctKeys(p, nfc) && DistinctKeys(q, nfc) && KeysWithin(p, q, nfc) && KeysWithin(q, p, nfc)
    requires SerializeProps(p, nfc).Some? && SerializeProps(q, nfc).Some?
    requires forall i, j :: 0 <= i < |p| && 0 <= j < |q| && nfc(p[i].key) == nfc(q[j].key) ==>
               SerializeProps(p, nfc).value[i] == SerializeProps(q, nfc).value[j]
    ensures Sort(KeyLess, SerializeProps(p, nfc).value) == Sort(KeyLess, SerializeProps(q, nfc).value)
  {
    hide Serialize, Sort, KeyLess;
    KeysOrderEntries(p, nfc);
    KeysOrderEntries(q, nfc);
    var entries, others := SerializeProps(p, nfc).value, SerializeProps(q, nfc).value;
    forall i | 0 <= i < |entries| ensures entries[i] in others {
      assert HasKey(q, nfc(p[i].key), nfc);
      var j :| 0 <= j < |q| && nfc(q[j].key) == nfc(p[i].key);
      assert entries[i] == others[j];
    }
    forall j | 0 <= j < |others| ensures others[j] in entries {
      assert HasKey(p, nfc(q[j].key), nfc);
      var i :| 0 <= i < |p| && nfc(p[i].key) == nfc(q[j].key);
      assert entries[i] == others[j];
    }
    SameElementsSameMultiset(entries, others);
    SortIsCanonical(KeyLess, entries, others);
  }

  // ── The law ─────────────────────────────────────────────────────

  /** Accepted values have the same canonical text exactly when they are equivalent. */
  lemma CanonicalTextIsFaithful(v: Value, w: Value, nfc: Normalizer)
    requires Serialize(v, nfc).Some? && Serialize(w, nfc).Some?
    ensures Serialize(v, nfc) == Serialize(w, nfc) <==> Equivalent(v, w, nfc)
  {
    hide Serialize, Equivalent;
    if Serialize(v, nfc) == Serialize(w, nfc) {
      var text := Serialize(v, nfc).value;
      Readable(v, w, text, text, [], [], nfc);
    }
    if Equivalent(v, w, nfc) {
      EquivalentSameText(v, w, nfc);
    }
  }

  // ── Rejection, and the order of properties ──────────────────────

  /** What the serializer accepts: finite numbers, plain data, and no key twice once normalized. */
  predicate Acceptable(v: Value, nfc: Normalizer) {
    match v
    case Null => true
    case Boolean(_) => true
    case Text(_) => true
    case Num(n) => n != NonFinite
    case Arr(items) => forall i :: 0 <= i < |items| ==> Acceptable(items[i], nfc)
    case Obj(props) =>
      && (forall i, j :: 0 <= i < j < |props| ==> nfc(props[i].key) != nfc(props[j].key))
      && forall i :: 0 <= i < |props| ==> Acceptable(props[i].value, nfc)
    case Foreign => false
  }

  lemma {:induction false} AcceptsExactly(v: Value, nfc: Normalizer)
    ensures Serialize(v, nfc).Some? <==> Acceptable(v, nfc)
    decreases v, 1
  {
    hide Quote, Listed, EntryTexts, Sort;
    match v {
      case Arr(items) => AcceptsAll(items, nfc);
      case Obj(props) => AcceptsProps(props, nfc);
      case _ =>
    }
  }

  lemma {:induction false} AcceptsAll(items: seq<Value>, nfc: Normalizer)
    ensures SerializeAll(items, nfc).Some? <==> forall i :: 0 <= i < |items| ==> Acceptable(items[i], nfc)
    decreases items
  {
    hide Serialize, Acceptable;
    if items != [] {
      AcceptsExactly(items[0], nfc);
      AcceptsAll(items[1..], nfc);
      if Acceptable(items[0], nfc) && SerializeAll(items[1..], nfc).Some? {
        forall i | 0 <= i < |items| ensures Acceptable(items[i], nfc) {
          if i > 0 {
            assert items[i] == items[1..][i - 1];
          }
        }
      }
    }
  }

  lemma {:induction false} AcceptsProps(props: seq<Prop>, nfc: Normalizer)
    ensures SerializeProps(props, nfc).Some? <==> forall i :: 0 <= i < |props| ==> Acceptable(props[i].value, nfc)
    decreases props
  {
    hide Serialize, Acceptable;
    if props != [] {
      AcceptsExactly(props[0].value, nfc);
      AcceptsProps(props[1..], nfc);
      if Acceptable(props[0].value, nfc) && SerializeProps(props[1..], nfc).Some? {
        forall i | 0 <= i < |props| ensures Acceptable(props[i].value, nfc) {
          if i > 0 {
            assert props[i] == props[1..][i - 1];
          }
        }
      }
    }
  }

  lemma DistinctKeysPermuted(p: seq<Prop>, q: seq<Prop>, nfc: Normalizer)
    requires multiset(p) == multiset(q) && DistinctKeys(p, nfc)
    ensures DistinctKeys(q, nfc)
  {
    var key := (prop: Prop) => nfc(prop.key);
    MapPermutes(key, p, q);
    NoDuplicatesPermuted(Map(key, p), Map(key, q));
    forall i, j | 0 <= i < j < |q| ensures nfc(q[i].key) != nfc(q[j].key) {
      assert Map(key, q)[i] != Map(key, q)[j];
    }
  }

  lemma AcceptedPermuted(p: seq<Prop>, q: seq<Prop>, nfc: Normalizer)
    requires multiset(p) == multiset(q) && Acceptable(Obj(p), nfc)
    ensures Acceptable(Obj(q), nfc)
  {
    hide DistinctKeys;
    DistinctKeysPermuted(p, q, nfc);
    SameMultisetSameElements(p, q);
    forall j | 0 <= j < |q| ensures Acceptable(q[j].value, nfc) {
      assert q[j] in p;
      var i :| 0 <= i < |p| && p[i] == q[j];
    }
  }

  lemma {:induction false} EquivalentToItself(v: Value, nfc: Normalizer)
    requires Acceptable(v, nfc)
    ensures Equivalent(v, v, nfc)
  {
    match v {
      case Arr(items) =>
        forall i | 0 <= i < |items| ensures Equivalent(items[i], items[i], nfc) {
          EquivalentToItself(items[i], nfc);
        }
      case Obj(props) =>
        forall i, j | 0 <= i < |props| && 0 <= j < |props| && nfc(props[i].key) == nfc(props[j].key)
          ensures Equivalent(props[i].value, props[j].value, nfc)
        {
          assert i == j;
          EquivalentToItself(props[i].value, nfc);
        }
      case _ =>
    }
  }

  lemma EquivalentPermuted(p: seq<Prop>, q: seq<Prop>, nfc: Normalizer)
    requires multiset(p) == multiset(q) && Acceptable(Obj(p), nfc)
    ensures Equivalent(Obj(p), Obj(q), nfc)
  {
    SameMultisetSameElements(p, q);
    KeysPermuted(p, q, nfc);
    KeysPermuted(q, p, nfc);
    forall i, j | 0 <= i < |p| && 0 <= j < |q| && nfc(p[i].key) == nfc(q[j].key)
      ensures Equivalent(p[i].value, q[j].value, nfc)
    {
      assert q[j] in p;
      var k :| 0 <= k < |p| && p[k] == q[j];
      assert k == i;
      EquivalentToItself(p[i].value, nfc);
    }
  }

  lemma KeysPermuted(p: seq<Prop>, q: seq<Prop>, nfc: Normalizer)
    requires forall x :: x in p ==> x in q
    ensures KeysWithin(p, q, nfc)
  {
    forall i | 0 <= i < |p| ensures HasKey(q, nfc(p[i].key), nfc) {
      assert p[i] in q;
      var j :| 0 <= j < |q| && q[j] == p[i];
    }
  }

  /** The order in which the properties of an object were written never shows: same text, or both rejected. */
  lemma PropertyOrderIsInvisible(p: seq<Prop>, q: seq<Prop>, nfc: Normalizer)
    requires multiset(p) == multiset(q)
    ensures Serialize(Obj(p), nfc) == Serialize(Obj(q), nfc)
  {
    hide Serialize, Acceptable, Equivalent;
    AcceptsExactly(Obj(p), nfc);
    AcceptsExactly(Obj(q), nfc);
    if Acceptable(Obj(p), nfc) {
      AcceptedPermuted(p, q, nfc);
      EquivalentPermuted(p, q, nfc);
      EquivalentSameText(Obj(p), Obj(q), nfc);
    } else if Acceptable(Obj(q), nfc) {
      AcceptedPermuted(q, p, nfc);
    }
  }
}
