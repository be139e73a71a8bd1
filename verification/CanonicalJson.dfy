/**
 * Canonical campaign JSON: the serializer that feeds the policy and coverage hashes. `nfc` stands for
 * `String.prototype.normalize('NFC')`; the laws of this module hold for every function in its place.
 */
module CanonicalJson {
  import opened Wrappers
  import opened Sorting
  import opened JsonText

  datatype Number = Finite(text: NumberText) | NegativeZero | NonFinite

  /**
   * A JavaScript value as the serializer distinguishes it. `Foreign` is everything it rejects on sight: undefined,
   * functions, big integers, symbols, non-plain arrays and objects, symbol keys and stray array properties;
   * a hole, an accessor or a hidden property is Foreign in its place.
   */
  datatype Value =
    | Null
    | Boolean(b: bool)
    | Text(s: JsString)
    | Num(n: Number)
    | Arr(items: seq<Value>)
    | Obj(props: seq<Prop>)
    | Foreign

  datatype Prop = Prop(key: JsString, value: Value)

  type Normalizer = JsString -> JsString

  /** A property ready to print. */
  datatype Entry = Entry(key: JsString, text: JsString)

  predicate KeyLess(a: Entry, b: Entry) {
    TextLess(a.key, b.key)
  }

  const NULL_TEXT: JsString := [110, 117, 108, 108]
  const TRUE_TEXT: JsString := [116, 114, 117, 101]
  const FALSE_TEXT: JsString := [102, 97, 108, 115, 101]

  function TextOfNumber(n: Number): Option<JsString> {
    match n
    case Finite(text) => Some(text)
    case NegativeZero => Some(ZERO)
    case NonFinite => None
  }

  /** Elements separated by commas, up to and including the closing mark. */
  function Listed(texts: seq<JsString>, close: int): JsString
  {
    if texts == [] then [close]
    else if |texts| == 1 then texts[0] + [close]
    else texts[0] + ([COMMA] + Listed(texts[1..], close))
  }

  function EntryText(e: Entry): JsString {
    Quote(e.key) + ([COLON] + e.text)
  }

  function EntryTexts(es: seq<Entry>): (r: seq<JsString>)
    ensures |r| == |es|
    ensures forall i :: 0 <= i < |es| ==> r[i] == EntryText(es[i])
  {
    if es == [] then [] else [EntryText(es[0])] + EntryTexts(es[1..])
  }

  /** No two keys are the same after normalization. */
  predicate DistinctKeys(props: seq<Prop>, nfc: Normalizer) {
    forall i, j :: 0 <= i < j < |props| ==> nfc(props[i].key) != nfc(props[j].key)
  }

  // ── canonicalSerialize ──────────────────────────────────────────

  /** None stands for the TypeError. */
  function Serialize(v: Value, nfc: Normalizer): (r: Option<JsString>)
    decreases v
  {
    match v
    case Null => Some(NULL_TEXT)
    case Boolean(b) => Some(if b then TRUE_TEXT else FALSE_TEXT)
    case Text(s) => Some(Quote(nfc(s)))
    case Num(n) => TextOfNumber(n)
    case Arr(items) =>
      (match SerializeAll(items, nfc)
       case None => None
       case Some(texts) => Some([OPEN_BRACKET] + Listed(texts, CLOSE_BRACKET)))
    case Obj(props) =>
      if !DistinctKeys(props, nfc) then None
      else
        (match SerializeProps(props, nfc)
         case None => None
         case Some(entries) => Some([OPEN_BRACE] + Listed(EntryTexts(Sort(KeyLess, entries)), CLOSE_BRACE)))
    case Foreign => None
  }

  function SerializeAll(items: seq<Value>, nfc: Normalizer): (r: Option<seq<JsString>>)
    ensures r.Some? ==> |r.value| == |items|
    ensures r.Some? ==> forall i :: 0 <= i < |items| ==> Serialize(items[i], nfc) == Some(r.value[i])
    decreases items
  {
    if items == [] then Some([])
    else
      match (Serialize(items[0], nfc), SerializeAll(items[1..], nfc))
      case (Some(text), Some(texts)) => Some([text] + texts)
      case _ => None
  }

  function SerializeProps(props: seq<Prop>, nfc: Normalizer): (r: Option<seq<Entry>>)
    ensures r.Some? ==> |r.value| == |props|
    ensures r.Some? ==> forall i :: 0 <= i < |props| ==>
              r.value[i].key == nfc(props[i].key) && Serialize(props[i].value, nfc) == Some(r.value[i].text)
    decreases props
  {
    if props == [] then Some([])
    else
      match (Serialize(props[0].value, nfc), SerializeProps(props[1..], nfc))
      case (Some(text), Some(entries)) => Some([Entry(nfc(props[0].key), text)] + entries)
      case _ => None
  }

  // ── Equality of values, up to what the text should not show ─────

  function SameNumber(n: Number): Number {
    if n == NegativeZero then Finite(ZERO) else n
  }

  /** Equal up to the order of keys, the normal form of strings and keys, and the sign of zero. */
  ghost predicate Equivalent(v: Value, w: Value, nfc: Normalizer)
    decreases v
  {
    match (v, w)
    case (Null, Null) => true
    case (Boolean(a), Boolean(b)) => a == b
    case (Text(s), Text(t)) => nfc(s) == nfc(t)
    case (Num(m), Num(n)) => SameNumber(m) == SameNumber(n)
    case (Arr(a), Arr(b)) =>
      |a| == |b| && forall i :: 0 <= i < |a| ==> Equivalent(a[i], b[i], nfc)
    case (Obj(p), Obj(q)) =>
      && KeysWithin(p, q, nfc) && KeysWithin(q, p, nfc)
      && forall i, j :: 0 <= i < |p| && 0 <= j < |q| && nfc(p[i].key) == nfc(q[j].key) ==> Equivalent(p[i].value, q[j].value, nfc)
    case _ => false
  }

  ghost predicate HasKey(props: seq<Prop>, key: JsString, nfc: Normalizer) {
    exists j :: 0 <= j < |props| && nfc(props[j].key) == key
  }

  ghost predicate KeysWithin(p: seq<Prop>, q: seq<Prop>, nfc: Normalizer) {
    forall i :: 0 <= i < |p| ==> HasKey(q, nfc(p[i].key), nfc)
  }
}
