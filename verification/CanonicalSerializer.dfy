/**
 * canonicalSerialize as it is written: loops that fill arrays, a set of the keys seen so far, and a sort in
 * place before the entries are printed. It computes `CanonicalJson.Serialize`.
 */
module CanonicalSerializer {
  import opened Wrappers
  import opened Sorting
  import opened JsonText
  import opened CanonicalJson
  import opened CanonicalJsonLaws
  import opened CanonicalText

  predicate PropLess(a: Prop, b: Prop) {
    TextLess(a.key, b.key)
  }

  function Normalized(p: Prop, nfc: Normalizer): Prop {
    Prop(nfc(p.key), p.value)
  }

  function NormalizedProps(props: seq<Prop>, nfc: Normalizer): (r: seq<Prop>) {
    Map((p: Prop) => Normalized(p, nfc), props)
  }

  function AppendedTo<T>(done: seq<T>, rest: Option<seq<T>>): Option<seq<T>> {
    match rest case None => None case Some(more) => Some(done + more)
  }

  lemma AppendLaws<T>(done: seq<T>, one: T, more: seq<T>)
    ensures [] + more == more && done + [] == done
    ensures done + ([one] + more) == (done + [one]) + more
  {
  }

  lemma AppendedOne<T>(done: seq<T>, one: T, rest: Option<seq<T>>)
    ensures AppendedTo(done + [one], rest) == AppendedTo(done, match rest case None => None case Some(more) => Some([one] + more))
    ensures AppendedTo([], rest) == rest
  {
    if rest.Some? {
      AppendLaws(done, one, rest.value);
    }
  }

  lemma SerializeAllStep(items: seq<Value>, i: nat, nfc: Normalizer)
    requires i < |items|
    ensures SerializeAll(items[i..], nfc)
         == match (Serialize(items[i], nfc), SerializeAll(items[i + 1..], nfc))
            case (Some(text), Some(texts)) => Some([text] + texts)
            case _ => None
  {
    hide Serialize;
    assert items[i..][1..] == items[i + 1..];
  }

  lemma SerializeSortedStep(entries: seq<Prop>, i: nat, nfc: Normalizer)
    requires i < |entries|
    ensures SerializeSorted(entries[i..], nfc)
         == match (Serialize(entries[i].value, nfc), SerializeSorted(entries[i + 1..], nfc))
            case (Some(text), Some(texts)) => Some([EntryText(Entry(entries[i].key, text))] + texts)
            case _ => None
  {
    hide Serialize, EntryText;
    assert entries[i..][1..] == entries[i + 1..];
  }

  /** The final `map` over the sorted entries. */
  function SerializeSorted(entries: seq<Prop>, nfc: Normalizer): (r: Option<seq<JsString>>)
  {
    if entries == [] then Some([])
    else
      match (Serialize(entries[0].value, nfc), SerializeSorted(entries[1..], nfc))
      case (Some(text), Some(texts)) => Some([EntryText(Entry(entries[0].key, text))] + texts)
      case _ => None
  }

  // ── Sorting before printing is printing before sorting ──────────

  /** A property as an entry; the text of a rejected value does not matter. */
  function Printed(p: Prop, nfc: Normalizer): Entry {
    Entry(p.key, match Serialize(p.value, nfc) case None => [] case Some(text) => text)
  }

  predicate AllAccepted(entries: seq<Prop>, nfc: Normalizer) {
    forall i :: 0 <= i < |entries| ==> Serialize(entries[i].value, nfc).Some?
  }

  lemma {:induction false} SortedTexts(entries: seq<Prop>, nfc: Normalizer)
    ensures SerializeSorted(entries, nfc)
         == if AllAccepted(entries, nfc) then Some(EntryTexts(Map((p: Prop) => Printed(p, nfc), entries))) else None
  {
    hide Serialize, EntryText;
    if entries != [] {
      SortedTexts(entries[1..], nfc);
      AcceptedTail(entries, nfc);
      assert Map((p: Prop) => Printed(p, nfc), entries)[1..] == Map((p: Prop) => Printed(p, nfc), entries[1..]);
    }
  }

  lemma AcceptedTail(entries: seq<Prop>, nfc: Normalizer)
    requires entries != []
    ensures AllAccepted(entries, nfc) <==> Serialize(entries[0].value, nfc).Some? && AllAccepted(entries[1..], nfc)
  {
    hide Serialize;
    if Serialize(entries[0].value, nfc).Some? && AllAccepted(entries[1..], nfc) {
      forall i | 0 <= i < |entries| ensures Serialize(entries[i].value, nfc).Some? {
        if i > 0 {
          assert entries[i] == entries[1..][i - 1];
        }
      }
    }
  }

  lemma {:induction false} PropEntries(props: seq<Prop>, nfc: Normalizer)
    ensures SerializeProps(props, nfc)
         == if AllAccepted(props, nfc) then Some(Map((p: Prop) => Printed(p, nfc), NormalizedProps(props, nfc))) else None
  {
    hide Serialize;
    if props != [] {
      PropEntries(props[1..], nfc);
      AcceptedTail(props, nfc);
      assert NormalizedProps(props, nfc)[1..] == NormalizedProps(props[1..], nfc);
      var f := (p: Prop) => Printed(p, nfc);
      assert Map(f, NormalizedProps(props, nfc))[1..] == Map(f, NormalizedProps(props[1..], nfc));
    }
  }

  lemma AcceptedSorted(props: seq<Prop>, nfc: Normalizer)
    ensures AllAccepted(Sort(PropLess, NormalizedProps(props, nfc)), nfc) <==> AllAccepted(props, nfc)
  {
    hide Serialize, Sort, PropLess;
    var normalized := NormalizedProps(props, nfc);
    var sorted := Sort(PropLess, normalized);
    SortPermutes(PropLess, normalized);
    if AllAccepted(sorted, nfc) {
      forall i | 0 <= i < |props| ensures Serialize(props[i].value, nfc).Some? {
        assert normalized[i] in sorted;
        var k :| 0 <= k < |sorted| && sorted[k] == normalized[i];
      }
    }
    if AllAccepted(props, nfc) {
      forall k | 0 <= k < |sorted| ensures Serialize(sorted[k].value, nfc).Some? {
        assert sorted[k] in normalized;
        var i :| 0 <= i < |normalized| && normalized[i] == sorted[k];
      }
    }
  }

  lemma SortThenPrint(props: seq<Prop>, nfc: Normalizer)
    ensures SerializeSorted(Sort(PropLess, NormalizedProps(props, nfc)), nfc)
         == match SerializeProps(props, nfc)
            case None => None
            case Some(entries) => Some(EntryTexts(Sort(KeyLess, entries)))
  {
    hide Serialize, SerializeProps, SerializeSorted, Sort, TextLess, Map, AllAccepted, EntryTexts;
    SortedTexts(Sort(PropLess, NormalizedProps(props, nfc)), nfc);
    PropEntries(props, nfc);
    AcceptedSorted(props, nfc);
    SortMaps((p: Prop) => Printed(p, nfc), PropLess, KeyLess, NormalizedProps(props, nfc));
  }

  // ── The method ──────────────────────────────────────────────────

  method CanonicalSerialize(v: Value, nfc: Normalizer) returns (r: Option<JsString>)
    ensures r == Serialize(v, nfc)
    ensures match r case None => !Acceptable(v, nfc) case Some(t) => Acceptable(v, nfc) && Writes(v, t, nfc)
    decreases v
  {
    AcceptedIsWritten(v, nfc);
    hide Acceptable, Writes;
    match v {
      case Null =>
        return Some(NULL_TEXT);
      case Boolean(b) =>
        return Some(if b then TRUE_TEXT else FALSE_TEXT);
      case Text(s) =>
        return Some(Quote(nfc(s)));
      case Num(n) =>
        return TextOfNumber(n);
      case Arr(items) =>
        r := SerializeArray(items, nfc);
      case Obj(props) =>
        r := SerializeObject(props, nfc);
      case Foreign =>
        return None;
    }
  }

  lemma ArrayRejected(items: seq<Value>, nfc: Normalizer)
    requires SerializeAll(items, nfc).None?
    ensures Serialize(Arr(items), nfc).None?
  {
  }

  lemma ArrayText(items: seq<Value>, texts: seq<JsString>, nfc: Normalizer)
    requires SerializeAll(items, nfc) == AppendedTo(texts, SerializeAll(items[|items|..], nfc))
    ensures Serialize(Arr(items), nfc) == Some([OPEN_BRACKET] + Listed(texts, CLOSE_BRACKET))
  {
    hide Listed;
    assert items[|items|..] == [];
    AppendLaws<JsString>(texts, [], []);
  }

  lemma KeysCollide(props: seq<Prop>, nfc: Normalizer)
    requires !DistinctKeys(props, nfc)
    ensures Serialize(Obj(props), nfc).None?
  {
  }

  lemma ObjectText(props: seq<Prop>, texts: Option<seq<JsString>>, nfc: Normalizer)
    requires DistinctKeys(props, nfc)
    requires SerializeSorted(Sort(PropLess, NormalizedProps(props, nfc)), nfc) == texts
    ensures Serialize(Obj(props), nfc)
         == match texts case None => None case Some(list) => Some([OPEN_BRACE] + Listed(list, CLOSE_BRACE))
  {
    hide Listed, SerializeProps, SerializeSorted, Sort, EntryTexts;
    SortThenPrint(props, nfc);
  }

  lemma NothingLeft(texts: seq<JsString>, nfc: Normalizer)
    ensures AppendedTo(texts, SerializeSorted([], nfc)) == Some(texts)
  {
    AppendLaws<JsString>(texts, [], []);
  }

  method SerializeArray(items: seq<Value>, nfc: Normalizer) returns (r: Option<JsString>)
    ensures r == Serialize(Arr(items), nfc)
    decreases items
  {
    hide Listed, Serialize, SerializeAll;
    var texts: seq<JsString> := [];
    assert items[0..] == items;
    AppendedOne<JsString>([], [], SerializeAll(items, nfc));
    for i := 0 to |items|
      invariant SerializeAll(items, nfc) == AppendedTo(texts, SerializeAll(items[i..], nfc))
    {
      var text := CanonicalSerialize(items[i], nfc);
      SerializeAllStep(items, i, nfc);
      if text.None? {
        ArrayRejected(items, nfc);
        return None;
      }
      AppendedOne(texts, text.value, SerializeAll(items[i + 1..], nfc));
      texts := texts + [text.value];
    }
    ArrayText(items, texts, nfc);
    return Some([OPEN_BRACKET] + Listed(texts, CLOSE_BRACKET));
  }

  method SerializeObject(props: seq<Prop>, nfc: Normalizer) returns (r: Option<JsString>)
    ensures r == Serialize(Obj(props), nfc)
    decreases props
  {
    hide Listed, SerializeProps, Map, Sort, EntryText, Serialize, SerializeSorted;
    var entries: seq<Prop> := [];
    var seen: set<JsString> := {};
    for i := 0 to |props|
      invariant |entries| == i && forall k :: 0 <= k < i ==> entries[k] == Normalized(props[k], nfc)
      invariant forall key :: key in seen <==> exists k :: 0 <= k < i && entries[k].key == key
      invariant forall j, k :: 0 <= j < k < i ==> entries[j].key != entries[k].key
    {
      var key := nfc(props[i].key);
      if key in seen {
        KeysCollide(props, nfc);
        return None;
      }
      seen := seen + {key};
      entries := entries + [Prop(key, props[i].value)];
    }
    assert entries == NormalizedProps(props, nfc);
    var sorted := Sort(PropLess, entries);
    SortPermutes(PropLess, entries);

    var texts: seq<JsString> := [];
    assert sorted[0..] == sorted;
    AppendedOne<JsString>([], [], SerializeSorted(sorted, nfc));
    for i := 0 to |sorted|
      invariant SerializeSorted(sorted, nfc) == AppendedTo(texts, SerializeSorted(sorted[i..], nfc))
    {
      assert sorted[i] in entries;
      ghost var k :| 0 <= k < |entries| && entries[k] == sorted[i];
      assert sorted[i].value == props[k].value;
      var text := CanonicalSerialize(sorted[i].value, nfc);
      SerializeSortedStep(sorted, i, nfc);
      if text.None? {
        ObjectText(props, None, nfc);
        return None;
      }
      AppendedOne(texts, EntryText(Entry(sorted[i].key, text.value)), SerializeSorted(sorted[i + 1..], nfc));
      texts := texts + [EntryText(Entry(sorted[i].key, text.value))];
    }
    assert sorted[|sorted|..] == [];
    NothingLeft(texts, nfc);
    ObjectText(props, Some(texts), nfc);
    return Some([OPEN_BRACE] + Listed(texts, CLOSE_BRACE));
  }
}
