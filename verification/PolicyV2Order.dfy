/**
 * The order in which an author wrote bands, qualifications, alternatives, documents or codes never shows: the same
 * normal form, or both blocks are refused.
 */
module PolicyV2Order {
  import opened Wrappers
  import opened Sorting
  import opened PolicyV2
  import opened PolicyV2Laws

  // ── Rewriting a block in another order ──────────────────────────

  predicate SameList(a: Raw, b: Raw) {
    a == b || (a.Arr? && b.Arr? && multiset(a.items) == multiset(b.items))
  }

  /** The same object, except that the lists under the given names may be in another order. */
  predicate SameBut(a: Raw, b: Raw, lists: set<string>) {
    a == b ||
    (a.Obj? && b.Obj? && a.fields.Keys == b.fields.Keys &&
     forall k :: k in a.fields.Keys ==> if k in lists then SameList(a.fields[k], b.fields[k]) else a.fields[k] == b.fields[k])
  }

  predicate Rewritten(xs: seq<Raw>, ys: seq<Raw>) {
    |xs| == |ys| && forall i :: 0 <= i < |xs| ==> SameBut(xs[i], ys[i], {QUALIFICATIONS})
  }

  /** The bands in another order, each with its qualifications in another order. */
  ghost predicate SameBands(a: Raw, b: Raw) {
    a == b || (a.Arr? && b.Arr? && exists middle :: Rewritten(a.items, middle) && multiset(middle) == multiset(b.items))
  }

  ghost predicate SameField(k: string, a: Raw, b: Raw) {
    if k == AGE_BANDS then SameBands(a, b)
    else if k == EDUCATION || k == DOCUMENTS then SameList(a, b)
    else if k == CLEARANCE then SameBut(a, b, {ALLOWED, NO_RECORD})
    else a == b
  }

  ghost predicate Reordered(v: Raw, w: Raw) {
    v == w ||
    (v.Obj? && w.Obj? && v.fields.Keys == w.fields.Keys && forall k :: k in v.fields.Keys ==> SameField(k, v.fields[k], w.fields[k]))
  }

  // ── Checking a list in another order ────────────────────────────

  function ResultOr<T>(check: Raw -> Option<T>, default: T): Raw -> T {
    (x: Raw) => if check(x).Some? then check(x).value else default
  }

  /** Another order: the same failures, and the same results in another order. */
  lemma AllPermuted<T(!new)>(check: Raw -> Option<T>, xs: seq<Raw>, ys: seq<Raw>)
    requires multiset(xs) == multiset(ys)
    ensures All(check, xs).Some? <==> All(check, ys).Some?
    ensures All(check, xs).Some? ==> multiset(All(check, xs).value) == multiset(All(check, ys).value)
  {
    SameMultisetSameElements(xs, ys);
    if All(check, xs).Some? {
      AllWithin(check, xs, ys);
    }
    if All(check, ys).Some? {
      AllWithin(check, ys, xs);
    }
    if All(check, xs).Some? && xs != [] {
      var f := ResultOr(check, check(xs[0]).value);
      MapPermutes(f, xs, ys);
      assert All(check, xs).value == Map(f, xs);
      assert All(check, ys).value == Map(f, ys);
    }
  }

  lemma AllWithin<T(!new)>(check: Raw -> Option<T>, xs: seq<Raw>, ys: seq<Raw>)
    requires All(check, xs).Some? && forall y :: y in ys ==> y in xs
    ensures All(check, ys).Some?
  {
    forall j | 0 <= j < |ys| ensures check(ys[j]).Some? {
      assert ys[j] in xs;
      var i :| 0 <= i < |xs| && xs[i] == ys[j];
    }
  }

  lemma AllSame<T(!new)>(check: Raw -> Option<T>, xs: seq<Raw>, ys: seq<Raw>)
    requires |xs| == |ys| && forall i :: 0 <= i < |xs| ==> check(xs[i]) == check(ys[i])
    ensures All(check, xs) == All(check, ys)
  {
    if All(check, xs).Some? {
      assert All(check, xs).value == All(check, ys).value;
    }
  }

  lemma UniqueSorted(xs: seq<string>, ys: seq<string>)
    requires multiset(xs) == multiset(ys)
    ensures Sort(TextBefore, Unique(xs)) == Sort(TextBefore, Unique(ys))
  {
    hide TextBefore, Sort;
    SameMultisetSameElements(xs, ys);
    SameElementsSameMultiset(Unique(xs), Unique(ys));
    TextTotal(Unique(xs));
    SortIsCanonical(TextBefore, Unique(xs), Unique(ys));
  }

  lemma SameQualifications(a: Raw, b: Raw)
    requires SameList(a, b) && a.Arr?
    ensures b.Arr? && |a.items| == |b.items|
    ensures All(Qualification, a.items).Some? <==> All(Qualification, b.items).Some?
    ensures All(Qualification, a.items).Some? ==>
              Sort(TextBefore, Unique(All(Qualification, a.items).value)) == Sort(TextBefore, Unique(All(Qualification, b.items).value))
  {
    hide Sort, TextBefore, Qualification, Unique;
    AllPermuted(Qualification, a.items, b.items);
    SameMultisetSameElements(a.items, b.items);
    if All(Qualification, a.items).Some? {
      UniqueSorted(All(Qualification, a.items).value, All(Qualification, b.items).value);
    }
  }

  lemma SameBandParsed(a: Raw, b: Raw)
    requires SameBut(a, b, {QUALIFICATIONS})
    ensures ParseBand(a) == ParseBand(b)
  {
    hide All, Sort, Unique, TextBefore, Qualification;
    if a != b && a.fields.Keys == {QUALIFICATIONS, MINIMUM_AGE, MAXIMUM_AGE} {
      BandNamesDiffer();
      hide QUALIFICATIONS, MINIMUM_AGE, MAXIMUM_AGE;
      var x, y := a.fields[QUALIFICATIONS], b.fields[QUALIFICATIONS];
      assert a.fields[MINIMUM_AGE] == b.fields[MINIMUM_AGE] && a.fields[MAXIMUM_AGE] == b.fields[MAXIMUM_AGE];
      assert SameList(x, y);
      if x.Arr? {
        SameQualifications(x, y);
      }
    }
  }

  lemma BandNamesDiffer()
    ensures QUALIFICATIONS != MINIMUM_AGE && QUALIFICATIONS != MAXIMUM_AGE
  {
    assert |QUALIFICATIONS| == 14;
  }

  /** The parsed bands come out in another order, or fail alike. */
  lemma SameBandsParsed(a: Raw, b: Raw)
    requires SameBands(a, b) && a.Arr?
    ensures b.Arr? && |a.items| == |b.items|
    ensures All(ParseBand, a.items).Some? <==> All(ParseBand, b.items).Some?
    ensures All(ParseBand, a.items).Some? ==> multiset(All(ParseBand, a.items).value) == multiset(All(ParseBand, b.items).value)
  {
    hide ParseBand, All, SameBut;
    if a != b {
      var middle :| Rewritten(a.items, middle) && multiset(middle) == multiset(b.items);
      forall i | 0 <= i < |middle| ensures ParseBand(a.items[i]) == ParseBand(middle[i]) {
        SameBandParsed(a.items[i], middle[i]);
      }
      AllSame(ParseBand, a.items, middle);
      AllPermuted(ParseBand, middle, b.items);
      SameMultisetSameElements(middle, b.items);
    }
  }

  lemma SameCodes(a: Raw, b: Raw, min: nat)
    requires SameList(a, b)
    ensures CodeSetOf(a, min) == CodeSetOf(b, min)
  {
    hide All, Sort, TextBefore, RegistryCode;
    if a != b {
      AllPermuted(RegistryCode, a.items, b.items);
      SameMultisetSameElements(a.items, b.items);
      if All(RegistryCode, a.items).Some? {
        var xs, ys := All(RegistryCode, a.items).value, All(RegistryCode, b.items).value;
        if NoDuplicates(xs) {
          NoDuplicatesPermuted(xs, ys);
        }
        if NoDuplicates(ys) {
          NoDuplicatesPermuted(ys, xs);
        }
        TextTotal(xs);
        SortIsCanonical(TextBefore, xs, ys);
      }
    }
  }

  lemma SameClearanceParsed(a: Raw, b: Raw)
    requires SameBut(a, b, {ALLOWED, NO_RECORD})
    ensures ParseClearance(a) == ParseClearance(b) && a.Null? == b.Null?
  {
    hide CodeSetOf, SameList;
    if a != b && a.fields.Keys == {ALLOWED, NO_RECORD, VALIDITY} {
      ClearanceNamesDiffer();
      hide ALLOWED, NO_RECORD, VALIDITY;
      assert a.fields[VALIDITY] == b.fields[VALIDITY];
      assert SameList(a.fields[ALLOWED], b.fields[ALLOWED]) && SameList(a.fields[NO_RECORD], b.fields[NO_RECORD]);
      SameCodes(a.fields[ALLOWED], b.fields[ALLOWED], 1);
      SameCodes(a.fields[NO_RECORD], b.fields[NO_RECORD], 0);
    }
  }

  lemma ClearanceNamesDiffer()
    ensures VALIDITY != ALLOWED && VALIDITY != NO_RECORD
  {
    assert |VALIDITY| == 12 && |ALLOWED| == 23 && |NO_RECORD| == 24;
  }

  // ── The parts of a block, each checked and sorted ───────────────

  function BandsPart(raw: Raw): Option<seq<Band>> {
    var items :- Entries(raw, 1, 8);
    var bands :- All(ParseBand, items);
    var _ :- Need(BandsDisjoint(bands));
    Some(Sort(BandBefore, bands))
  }

  function LevelsPart(raw: Raw): Option<seq<string>> {
    var items :- Entries(raw, 1, 7);
    var levels :- All(ParseLevel, items);
    var _ :- Need(NoDuplicates(levels));
    Some(Sort(LevelBefore, levels))
  }

  function DocumentsPart(raw: Raw): Option<seq<DocumentRule>> {
    var items :- Entries(raw, 1, 20);
    var documents :- All(ParseDocument, items);
    var _ :- Need(KindsDiffer(documents));
    Some(Sort(DocumentBefore, documents))
  }

  function ByParts(raw: Raw): Option<Policy> {
    var fields :- FieldsOf(raw, BLOCK_KEYS);
    var _ :- Need(fields[SCHEMA_VERSION] == Int(2));
    var bands :- BandsPart(fields[AGE_BANDS]);
    var levels :- LevelsPart(fields[EDUCATION]);
    var science :- Optionally(fields[SCIENCE], x => IntIn(x, 1, 100));
    var conviction :- ParseConviction(fields[CONVICTION]);
    var documents :- DocumentsPart(fields[DOCUMENTS]);
    var clearance :- Optionally(fields[CLEARANCE], ParseClearance);
    Some(Policy(bands, levels, science, conviction, documents, clearance))
  }

  /** Only success or failure and the sorted lists of the parts matter to the whole. */
  lemma NormalizeByParts(raw: Raw)
    ensures Normalize(raw) == ByParts(raw)
  {
    hide ParseBand, ParseLevel, ParseConviction, ParseDocument, ParseClearance, BandsDisjoint, KindsDiffer, Sort, All;
    hide SCHEMA_VERSION, AGE_BANDS, EDUCATION, SCIENCE, CONVICTION, DOCUMENTS, CLEARANCE, BandBefore, LevelBefore,
         DocumentBefore, NoDuplicates;
  }

  lemma SameBandsPart(a: Raw, b: Raw)
    requires SameBands(a, b)
    ensures BandsPart(a) == BandsPart(b)
  {
    hide ParseBand, BandsDisjoint, Sort, BandBefore, SameBands, All;
    if a.Arr? {
      SameBandsParsed(a, b);
      if All(ParseBand, a.items).Some? {
        var xs, ys := All(ParseBand, a.items).value, All(ParseBand, b.items).value;
        if BandsDisjoint(xs) {
          BandsDisjointPermuted(xs, ys);
        }
        if BandsDisjoint(ys) {
          BandsDisjointPermuted(ys, xs);
        }
        ParsedBandsTotal(a.items, xs);
        SortIsCanonical(BandBefore, xs, ys);
      }
    } else {
      assert a == b by { NotAList(a, b); }
    }
  }

  lemma NotAList(a: Raw, b: Raw)
    requires SameBands(a, b) && !a.Arr?
    ensures a == b
  {
  }

  lemma ParsedBandsTotal(items: seq<Raw>, bands: seq<Band>)
    requires All(ParseBand, items) == Some(bands)
    ensures StrictTotalOn(BandBefore, bands)
  {
    hide ParseBand, NormalBand, BandBefore;
    forall x | ParseBand(x).Some? ensures NormalBand(ParseBand(x).value) {
      ParsedBandNormal(x);
    }
    AllResults(ParseBand, items, NormalBand);
    NormalBandsNamed(bands);
    BandsTotal(bands);
  }

  lemma SameLevelsPart(a: Raw, b: Raw)
    requires SameList(a, b)
    ensures LevelsPart(a) == LevelsPart(b)
  {
    hide ParseLevel, Sort, LevelBefore, LEVELS, All;
    if a != b {
      AllPermuted(ParseLevel, a.items, b.items);
      SameMultisetSameElements(a.items, b.items);
      if All(ParseLevel, a.items).Some? {
        var xs, ys := All(ParseLevel, a.items).value, All(ParseLevel, b.items).value;
        if NoDuplicates(xs) {
          NoDuplicatesPermuted(xs, ys);
        }
        if NoDuplicates(ys) {
          NoDuplicatesPermuted(ys, xs);
        }
        forall x ensures ParseLevel(x).Some? ==> ParseLevel(x).value in LEVELS {
          ParsedLeaves(x);
        }
        AllResults(ParseLevel, a.items, x => x in LEVELS);
        LevelsTotal(xs);
        SortIsCanonical(LevelBefore, xs, ys);
      }
    }
  }

  lemma SameDocumentsPart(a: Raw, b: Raw)
    requires SameList(a, b)
    ensures DocumentsPart(a) == DocumentsPart(b)
  {
    hide ParseDocument, Sort, DocumentBefore, KindsDiffer, All;
    if a != b {
      AllPermuted(ParseDocument, a.items, b.items);
      SameMultisetSameElements(a.items, b.items);
      if All(ParseDocument, a.items).Some? {
        var xs, ys := All(ParseDocument, a.items).value, All(ParseDocument, b.items).value;
        if KindsDiffer(ys) {
          KindsDifferPermuted(ys, xs);
        }
        if KindsDiffer(xs) {
          KindsDifferPermuted(xs, ys);
          DocumentsTotal(xs);
          SortIsCanonical(DocumentBefore, xs, ys);
        }
      }
    }
  }

  lemma BlockNamesDiffer()
    ensures AGE_BANDS !in {EDUCATION, DOCUMENTS, CLEARANCE, SCHEMA_VERSION, SCIENCE, CONVICTION}
    ensures EDUCATION !in {DOCUMENTS, CLEARANCE, SCHEMA_VERSION, SCIENCE, CONVICTION}
    ensures DOCUMENTS !in {CLEARANCE, SCHEMA_VERSION, SCIENCE, CONVICTION}
    ensures CLEARANCE !in {SCHEMA_VERSION, SCIENCE, CONVICTION}
  {
    assert |SCHEMA_VERSION| == 13 && |AGE_BANDS| == 8 && |EDUCATION| == 21 && |SCIENCE| == 21 && |CONVICTION| == 10;
    assert |DOCUMENTS| == 9 && |CLEARANCE| == 9 && EDUCATION[0] != SCIENCE[0] && DOCUMENTS[0] != CLEARANCE[0];
  }

  /** Written in another order, a block has the same normal form or is refused as well. */
  lemma OrderIsInvisible(v: Raw, w: Raw)
    requires Reordered(v, w)
    ensures Normalize(v) == Normalize(w)
  {
    hide BandsPart, LevelsPart, DocumentsPart, ParseConviction, ParseClearance, Normalize, SameBands, SameList, SameBut;
    NormalizeByParts(v);
    NormalizeByParts(w);
    if v != w && v.fields.Keys == BLOCK_KEYS {
      BlockNamesDiffer();
      hide SCHEMA_VERSION, AGE_BANDS, EDUCATION, SCIENCE, CONVICTION, DOCUMENTS, CLEARANCE;
      var f, g := v.fields, w.fields;
      assert SameField(AGE_BANDS, f[AGE_BANDS], g[AGE_BANDS]) && SameField(EDUCATION, f[EDUCATION], g[EDUCATION]);
      assert SameField(DOCUMENTS, f[DOCUMENTS], g[DOCUMENTS]) && SameField(CLEARANCE, f[CLEARANCE], g[CLEARANCE]);
      assert SameField(SCIENCE, f[SCIENCE], g[SCIENCE]) && SameField(CONVICTION, f[CONVICTION], g[CONVICTION]);
      assert SameField(SCHEMA_VERSION, f[SCHEMA_VERSION], g[SCHEMA_VERSION]);
      SameBandsPart(f[AGE_BANDS], g[AGE_BANDS]);
      SameLevelsPart(f[EDUCATION], g[EDUCATION]);
      SameDocumentsPart(f[DOCUMENTS], g[DOCUMENTS]);
      SameClearanceParsed(f[CLEARANCE], g[CLEARANCE]);
    }
  }
}
