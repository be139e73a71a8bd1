/**
 * Normalisation is a canonical form: it is idempotent, blind to the order in which lists were written, and two
 * accepted blocks have the same normal form exactly when they say the same things.
 */
module PolicyV2Laws {
  import opened Wrappers
  import opened Sorting
  import opened PolicyV2
  import Scanning

  // ── The orders are strict and total ─────────────────────────────

  lemma TextTotal(xs: seq<string>)
    ensures StrictTotalOn(TextBefore, xs)
    ensures forall a, b :: a == b || TextBefore(a, b) || TextBefore(b, a)
  {
    hide LexLess;
    assert StrictTotal(CharBefore);
    forall a: string, b: string ensures !(TextBefore(a, b) && TextBefore(b, a)) && (a == b || TextBefore(a, b) || TextBefore(b, a)) {
      LexAsymmetric(CharBefore, a, b);
      LexConnected(CharBefore, a, b);
    }
    forall a: string, b: string, c: string | TextBefore(a, b) && TextBefore(b, c) ensures TextBefore(a, c) {
      LexTransitive(CharBefore, a, b, c);
    }
  }

  predicate CommaFree(s: string) {
    ',' !in s
  }

  lemma LevelsCommaFree()
    ensures forall s :: s in LEVELS ==> CommaFree(s)
  {
    assert CommaFree("O_LEVEL_S3") && CommaFree("O_LEVEL_S6_EQUIV") && CommaFree("A_LEVEL_A2") && CommaFree("A1_IPRC");
    assert CommaFree("BACHELOR_A0") && CommaFree("MASTERS") && CommaFree("PHD");
  }

  lemma FieldsCommaFree()
    ensures forall s :: s in SPECIALIST_FIELDS ==> CommaFree(s)
    ensures CommaFree(FIELD_PREFIX)
  {
    assert CommaFree("MEDICINE") && CommaFree("ENGINEERING") && CommaFree("LAW") && CommaFree("NURSING");
    assert CommaFree("EDUCATION") && CommaFree("VETERINARY_MEDICINE") && CommaFree("CLINICAL_PSYCHOLOGY");
  }

  lemma QualificationCommaFree(s: string)
    requires IsQualification(s)
    ensures CommaFree(s)
  {
    LevelsCommaFree();
    FieldsCommaFree();
    hide LEVELS, SPECIALIST_FIELDS, FIELD_PREFIX;
    if FIELD_PREFIX <= s {
      var code := s[|FIELD_PREFIX|..];
      assert s == FIELD_PREFIX + code && CommaFree(code);
    }
  }

  predicate Named(b: Band) {
    b.qualifications != [] && forall q :: q in b.qualifications ==> IsQualification(q)
  }

  /** Joined by commas, qualification lists stay apart. */
  lemma JoinedApart(a: Band, b: Band)
    requires Named(a) && Named(b) && Joined(a.qualifications) == Joined(b.qualifications)
    ensures a.qualifications == b.qualifications
  {
    hide IsQualification;
    forall q | q in a.qualifications || q in b.qualifications ensures ',' !in q {
      QualificationCommaFree(q);
    }
    Scanning.SplitJoined(a.qualifications, ',');
    Scanning.SplitJoined(b.qualifications, ',');
  }

  /** Cap first, then minimum, then the joined codes: a tie would mean the very same band. */
  lemma BandsTotal(bands: seq<Band>)
    requires forall b :: b in bands ==> Named(b)
    ensures StrictTotalOn(BandBefore, bands)
  {
    hide TextBefore, Joined, Named;
    TextTotal([]);
    TextTransitive();
    forall a, b | a in bands && b in bands ensures a == b || BandBefore(a, b) || BandBefore(b, a) {
      if a.maximumAge == b.maximumAge && a.minimumAge == b.minimumAge && Joined(a.qualifications) == Joined(b.qualifications) {
        JoinedApart(a, b);
      }
    }
  }

  lemma TextTransitive()
    ensures forall a, b :: !(TextBefore(a, b) && TextBefore(b, a))
    ensures forall a, b, c :: TextBefore(a, b) && TextBefore(b, c) ==> TextBefore(a, c)
  {
    hide TextBefore, LexLess;
    forall a: string, b: string ensures !(TextBefore(a, b) && TextBefore(b, a)) {
      TextTotal([a, b]);
    }
    forall a: string, b: string, c: string | TextBefore(a, b) && TextBefore(b, c) ensures TextBefore(a, c) {
      TextTotal([a, b, c]);
      assert a in [a, b, c] && b in [a, b, c] && c in [a, b, c];
    }
  }

  lemma LevelsTotal(levels: seq<string>)
    requires forall x :: x in levels ==> x in LEVELS
    ensures StrictTotalOn(LevelBefore, levels)
  {
    hide LEVELS;
    forall a, b | a in levels && b in levels && Rung(a) == Rung(b) ensures a == b {
      assert LEVELS[Rung(a)] == a && LEVELS[Rung(b)] == b;
    }
  }

  lemma LadderDiffers()
    ensures forall a, b :: 0 <= a < |LEVELS| && 0 <= b < |LEVELS| && LEVELS[a] == LEVELS[b] ==> a == b
  {
    assert |LEVELS| == 7;
    assert |LEVELS[0]| == 10 && |LEVELS[1]| == 16 && |LEVELS[2]| == 10 && |LEVELS[3]| == 7 && |LEVELS[4]| == 11;
    assert |LEVELS[5]| == 7 && |LEVELS[6]| == 3;
    assert LEVELS[0][0] != LEVELS[2][0] && LEVELS[3][0] != LEVELS[5][0];
  }

  lemma DocumentsTotal(documents: seq<DocumentRule>)
    requires KindsDiffer(documents)
    ensures StrictTotalOn(DocumentBefore, documents)
  {
    hide TextBefore;
    TextTotal([]);
    TextTransitive();
    forall a, b | a in documents && b in documents && a.kind == b.kind ensures a == b {
      var i :| 0 <= i < |documents| && documents[i] == a;
      var j :| 0 <= j < |documents| && documents[j] == b;
    }
  }

  // ── What a normal form is ───────────────────────────────────────

  predicate StrictlySorted(xs: seq<string>) {
    forall i, j :: 0 <= i < j < |xs| ==> TextBefore(xs[i], xs[j])
  }

  predicate NormalBand(b: Band) {
    1 <= |b.qualifications| <= 12 && Named(b) && StrictlySorted(b.qualifications) && 0 <= b.minimumAge <= b.maximumAge <= 130
  }

  predicate NormalCodes(codes: seq<string>, min: nat) {
    min <= |codes| <= 20 && StrictlySorted(codes) && forall c :: c in codes ==> IsRegistryCode(c)
  }

  predicate NormalClearance(c: Clearance) {
    && NormalCodes(c.allowed, 1) && NormalCodes(c.noRecord, 0)
    && (forall code :: code in c.noRecord ==> code in c.allowed) && 1 <= c.validityDays <= 3650
  }

  predicate SoundDocument(d: DocumentRule) {
    IsCodeToken(d.kind) && d.satisfaction in SATISFACTION_MODES
  }

  /** Everything the checks promise, in whatever order the outer lists are. */
  predicate Sound(p: Policy) {
    && 1 <= |p.ageBands| <= 8 && (forall b :: b in p.ageBands ==> NormalBand(b)) && BandsDisjoint(p.ageBands)
    && 1 <= |p.alternatives| <= 7 && (forall x :: x in p.alternatives ==> x in LEVELS) && NoDuplicates(p.alternatives)
    && (p.science.Some? ==> 1 <= p.science.value <= 100) && p.conviction.rule in CONVICTION_RULES
    && 1 <= |p.documents| <= 20 && (forall d :: d in p.documents ==> SoundDocument(d)) && KindsDiffer(p.documents)
    && (p.clearance.Some? ==> NormalClearance(p.clearance.value))
  }

  ghost predicate IsNormal(p: Policy) {
    Sound(p) && SortedBy(BandBefore, p.ageBands) && SortedBy(LevelBefore, p.alternatives) && SortedBy(DocumentBefore, p.documents)
  }

  lemma SortedStrictly(xs: seq<string>)
    requires NoDuplicates(xs)
    ensures StrictlySorted(Sort(TextBefore, xs))
    ensures |Sort(TextBefore, xs)| == |xs| && forall x :: x in Sort(TextBefore, xs) <==> x in xs
  {
    hide TextBefore;
    var r := Sort(TextBefore, xs);
    TextTotal(xs);
    SortPermutes(TextBefore, xs);
    SortSorts(TextBefore, xs);
    NoDuplicatesPermuted(xs, r);
    forall i, j | 0 <= i < j < |r| ensures TextBefore(r[i], r[j]) {
      assert r[i] in xs && r[j] in xs;
    }
  }

  lemma StrictlySortedStays(xs: seq<string>)
    requires StrictlySorted(xs)
    ensures NoDuplicates(xs) && Sort(TextBefore, xs) == xs
  {
    hide TextBefore;
    TextTotal(xs);
    TextTransitive();
    SortKeepsSorted(TextBefore, xs);
  }

  lemma ParsedBandNormal(raw: Raw)
    requires ParseBand(raw).Some?
    ensures NormalBand(ParseBand(raw).value)
  {
    hide TextBefore, Sort;
    var items := raw.fields[QUALIFICATIONS].items;
    var named := All(Qualification, items).value;
    var b := ParseBand(raw).value;
    SortedStrictly(Unique(named));
    assert named[0] in Unique(named);
    forall q | q in b.qualifications ensures IsQualification(q) {
      assert q in named;
      var i :| 0 <= i < |named| && named[i] == q;
      assert Qualification(items[i]) == Some(q);
    }
  }

  lemma CodeSetNormal(raw: Raw, min: nat)
    requires CodeSetOf(raw, min).Some?
    ensures NormalCodes(CodeSetOf(raw, min).value, min)
  {
    hide TextBefore, Sort, IsRegistryCode;
    var codes := All(RegistryCode, raw.items).value;
    SortedStrictly(codes);
    forall c | c in codes ensures IsRegistryCode(c) {
      var i :| 0 <= i < |codes| && codes[i] == c;
      assert RegistryCode(raw.items[i]) == Some(c);
    }
  }

  lemma ClearanceNormal(raw: Raw)
    requires ParseClearance(raw).Some?
    ensures NormalClearance(ParseClearance(raw).value)
  {
    hide CodeSetOf, NormalCodes;
    CodeSetNormal(raw.fields[ALLOWED], 1);
    CodeSetNormal(raw.fields[NO_RECORD], 0);
  }

  lemma AllResults<T(!new)>(check: Raw -> Option<T>, items: seq<Raw>, good: T -> bool)
    requires All(check, items).Some?
    requires forall x :: check(x).Some? ==> good(check(x).value)
    ensures forall r :: r in All(check, items).value ==> good(r)
  {
    var rs := All(check, items).value;
    forall r | r in rs ensures good(r) {
      var i :| 0 <= i < |rs| && rs[i] == r;
      assert check(items[i]) == Some(r);
    }
  }

  lemma ParsedBands(items: seq<Raw>)
    requires All(ParseBand, items).Some?
    ensures forall b :: b in All(ParseBand, items).value ==> NormalBand(b)
  {
    hide ParseBand, NormalBand;
    forall x | ParseBand(x).Some? ensures NormalBand(ParseBand(x).value) {
      ParsedBandNormal(x);
    }
    AllResults(ParseBand, items, NormalBand);
  }

  lemma ParsedLevels(items: seq<Raw>)
    requires All(ParseLevel, items).Some?
    ensures forall x :: x in All(ParseLevel, items).value ==> x in LEVELS
  {
    hide ParseLevel, LEVELS;
    forall x ensures ParseLevel(x).Some? ==> ParseLevel(x).value in LEVELS {
      ParsedLeaves(x);
    }
    AllResults(ParseLevel, items, x => x in LEVELS);
  }

  lemma ParsedDocuments(items: seq<Raw>)
    requires All(ParseDocument, items).Some?
    ensures forall d :: d in All(ParseDocument, items).value ==> SoundDocument(d)
  {
    hide ParseDocument, SoundDocument;
    forall x ensures ParseDocument(x).Some? ==> SoundDocument(ParseDocument(x).value) {
      ParsedLeaves(x);
    }
    AllResults(ParseDocument, items, SoundDocument);
  }

  lemma ParsedSound(raw: Raw)
    requires Parse(raw).Some?
    ensures Sound(Parse(raw).value)
  {
    hide All, ParseBand, NormalBand, ParseDocument, ParseClearance, NormalClearance, SoundDocument, ParseLevel,
         BandsDisjoint, KindsDiffer, LEVELS, CONVICTION_RULES, IsCodeToken, Unique, NoDuplicates;
    AllSizes(ParseBand, raw.fields[AGE_BANDS].items);
    AllSizes(ParseLevel, raw.fields[EDUCATION].items);
    AllSizes(ParseDocument, raw.fields[DOCUMENTS].items);
    ParsedBands(raw.fields[AGE_BANDS].items);
    ParsedLevels(raw.fields[EDUCATION].items);
    ParsedDocuments(raw.fields[DOCUMENTS].items);
    if !raw.fields[CLEARANCE].Null? {
      ClearanceNormal(raw.fields[CLEARANCE]);
    }
  }

  lemma AllSizes<T(!new)>(check: Raw -> Option<T>, items: seq<Raw>)
    ensures All(check, items).Some? ==> |All(check, items).value| == |items|
  {
  }

  lemma ParsedLeaves(x: Raw)
    ensures ParseLevel(x).Some? ==> ParseLevel(x).value in LEVELS
    ensures ParseDocument(x).Some? ==> SoundDocument(ParseDocument(x).value)
  {
    hide LEVELS, SATISFACTION_MODES, IsCodeToken;
  }

  // ── Sorting keeps soundness ─────────────────────────────────────

  predicate BandsClash(a: Band, b: Band) {
    exists q :: q in a.qualifications && q in b.qualifications
  }

  predicate KindsClash(a: DocumentRule, b: DocumentRule) {
    a.kind == b.kind
  }

  lemma BandsDisjointPermuted(xs: seq<Band>, ys: seq<Band>)
    requires multiset(xs) == multiset(ys) && BandsDisjoint(xs)
    ensures BandsDisjoint(ys)
  {
    assert Pairwise(BandsClash, xs);
    PairwisePermuted(BandsClash, xs, ys);
    forall i, j, q | 0 <= i < j < |ys| && q in ys[i].qualifications ensures q !in ys[j].qualifications {
      assert !BandsClash(ys[i], ys[j]);
    }
  }

  lemma KindsDifferPermuted(xs: seq<DocumentRule>, ys: seq<DocumentRule>)
    requires multiset(xs) == multiset(ys) && KindsDiffer(xs)
    ensures KindsDiffer(ys)
  {
    assert Pairwise(KindsClash, xs);
    PairwisePermuted(KindsClash, xs, ys);
    forall i, j | 0 <= i < j < |ys| ensures ys[i].kind != ys[j].kind {
      assert !KindsClash(ys[i], ys[j]);
    }
  }

  lemma OrderedIsNormal(p: Policy)
    requires Sound(p)
    ensures IsNormal(Ordered(p))
  {
    hide Sort, BandBefore, LevelBefore, DocumentBefore, NormalBand, NormalClearance, SoundDocument, BandsDisjoint,
         KindsDiffer, LEVELS, CONVICTION_RULES;
    NormalBandsNamed(p.ageBands);
    BandsTotal(p.ageBands);
    LevelsTotal(p.alternatives);
    DocumentsTotal(p.documents);
    SortPermutes(BandBefore, p.ageBands);
    SortPermutes(LevelBefore, p.alternatives);
    SortPermutes(DocumentBefore, p.documents);
    SortSorts(BandBefore, p.ageBands);
    SortSorts(LevelBefore, p.alternatives);
    SortSorts(DocumentBefore, p.documents);
    var r := Ordered(p);
    BandsDisjointPermuted(p.ageBands, r.ageBands);
    KindsDifferPermuted(p.documents, r.documents);
    NoDuplicatesPermuted(p.alternatives, r.alternatives);
  }

  lemma NormalBandsNamed(bands: seq<Band>)
    requires forall b :: b in bands ==> NormalBand(b)
    ensures forall b :: b in bands ==> Named(b)
  {
  }

  /** Every result of normalisation is a normal form. */
  lemma NormalizeIsNormal(raw: Raw)
    requires Normalize(raw).Some?
    ensures IsNormal(Normalize(raw).value)
  {
    hide Sound, Parse;
    ParsedSound(raw);
    OrderedIsNormal(Parse(raw).value);
  }

  // ── Normal forms are fixed points ───────────────────────────────

  function TextValue(x: string): Raw {
    Str(x)
  }

  function Texts(xs: seq<string>): Raw {
    Arr(Map(TextValue, xs))
  }

  function BandValue(b: Band): Raw {
    Obj(map[QUALIFICATIONS := Texts(b.qualifications), MINIMUM_AGE := Int(b.minimumAge), MAXIMUM_AGE := Int(b.maximumAge)])
  }

  function LevelValue(level: string): Raw {
    Obj(map[LEVEL := Str(level)])
  }

  function DocumentValue(d: DocumentRule): Raw {
    Obj(map[TYPE := Str(d.kind), SATISFACTION := Str(d.satisfaction), NOTARISED := Flag(d.notarised)])
  }

  function ClearanceValue(c: Clearance): Raw {
    Obj(map[ALLOWED := Texts(c.allowed), NO_RECORD := Texts(c.noRecord), VALIDITY := Int(c.validityDays)])
  }

  /** A policy as the JSON value it is stored as. */
  function PolicyValue(p: Policy): Raw {
    Obj(map[
      SCHEMA_VERSION := Int(2),
      AGE_BANDS := Arr(Map(BandValue, p.ageBands)),
      EDUCATION := Arr(Map(LevelValue, p.alternatives)),
      SCIENCE := if p.science.None? then Null else Int(p.science.value),
      CONVICTION := Obj(map[RULE := Str(p.conviction.rule), NOT_UNDER_PROSECUTION := Flag(p.conviction.notUnderProsecution)]),
      DOCUMENTS := Arr(Map(DocumentValue, p.documents)),
      CLEARANCE := if p.clearance.None? then Null else ClearanceValue(p.clearance.value)])
  }

  lemma AllReadBack<T(!new)>(check: Raw -> Option<T>, value: T -> Raw, xs: seq<T>)
    requires forall x :: x in xs ==> check(value(x)) == Some(x)
    ensures All(check, Map(value, xs)) == Some(xs)
  {
    var items := Map(value, xs);
    forall i | 0 <= i < |items| ensures check(items[i]) == Some(xs[i]) {
      assert xs[i] in xs;
    }
    assert All(check, items).value == xs;
  }

  lemma {:induction false} UniqueStays(xs: seq<string>)
    requires NoDuplicates(xs)
    ensures Unique(xs) == xs
  {
    if xs != [] {
      UniqueStays(xs[..|xs| - 1]);
      assert xs == xs[..|xs| - 1] + [xs[|xs| - 1]];
    }
  }

  /** The field names are all different. */
  lemma BandKeys(b: Band)
    ensures BandValue(b).Obj?
    ensures var f := BandValue(b).fields;
            && f.Keys == {QUALIFICATIONS, MINIMUM_AGE, MAXIMUM_AGE}
            && f[QUALIFICATIONS] == Texts(b.qualifications) && f[MINIMUM_AGE] == Int(b.minimumAge) && f[MAXIMUM_AGE] == Int(b.maximumAge)
  {
    hide Texts;
    assert |QUALIFICATIONS| == 14 && MINIMUM_AGE[1] != MAXIMUM_AGE[1];
  }

  lemma BandReadBack(b: Band)
    requires NormalBand(b)
    ensures ParseBand(BandValue(b)) == Some(b)
  {
    BandKeys(b);
    QualificationsReadBack(b.qualifications);
    hide *;
    ParseBandIs(BandValue(b), Texts(b.qualifications).items, b);
  }

  lemma ParseBandIs(raw: Raw, items: seq<Raw>, b: Band)
    requires raw.Obj? && raw.fields.Keys == {QUALIFICATIONS, MINIMUM_AGE, MAXIMUM_AGE}
    requires raw.fields[QUALIFICATIONS] == Arr(items) && 1 <= |items| <= 12
    requires All(Qualification, items) == Some(b.qualifications)
    requires raw.fields[MINIMUM_AGE] == Int(b.minimumAge) && raw.fields[MAXIMUM_AGE] == Int(b.maximumAge)
    requires 0 <= b.minimumAge <= b.maximumAge <= 130 && Sort(TextBefore, Unique(b.qualifications)) == b.qualifications
    ensures ParseBand(raw) == Some(b)
  {
    hide All, Sort, Unique, TextBefore, QUALIFICATIONS, MINIMUM_AGE, MAXIMUM_AGE, Qualification;
  }

  lemma QualificationsReadBack(qs: seq<string>)
    requires StrictlySorted(qs) && forall q :: q in qs ==> IsQualification(q)
    ensures Texts(qs).Arr? && |Texts(qs).items| == |qs| && All(Qualification, Texts(qs).items) == Some(qs)
    ensures Sort(TextBefore, Unique(qs)) == qs
  {
    hide IsQualification, TextBefore, Sort;
    AllReadBack(Qualification, TextValue, qs);
    StrictlySortedStays(qs);
    UniqueStays(qs);
  }

  lemma DocumentReadBack(d: DocumentRule)
    requires SoundDocument(d)
    ensures ParseDocument(DocumentValue(d)) == Some(d)
  {
    hide IsCodeToken, SATISFACTION_MODES;
    assert |TYPE| == 4 && |SATISFACTION| == 12 && |NOTARISED| == 9;
  }

  lemma LevelReadBack(level: string)
    requires level in LEVELS
    ensures ParseLevel(LevelValue(level)) == Some(level)
  {
    hide LEVELS;
  }

  lemma CodesReadBack(codes: seq<string>, min: nat)
    requires NormalCodes(codes, min)
    ensures CodeSetOf(Texts(codes), min) == Some(codes)
  {
    hide IsRegistryCode, TextBefore, Sort;
    AllReadBack(RegistryCode, TextValue, codes);
    StrictlySortedStays(codes);
  }

  lemma ClearanceKeys(c: Clearance)
    ensures ClearanceValue(c).Obj?
    ensures var f := ClearanceValue(c).fields;
            && f.Keys == {ALLOWED, NO_RECORD, VALIDITY}
            && f[ALLOWED] == Texts(c.allowed) && f[NO_RECORD] == Texts(c.noRecord) && f[VALIDITY] == Int(c.validityDays)
  {
    hide Texts;
    assert |ALLOWED| == 23 && |NO_RECORD| == 24 && |VALIDITY| == 12;
  }

  lemma ClearanceReadBack(c: Clearance)
    requires NormalClearance(c)
    ensures ParseClearance(ClearanceValue(c)) == Some(c)
  {
    ClearanceKeys(c);
    hide ClearanceValue, ALLOWED, NO_RECORD, VALIDITY, NormalCodes, CodeSetOf;
    CodesReadBack(c.allowed, 1);
    CodesReadBack(c.noRecord, 0);
  }

  lemma ConvictionReadBack(c: Conviction)
    requires c.rule in CONVICTION_RULES
    ensures ParseConviction(Obj(map[RULE := Str(c.rule), NOT_UNDER_PROSECUTION := Flag(c.notUnderProsecution)])) == Some(c)
  {
    hide CONVICTION_RULES;
    assert |RULE| == 4 && |NOT_UNDER_PROSECUTION| == 19;
  }

  lemma PolicyKeys(p: Policy)
    ensures PolicyValue(p).Obj?
    ensures var f := PolicyValue(p).fields;
            && f.Keys == BLOCK_KEYS && f[SCHEMA_VERSION] == Int(2)
            && f[AGE_BANDS] == Arr(Map(BandValue, p.ageBands)) && f[EDUCATION] == Arr(Map(LevelValue, p.alternatives))
            && f[SCIENCE] == (if p.science.None? then Null else Int(p.science.value))
            && f[CONVICTION] == Obj(map[RULE := Str(p.conviction.rule), NOT_UNDER_PROSECUTION := Flag(p.conviction.notUnderProsecution)])
            && f[DOCUMENTS] == Arr(Map(DocumentValue, p.documents))
            && f[CLEARANCE] == (if p.clearance.None? then Null else ClearanceValue(p.clearance.value))
  {
    hide BandValue, LevelValue, DocumentValue, ClearanceValue, RULE, NOT_UNDER_PROSECUTION;
    assert |SCHEMA_VERSION| == 13 && |AGE_BANDS| == 8 && |EDUCATION| == 21 && |SCIENCE| == 21 && |CONVICTION| == 10;
    assert |DOCUMENTS| == 9 && |CLEARANCE| == 9 && EDUCATION[0] != SCIENCE[0] && DOCUMENTS[0] != CLEARANCE[0];
  }

  lemma SoundReadBack(p: Policy)
    requires Sound(p)
    ensures Parse(PolicyValue(p)) == Some(p)
  {
    PolicyKeys(p);
    hide PolicyValue, BandValue, LevelValue, DocumentValue, ClearanceValue, ParseBand, ParseLevel, ParseDocument,
         ParseClearance, ParseConviction;
    hide NormalBand, NormalClearance, SoundDocument, LEVELS, CONVICTION_RULES, BandsDisjoint, KindsDiffer, Named;
    hide SCHEMA_VERSION, AGE_BANDS, EDUCATION, SCIENCE, CONVICTION, DOCUMENTS, CLEARANCE, RULE, NOT_UNDER_PROSECUTION,
         Map;
    PartsReadBack(p);
    ConvictionReadBack(p.conviction);
    if p.clearance.Some? {
      ClearanceReadBack(p.clearance.value);
      NotNull(p.clearance.value);
    }
  }

  lemma PartsReadBack(p: Policy)
    requires Sound(p)
    ensures All(ParseBand, Map(BandValue, p.ageBands)) == Some(p.ageBands)
    ensures All(ParseLevel, Map(LevelValue, p.alternatives)) == Some(p.alternatives)
    ensures All(ParseDocument, Map(DocumentValue, p.documents)) == Some(p.documents)
  {
    hide BandValue, LevelValue, DocumentValue, ParseBand, ParseLevel, ParseDocument;
    hide NormalBand, NormalClearance, SoundDocument, LEVELS, CONVICTION_RULES, BandsDisjoint, KindsDiffer, Named;
    forall b | b in p.ageBands ensures ParseBand(BandValue(b)) == Some(b) {
      BandReadBack(b);
    }
    forall x | x in p.alternatives ensures ParseLevel(LevelValue(x)) == Some(x) {
      LevelReadBack(x);
    }
    forall d | d in p.documents ensures ParseDocument(DocumentValue(d)) == Some(d) {
      DocumentReadBack(d);
    }
    AllReadBack(ParseBand, BandValue, p.ageBands);
    AllReadBack(ParseLevel, LevelValue, p.alternatives);
    AllReadBack(ParseDocument, DocumentValue, p.documents);
  }

  lemma NotNull(c: Clearance)
    ensures !ClearanceValue(c).Null?
  {
  }

  lemma NormalStaysOrdered(p: Policy)
    requires IsNormal(p)
    ensures Ordered(p) == p
  {
    hide BandBefore, LevelBefore, DocumentBefore, NormalBand, NormalClearance, SoundDocument, BandsDisjoint,
         KindsDiffer, LEVELS, CONVICTION_RULES, Sort;
    NormalBandsNamed(p.ageBands);
    BandsTotal(p.ageBands);
    LevelsTotal(p.alternatives);
    DocumentsTotal(p.documents);
    SortKeepsSorted(BandBefore, p.ageBands);
    SortKeepsSorted(LevelBefore, p.alternatives);
    SortKeepsSorted(DocumentBefore, p.documents);
  }

  /**
   * The normal forms are exactly the policies that normalisation leaves alone; so normalising twice is normalising
   * once.
   */
  lemma NormalIffFixed(p: Policy)
    ensures IsNormal(p) <==> Normalize(PolicyValue(p)) == Some(p)
  {
    if Normalize(PolicyValue(p)) == Some(p) {
      hide Parse, Sound, PolicyValue, Ordered;
      NormalizeIsNormal(PolicyValue(p));
    }
    if IsNormal(p) {
      SoundReadBack(p);
      NormalStaysOrdered(p);
    }
  }

  lemma NormalizeTwice(raw: Raw)
    requires Normalize(raw).Some?
    ensures Normalize(PolicyValue(Normalize(raw).value)) == Normalize(raw)
  {
    hide IsNormal, Normalize;
    NormalizeIsNormal(raw);
    NormalIffFixed(Normalize(raw).value);
  }

  // ── Same normal form, same meaning ──────────────────────────────

  /** What a band says: which qualifications, from which age to which. */
  function Meaning(b: Band): (set<string>, int, int) {
    ((set q | q in b.qualifications), b.minimumAge, b.maximumAge)
  }

  function Meanings(bands: seq<Band>): set<(set<string>, int, int)> {
    set b | b in bands :: Meaning(b)
  }

  function Elements<T>(xs: seq<T>): set<T> {
    set x | x in xs
  }

  predicate ClearanceSaysTheSame(a: Option<Clearance>, b: Option<Clearance>) {
    match (a, b)
    case (None, None) => true
    case (Some(x), Some(y)) =>
      Elements(x.allowed) == Elements(y.allowed) && Elements(x.noRecord) == Elements(y.noRecord) && x.validityDays == y.validityDays
    case _ => false
  }

  /** Two policies rule the same: lists compared as sets. */
  predicate SaysTheSame(p: Policy, q: Policy) {
    && Meanings(p.ageBands) == Meanings(q.ageBands) && Elements(p.alternatives) == Elements(q.alternatives)
    && p.science == q.science && p.conviction == q.conviction && Elements(p.documents) == Elements(q.documents)
    && ClearanceSaysTheSame(p.clearance, q.clearance)
  }

  lemma SortedSetsEqual(xs: seq<string>, ys: seq<string>)
    requires StrictlySorted(xs) && StrictlySorted(ys) && Elements(xs) == Elements(ys)
    ensures xs == ys
  {
    hide TextBefore, Sort;
    StrictlySortedStays(xs);
    StrictlySortedStays(ys);
    assert forall x :: x in xs <==> x in Elements(xs);
    assert forall y :: y in ys <==> y in Elements(ys);
    SameElementsSameMultiset(xs, ys);
    TextTotal(xs);
    SortIsCanonical(TextBefore, xs, ys);
  }

  lemma MeaningIsBand(a: Band, b: Band)
    requires NormalBand(a) && NormalBand(b) && Meaning(a) == Meaning(b)
    ensures a == b
  {
    hide Named, StrictlySorted;
    assert Elements(a.qualifications) == Elements(b.qualifications);
    SortedSetsEqual(a.qualifications, b.qualifications);
  }

  lemma MeaningsWithin(xs: seq<Band>, ys: seq<Band>)
    requires (forall b :: b in xs ==> NormalBand(b)) && (forall b :: b in ys ==> NormalBand(b))
    requires Meanings(xs) <= Meanings(ys)
    ensures forall b :: b in xs ==> b in ys
  {
    hide NormalBand, Meaning;
    forall b | b in xs ensures b in ys {
      assert Meaning(b) in Meanings(ys);
      var c :| c in ys && Meaning(c) == Meaning(b);
      MeaningIsBand(b, c);
    }
  }

  /** Disjoint bands are different bands. */
  lemma DisjointDiffer(bands: seq<Band>)
    requires BandsDisjoint(bands) && forall b :: b in bands ==> NormalBand(b)
    ensures NoDuplicates(bands)
  {
    hide StrictlySorted, IsQualification;
    forall i, j | 0 <= i < j < |bands| ensures bands[i] != bands[j] {
      assert bands[i] in bands;
      assert bands[i].qualifications[0] in bands[i].qualifications;
    }
  }

  /** The comparator as written: it has no answer for a tie. */
  function CompareBands(a: Band, b: Band): int {
    if a.maximumAge != b.maximumAge then a.maximumAge - b.maximumAge
    else if a.minimumAge != b.minimumAge then a.minimumAge - b.minimumAge
    else if TextBefore(Joined(a.qualifications), Joined(b.qualifications)) then -1
    else 1
  }

  /** What `sort` asks of a comparator on the entries of a list: opposite answers both ways, and transitivity. */
  ghost predicate ConsistentOn(bands: seq<Band>) {
    && (forall i, j :: 0 <= i < |bands| && 0 <= j < |bands| && i != j ==>
          (CompareBands(bands[i], bands[j]) < 0 <==> CompareBands(bands[j], bands[i]) > 0))
    && (forall i, j, k :: 0 <= i < |bands| && 0 <= j < |bands| && 0 <= k < |bands| ==>
          CompareBands(bands[i], bands[j]) < 0 && CompareBands(bands[j], bands[k]) < 0 ==> CompareBands(bands[i], bands[k]) < 0)
  }

  /** The comparator is consistent exactly if no band is listed twice, as the check for disjoint bands makes sure. */
  lemma ComparatorConsistentExactly(bands: seq<Band>)
    requires forall b :: b in bands ==> NormalBand(b)
    ensures forall a, b :: CompareBands(a, b) < 0 <==> BandBefore(a, b)
    ensures ConsistentOn(bands) <==> NoDuplicates(bands)
    ensures BandsDisjoint(bands) ==> ConsistentOn(bands)
  {
    NormalBandsNamed(bands);
    BandsTotal(bands);
    if BandsDisjoint(bands) {
      DisjointDiffer(bands);
    }
    TextTransitive();
    hide TextBefore, Joined, NormalBand, BandsDisjoint;
    if NoDuplicates(bands) {
      forall i, j | 0 <= i < |bands| && 0 <= j < |bands| && i != j
        ensures CompareBands(bands[i], bands[j]) < 0 <==> CompareBands(bands[j], bands[i]) > 0
      {
        assert bands[i] in bands && bands[j] in bands && bands[i] != bands[j];
        assert BandBefore(bands[i], bands[j]) || BandBefore(bands[j], bands[i]);
      }
    }
    if ConsistentOn(bands) {
      forall i, j | 0 <= i < j < |bands| ensures bands[i] != bands[j] {
        assert CompareBands(bands[i], bands[j]) < 0 <==> CompareBands(bands[j], bands[i]) > 0;
      }
    }
  }

  lemma SameBandsSorted(xs: seq<Band>, ys: seq<Band>)
    requires (forall b :: b in xs ==> NormalBand(b)) && (forall b :: b in ys ==> NormalBand(b)) && BandsDisjoint(xs)
    requires BandsDisjoint(ys)
    ensures Sort(BandBefore, xs) == Sort(BandBefore, ys) <==> Meanings(xs) == Meanings(ys)
  {
    hide NormalBand, BandsDisjoint, BandBefore, Meaning, Sort;
    DisjointDiffer(xs);
    DisjointDiffer(ys);
    NormalBandsNamed(xs);
    BandsTotal(xs);
    SortIsCanonical(BandBefore, xs, ys);
    if multiset(xs) == multiset(ys) {
      SameMultisetSameElements(xs, ys);
    }
    if Meanings(xs) == Meanings(ys) {
      MeaningsWithin(xs, ys);
      MeaningsWithin(ys, xs);
      SameElementsSameMultiset(xs, ys);
    }
  }

  lemma SameSetSorted<T(!new)>(less: (T, T) -> bool, xs: seq<T>, ys: seq<T>)
    requires NoDuplicates(xs) && NoDuplicates(ys) && StrictTotalOn(less, xs)
    ensures Sort(less, xs) == Sort(less, ys) <==> Elements(xs) == Elements(ys)
  {
    hide Sort;
    SortIsCanonical(less, xs, ys);
    if multiset(xs) == multiset(ys) {
      SameMultisetSameElements(xs, ys);
    }
    if Elements(xs) == Elements(ys) {
      assert forall x :: x in xs <==> x in Elements(xs);
      assert forall y :: y in ys <==> y in Elements(ys);
      SameElementsSameMultiset(xs, ys);
    }
  }

  lemma ClearanceCanonical(a: Option<Clearance>, b: Option<Clearance>)
    requires (a.Some? ==> NormalClearance(a.value)) && (b.Some? ==> NormalClearance(b.value))
    ensures a == b <==> ClearanceSaysTheSame(a, b)
  {
    hide StrictlySorted, IsRegistryCode;
    if a.Some? && b.Some? && ClearanceSaysTheSame(a, b) {
      SortedSetsEqual(a.value.allowed, b.value.allowed);
      SortedSetsEqual(a.value.noRecord, b.value.noRecord);
    }
  }

  lemma SoundCanonical(p: Policy, q: Policy)
    requires Sound(p) && Sound(q)
    ensures Ordered(p) == Ordered(q) <==> SaysTheSame(p, q)
  {
    hide BandBefore, LevelBefore, DocumentBefore, NormalBand, NormalClearance, SoundDocument, BandsDisjoint, LEVELS,
         CONVICTION_RULES, Sort;
    hide Meanings, ClearanceSaysTheSame;
    SameBandsSorted(p.ageBands, q.ageBands);
    LevelsTotal(p.alternatives);
    SameSetSorted(LevelBefore, p.alternatives, q.alternatives);
    DocumentsTotal(p.documents);
    SameSetSorted(DocumentBefore, p.documents, q.documents);
    ClearanceCanonical(p.clearance, q.clearance);
  }

  /** Accepted blocks have the same normal form exactly when they rule the same. */
  lemma NormalFormIsFaithful(v: Raw, w: Raw)
    requires Parse(v).Some? && Parse(w).Some?
    ensures Normalize(v) == Normalize(w) <==> SaysTheSame(Parse(v).value, Parse(w).value)
  {
    hide Parse, Sound, SaysTheSame, Ordered;
    ParsedSound(v);
    ParsedSound(w);
    SoundCanonical(Parse(v).value, Parse(w).value);
  }
}
