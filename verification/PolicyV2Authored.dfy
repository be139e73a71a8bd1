/**
 * Normalisation said without its checks and its sorts: which authored blocks are accepted, and how the normal form is
 * read off the block, list by list, each in its documented order.
 */
module PolicyV2Authored {
  import opened Wrappers
  import opened Sorting
  import opened PolicyV2
  import opened PolicyV2Laws
  import opened PolicyV2Order

  // ── Ascending text ──────────────────────────────────────────────

  /** A smaller code unit at the first difference, or a proper prefix. */
  ghost predicate Earlier(a: string, b: string) {
    exists n :: 0 <= n <= |a| && n < |b| && a[..n] == b[..n] && (n == |a| || a[n] < b[n])
  }

  lemma {:induction false} BeforeIsEarlier(a: string, b: string)
    requires TextBefore(a, b)
    ensures Earlier(a, b)
  {
    if a == [] {
      assert a[..0] == b[..0];
    } else if a[0] == b[0] {
      BeforeIsEarlier(a[1..], b[1..]);
      var n :| 0 <= n <= |a[1..]| && n < |b[1..]| && a[1..][..n] == b[1..][..n] && (n == |a[1..]| || a[1..][n] < b[1..][n]);
      assert a[..n + 1] == [a[0]] + a[1..][..n] && b[..n + 1] == [b[0]] + b[1..][..n];
    } else {
      assert a[..0] == b[..0];
    }
  }

  lemma EarlierOneWay(a: string, b: string)
    requires Earlier(a, b)
    ensures a != b && !Earlier(b, a)
  {
    var n :| 0 <= n <= |a| && n < |b| && a[..n] == b[..n] && (n == |a| || a[n] < b[n]);
    forall m | 0 <= m <= |b| && m < |a| ensures b[..m] != a[..m] || (m < |b| && b[m] >= a[m]) {
      if m < n {
        assert a[m] == a[..n][m] && b[m] == b[..n][m];
      } else if n < m {
        assert a[n] == a[..m][n] && b[n] == b[..m][n];
      }
    }
  }

  lemma EarlierMeans(a: string, b: string)
    ensures Earlier(a, b) <==> TextBefore(a, b)
  {
    TextTotal([a, b]);
    hide TextBefore, Earlier;
    if TextBefore(a, b) {
      BeforeIsEarlier(a, b);
    } else if Earlier(a, b) {
      EarlierOneWay(a, b);
      BeforeIsEarlier(b, a);
    }
  }

  ghost predicate Ascending(xs: seq<string>) {
    forall i, j :: 0 <= i < j < |xs| ==> Earlier(xs[i], xs[j])
  }

  lemma AscendingMeans(xs: seq<string>)
    ensures Ascending(xs) <==> StrictlySorted(xs)
  {
    hide Earlier, TextBefore;
    forall i, j | 0 <= i < j < |xs| ensures Earlier(xs[i], xs[j]) <==> TextBefore(xs[i], xs[j]) {
      EarlierMeans(xs[i], xs[j]);
    }
  }

  // ── A list of texts, taken as a set and sorted ──────────────────

  /** The list holds these texts, and nothing but texts. */
  predicate Spells(items: seq<Raw>, texts: seq<string>) {
    && (forall x :: x in items ==> x.Str? && x.s in texts)
    && (forall t :: t in texts ==> Str(t) in items)
  }

  lemma SpelledOnce(items: seq<Raw>, xs: seq<string>, ys: seq<string>)
    requires Spells(items, xs) && Spells(items, ys) && Ascending(xs) && Ascending(ys)
    ensures xs == ys
  {
    hide Ascending, StrictlySorted;
    AscendingMeans(xs);
    AscendingMeans(ys);
    forall t ensures t in xs <==> t in ys {
      assert Str(t) in items ==> Str(t).s in xs && Str(t).s in ys;
    }
    assert Elements(xs) == Elements(ys);
    SortedSetsEqual(xs, ys);
  }

  predicate NamesQualification(s: string) {
    s in LEVELS || exists f :: f in SPECIALIST_FIELDS && s == "FIELD:" + f
  }

  lemma QualificationMeans(s: string)
    ensures IsQualification(s) <==> NamesQualification(s)
  {
    NoLevelIsField();
    hide LEVELS, SPECIALIST_FIELDS;
    if FIELD_PREFIX <= s {
      assert s == FIELD_PREFIX + s[|FIELD_PREFIX|..];
    }
    forall f | s == FIELD_PREFIX + f ensures FIELD_PREFIX <= s && s[|FIELD_PREFIX|..] == f {
    }
  }

  lemma NoLevelIsField()
    ensures forall s :: s in LEVELS ==> !(FIELD_PREFIX <= s)
  {
    forall s | s in LEVELS ensures !(FIELD_PREFIX <= s) {
      assert s[0] != 'F';
    }
  }

  /** The authored band `raw` says `b`: its qualifications once each and in order, its two ages. */
  ghost predicate SaysBand(raw: Raw, b: Band) {
    && raw.Obj? && raw.fields.Keys == {QUALIFICATIONS, MINIMUM_AGE, MAXIMUM_AGE}
    && raw.fields[QUALIFICATIONS].Arr? && 1 <= |raw.fields[QUALIFICATIONS].items| <= 12
    && Spells(raw.fields[QUALIFICATIONS].items, b.qualifications) && Ascending(b.qualifications)
    && (forall q :: q in b.qualifications ==> NamesQualification(q))
    && raw.fields[MINIMUM_AGE] == Int(b.minimumAge) && raw.fields[MAXIMUM_AGE] == Int(b.maximumAge)
    && 0 <= b.minimumAge <= b.maximumAge <= 130
  }

  lemma AllSpelled(check: Raw -> Option<string>, items: seq<Raw>)
    requires All(check, items).Some? && forall x :: check(x).Some? ==> x == Str(check(x).value)
    ensures Spells(items, All(check, items).value)
  {
    var texts := All(check, items).value;
    forall x | x in items ensures x.Str? && x.s in texts {
      var i :| 0 <= i < |items| && items[i] == x;
      assert check(x) == Some(texts[i]);
    }
    forall t | t in texts ensures Str(t) in items {
      var i :| 0 <= i < |texts| && texts[i] == t;
      assert check(items[i]) == Some(t);
    }
  }

  lemma QualificationsSaid(items: seq<Raw>, named: seq<string>)
    requires All(Qualification, items) == Some(named)
    ensures Spells(items, Sort(TextBefore, Unique(named)))
  {
    AllSpelled(Qualification, items);
    hide All, TextBefore, Sort, IsQualification, Unique;
    SortPermutes(TextBefore, Unique(named));
  }

  lemma NormalBandSays(b: Band)
    requires NormalBand(b)
    ensures Ascending(b.qualifications) && forall q :: q in b.qualifications ==> NamesQualification(q)
  {
    hide TextBefore, IsQualification, Earlier, NamesQualification;
    AscendingMeans(b.qualifications);
    forall q | q in b.qualifications ensures NamesQualification(q) {
      QualificationMeans(q);
    }
  }

  lemma ParsedBandSays(raw: Raw)
    requires ParseBand(raw).Some?
    ensures SaysBand(raw, ParseBand(raw).value)
  {
    hide TextBefore, Sort, IsQualification, NamesQualification, QUALIFICATIONS, MINIMUM_AGE, MAXIMUM_AGE, Unique, Ascending, Spells,
         NormalBand, Qualification, All;
    ParsedBandNormal(raw);
    NormalBandSays(ParseBand(raw).value);
    QualificationsSaid(raw.fields[QUALIFICATIONS].items, All(Qualification, raw.fields[QUALIFICATIONS].items).value);
  }

  lemma SaidBandParsed(raw: Raw, b: Band)
    requires SaysBand(raw, b)
    ensures ParseBand(raw).Some?
  {
    hide TextBefore, Sort, IsQualification, Ascending, NamesQualification, QUALIFICATIONS, MINIMUM_AGE, MAXIMUM_AGE,
         Unique;
    var items := raw.fields[QUALIFICATIONS].items;
    forall i | 0 <= i < |items| ensures Qualification(items[i]).Some? {
      assert items[i] in items;
      QualificationMeans(items[i].s);
    }
  }

  lemma BandExactly(raw: Raw, b: Band)
    ensures ParseBand(raw) == Some(b) <==> SaysBand(raw, b)
  {
    if ParseBand(raw).Some? {
      ParsedBandSays(raw);
    }
    if SaysBand(raw, b) {
      SaidBandParsed(raw, b);
      hide ParseBand, Ascending, Spells, NamesQualification;
      SpelledOnce(raw.fields[QUALIFICATIONS].items, b.qualifications, ParseBand(raw).value.qualifications);
    }
  }

  /** 1 to 64 capitals and digits; `_`, `:` and `-` too, but not in front. */
  predicate TokenText(s: string) {
    1 <= |s| <= 64 && forall i :: 0 <= i < |s| ==> 'A' <= s[i] <= 'Z' || '0' <= s[i] <= '9' || (i > 0 && s[i] in "_:-")
  }

  /** The same with small letters, and with `.` inside. */
  predicate RegistryText(s: string) {
    1 <= |s| <= 64
    && forall i :: 0 <= i < |s| ==>
         'A' <= s[i] <= 'Z' || 'a' <= s[i] <= 'z' || '0' <= s[i] <= '9' || (i > 0 && s[i] in "_:.-")
  }

  lemma CodeTexts(s: string)
    ensures IsCodeToken(s) <==> TokenText(s)
    ensures IsRegistryCode(s) <==> RegistryText(s)
  {
    assert forall i :: 0 <= i < |s| ==> s[i] in s;
    assert "_:-" == ['_', ':', '-'] && "_:.-" == ['_', ':', '.', '-'];
    if 1 <= |s| && IsCodeToken(s) {
      assert TokenText(s);
    }
    if 1 <= |s| && IsRegistryCode(s) {
      assert RegistryText(s);
    }
  }

  /** A set of registry codes, at least `min` and none twice. */
  ghost predicate SaysCodes(raw: Raw, codes: seq<string>, min: nat) {
    && raw.Arr? && min <= |raw.items| <= 20 && |codes| == |raw.items|
    && Spells(raw.items, codes) && Ascending(codes) && forall c :: c in codes ==> RegistryText(c)
  }

  lemma CodesExactly(raw: Raw, codes: seq<string>, min: nat)
    ensures CodeSetOf(raw, min) == Some(codes) <==> SaysCodes(raw, codes, min)
  {
    if CodeSetOf(raw, min).Some? {
      CodesSaid(raw, min);
    }
    if SaysCodes(raw, codes, min) {
      SaidCodes(raw, codes, min);
      hide CodeSetOf, Ascending, Spells, RegistryText;
      SpelledOnce(raw.items, codes, CodeSetOf(raw, min).value);
    }
  }

  lemma CodesSaid(raw: Raw, min: nat)
    requires CodeSetOf(raw, min).Some?
    ensures SaysCodes(raw, CodeSetOf(raw, min).value, min)
  {
    var codes := All(RegistryCode, raw.items).value;
    assert min <= |codes| <= 20 && |codes| == |raw.items|;
    hide *;
    CodeSetNormal(raw, min);
    SpelledSorted(raw.items, codes);
    NormalCodesRead(Sort(TextBefore, codes), min);
    TheseCodes(raw, min, codes);
  }

  lemma TheseCodes(raw: Raw, min: nat, codes: seq<string>)
    requires CodeSetOf(raw, min).Some? && All(RegistryCode, raw.items) == Some(codes)
    ensures CodeSetOf(raw, min) == Some(Sort(TextBefore, codes))
  {
  }

  lemma SpelledSorted(items: seq<Raw>, codes: seq<string>)
    requires All(RegistryCode, items) == Some(codes)
    ensures Spells(items, Sort(TextBefore, codes)) && |Sort(TextBefore, codes)| == |items|
  {
    hide *;
    RegistrySpelled(items);
    AllSizes(RegistryCode, items);
    SortPermutes(TextBefore, codes);
    SpelledAlike(items, codes, Sort(TextBefore, codes));
  }

  lemma RegistrySpelled(items: seq<Raw>)
    requires All(RegistryCode, items).Some?
    ensures Spells(items, All(RegistryCode, items).value)
  {
    hide All, IsRegistryCode, Spells;
    AllSpelled(RegistryCode, items);
  }

  lemma SpelledAlike(items: seq<Raw>, xs: seq<string>, ys: seq<string>)
    requires Spells(items, xs) && forall t :: t in ys <==> t in xs
    ensures Spells(items, ys)
  {
  }

  lemma NormalCodesRead(codes: seq<string>, min: nat)
    requires NormalCodes(codes, min)
    ensures Ascending(codes) && forall c :: c in codes ==> RegistryText(c)
  {
    hide TextBefore, Earlier, IsRegistryCode, RegistryText;
    AscendingMeans(codes);
    forall c | c in codes ensures RegistryText(c) {
      CodeTexts(c);
    }
  }

  /** As many codes as entries, all different: the entries are different too. */
  lemma SaidCodes(raw: Raw, codes: seq<string>, min: nat)
    requires SaysCodes(raw, codes, min)
    ensures CodeSetOf(raw, min).Some?
  {
    AscendingMeans(codes);
    hide Earlier, TextBefore, IsRegistryCode, RegistryText, Sort;
    forall i | 0 <= i < |raw.items| ensures RegistryCode(raw.items[i]).Some? {
      assert raw.items[i] in raw.items;
      CodeTexts(raw.items[i].s);
    }
    var named := All(RegistryCode, raw.items).value;
    StrictlySortedStays(codes);
    AllSpelled(RegistryCode, raw.items);
    forall c | c in codes ensures c in named {
      assert Str(c) in raw.items;
    }
    SameCount(codes, named);
    NoDuplicatesPermuted(codes, named);
  }

  lemma SameCount<T(!new)>(xs: seq<T>, ys: seq<T>)
    requires NoDuplicates(xs) && |xs| == |ys| && forall x :: x in xs ==> x in ys
    ensures multiset(xs) == multiset(ys)
  {
    MultiplicityOne(xs);
    forall x ensures multiset(xs)[x] <= multiset(ys)[x] {
      if x in xs {
        assert x in multiset(ys);
      }
    }
    assert multiset(xs) <= multiset(ys);
    assert multiset(ys) == multiset(xs) + (multiset(ys) - multiset(xs));
    assert |multiset(xs)| == |xs| && |multiset(ys)| == |ys|;
  }

  // ── The other parts ─────────────────────────────────────────────

  predicate SaysLevel(raw: Raw, level: string) {
    raw.Obj? && raw.fields == map[LEVEL := Str(level)] && level in LEVELS
  }

  predicate SaysConviction(raw: Raw, c: Conviction) {
    && raw.Obj? && raw.fields.Keys == {RULE, NOT_UNDER_PROSECUTION} && raw.fields[RULE] == Str(c.rule)
    && raw.fields[NOT_UNDER_PROSECUTION] == Flag(c.notUnderProsecution) && c.rule in CONVICTION_RULES
  }

  predicate SaysDocument(raw: Raw, d: DocumentRule) {
    && raw.Obj? && raw.fields.Keys == {TYPE, SATISFACTION, NOTARISED} && raw.fields[TYPE] == Str(d.kind)
    && raw.fields[SATISFACTION] == Str(d.satisfaction) && raw.fields[NOTARISED] == Flag(d.notarised)
    && TokenText(d.kind) && d.satisfaction in SATISFACTION_MODES
  }

  ghost predicate SaysClearance(raw: Raw, c: Clearance) {
    && raw.Obj? && raw.fields.Keys == {ALLOWED, NO_RECORD, VALIDITY}
    && SaysCodes(raw.fields[ALLOWED], c.allowed, 1) && SaysCodes(raw.fields[NO_RECORD], c.noRecord, 0)
    && (forall code :: code in c.noRecord ==> code in c.allowed)
    && raw.fields[VALIDITY] == Int(c.validityDays) && 1 <= c.validityDays <= 3650
  }

  lemma LevelExactly(raw: Raw, level: string)
    ensures ParseLevel(raw) == Some(level) <==> SaysLevel(raw, level)
  {
    hide LEVELS;
  }

  lemma ConvictionExactly(raw: Raw, c: Conviction)
    ensures ParseConviction(raw) == Some(c) <==> SaysConviction(raw, c)
  {
    hide CONVICTION_RULES, RULE, NOT_UNDER_PROSECUTION;
  }

  lemma DocumentExactly(raw: Raw, d: DocumentRule)
    ensures ParseDocument(raw) == Some(d) <==> SaysDocument(raw, d)
  {
    CodeTexts(d.kind);
    hide SATISFACTION_MODES, IsCodeToken, TokenText, TYPE, SATISFACTION, NOTARISED;
  }

  lemma ClearanceExactly(raw: Raw, c: Clearance)
    ensures ParseClearance(raw) == Some(c) <==> SaysClearance(raw, c)
  {
    hide CodeSetOf, SaysCodes, ALLOWED, NO_RECORD, VALIDITY;
    if raw.Obj? && raw.fields.Keys == {ALLOWED, NO_RECORD, VALIDITY} {
      CodesExactly(raw.fields[ALLOWED], c.allowed, 1);
      CodesExactly(raw.fields[NO_RECORD], c.noRecord, 0);
    }
  }

  // ── A list of objects, each said by one entry ───────────────────

  /** `min` to `max` entries, as many results, each entry saying one of them and each of them said. */
  ghost predicate Lists<T(!new)>(raw: Raw, min: nat, max: nat, xs: seq<T>, says: (Raw, T) -> bool) {
    && raw.Arr? && min <= |raw.items| <= max && |xs| == |raw.items|
    && (forall r :: r in raw.items ==> exists x :: x in xs && says(r, x))
    && (forall x :: x in xs ==> exists r :: r in raw.items && says(r, x))
  }

  lemma ListIsSaid<T(!new)>(check: Raw -> Option<T>, says: (Raw, T) -> bool, less: (T, T) -> bool, raw: Raw, min: nat,
      max: nat)
    requires Entries(raw, min, max).Some? && All(check, raw.items).Some?
    requires forall r, x :: check(r) == Some(x) <==> says(r, x)
    ensures Lists(raw, min, max, Sort(less, All(check, raw.items).value), says)
  {
    AllSizes(check, raw.items);
    FoundIsSaid(check, says, raw.items);
    hide Sort, All;
    SortPermutes(less, All(check, raw.items).value);
  }

  lemma FoundIsSaid<T(!new)>(check: Raw -> Option<T>, says: (Raw, T) -> bool, items: seq<Raw>)
    requires All(check, items).Some?
    requires forall r, x :: check(r) == Some(x) <==> says(r, x)
    ensures forall r :: r in items ==> exists x :: x in All(check, items).value && says(r, x)
    ensures forall x :: x in All(check, items).value ==> exists r :: r in items && says(r, x)
  {
    var found := All(check, items).value;
    assert forall i :: 0 <= i < |found| ==> check(items[i]) == Some(found[i]);
    hide All;
    forall r | r in items ensures exists x :: x in found && says(r, x) {
      var i :| 0 <= i < |items| && items[i] == r;
      assert check(r) == Some(found[i]);
      assert found[i] in found;
    }
    forall x | x in found ensures exists r :: r in items && says(r, x) {
      var i :| 0 <= i < |found| && found[i] == x;
      assert check(items[i]) == Some(x);
    }
  }

  lemma SaidIsList<T(!new)>(check: Raw -> Option<T>, says: (Raw, T) -> bool, less: (T, T) -> bool, raw: Raw, min: nat,
      max: nat,
      xs: seq<T>)
    requires Lists(raw, min, max, xs, says) && NoDuplicates(xs) && StrictTotalOn(less, xs) && SortedBy(less, xs)
    requires forall r, x :: check(r) == Some(x) <==> says(r, x)
    ensures Entries(raw, min, max).Some? && All(check, raw.items).Some?
    ensures multiset(All(check, raw.items).value) == multiset(xs) && Sort(less, All(check, raw.items).value) == xs
  {
    forall i | 0 <= i < |raw.items| ensures check(raw.items[i]).Some? {
      assert raw.items[i] in raw.items;
      var x :| x in xs && says(raw.items[i], x);
      assert check(raw.items[i]) == Some(x);
    }
    var found := All(check, raw.items).value;
    forall x | x in xs ensures x in found {
      var r :| r in raw.items && says(r, x);
      var i :| 0 <= i < |raw.items| && raw.items[i] == r;
      assert check(r) == Some(x) && found[i] == x;
    }
    SameCount(xs, found);
    hide Sort;
    SortIsCanonical(less, xs, found);
    SortKeepsSorted(less, xs);
  }

  // ── The whole block ─────────────────────────────────────────────

  /** By cap, then by minimum, then by the qualifications joined with commas. */
  ghost predicate BandsAscend(bands: seq<Band>) {
    forall i, j :: 0 <= i < j < |bands| ==>
      || bands[i].maximumAge < bands[j].maximumAge
      || (bands[i].maximumAge == bands[j].maximumAge && bands[i].minimumAge < bands[j].minimumAge)
      || (bands[i].maximumAge == bands[j].maximumAge && bands[i].minimumAge == bands[j].minimumAge
          && Earlier(Joined(bands[i].qualifications), Joined(bands[j].qualifications)))
  }

  ghost predicate Under(x: string, y: string) {
    exists a, b :: 0 <= a < b < |LEVELS| && LEVELS[a] == x && LEVELS[b] == y
  }

  /** Up the ladder. */
  ghost predicate LevelsAscend(levels: seq<string>) {
    forall i, j :: 0 <= i < j < |levels| ==> Under(levels[i], levels[j])
  }

  ghost predicate KindsAscend(documents: seq<DocumentRule>) {
    forall i, j :: 0 <= i < j < |documents| ==> Earlier(documents[i].kind, documents[j].kind)
  }

  ghost predicate SaysBands(raw: Raw, bands: seq<Band>) {
    && Lists(raw, 1, 8, bands, SaysBand) && BandsAscend(bands)
    && forall i, j, q :: 0 <= i < j < |bands| && q in bands[i].qualifications ==> q !in bands[j].qualifications
  }

  ghost predicate SaysLevels(raw: Raw, levels: seq<string>) {
    Lists(raw, 1, 7, levels, SaysLevel) && LevelsAscend(levels)
  }

  ghost predicate SaysDocuments(raw: Raw, documents: seq<DocumentRule>) {
    Lists(raw, 1, 20, documents, SaysDocument) && KindsAscend(documents)
  }

  /** The authored block `raw` says exactly the policy `p`. */
  ghost predicate SaysPolicy(raw: Raw, p: Policy) {
    && raw.Obj? && raw.fields.Keys == BLOCK_KEYS && raw.fields[SCHEMA_VERSION] == Int(2)
    && SaysBands(raw.fields[AGE_BANDS], p.ageBands)
    && SaysLevels(raw.fields[EDUCATION], p.alternatives)
    && (match p.science case None => raw.fields[SCIENCE] == Null case Some(n) => raw.fields[SCIENCE] == Int(n) && 1 <= n <= 100)
    && SaysConviction(raw.fields[CONVICTION], p.conviction)
    && SaysDocuments(raw.fields[DOCUMENTS], p.documents)
    && (match p.clearance case None => raw.fields[CLEARANCE] == Null case Some(c) => SaysClearance(raw.fields[CLEARANCE], c))
  }

  lemma SortedApart<T(!new)>(less: (T, T) -> bool, xs: seq<T>)
    requires StrictTotalOn(less, xs) && NoDuplicates(xs) && SortedBy(less, xs)
    ensures forall i, j :: 0 <= i < j < |xs| ==> less(xs[i], xs[j])
  {
    forall i, j | 0 <= i < j < |xs| ensures less(xs[i], xs[j]) {
      assert xs[i] in xs && xs[j] in xs && !less(xs[j], xs[i]);
    }
  }

  lemma ApartSorted<T(!new)>(less: (T, T) -> bool, xs: seq<T>)
    requires StrictTotalOn(less, xs) && forall i, j :: 0 <= i < j < |xs| ==> less(xs[i], xs[j])
    ensures NoDuplicates(xs) && SortedBy(less, xs)
  {
    forall i, j | 0 <= i < j < |xs| ensures xs[i] != xs[j] && !less(xs[j], xs[i]) {
      assert xs[i] in xs && xs[j] in xs && less(xs[i], xs[j]);
    }
  }

  lemma BandsAscendMeans(bands: seq<Band>)
    ensures BandsAscend(bands) <==> forall i, j :: 0 <= i < j < |bands| ==> BandBefore(bands[i], bands[j])
  {
    hide TextBefore, Earlier, Joined;
    forall i, j | 0 <= i < j < |bands|
      ensures Earlier(Joined(bands[i].qualifications), Joined(bands[j].qualifications))
         <==> TextBefore(Joined(bands[i].qualifications), Joined(bands[j].qualifications))
    {
      EarlierMeans(Joined(bands[i].qualifications), Joined(bands[j].qualifications));
    }
  }

  lemma UnderMeans(x: string, y: string)
    requires x in LEVELS && y in LEVELS
    ensures Under(x, y) <==> LevelBefore(x, y)
  {
    LadderDiffers();
    hide LEVELS;
    assert LEVELS[Rung(x)] == x && LEVELS[Rung(y)] == y;
  }

  lemma LevelsAscendMeans(levels: seq<string>)
    requires forall x :: x in levels ==> x in LEVELS
    ensures LevelsAscend(levels) <==> forall i, j :: 0 <= i < j < |levels| ==> LevelBefore(levels[i], levels[j])
  {
    hide LEVELS, Under, LevelBefore;
    forall i, j | 0 <= i < j < |levels| ensures LevelBefore(levels[i], levels[j]) <==> Under(levels[i], levels[j]) {
      UnderMeans(levels[i], levels[j]);
    }
  }

  lemma KindsAscendMeans(documents: seq<DocumentRule>)
    ensures KindsAscend(documents) <==> forall i, j :: 0 <= i < j < |documents| ==> DocumentBefore(documents[i], documents[j])
  {
    hide TextBefore, Earlier;
    forall i, j | 0 <= i < j < |documents|
      ensures Earlier(documents[i].kind, documents[j].kind) <==> TextBefore(documents[i].kind, documents[j].kind)
    {
      EarlierMeans(documents[i].kind, documents[j].kind);
    }
  }

  // ── Each list is its part of the normal form ────────────────────

  lemma BandChecked()
    ensures forall r, b :: ParseBand(r) == Some(b) <==> SaysBand(r, b)
  {
    hide ParseBand, SaysBand;
    forall r, b ensures ParseBand(r) == Some(b) <==> SaysBand(r, b) {
      BandExactly(r, b);
    }
  }

  lemma SaidBandsNormal(raw: Raw, bands: seq<Band>)
    requires Lists(raw, 1, 8, bands, SaysBand)
    ensures forall b :: b in bands ==> NormalBand(b)
    ensures StrictTotalOn(BandBefore, bands)
  {
    EachBandSaid(raw, bands);
    hide *;
    NormalBandsNamed(bands);
    BandsTotal(bands);
  }

  lemma EachBandSaid(raw: Raw, bands: seq<Band>)
    requires Lists(raw, 1, 8, bands, SaysBand)
    ensures forall b :: b in bands ==> NormalBand(b)
  {
    hide *;
    forall b | b in bands ensures NormalBand(b) {
      var r := SaidBy(raw, bands, b);
      BandExactly(r, b);
      ParsedBandNormal(r);
    }
  }

  lemma SaidBy(raw: Raw, bands: seq<Band>, b: Band) returns (r: Raw)
    requires Lists(raw, 1, 8, bands, SaysBand) && b in bands
    ensures SaysBand(r, b)
  {
    hide SaysBand;
    r :| r in raw.items && SaysBand(r, b);
  }

  lemma BandsPartSays(raw: Raw)
    requires BandsPart(raw).Some?
    ensures SaysBands(raw, BandsPart(raw).value)
  {
    var found := All(ParseBand, raw.items).value;
    var bands := Sort(BandBefore, found);
    hide ParseBand, SaysBand, BandBefore, All, Sort, NormalBand, BandsAscend;
    BandChecked();
    ListIsSaid(ParseBand, SaysBand, BandBefore, raw, 1, 8);
    SaidBandsNormal(raw, bands);
    SortPermutes(BandBefore, found);
    BandsDisjointPermuted(found, bands);
    DisjointDiffer(bands);
    ParsedBandsTotal(raw.items, found);
    SortSorts(BandBefore, found);
    SortedApart(BandBefore, bands);
    BandsAscendMeans(bands);
  }

  lemma SaidBandsPart(raw: Raw, bands: seq<Band>)
    requires SaysBands(raw, bands)
    ensures BandsPart(raw) == Some(bands)
  {
    assert BandsDisjoint(bands);
    BandsAscendMeans(bands);
    hide ParseBand, SaysBand, BandBefore, All, Sort, NormalBand, BandsAscend, Lists, BandsDisjoint;
    BandChecked();
    SaidBandsNormal(raw, bands);
    ApartSorted(BandBefore, bands);
    SaidIsList(ParseBand, SaysBand, BandBefore, raw, 1, 8, bands);
    BandsDisjointPermuted(bands, All(ParseBand, raw.items).value);
  }

  lemma BandsExactly(raw: Raw, bands: seq<Band>)
    ensures BandsPart(raw) == Some(bands) <==> SaysBands(raw, bands)
  {
    hide BandsPart, SaysBands;
    if BandsPart(raw).Some? {
      BandsPartSays(raw);
    }
    if SaysBands(raw, bands) {
      SaidBandsPart(raw, bands);
    }
  }

  lemma LevelChecked()
    ensures forall r, x :: ParseLevel(r) == Some(x) <==> SaysLevel(r, x)
  {
    hide ParseLevel, SaysLevel;
    forall r, x ensures ParseLevel(r) == Some(x) <==> SaysLevel(r, x) {
      LevelExactly(r, x);
    }
  }

  lemma SaidLevels(raw: Raw, levels: seq<string>)
    requires Lists(raw, 1, 7, levels, SaysLevel)
    ensures forall x :: x in levels ==> x in LEVELS
    ensures StrictTotalOn(LevelBefore, levels)
  {
    hide LEVELS, LevelBefore;
    LevelsTotal(levels);
  }

  lemma LevelsPartSays(raw: Raw)
    requires LevelsPart(raw).Some?
    ensures SaysLevels(raw, LevelsPart(raw).value)
  {
    var found := All(ParseLevel, raw.items).value;
    var levels := Sort(LevelBefore, found);
    hide ParseLevel, SaysLevel, LevelBefore, All, Sort, LevelsAscend, LEVELS;
    LevelChecked();
    ListIsSaid(ParseLevel, SaysLevel, LevelBefore, raw, 1, 7);
    SaidLevels(raw, levels);
    ParsedLevels(raw.items);
    LevelsTotal(found);
    SortPermutes(LevelBefore, found);
    NoDuplicatesPermuted(found, levels);
    SortSorts(LevelBefore, found);
    SortedApart(LevelBefore, levels);
    LevelsAscendMeans(levels);
  }

  lemma SaidLevelsPart(raw: Raw, levels: seq<string>)
    requires SaysLevels(raw, levels)
    ensures LevelsPart(raw) == Some(levels)
  {
    hide ParseLevel, SaysLevel, LevelBefore, All, Sort, LevelsAscend, LEVELS, Lists, NoDuplicates;
    LevelChecked();
    SaidLevels(raw, levels);
    LevelsAscendMeans(levels);
    ApartSorted(LevelBefore, levels);
    SaidIsList(ParseLevel, SaysLevel, LevelBefore, raw, 1, 7, levels);
    NoDuplicatesPermuted(levels, All(ParseLevel, raw.items).value);
  }

  lemma LevelsExactly(raw: Raw, levels: seq<string>)
    ensures LevelsPart(raw) == Some(levels) <==> SaysLevels(raw, levels)
  {
    hide LevelsPart, SaysLevels;
    if LevelsPart(raw).Some? {
      LevelsPartSays(raw);
    }
    if SaysLevels(raw, levels) {
      SaidLevelsPart(raw, levels);
    }
  }

  lemma DocumentChecked()
    ensures forall r, d :: ParseDocument(r) == Some(d) <==> SaysDocument(r, d)
  {
    hide ParseDocument, SaysDocument;
    forall r, d ensures ParseDocument(r) == Some(d) <==> SaysDocument(r, d) {
      DocumentExactly(r, d);
    }
  }

  lemma DocumentsPartSays(raw: Raw)
    requires DocumentsPart(raw).Some?
    ensures SaysDocuments(raw, DocumentsPart(raw).value)
  {
    var found := All(ParseDocument, raw.items).value;
    var documents := Sort(DocumentBefore, found);
    hide ParseDocument, SaysDocument, DocumentBefore, All, Sort, KindsAscend, KindsDiffer;
    DocumentChecked();
    ListIsSaid(ParseDocument, SaysDocument, DocumentBefore, raw, 1, 20);
    DocumentsTotal(found);
    SortPermutes(DocumentBefore, found);
    KindsDifferPermuted(found, documents);
    DocumentsTotal(documents);
    KindsDistinct(documents);
    SortSorts(DocumentBefore, found);
    SortedApart(DocumentBefore, documents);
    KindsAscendMeans(documents);
  }

  lemma KindsDistinct(documents: seq<DocumentRule>)
    requires KindsDiffer(documents)
    ensures NoDuplicates(documents)
  {
  }

  lemma AscendingKindsDiffer(documents: seq<DocumentRule>)
    requires KindsAscend(documents)
    ensures KindsDiffer(documents)
  {
    hide Earlier;
    forall i, j | 0 <= i < j < |documents| ensures documents[i].kind != documents[j].kind {
      EarlierOneWay(documents[i].kind, documents[j].kind);
    }
  }

  lemma SaidDocumentsPart(raw: Raw, documents: seq<DocumentRule>)
    requires SaysDocuments(raw, documents)
    ensures DocumentsPart(raw) == Some(documents)
  {
    hide ParseDocument, SaysDocument, DocumentBefore, All, Sort, KindsAscend, KindsDiffer, Lists, NoDuplicates;
    DocumentChecked();
    AscendingKindsDiffer(documents);
    DocumentsTotal(documents);
    KindsAscendMeans(documents);
    ApartSorted(DocumentBefore, documents);
    SaidIsList(ParseDocument, SaysDocument, DocumentBefore, raw, 1, 20, documents);
    KindsDifferPermuted(documents, All(ParseDocument, raw.items).value);
  }

  lemma DocumentsExactly(raw: Raw, documents: seq<DocumentRule>)
    ensures DocumentsPart(raw) == Some(documents) <==> SaysDocuments(raw, documents)
  {
    hide DocumentsPart, SaysDocuments;
    if DocumentsPart(raw).Some? {
      DocumentsPartSays(raw);
    }
    if SaysDocuments(raw, documents) {
      SaidDocumentsPart(raw, documents);
    }
  }

  /** Normalisation of a block gives a policy exactly if the block says that policy; any other block it refuses. */
  lemma NormalizeExactly(raw: Raw, p: Policy)
    ensures Normalize(raw) == Some(p) <==> SaysPolicy(raw, p)
  {
    NormalizeByParts(raw);
    hide Normalize, BandsPart, LevelsPart, DocumentsPart, ParseConviction, ParseClearance, SaysBands, SaysLevels, SaysDocuments,
         SaysConviction, SaysClearance;
    if raw.Obj? && raw.fields.Keys == BLOCK_KEYS {
      hide SCHEMA_VERSION, AGE_BANDS, EDUCATION, SCIENCE, CONVICTION, DOCUMENTS, CLEARANCE;
      BandsExactly(raw.fields[AGE_BANDS], p.ageBands);
      LevelsExactly(raw.fields[EDUCATION], p.alternatives);
      ConvictionExactly(raw.fields[CONVICTION], p.conviction);
      DocumentsExactly(raw.fields[DOCUMENTS], p.documents);
      if p.clearance.Some? {
        ClearanceExactly(raw.fields[CLEARANCE], p.clearance.value);
        assert SaysClearance(raw.fields[CLEARANCE], p.clearance.value) ==> !raw.fields[CLEARANCE].Null? by {
          NullSaysNothing(p.clearance.value);
        }
      }
    }
  }

  lemma NullSaysNothing(c: Clearance)
    ensures !SaysClearance(Null, c)
  {
  }
}
