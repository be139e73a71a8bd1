/**
 * Campaign policy v2: an authored block is checked and brought into a canonical form. Authored input is an arbitrary
 * JSON value; None stands for PolicyV2Error.
 */
module PolicyV2 {
  import opened Wrappers
  import opened Sorting
  import Scanning

  // ── Authored input ──────────────────────────────────────────────

  /** `Other` is every number that is not a safe integer, and whatever JSON cannot carry. */
  datatype Raw =
    | Null
    | Flag(flag: bool)
    | Int(n: int)
    | Str(s: string)
    | Arr(items: seq<Raw>)
    | Obj(fields: map<string, Raw>)
    | Other

  const LEVELS: seq<string> := ["O_LEVEL_S3", "O_LEVEL_S6_EQUIV", "A_LEVEL_A2", "A1_IPRC", "BACHELOR_A0", "MASTERS", "PHD"]
  const SPECIALIST_FIELDS: seq<string> := ["MEDICINE", "ENGINEERING", "LAW", "NURSING", "EDUCATION", "VETERINARY_MEDICINE", "CLINICAL_PSYCHOLOGY"]
  const CONVICTION_RULES: seq<string> := ["NEVER_CONVICTED", "NO_SENTENCE_6M_OR_MORE", "NO_SENTENCE_OVER_6M"]
  const SATISFACTION_MODES: seq<string> := ["REGISTRY_VERIFIED", "UPLOAD", "PRESENT_AT_VENUE"]
  const FIELD_PREFIX: string := "FIELD:"

  const SCHEMA_VERSION: string := "schemaVersion"
  const AGE_BANDS: string := "ageBands"
  const EDUCATION: string := "educationAlternatives"
  const SCIENCE: string := "minimumSciencePercent"
  const CONVICTION: string := "conviction"
  const DOCUMENTS: string := "documents"
  const CLEARANCE: string := "clearance"
  const QUALIFICATIONS: string := "qualifications"
  const MINIMUM_AGE: string := "minimumAge"
  const MAXIMUM_AGE: string := "maximumAge"
  const LEVEL: string := "level"
  const RULE: string := "rule"
  const NOT_UNDER_PROSECUTION: string := "notUnderProsecution"
  const TYPE: string := "type"
  const SATISFACTION: string := "satisfaction"
  const NOTARISED: string := "notarised"
  const ALLOWED: string := "allowedCertificateCodes"
  const NO_RECORD: string := "noRecordCertificateCodes"
  const VALIDITY: string := "validityDays"

  // ── The canonical policy ────────────────────────────────────────

  datatype Band = Band(qualifications: seq<string>, minimumAge: int, maximumAge: int)

  datatype DocumentRule = DocumentRule(kind: string, satisfaction: string, notarised: bool)

  datatype Clearance = Clearance(allowed: seq<string>, noRecord: seq<string>, validityDays: int)

  datatype Conviction = Conviction(rule: string, notUnderProsecution: bool)

  datatype Policy = Policy(
    ageBands: seq<Band>,
    alternatives: seq<string>,
    science: Option<int>,
    conviction: Conviction,
    documents: seq<DocumentRule>,
    clearance: Option<Clearance>)

  // ── Orders ──────────────────────────────────────────────────────

  predicate CharBefore(a: char, b: char) {
    a < b
  }

  /** `<` on strings. */
  predicate TextBefore(a: string, b: string) {
    LexLess(CharBefore, a, b)
  }

  function Joined(qualifications: seq<string>): string {
    Scanning.Join(qualifications, [','])
  }

  predicate BandBefore(a: Band, b: Band) {
    if a.maximumAge != b.maximumAge then a.maximumAge < b.maximumAge
    else if a.minimumAge != b.minimumAge then a.minimumAge < b.minimumAge
    else TextBefore(Joined(a.qualifications), Joined(b.qualifications))
  }

  function PositionIn(xs: seq<string>, x: string): (r: int)
    ensures -1 <= r < |xs|
    ensures r >= 0 ==> xs[r] == x
    ensures r >= 0 <==> x in xs
  {
    if xs == [] then -1
    else if xs[0] == x then 0
    else
      var r := PositionIn(xs[1..], x);
      if r < 0 then -1 else r + 1
  }

  /** Where a level stands on the ladder: `QUALIFICATION_LEVELS.indexOf`. */
  function Rung(level: string): int {
    PositionIn(LEVELS, level)
  }

  predicate LevelBefore(a: string, b: string) {
    Rung(a) < Rung(b)
  }

  predicate DocumentBefore(a: DocumentRule, b: DocumentRule) {
    TextBefore(a.kind, b.kind)
  }

  // ── Checks on single values ─────────────────────────────────────

  function FieldsOf(raw: Raw, names: set<string>): (r: Option<map<string, Raw>>)
    ensures r.Some? ==> raw.Obj? && r.value == raw.fields && r.value.Keys == names
  {
    if raw.Obj? && raw.fields.Keys == names then Some(raw.fields) else None
  }

  function IntIn(raw: Raw, min: int, max: int): Option<int> {
    if raw.Int? && min <= raw.n <= max then Some(raw.n) else None
  }

  function FlagOf(raw: Raw): Option<bool> {
    if raw.Flag? then Some(raw.flag) else None
  }

  function OneOf(raw: Raw, allowed: seq<string>): Option<string> {
    if raw.Str? && raw.s in allowed then Some(raw.s) else None
  }

  function Entries(raw: Raw, min: nat, max: nat): (r: Option<seq<Raw>>)
    ensures r.Some? <==> raw.Arr? && min <= |raw.items| <= max
    ensures r.Some? ==> r.value == raw.items
  {
    if raw.Arr? && min <= |raw.items| <= max then Some(raw.items) else None
  }

  predicate IsUpperOrDigit(c: char) {
    'A' <= c <= 'Z' || '0' <= c <= '9'
  }

  predicate IsAlphanumeric(c: char) {
    IsUpperOrDigit(c) || 'a' <= c <= 'z'
  }

  /** /^[A-Z0-9][A-Z0-9_:-]{0,63}$/ */
  predicate IsCodeToken(s: string) {
    1 <= |s| <= 64 && IsUpperOrDigit(s[0]) && forall c :: c in s ==> IsUpperOrDigit(c) || c == '_' || c == ':' || c == '-'
  }

  /** /^[A-Za-z0-9][A-Za-z0-9_:.-]{0,63}$/ */
  predicate IsRegistryCode(s: string) {
    1 <= |s| <= 64 && IsAlphanumeric(s[0]) && forall c :: c in s ==> IsAlphanumeric(c) || c == '_' || c == ':' || c == '.' || c == '-'
  }

  predicate IsQualification(s: string) {
    if FIELD_PREFIX <= s then s[|FIELD_PREFIX|..] in SPECIALIST_FIELDS else s in LEVELS
  }

  function Qualification(raw: Raw): Option<string> {
    if raw.Str? && IsQualification(raw.s) then Some(raw.s) else None
  }

  function RegistryCode(raw: Raw): Option<string> {
    if raw.Str? && IsRegistryCode(raw.s) then Some(raw.s) else None
  }

  /** Every entry checked: the results in order, or a failure if any entry fails. */
  function All<T>(check: Raw -> Option<T>, items: seq<Raw>): (r: Option<seq<T>>)
    ensures r.Some? <==> forall i :: 0 <= i < |items| ==> check(items[i]).Some?
    ensures r.Some? ==> |r.value| == |items| && forall i :: 0 <= i < |items| ==> check(items[i]) == Some(r.value[i])
  {
    if items == [] then Some([])
    else
      var last := |items| - 1;
      var front :- All(check, items[..last]);
      var x :- check(items[last]);
      Some(front + [x])
  }

  /** `[...new Set(xs)]`: each element once, where it first stood. */
  function Unique(xs: seq<string>): (r: seq<string>)
    ensures forall x :: x in r <==> x in xs
    ensures NoDuplicates(r)
    ensures |r| <= |xs|
  {
    if xs == [] then []
    else
      var u := Unique(xs[..|xs| - 1]);
      if xs[|xs| - 1] in u then u else u + [xs[|xs| - 1]]
  }

  // ── The parts of a block ────────────────────────────────────────

  function ParseBand(raw: Raw): Option<Band> {
    var fields :- FieldsOf(raw, {QUALIFICATIONS, MINIMUM_AGE, MAXIMUM_AGE});
    var items :- Entries(fields[QUALIFICATIONS], 1, 12);
    var named :- All(Qualification, items);
    var min :- IntIn(fields[MINIMUM_AGE], 0, 130);
    var max :- IntIn(fields[MAXIMUM_AGE], 0, 130);
    if min > max then None else Some(Band(Sort(TextBefore, Unique(named)), min, max))
  }

  /** No qualification is named by two bands. */
  predicate BandsDisjoint(bands: seq<Band>) {
    forall i, j, q :: 0 <= i < j < |bands| && q in bands[i].qualifications ==> q !in bands[j].qualifications
  }

  function ParseLevel(raw: Raw): Option<string> {
    var fields :- FieldsOf(raw, {LEVEL});
    OneOf(fields[LEVEL], LEVELS)
  }

  function ParseConviction(raw: Raw): Option<Conviction> {
    var fields :- FieldsOf(raw, {RULE, NOT_UNDER_PROSECUTION});
    var flag :- FlagOf(fields[NOT_UNDER_PROSECUTION]);
    var rule :- OneOf(fields[RULE], CONVICTION_RULES);
    Some(Conviction(rule, flag))
  }

  function ParseDocument(raw: Raw): Option<DocumentRule> {
    var fields :- FieldsOf(raw, {TYPE, SATISFACTION, NOTARISED});
    var _ :- Need(fields[TYPE].Str? && IsCodeToken(fields[TYPE].s));
    var notarised :- FlagOf(fields[NOTARISED]);
    var satisfaction :- OneOf(fields[SATISFACTION], SATISFACTION_MODES);
    Some(DocumentRule(fields[TYPE].s, satisfaction, notarised))
  }

  predicate KindsDiffer(documents: seq<DocumentRule>) {
    forall i, j :: 0 <= i < j < |documents| ==> documents[i].kind != documents[j].kind
  }

  function CodeSetOf(raw: Raw, min: nat): Option<seq<string>> {
    var items :- Entries(raw, min, 20);
    var codes :- All(RegistryCode, items);
    if NoDuplicates(codes) then Some(Sort(TextBefore, codes)) else None
  }

  function ParseClearance(raw: Raw): Option<Clearance> {
    var fields :- FieldsOf(raw, {ALLOWED, NO_RECORD, VALIDITY});
    var allowed :- CodeSetOf(fields[ALLOWED], 1);
    var noRecord :- CodeSetOf(fields[NO_RECORD], 0);
    var _ :- Need(forall code :: code in noRecord ==> code in allowed);
    var days :- IntIn(fields[VALIDITY], 1, 3650);
    Some(Clearance(allowed, noRecord, days))
  }

  function Optionally<T>(raw: Raw, check: Raw -> Option<T>): Option<Option<T>> {
    if raw.Null? then Some(None)
    else
      match check(raw)
      case None => None
      case Some(x) => Some(Some(x))
  }

  const BLOCK_KEYS: set<string> := {SCHEMA_VERSION, AGE_BANDS, EDUCATION, SCIENCE, CONVICTION, DOCUMENTS, CLEARANCE}

  /** All checks done, the outer lists still in the order they were written in. */
  function Parse(raw: Raw): Option<Policy> {
    var fields :- FieldsOf(raw, BLOCK_KEYS);
    var _ :- Need(fields[SCHEMA_VERSION] == Int(2));
    var rawBands :- Entries(fields[AGE_BANDS], 1, 8);
    var bands :- All(ParseBand, rawBands);
    var _ :- Need(BandsDisjoint(bands));
    var rawLevels :- Entries(fields[EDUCATION], 1, 7);
    var levels :- All(ParseLevel, rawLevels);
    var _ :- Need(NoDuplicates(levels));
    var science :- Optionally(fields[SCIENCE], x => IntIn(x, 1, 100));
    var conviction :- ParseConviction(fields[CONVICTION]);
    var rawDocuments :- Entries(fields[DOCUMENTS], 1, 20);
    var documents :- All(ParseDocument, rawDocuments);
    var _ :- Need(KindsDiffer(documents));
    var clearance :- Optionally(fields[CLEARANCE], ParseClearance);
    Some(Policy(bands, levels, science, conviction, documents, clearance))
  }

  /** The three sorts that fix the order of the outer lists. */
  function Ordered(p: Policy): Policy {
    p.(ageBands := Sort(BandBefore, p.ageBands), alternatives := Sort(LevelBefore, p.alternatives), documents := Sort(DocumentBefore, p.documents))
  }

  /** `normalizePolicyV2`, and `readPolicyV2` with its null. */
  function Normalize(raw: Raw): Option<Policy> {
    var p :- Parse(raw);
    Some(Ordered(p))
  }

  // ── The loops ───────────────────────────────────────────────────

  method CodeSet(raw: Raw, min: nat) returns (r: Option<seq<string>>)
    ensures r == CodeSetOf(raw, min)
  {
    if !raw.Arr? || |raw.items| < min || |raw.items| > 20 {
      return None;
    }
    var out := [];
    for i := 0 to |raw.items|
      invariant NoDuplicates(out)
      invariant All(RegistryCode, raw.items[..i]) == Some(out)
    {
      var entry := raw.items[i];
      assert raw.items[..i + 1][..i] == raw.items[..i];
      if !entry.Str? || !IsRegistryCode(entry.s) {
        assert RegistryCode(raw.items[i]).None?;
        return None;
      }
      if entry.s in out {
        RepeatedCode(raw.items, i, out);
        return None;
      }
      out := out + [entry.s];
    }
    assert raw.items[..|raw.items|] == raw.items;
    return Some(Sort(TextBefore, out));
  }

  lemma RepeatedCode(items: seq<Raw>, i: nat, out: seq<string>)
    requires i < |items| && All(RegistryCode, items[..i]) == Some(out)
    requires items[i].Str? && items[i].s in out
    ensures All(RegistryCode, items).Some? ==> !NoDuplicates(All(RegistryCode, items).value)
  {
    if All(RegistryCode, items).Some? {
      var codes := All(RegistryCode, items).value;
      var k :| 0 <= k < |out| && out[k] == items[i].s;
      assert RegistryCode(items[..i][k]) == Some(out[k]);
      assert codes[k] == codes[i];
    }
  }

  /** The loop over the bands with its set of qualifications already seen. */
  method CheckBands(bands: seq<Band>) returns (ok: bool)
    requires forall b :: b in bands ==> NoDuplicates(b.qualifications)
    ensures ok <==> BandsDisjoint(bands)
  {
    var seen: set<string> := {};
    for i := 0 to |bands|
      invariant BandsDisjoint(bands[..i])
      invariant forall q :: q in seen <==> exists k :: 0 <= k < i && q in bands[k].qualifications
    {
      ghost var before := seen;
      for j := 0 to |bands[i].qualifications|
        invariant forall q :: q in seen <==> q in before || q in bands[i].qualifications[..j]
        invariant forall q :: q in bands[i].qualifications[..j] ==> q !in before
      {
        var q := bands[i].qualifications[j];
        if q in seen {
          assert q in before by {
            assert bands[i] in bands;
          }
          var k :| 0 <= k < i && q in bands[k].qualifications;
          return false;
        }
        seen := seen + {q};
      }
      assert bands[i].qualifications[..|bands[i].qualifications|] == bands[i].qualifications;
      assert bands[..i + 1] == bands[..i] + [bands[i]];
    }
    assert bands[..|bands|] == bands;
    return true;
  }

  method NormalizePolicyV2(raw: Raw) returns (r: Option<Policy>)
    ensures r == Normalize(raw)
  {
    hide Sort, ParseBand, ParseLevel, ParseConviction, ParseDocument, ParseClearance, BandBefore, LevelBefore,
         DocumentBefore;
    var fields :- FieldsOf(raw, BLOCK_KEYS);
    var _ :- Need(fields[SCHEMA_VERSION] == Int(2));
    var rawBands :- Entries(fields[AGE_BANDS], 1, 8);
    var bands :- All(ParseBand, rawBands);
    BandsAreSets(rawBands, bands);
    var ok := CheckBands(bands);
    if !ok {
      return None;
    }
    bands := Sort(BandBefore, bands);
    var rawLevels :- Entries(fields[EDUCATION], 1, 7);
    var levels :- All(ParseLevel, rawLevels);
    var _ :- Need(NoDuplicates(levels));
    levels := Sort(LevelBefore, levels);
    var science :- Optionally(fields[SCIENCE], x => IntIn(x, 1, 100));
    var conviction :- ParseConviction(fields[CONVICTION]);
    var rawDocuments :- Entries(fields[DOCUMENTS], 1, 20);
    var documents :- All(ParseDocument, rawDocuments);
    var _ :- Need(KindsDiffer(documents));
    documents := Sort(DocumentBefore, documents);
    var clearance :- Optionally(fields[CLEARANCE], ParseClearance);
    return Some(Policy(bands, levels, science, conviction, documents, clearance));
  }

  lemma BandsAreSets(items: seq<Raw>, bands: seq<Band>)
    requires All(ParseBand, items) == Some(bands)
    ensures forall b :: b in bands ==> NoDuplicates(b.qualifications)
  {
    hide TextBefore;
    forall b | b in bands ensures NoDuplicates(b.qualifications) {
      var i :| 0 <= i < |bands| && bands[i] == b;
      assert ParseBand(items[i]) == Some(b);
      BandIsSet(items[i]);
    }
  }

  lemma BandIsSet(raw: Raw)
    requires ParseBand(raw).Some?
    ensures NoDuplicates(ParseBand(raw).value.qualifications)
  {
    hide TextBefore;
    var named := All(Qualification, raw.fields[QUALIFICATIONS].items).value;
    SortPermutes(TextBefore, Unique(named));
    NoDuplicatesPermuted(Unique(named), Sort(TextBefore, Unique(named)));
  }
}
