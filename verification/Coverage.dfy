/**
 * canonicalCampaignCoverageJson: one text per campaign and set of sessions. The seven-key comparator is a total
 * order that ties only on equal sessions, so the text depends on which sessions there are and on nothing else.
 */
module Coverage {
  import opened Wrappers
  import opened Sorting
  import opened JsonText
  import opened CanonicalJson
  import opened CanonicalJsonLaws
  import opened CanonicalText

  function PowerOfTwo(n: nat): int {
    if n == 0 then 1 else 2 * PowerOfTwo(n - 1)
  }

  predicate IsWhole(x: real) {
    x == x.Floor as real
  }

  /** A finite number of JavaScript is a multiple of 2^-1074. */
  type Double = x: real | IsWhole(x * PowerOfTwo(1074) as real)

  datatype Session = Session(
    district: JsString,
    province: JsString,
    venueName: JsString,
    examDate: JsString,
    reportingTimeHour: Double,
    capacityLimit: Option<Double>,
    isActive: bool)

  // ── compareCoverageSessions ─────────────────────────────────────

  function CompareText(left: JsString, right: JsString): real {
    if TextLess(left, right) then -1.0 else if TextLess(right, left) then 1.0 else 0.0
  }

  function CompareCapacity(left: Option<Double>, right: Option<Double>): real {
    if left == right then 0.0
    else if left.None? then -1.0
    else if right.None? then 1.0
    else left.value - right.value
  }

  function AsNumber(b: bool): real {
    if b then 1.0 else 0.0
  }

  /** `first || second` on numbers. */
  function Or(first: real, second: real): real {
    if first != 0.0 then first else second
  }

  function CompareSessions(left: Session, right: Session): real {
    Or(CompareText(left.district, right.district),
    Or(CompareText(left.province, right.province),
    Or(CompareText(left.examDate, right.examDate),
    Or(CompareText(left.venueName, right.venueName),
    Or(left.reportingTimeHour - right.reportingTimeHour,
    Or(CompareCapacity(left.capacityLimit, right.capacityLimit),
       AsNumber(left.isActive) - AsNumber(right.isActive)))))))
  }

  predicate SessionLess(left: Session, right: Session) {
    CompareSessions(left, right) < 0.0
  }

  /** A comparator in the sense of `sort`: signs swap with the arguments, and "before" is transitive. */
  lemma TextComparator()
    ensures forall a, b :: CompareText(a, b) == -CompareText(b, a) && (CompareText(a, b) == 0.0 <==> a == b)
    ensures forall a, b, c :: CompareText(a, b) < 0.0 && CompareText(b, c) < 0.0 ==> CompareText(a, c) < 0.0
  {
    hide TextLess;
    TextOrder();
  }

  lemma CapacityComparator()
    ensures forall a, b :: (CompareCapacity(a, b) < 0.0 <==> CompareCapacity(b, a) > 0.0) && (CompareCapacity(a, b) == 0.0 <==> a == b)
    ensures forall a, b, c :: CompareCapacity(a, b) < 0.0 && CompareCapacity(b, c) < 0.0 ==> CompareCapacity(a, c) < 0.0
  {
  }

  /** Signs swap, and zero means the very same session. */
  lemma SessionsCompare(a: Session, b: Session)
    ensures CompareSessions(a, b) < 0.0 <==> CompareSessions(b, a) > 0.0
    ensures CompareSessions(a, b) == 0.0 <==> a == b
  {
    hide CompareText, CompareCapacity;
    TextComparator();
    CapacityComparator();
  }

  lemma SessionsTransitive(a: Session, b: Session, c: Session)
    requires CompareSessions(a, b) < 0.0 && CompareSessions(b, c) < 0.0
    ensures CompareSessions(a, c) < 0.0
  {
    hide CompareText, CompareCapacity;
    TextComparator();
    CapacityComparator();
  }

  lemma SessionsOrdered(sessions: seq<Session>)
    ensures StrictTotalOn(SessionLess, sessions)
  {
    hide CompareSessions;
    forall a: Session, b: Session
      ensures !(SessionLess(a, b) && SessionLess(b, a)) && (a == b || SessionLess(a, b) || SessionLess(b, a))
    {
      SessionsCompare(a, b);
      SessionsCompare(b, a);
    }
    forall a: Session, b: Session, c: Session | SessionLess(a, b) && SessionLess(b, c) ensures SessionLess(a, c) {
      SessionsTransitive(a, b, c);
    }
  }

  // ── The order, key by key ───────────────────────────────────────

  /** No limit comes before any limit. */
  predicate LessCapacity(a: Option<Double>, b: Option<Double>) {
    (a.None? && b.Some?) || (a.Some? && b.Some? && a.value < b.value)
  }

  /**
   * By district, province, date and venue, each by code units; then by hour, by limit, and inactive before active.
   */
  ghost predicate ComesFirst(a: Session, b: Session) {
    if a.district != b.district then Precedes(a.district, b.district)
    else if a.province != b.province then Precedes(a.province, b.province)
    else if a.examDate != b.examDate then Precedes(a.examDate, b.examDate)
    else if a.venueName != b.venueName then Precedes(a.venueName, b.venueName)
    else if a.reportingTimeHour != b.reportingTimeHour then a.reportingTimeHour < b.reportingTimeHour
    else if a.capacityLimit != b.capacityLimit then LessCapacity(a.capacityLimit, b.capacityLimit)
    else !a.isActive && b.isActive
  }

  lemma CompareTextMeans(a: JsString, b: JsString)
    ensures CompareText(a, b) < 0.0 ==> Precedes(a, b)
    ensures CompareText(a, b) == 0.0 <==> a == b
  {
    TextOrder();
    if TextLess(a, b) {
      LessPrecedes(a, b);
    }
    hide TextLess, Precedes;
  }

  /** What the comparator puts first comes first. */
  lemma ComparedIsFirst(a: Session, b: Session)
    requires CompareSessions(a, b) < 0.0
    ensures ComesFirst(a, b)
  {
    hide CompareText, Precedes;
    CompareTextMeans(a.district, b.district);
    CompareTextMeans(a.province, b.province);
    CompareTextMeans(a.examDate, b.examDate);
    CompareTextMeans(a.venueName, b.venueName);
  }

  // ── The text ────────────────────────────────────────────────────

  /** How `JSON.stringify` writes a finite number; 0 and -0 have the same text. */
  type Printer = Double -> NumberText

  /** Different numbers have different texts. */
  ghost predicate IsPrinter(show: Printer) {
    forall m: Double, n: Double :: show(m) == show(n) ==> m == n
  }

  /** `{...session, district: normalizeString(...), ...}`. */
  function NormalizeSession(s: Session, nfc: Normalizer): Session {
    s.(district := nfc(s.district), province := nfc(s.province), venueName := nfc(s.venueName), examDate := nfc(s.examDate))
  }

  function CapacityValue(capacity: Option<Double>, show: Printer): Value {
    if capacity.None? then Null else Num(Finite(show(capacity.value)))
  }

  const DISTRICT: JsString := [100, 105, 115, 116, 114, 105, 99, 116]  // district
  const PROVINCE: JsString := [112, 114, 111, 118, 105, 110, 99, 101]  // province
  const VENUE_NAME: JsString := [118, 101, 110, 117, 101, 78, 97, 109, 101]  // venueName
  const EXAM_DATE: JsString := [101, 120, 97, 109, 68, 97, 116, 101]  // examDate
  const REPORTING_TIME_HOUR: JsString := [114, 101, 112, 111, 114, 116, 105, 110, 103, 84, 105, 109, 101, 72, 111, 117, 114]  // reportingTimeHour
  const CAPACITY_LIMIT: JsString := [99, 97, 112, 97, 99, 105, 116, 121, 76, 105, 109, 105, 116]  // capacityLimit
  const IS_ACTIVE: JsString := [105, 115, 65, 99, 116, 105, 118, 101]  // isActive
  const CAMPAIGN_ID: JsString := [99, 97, 109, 112, 97, 105, 103, 110, 73, 100]  // campaignId
  const SESSIONS: JsString := [115, 101, 115, 115, 105, 111, 110, 115]  // sessions

  function SessionValue(s: Session, show: Printer): Value {
    Obj([
      Prop(DISTRICT, Text(s.district)),
      Prop(PROVINCE, Text(s.province)),
      Prop(VENUE_NAME, Text(s.venueName)),
      Prop(EXAM_DATE, Text(s.examDate)),
      Prop(REPORTING_TIME_HOUR, Num(Finite(show(s.reportingTimeHour)))),
      Prop(CAPACITY_LIMIT, CapacityValue(s.capacityLimit, show)),
      Prop(IS_ACTIVE, Boolean(s.isActive))])
  }

  function Normalized(sessions: seq<Session>, nfc: Normalizer): (r: seq<Session>) {
    Map(s => NormalizeSession(s, nfc), sessions)
  }

  function CoverageValue(campaignId: JsString, sessions: seq<Session>, nfc: Normalizer, show: Printer): Value {
    Obj([
      Prop(CAMPAIGN_ID, Text(nfc(campaignId))),
      Prop(SESSIONS, Arr(Map(s => SessionValue(s, show), Sort(SessionLess, Normalized(sessions, nfc)))))])
  }

  function CoverageJson(campaignId: JsString, sessions: seq<Session>, nfc: Normalizer,
      show: Printer): Option<JsString> {
    Serialize(CoverageValue(campaignId, sessions, nfc, show), nfc)
  }

  // ── The law ─────────────────────────────────────────────────────

  /** What the model asks of NFC: normalizing twice is normalizing once, and ASCII text stays as it is. */
  ghost predicate IsNormalizer(nfc: Normalizer) {
    && (forall s :: nfc(nfc(s)) == nfc(s))
    && (forall s: JsString :: (forall i :: 0 <= i < |s| ==> 0 <= s[i] < 128) ==> nfc(s) == s)
  }

  predicate Leads(key: JsString, lead: int, nfc: Normalizer) {
    nfc(key) != [] && nfc(key)[0] == lead
  }

  lemma AsciiLeads(key: JsString, nfc: Normalizer)
    requires IsNormalizer(nfc)
    requires key != [] && forall i :: 0 <= i < |key| ==> 0 <= key[i] < 128
    ensures Leads(key, key[0], nfc)
  {
  }

  lemma SessionKeys(s: Session, nfc: Normalizer, show: Printer)
    requires IsNormalizer(nfc)
    ensures DistinctKeys(SessionValue(s, show).props, nfc)
  {
    hide IsNormalizer, DistinctKeys;
    assert Leads(DISTRICT, 100, nfc) && Leads(PROVINCE, 112, nfc) && Leads(VENUE_NAME, 118, nfc) && Leads(EXAM_DATE, 101, nfc)
      && Leads(REPORTING_TIME_HOUR, 114, nfc) && Leads(CAPACITY_LIMIT, 99, nfc) && Leads(IS_ACTIVE, 105, nfc)
    by {
      AsciiLeads(DISTRICT, nfc);
      AsciiLeads(PROVINCE, nfc);
      AsciiLeads(VENUE_NAME, nfc);
      AsciiLeads(EXAM_DATE, nfc);
      AsciiLeads(REPORTING_TIME_HOUR, nfc);
      AsciiLeads(CAPACITY_LIMIT, nfc);
      AsciiLeads(IS_ACTIVE, nfc);
    }
    KeysWithLeads(s, nfc, show);
  }

  lemma KeysWithLeads(s: Session, nfc: Normalizer, show: Printer)
    requires Leads(DISTRICT, 100, nfc) && Leads(PROVINCE, 112, nfc) && Leads(VENUE_NAME, 118, nfc)
    requires Leads(EXAM_DATE, 101, nfc) && Leads(REPORTING_TIME_HOUR, 114, nfc)
    requires Leads(CAPACITY_LIMIT, 99, nfc) && Leads(IS_ACTIVE, 105, nfc)
    ensures DistinctKeys(SessionValue(s, show).props, nfc)
  {
    hide DISTRICT, PROVINCE, VENUE_NAME, EXAM_DATE, REPORTING_TIME_HOUR, CAPACITY_LIMIT, IS_ACTIVE;
    var lead := (i: int) => if i == 0 then 100 else if i == 1 then 112 else if i == 2 then 118 else if i == 3 then 101
                            else if i == 4 then 114 else if i == 5 then 99 else 105;
    var props := SessionValue(s, show).props;
    forall i | 0 <= i < |props| ensures Leads(props[i].key, lead(i), nfc) {
      hide Leads;
    }
  }

  lemma SessionAccepted(s: Session, nfc: Normalizer, show: Printer)
    requires IsNormalizer(nfc)
    ensures Acceptable(SessionValue(s, show), nfc)
  {
    hide IsNormalizer, DISTRICT, PROVINCE, VENUE_NAME, EXAM_DATE, REPORTING_TIME_HOUR,
         CAPACITY_LIMIT, IS_ACTIVE;
    SessionKeys(s, nfc, show);
  }

  /** The coverage form is never rejected. */
  lemma CoverageAccepted(campaignId: JsString, sessions: seq<Session>, nfc: Normalizer, show: Printer)
    requires IsNormalizer(nfc)
    ensures CoverageJson(campaignId, sessions, nfc, show).Some?
  {
    hide Serialize, SessionValue, SessionLess, Normalized, IsNormalizer;
    var ordered := Sort(SessionLess, Normalized(sessions, nfc));
    forall i | 0 <= i < |ordered| ensures Acceptable(SessionValue(ordered[i], show), nfc) {
      SessionAccepted(ordered[i], nfc, show);
    }
    AsciiLeads(CAMPAIGN_ID, nfc);
    AsciiLeads(SESSIONS, nfc);
    AcceptsExactly(CoverageValue(campaignId, sessions, nfc, show), nfc);
  }

  lemma ValuesReadBack(p: seq<Prop>, q: seq<Prop>, nfc: Normalizer)
    requires Equivalent(Obj(p), Obj(q), nfc) && |p| == |q|
    requires forall i :: 0 <= i < |p| ==> p[i].key == q[i].key
    ensures forall i :: 0 <= i < |p| ==> Equivalent(p[i].value, q[i].value, nfc)
  {
  }

  /** Equivalent leaves of a session hold the same data. */
  lemma LeavesReadBack(nfc: Normalizer)
    ensures forall s, t :: Equivalent(Text(s), Text(t), nfc) ==> nfc(s) == nfc(t)
    ensures forall m, n :: Equivalent(Boolean(m), Boolean(n), nfc) ==> m == n
  {
  }

  lemma NumberReadBack(m: Double, n: Double, nfc: Normalizer, show: Printer)
    requires IsPrinter(show) && Equivalent(Num(Finite(show(m))), Num(Finite(show(n))), nfc)
    ensures m == n
  {
    assert show(m) == show(n);
  }

  lemma CapacityReadBack(m: Option<Double>, n: Option<Double>, nfc: Normalizer, show: Printer)
    requires IsPrinter(show) && Equivalent(CapacityValue(m, show), CapacityValue(n, show), nfc)
    ensures m == n
  {
    if m.Some? && n.Some? {
      NumberReadBack(m.value, n.value, nfc, show);
    }
  }

  lemma SessionReadBack(a: Session, b: Session, nfc: Normalizer, show: Printer)
    requires IsPrinter(show) && NormalizeSession(a, nfc) == a && NormalizeSession(b, nfc) == b
    requires Equivalent(SessionValue(a, show), SessionValue(b, show), nfc)
    ensures a == b
  {
    hide Equivalent, CapacityValue, IsPrinter, DISTRICT, PROVINCE, VENUE_NAME, EXAM_DATE, REPORTING_TIME_HOUR,
         CAPACITY_LIMIT, IS_ACTIVE;
    var p, q := SessionValue(a, show).props, SessionValue(b, show).props;
    ValuesReadBack(p, q, nfc);
    assert Equivalent(p[0].value, q[0].value, nfc) && Equivalent(p[1].value, q[1].value, nfc);
    assert Equivalent(p[2].value, q[2].value, nfc) && Equivalent(p[3].value, q[3].value, nfc);
    assert Equivalent(p[4].value, q[4].value, nfc) && Equivalent(p[5].value, q[5].value, nfc);
    assert Equivalent(p[6].value, q[6].value, nfc);
    LeavesReadBack(nfc);
    NumberReadBack(a.reportingTimeHour, b.reportingTimeHour, nfc, show);
    CapacityReadBack(a.capacityLimit, b.capacityLimit, nfc, show);
  }

  lemma SortedAreNormal(sessions: seq<Session>, nfc: Normalizer)
    requires IsNormalizer(nfc)
    ensures forall s :: s in Sort(SessionLess, Normalized(sessions, nfc)) ==> NormalizeSession(s, nfc) == s
  {
    hide SessionLess;
    SortPermutes(SessionLess, Normalized(sessions, nfc));
  }

  /** The text lists the normalised sessions, each as often as it was given, in that order. */
  lemma SessionsAscend(sessions: seq<Session>, nfc: Normalizer)
    ensures var listed := Sort(SessionLess, Normalized(sessions, nfc));
            && multiset(listed) == multiset(Normalized(sessions, nfc))
            && forall i, j :: 0 <= i < j < |listed| ==> listed[i] == listed[j] || ComesFirst(listed[i], listed[j])
  {
    hide Normalized, Sort, CompareSessions, ComesFirst;
    var given := Normalized(sessions, nfc);
    var listed := Sort(SessionLess, given);
    SortPermutes(SessionLess, given);
    SessionsOrdered(given);
    SortSorts(SessionLess, given);
    forall i, j | 0 <= i < j < |listed| && listed[i] != listed[j] ensures ComesFirst(listed[i], listed[j]) {
      assert listed[i] in given && listed[j] in given && !SessionLess(listed[j], listed[i]);
      ComparedIsFirst(listed[i], listed[j]);
    }
  }

  /**
   * One text per campaign and multiset of sessions: two coverage texts are the same exactly when the campaign and
   * the sessions are, after normalization, the same ones, each session equally often.
   */
  lemma CoverageIsCanonical(campaign: JsString, sessions: seq<Session>, campaign': JsString, sessions': seq<Session>,
      nfc: Normalizer, show: Printer)
    requires IsNormalizer(nfc) && IsPrinter(show)
    ensures CoverageJson(campaign, sessions, nfc, show) == CoverageJson(campaign', sessions', nfc, show)
       <==> nfc(campaign) == nfc(campaign') && multiset(Normalized(sessions, nfc)) == multiset(Normalized(sessions', nfc))
  {
    hide Serialize, SessionLess, Normalized, CAMPAIGN_ID, SESSIONS, SessionValue, KeysWithin, Sort;
    CoverageAccepted(campaign, sessions, nfc, show);
    CoverageAccepted(campaign', sessions', nfc, show);
    var v, w := CoverageValue(campaign, sessions, nfc, show), CoverageValue(campaign', sessions', nfc, show);
    CanonicalTextIsFaithful(v, w, nfc);
    SessionsOrdered(Normalized(sessions, nfc));
    SortIsCanonical(SessionLess, Normalized(sessions, nfc), Normalized(sessions', nfc));
    if Equivalent(v, w, nfc) {
      assert Equivalent(v.props[0].value, w.props[0].value, nfc) && Equivalent(v.props[1].value, w.props[1].value, nfc);
      var xs, ys := Sort(SessionLess, Normalized(sessions, nfc)), Sort(SessionLess, Normalized(sessions', nfc));
      SortedAreNormal(sessions, nfc);
      SortedAreNormal(sessions', nfc);
      forall i | 0 <= i < |xs| ensures xs[i] == ys[i] {
        SessionReadBack(xs[i], ys[i], nfc, show);
      }
    }
  }
}
