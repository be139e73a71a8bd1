/**
 * The age rules over a normalised policy: which band applies to an applicant, and how the v2 block agrees with the v1
 * envelope of its category.
 */
module PolicyV2Ages {
  import opened Wrappers
  import opened Sorting
  import opened PolicyV2
  import opened PolicyV2Laws

  datatype Facts = Facts(level: Option<string>, field: Option<string>)

  /** A level matches the levels at or below it; a specialist field only itself. */
  predicate Matches(facts: Facts, q: string) {
    if FIELD_PREFIX <= q then facts.field.Some? && q == FIELD_PREFIX + facts.field.value
    else facts.level.Some? && Rung(facts.level.value) >= 0 && Rung(facts.level.value) >= Rung(q)
  }

  predicate Applies(facts: Facts, b: Band) {
    exists q :: q in b.qualifications && Matches(facts, q)
  }

  /**
   * Holding a level is holding every level below it on the ladder and itself, and no higher one; a specialist field is
   * held only by name.
   */
  lemma MatchesMeans(facts: Facts, q: string)
    ensures var ladder := ["O_LEVEL_S3", "O_LEVEL_S6_EQUIV", "A_LEVEL_A2", "A1_IPRC", "BACHELOR_A0", "MASTERS", "PHD"];
            forall b :: 0 <= b < 7 && q == ladder[b] ==>
              (Matches(facts, q) <==> exists a :: b <= a < 7 && facts.level == Some(ladder[a]))
    ensures forall f :: q == "FIELD:" + f ==> (Matches(facts, q) <==> facts.field == Some(f))
  {
    NoFieldOnLadder(q);
    LadderDiffers();
    forall f | q == FIELD_PREFIX + f ensures FIELD_PREFIX <= q && q[|FIELD_PREFIX|..] == f {
    }
    forall g | FIELD_PREFIX <= q && q == FIELD_PREFIX + g ensures q[|FIELD_PREFIX|..] == g {
    }
    hide LEVELS;
    RungIs(q);
    if facts.level.Some? {
      RungIs(facts.level.value);
    }
  }

  lemma RungIs(level: string)
    ensures forall a :: 0 <= a < |LEVELS| && LEVELS[a] == level ==> Rung(level) == a
  {
    LadderDiffers();
    hide LEVELS;
  }

  lemma NoFieldOnLadder(q: string)
    ensures q in LEVELS ==> !(FIELD_PREFIX <= q)
  {
    if q in LEVELS {
      assert q[0] != 'F';
    }
  }

  // ── The search ──────────────────────────────────────────────────

  /** `best` after the first `n` bands. */
  function BestUpTo(bands: seq<Band>, facts: Facts, n: nat): Option<Band>
    requires n <= |bands|
  {
    if n == 0 then None
    else
      var best := BestUpTo(bands, facts, n - 1);
      if Applies(facts, bands[n - 1]) && (best.None? || bands[n - 1].maximumAge > best.value.maximumAge) then Some(bands[n - 1]) else best
  }

  function BandFor(bands: seq<Band>, facts: Facts): Option<Band> {
    BestUpTo(bands, facts, |bands|)
  }

  method AgeBandFor(policy: Policy, facts: Facts) returns (best: Option<Band>)
    ensures best == BandFor(policy.ageBands, facts)
  {
    hide Matches;
    best := None;
    var i := 0;
    while i < |policy.ageBands|
      invariant i <= |policy.ageBands| && best == BestUpTo(policy.ageBands, facts, i)
    {
      var band := policy.ageBands[i];
      var some := false;
      var k := 0;
      while k < |band.qualifications| && !some
        invariant k <= |band.qualifications|
        invariant some ==> exists j :: 0 <= j < k && Matches(facts, band.qualifications[j])
        invariant !some ==> forall j :: 0 <= j < k ==> !Matches(facts, band.qualifications[j])
      {
        some := Matches(facts, band.qualifications[k]);
        k := k + 1;
      }
      assert some <==> Applies(facts, band);
      if some && (best.None? || band.maximumAge > best.value.maximumAge) {
        best := Some(band);
      }
      i := i + 1;
    }
  }

  /** Among the first `n` bands: the applying one with the highest cap, and the first of those. */
  lemma {:induction false} FirstHighest(bands: seq<Band>, facts: Facts, n: nat)
    requires n <= |bands|
    ensures var best := BestUpTo(bands, facts, n);
            && (best.None? <==> forall i :: 0 <= i < n ==> !Applies(facts, bands[i]))
            && (best.Some? ==> exists i :: 0 <= i < n && IsFirstHighest(bands, facts, n, i) && best == Some(bands[i]))
  {
    hide Applies;
    if n > 0 {
      FirstHighest(bands, facts, n - 1);
      var before := BestUpTo(bands, facts, n - 1);
      if before.Some? {
        var i :| 0 <= i < n - 1 && IsFirstHighest(bands, facts, n - 1, i) && before == Some(bands[i]);
        assert BestUpTo(bands, facts, n) == before ==> IsFirstHighest(bands, facts, n, i);
        assert BestUpTo(bands, facts, n) != before ==> IsFirstHighest(bands, facts, n, n - 1);
      } else if Applies(facts, bands[n - 1]) {
        assert IsFirstHighest(bands, facts, n, n - 1);
      }
    }
  }

  predicate IsFirstHighest(bands: seq<Band>, facts: Facts, n: nat, i: nat)
    requires i < n <= |bands|
  {
    && Applies(facts, bands[i])
    && (forall j :: 0 <= j < n && Applies(facts, bands[j]) ==> bands[j].maximumAge <= bands[i].maximumAge)
    && (forall j :: 0 <= j < i && Applies(facts, bands[j]) ==> bands[j].maximumAge < bands[i].maximumAge)
  }

  /**
   * In a normal form the chosen band is the most generous one that applies: the highest cap, and among equal caps the
   * lowest minimum. There is none only if no band applies.
   */
  lemma MostGenerousBand(p: Policy, facts: Facts)
    requires IsNormal(p)
    ensures var best := BandFor(p.ageBands, facts);
            && (best.None? <==> forall b :: b in p.ageBands ==> !Applies(facts, b))
            && (best.Some? ==>
                  && best.value in p.ageBands && Applies(facts, best.value)
                  && forall b :: b in p.ageBands && Applies(facts, b) ==>
                       b.maximumAge < best.value.maximumAge || (b.maximumAge == best.value.maximumAge && best.value.minimumAge <= b.minimumAge))
  {
    hide Applies, Sound, TextBefore, Joined;
    FirstHighest(p.ageBands, facts, |p.ageBands|);
    var best := BandFor(p.ageBands, facts);
    if best.Some? {
      var i :| 0 <= i < |p.ageBands| && IsFirstHighest(p.ageBands, facts, |p.ageBands|, i) && best == Some(p.ageBands[i]);
      forall b | b in p.ageBands && Applies(facts, b) && b.maximumAge == best.value.maximumAge ensures best.value.minimumAge <= b.minimumAge {
        var j :| 0 <= j < |p.ageBands| && p.ageBands[j] == b;
        assert i == j || !BandBefore(p.ageBands[j], p.ageBands[i]);
      }
    }
  }

  // ── A higher level never lowers the cap ─────────────────────────

  /** The cap that decides; below every cap when no band applies. */
  function CapOf(best: Option<Band>): int {
    if best.None? then -1 else best.value.maximumAge
  }

  /** Where the applicant's level stands on the ladder; below it without a level or with an unknown one. */
  function HeldRung(facts: Facts): int {
    if facts.level.None? then -1 else Rung(facts.level.value)
  }

  lemma HigherLevelApplies(a: Facts, b: Facts, band: Band)
    requires a.field == b.field && HeldRung(a) <= HeldRung(b) && Applies(a, band)
    ensures Applies(b, band)
  {
    var q :| q in band.qualifications && Matches(a, q);
    assert Matches(b, q);
  }

  lemma HigherLevelNeverLowersCap(p: Policy, a: Facts, b: Facts)
    requires IsNormal(p) && a.field == b.field && HeldRung(a) <= HeldRung(b)
    ensures CapOf(BandFor(p.ageBands, a)) <= CapOf(BandFor(p.ageBands, b))
  {
    MostGenerousBand(p, a);
    MostGenerousBand(p, b);
    var best := BandFor(p.ageBands, a);
    BestIsNormal(p, b);
    if best.Some? {
      HigherLevelApplies(a, b, best.value);
    }
  }

  lemma BestIsNormal(p: Policy, facts: Facts)
    requires IsNormal(p)
    ensures BandFor(p.ageBands, facts).Some? ==> 0 <= BandFor(p.ageBands, facts).value.minimumAge <= CapOf(BandFor(p.ageBands, facts)) <= 130
  {
    MostGenerousBand(p, facts);
    hide BandFor, Applies;
    if BandFor(p.ageBands, facts).Some? {
      assert NormalBand(BandFor(p.ageBands, facts).value);
    }
  }

  // ── Verdict and envelope ────────────────────────────────────────

  datatype AgeVerdict = WithinBand | BelowMinimum | AboveCap | NoBand

  function EvaluateAge(p: Policy, facts: Facts, age: int): AgeVerdict {
    match BandFor(p.ageBands, facts)
    case None => NoBand
    case Some(b) => if age < b.minimumAge then BelowMinimum else if age > b.maximumAge then AboveCap else WithinBand
  }

  /** A band that applies and has the highest cap of those. */
  predicate Decides(p: Policy, facts: Facts, b: Band) {
    b in p.ageBands && Applies(facts, b) && forall c :: c in p.ageBands && Applies(facts, c) ==> c.maximumAge <= b.maximumAge
  }

  /**
   * What each verdict says about the bands that apply: none does; the age is over every one of their caps; it is under
   * the minimum of each with the highest cap; or one of those holds it.
   */
  lemma VerdictMeans(p: Policy, facts: Facts, age: int)
    requires IsNormal(p)
    ensures EvaluateAge(p, facts, age) == NoBand <==> forall b :: b in p.ageBands ==> !Applies(facts, b)
    ensures EvaluateAge(p, facts, age) == AboveCap <==>
              (exists b :: b in p.ageBands && Applies(facts, b)) && forall b :: b in p.ageBands && Applies(facts, b) ==> age > b.maximumAge
    ensures EvaluateAge(p, facts, age) == WithinBand <==> exists b :: Decides(p, facts, b) && b.minimumAge <= age <= b.maximumAge
    ensures EvaluateAge(p, facts, age) == BelowMinimum <==>
              (exists b :: Decides(p, facts, b)) && forall b :: Decides(p, facts, b) ==> age < b.minimumAge
  {
    MostGenerousBand(p, facts);
    BestIsNormal(p, facts);
    hide Applies, BandFor, IsNormal;
    var best := BandFor(p.ageBands, facts);
    if best.Some? {
      assert Decides(p, facts, best.value);
    }
  }

  function LowestMinimum(bands: seq<Band>): int
    requires bands != []
  {
    if |bands| == 1 then bands[0].minimumAge
    else
      var rest := LowestMinimum(bands[1..]);
      if bands[0].minimumAge < rest then bands[0].minimumAge else rest
  }

  function HighestMaximum(bands: seq<Band>): int
    requires bands != []
  {
    if |bands| == 1 then bands[0].maximumAge
    else
      var rest := HighestMaximum(bands[1..]);
      if bands[0].maximumAge > rest then bands[0].maximumAge else rest
  }

  /** The envelope is the narrowest window that holds every band. */
  lemma {:induction false} EnvelopeHolds(bands: seq<Band>)
    requires bands != []
    ensures forall b :: b in bands ==> LowestMinimum(bands) <= b.minimumAge && b.maximumAge <= HighestMaximum(bands)
    ensures exists b :: b in bands && b.minimumAge == LowestMinimum(bands)
    ensures exists b :: b in bands && b.maximumAge == HighestMaximum(bands)
  {
    assert bands[0] in bands;
    if |bands| > 1 {
      EnvelopeHolds(bands[1..]);
      assert forall b :: b in bands ==> b == bands[0] || b in bands[1..];
      assert forall b :: b in bands[1..] ==> b in bands;
    }
  }

  datatype V1 = V1(minimumAge: int, maximumAge: int, criminalThreshold: string, requiredDocumentTypes: seq<string>)

  datatype Mismatch = Ages | Threshold | DocumentTypes

  function V1Threshold(rule: string): string {
    if rule == "NEVER_CONVICTED" then "ANY_CONVICTION"
    else if rule == "NO_SENTENCE_OVER_6M" then "IMPRISONMENT_GT_6MO"
    else "IMPRISONMENT_GTE_6MO"
  }

  function KindOf(d: DocumentRule): string {
    d.kind
  }

  /** `checkEnvelope`; the mismatch stands for its message, None for its null. */
  function CheckEnvelope(p: Policy, v1: V1): Option<Mismatch>
    requires p.ageBands != []
  {
    if LowestMinimum(p.ageBands) != v1.minimumAge || HighestMaximum(p.ageBands) != v1.maximumAge then Some(Ages)
    else if v1.criminalThreshold != V1Threshold(p.conviction.rule) then Some(Threshold)
    else
      var v2Types := Sort(TextBefore, Map(KindOf, p.documents));
      var v1Types := Sort(TextBefore, v1.requiredDocumentTypes);
      if |v2Types| != |v1Types| || exists i :: 0 <= i < |v2Types| && v2Types[i] != v1Types[i] then Some(DocumentTypes) else None
  }

  /** An agreeing envelope lets no eligible age escape the v1 window, and its ends are ages some band allows. */
  lemma EligibleWithinV1(p: Policy, v1: V1, facts: Facts, age: int)
    requires IsNormal(p) && CheckEnvelope(p, v1) == None && EvaluateAge(p, facts, age) == WithinBand
    ensures v1.minimumAge <= age <= v1.maximumAge
  {
    MostGenerousBand(p, facts);
    EnvelopeHolds(p.ageBands);
    hide BandFor, Applies, Sort, V1Threshold;
  }

  predicate AgesAgree(p: Policy, v1: V1)
    requires p.ageBands != []
  {
    v1.minimumAge == LowestMinimum(p.ageBands) && v1.maximumAge == HighestMaximum(p.ageBands)
  }

  predicate ThresholdFits(rule: string, threshold: string) {
    && (rule == "NEVER_CONVICTED" ==> threshold == "ANY_CONVICTION")
    && (rule == "NO_SENTENCE_OVER_6M" ==> threshold == "IMPRISONMENT_GT_6MO")
    && (rule !in {"NEVER_CONVICTED", "NO_SENTENCE_OVER_6M"} ==> threshold == "IMPRISONMENT_GTE_6MO")
  }

  /**
   * The ages are compared first, then the threshold; the document check asks for the same types, each as often, in
   * whatever order they are listed.
   */
  lemma EnvelopeAgreesExactly(p: Policy, v1: V1)
    requires p.ageBands != []
    ensures CheckEnvelope(p, v1) == None <==>
              && AgesAgree(p, v1) && ThresholdFits(p.conviction.rule, v1.criminalThreshold)
              && multiset(v1.requiredDocumentTypes) == multiset(Map(KindOf, p.documents))
    ensures CheckEnvelope(p, v1) == Some(Ages) <==> !AgesAgree(p, v1)
    ensures CheckEnvelope(p, v1) == Some(Threshold) <==> AgesAgree(p, v1) && !ThresholdFits(p.conviction.rule, v1.criminalThreshold)
  {
    ThresholdMeans(p.conviction.rule, v1.criminalThreshold);
    hide Sort, V1Threshold, ThresholdFits, TextBefore, LowestMinimum, HighestMaximum;
    var v2Types := Sort(TextBefore, Map(KindOf, p.documents));
    var v1Types := Sort(TextBefore, v1.requiredDocumentTypes);
    TextTotal(Map(KindOf, p.documents));
    SortIsCanonical(TextBefore, Map(KindOf, p.documents), v1.requiredDocumentTypes);
    assert v2Types == v1Types <==> |v2Types| == |v1Types| && forall i :: 0 <= i < |v2Types| ==> v2Types[i] == v1Types[i];
  }

  lemma ThresholdMeans(rule: string, threshold: string)
    ensures threshold == V1Threshold(rule) <==> ThresholdFits(rule, threshold)
  {
    assert |"NEVER_CONVICTED"| != |"NO_SENTENCE_OVER_6M"|;
  }
}
