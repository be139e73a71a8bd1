/**
 * Comparing two names token by token, and binding a credential to the person it claims to belong to. Names come as
 * token lists; the parsers of dates, sexes and ID hints are parameters.
 */
module IdentityBinding {
  import opened Wrappers
  import opened NameMatching
  import Scanning

  datatype NameMatch = Exact | Partial | Mismatch

  const FUZZY_MIN_LENGTH: nat := 3

  // ── What the comparison says, in terms of multisets ─────────────

  predicate Similar(x: Token, y: Token) {
    Least(|x|, |y|) >= FUZZY_MIN_LENGTH && Distance(x, y) <= 1
  }

  function OnlyIn(a: seq<Token>, b: seq<Token>): multiset<Token> {
    multiset(a) - multiset(b)
  }

  /** One token is left over on each side, and the two are one edit apart. */
  ghost predicate OneTypo(onlyA: multiset<Token>, onlyB: multiset<Token>) {
    |onlyA| == 1 && |onlyB| == 1 && exists x, y :: x in onlyA && y in onlyB && Similar(x, y)
  }

  ghost function Compared(a: seq<Token>, b: seq<Token>): NameMatch {
    if a == [] || b == [] then Mismatch
    else
      var onlyA, onlyB := OnlyIn(a, b), OnlyIn(b, a);
      if |onlyA| == 0 && |onlyB| == 0 then Exact
      else if |a| - |onlyA| > 0 && (|onlyA| == 0 || |onlyB| == 0) then Partial
      else if OneTypo(onlyA, onlyB) then Partial
      else Mismatch
  }

  // ── The Map of counts ───────────────────────────────────────────

  /** A Map from tokens to counts, as its entries in insertion order. */
  datatype Entry = Entry(token: Token, count: nat)

  predicate TokensDiffer(m: seq<Entry>) {
    forall i, j :: 0 <= i < j < |m| ==> m[i].token != m[j].token
  }

  function Get(m: seq<Entry>, t: Token): (r: nat)
    ensures (forall i :: 0 <= i < |m| ==> m[i].token != t) ==> r == 0
  {
    if m == [] then 0 else if m[|m| - 1].token == t then m[|m| - 1].count else Get(m[..|m| - 1], t)
  }

  lemma {:induction false} GetAt(m: seq<Entry>, i: nat)
    requires i < |m| && TokensDiffer(m)
    ensures Get(m, m[i].token) == m[i].count
  {
    if i < |m| - 1 {
      GetAt(m[..|m| - 1], i);
    }
  }

  ghost predicate Counts(m: seq<Entry>, tokens: multiset<Token>) {
    TokensDiffer(m) && (forall i :: 0 <= i < |m| ==> m[i].count > 0) && forall t :: Get(m, t) == tokens[t]
  }

  /** `counts.set(token, ...)`: in place if the key is there, at the end if not. */
  method Set(m: seq<Entry>, t: Token, count: nat) returns (r: seq<Entry>)
    requires TokensDiffer(m)
    ensures TokensDiffer(r) && forall u :: Get(r, u) == if u == t then count else Get(m, u)
    ensures forall i :: 0 <= i < |r| ==> r[i].count == count || exists j :: 0 <= j < |m| && m[j].count == r[i].count
  {
    for i := 0 to |m|
      invariant forall j :: 0 <= j < i ==> m[j].token != t
    {
      if m[i].token == t {
        r := m[i := Entry(t, count)];
        forall u ensures Get(r, u) == if u == t then count else Get(m, u) {
          SetInPlace(m, i, count, u);
        }
        return;
      }
    }
    r := m + [Entry(t, count)];
    assert r[..|m|] == m;
  }

  lemma {:induction false} SetInPlace(m: seq<Entry>, i: nat, count: nat, u: Token)
    requires TokensDiffer(m) && i < |m|
    ensures Get(m[i := Entry(m[i].token, count)], u) == if u == m[i].token then count else Get(m, u)
  {
    var last := |m| - 1;
    var r := m[i := Entry(m[i].token, count)];
    if i < last {
      assert r[..last] == m[..last][i := Entry(m[i].token, count)];
      SetInPlace(m[..last], i, count, u);
    } else {
      assert r[..last] == m[..last];
    }
  }

  /** `multiset`. */
  method CountTokens(tokens: seq<Token>) returns (counts: seq<Entry>)
    ensures Counts(counts, multiset(tokens))
  {
    counts := [];
    for i := 0 to |tokens|
      invariant Counts(counts, multiset(tokens[..i]))
    {
      assert tokens[..i + 1] == tokens[..i] + [tokens[i]];
      ghost var before := counts;
      counts := Set(counts, tokens[i], Get(counts, tokens[i]) + 1);
    }
    assert tokens[..|tokens|] == tokens;
  }

  /** `leftover`: the multiset difference, as a list. */
  method Leftover(from: seq<Entry>, against: seq<Entry>, ghost a: multiset<Token>, ghost b: multiset<Token>)
      returns (rest: seq<Token>)
    requires Counts(from, a) && Counts(against, b)
    ensures multiset(rest) == a - b
  {
    rest := [];
    var i := 0;
    while i < |from|
      invariant i <= |from| && HoldsLeftover(rest, from[..i], a - b)
    {
      var token, count := from[i].token, from[i].count;
      var used := Least(count, Get(against, token));
      ghost var before := rest;
      var k := used;
      while k < count
        invariant used <= k <= count
        invariant multiset(rest) == multiset(before) + multiset{}[token := k - used]
      {
        rest := Pushed(rest, token);
        k := k + 1;
      }
      OneMoreEntry(from, against, a, b, i, before, rest);
      i := i + 1;
    }
    assert from[..i] == from;
    AllEntries(from, a, b, rest);
  }

  function Pushed(rest: seq<Token>, t: Token): (r: seq<Token>)
    ensures multiset(r) == multiset(rest) + multiset{t}
  {
    rest + [t]
  }

  /** The leftovers of the entries handled so far. */
  ghost predicate HoldsLeftover(rest: seq<Token>, handled: seq<Entry>, difference: multiset<Token>) {
    forall t :: multiset(rest)[t] == if IsAmong(handled, t) then difference[t] else 0
  }

  lemma OneMoreEntry(from: seq<Entry>, against: seq<Entry>, a: multiset<Token>, b: multiset<Token>, i: nat,
      before: seq<Token>, rest: seq<Token>)
    requires i < |from| && Counts(from, a) && Counts(against, b) && HoldsLeftover(before, from[..i], a - b)
    requires multiset(rest) == multiset(before) + multiset{}[from[i].token := from[i].count - Least(from[i].count, Get(against, from[i].token))]
    ensures HoldsLeftover(rest, from[..i + 1], a - b)
  {
    GetAt(from, i);
    NotAmongYet(from, i);
    hide Get, IsAmong, TokensDiffer;
    forall t ensures multiset(rest)[t] == if IsAmong(from[..i + 1], t) then (a - b)[t] else 0 {
      AmongMore(from, i, t);
    }
  }

  lemma AllEntries(from: seq<Entry>, a: multiset<Token>, b: multiset<Token>, rest: seq<Token>)
    requires Counts(from, a) && HoldsLeftover(rest, from, a - b)
    ensures multiset(rest) == a - b
  {
    forall t ensures multiset(rest)[t] == (a - b)[t] {
      if !IsAmong(from, t) {
        assert Get(from, t) == 0;
      }
    }
  }

  predicate IsAmong(m: seq<Entry>, t: Token) {
    exists i :: 0 <= i < |m| && m[i].token == t
  }

  lemma NotAmongYet(m: seq<Entry>, i: nat)
    requires i < |m| && TokensDiffer(m)
    ensures !IsAmong(m[..i], m[i].token)
  {
  }

  lemma AmongMore(m: seq<Entry>, i: nat, t: Token)
    requires i < |m|
    ensures IsAmong(m[..i + 1], t) <==> IsAmong(m[..i], t) || m[i].token == t
  {
    if IsAmong(m[..i], t) {
      var k :| 0 <= k < i && m[..i][k].token == t;
      assert m[..i + 1][k].token == t;
    }
    if m[i].token == t {
      assert m[..i + 1][i].token == t;
    }
  }

  method CompareNames(a: seq<Token>, b: seq<Token>) returns (r: NameMatch)
    ensures r == Compared(a, b)
  {
    hide OneTypo, Counts;
    if |a| == 0 || |b| == 0 {
      return Mismatch;
    }
    var ma := CountTokens(a);
    var mb := CountTokens(b);
    var onlyA := Leftover(ma, mb, multiset(a), multiset(b));
    var onlyB := Leftover(mb, ma, multiset(b), multiset(a));
    assert |multiset(onlyA)| == |onlyA| && |multiset(onlyB)| == |onlyB|;
    if |onlyA| == 0 && |onlyB| == 0 {
      return Exact;
    }
    OnlyOnes(onlyA, onlyB);
    var shared := |a| - |onlyA|;
    if shared > 0 && (|onlyA| == 0 || |onlyB| == 0) {
      return Partial;
    }
    if |onlyA| == 1 && |onlyB| == 1 {
      var x, y := onlyA[0], onlyB[0];
      if Least(|x|, |y|) >= FUZZY_MIN_LENGTH {
        var close := EditDistanceAtMostOne(x, y);
        if close {
          return Partial;
        }
      }
    }
    return Mismatch;
  }

  lemma OnlyOnes(onlyA: seq<Token>, onlyB: seq<Token>)
    ensures OneTypo(multiset(onlyA), multiset(onlyB)) <==> |onlyA| == 1 && |onlyB| == 1 && Similar(onlyA[0], onlyB[0])
  {
    hide Similar;
    assert |multiset(onlyA)| == |onlyA| && |multiset(onlyB)| == |onlyB|;
    if |onlyA| == 1 && |onlyB| == 1 {
      assert onlyA == [onlyA[0]] && onlyB == [onlyB[0]];
      assert onlyA[0] in multiset(onlyA) && onlyB[0] in multiset(onlyB);
    }
  }

  // ── Laws of the comparison ──────────────────────────────────────

  lemma DifferenceSizes(a: seq<Token>, b: seq<Token>)
    ensures |a| - |OnlyIn(a, b)| == |b| - |OnlyIn(b, a)|
    ensures |OnlyIn(a, b)| == 0 && |OnlyIn(b, a)| == 0 <==> multiset(a) == multiset(b)
  {
    var x, y := multiset(a), multiset(b);
    assert x == (x - y) + x * y && y == (y - x) + x * y;
    assert |x| == |a| && |y| == |b|;
    if |x - y| == 0 && |y - x| == 0 {
      assert x - y == multiset{} && y - x == multiset{};
    }
  }

  /** Comparing the other way round gives the same answer. */
  lemma ComparedBothWays(a: seq<Token>, b: seq<Token>)
    ensures Compared(a, b) == Compared(b, a)
  {
    DifferenceSizes(a, b);
    hide Distance;
    var onlyA, onlyB := OnlyIn(a, b), OnlyIn(b, a);
    forall x, y ensures Similar(x, y) == Similar(y, x) {
      DistanceBothWays(x, y);
    }
    hide Similar, OnlyIn;
  }

  /** The order of the tokens does not matter. */
  lemma ComparedInAnyOrder(a: seq<Token>, a': seq<Token>, b: seq<Token>)
    requires multiset(a) == multiset(a')
    ensures Compared(a, b) == Compared(a', b)
  {
    assert |multiset(a)| == |a| && |multiset(a')| == |a'|;
    hide OneTypo;
  }

  /** EXACT is equality of the token multisets, and there must be tokens. */
  lemma ExactMeansSameTokens(a: seq<Token>, b: seq<Token>)
    ensures Compared(a, b) == Exact <==> a != [] && b != [] && multiset(a) == multiset(b)
  {
    DifferenceSizes(a, b);
    hide OneTypo;
  }

  /** Two names share all tokens but one on each side, and those two are one edit apart. */
  ghost predicate TypoApart(a: multiset<Token>, b: multiset<Token>) {
    exists x, y :: x in a && y in b && x != y && 3 <= |x| && 3 <= |y| && Distance(x, y) <= 1 && a - multiset{x} == b - multiset{y}
  }

  /**
   * PARTIAL is one of two things: one name has all the tokens of the other and more, or the names differ in a single
   * token of at least three letters that is one edit off.
   */
  lemma PartialMeans(a: seq<Token>, b: seq<Token>)
    ensures Compared(a, b) == Partial <==>
              a != [] && b != [] && (multiset(a) < multiset(b) || multiset(b) < multiset(a) || TypoApart(multiset(a), multiset(b)))
  {
    hide Distance;
    DifferenceSizes(a, b);
    var x, y := multiset(a), multiset(b);
    assert |x| == |a| && |y| == |b|;
    assert |x - y| == 0 <==> x <= y by { NoneLeft(x, y); }
    assert |y - x| == 0 <==> y <= x by { NoneLeft(y, x); }
    assert OneTypo(x - y, y - x) <==> TypoApart(x, y) by { OneTypoApart(x, y); }
    hide OneTypo, TypoApart;
  }

  lemma NoneLeft(x: multiset<Token>, y: multiset<Token>)
    ensures |x - y| == 0 <==> x <= y
  {
    if |x - y| == 0 {
      assert x - y == multiset{};
      forall t ensures x[t] <= y[t] {
        assert (x - y)[t] == 0;
      }
    } else {
      var t :| t in x - y;
      assert x[t] > y[t];
    }
  }

  lemma OneTypoApart(x: multiset<Token>, y: multiset<Token>)
    ensures OneTypo(x - y, y - x) <==> TypoApart(x, y)
  {
    hide Distance;
    if OneTypo(x - y, y - x) {
      var s, t :| s in x - y && t in y - x && Similar(s, t);
      OnlyElement(x - y, s);
      OnlyElement(y - x, t);
      SingleDifference(x, y, s, t);
    }
    if TypoApart(x, y) {
      var s, t :| s in x && t in y && s != t && 3 <= |s| && 3 <= |t| && Distance(s, t) <= 1 && x - multiset{s} == y - multiset{t};
      SingleDifference(x, y, s, t);
      assert s in x - y && t in y - x;
    }
  }

  lemma SingleDifference(x: multiset<Token>, y: multiset<Token>, s: Token, t: Token)
    ensures x - y == multiset{s} && y - x == multiset{t} <==> s in x && t in y && s != t && x - multiset{s} == y - multiset{t}
  {
    if x - y == multiset{s} && y - x == multiset{t} {
      assert (x - y)[s] == 1 && (y - x)[t] == 1;
      forall u ensures (x - multiset{s})[u] == (y - multiset{t})[u] {
        assert (x - y)[u] == multiset{s}[u] && (y - x)[u] == multiset{t}[u];
      }
    }
    if s in x && t in y && s != t && x - multiset{s} == y - multiset{t} {
      forall u ensures (x - y)[u] == multiset{s}[u] && (y - x)[u] == multiset{t}[u] {
        assert (x - multiset{s})[u] == (y - multiset{t})[u];
      }
    }
  }

  lemma OnlyElement(m: multiset<Token>, s: Token)
    requires |m| == 1 && s in m
    ensures m == multiset{s}
  {
    assert |m - multiset{s}| == 0;
  }

  // ── bindCredential ──────────────────────────────────────────────

  datatype FieldResult = FMatch | FPartial | FMismatch | NotCompared | Unreadable

  datatype Outcome = Bound | Review | NotBound

  datatype Field = DateOfBirth | SexField | IdHint

  /** The three comparable fields on one side: what is stated, if anything is. */
  type Statement = Field -> Option<string>

  /** How each field is read: None where the text cannot be. */
  type Reader = (Field, string) -> Option<string>

  predicate Present(value: Option<string>) {
    value.Some? && Scanning.Trim(value.value) != ""
  }

  function CompareField(identity: Option<string>, claim: Option<string>, read: string -> Option<string>): FieldResult {
    if !Present(claim) || !Present(identity) then NotCompared
    else
      match (read(claim.value), read(identity.value))
      case (Some(c), Some(i)) => if c == i then FMatch else FMismatch
      case _ => Unreadable
  }

  function NameField(m: NameMatch): FieldResult {
    match m case Exact => FMatch case Partial => FPartial case Mismatch => FMismatch
  }

  datatype Fields = Fields(name: FieldResult, dateOfBirth: FieldResult, sex: FieldResult, idHint: FieldResult)

  datatype Binding = Binding(outcome: Outcome, name: NameMatch, fields: Fields)

  predicate Includes(fields: Fields, result: FieldResult) {
    fields.name == result || fields.dateOfBirth == result || fields.sex == result || fields.idHint == result
  }

  /** The result of comparing field `f`. */
  function FieldOf(f: Field, identity: Statement, claim: Statement, read: Reader): FieldResult {
    CompareField(identity(f), claim(f), raw => read(f, raw))
  }

  predicate AllCompared(required: seq<Field>, identity: Statement, claim: Statement, read: Reader) {
    forall k :: 0 <= k < |required| ==> FieldOf(required[k], identity, claim, read) != NotCompared
  }

  // ── What the rule says, in terms of what is stated and how it reads ─

  /** There is something to read: not only white space. */
  ghost predicate Stated(value: Option<string>) {
    value.Some? && exists i :: 0 <= i < |value.value| && !Scanning.IsSpace(value.value[i])
  }

  ghost predicate BothState(f: Field, identity: Statement, claim: Statement) {
    Stated(identity(f)) && Stated(claim(f))
  }

  /** Both sides state the field, in text that reads as the same value. */
  ghost predicate Agrees(f: Field, identity: Statement, claim: Statement, read: Reader) {
    && BothState(f, identity, claim)
    && read(f, identity(f).value).Some? && read(f, identity(f).value) == read(f, claim(f).value)
  }

  /** Both sides state the field, in text that reads as two different values. */
  ghost predicate Contradicts(f: Field, identity: Statement, claim: Statement, read: Reader) {
    && BothState(f, identity, claim)
    && read(f, identity(f).value).Some? && read(f, claim(f).value).Some?
    && read(f, identity(f).value).value != read(f, claim(f).value).value
  }

  /** Both sides state the field, and at least one of the texts cannot be read. */
  ghost predicate Illegible(f: Field, identity: Statement, claim: Statement, read: Reader) {
    BothState(f, identity, claim) && (read(f, identity(f).value).None? || read(f, claim(f).value).None?)
  }

  /** Both names have tokens, and the same ones, each equally often. */
  ghost predicate SameTokens(a: seq<Token>, b: seq<Token>) {
    a != [] && b != [] && multiset(a) == multiset(b)
  }

  /** One name has the tokens of the other and more, or they differ in one token that is one edit off. */
  ghost predicate NearTokens(a: seq<Token>, b: seq<Token>) {
    a != [] && b != [] && (multiset(a) < multiset(b) || multiset(b) < multiset(a) || TypoApart(multiset(a), multiset(b)))
  }

  /** Something speaks against the binding: other names, or a field that reads as two values. */
  ghost predicate Refuted(a: seq<Token>, identity: Statement, b: seq<Token>, claim: Statement, read: Reader) {
    (!SameTokens(a, b) && !NearTokens(a, b)) || exists f: Field :: Contradicts(f, identity, claim, read)
  }

  /** Something is open: a name only near, an illegible field, a required field that a side does not state. */
  ghost predicate Doubtful(a: seq<Token>, identity: Statement, b: seq<Token>, claim: Statement, read: Reader,
      required: seq<Field>) {
    || NearTokens(a, b)
    || (exists f: Field :: Illegible(f, identity, claim, read))
    || exists k :: 0 <= k < |required| && !BothState(required[k], identity, claim)
  }

  /** What is reported of one field. */
  ghost predicate Reports(r: FieldResult, f: Field, identity: Statement, claim: Statement, read: Reader) {
    && (r == NotCompared <==> !BothState(f, identity, claim))
    && (r == FMatch <==> Agrees(f, identity, claim, read))
    && (r == FMismatch <==> Contradicts(f, identity, claim, read))
    && (r == Unreadable <==> Illegible(f, identity, claim, read))
  }

  /**
   * Contradiction refuses, doubt asks a human, and only then is the credential bound; a contradiction is never weighed
   * against anything.
   */
  method BindCredential(identityName: seq<Token>, identity: Statement, claimName: seq<Token>, claim: Statement,
      read: Reader, required: seq<Field>)
    returns (r: Binding)
    ensures r.name == Exact <==> SameTokens(identityName, claimName)
    ensures r.name == Partial <==> NearTokens(identityName, claimName)
    ensures r.fields.name == match r.name case Exact => FMatch case Partial => FPartial case Mismatch => FMismatch
    ensures Reports(r.fields.dateOfBirth, DateOfBirth, identity, claim, read)
    ensures Reports(r.fields.sex, SexField, identity, claim, read)
    ensures Reports(r.fields.idHint, IdHint, identity, claim, read)
    ensures r.outcome == NotBound <==> Refuted(identityName, identity, claimName, claim, read)
    ensures r.outcome == Review <==>
              !Refuted(identityName, identity, claimName, claim, read) && Doubtful(identityName, identity, claimName, claim, read, required)
  {
    var name := CompareNames(identityName, claimName);
    var dateOfBirth := FieldOf(DateOfBirth, identity, claim, read);
    var sex := FieldOf(SexField, identity, claim, read);
    var idHint := FieldOf(IdHint, identity, claim, read);
    var fields := Fields(NameField(name), dateOfBirth, sex, idHint);
    var outcome :=
      if Includes(fields, FMismatch) then NotBound
      else if Includes(fields, FPartial) || Includes(fields, Unreadable) || !AllCompared(required, identity, claim, read) then Review
      else Bound;
    ExactMeansSameTokens(identityName, claimName);
    PartialMeans(identityName, claimName);
    forall f: Field ensures Reports(FieldOf(f, identity, claim, read), f, identity, claim, read) {
      FieldMeans(f, identity, claim, read);
    }
    RequiredStated(required, identity, claim, read);
    SomeFieldIs(fields, identity, claim, read);
    hide FieldOf, Compared, BothState, Agrees, Contradicts, Illegible, SameTokens, NearTokens, Reports, AllCompared;
    return Binding(outcome, name, fields);
  }

  lemma RequiredStated(required: seq<Field>, identity: Statement, claim: Statement, read: Reader)
    ensures AllCompared(required, identity, claim, read) <==>
              forall k :: 0 <= k < |required| ==> BothState(required[k], identity, claim)
  {
    hide FieldOf, BothState, Agrees, Contradicts, Illegible;
    forall f: Field ensures Reports(FieldOf(f, identity, claim, read), f, identity, claim, read) {
      FieldMeans(f, identity, claim, read);
    }
  }

  /** Among the three fields one contradicts, or is illegible, if any does. */
  lemma SomeFieldIs(fields: Fields, identity: Statement, claim: Statement, read: Reader)
    requires Reports(fields.dateOfBirth, DateOfBirth, identity, claim, read)
    requires Reports(fields.sex, SexField, identity, claim, read)
    requires Reports(fields.idHint, IdHint, identity, claim, read)
    ensures (exists f: Field :: Contradicts(f, identity, claim, read)) <==>
              fields.dateOfBirth == FMismatch || fields.sex == FMismatch || fields.idHint == FMismatch
    ensures (exists f: Field :: Illegible(f, identity, claim, read)) <==>
              fields.dateOfBirth == Unreadable || fields.sex == Unreadable || fields.idHint == Unreadable
    ensures fields.dateOfBirth != FPartial && fields.sex != FPartial && fields.idHint != FPartial
  {
    hide Agrees, Contradicts, Illegible, BothState;
    if f: Field :| Contradicts(f, identity, claim, read) {
      OneOfThree(f);
    }
    if f: Field :| Illegible(f, identity, claim, read) {
      OneOfThree(f);
    }
    NeverPartial(fields.dateOfBirth, DateOfBirth, identity, claim, read);
    NeverPartial(fields.sex, SexField, identity, claim, read);
    NeverPartial(fields.idHint, IdHint, identity, claim, read);
  }

  lemma OneOfThree(f: Field)
    ensures f == DateOfBirth || f == SexField || f == IdHint
  {
  }

  lemma NeverPartial(r: FieldResult, f: Field, identity: Statement, claim: Statement, read: Reader)
    requires Reports(r, f, identity, claim, read)
    ensures r != FPartial
  {
    if BothState(f, identity, claim) {
      SameOrNot(read(f, identity(f).value), read(f, claim(f).value));
    }
  }

  lemma SameOrNot(x: Option<string>, y: Option<string>)
    ensures x.Some? && y.Some? ==> (x == y <==> x.value == y.value)
  {
  }

  lemma PresentIsStated(value: Option<string>)
    ensures Present(value) <==> Stated(value)
  {
    if value.Some? {
      Scanning.TrimIsEmpty(value.value);
    }
  }

  /** The four results of a field, exactly. */
  lemma FieldMeans(f: Field, identity: Statement, claim: Statement, read: Reader)
    ensures Reports(FieldOf(f, identity, claim, read), f, identity, claim, read)
  {
    PresentIsStated(identity(f));
    PresentIsStated(claim(f));
    hide Present, Scanning.IsSpace;
    if BothState(f, identity, claim) {
      var c, i := read(f, claim(f).value), read(f, identity(f).value);
      SameOrNot(i, c);
      assert FieldOf(f, identity, claim, read) == match (c, i) case (Some(x), Some(y)) => (if x == y then FMatch else FMismatch) case _ => Unreadable;
    }
  }

  /**
   * BOUND means: the names have the same tokens, every field both sides state agrees, and every required field is
   * stated and agrees. Nothing weaker binds.
   */
  lemma BoundMeansAgreement(a: seq<Token>, identity: Statement, b: seq<Token>, claim: Statement, read: Reader,
      required: seq<Field>)
    ensures !Refuted(a, identity, b, claim, read) && !Doubtful(a, identity, b, claim, read, required) <==>
              && SameTokens(a, b)
              && (forall f: Field :: BothState(f, identity, claim) ==> Agrees(f, identity, claim, read))
              && (forall k :: 0 <= k < |required| ==> Agrees(required[k], identity, claim, read))
  {
    ExactMeansSameTokens(a, b);
    PartialMeans(a, b);
    hide Compared, TypoApart;
    forall f: Field ensures Agrees(f, identity, claim, read) <==>
        BothState(f, identity, claim) && !Contradicts(f, identity, claim, read) && !Illegible(f, identity, claim, read) {
    }
    hide Agrees, Contradicts, Illegible, BothState;
    assert forall k :: 0 <= k < |required| && Agrees(required[k], identity, claim, read) ==> BothState(required[k], identity, claim);
  }
}
