/**
 * Matching the name on a credential against a verified identity: the one-edit test on two tokens, and the comparison
 * of two token lists. Tokens are sequences of UTF-16 units; how a name is cut into tokens is not modelled.
 */
module NameMatching {

  type Token = seq<int>

  // ── Optimal string alignment ────────────────────────────────────

  function Least(a: nat, b: nat): nat {
    if a < b then a else b
  }

  /** The optimal-string-alignment distance: deletions, insertions, substitutions, and swaps of neighbours. */
  function Distance(a: Token, b: Token): nat
    decreases |a| + |b|
  {
    if a == [] then |b|
    else if b == [] then |a|
    else
      var edits := Least(Least(Distance(a[1..], b), Distance(a, b[1..])) + 1,
                         Distance(a[1..], b[1..]) + if a[0] == b[0] then 0 else 1);
      if Swapped(a, b) then Least(edits, Distance(a[2..], b[2..]) + 1) else edits
  }

  predicate Swapped(a: Token, b: Token) {
    |a| >= 2 && |b| >= 2 && a[0] == b[1] && a[1] == b[0]
  }

  /** Within one edit, read off at the first difference. */
  predicate Close(a: Token, b: Token) {
    if a == [] || b == [] then |a| + |b| <= 1
    else if a[0] == b[0] then Close(a[1..], b[1..])
    else a[1..] == b || a == b[1..] || a[1..] == b[1..] || (Swapped(a, b) && a[2..] == b[2..])
  }

  lemma {:induction false} ZeroMeansEqual(a: Token, b: Token)
    ensures Distance(a, b) == 0 <==> a == b
    decreases |a| + |b|
  {
    if a != [] && b != [] {
      ZeroMeansEqual(a[1..], b[1..]);
      assert a == [a[0]] + a[1..] && b == [b[0]] + b[1..];
    }
  }

  /** A token lies within one edit of itself with one unit taken off or put in front. */
  lemma {:induction false} OneOff(a: Token)
    requires a != []
    ensures Close(a, a[1..]) && Close(a[1..], a)
  {
    if |a| > 1 && a[0] == a[1] {
      OneOff(a[1..]);
    }
  }

  lemma {:induction false} CloseToItself(a: Token)
    ensures Close(a, a)
  {
    if a != [] {
      CloseToItself(a[1..]);
    }
  }

  /** One edit, or none, between two tokens that are not empty: the first step of an alignment. */
  lemma WithinOneCases(a: Token, b: Token)
    requires a != [] && b != []
    ensures Distance(a, b) <= 1 <==>
              || a[1..] == b || a == b[1..]
              || (if a[0] == b[0] then Distance(a[1..], b[1..]) <= 1 else a[1..] == b[1..])
              || (Swapped(a, b) && a[2..] == b[2..])
  {
    ZeroMeansEqual(a[1..], b);
    ZeroMeansEqual(a, b[1..]);
    ZeroMeansEqual(a[1..], b[1..]);
    if Swapped(a, b) {
      ZeroMeansEqual(a[2..], b[2..]);
    }
  }

  /** Every way of being within one edit shows at the first difference: skipping greedily loses nothing. */
  lemma {:induction false} CloseIsWithinOne(a: Token, b: Token)
    ensures Close(a, b) <==> Distance(a, b) <= 1
    decreases |a| + |b|
  {
    if a != [] && b != [] {
      WithinOneCases(a, b);
      hide Distance;
      CloseIsWithinOne(a[1..], b[1..]);
      if a[0] == b[0] && Distance(a, b) <= 1 {
        SameHead(a, b);
      }
    }
  }

  /** Between tokens with the same first unit, any single edit can be made behind it. */
  lemma SameHead(a: Token, b: Token)
    requires a != [] && b != [] && a[0] == b[0]
    requires a[1..] == b || a == b[1..] || Close(a[1..], b[1..]) || (Swapped(a, b) && a[2..] == b[2..])
    ensures Close(a[1..], b[1..])
  {
    hide Close;
    if a[1..] == b {
      OneOff(b);
    } else if a == b[1..] {
      OneOff(a);
    } else if Swapped(a, b) && a[2..] == b[2..] {
      assert a[1..] == [a[1]] + a[2..] && b[1..] == [b[1]] + b[2..];
      CloseToItself(a[1..]);
    }
  }

  lemma {:induction false} CloseBothWays(a: Token, b: Token)
    ensures Close(a, b) == Close(b, a)
  {
    if a != [] && b != [] && a[0] == b[0] {
      CloseBothWays(a[1..], b[1..]);
    }
  }

  // ── One edit, spelled out ───────────────────────────────────────

  /** Taking the unit at `i` out of `a` leaves `b`. */
  predicate DropsAt(a: Token, b: Token, i: nat) {
    i < |a| && b == a[..i] + a[i + 1..]
  }

  /** Another unit at `i`, or the same, makes `b` of `a`. */
  predicate ReplacesAt(a: Token, b: Token, i: nat) {
    i < |a| == |b| && b == a[i := b[i]]
  }

  /** The units at `i` and behind it change places. */
  predicate SwapsAt(a: Token, b: Token, i: nat) {
    i + 1 < |a| && b == a[i := a[i + 1]][i + 1 := a[i]]
  }

  predicate EditsAt(a: Token, b: Token, i: nat) {
    DropsAt(a, b, i) || DropsAt(b, a, i) || ReplacesAt(a, b, i) || SwapsAt(a, b, i)
  }

  lemma EditIsClose(a: Token, b: Token, i: nat)
    requires EditsAt(a, b, i)
    ensures Close(a, b)
  {
    assert a[..i] == b[..i];
    StripCommon(a, b, i);
    var x, y := a[i..], b[i..];
    if DropsAt(a, b, i) {
      assert y == x[1..];
      OneOff(x);
    } else if DropsAt(b, a, i) {
      assert x == y[1..];
      OneOff(y);
    } else if ReplacesAt(a, b, i) {
      assert x[1..] == y[1..];
      CloseToItself(x[1..]);
    } else {
      assert x[0] == y[1] && x[1] == y[0] && x[2..] == y[2..];
      assert x[0] == x[1] ==> x == y;
      CloseToItself(x);
    }
  }

  lemma EditsOnePlaceOn(a: Token, b: Token, i: nat)
    requires a != [] && b != [] && a[0] == b[0] && EditsAt(a[1..], b[1..], i)
    ensures EditsAt(a, b, i + 1)
  {
    assert a == [a[0]] + a[1..] && b == [b[0]] + b[1..];
  }

  lemma {:induction false} CloseIsEdit(a: Token, b: Token) returns (i: nat)
    requires Close(a, b)
    ensures a == b || EditsAt(a, b, i)
  {
    i := 0;
    if a != [] && b != [] {
      if a[0] == b[0] {
        i := CloseIsEdit(a[1..], b[1..]);
        assert a == [a[0]] + a[1..] && b == [b[0]] + b[1..];
        if a != b {
          EditsOnePlaceOn(a, b, i);
        }
        i := i + 1;
      } else if a[1..] == b[1..] {
        assert ReplacesAt(a, b, 0);
      } else if Swapped(a, b) && a[2..] == b[2..] {
        assert SwapsAt(a, b, 0);
      }
    }
  }

  /**
   * At most one edit means: the same token, one unit more or less, one replaced, or two neighbours swapped, at whatever
   * place.
   */
  lemma WithinOneMeans(a: Token, b: Token)
    ensures Distance(a, b) <= 1 <==> a == b || exists i: nat :: EditsAt(a, b, i)
  {
    CloseIsWithinOne(a, b);
    hide Distance, EditsAt;
    if Close(a, b) {
      var i := CloseIsEdit(a, b);
    } else {
      CloseToItself(b);
      forall i: nat ensures !EditsAt(a, b, i) {
        if EditsAt(a, b, i) {
          EditIsClose(a, b, i);
        }
      }
    }
  }

  // ── editDistanceAtMostOne ───────────────────────────────────────

  /** A shared beginning can be left out. */
  lemma {:induction false} StripCommon(a: Token, b: Token, n: nat)
    requires n <= |a| && n <= |b| && a[..n] == b[..n]
    ensures Close(a, b) == Close(a[n..], b[n..])
  {
    if n > 0 {
      assert a[0] == a[..n][0] == b[..n][0] == b[0];
      assert a[1..][..n - 1] == a[..n][1..] == b[..n][1..] == b[1..][..n - 1];
      StripCommon(a[1..], b[1..], n - 1);
    }
  }

  /** `diffs` are the first places up to `end` at which the tokens differ. */
  predicate DiffersExactlyAt(a: Token, b: Token, end: nat, diffs: seq<nat>)
    requires |a| == |b| && end <= |a|
  {
    && (forall k :: 0 <= k < |diffs| ==> diffs[k] < end && a[diffs[k]] != b[diffs[k]])
    && (forall k, l :: 0 <= k < l < |diffs| ==> diffs[k] < diffs[l])
    && (forall p :: 0 <= p < end && p !in diffs ==> a[p] == b[p])
  }

  /** With equal lengths, only one substitution or one swap of neighbours is left at the first difference. */
  lemma AtFirstDifference(a: Token, b: Token, i: nat)
    requires |a| == |b| && i < |a| && a[i] != b[i] && a[..i] == b[..i]
    ensures Close(a, b) <==>
              a[i + 1..] == b[i + 1..] || (i + 1 < |a| && a[i] == b[i + 1] && a[i + 1] == b[i] && a[i + 2..] == b[i + 2..])
  {
    StripCommon(a, b, i);
    assert a[i..][1..] == a[i + 1..] && b[i..][1..] == b[i + 1..];
    if i + 1 < |a| {
      assert a[i..][2..] == a[i + 2..] && b[i..][2..] == b[i + 2..];
    }
  }

  lemma DecidedByDiffs(a: Token, b: Token, end: nat, diffs: seq<nat>)
    requires |a| == |b| && end <= |a| && DiffersExactlyAt(a, b, end, diffs) && diffs != []
    ensures |diffs| > 2 ==> !Close(a, b)
    ensures end == |a| && |diffs| == 1 ==> Close(a, b)
    ensures end == |a| && |diffs| == 2 ==>
              (Close(a, b) <==> diffs[1] == diffs[0] + 1 && a[diffs[0]] == b[diffs[1]] && a[diffs[1]] == b[diffs[0]])
  {
    var i := diffs[0];
    assert a[..i] == b[..i] by {
      forall p | 0 <= p < i ensures a[p] == b[p] {
        assert p !in diffs;
      }
    }
    AtFirstDifference(a, b, i);
    hide Close;
    if |diffs| >= 2 {
      var j := diffs[1];
      assert a[i + 1..][j - i - 1] != b[i + 1..][j - i - 1];
      if |diffs| > 2 {
        assert a[i + 2..][diffs[2] - i - 2] != b[i + 2..][diffs[2] - i - 2];
      } else if end == |a| && j == i + 1 {
        assert a[i + 2..] == b[i + 2..];
      } else if end == |a| {
        assert i + 1 !in diffs;
      }
    } else if end == |a| {
      assert forall p :: i < p < |a| ==> p !in diffs;
      assert a[i + 1..] == b[i + 1..];
    }
  }

  method EditDistanceAtMostOne(a: Token, b: Token) returns (r: bool)
    ensures r <==> Distance(a, b) <= 1
  {
    CloseIsWithinOne(a, b);
    hide Close, Distance;
    if a == b {
      ZeroMeansEqual(a, b);
      return true;
    }
    if |a| - |b| > 1 || |b| - |a| > 1 {
      FarApart(a, b);
      return false;
    }
    if |a| == |b| {
      r := SameLength(a, b);
    } else if |a| < |b| {
      r := OneLonger(a, b);
    } else {
      r := OneLonger(b, a);
      CloseBothWays(a, b);
    }
  }

  lemma {:induction false} FarApart(a: Token, b: Token)
    requires |a| - |b| > 1 || |b| - |a| > 1
    ensures !Close(a, b)
  {
    if a != [] && b != [] && a[0] == b[0] {
      FarApart(a[1..], b[1..]);
    }
  }

  method SameLength(a: Token, b: Token) returns (r: bool)
    requires |a| == |b| && a != b
    ensures r <==> Close(a, b)
  {
    hide Close;
    var diffs: seq<nat> := [];
    for i := 0 to |a|
      invariant |diffs| <= 2 && DiffersExactlyAt(a, b, i, diffs)
    {
      if a[i] != b[i] {
        diffs := diffs + [i];
        if |diffs| > 2 {
          DecidedByDiffs(a, b, i + 1, diffs);
          return false;
        }
      }
    }
    SomewhereDifferent(a, b, diffs);
    DecidedByDiffs(a, b, |a|, diffs);
    if |diffs| == 1 {
      return true;
    }
    return diffs[1] == diffs[0] + 1 && a[diffs[0]] == b[diffs[1]] && a[diffs[1]] == b[diffs[0]];
  }

  lemma SomewhereDifferent(a: Token, b: Token, diffs: seq<nat>)
    requires |a| == |b| && a != b && DiffersExactlyAt(a, b, |a|, diffs)
    ensures diffs != []
  {
    var p := ADifference(a, b);
    assert p in diffs;
  }

  lemma {:induction false} ADifference(a: Token, b: Token) returns (p: nat)
    requires |a| == |b| && a != b
    ensures p < |a| && a[p] != b[p]
  {
    assert a == [a[0]] + a[1..] && b == [b[0]] + b[1..];
    if a[0] != b[0] {
      p := 0;
    } else {
      p := ADifference(a[1..], b[1..]);
      p := p + 1;
    }
  }

  /** The longer token matches with its unit at `p` skipped, as far as `i`. */
  predicate SkippedAt(shorter: Token, longer: Token, p: nat, i: nat)
    requires |longer| == |shorter| + 1
  {
    && p <= i <= |shorter| && shorter[..p] == longer[..p] && (p < |shorter| ==> shorter[p] != longer[p])
    && forall k :: p <= k < i ==> shorter[k] == longer[k + 1]
  }

  /** At the first difference the longer token must lose that very unit. */
  lemma OnlySkip(shorter: Token, longer: Token, p: nat)
    requires |longer| == |shorter| + 1 && p < |shorter| && shorter[..p] == longer[..p] && shorter[p] != longer[p]
    ensures Close(shorter, longer) <==> shorter[p..] == longer[p + 1..]
  {
    StripCommon(shorter, longer, p);
    assert longer[p..][1..] == longer[p + 1..];
  }

  method OneLonger(shorter: Token, longer: Token) returns (r: bool)
    requires |longer| == |shorter| + 1
    ensures r <==> Close(shorter, longer)
  {
    hide Close;
    var i, j, skipped := 0, 0, false;
    ghost var p := 0;
    while i < |shorter| && j < |longer|
      invariant i <= |shorter| && j <= |longer|
      invariant !skipped ==> i == j && shorter[..i] == longer[..i]
      invariant skipped ==> j == i + 1 && p < |shorter| && SkippedAt(shorter, longer, p, i)
      decreases |longer| - j
    {
      if shorter[i] == longer[j] {
        i := i + 1;
        j := j + 1;
      } else {
        if skipped {
          OnlySkip(shorter, longer, p);
          assert shorter[p..][i - p] != longer[p + 1..][i - p];
          return false;
        }
        skipped := true;
        p := i;
        j := j + 1;
      }
    }
    if skipped {
      assert shorter[p..] == longer[p + 1..];
      OnlySkip(shorter, longer, p);
    } else {
      StripCommon(shorter, longer, i);
      assert shorter[i..] == [];
      assert Close([], longer[i..]) by { LastOne(longer[i..]); }
    }
    return true;
  }

  lemma LastOne(rest: Token)
    requires |rest| == 1
    ensures Close([], rest)
  {
  }

  /** The test is exact and does not depend on the order of its arguments. */
  lemma DistanceBothWays(a: Token, b: Token)
    ensures Distance(a, b) <= 1 <==> Distance(b, a) <= 1
  {
    CloseIsWithinOne(a, b);
    CloseIsWithinOne(b, a);
    CloseBothWays(a, b);
  }
}
