/**
 * The string and buffer searches the parsers are written with: `indexOf`, `split`, `trim`, `toLowerCase`.
 * A `Buffer` is written as its `toString('latin1')`: one character per octet, of that octet's value.
 * Nothing below needs the characters to be under U+0100, so the lemmas hold for more than real buffers.
 */
module Scanning {
  import opened Wrappers

  type Buffer = string

  const CR: char := '\r'
  const LF: char := '\n'

  // ── indexOf ─────────────────────────────────────────────────────

  predicate Matches<T(==)>(s: seq<T>, pattern: seq<T>, at: nat) {
    at + |pattern| <= |s| && forall j {:trigger pattern[j]} :: 0 <= j < |pattern| ==> s[at + j] == pattern[j]
  }

  /** `s.indexOf(pattern, from)`; None stands for -1. */
  function IndexOf<T(==)>(s: seq<T>, pattern: seq<T>, from: nat): (r: Option<nat>)
    ensures r.Some? ==> from <= r.value && Matches(s, pattern, r.value)
    decreases |s| - from
  {
    if from + |pattern| > |s| then None
    else if Matches(s, pattern, from) then Some(from)
    else if from == |s| then None
    else IndexOf(s, pattern, from + 1)
  }

  /** It is the first match at or after `from`, and None only when there is none. */
  lemma {:induction false} IndexOfIsFirst<T>(s: seq<T>, pattern: seq<T>, from: nat, i: nat)
    requires from <= i
    requires match IndexOf(s, pattern, from) case None => true case Some(at) => i < at
    ensures !Matches(s, pattern, i)
    decreases |s| - from
  {
    if from + |pattern| <= |s| && !Matches(s, pattern, from) && from < |s| && from < i {
      IndexOfIsFirst(s, pattern, from + 1, i);
    }
  }

  /** The first match is the only thing `indexOf` can return. */
  lemma IndexOfIs<T>(s: seq<T>, pattern: seq<T>, from: nat, at: nat)
    requires from <= at && Matches(s, pattern, at)
    requires forall i: nat :: from <= i < at ==> !Matches(s, pattern, i)
    ensures IndexOf(s, pattern, from) == Some(at)
  {
    var r := IndexOf(s, pattern, from);
    if r.None? || at < r.value {
      IndexOfIsFirst(s, pattern, from, at);
    }
  }

  lemma IndexOfIsNone<T>(s: seq<T>, pattern: seq<T>, from: nat)
    requires forall i: nat :: from <= i ==> !Matches(s, pattern, i)
    ensures IndexOf(s, pattern, from).None?
  {
  }

  /** Cutting a buffer keeps a match that fits before the cut, and creates none. */
  lemma MatchesInPrefix<T>(s: seq<T>, cut: nat, pattern: seq<T>, at: nat)
    requires cut <= |s|
    ensures Matches(s[..cut], pattern, at) <==> at + |pattern| <= cut && Matches(s, pattern, at)
  {
  }

  /** `indexOf` on a cut buffer: the same answer if the match still fits, otherwise -1. */
  lemma IndexOfInPrefix<T>(s: seq<T>, cut: nat, pattern: seq<T>, from: nat)
    requires cut <= |s|
    ensures IndexOf(s[..cut], pattern, from)
         == match IndexOf(s, pattern, from)
            case None => None
            case Some(at) => if at + |pattern| <= cut then Some(at) else None
  {
    match IndexOf(s, pattern, from)
    case None =>
      forall i: nat | from <= i ensures !Matches(s[..cut], pattern, i) {
        MatchesInPrefix(s, cut, pattern, i);
        IndexOfIsFirst(s, pattern, from, i);
      }
      IndexOfIsNone(s[..cut], pattern, from);
    case Some(at) =>
      forall i: nat | from <= i && (i < at || cut < i + |pattern|) ensures !Matches(s[..cut], pattern, i) {
        MatchesInPrefix(s, cut, pattern, i);
        if i < at {
          IndexOfIsFirst(s, pattern, from, i);
        }
      }
      if at + |pattern| <= cut {
        MatchesInPrefix(s, cut, pattern, at);
        IndexOfIs(s[..cut], pattern, from, at);
      } else {
        IndexOfIsNone(s[..cut], pattern, from);
      }
  }

  /** One differing element rules a match out. */
  lemma MismatchAt<T>(s: seq<T>, pattern: seq<T>, at: nat, j: nat)
    requires j < |pattern| && (at + j < |s| ==> s[at + j] != pattern[j])
    ensures !Matches(s, pattern, at)
  {
    if at + |pattern| <= |s| {
      assert s[at + j] != pattern[j];
    }
  }

  /** A match that lies wholly in a stretch of `s` is a match in that stretch. */
  lemma MatchesWithin<T>(s: seq<T>, start: nat, end: nat, pattern: seq<T>, k: nat)
    requires start <= end <= |s| && start + k + |pattern| <= end
    ensures Matches(s, pattern, start + k) <==> Matches(s[start..end], pattern, k)
  {
    assert s[start..end] == s[start..][..end - start];
    MatchesShifted(s, start, pattern, k);
    MatchesInPrefix(s[start..], end - start, pattern, k);
  }

  lemma MatchesAppend<T>(s: seq<T>, left: seq<T>, right: seq<T>, at: nat)
    requires Matches(s, left, at) && Matches(s, right, at + |left|)
    ensures s[at..at + |left| + |right|] == left + right
  {
  }

  lemma MatchesShifted<T>(s: seq<T>, k: nat, pattern: seq<T>, i: nat)
    requires k <= |s|
    ensures Matches(s[k..], pattern, i) <==> Matches(s, pattern, k + i)
  {
  }

  function Shift(at: Option<nat>, k: nat): Option<nat> {
    match at case None => None case Some(i) => Some(k + i)
  }

  /** A search only sees what lies ahead of it. */
  lemma {:induction false} IndexOfShifted<T>(s: seq<T>, k: nat, pattern: seq<T>, from: nat)
    requires k <= |s|
    ensures IndexOf(s, pattern, k + from) == Shift(IndexOf(s[k..], pattern, from), k)
    decreases |s| - from
  {
    if k + from + |pattern| <= |s| {
      MatchesShifted(s, k, pattern, from);
      if !Matches(s, pattern, k + from) && k + from < |s| {
        IndexOfShifted(s, k, pattern, from + 1);
      }
    }
  }

  // ── Single characters ───────────────────────────────────────────

  /** `s.indexOf(c)` for one character. */
  function Find(s: string, c: char): (r: Option<nat>)
    ensures r.Some? ==> r.value < |s| && s[r.value] == c && forall i :: 0 <= i < r.value ==> s[i] != c
    ensures r.None? ==> c !in s
  {
    if s == [] then None
    else if s[0] == c then Some(0)
    else
      match Find(s[1..], c)
      case None => None
      case Some(i) => Some(i + 1)
  }

  lemma FindIs(s: string, c: char, at: nat)
    requires at < |s| && s[at] == c && forall i :: 0 <= i < at ==> s[i] != c
    ensures Find(s, c) == Some(at)
  {
    assert Find(s, c).Some?;
  }

  /** `s.split(c)` for a one-character separator. */
  function Split(s: string, c: char): (r: seq<string>)
    ensures r != []
  {
    match Find(s, c)
    case None => [s]
    case Some(i) => [s[..i]] + Split(s[i + 1..], c)
  }

  /** `parts.join(separator)`. */
  function Join<T>(parts: seq<seq<T>>, separator: seq<T>): (r: seq<T>) {
    if parts == [] then []
    else if |parts| == 1 then parts[0]
    else parts[0] + separator + Join(parts[1..], separator)
  }

  /** What a separator splits off the front when the first piece does not contain it. */
  lemma SplitFirst(piece: string, c: char, rest: string)
    requires c !in piece
    ensures Split(piece + [c] + rest, c) == [piece] + Split(rest, c)
  {
    var s := piece + [c] + rest;
    assert s[..|piece|] == piece && s[|piece| + 1..] == rest;
    FindIs(s, c, |piece|);
  }

  /** Joining pieces that do not contain the separator, and splitting again. */
  lemma {:induction false} SplitJoined(parts: seq<string>, c: char)
    requires parts != [] && forall p :: p in parts ==> c !in p
    ensures Split(Join(parts, [c]), c) == parts
  {
    if |parts| == 1 {
      assert parts[0] in parts;
      assert parts == [parts[0]];
    } else {
      assert parts[0] in parts;
      SplitJoined(parts[1..], c);
      SplitFirst(parts[0], c, Join(parts[1..], [c]));
      assert parts == [parts[0]] + parts[1..];
    }
  }

  // ── Character classes ───────────────────────────────────────────

  /** JavaScript white space and line terminators: what `trim` removes and `\s` matches. */
  predicate IsSpace(c: char) {
    || c in "\t\n\U{0B}\U{0C}\r \U{A0}\U{1680}\U{2028}\U{2029}\U{202F}\U{205F}\U{3000}\U{FEFF}"
    || '\U{2000}' <= c <= '\U{200A}'
  }

  /** Lower case of a Latin-1 letter: headers reach the parsers as Latin-1 text. */
  function Lower(c: char): char {
    if 'A' <= c <= 'Z' || ('\U{C0}' <= c <= '\U{DE}' && c != '\U{D7}') then c + 32 as char else c
  }

  /** `toLowerCase`. */
  function ToLower(s: string): (r: string)
    ensures |r| == |s| && forall i :: 0 <= i < |s| ==> r[i] == Lower(s[i])
  {
    seq(|s|, i requires 0 <= i < |s| => Lower(s[i]))
  }

  function TrimStart(s: string): (r: string)
    ensures |r| <= |s| && r == s[|s| - |r|..]
    ensures r != [] ==> !IsSpace(r[0])
    ensures forall i :: 0 <= i < |s| - |r| ==> IsSpace(s[i])
  {
    if s != [] && IsSpace(s[0]) then TrimStart(s[1..]) else s
  }

  function TrimEnd(s: string): (r: string)
    ensures |r| <= |s| && r == s[..|r|]
    ensures r != [] ==> !IsSpace(r[|r| - 1])
    ensures forall i :: |r| <= i < |s| ==> IsSpace(s[i])
  {
    if s != [] && IsSpace(s[|s| - 1]) then TrimEnd(s[..|s| - 1]) else s
  }

  function Trim(s: string): (r: string) {
    TrimEnd(TrimStart(s))
  }

  lemma TrimIsEmpty(s: string)
    ensures Trim(s) != "" <==> exists i :: 0 <= i < |s| && !IsSpace(s[i])
  {
    hide IsSpace;
    var t := TrimStart(s);
    assert t != [] ==> s[|s| - |t|] == t[0];
  }

  /** Text whose ends are not white space is its own trim, with or without padding around it. */
  lemma TrimTrimmed(s: string)
    requires s == [] || (!IsSpace(s[0]) && !IsSpace(s[|s| - 1]))
    ensures Trim(s) == s
    ensures Trim([' '] + s) == s
  {
    var padded := [' '] + s;
    assert padded[1..] == s;
    assert TrimStart(padded) == TrimStart(s) == s;
  }
}
