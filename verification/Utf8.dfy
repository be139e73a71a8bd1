/**
 * UTF-8 (section 3 of RFC 3629) as `Buffer.from(text, 'utf8')` and `buffer.toString('utf8')` apply it.
 * Text is a sequence of Unicode scalar values; the decoder replaces each maximal ill-formed subpart by U+FFFD.
 */
module Utf8 {
  import opened Scanning

  function Byte(n: nat): char
    requires n < 256
  {
    n as char
  }

  function EncodeChar(c: char): (r: Buffer)
    ensures 1 <= |r| <= 4
  {
    var n := c as int;
    if n < 0x80 then [Byte(n)]
    else if n < 0x800 then [Byte(0xC0 + n / 64), Byte(0x80 + n % 64)]
    else if n < 0x10000 then
      [Byte(0xE0 + n / 4096), Byte(0x80 + n / 64 % 64), Byte(0x80 + n % 64)]
    else
      [Byte(0xF0 + n / 262144), Byte(0x80 + n / 4096 % 64), Byte(0x80 + n / 64 % 64), Byte(0x80 + n % 64)]
  }

  function Encode(s: string): (r: Buffer)
    ensures |r| >= |s|
  {
    if s == [] then [] else EncodeChar(s[0]) + Encode(s[1..])
  }

  // ── Decoding ────────────────────────────────────────────────────

  const REPLACEMENT: char := '\U{FFFD}'

  predicate InRange(b: Buffer, at: nat, low: nat, high: nat) {
    at < |b| && low <= b[at] as int <= high
  }

  function Tail(b: Buffer, at: nat): nat
    requires InRange(b, at, 0x80, 0xBF)
  {
    b[at] as int - 0x80
  }

  /** The first character of a non-empty buffer and how many octets it takes. */
  function DecodeFirst(b: Buffer): (r: (char, nat))
    requires b != []
    ensures 1 <= r.1 <= |b|
  {
    var n := b[0] as int;
    if n < 0x80 then (b[0], 1)
    else if 0xC2 <= n <= 0xDF then
      if InRange(b, 1, 0x80, 0xBF) then (((n - 0xC0) * 64 + Tail(b, 1)) as char, 2) else (REPLACEMENT, 1)
    else if 0xE0 <= n <= 0xEF then
      if !InRange(b, 1, if n == 0xE0 then 0xA0 else 0x80, if n == 0xED then 0x9F else 0xBF) then (REPLACEMENT, 1)
      else if !InRange(b, 2, 0x80, 0xBF) then (REPLACEMENT, 2)
      else (((n - 0xE0) * 4096 + Tail(b, 1) * 64 + Tail(b, 2)) as char, 3)
    else if 0xF0 <= n <= 0xF4 then
      if !InRange(b, 1, if n == 0xF0 then 0x90 else 0x80, if n == 0xF4 then 0x8F else 0xBF) then (REPLACEMENT, 1)
      else if !InRange(b, 2, 0x80, 0xBF) then (REPLACEMENT, 2)
      else if !InRange(b, 3, 0x80, 0xBF) then (REPLACEMENT, 3)
      else (((n - 0xF0) * 262144 + Tail(b, 1) * 4096 + Tail(b, 2) * 64 + Tail(b, 3)) as char, 4)
    else (REPLACEMENT, 1)
  }

  function Decode(b: Buffer): string {
    if b == [] then []
    else
      var (c, taken) := DecodeFirst(b);
      [c] + Decode(b[taken..])
  }

  // ── Laws ────────────────────────────────────────────────────────

  lemma Digits(n: nat)
    ensures n == n / 4096 * 4096 + n / 64 % 64 * 64 + n % 64
    ensures n == n / 262144 * 262144 + n / 4096 % 64 * 4096 + n / 64 % 64 * 64 + n % 64
  {
    assert n == n / 64 * 64 + n % 64;
    assert n / 64 == n / 64 / 64 * 64 + n / 64 % 64;
    assert n / 64 / 64 == n / 4096;
    assert n / 4096 == n / 4096 / 64 * 64 + n / 4096 % 64;
    assert n / 4096 / 64 == n / 262144;
  }

  lemma DecodeEncodedTwo(c: char, rest: Buffer)
    requires 0x80 <= c as int < 0x800
    ensures DecodeFirst(EncodeChar(c) + rest) == (c, 2)
  {
    var n := c as int;
    var b := EncodeChar(c) + rest;
    assert b[0] as int == 0xC0 + n / 64 && b[1] as int == 0x80 + n % 64;
  }

  lemma DecodeEncodedThree(c: char, rest: Buffer)
    requires 0x800 <= c as int < 0x10000
    ensures DecodeFirst(EncodeChar(c) + rest) == (c, 3)
  {
    var n := c as int;
    var b := EncodeChar(c) + rest;
    Digits(n);
    var x, y, z := n / 4096, n / 64 % 64, n % 64;
    assert b[0] as int == 0xE0 + x && b[1] as int == 0x80 + y && b[2] as int == 0x80 + z;
    assert x == 0 ==> y >= 32;
    assert x == 13 ==> y < 32;
  }

  lemma DecodeEncodedFour(c: char, rest: Buffer)
    requires 0x10000 <= c as int
    ensures DecodeFirst(EncodeChar(c) + rest) == (c, 4)
  {
    var n := c as int;
    var b := EncodeChar(c) + rest;
    Digits(n);
    var w, x, y, z := n / 262144, n / 4096 % 64, n / 64 % 64, n % 64;
    assert b[0] as int == 0xF0 + w && b[1] as int == 0x80 + x && b[2] as int == 0x80 + y && b[3] as int == 0x80 + z;
    assert w <= 4;
    assert w == 0 ==> x >= 16;
    assert w == 4 ==> x < 16;
  }

  lemma DecodeEncodedChar(c: char, rest: Buffer)
    ensures DecodeFirst(EncodeChar(c) + rest) == (c, |EncodeChar(c)|)
  {
    if c as int < 0x80 {
    } else if c as int < 0x800 {
      DecodeEncodedTwo(c, rest);
    } else if c as int < 0x10000 {
      DecodeEncodedThree(c, rest);
    } else {
      DecodeEncodedFour(c, rest);
    }
  }

  /** Decoding undoes encoding on all text. */
  lemma {:induction false} DecodeEncode(s: string)
    ensures Decode(Encode(s)) == s
  {
    if s != [] {
      DecodeEncodedChar(s[0], Encode(s[1..]));
      DecodeEncode(s[1..]);
      assert (EncodeChar(s[0]) + Encode(s[1..]))[|EncodeChar(s[0])|..] == Encode(s[1..]);
    }
  }

  // ── Octets that are no text ─────────────────────────────────────

  lemma Composed(x: nat, y: nat, z: nat)
    requires y < 64 && z < 64
    ensures var n := x * 4096 + y * 64 + z; n / 4096 == x && n / 64 % 64 == y && n % 64 == z
  {
    var n := x * 4096 + y * 64 + z;
    assert n / 64 == x * 64 + y;
  }

  lemma ComposedFour(w: nat, x: nat, y: nat, z: nat)
    requires x < 64 && y < 64 && z < 64
    ensures var n := w * 262144 + x * 4096 + y * 64 + z; n / 262144 == w && n / 4096 % 64 == x && n / 64 % 64 == y && n % 64 == z
  {
    var n := w * 262144 + x * 4096 + y * 64 + z;
    assert n / 64 == w * 4096 + x * 64 + y;
    assert n / 4096 == w * 64 + x;
  }

  /** What decoding drops is the beginning of a character, or one octet. */
  lemma DroppedBegins(b: Buffer) returns (c: char)
    requires b != [] && DecodeFirst(b).0 == REPLACEMENT && DecodeFirst(b).1 > 1
    requires b[..DecodeFirst(b).1] != EncodeChar(REPLACEMENT)
    ensures b[..DecodeFirst(b).1] <= EncodeChar(c)
  {
    var n := b[0] as int;
    if n <= 0xEF {
      Composed(n - 0xE0, Tail(b, 1), 0);
      c := ((n - 0xE0) * 4096 + Tail(b, 1) * 64) as char;
    } else {
      c := DroppedBeginsFour(b);
    }
  }

  lemma DroppedBeginsFour(b: Buffer) returns (c: char)
    requires b != [] && b[0] as int >= 0xF0 && DecodeFirst(b).0 == REPLACEMENT && DecodeFirst(b).1 > 1
    ensures b[..DecodeFirst(b).1] <= EncodeChar(c)
  {
    var n, k := b[0] as int, DecodeFirst(b).1;
    var third := if k == 3 then Tail(b, 2) else 0;
    ComposedFour(n - 0xF0, Tail(b, 1), third, 0);
    c := ((n - 0xF0) * 262144 + Tail(b, 1) * 4096 + third * 64) as char;
  }

  lemma DecodedThree(b: Buffer)
    requires b != [] && 0xE0 <= b[0] as int <= 0xEF && DecodeFirst(b).1 == 3
    ensures EncodeChar(DecodeFirst(b).0) == b[..3]
  {
    Composed(b[0] as int - 0xE0, Tail(b, 1), Tail(b, 2));
  }

  lemma DecodedFour(b: Buffer)
    requires b != [] && DecodeFirst(b).1 == 4
    ensures EncodeChar(DecodeFirst(b).0) == b[..4]
  {
    ComposedFour(b[0] as int - 0xF0, Tail(b, 1), Tail(b, 2), Tail(b, 3));
  }

  /** A character other than the replacement is only decoded from its own encoding. */
  lemma DecodedIsEncoded(b: Buffer)
    requires b != [] && DecodeFirst(b).0 != REPLACEMENT
    ensures EncodeChar(DecodeFirst(b).0) <= b
  {
    var (c, taken) := DecodeFirst(b);
    if taken == 4 {
      DecodedFour(b);
    } else if taken == 3 {
      DecodedThree(b);
    } else if taken == 2 {
      assert (b[0] as int - 0xC0) * 64 + Tail(b, 1) == c as int;
    }
  }

  /** Whether the first octets are given up is decided by them and the next one. */
  lemma DroppedAlike(b: Buffer, other: Buffer)
    requires b != [] && DecodeFirst(b).0 == REPLACEMENT && !(EncodeChar(REPLACEMENT) <= b)
    requires DecodeFirst(b).1 < |b| && b[..DecodeFirst(b).1 + 1] <= other
    ensures DecodeFirst(other) == DecodeFirst(b)
  {
    var k := DecodeFirst(b).1;
    assert forall i :: 0 <= i <= k ==> other[i] == b[..k + 1][i] == b[i];
    if k == 4 {
      DecodedFour(b);
    } else if k == 3 && b[0] as int <= 0xEF {
      DecodedThree(b);
    }
  }

  /** These octets begin the encoding of a character, or are one. */
  ghost predicate Begins(b: Buffer) {
    exists c :: b <= EncodeChar(c)
  }

  /** The first `k` octets are the longest beginning of a character, or one octet that begins none. */
  ghost predicate GivenUp(b: Buffer, k: nat) {
    1 <= k <= |b| && (k == 1 || Begins(b[..k])) && (k == |b| || !Begins(b[..k + 1]))
  }

  /** The first `k` octets give one character. */
  predicate Gives(b: Buffer, k: nat, c: char) {
    k <= |b| && Decode(b) == [c] + Decode(b[k..])
  }

  /**
   * At the front of any octets, a character that is encoded there is decoded. If there is none, the longest beginning of
   * a character gives U+FFFD, or else one octet does.
   */
  lemma DecodesFront(b: Buffer)
    requires b != []
    ensures forall c :: EncodeChar(c) <= b ==> Gives(b, |EncodeChar(c)|, c)
    ensures (forall c :: !(EncodeChar(c) <= b)) ==> exists k: nat :: GivenUp(b, k) && Gives(b, k, '\U{FFFD}')
  {
    hide *;
    forall c | EncodeChar(c) <= b ensures Gives(b, |EncodeChar(c)|, c) {
      var rest := b[|EncodeChar(c)|..];
      assert b == EncodeChar(c) + rest;
      DecodeEncodedChar(c, rest);
      DecodeOnce(b);
    }
    if forall c :: !(EncodeChar(c) <= b) {
      Replaced(b);
      DecodeOnce(b);
    }
  }

  lemma DecodeOnce(b: Buffer)
    requires b != []
    ensures Gives(b, DecodeFirst(b).1, DecodeFirst(b).0)
  {
    hide DecodeFirst;
  }

  lemma Replaced(b: Buffer)
    requires b != [] && forall c :: !(EncodeChar(c) <= b)
    ensures DecodeFirst(b).0 == '\U{FFFD}' && GivenUp(b, DecodeFirst(b).1)
  {
    hide EncodeChar, DecodeFirst;
    if DecodeFirst(b).0 != REPLACEMENT {
      DecodedIsEncoded(b);
    }
    if DecodeFirst(b).1 > 1 {
      assert b[..DecodeFirst(b).1] != EncodeChar(REPLACEMENT);
      var c := DroppedBegins(b);
    }
    forall c | DecodeFirst(b).1 < |b| ensures !(b[..DecodeFirst(b).1 + 1] <= EncodeChar(c)) {
      NotBegun(b, c);
    }
  }

  lemma NotBegun(b: Buffer, c: char)
    requires b != [] && DecodeFirst(b).0 == REPLACEMENT && DecodeFirst(b).1 < |b| && !(EncodeChar(REPLACEMENT) <= b)
    ensures !(b[..DecodeFirst(b).1 + 1] <= EncodeChar(c))
  {
    hide EncodeChar, DecodeFirst;
    DecodeEncodedChar(c, []);
    assert EncodeChar(c) + [] == EncodeChar(c);
    if b[..DecodeFirst(b).1 + 1] <= EncodeChar(c) {
      DroppedAlike(b, EncodeChar(c));
    }
  }

  lemma {:induction false} EncodeAppend(s: string, t: string)
    ensures Encode(s + t) == Encode(s) + Encode(t)
  {
    if s == [] {
      assert s + t == t;
    } else {
      assert (s + t)[1..] == s[1..] + t;
      EncodeAppend(s[1..], t);
    }
  }

  predicate IsAscii(s: string) {
    forall i :: 0 <= i < |s| ==> s[i] < 0x80 as char
  }

  /** ASCII text is its own encoding. */
  lemma {:induction false} EncodeAscii(s: string)
    requires IsAscii(s)
    ensures Encode(s) == s
  {
    if s != [] {
      EncodeAscii(s[1..]);
    }
  }

  /** An octet below 0x80 in encoded text can only be that very character. */
  lemma {:induction false} EncodeTransparent(s: string, c: char)
    requires c < 0x80 as char
    ensures c in Encode(s) <==> c in s
  {
    if s != [] {
      assert s == [s[0]] + s[1..];
      EncodeTransparent(s[1..], c);
    }
  }
}
