/**
 * Printing a Set-Cookie value and parsing a Cookie header (sections 4.1.1 and 4.2.1 of RFC 6265). An expiry date is
 * represented by its UTC text.
 */
module Cookies {
  import opened Wrappers
  import opened Scanning

  // ── Characters ──────────────────────────────────────────────────

  /** A character of a cookie name: an RFC 7230 token character. */
  predicate IsNameChar(c: char) {
    || 'A' <= c <= 'Z' || 'a' <= c <= 'z' || '0' <= c <= '9'
    || c == '!' || c == '#' || c == '$' || c == '%' || c == '&' || c == '\'' || c == '*' || c == '+'
    || c == '-' || c == '.' || c == '^' || c == '_' || c == '`' || c == '|' || c == '~'
  }

  predicate IsName(s: string) {
    s != [] && forall c :: c in s ==> IsNameChar(c)
  }

  /** RFC 6265 cookie-octet. */
  predicate IsOctet(c: char) {
    c == '\U{21}' || '\U{23}' <= c <= '\U{2B}' || '\U{2D}' <= c <= '\U{3A}' || '\U{3C}' <= c <= '\U{5B}' || '\U{5D}' <= c <= '\U{7E}'
  }

  predicate IsValue(s: string) {
    forall c :: c in s ==> IsOctet(c)
  }

  /** Printable ASCII without the semicolon: what Path and Domain may hold. */
  predicate IsAttributeValue(s: string) {
    forall c :: c in s ==> '\U{20}' <= c <= '\U{3A}' || '\U{3C}' <= c <= '\U{7E}'
  }

  // ── parseCookieHeader ───────────────────────────────────────────

  type Jar = map<string, string>

  datatype Cookie = Cookie(name: string, value: string)

  function Unquoted(value: string): string {
    if |value| >= 2 && value[0] == '"' && value[|value| - 1] == '"' then value[1..|value| - 1] else value
  }

  /** One pair of the header; None when it is skipped whatever the jar holds. */
  function ParsePair(pair: string): Option<Cookie> {
    var eq :- Find(pair, '=');
    var _ :- Need(eq > 0);
    var name := Trim(pair[..eq]);
    var _ :- Need(name != []);
    Some(Cookie(name, Unquoted(Trim(pair[eq + 1..]))))
  }

  function Put(jar: Jar, c: Option<Cookie>): Jar {
    if c.None? || c.value.name in jar then jar else jar[c.value.name := c.value.value]
  }

  function JarAfter(pairs: seq<string>, n: nat): Jar
    requires n <= |pairs|
  {
    if n == 0 then map[] else Put(JarAfter(pairs, n - 1), ParsePair(pairs[n - 1]))
  }

  function ParseHeader(header: Option<string>): Jar {
    if header.None? || header.value == [] then map[] else JarAfter(Split(header.value, ';'), |Split(header.value, ';')|)
  }

  method ParseCookieHeader(header: Option<string>) returns (jar: Jar)
    ensures jar == ParseHeader(header)
  {
    hide Trim, IsSpace, Split, Unquoted;
    jar := map[];
    if header.None? || |header.value| == 0 {
      return;
    }
    var pairs := Split(header.value, ';');
    var i := 0;
    while i < |pairs|
      invariant i <= |pairs| && jar == JarAfter(pairs, i)
    {
      var pair := pairs[i];
      i := i + 1;
      var eq := Find(pair, '=');
      if eq.None? || eq.value == 0 {
        continue;
      }
      var name := Trim(pair[..eq.value]);
      if |name| == 0 || name in jar {
        continue;
      }
      var value := Trim(pair[eq.value + 1..]);
      QuotesOff(value);
      if |value| >= 2 && value[0] == '"' && value[|value| - 1] == '"' {
        value := value[1..|value| - 1];
      }
      jar := jar[name := value];
    }
  }

  lemma QuotesOff(value: string)
    ensures Unquoted(value) == if |value| >= 2 && value[0] == '"' && value[|value| - 1] == '"' then value[1..|value| - 1] else value
  {
  }

  // ── A browser's header, and what is read back ───────────────────

  function PairText(c: Cookie): string {
    c.name + ['='] + c.value
  }

  function PairTexts(cookies: seq<Cookie>): (r: seq<string>)
    ensures |r| == |cookies| && forall i :: 0 <= i < |cookies| ==> r[i] == PairText(cookies[i])
  {
    if cookies == [] then [] else [PairText(cookies[0])] + PairTexts(cookies[1..])
  }

  const SEPARATOR: string := "; "

  /** The Cookie header of section 4.2.1: `name=value` pairs, joined by a semicolon and a space. */
  function HeaderText(cookies: seq<Cookie>): string {
    Join(PairTexts(cookies), SEPARATOR)
  }

  /** The pieces between the semicolons: every one but the first starts with the space of the separator. */
  function Spaced(parts: seq<string>, prefix: string): (r: seq<string>)
    ensures |r| == |parts|
    ensures forall i :: 0 <= i < |parts| ==> r[i] == if i == 0 then prefix + parts[0] else [' '] + parts[i]
  {
    if parts == [] then [] else [prefix + parts[0]] + Spaced(parts[1..], [' '])
  }

  lemma {:induction false} SplitSpaced(parts: seq<string>, prefix: string)
    requires parts != [] && ';' !in prefix && forall p :: p in parts ==> ';' !in p
    ensures Split(prefix + Join(parts, SEPARATOR), ';') == Spaced(parts, prefix)
  {
    assert parts[0] in parts;
    if |parts| == 1 {
      assert Spaced(parts, prefix) == [prefix + parts[0]];
    } else {
      var rest := [' '] + Join(parts[1..], SEPARATOR);
      assert prefix + Join(parts, SEPARATOR) == (prefix + parts[0]) + [';'] + rest;
      SplitFirst(prefix + parts[0], ';', rest);
      SplitSpaced(parts[1..], [' ']);
    }
  }

  lemma NameChars(c: char)
    requires IsNameChar(c)
    ensures c != '=' && c != ';' && c != ' ' && !IsSpace(c)
  {
  }

  lemma Octets(c: char)
    requires IsOctet(c)
    ensures c != ';' && c != '"' && !IsSpace(c)
  {
  }

  predicate Accepted(c: Cookie) {
    IsName(c.name) && IsValue(c.value)
  }

  /** The first equals sign of a pair is the one between name and value. */
  lemma CutAtEquals(prefix: string, name: string, value: string)
    requires '=' !in prefix && '=' !in name
    ensures var pair, at := prefix + PairText(Cookie(name, value)), |prefix| + |name|;
            at < |pair| && Find(pair, '=') == Some(at) && pair[..at] == prefix + name && pair[at + 1..] == value
  {
    var pair, at := prefix + PairText(Cookie(name, value)), |prefix| + |name|;
    assert pair == (prefix + name) + ['='] + value;
    FindIs(pair, '=', at);
  }

  predicate Solid(s: string) {
    forall x :: x in s ==> !IsSpace(x)
  }

  lemma AcceptedChars(c: Cookie)
    requires Accepted(c)
    ensures |c.name| > 0 && '=' !in c.name && Solid(c.name) && '"' !in c.value && Solid(c.value)
  {
    hide IsNameChar, IsOctet, IsSpace;
    forall x | x in c.name ensures x != '=' && !IsSpace(x) {
      NameChars(x);
    }
    forall x | x in c.value ensures x != '"' && !IsSpace(x) {
      Octets(x);
    }
  }

  lemma NothingToTrim(s: string, prefix: string)
    requires Solid(s) && (prefix == [] || prefix == [' '])
    ensures Trim(prefix + s) == s && Trim(s) == s
  {
    hide IsSpace, Trim;
    TrimTrimmed(s);
    assert [] + s == s;
  }

  lemma ParsedPair(pair: string, at: nat, c: Cookie)
    requires at < |pair| && Find(pair, '=') == Some(at) && |c.name| > 0 && '"' !in c.value
    requires Trim(pair[..at]) == c.name && Trim(pair[at + 1..]) == c.value && at > 0
    ensures ParsePair(pair) == Some(c)
  {
    hide Find, Trim;
    assert c.value != [] ==> c.value[0] in c.value;
  }

  lemma PrefixedReadBack(c: Cookie, prefix: string)
    requires |c.name| > 0 && '=' !in c.name && Solid(c.name) && '"' !in c.value && Solid(c.value)
    requires prefix == [] || prefix == [' ']
    ensures ParsePair(prefix + PairText(c)) == Some(c)
  {
    hide *;
    CutAtEquals(prefix, c.name, c.value);
    NothingToTrim(c.name, prefix);
    NothingToTrim(c.value, prefix);
    assert c == Cookie(c.name, c.value);
    ParsedPair(prefix + PairText(c), |prefix| + |c.name|, c);
  }

  /** A pair is read back as it was, with the separator's space in front of it or not. */
  lemma PairReadBack(c: Cookie, spaced: bool)
    requires Accepted(c)
    ensures ParsePair((if spaced then [' '] else []) + PairText(c)) == Some(c)
  {
    AcceptedChars(c);
    hide *;
    PrefixedReadBack(c, if spaced then [' '] else []);
  }

  /** The jar a list of cookies stands for: of cookies with the same name, the first. */
  function JarOf(cookies: seq<Cookie>, n: nat): Jar
    requires n <= |cookies|
  {
    if n == 0 then map[] else Put(JarOf(cookies, n - 1), Some(cookies[n - 1]))
  }

  predicate IsFirst(cookies: seq<Cookie>, i: nat) {
    i < |cookies| && forall j :: 0 <= j < i ==> cookies[j].name != cookies[i].name
  }

  predicate NamedWithin(cookies: seq<Cookie>, n: nat, name: string) {
    exists i :: 0 <= i < n && i < |cookies| && cookies[i].name == name
  }

  lemma NamedOneMore(cookies: seq<Cookie>, n: nat, name: string)
    requires 0 < n <= |cookies|
    ensures NamedWithin(cookies, n, name) <==> NamedWithin(cookies, n - 1, name) || cookies[n - 1].name == name
  {
  }

  lemma NamesOfJar(cookies: seq<Cookie>, n: nat, jar: Jar)
    requires 0 < n <= |cookies| && forall name :: name in jar <==> NamedWithin(cookies, n - 1, name)
    ensures forall name :: name in Put(jar, Some(cookies[n - 1])) <==> NamedWithin(cookies, n, name)
  {
    forall name ensures NamedWithin(cookies, n, name) <==> NamedWithin(cookies, n - 1, name) || cookies[n - 1].name == name {
      NamedOneMore(cookies, n, name);
    }
    hide NamedWithin;
  }

  predicate HoldsFirst(cookies: seq<Cookie>, jar: Jar, i: nat)
    requires i < |cookies|
  {
    IsFirst(cookies, i) ==> cookies[i].name in jar && jar[cookies[i].name] == cookies[i].value
  }

  lemma {:induction false} FirstWins(cookies: seq<Cookie>, n: nat)
    requires n <= |cookies|
    ensures forall name :: name in JarOf(cookies, n) <==> NamedWithin(cookies, n, name)
    ensures forall i :: 0 <= i < n ==> HoldsFirst(cookies, JarOf(cookies, n), i)
  {
    if n > 0 {
      FirstWins(cookies, n - 1);
      var jar := JarOf(cookies, n - 1);
      NamesOfJar(cookies, n, jar);
      NewestIsNamed(cookies, n - 1, jar);
      hide NamedWithin, IsFirst;
      assert JarOf(cookies, n) == Put(jar, Some(cookies[n - 1]));
      forall i | 0 <= i < n ensures HoldsFirst(cookies, JarOf(cookies, n), i) {
        assert i < n - 1 ==> HoldsFirst(cookies, jar, i);
      }
    }
  }

  /** The next cookie is the first of its name exactly if the jar has no such name. */
  lemma NewestIsNamed(cookies: seq<Cookie>, n: nat, jar: Jar)
    requires n < |cookies| && forall name :: name in jar <==> NamedWithin(cookies, n, name)
    ensures IsFirst(cookies, n) ==> cookies[n].name !in jar
  {
  }

  lemma {:induction false} PairsReadBack(cookies: seq<Cookie>, pieces: seq<string>, n: nat)
    requires n <= |cookies| == |pieces| && pieces == Spaced(PairTexts(cookies), []) && forall c :: c in cookies ==> Accepted(c)
    ensures JarAfter(pieces, n) == JarOf(cookies, n)
  {
    hide Accepted, ParsePair, PairText;
    if n > 0 {
      PairsReadBack(cookies, pieces, n - 1);
      assert cookies[n - 1] in cookies;
      PairReadBack(cookies[n - 1], n > 1);
    }
  }

  lemma PairHasNoSemicolon(c: Cookie)
    requires Accepted(c)
    ensures ';' !in PairText(c)
  {
    hide IsNameChar, IsOctet;
    forall x | x in PairText(c) ensures x != ';' {
      if x in c.name {
        NameChars(x);
      } else if x in c.value {
        Octets(x);
      }
    }
  }

  /**
   * Accepted cookies survive the trip: the header made of them parses to a jar that holds exactly their names, each
   * with the value of its first occurrence.
   */
  lemma HeaderReadBack(cookies: seq<Cookie>)
    requires cookies != [] && forall c :: c in cookies ==> Accepted(c)
    ensures var jar := ParseHeader(Some(HeaderText(cookies)));
            && (forall name :: name in jar <==> NamedWithin(cookies, |cookies|, name))
            && (forall i :: 0 <= i < |cookies| && IsFirst(cookies, i) ==> cookies[i].name in jar && jar[cookies[i].name] == cookies[i].value)
  {
    hide *;
    var parts := PairTexts(cookies);
    assert parts != [];
    forall p | p in parts ensures ';' !in p {
      var i :| 0 <= i < |parts| && parts[i] == p;
      assert cookies[i] in cookies;
      PairHasNoSemicolon(cookies[i]);
    }
    SplitSpaced(parts, []);
    PairsReadBack(cookies, Spaced(parts, []), |cookies|);
    FirstWins(cookies, |cookies|);
    HeaderSplits(cookies);
    var jar := ParseHeader(Some(HeaderText(cookies)));
    forall i | 0 <= i < |cookies| && IsFirst(cookies, i) ensures cookies[i].name in jar && jar[cookies[i].name] == cookies[i].value {
      assert HoldsFirst(cookies, jar, i);
      HoldsMeans(cookies, jar, i);
    }
  }

  lemma HoldsMeans(cookies: seq<Cookie>, jar: Jar, i: nat)
    requires i < |cookies| && HoldsFirst(cookies, jar, i) && IsFirst(cookies, i)
    ensures cookies[i].name in jar && jar[cookies[i].name] == cookies[i].value
  {
  }

  lemma HeaderSplits(cookies: seq<Cookie>)
    requires cookies != []
    ensures var pieces := Split([] + Join(PairTexts(cookies), SEPARATOR), ';');
            ParseHeader(Some(HeaderText(cookies))) == JarAfter(pieces, |pieces|)
  {
    hide JarAfter, Split;
    NotEmpty(cookies);
    assert [] + HeaderText(cookies) == HeaderText(cookies);
  }

  lemma NotEmpty(cookies: seq<Cookie>)
    requires cookies != []
    ensures HeaderText(cookies) != []
  {
    assert |PairText(cookies[0])| > 0;
  }

  // ── serializeSetCookie ──────────────────────────────────────────

  datatype SameSite = Strict | Lax | NoRestriction

  datatype SetCookie = SetCookie(
    cookie: Cookie,
    httpOnly: bool,
    secure: bool,
    sameSite: Option<SameSite>,
    path: Option<string>,
    domain: Option<string>,
    maxAgeSeconds: Option<int>,
    expires: Option<string>)

  const HOST_PREFIX: string := "__Host-"

  function SameSiteText(s: SameSite): string {
    match s case Strict => "Strict" case Lax => "Lax" case NoRestriction => "None"
  }

  function NatText(n: nat): (r: string)
    ensures forall c :: c in r ==> '0' <= c <= '9'
  {
    var digit := [('0' as int + n % 10) as char];
    if n < 10 then digit else NatText(n / 10) + digit
  }

  predicate HostRulesKept(c: SetCookie) {
    HOST_PREFIX <= c.cookie.name ==> c.secure && c.path == Some("/") && c.domain.None?
  }

  /** Everything the serializer checks. */
  predicate Emittable(c: SetCookie) {
    && Accepted(c.cookie) && HostRulesKept(c)
    && (c.sameSite == Some(NoRestriction) ==> c.secure)
    && (c.path.Some? ==> IsAttributeValue(c.path.value)) && (c.domain.Some? ==> IsAttributeValue(c.domain.value))
    && (c.maxAgeSeconds.Some? ==> c.maxAgeSeconds.value >= 0)
  }

  predicate Clean(parts: seq<string>) {
    parts != [] && forall p :: p in parts ==> ';' !in p
  }

  function Push(parts: seq<string>, more: bool, part: string): (r: seq<string>)
    ensures Clean(parts) && (more ==> ';' !in part) ==> Clean(r)
  {
    if more then parts + [part] else parts
  }

  const PATH: string := "Path="
  const DOMAIN: string := "Domain="
  const MAX_AGE: string := "Max-Age="
  const EXPIRES: string := "Expires="
  const SAME_SITE: string := "SameSite="
  const SECURE: string := "Secure"
  const HTTP_ONLY: string := "HttpOnly"

  function Parts(c: SetCookie): seq<string>
    requires c.maxAgeSeconds.Some? ==> c.maxAgeSeconds.value >= 0
  {
    var parts := [PairText(c.cookie)];
    var parts := Push(parts, c.path.Some?, PATH + Or(c.path));
    var parts := Push(parts, c.domain.Some?, DOMAIN + Or(c.domain));
    var parts := Push(parts, c.maxAgeSeconds.Some?, MAX_AGE + if c.maxAgeSeconds.Some? then NatText(c.maxAgeSeconds.value) else "");
    var parts := Push(parts, c.expires.Some?, EXPIRES + Or(c.expires));
    var parts := Push(parts, c.sameSite.Some?, SAME_SITE + if c.sameSite.Some? then SameSiteText(c.sameSite.value) else "");
    var parts := Push(parts, c.secure, SECURE);
    Push(parts, c.httpOnly, HTTP_ONLY)
  }

  function Or(text: Option<string>): string {
    if text.Some? then text.value else ""
  }

  /** None stands for the Error. */
  method SerializeSetCookie(c: SetCookie) returns (r: Option<string>)
    ensures r.Some? <==> Emittable(c)
    ensures r.Some? ==> r.value == Join(Parts(c), SEPARATOR)
  {
    hide PATH, DOMAIN, MAX_AGE, EXPIRES, SAME_SITE, SECURE, HTTP_ONLY, SEPARATOR, HOST_PREFIX, SameSiteText, PairText, NatText,
         IsName, IsValue, IsAttributeValue, Clean, Join;
    if !IsName(c.cookie.name) || !IsValue(c.cookie.value) {
      return None;
    }
    if HOST_PREFIX <= c.cookie.name {
      if !c.secure || c.path != Some("/") || c.domain.Some? {
        return None;
      }
    }
    if c.sameSite == Some(NoRestriction) && !c.secure {
      return None;
    }
    var parts := [PairText(c.cookie)];
    if c.path.Some? {
      if !IsAttributeValue(c.path.value) {
        return None;
      }
      parts := parts + [PATH + c.path.value];
    }
    if c.domain.Some? {
      if !IsAttributeValue(c.domain.value) {
        return None;
      }
      parts := parts + [DOMAIN + c.domain.value];
    }
    if c.maxAgeSeconds.Some? {
      if c.maxAgeSeconds.value < 0 {
        return None;
      }
      parts := parts + [MAX_AGE + NatText(c.maxAgeSeconds.value)];
    }
    if c.expires.Some? {
      parts := parts + [EXPIRES + c.expires.value];
    }
    if c.sameSite.Some? {
      parts := parts + [SAME_SITE + SameSiteText(c.sameSite.value)];
    }
    if c.secure {
      parts := parts + [SECURE];
    }
    if c.httpOnly {
      parts := parts + [HTTP_ONLY];
    }
    return Some(Join(parts, SEPARATOR));
  }

  lemma LabelsHaveNoSemicolon()
    ensures ';' !in PATH && ';' !in DOMAIN && ';' !in MAX_AGE && ';' !in EXPIRES && ';' !in SAME_SITE && ';' !in SECURE
    ensures ';' !in HTTP_ONLY
    ensures forall s :: ';' !in SameSiteText(s)
  {
  }

  lemma AttributesHaveNoSemicolon(s: string)
    requires IsAttributeValue(s)
    ensures ';' !in s
  {
  }

  /**
   * No value smuggles an attribute: cut at its semicolons, the emitted text is the name and value followed by exactly
   * the attributes that were asked for.
   */
  lemma NothingSmuggled(c: SetCookie)
    requires Emittable(c) && (c.expires.Some? ==> ';' !in c.expires.value)
    ensures Split(Join(Parts(c), SEPARATOR), ';') == Spaced(Parts(c), [])
  {
    LabelsHaveNoSemicolon();
    PairHasNoSemicolon(c.cookie);
    if c.path.Some? {
      AttributesHaveNoSemicolon(c.path.value);
    }
    if c.domain.Some? {
      AttributesHaveNoSemicolon(c.domain.value);
    }
    hide *;
    PartsHaveNoSemicolon(c);
    assert Parts(c) != [] && forall p :: p in Parts(c) ==> ';' !in p by { CleanMeans(Parts(c)); }
    var text := Join(Parts(c), SEPARATOR);
    assert [] + text == text;
    SplitSpaced(Parts(c), []);
  }

  lemma CleanMeans(parts: seq<string>)
    requires Clean(parts)
    ensures parts != [] && forall p :: p in parts ==> ';' !in p
  {
  }

  lemma PartsHaveNoSemicolon(c: SetCookie)
    requires c.maxAgeSeconds.Some? ==> c.maxAgeSeconds.value >= 0
    requires ';' !in PATH && ';' !in DOMAIN && ';' !in MAX_AGE && ';' !in EXPIRES && ';' !in SAME_SITE && ';' !in SECURE
    requires ';' !in HTTP_ONLY
    requires forall s :: ';' !in SameSiteText(s)
    requires ';' !in PairText(c.cookie) && (c.path.Some? ==> ';' !in c.path.value)
    requires (c.domain.Some? ==> ';' !in c.domain.value)
    requires c.expires.Some? ==> ';' !in c.expires.value
    ensures Clean(Parts(c))
  {
    assert Clean([PairText(c.cookie)]);
    hide PATH, DOMAIN, MAX_AGE, EXPIRES, SAME_SITE, SECURE, HTTP_ONLY, SameSiteText, PairText, NatText, Clean, Push;
  }

  predicate StartsWith(p: string, c: char) {
    p != [] && p[0] == c
  }

  lemma LabelsStart()
    ensures StartsWith(PATH, 'P') && StartsWith(DOMAIN, 'D') && StartsWith(MAX_AGE, 'M') && StartsWith(EXPIRES, 'E')
    ensures StartsWith(SAME_SITE, 'S') && StartsWith(SECURE, 'S') && StartsWith(HTTP_ONLY, 'H')
  {
  }

  /** A __Host- cookie is only ever emitted Secure, with Path=/ and without a Domain. */
  lemma HostCookiesLocked(c: SetCookie)
    requires Emittable(c) && HOST_PREFIX <= c.cookie.name
    ensures SECURE in Parts(c) && (PATH + "/") in Parts(c)
    ensures forall p :: p in Parts(c) && p != PairText(c.cookie) ==> !(DOMAIN <= p)
  {
    LabelsStart();
    assert HostRulesKept(c);
    hide PATH, DOMAIN, MAX_AGE, EXPIRES, SAME_SITE, SECURE, HTTP_ONLY, SameSiteText, PairText, NatText, Accepted,
         IsAttributeValue, HOST_PREFIX;
    forall p | p in Parts(c) && p != PairText(c.cookie) ensures !(DOMAIN <= p) {
      assert StartsWith(p, 'P') || StartsWith(p, 'M') || StartsWith(p, 'E') || StartsWith(p, 'S') || StartsWith(p, 'H');
    }
  }
}
