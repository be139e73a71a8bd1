/**
 * What is sent and what is read, letter by letter: the text of a Set-Cookie value and which cookies have one, and what
 * any Cookie header puts into the jar.
 */
module CookieText {
  import opened Wrappers
  import opened Scanning
  import opened Cookies

  // ── Characters ──────────────────────────────────────────────────

  /** Tokens are printable characters without the delimiters; octets are printable without `"`, `,`, `;` and `\`. */
  lemma CookieChars(c: char)
    ensures IsNameChar(c) <==> '!' <= c <= '~' && c !in "(),/:;<=>?@[\\]{}\""
    ensures IsOctet(c) <==> '!' <= c <= '~' && c !in "\",;\\"
  {
    var delimiters := "(),/:;<=>?@[\\]{}\"";
    assert delimiters == ['(', ')', ',', '/', ':', ';', '<', '=', '>', '?', '@', '[', '\\', ']', '{', '}', '"'];
    assert "\",;\\" == ['"', ',', ';', '\\'];
  }

  lemma NameLetters(s: string)
    ensures IsName(s) <==> s != "" && forall c :: c in s ==> '!' <= c <= '~' && c !in "(),/:;<=>?@[\\]{}\""
  {
    hide IsNameChar;
    forall c ensures IsNameChar(c) <==> '!' <= c <= '~' && c !in "(),/:;<=>?@[\\]{}\"" {
      CookieChars(c);
    }
  }

  lemma ValueLetters(s: string)
    ensures IsValue(s) <==> forall c :: c in s ==> '!' <= c <= '~' && c !in "\",;\\"
    ensures IsAttributeValue(s) <==> forall c :: c in s ==> ' ' <= c <= '~' && c != ';'
  {
    hide IsOctet;
    forall c ensures IsOctet(c) <==> '!' <= c <= '~' && c !in "\",;\\" {
      CookieChars(c);
    }
  }

  // ── Max-Age ─────────────────────────────────────────────────────

  function Decimal(digits: string): int {
    if digits == [] then 0 else 10 * Decimal(digits[..|digits| - 1]) + (digits[|digits| - 1] as int - '0' as int)
  }

  /** A number is written in decimal digits that read back as it, without leading zeros. */
  lemma {:induction false} NumberReadBack(n: nat)
    ensures var text := NatText(n);
            && text != "" && (forall c :: c in text ==> '0' <= c <= '9')
            && Decimal(text) == n && (text[0] == '0' ==> text == "0")
  {
    var text := NatText(n);
    if n < 10 {
      assert text[..0] == [];
    } else {
      NumberReadBack(n / 10);
      assert text[..|text| - 1] == NatText(n / 10);
    }
  }

  // ── The text ────────────────────────────────────────────────────

  function When(condition: bool, lead: string, value: string): string {
    if condition then lead + value else ""
  }

  lemma {:induction false} JoinSnoc(parts: seq<string>, part: string)
    requires parts != []
    ensures Join(parts + [part], SEPARATOR) == Join(parts, SEPARATOR) + (SEPARATOR + part)
  {
    if |parts| > 1 {
      assert (parts + [part])[1..] == parts[1..] + [part];
      JoinSnoc(parts[1..], part);
    } else {
      assert (parts + [part])[1..] == [part];
    }
  }

  lemma Pushed(parts: seq<string>, more: bool, lead: string, value: string)
    requires parts != []
    ensures Push(parts, more, lead + value) != []
    ensures Join(Push(parts, more, lead + value), SEPARATOR) == Join(parts, SEPARATOR) + When(more, SEPARATOR + lead, value)
  {
    hide Join, SEPARATOR;
    if more {
      JoinSnoc(parts, lead + value);
      assert SEPARATOR + (lead + value) == (SEPARATOR + lead) + value;
    } else {
      assert Join(parts, SEPARATOR) + "" == Join(parts, SEPARATOR);
    }
  }

  function AgeText(c: SetCookie): string {
    if c.maxAgeSeconds.Some? && c.maxAgeSeconds.value >= 0 then NatText(c.maxAgeSeconds.value) else ""
  }

  function SiteText(c: SetCookie): string {
    if c.sameSite.Some? then SameSiteText(c.sameSite.value) else ""
  }

  /** The first parts, up to the expiry date, and the others. */
  function FirstParts(c: SetCookie): seq<string> {
    var parts := [PairText(c.cookie)];
    var parts := Push(parts, c.path.Some?, PATH + Or(c.path));
    var parts := Push(parts, c.domain.Some?, DOMAIN + Or(c.domain));
    Push(parts, c.maxAgeSeconds.Some?, MAX_AGE + AgeText(c))
  }

  function LastParts(parts: seq<string>, c: SetCookie): seq<string> {
    var parts := Push(parts, c.expires.Some?, EXPIRES + Or(c.expires));
    var parts := Push(parts, c.sameSite.Some?, SAME_SITE + SiteText(c));
    var parts := Push(parts, c.secure, SECURE + "");
    Push(parts, c.httpOnly, HTTP_ONLY + "")
  }

  lemma PartsInTwo(c: SetCookie)
    requires Emittable(c)
    ensures Parts(c) == LastParts(FirstParts(c), c)
  {
    assert SECURE + "" == SECURE && HTTP_ONLY + "" == HTTP_ONLY;
    hide Push, PATH, DOMAIN, MAX_AGE, EXPIRES, SAME_SITE, SECURE, HTTP_ONLY, NatText, SameSiteText, PairText, Accepted,
         IsAttributeValue, HostRulesKept;
  }

  lemma FirstJoined(c: SetCookie)
    ensures FirstParts(c) != []
    ensures Join(FirstParts(c), SEPARATOR)
         == PairText(c.cookie) + When(c.path.Some?, SEPARATOR + PATH, Or(c.path)) + When(c.domain.Some?, SEPARATOR + DOMAIN, Or(c.domain))
            + When(c.maxAgeSeconds.Some?, SEPARATOR + MAX_AGE, AgeText(c))
  {
    hide PATH, DOMAIN, MAX_AGE, SEPARATOR, AgeText, PairText, Push, When, Or;
    var parts := [PairText(c.cookie)];
    assert Join(parts, SEPARATOR) == PairText(c.cookie);
    Pushed(parts, c.path.Some?, PATH, Or(c.path));
    parts := Push(parts, c.path.Some?, PATH + Or(c.path));
    Pushed(parts, c.domain.Some?, DOMAIN, Or(c.domain));
    parts := Push(parts, c.domain.Some?, DOMAIN + Or(c.domain));
    Pushed(parts, c.maxAgeSeconds.Some?, MAX_AGE, AgeText(c));
  }

  lemma LastJoined(parts: seq<string>, c: SetCookie)
    requires parts != []
    ensures Join(LastParts(parts, c), SEPARATOR)
         == Join(parts, SEPARATOR) + When(c.expires.Some?, SEPARATOR + EXPIRES, Or(c.expires))
            + When(c.sameSite.Some?, SEPARATOR + SAME_SITE, SiteText(c)) + When(c.secure, SEPARATOR + SECURE, "")
            + When(c.httpOnly, SEPARATOR + HTTP_ONLY, "")
  {
    hide EXPIRES, SAME_SITE, SECURE, HTTP_ONLY, SEPARATOR, SiteText, Push, When, Join, Or;
    Pushed(parts, c.expires.Some?, EXPIRES, Or(c.expires));
    var dated := Push(parts, c.expires.Some?, EXPIRES + Or(c.expires));
    Pushed(dated, c.sameSite.Some?, SAME_SITE, SiteText(c));
    var sited := Push(dated, c.sameSite.Some?, SAME_SITE + SiteText(c));
    Pushed(sited, c.secure, SECURE, "");
    Pushed(Push(sited, c.secure, SECURE + ""), c.httpOnly, HTTP_ONLY, "");
  }

  lemma Labels()
    ensures SEPARATOR + PATH == "; Path=" && SEPARATOR + DOMAIN == "; Domain=" && SEPARATOR + MAX_AGE == "; Max-Age="
    ensures SEPARATOR + EXPIRES == "; Expires=" && SEPARATOR + SAME_SITE == "; SameSite="
    ensures SEPARATOR + SECURE == "; Secure" && SEPARATOR + HTTP_ONLY == "; HttpOnly"
    ensures SameSiteText(Strict) == "Strict" && SameSiteText(Lax) == "Lax" && SameSiteText(NoRestriction) == "None"
  {
  }

  /** The emitted text: name and value, then each attribute that was asked for, in this order. */
  lemma TextOfCookie(c: SetCookie)
    requires Emittable(c)
    ensures Join(Parts(c), SEPARATOR)
         == c.cookie.name + ['='] + c.cookie.value
            + When(c.path.Some?, "; Path=", Or(c.path))
            + When(c.domain.Some?, "; Domain=", Or(c.domain))
            + When(c.maxAgeSeconds.Some?, "; Max-Age=", AgeText(c))
            + When(c.expires.Some?, "; Expires=", Or(c.expires))
            + When(c.sameSite.Some?, "; SameSite=", SiteText(c))
            + When(c.secure, "; Secure", "") + When(c.httpOnly, "; HttpOnly", "")
    ensures c.sameSite.Some? ==> SiteText(c) == match c.sameSite.value case Strict => "Strict" case Lax => "Lax" case NoRestriction => "None"
    ensures c.maxAgeSeconds.Some? ==>
              AgeText(c) != "" && Decimal(AgeText(c)) == c.maxAgeSeconds.value && (AgeText(c)[0] == '0' ==> AgeText(c) == "0")
  {
    assert PairText(c.cookie) == c.cookie.name + ['='] + c.cookie.value;
    hide *;
    Labels();
    AttributesRead(c);
    PartsInTwo(c);
    FirstJoined(c);
    LastJoined(FirstParts(c), c);
  }

  lemma AttributesRead(c: SetCookie)
    requires c.maxAgeSeconds.Some? ==> c.maxAgeSeconds.value >= 0
    ensures c.sameSite.Some? ==> SiteText(c) == match c.sameSite.value case Strict => "Strict" case Lax => "Lax" case NoRestriction => "None"
    ensures c.maxAgeSeconds.Some? ==>
              AgeText(c) != "" && Decimal(AgeText(c)) == c.maxAgeSeconds.value && (AgeText(c)[0] == '0' ==> AgeText(c) == "0")
  {
    Labels();
    if c.maxAgeSeconds.Some? {
      NumberReadBack(c.maxAgeSeconds.value);
    }
    hide Decimal, NatText, SameSiteText;
  }

  /** Exactly these cookies are emitted; every other one is refused. */
  lemma EmittedExactly(c: SetCookie)
    ensures Emittable(c) <==>
              && c.cookie.name != "" && (forall x :: x in c.cookie.name ==> '!' <= x <= '~' && x !in "(),/:;<=>?@[\\]{}\"")
              && (forall x :: x in c.cookie.value ==> '!' <= x <= '~' && x !in "\",;\\")
              && ("__Host-" <= c.cookie.name ==> c.secure && c.path == Some("/") && c.domain == None)
              && (c.sameSite == Some(NoRestriction) ==> c.secure)
              && (c.path.Some? ==> forall x :: x in c.path.value ==> ' ' <= x <= '~' && x != ';')
              && (c.domain.Some? ==> forall x :: x in c.domain.value ==> ' ' <= x <= '~' && x != ';')
              && (c.maxAgeSeconds.Some? ==> c.maxAgeSeconds.value >= 0)
  {
    NameLetters(c.cookie.name);
    ValueLetters(c.cookie.value);
    ValueLetters(Or(c.path));
    ValueLetters(Or(c.domain));
    hide IsName, IsValue, IsAttributeValue;
  }

  // ── The jar ─────────────────────────────────────────────────────

  /** A value in quotation marks stands for what is between them; any other for itself. */
  predicate StandsFor(text: string, value: string) {
    if |text| >= 2 && text[0] == '"' == text[|text| - 1] then text == "\"" + value + "\"" else text == value
  }

  /** The piece of a header names a cookie and gives it a value: cut at its first equals sign, both sides trimmed. */
  ghost predicate Gives(piece: string, name: string, value: string) {
    exists eq :: 0 < eq < |piece| && piece[eq] == '=' && '=' !in piece[..eq]
                 && Trim(piece[..eq]) == name && name != "" && StandsFor(Trim(piece[eq + 1..]), value)
  }

  lemma QuotesMean(text: string, value: string)
    ensures StandsFor(text, value) <==> Unquoted(text) == value
  {
    if |text| >= 2 && text[0] == '"' == text[|text| - 1] {
      assert text == "\"" + text[1..|text| - 1] + "\"";
      if text == "\"" + value + "\"" {
        assert ("\"" + value + "\"")[1..|text| - 1] == value;
      }
    }
  }

  lemma GivenIsParsed(piece: string, eq: nat, name: string, value: string)
    requires 0 < eq < |piece| && piece[eq] == '=' && '=' !in piece[..eq]
    requires Trim(piece[..eq]) == name && name != "" && StandsFor(Trim(piece[eq + 1..]), value)
    ensures ParsePair(piece) == Some(Cookie(name, value))
  {
    hide Trim, StandsFor, Unquoted, Find;
    assert forall i :: 0 <= i < eq ==> piece[i] == piece[..eq][i];
    FindIs(piece, '=', eq);
    QuotesMean(Trim(piece[eq + 1..]), value);
  }

  lemma ParsedIsGiven(piece: string, name: string, value: string)
    requires ParsePair(piece) == Some(Cookie(name, value))
    ensures Gives(piece, name, value)
  {
    hide Trim, StandsFor, Unquoted;
    var eq := Find(piece, '=').value;
    assert forall i :: 0 <= i < eq ==> piece[i] == piece[..eq][i];
    hide Find;
    QuotesMean(Trim(piece[eq + 1..]), value);
  }

  lemma GivesMeans(piece: string, name: string, value: string)
    ensures Gives(piece, name, value) <==> ParsePair(piece) == Some(Cookie(name, value))
  {
    hide Trim, StandsFor, ParsePair;
    if Gives(piece, name, value) {
      var eq :| 0 < eq < |piece| && piece[eq] == '=' && '=' !in piece[..eq]
                && Trim(piece[..eq]) == name && name != "" && StandsFor(Trim(piece[eq + 1..]), value);
      GivenIsParsed(piece, eq, name, value);
    }
    if ParsePair(piece) == Some(Cookie(name, value)) {
      ParsedIsGiven(piece, name, value);
    }
  }

  ghost predicate FirstToGive(pieces: seq<string>, i: nat, name: string, value: string) {
    i < |pieces| && Gives(pieces[i], name, value) && forall j, v :: 0 <= j < i ==> !Gives(pieces[j], name, v)
  }

  /** What the first `n` pieces have put into the jar. */
  ghost predicate Filled(pieces: seq<string>, n: nat, jar: Jar) {
    && (forall name :: name in jar ==> exists i :: 0 <= i < n && FirstToGive(pieces, i, name, jar[name]))
    && (forall i, name, value :: 0 <= i < n <= |pieces| && Gives(pieces[i], name, value) ==> name in jar)
  }

  lemma NextFilled(pieces: seq<string>, n: nat, jar: Jar, next: Jar)
    requires n < |pieces| && Filled(pieces, n, jar) && next == Put(jar, ParsePair(pieces[n]))
    ensures Filled(pieces, n + 1, next)
  {
    hide Gives, ParsePair;
    forall name, value ensures Gives(pieces[n], name, value) <==> ParsePair(pieces[n]) == Some(Cookie(name, value)) {
      GivesMeans(pieces[n], name, value);
    }
    forall name | name in next ensures exists i :: 0 <= i < n + 1 && FirstToGive(pieces, i, name, next[name]) {
      if name in jar {
        var i :| 0 <= i < n && FirstToGive(pieces, i, name, jar[name]);
        assert FirstToGive(pieces, i, name, next[name]);
      } else {
        assert forall j, v :: 0 <= j < n && Gives(pieces[j], name, v) ==> name in jar;
        assert Gives(pieces[n], name, next[name]);
        assert FirstToGive(pieces, n, name, next[name]);
      }
    }
    forall i, name, value | 0 <= i < n + 1 <= |pieces| && Gives(pieces[i], name, value) ensures name in next {
      if i == n {
        assert ParsePair(pieces[n]) == Some(Cookie(name, value));
      } else {
        assert name in jar;
      }
    }
  }

  lemma {:induction false} PiecesFill(pieces: seq<string>, n: nat)
    requires n <= |pieces|
    ensures Filled(pieces, n, JarAfter(pieces, n))
  {
    hide Filled, ParsePair, Put;
    if n == 0 {
      NothingFilled(pieces);
    } else {
      PiecesFill(pieces, n - 1);
      NextFilled(pieces, n - 1, JarAfter(pieces, n - 1), JarAfter(pieces, n));
    }
  }

  lemma NothingFilled(pieces: seq<string>)
    ensures Filled(pieces, 0, map[])
  {
  }

  lemma FilledAll(pieces: seq<string>, jar: Jar)
    requires Filled(pieces, |pieces|, jar)
    ensures forall name :: name in jar <==> exists i, value :: 0 <= i < |pieces| && Gives(pieces[i], name, value)
    ensures forall name :: name in jar ==> exists i :: 0 <= i < |pieces| && FirstToGive(pieces, i, name, jar[name])
  {
    hide Gives;
    forall name | name in jar ensures exists i, value :: 0 <= i < |pieces| && Gives(pieces[i], name, value) {
      var i :| 0 <= i < |pieces| && FirstToGive(pieces, i, name, jar[name]);
      assert Gives(pieces[i], name, jar[name]);
    }
  }

  /**
   * The jar of any header holds exactly the names that some piece between its semicolons gives, each with the value of
   * the first piece that gives it; no other piece counts.
   */
  lemma JarIsFirstGiven(header: string)
    ensures var jar, pieces := ParseHeader(Some(header)), Split(header, ';');
            && (forall name :: name in jar <==> exists i, value :: 0 <= i < |pieces| && Gives(pieces[i], name, value))
            && (forall name :: name in jar ==> exists i :: 0 <= i < |pieces| && FirstToGive(pieces, i, name, jar[name]))
  {
    hide *;
    var pieces := Split(header, ';');
    PiecesFill(pieces, |pieces|);
    FilledAll(pieces, JarAfter(pieces, |pieces|));
    JarOfPieces(header);
  }

  lemma JarOfPieces(header: string)
    ensures ParseHeader(Some(header)) == JarAfter(Split(header, ';'), |Split(header, ';')|)
  {
    if header == [] {
      assert Split("", ';') == [""] && Find("", '=').None?;
    }
    hide Split, ParsePair;
  }
}
