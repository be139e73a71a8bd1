/**
 * The boundary of a multipart body is taken from its content type letter for letter: bare or quoted, however the media
 * type and the parameter's name are written, and whatever other parameters stand around it.
 */
module MultipartBoundary {
  import opened Wrappers
  import opened Scanning
  import opened MultipartHeaders
  import opened MultipartNames

  predicate Spaces(s: string) {
    forall i :: 0 <= i < |s| ==> IsSpace(s[i])
  }

  /** Where a bare value ends. */
  predicate EndsValue(rest: string) {
    rest == [] || rest[0] == ';' || IsSpace(rest[0])
  }

  /** The word `boundary` does not stand in it, in any case. */
  ghost predicate NamesNoBoundary(head: string) {
    forall i: nat :: !Matches(ToLower(head), "boundary", i)
  }

  /** `; name = value`, with white space wherever it may stand. */
  function Parameter(pad: string, name: string, before: string, after: string, value: string): string {
    [';'] + (pad + (name + (before + (['='] + (after + value)))))
  }

  // ── The parameter before the boundary is no boundary ────────────

  lemma NothingNamed(head: string, rest: string)
    requires NamesNoBoundary(head) && (rest == [] || rest[0] == ';')
    ensures AfterParam(head + rest, BOUNDARY).None?
  {
    hide *;
    var t := TrimStart(head + rest);
    if NamedBy(t, BOUNDARY) {
      var k := |head + rest| - |t|;
      NamedAt(head + rest, t, k);
      if k + |BOUNDARY| <= |head| {
        WithinHead(head, rest, k);
      } else {
        AcrossHead(head, rest, k);
      }
    } else {
      NotNamed(head + rest);
    }
  }

  lemma NotNamed(s: string)
    requires !NamedBy(TrimStart(s), BOUNDARY)
    ensures AfterParam(s, BOUNDARY).None?
  {
  }

  lemma NamedAt(u: string, t: string, k: int)
    requires t == TrimStart(u) && k == |u| - |t| && NamedBy(t, BOUNDARY)
    ensures 0 <= k && k + |BOUNDARY| <= |u| && forall i :: 0 <= i < k ==> IsSpace(u[i])
    ensures forall i {:trigger BOUNDARY[i]} :: 0 <= i < |BOUNDARY| ==> Lower(u[k + i]) == BOUNDARY[i]
  {
    hide IsSpace, Lower, BOUNDARY;
    assert t == u[k..];
  }

  lemma WithinHead(head: string, rest: string, k: nat)
    requires k + |BOUNDARY| <= |head|
    requires forall i {:trigger BOUNDARY[i]} :: 0 <= i < |BOUNDARY| ==> Lower((head + rest)[k + i]) == BOUNDARY[i]
    ensures !NamesNoBoundary(head)
  {
    hide Lower, Matches;
    IsMatch(ToLower(head), BOUNDARY, k);
  }

  lemma IsMatch(s: string, pattern: string, at: nat)
    requires at + |pattern| <= |s| && forall j {:trigger pattern[j]} :: 0 <= j < |pattern| ==> s[at + j] == pattern[j]
    ensures Matches(s, pattern, at)
  {
  }

  lemma AcrossHead(head: string, rest: string, k: nat)
    requires (rest == [] || rest[0] == ';') && |head| < k + |BOUNDARY| <= |head + rest|
    requires forall i :: 0 <= i < k ==> IsSpace((head + rest)[i])
    ensures exists i :: 0 <= i < |BOUNDARY| && Lower((head + rest)[k + i]) != BOUNDARY[i]
  {
    hide BOUNDARY;
    var at := |head|;
    assert (head + rest)[at] == ';';
    assert !IsSpace(';');
    var i := at - k;
    NoSemicolon(i);
    assert Lower((head + rest)[k + i]) != BOUNDARY[i];
  }

  lemma NoSemicolon(i: nat)
    requires i < |BOUNDARY|
    ensures BOUNDARY[i] != ';'
  {
  }

  lemma NamesNoneLater(head: string)
    requires head != [] && NamesNoBoundary(head)
    ensures NamesNoBoundary(head[1..])
  {
    forall i: nat ensures !Matches(ToLower(head[1..]), "boundary", i) {
      assert ToLower(head)[1..] == ToLower(head[1..]);
      MatchesShifted(ToLower(head), 1, "boundary", i);
    }
  }

  lemma {:induction false} HeadIsSkipped(head: string, rest: string)
    requires NamesNoBoundary(head) && (rest == [] || rest[0] == ';')
    ensures BoundaryParam(head + rest) == BoundaryParam(rest)
  {
    hide NamesNoBoundary, AfterParam, BoundaryValue;
    if head == [] {
      assert head + rest == rest;
    } else {
      assert (head + rest)[1..] == head[1..] + rest;
      NamesNoneLater(head);
      NothingNamed(head[1..], rest);
      HeadIsSkipped(head[1..], rest);
    }
  }

  // ── The boundary parameter and its value ────────────────────────

  lemma {:induction false} TrimSpaces(pad: string, s: string)
    requires Spaces(pad) && (s == [] || !IsSpace(s[0]))
    ensures TrimStart(pad + s) == s
  {
    hide IsSpace;
    if pad == [] {
      assert pad + s == s;
    } else {
      assert (pad + s)[1..] == pad[1..] + s;
      TrimSpaces(pad[1..], s);
    }
  }

  lemma SpacesHaveNoCase(c: char)
    requires IsSpace(c)
    ensures Lower(c) == c
  {
  }

  lemma NameStarts(param: string, name: string, rest: string)
    requires IsParamName(param) && ToLower(name) == param
    ensures name != [] && !IsSpace(name[0]) && |name| == |param| && NamedBy(name + rest, param)
  {
    assert Lower(name[0]) == ToLower(name)[0] == param[0] && !IsSpace(param[0]);
    hide Lower, IsSpace, IsParamName;
    if IsSpace(name[0]) {
      SpacesHaveNoCase(name[0]);
    }
    forall i | 0 <= i < |param| ensures Lower((name + rest)[i]) == param[i] {
      assert Lower(name[i]) == ToLower(name)[i];
    }
  }

  /** A parameter is read past white space and the case of its name. */
  lemma ReadsNamed(param: string, pad: string, name: string, before: string, after: string, value: string)
    requires Spaces(pad) && Spaces(before) && Spaces(after) && IsParamName(param) && ToLower(name) == param
    requires value == [] || !IsSpace(value[0])
    ensures AfterParam(pad + (name + (before + (['='] + (after + value)))), param) == Some(value)
  {
    hide Spaces, TrimStart, Lower, NamedBy, IsParamName;
    assert !IsSpace('=');
    hide IsSpace;
    var sign := ['='] + (after + value);
    var t := name + (before + sign);
    NameStarts(param, name, before + sign);
    assert t[0] == name[0];
    TrimSpaces(pad, t);
    assert t[|param|..] == before + sign;
    TrimSpaces(before, sign);
    assert sign[1..] == after + value;
    TrimSpaces(after, value);
  }

  lemma ReadsParameter(pad: string, name: string, before: string, after: string, value: string)
    requires Spaces(pad) && Spaces(before) && Spaces(after) && ToLower(name) == BOUNDARY
    requires value != [] && !IsSpace(value[0])
    ensures AfterParam(Parameter(pad, name, before, after, value)[1..], BOUNDARY) == Some(value)
  {
    assert IsParamName(BOUNDARY);
    hide *;
    ReadsNamed(BOUNDARY, pad, name, before, after, value);
    BehindSemicolon(pad, name, before, after, value);
  }

  lemma BehindSemicolon(pad: string, name: string, before: string, after: string, value: string)
    ensures Parameter(pad, name, before, after, value)[1..] == pad + (name + (before + (['='] + (after + value))))
  {
  }

  lemma {:induction false} BareStops(b: string, rest: string)
    requires EndsValue(rest) && forall i :: 0 <= i < |b| ==> b[i] != ';' && !IsSpace(b[i])
    ensures Bare(b + rest) == b
  {
    if b == [] {
      assert b + rest == rest;
    } else {
      assert (b + rest)[1..] == b[1..] + rest;
      BareStops(b[1..], rest);
      assert [b[0]] + b[1..] == b;
    }
  }

  lemma BoundaryChars(b: string)
    requires IsBoundary(b)
    ensures forall i :: 0 <= i < |b| ==> b[i] != ';' && !IsSpace(b[i]) && b[i] != '"' && b[i] < 0x80 as char && b[i] != CR
  {
  }

  lemma BareBoundary(b: string, rest: string)
    requires IsBoundary(b) && EndsValue(rest)
    ensures BoundaryValue(b + rest) == Some(b)
  {
    BoundaryChars(b);
    hide IsBoundary;
    BareStops(b, rest);
    assert (b + rest)[0] == b[0];
  }

  lemma QuotedBoundary(b: string, rest: string)
    requires IsBoundary(b)
    ensures BoundaryValue(['"'] + (b + (['"'] + rest))) == Some(b)
  {
    BoundaryChars(b);
    var s := b + (['"'] + rest);
    assert (['"'] + s)[1..] == s;
    assert s[|b|] == '"';
    FindIs(s, '"', |b|);
    assert s[..|b|] == b;
  }

  lemma TakesParameter(head: string, pad: string, name: string, before: string, after: string, value: string, b: string)
    requires NamesNoBoundary(head) && Spaces(pad) && Spaces(before) && Spaces(after) && ToLower(name) == BOUNDARY
    requires value != [] && !IsSpace(value[0]) && BoundaryValue(value) == Some(b)
    ensures BoundaryParam(head + Parameter(pad, name, before, after, value)) == Some(b)
  {
    hide Spaces, AfterParam, BoundaryValue, NamesNoBoundary;
    var text := Parameter(pad, name, before, after, value);
    HeadIsSkipped(head, text);
    ReadsParameter(pad, name, before, after, value);
  }

  // ── The law ─────────────────────────────────────────────────────

  predicate IsMultipart(head: string) {
    StartsWith(ToLower(TrimStart(head)), "multipart/form-data")
  }

  lemma StillMultipart(head: string, rest: string)
    requires IsMultipart(head)
    ensures IsMultipart(head + rest)
  {
    hide IsSpace, Lower;
    var t := TrimStart(head);
    assert t != [] by {
      assert |ToLower(t)| == |t|;
    }
    var pad := head[..|head| - |t|];
    assert pad + (t + rest) == head + rest;
    assert (t + rest)[0] == t[0];
    TrimSpaces(pad, t + rest);
    assert ToLower(t + rest)[..|MULTIPART|] == ToLower(t)[..|MULTIPART|];
  }

  lemma BareIsRead(head: string, pad: string, name: string, before: string, after: string, b: string, rest: string)
    requires IsMultipart(head) && NamesNoBoundary(head)
    requires Spaces(pad) && Spaces(before) && Spaces(after) && ToLower(name) == BOUNDARY && IsBoundary(b)
    requires EndsValue(rest)
    ensures BoundaryFrom(head + Parameter(pad, name, before, after, b + rest)) == Ok(b)
  {
    NotEmpty(b);
    BoundaryChars(b);
    hide Spaces, BoundaryValue, NamesNoBoundary, Parameter, IsBoundary, BoundaryParam, EndsValue, BOUNDARY;
    assert (b + rest)[0] == b[0];
    BareBoundary(b, rest);
    TakesParameter(head, pad, name, before, after, b + rest, b);
    StillMultipart(head, Parameter(pad, name, before, after, b + rest));
  }

  /**
   * Whatever boundary stands in the first parameter of that name is the boundary: letter for letter, bare or quoted,
   * with white space around `;` and `=`, and whatever follows its end.
   */
  lemma BoundaryIsRead(head: string, pad: string, name: string, before: string, after: string, b: string, rest: string)
    requires IsMultipart(head) && NamesNoBoundary(head)
    requires Spaces(pad) && Spaces(before) && Spaces(after) && ToLower(name) == "boundary" && IsBoundary(b)
    ensures EndsValue(rest) ==> BoundaryFrom(head + Parameter(pad, name, before, after, b + rest)) == Ok(b)
    ensures BoundaryFrom(head + Parameter(pad, name, before, after, ['"'] + (b + (['"'] + rest)))) == Ok(b)
  {
    hide Spaces, BoundaryValue, NamesNoBoundary, Parameter, IsBoundary, BoundaryParam, EndsValue, Lower;
    if EndsValue(rest) {
      BareIsRead(head, pad, name, before, after, b, rest);
    }
    var quoted := ['"'] + (b + (['"'] + rest));
    assert quoted[0] == '"';
    QuotedBoundary(b, rest);
    TakesParameter(head, pad, name, before, after, quoted, b);
    StillMultipart(head, Parameter(pad, name, before, after, quoted));
  }

  lemma NotEmpty(b: string)
    requires IsBoundary(b)
    ensures b != []
  {
  }

  /** Exactly 1 to 70 of the characters of section 5.1.1 of RFC 2046, the space left out, come back, and unchanged. */
  lemma BoundaryIsTaken(b: string)
    ensures var legal := 1 <= |b| <= 70 && forall c :: c in b ==>
              '0' <= c <= '9' || 'A' <= c <= 'Z' || 'a' <= c <= 'z' || c in "'()+_,-./:=?";
            && (BoundaryFrom("multipart/form-data; boundary=" + b) == Ok(b) <==> legal)
            && (BoundaryFrom("multipart/form-data; boundary=\"" + b + "\"") == Ok(b) <==> legal)
  {
    var bare, quoted := "multipart/form-data; boundary=" + b, "multipart/form-data; boundary=\"" + b + "\"";
    assert IsBoundary(b) <==> 1 <= |b| <= 70 && forall c :: c in b ==> IsBoundaryChar(c);
    assert BoundaryFrom(bare) == Ok(b) ==> IsBoundary(b);
    assert BoundaryFrom(quoted) == Ok(b) ==> IsBoundary(b);
    hide BoundaryFrom, IsBoundary, Parameter, IsMultipart, NamesNoBoundary, EndsValue, Spaces;
    if IsBoundary(b) {
      PlainHead();
      PlainTexts(b);
      BoundaryIsRead("multipart/form-data", " ", "boundary", "", "", b, "");
    }
  }

  lemma PlainHead()
    ensures IsMultipart("multipart/form-data") && NamesNoBoundary("multipart/form-data")
    ensures EndsValue("") && Spaces("") && Spaces(" ") && ToLower("boundary") == "boundary"
  {
    PlainLetters();
    hide *;
    LowerPlain(MULTIPART);
    LowerPlain(BOUNDARY);
    PlainIsMultipart();
    PlainNamesNothing();
  }

  lemma PlainLetters()
    ensures BOUNDARY == "boundary" && MULTIPART == "multipart/form-data"
    ensures EndsValue("") && Spaces("") && Spaces(" ")
    ensures forall i :: 0 <= i < |BOUNDARY| ==> Lower(BOUNDARY[i]) == BOUNDARY[i]
    ensures forall i :: 0 <= i < |MULTIPART| ==> Lower(MULTIPART[i]) == MULTIPART[i] && MULTIPART[i] != 'b'
    ensures BOUNDARY != [] && BOUNDARY[0] == 'b'
  {
  }

  lemma LowerPlain(s: string)
    requires forall i :: 0 <= i < |s| ==> Lower(s[i]) == s[i]
    ensures ToLower(s) == s
  {
  }

  lemma PlainIsMultipart()
    requires ToLower(MULTIPART) == MULTIPART
    ensures IsMultipart(MULTIPART)
  {
    hide ToLower;
    assert !IsSpace(MULTIPART[0]);
    assert TrimStart(MULTIPART) == MULTIPART;
    assert MULTIPART[..|MULTIPART|] == MULTIPART;
  }

  lemma PlainNamesNothing()
    requires ToLower(MULTIPART) == MULTIPART && BOUNDARY == "boundary" && BOUNDARY != [] && BOUNDARY[0] == 'b'
    requires forall i :: 0 <= i < |MULTIPART| ==> MULTIPART[i] != 'b'
    ensures NamesNoBoundary(MULTIPART)
  {
    hide ToLower, MULTIPART, BOUNDARY, Matches;
    forall i: nat ensures !Matches(ToLower(MULTIPART), BOUNDARY, i) {
      MismatchAt(MULTIPART, BOUNDARY, i, 0);
    }
  }

  lemma PlainTexts(b: string)
    ensures "multipart/form-data" + Parameter(" ", "boundary", "", "", b + "") == "multipart/form-data; boundary=" + b
    ensures "multipart/form-data" + Parameter(" ", "boundary", "", "", ['"'] + (b + (['"'] + "")))
         == "multipart/form-data; boundary=\"" + b + "\""
  {
    var key: string := "; boundary=";
    assert b + "" == b;
    assert Parameter(" ", "boundary", "", "", b) == key + b;
    assert "multipart/form-data; boundary=" == "multipart/form-data" + key;
    var value := ['"'] + (b + (['"'] + ""));
    assert value == "\"" + b + "\"";
    assert Parameter(" ", "boundary", "", "", value) == key + value;
    assert "multipart/form-data; boundary=\"" == "multipart/form-data" + key + "\"";
  }
}
