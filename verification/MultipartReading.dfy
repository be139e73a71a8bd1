/**
 * How the headers of a part are read, said without the scanners: which line gives a header its value, which parameter
 * of a disposition is taken and what its quoted or bare value stands for, and the media type.
 */
module MultipartReading {
  import opened Wrappers
  import opened Scanning
  import opened MultipartHeaders
  import opened MultipartNames
  import opened MultipartBoundary

  // ── Lines ───────────────────────────────────────────────────────

  predicate OneLine(line: Buffer) {
    forall i :: 0 <= i < |line| - 1 ==> !(line[i] == CR && line[i + 1] == LF)
  }

  lemma {:induction false} LinesJoined(lines: seq<Buffer>)
    requires lines != [] && forall l :: l in lines ==> OneLine(l)
    ensures Lines(Join(lines, CRLF)) == lines
  {
    hide IndexOf, OneLine;
    assert lines[0] in lines;
    if |lines| == 1 {
      NoBreakIn(lines[0]);
      assert lines == [lines[0]];
    } else {
      var rest := Join(lines[1..], CRLF);
      assert forall l :: l in lines[1..] ==> l in lines;
      LinesJoined(lines[1..]);
      FirstBreak(lines[0], rest);
      assert lines == [lines[0]] + lines[1..];
    }
  }

  lemma NoBreakIn(line: Buffer)
    requires OneLine(line)
    ensures IndexOf(line, CRLF, 0).None?
  {
    forall i: nat ensures !Matches(line, CRLF, i) {
      if i + 2 <= |line| {
        if line[i] == CR {
          MismatchAt(line, CRLF, i, 1);
        } else {
          MismatchAt(line, CRLF, i, 0);
        }
      }
    }
    IndexOfIsNone(line, CRLF, 0);
  }

  lemma FirstBreak(line: Buffer, rest: Buffer)
    requires OneLine(line)
    ensures var s := line + CRLF + rest;
            IndexOf(s, CRLF, 0) == Some(|line|) && s[..|line|] == line && s[|line| + 2..] == rest
  {
    var s := line + CRLF + rest;
    assert s[|line|] == CR && s[|line| + 1] == LF;
    forall i: nat | i < |line| ensures !Matches(s, CRLF, i) {
      if s[i] == CR {
        assert i + 1 < |line| ==> line[i] == CR && line[i + 1] == s[i + 1];
        MismatchAt(s, CRLF, i, 1);
      } else {
        MismatchAt(s, CRLF, i, 0);
      }
    }
    IndexOfIs(s, CRLF, 0, |line|);
  }

  /** The line carries the header `name`: what stands before its first colon, trimmed and in lower case. */
  ghost predicate Carries(line: string, name: string, value: string) {
    exists colon :: 0 < colon < |line| && line[colon] == ':' && ':' !in line[..colon]
                    && ToLower(Trim(line[..colon])) == name && Trim(line[colon + 1..]) == value
  }

  lemma FindMeans(s: string, c: char, at: nat)
    ensures Find(s, c) == Some(at) <==> at < |s| && s[at] == c && c !in s[..at]
  {
    if at < |s| {
      assert forall i :: 0 <= i < at ==> s[i] == s[..at][i];
      if s[at] == c && c !in s[..at] {
        FindIs(s, c, at);
      }
    }
    hide Find;
  }

  lemma LineCut(line: string, name: string, colon: nat)
    requires Find(line, ':') == Some(colon)
    ensures colon < |line|
    ensures LineValue(line, name) == if colon > 0 && ToLower(Trim(line[..colon])) == name then Some(Trim(line[colon + 1..])) else None
  {
    hide Find, Trim, ToLower;
  }

  lemma NoColon(line: string, name: string)
    requires LineValue(line, name).Some?
    ensures Find(line, ':').Some?
  {
    hide Find, Trim, ToLower;
  }

  lemma CarriedIsRead(line: string, colon: nat, name: string, value: string)
    requires 0 < colon < |line| && line[colon] == ':' && ':' !in line[..colon]
    requires ToLower(Trim(line[..colon])) == name && Trim(line[colon + 1..]) == value
    ensures LineValue(line, name) == Some(value)
  {
    hide *;
    FindMeans(line, ':', colon);
    LineCut(line, name, colon);
  }

  lemma ReadIsCarried(line: string, name: string, value: string)
    requires LineValue(line, name) == Some(value)
    ensures Carries(line, name, value)
  {
    hide Find, Trim, ToLower, LineValue;
    NoColon(line, name);
    var colon := Find(line, ':').value;
    FindMeans(line, ':', colon);
    LineCut(line, name, colon);
  }

  lemma CarriesMeans(line: string, name: string, value: string)
    ensures Carries(line, name, value) <==> LineValue(line, name) == Some(value)
  {
    hide Trim, ToLower, LineValue;
    if Carries(line, name, value) {
      var colon :| 0 < colon < |line| && line[colon] == ':' && ':' !in line[..colon]
                   && ToLower(Trim(line[..colon])) == name && Trim(line[colon + 1..]) == value;
      CarriedIsRead(line, colon, name, value);
    }
    if LineValue(line, name) == Some(value) {
      ReadIsCarried(line, name, value);
    }
  }

  ghost predicate FirstCarries(lines: seq<string>, i: nat, name: string, value: string) {
    i < |lines| && Carries(lines[i], name, value) && forall j, v :: 0 <= j < i ==> !Carries(lines[j], name, v)
  }

  lemma FirstShifts(lines: seq<string>, i: nat, name: string, value: string)
    requires lines != []
    ensures FirstCarries(lines, i + 1, name, value)
       <==> FirstCarries(lines[1..], i, name, value) && forall v :: !Carries(lines[0], name, v)
  {
    hide Carries;
    var rest := lines[1..];
    assert forall k :: 0 <= k < |rest| ==> rest[k] == lines[k + 1];
    if FirstCarries(lines, i + 1, name, value) {
      forall j, v | 0 <= j < i ensures !Carries(rest[j], name, v) {
        assert !Carries(lines[j + 1], name, v);
      }
    }
    if FirstCarries(rest, i, name, value) && forall v :: !Carries(lines[0], name, v) {
      forall j, v | 0 <= j < i + 1 ensures !Carries(lines[j], name, v) {
        assert j > 0 ==> lines[j] == rest[j - 1];
      }
    }
  }

  lemma {:induction false} FirstValueMeans(lines: seq<string>, name: string, value: string)
    ensures FirstValue(lines, name) == Some(value) <==> exists i: nat :: FirstCarries(lines, i, name, value)
  {
    if lines != [] {
      forall v ensures Carries(lines[0], name, v) <==> LineValue(lines[0], name) == Some(v) {
        CarriesMeans(lines[0], name, v);
      }
      FirstValueMeans(lines[1..], name, value);
      hide Carries, LineValue;
      if i: nat :| FirstCarries(lines, i, name, value) {
        if i > 0 {
          var before := i - 1;
          FirstShifts(lines, before, name, value);
        }
      }
      if LineValue(lines[0], name).Some? {
        assert FirstCarries(lines, 0, name, LineValue(lines[0], name).value);
      } else if i: nat :| FirstCarries(lines[1..], i, name, value) {
        FirstShifts(lines, i, name, value);
      }
    }
  }

  /** Of the lines of a header block, the first that carries a header gives it its value. */
  lemma HeaderIsFirstLine(lines: seq<Buffer>, name: string, value: string)
    requires lines != [] && forall l :: l in lines ==> OneLine(l)
    ensures HeaderValue(Join(lines, CRLF), name) == Some(value) <==> exists i: nat :: FirstCarries(lines, i, name, value)
  {
    hide Lines, FirstValue, Join, OneLine, FirstCarries;
    LinesJoined(lines);
    FirstValueMeans(lines, name, value);
  }

  // ── Parameters ──────────────────────────────────────────────────

  /**
   * What follows a `;` names the parameter, in any case and with white space around name and `=`, and `value` follows.
   */
  ghost predicate Names(s: string, param: string, value: string) {
    exists pad, name, before, after ::
      && s == pad + (name + (before + (['='] + (after + value)))) && ToLower(name) == param
      && Spaces(pad) && Spaces(before) && Spaces(after) && (value == [] || !IsSpace(value[0]))
  }

  lemma TrimmedOff(s: string) returns (pad: string)
    ensures Spaces(pad) && s == pad + TrimStart(s) && (TrimStart(s) == [] || !IsSpace(TrimStart(s)[0]))
  {
    var t := TrimStart(s);
    hide IsSpace, TrimStart;
    pad := s[..|s| - |t|];
  }

  lemma NamesMeans(s: string, param: string, value: string)
    requires IsParamName(param)
    ensures Names(s, param, value) <==> AfterParam(s, param) == Some(value)
  {
    hide TrimStart, Spaces, IsSpace, Lower, NamedBy;
    if Names(s, param, value) {
      hide IsParamName;
      var pad, name, before, after :|
        && s == pad + (name + (before + (['='] + (after + value)))) && ToLower(name) == param
        && Spaces(pad) && Spaces(before) && Spaces(after) && (value == [] || !IsSpace(value[0]));
      ReadsNamed(param, pad, name, before, after, value);
    }
    if AfterParam(s, param) == Some(value) {
      hide IsParamName;
      ReadIsNamed(s, param, value);
    }
  }

  lemma ReadIsNamed(s: string, param: string, value: string)
    requires AfterParam(s, param) == Some(value)
    ensures Names(s, param, value)
  {
    hide *;
    AfterParamParts(s, param, value);
    var t := TrimStart(s);
    var pad := TrimmedOff(s);
    NameCut(t, param);
    var name, rest := t[..|param|], t[|param|..];
    var u := TrimStart(rest);
    var before := TrimmedOff(rest);
    SignFirst(u);
    var tail := u[1..];
    var after := TrimmedOff(tail);
    Composed(s, pad, t, name, rest, before, u, tail, after, value);
    IsNamed(s, param, value, pad, name, before, after);
  }

  lemma SignFirst(u: string)
    requires u != [] && u[0] == '='
    ensures u == ['='] + u[1..]
  {
  }

  lemma Composed(s: string, pad: string, t: string, name: string, rest: string, before: string, u: string, tail: string,
      after: string, value: string)
    requires s == pad + t && t == name + rest && rest == before + u && u == ['='] + tail && tail == after + value
    ensures s == pad + (name + (before + (['='] + (after + value))))
  {
  }

  lemma AfterParamParts(s: string, param: string, value: string)
    requires AfterParam(s, param) == Some(value)
    ensures NamedBy(TrimStart(s), param) && |param| <= |TrimStart(s)|
    ensures var u := TrimStart(TrimStart(s)[|param|..]); u != [] && u[0] == '=' && value == TrimStart(u[1..])
  {
    hide TrimStart, Lower;
  }

  lemma IsNamed(s: string, param: string, value: string, pad: string, name: string, before: string, after: string)
    requires s == pad + (name + (before + (['='] + (after + value)))) && ToLower(name) == param
    requires Spaces(pad) && Spaces(before) && Spaces(after) && (value == [] || !IsSpace(value[0]))
    ensures Names(s, param, value)
  {
  }

  lemma NameCut(t: string, param: string)
    requires NamedBy(t, param)
    ensures |param| <= |t| && ToLower(t[..|param|]) == param && t == t[..|param|] + t[|param|..]
  {
    hide Lower;
    assert forall i {:trigger param[i]} :: 0 <= i < |param| ==> ToLower(t[..|param|])[i] == param[i];
  }

  ghost predicate ParamAt(s: string, k: nat, param: string, value: string) {
    k < |s| && s[k] == ';' && Names(s[k + 1..], param, value)
  }

  ghost predicate FirstParamAt(s: string, k: nat, param: string, value: string) {
    ParamAt(s, k, param, value) && forall j: nat, v :: j < k ==> !ParamAt(s, j, param, v)
  }

  lemma ParamShifts(s: string, k: nat, param: string, value: string)
    requires s != []
    ensures ParamAt(s, k + 1, param, value) <==> ParamAt(s[1..], k, param, value)
  {
    hide Names;
    if k + 1 < |s| {
      assert s[k + 1..][1..] == s[1..][k + 1..];
      assert s[k + 2..] == s[1..][k + 1..];
    }
  }

  lemma FirstParamShifts(s: string, k: nat, param: string, value: string)
    requires s != []
    ensures FirstParamAt(s, k + 1, param, value)
       <==> FirstParamAt(s[1..], k, param, value) && forall v :: !ParamAt(s, 0, param, v)
  {
    hide ParamAt;
    forall j: nat, v ensures ParamAt(s, j + 1, param, v) <==> ParamAt(s[1..], j, param, v) {
      ParamShifts(s, j, param, v);
    }
    if FirstParamAt(s, k + 1, param, value) {
      forall j: nat, v | j < k ensures !ParamAt(s[1..], j, param, v) {
        assert !ParamAt(s, j + 1, param, v);
      }
    }
    if FirstParamAt(s[1..], k, param, value) && forall v :: !ParamAt(s, 0, param, v) {
      forall j: nat, v | j < k + 1 ensures !ParamAt(s, j, param, v) {
        if j > 0 {
          var i: nat := j - 1;
          assert !ParamAt(s[1..], i, param, v);
          ParamShifts(s, i, param, v);
        }
      }
    }
  }

  lemma {:induction false} FirstParamMeans(s: string, param: string, value: string)
    requires IsParamName(param)
    ensures FirstParam(s, param) == Some(value) <==> exists k: nat :: FirstParamAt(s, k, param, value)
  {
    hide AfterParam, IsParamName;
    if s != [] {
      forall v ensures ParamAt(s, 0, param, v) <==> s[0] == ';' && AfterParam(s[1..], param) == Some(v) {
        NamesMeans(s[1..], param, v);
      }
      hide ParamAt;
      FirstParamMeans(s[1..], param, value);
      if k: nat :| FirstParamAt(s, k, param, value) {
        if k > 0 {
          var before: nat := k - 1;
          FirstParamShifts(s, before, param, value);
        }
      }
      if s[0] == ';' && AfterParam(s[1..], param).Some? {
        assert FirstParamAt(s, 0, param, AfterParam(s[1..], param).value);
      } else if k: nat :| FirstParamAt(s[1..], k, param, value) {
        FirstParamShifts(s, k, param, value);
      }
    }
  }

  // ── Values ──────────────────────────────────────────────────────

  /**
   * What is written between quotation marks spells a text: a backslash stands for the character behind it, which may not
   * end a line, and any other character but the mark for itself.
   */
  predicate Spells(written: string, text: string) {
    if written == [] then text == []
    else if text == [] || written[0] == '"' then false
    else if written[0] == '\\' then |written| >= 2 && written[1] !in "\n\r\U{2028}\U{2029}" && written[1] == text[0] && Spells(written[2..], text[1..])
    else written[0] == text[0] && Spells(written[1..], text[1..])
  }

  /** A mark that is not behind a backslash closes the quotation. */
  ghost predicate QuotedAs(s: string, text: string) {
    exists n :: 0 <= n < |s| && s[n] == '"' && Spells(s[..n], text)
  }

  lemma UnitSpells(s: string, n: nat, c: char, rest: string, units: nat)
    requires 1 <= units <= n <= |s| && s[0] != '"'
    requires if s[0] == '\\' then units == 2 && s[1] == c && !IsLineEnd(c) else units == 1 && s[0] == c
    ensures Spells(s[..n], [c] + rest) <==> Spells(s[units..][..n - units], rest)
  {
    assert s[..n][units..] == s[units..][..n - units];
    assert ([c] + rest)[1..] == rest;
  }

  lemma {:induction false} QuotedIsSpelled(s: string)
    requires Quoted(s).Some?
    ensures QuotedAs(s, Quoted(s).value)
  {
    if s[0] == '"' {
      assert Spells(s[..0], []);
    } else {
      var units := if s[0] == '\\' then 2 else 1;
      var c, rest := s[units - 1], Quoted(s[units..]).value;
      QuotedIsSpelled(s[units..]);
      var n :| 0 <= n < |s[units..]| && s[units..][n] == '"' && Spells(s[units..][..n], rest);
      UnitSpells(s, n + units, c, rest, units);
      assert s[n + units] == '"';
    }
  }

  lemma {:induction false} SpelledIsQuoted(s: string, n: nat, text: string)
    requires n < |s| && s[n] == '"' && Spells(s[..n], text)
    ensures Quoted(s) == Some(text)
  {
    if n > 0 {
      assert s[..n][0] == s[0];
      var units := if s[0] == '\\' then 2 else 1;
      if s[0] == '\\' {
        assert s[..n][1] == s[1];
      }
      var c, rest := s[units - 1], text[1..];
      assert text == [c] + rest;
      UnitSpells(s, n, c, rest, units);
      SpelledIsQuoted(s[units..], n - units, rest);
    }
  }

  lemma QuotedMeans(s: string, text: string)
    ensures QuotedAs(s, text) <==> Quoted(s) == Some(text)
  {
    hide Quoted, Spells;
    if QuotedAs(s, text) {
      var n :| 0 <= n < |s| && s[n] == '"' && Spells(s[..n], text);
      SpelledIsQuoted(s, n, text);
    }
    if Quoted(s) == Some(text) {
      QuotedIsSpelled(s);
    }
  }

  /** Backslashes in front of quotation marks and backslashes, and nowhere else. */
  function Escaped(text: string): string {
    if text == [] then []
    else (if text[0] == '"' || text[0] == '\\' then ['\\', text[0]] else [text[0]]) + Escaped(text[1..])
  }

  /** Any text that is quoted with escapes is read back as it was. */
  lemma {:induction false} EscapedReadBack(text: string, rest: string)
    ensures Quoted(Escaped(text) + (['"'] + rest)) == Some(text)
  {
    var s := Escaped(text) + (['"'] + rest);
    if text != [] {
      EscapedReadBack(text[1..], rest);
      var units := if text[0] == '"' || text[0] == '\\' then 2 else 1;
      assert s[units..] == Escaped(text[1..]) + (['"'] + rest);
      assert text == [text[0]] + text[1..];
    }
  }

  /** What stands before the first `;` or white space. */
  ghost predicate BareAs(s: string, text: string) {
    && text != [] && text <= s && (forall i :: 0 <= i < |text| ==> text[i] != ';' && !IsSpace(text[i]))
    && (|text| == |s| || s[|text|] == ';' || IsSpace(s[|text|]))
  }

  lemma BareMeans(s: string, text: string)
    ensures BareAs(s, text) <==> BareValue(s) == Some(text)
  {
    BareIsFirst(s);
    hide Bare, IsSpace;
    if BareAs(s, text) {
      BareOfPiece(s, text);
    }
  }

  lemma {:induction false} BareIsFirst(s: string)
    ensures var b := Bare(s);
            && b <= s && (forall i :: 0 <= i < |b| ==> b[i] != ';' && !IsSpace(b[i]))
            && (|b| == |s| || s[|b|] == ';' || IsSpace(s[|b|]))
  {
    hide IsSpace;
    if s != [] && s[0] != ';' && !IsSpace(s[0]) {
      BareIsFirst(s[1..]);
    }
  }

  lemma BareOfPiece(s: string, text: string)
    requires BareAs(s, text)
    ensures Bare(s) == text
  {
    hide Bare, IsSpace;
    var rest := s[|text|..];
    assert s == text + rest;
    BareStops(text, rest);
  }

  /** A quotation if there is one, and what is bare otherwise. */
  ghost predicate StandsFor(value: string, text: string) {
    if value != [] && value[0] == '"' && exists t :: QuotedAs(value[1..], t) then QuotedAs(value[1..], text) else BareAs(value, text)
  }

  lemma ValueMeans(value: string, text: string)
    ensures StandsFor(value, text) <==> ParamValue(value) == Some(text)
  {
    hide QuotedAs, BareAs, Quoted, BareValue;
    BareMeans(value, text);
    if value != [] {
      forall t ensures QuotedAs(value[1..], t) <==> Quoted(value[1..]) == Some(t) {
        QuotedMeans(value[1..], t);
      }
    }
  }

  /**
   * A parameter of a disposition is read from the first place that names it; no other place counts, not even when what
   * stands there has no value.
   */
  lemma DispositionMeans(disposition: string, param: string, text: string)
    requires param == "name" || param == "filename"
    ensures DispositionParam(disposition, param) == Some(text)
       <==> exists k: nat, value :: FirstParamAt(disposition, k, param, value) && StandsFor(value, text)
  {
    ParamNames();
    hide *;
    DispositionIs(disposition, param);
    forall value
      ensures FirstParam(disposition, param) == Some(value) <==> exists k: nat :: FirstParamAt(disposition, k, param, value)
      ensures StandsFor(value, text) <==> ParamValue(value) == Some(text)
    {
      FirstParamMeans(disposition, param, value);
      ValueMeans(value, text);
    }
  }

  lemma ParamNames()
    ensures IsParamName("name") && IsParamName("filename")
  {
  }

  lemma DispositionIs(disposition: string, param: string)
    ensures DispositionParam(disposition, param) == match FirstParam(disposition, param) case None => None case Some(v) => ParamValue(v)
  {
    hide FirstParam, ParamValue;
  }

  /** The media type is what stands before the first `;`, trimmed and in lower case. */
  lemma MediaTypeMeans(main: string, rest: string)
    requires ';' !in main && (rest == [] || rest[0] == ';')
    ensures MediaType(Some(main + rest)) == ToLower(Trim(main)) && MediaType(None) == ""
  {
    hide Trim, Find;
    if rest == [] {
      assert main + rest == main;
    } else {
      assert main + rest == main + [';'] + rest[1..];
      SplitFirst(main, ';', rest[1..]);
    }
  }
}
