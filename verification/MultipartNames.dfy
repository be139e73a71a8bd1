/**
 * Which field names survive the trip through a Content-Disposition header, and how the parser reads the two
 * header blocks the builder writes. Builder names never hold CR, LF or a quote.
 */
module MultipartNames {
  import opened Wrappers
  import opened Scanning
  import opened MultipartHeaders

  /** `/[\r\n"]/` does not match. */
  predicate IsFrameable(name: string) {
    CR !in name && LF !in name && '"' !in name
  }

  const QUOTE: string := ['"']
  const FORM_DATA := "form-data"
  const UPLOAD := "upload"
  const CONTENT_DISPOSITION := "Content-Disposition"
  const CONTENT_TYPE := "Content-Type"

  function Quote(text: string): string {
    QUOTE + (text + QUOTE)
  }

  /** `; param=value` */
  function ParamText(param: string, value: string): string {
    [';'] + ([' '] + (param + (['='] + value)))
  }

  function HeaderLine(name: string, value: string): string {
    name + ([':'] + ([' '] + value))
  }

  /** `form-data; name="..."`, and what follows it. */
  function Disposition(name: Buffer, tail: Buffer): Buffer {
    FORM_DATA + ParamText(NAME, QUOTE + (name + (QUOTE + tail)))
  }

  function FieldHead(name: Buffer): Buffer {
    HeaderLine(CONTENT_DISPOSITION, Disposition(name, []))
  }

  const UPLOAD_PARAM := ParamText(FILENAME, Quote(UPLOAD))

  function FileHead(name: Buffer, contentType: Buffer): Buffer {
    HeaderLine(CONTENT_DISPOSITION, Disposition(name, UPLOAD_PARAM)) + (CRLF + HeaderLine(CONTENT_TYPE, contentType))
  }

  // ── Parameters of what the builder writes ───────────────────────

  /** A stretch without `;` holds no parameter. */
  lemma {:induction false} NoParamIn(stretch: string, rest: string, param: string)
    requires ';' !in stretch
    ensures FirstParam(stretch + rest, param) == FirstParam(rest, param)
  {
    if stretch == [] {
      assert stretch + rest == rest;
    } else {
      assert stretch[0] in stretch;
      assert (stretch + rest)[1..] == stretch[1..] + rest;
      NoParamIn(stretch[1..], rest, param);
    }
  }

  lemma {:induction false} TrimStartBefore(s: string, quote: string)
    requires quote != [] && !IsSpace(quote[0])
    ensures TrimStart(s + quote) == TrimStart(s) + quote
  {
    if s != [] && IsSpace(s[0]) {
      assert (s + quote)[1..] == s[1..] + quote;
      TrimStartBefore(s[1..], quote);
    } else if s == [] {
      assert s + quote == quote;
      assert TrimStart(s) + quote == quote;
    }
  }

  function Extended(value: Option<string>, tail: string): (r: Option<string>) {
    match value case None => None case Some(v) => Some(v + tail)
  }

  lemma NamedByBefore(s: string, quote: string, name: string)
    requires quote != [] && quote[0] == '"' && '"' !in name
    ensures NamedBy(s + quote, name) <==> NamedBy(s, name)
  {
    if |s| < |name| <= |s + quote| {
      assert (s + quote)[|s|] == '"';
      assert Lower((s + quote)[|s|]) != name[|s|];
    }
  }

  lemma AfterEqualsBefore(s: string, quote: string)
    requires quote != [] && quote[0] == '"'
    ensures AfterEquals(s + quote) == Extended(AfterEquals(s), quote)
  {
    if s != [] {
      assert (s + quote)[1..] == s[1..] + quote;
      TrimStartBefore(s[1..], quote);
    }
  }

  /** A closing quote ends whatever parameter was being read: it is no space, no letter and no `=`. */
  lemma AfterParamBefore(s: string, quote: string, param: string)
    requires quote != [] && quote[0] == '"' && '"' !in param
    ensures AfterParam(s + quote, param) == Extended(AfterParam(s, param), quote)
  {
    hide NamedBy, AfterEquals, TrimStart;
    TrimStartBefore(s, quote);
    var t := TrimStart(s);
    NamedByBefore(t, quote, param);
    if NamedBy(t, param) {
      NamedFits(t, param);
      assert (t + quote)[|param|..] == t[|param|..] + quote;
      TrimStartBefore(t[|param|..], quote);
      AfterEqualsBefore(TrimStart(t[|param|..]), quote);
    }
  }

  lemma NamedFits(s: string, name: string)
    requires NamedBy(s, name)
    ensures |name| <= |s|
  {
  }

  lemma {:induction false} FirstParamBefore(s: string, quote: string, param: string)
    requires quote != [] && quote[0] == '"' && '"' !in param
    ensures FirstParam(s + quote, param)
         == if FirstParam(s, param).Some? then Extended(FirstParam(s, param), quote) else FirstParam(quote, param)
  {
    if s == [] {
      assert s + quote == quote;
    } else {
      assert (s + quote)[1..] == s[1..] + quote;
      AfterParamBefore(s[1..], quote, param);
      FirstParamBefore(s[1..], quote, param);
    }
  }

  // ── The name ────────────────────────────────────────────────────

  lemma {:induction false} QuotedPlain(name: string, tail: string)
    requires '"' !in name && '\\' !in name
    ensures Quoted(name + (QUOTE + tail)) == Some(name)
  {
    var s := name + (QUOTE + tail);
    if name == [] {
      assert s[0] == '"';
    } else {
      assert name[0] in name;
      assert s[1..] == name[1..] + (QUOTE + tail);
      QuotedPlain(name[1..], tail);
      assert [name[0]] + name[1..] == name;
    }
  }

  /** Unescaping never lengthens, unless the closing quote was itself escaped. */
  lemma {:induction false} QuotedShortens(name: string, tail: string)
    requires '"' !in name
    ensures match Quoted(name + (QUOTE + tail))
            case None => true
            case Some(q) => |q| <= |name| || '"' in q
    decreases |name|
  {
    var s := name + (QUOTE + tail);
    if name == [] {
      assert s[0] == '"';
    } else {
      assert name[0] in name;
      if name[0] != '\\' {
        assert s[1..] == name[1..] + (QUOTE + tail);
        QuotedShortens(name[1..], tail);
      } else if |name| > 1 {
        assert s[2..] == name[2..] + (QUOTE + tail);
        QuotedShortens(name[2..], tail);
      }
    }
  }

  lemma {:induction false} QuotedEscaped(name: string, tail: string)
    requires '"' !in name && '\\' in name
    ensures Quoted(name + (QUOTE + tail)) != Some(name)
  {
    var s := name + (QUOTE + tail);
    assert name[0] in name;
    if name[0] != '\\' {
      assert s[1..] == name[1..] + (QUOTE + tail);
      QuotedEscaped(name[1..], tail);
    } else if |name| > 1 {
      assert s[2..] == name[2..] + (QUOTE + tail);
      QuotedShortens(name[2..], tail);
    }
  }

  /** A parameter name as the scanners look for it: lower-case letters, to be read whole. */
  predicate IsParamName(param: string) {
    param != [] && forall i :: 0 <= i < |param| ==> Lower(param[i]) == param[i] && !IsSpace(param[i]) && param[i] != '"' && param[i] != ';'
  }

  lemma TrimStartStops(t: string)
    requires t != [] && !IsSpace(t[0])
    ensures TrimStart(t) == t && TrimStart([' '] + t) == t
  {
    assert ([' '] + t)[1..] == t;
  }

  lemma ReadsParam(param: string, value: string)
    requires IsParamName(param)
    requires value != [] && !IsSpace(value[0])
    ensures AfterParam([' '] + (param + (['='] + value)), param) == Some(value)
  {
    hide TrimStart;
    var equals := ['='] + value;
    var t := param + equals;
    assert t[0] == param[0];
    TrimStartStops(t);
    assert t[|param|..] == equals;
    TrimStartStops(equals);
    TrimStartStops(value);
    assert equals[1..] == value;
  }

  lemma SkipsParam(other: string, rest: string, param: string)
    requires IsParamName(other) && IsParamName(param) && other[0] != param[0]
    ensures AfterParam([' '] + (other + rest), param).None?
  {
    hide TrimStart;
    var t := other + rest;
    assert t[0] == other[0];
    TrimStartStops(t);
    assert Lower(t[0]) != param[0];
  }

  /** The parameter right after a stretch without `;` is the first one. */
  lemma FindsParam(stretch: string, param: string, value: string)
    requires ';' !in stretch && IsParamName(param)
    requires value != [] && !IsSpace(value[0])
    ensures FirstParam(stretch + ParamText(param, value), param) == Some(value)
  {
    hide AfterParam;
    var text := ParamText(param, value);
    NoParamIn(stretch, text, param);
    assert text[1..] == [' '] + (param + (['='] + value));
    ReadsParam(param, value);
  }

  lemma SkipsParamText(other: string, value: string, param: string)
    requires IsParamName(other) && IsParamName(param) && other[0] != param[0]
    ensures FirstParam(ParamText(other, value), param) == FirstParam(value, param)
  {
    hide AfterParam;
    var text := ParamText(other, value);
    var words := [' '] + (other + ['=']);
    assert text[1..] == [' '] + (other + (['='] + value));
    SkipsParam(other, ['='] + value, param);
    assert FirstParam(text, param) == FirstParam(text[1..], param);
    assert text[1..] == words + value;
    forall i | 0 <= i < |words| ensures words[i] != ';' {
      assert 0 < i < |words| - 1 ==> words[i] == other[i - 1];
    }
    NoParamIn(words, value, param);
  }

  lemma Names()
    ensures IsParamName(NAME) && IsParamName(FILENAME) && NAME[0] != FILENAME[0]
    ensures ';' !in FORM_DATA && '"' !in FILENAME && '"' !in NAME
  {
  }

  lemma FindsName(name: Buffer, tail: Buffer)
    ensures FirstParam(Disposition(name, tail), NAME) == Some(QUOTE + (name + (QUOTE + tail)))
  {
    hide FirstParam, ParamText;
    Names();
    FindsParam(FORM_DATA, NAME, QUOTE + (name + (QUOTE + tail)));
  }

  /** A name comes back as it was sent exactly when no backslash in it can be taken for an escape. */
  lemma NameReadBack(name: Buffer, tail: Buffer)
    requires IsFrameable(name)
    ensures DispositionParam(Disposition(name, tail), NAME) == Some(name) <==> '\\' !in name
  {
    hide FirstParam, Disposition, Quoted;
    FindsName(name, tail);
    var value := QUOTE + (name + (QUOTE + tail));
    assert value[1..] == name + (QUOTE + tail);
    if '\\' in name {
      QuotedEscaped(name, tail);
      BareQuote(value, name);
    } else {
      QuotedPlain(name, tail);
    }
  }

  lemma BareQuote(value: string, name: string)
    requires value != [] && value[0] == '"' && '"' !in name
    ensures BareValue(value) != Some(name)
  {
    assert Bare(value)[0] == '"';
    if name != [] {
      assert name[0] in name;
    }
  }

  lemma FindsFilename(name: Buffer, tail: Buffer)
    ensures FirstParam(Disposition(name, tail), FILENAME)
         == if FirstParam(name, FILENAME).Some? then Extended(FirstParam(name, FILENAME), QUOTE + tail)
            else FirstParam(QUOTE + tail, FILENAME)
  {
    hide FirstParam, ParamText;
    Names();
    var quote := QUOTE + tail;
    NoParamIn(FORM_DATA, ParamText(NAME, QUOTE + (name + quote)), FILENAME);
    SkipsParamText(NAME, QUOTE + (name + quote), FILENAME);
    NoParamIn(QUOTE, name + quote, FILENAME);
    FirstParamBefore(name, quote, FILENAME);
  }

  /**
   * A field name that reads as holding a parameter of its own: a `;filename=` inside it, unless that one is
   * followed at once by another `;` and so has no value.
   */
  predicate HidesFilename(name: Buffer) {
    match FirstParam(name, FILENAME)
    case None => false
    case Some(value) => value == [] || value[0] != ';'
  }

  lemma {:induction false} TrimStartTail(s: string)
    ensures forall c :: c in TrimStart(s) ==> c in s
  {
    if s != [] && IsSpace(s[0]) {
      TrimStartTail(s[1..]);
    }
  }

  lemma {:induction false} ParamTail(name: string, param: string)
    requires FirstParam(name, param).Some?
    ensures var value := FirstParam(name, param).value;
            (forall c :: c in value ==> c in name) && (value != [] ==> !IsSpace(value[0]))
  {
    if name[0] == ';' && AfterParam(name[1..], param).Some? {
      var t := TrimStart(name[1..]);
      var u := TrimStart(t[|param|..]);
      TrimStartTail(name[1..]);
      TrimStartTail(t[|param|..]);
      TrimStartTail(u[1..]);
    } else {
      ParamTail(name[1..], param);
    }
  }

  /** What is read at a value that the closing quote of the name cuts short. */
  lemma CutValue(value: string)
    requires value != [] ==> !IsSpace(value[0]) && value[0] != '"'
    ensures ParamValue(value + QUOTE).None? <==> value != [] && value[0] == ';'
  {
    var s := value + QUOTE;
    if value == [] {
      assert s == QUOTE && s[1..] == [];
    }
    assert Bare(s) == [] <==> s[0] == ';' || IsSpace(s[0]);
  }

  /** A text field stays a text field exactly when its name does not hide a `filename` parameter. */
  lemma FieldStaysField(name: Buffer)
    requires IsFrameable(name)
    ensures DispositionParam(Disposition(name, []), FILENAME).None? <==> !HidesFilename(name)
  {
    hide Disposition, ParamValue, FirstParam;
    FindsFilename(name, []);
    assert QUOTE + [] == QUOTE;
    NoParamInQuote();
    var found := FirstParam(name, FILENAME);
    if found.Some? {
      ParamTail(name, FILENAME);
      if found.value != [] {
        assert found.value[0] in found.value;
      }
      CutValue(found.value);
    }
  }

  lemma NoParamInQuote()
    ensures FirstParam(QUOTE, FILENAME).None?
  {
    assert QUOTE[1..] == [];
  }

  /**
   * What the file part asks of its name: no parameter that reads as `filename` in front of the real one, or one whose
   * value happens to be `upload` and ends inside the name.
   */
  predicate KeepsUpload(name: Buffer) {
    match FirstParam(name, FILENAME)
    case None => true
    case Some(value) => Bare(value) == UPLOAD && |value| > |UPLOAD|
  }

  lemma {:induction false} BareBefore(value: string, rest: string)
    ensures Bare(value + rest) == if |Bare(value)| < |value| then Bare(value) else value + Bare(rest)
  {
    if value == [] {
      assert value + rest == rest;
    } else {
      assert (value + rest)[1..] == value[1..] + rest;
      BareBefore(value[1..], rest);
      assert [value[0]] + value[1..] == value;
    }
  }

  /** A hidden value runs into the closing quote of the name, unless a space or a semicolon ends it before. */
  lemma HiddenValue(value: string, tail: string)
    requires value != [] && '"' !in value && !IsSpace(value[0])
    ensures ParamValue(value + (QUOTE + tail)).None? <==> value[0] == ';'
    ensures ParamValue(value + (QUOTE + tail)) == Some(UPLOAD) <==> Bare(value) == UPLOAD && |value| > |UPLOAD|
  {
    var s := value + (QUOTE + tail);
    BareBefore(value, QUOTE + tail);
    UploadHasNoQuote();
    hide UPLOAD;
    assert (QUOTE + tail)[0] == '"' && s[0] == value[0] && value[0] in value;
    if |Bare(value)| == |value| {
      assert Bare(QUOTE + tail)[0] == '"';
      assert Bare(s)[|value|] == '"' && '"' in Bare(s);
    }
  }

  lemma UploadHasNoQuote()
    ensures UPLOAD != [] && '"' !in UPLOAD
  {
  }

  /** The real `filename` parameter is read as it is. */
  lemma ReadsUpload()
    ensures ParamValue(Quote(UPLOAD)) == Some(UPLOAD)
  {
    hide Quoted, UPLOAD;
    UploadHasNoQuote();
    NoBackslashInUpload();
    QuotedPlain(UPLOAD, []);
    assert QUOTE + [] == QUOTE;
    assert Quote(UPLOAD)[1..] == UPLOAD + QUOTE;
  }

  lemma NoBackslashInUpload()
    ensures '\\' !in UPLOAD
  {
  }

  /** Right after a name that ends in `filename=`, the quote of the name opens a value that ends at the next quote. */
  lemma OpenedByQuote()
    ensures ParamValue(QUOTE + UPLOAD_PARAM).Some? && ParamValue(QUOTE + UPLOAD_PARAM) != Some(UPLOAD)
  {
    var stretch := [';'] + ([' '] + (FILENAME + ['=']));
    assert UPLOAD_PARAM == stretch + (QUOTE + (UPLOAD + QUOTE));
    assert '"' !in stretch && '\\' !in stretch && stretch[0] == ';' && UPLOAD[0] == 'u';
    hide Quoted, FILENAME, UPLOAD;
    QuotedPlain(stretch, UPLOAD + QUOTE);
    assert (QUOTE + UPLOAD_PARAM)[1..] == UPLOAD_PARAM;
  }

  /**
   * The file part stays a file exactly when its name does not hide an empty `filename`, and its file is called
   * `upload` exactly when the name keeps it so.
   */
  lemma FileStaysFile(name: Buffer)
    requires IsFrameable(name)
    ensures DispositionParam(Disposition(name, UPLOAD_PARAM), FILENAME).Some? <==> FirstParam(name, FILENAME).None? || HidesFilename(name)
    ensures DispositionParam(Disposition(name, UPLOAD_PARAM), FILENAME) == Some(UPLOAD) <==> KeepsUpload(name)
  {
    hide Disposition, FirstParam, Quoted, ParamText, UPLOAD_PARAM, ParamValue, UPLOAD, Bare;
    FindsFilename(name, UPLOAD_PARAM);
    match FirstParam(name, FILENAME) {
      case None =>
        RealFilename();
        ReadsUpload();
      case Some(value) =>
        ParamTail(name, FILENAME);
        OpenedByQuote();
        if value == [] {
          assert value + (QUOTE + UPLOAD_PARAM) == QUOTE + UPLOAD_PARAM;
          NothingIsBare();
        } else {
          HiddenValue(value, UPLOAD_PARAM);
        }
    }
  }

  lemma NothingIsBare()
    ensures Bare([]) == [] && UPLOAD != []
  {
  }

  lemma RealFilename()
    ensures FirstParam(QUOTE + UPLOAD_PARAM, FILENAME) == Some(Quote(UPLOAD))
  {
    hide FirstParam, ParamText, UPLOAD;
    Names();
    FindsParam(QUOTE, FILENAME, Quote(UPLOAD));
  }

  // ── Every name that is read ─────────────────────────────────────

  function Backslashes(s: string): nat {
    if s == [] then 0 else (if s[0] == '\\' then 1 else 0) + Backslashes(s[1..])
  }

  lemma {:induction false} SomeBackslash(s: string)
    ensures Backslashes(s) == 0 <==> '\\' !in s
  {
    if s != [] {
      SomeBackslash(s[1..]);
      assert s == [s[0]] + s[1..];
    }
  }

  /** A quoted name loses a backslash for every escape, and nothing else; or the closing quote was itself escaped. */
  lemma {:induction false} QuotedLoses(name: string, tail: string)
    requires '"' !in name
    ensures match Quoted(name + (QUOTE + tail))
            case None => true
            case Some(q) => '"' in q || (Backslashes(q) <= Backslashes(name) && (Backslashes(q) == Backslashes(name) ==> Backslashes(name) == 0))
    decreases |name|
  {
    var s := name + (QUOTE + tail);
    if name == [] {
      assert s[0] == '"';
    } else {
      assert name[0] in name;
      if name[0] != '\\' {
        assert s[1..] == name[1..] + (QUOTE + tail);
        QuotedLoses(name[1..], tail);
        PrependLoses(name[0], Quoted(name[1..] + (QUOTE + tail)));
      } else if |name| > 1 {
        assert s[2..] == name[2..] + (QUOTE + tail) && s[1] == name[1] && name[1] in name;
        QuotedLoses(name[2..], tail);
        PrependLoses(name[1], Quoted(name[2..] + (QUOTE + tail)));
        assert name[1..][1..] == name[2..] && name[1..][0] == name[1];
      } else {
        assert s[1] == '"';
        PrependLoses('"', Quoted(s[2..]));
      }
    }
  }

  lemma PrependLoses(c: char, rest: Option<string>)
    ensures rest.Some? ==>
              var q := Prepend(c, rest).value;
              Backslashes(q) == (if c == '\\' then 1 else 0) + Backslashes(rest.value) && ('"' in q <==> c == '"' || '"' in rest.value)
  {
    if rest.Some? {
      assert ([c] + rest.value)[1..] == rest.value;
    }
  }

  /**
   * Whatever a name, some name is read. It holds a quote, or it has fewer backslashes than the one that was sent, or it
   * is the very name.
   */
  lemma NameRead(name: Buffer, tail: Buffer)
    requires IsFrameable(name)
    ensures var q := DispositionParam(Disposition(name, tail), NAME);
            && q.Some?
            && ('"' in q.value || Backslashes(q.value) < Backslashes(name) || ('\\' !in name && q.value == name))
  {
    hide FirstParam, Disposition, Quoted;
    FindsName(name, tail);
    var value := QUOTE + (name + (QUOTE + tail));
    assert value[1..] == name + (QUOTE + tail);
    QuotedLoses(name, tail);
    SomeBackslash(name);
    assert Bare(value)[0] == '"' && '"' in Bare(value);
    if '\\' !in name {
      QuotedPlain(name, tail);
    }
  }

  // ── Header blocks ───────────────────────────────────────────────

  lemma OneLine(line: Buffer)
    requires CR !in line
    ensures Lines(line) == [line]
  {
    hide IndexOf;
    forall i: nat ensures !Matches(line, CRLF, i) {
      if i < |line| {
        assert line[i] in line;
      }
      MismatchAt(line, CRLF, i, 0);
    }
    IndexOfIsNone(line, CRLF, 0);
  }

  lemma TwoLines(line: Buffer, rest: Buffer)
    requires CR !in line && CR !in rest
    ensures Lines(line + (CRLF + rest)) == [line, rest]
  {
    hide IndexOf;
    var block := line + (CRLF + rest);
    forall i: nat | i < |line| ensures !Matches(block, CRLF, i) {
      assert line[i] in line;
      MismatchAt(block, CRLF, i, 0);
    }
    IndexOfIs(block, CRLF, 0, |line|);
    assert block[..|line|] == line && block[|line| + 2..] == rest;
    OneLine(rest);
  }

  /** `Name: value` */
  lemma ReadsLine(name: string, value: string, wanted: string)
    requires name != [] && ':' !in name
    ensures LineValue(HeaderLine(name, value), wanted)
         == if ToLower(Trim(name)) == wanted then Some(Trim([' '] + value)) else None
  {
    hide Trim, ToLower;
    var line := HeaderLine(name, value);
    forall i | 0 <= i < |name| ensures line[i] != ':' {
      assert name[i] in name;
    }
    FindIs(line, ':', |name|);
    assert line[..|name|] == name && line[|name| + 1..] == [' '] + value;
  }

  lemma HeaderNames()
    ensures CONTENT_DISPOSITION != [] && ':' !in CONTENT_DISPOSITION
    ensures CONTENT_TYPE != [] && ':' !in CONTENT_TYPE
    ensures DISPOSITION_KEY != TYPE_KEY
    ensures CR !in CONTENT_DISPOSITION && CR !in CONTENT_TYPE && CR !in FORM_DATA && CR !in NAME && CR !in FILENAME
    ensures CR !in UPLOAD
  {
    assert |DISPOSITION_KEY| == 19 && |TYPE_KEY| == 12;
  }

  predicate IsLower(s: string) {
    forall i :: 0 <= i < |s| ==> Lower(s[i]) == s[i]
  }

  lemma LowerCapitals(first: char, rest: string, second: char, last: string)
    requires IsLower(rest) && IsLower(last)
    ensures ToLower([first] + (rest + ([second] + last))) == [Lower(first)] + (rest + ([Lower(second)] + last))
  {
  }

  const ONTENT := "ontent-"
  const ISPOSITION := "isposition"
  const YPE := "ype"

  lemma LowerParts()
    ensures IsLower(ONTENT) && IsLower(ISPOSITION) && IsLower(YPE)
    ensures Lower('C') == 'c' && Lower('D') == 'd' && Lower('T') == 't'
  {
  }

  lemma SpellDisposition()
    ensures CONTENT_DISPOSITION == ['C'] + (ONTENT + (['D'] + ISPOSITION))
    ensures DISPOSITION_KEY == ['c'] + (ONTENT + (['d'] + ISPOSITION))
  {
  }

  lemma SpellType()
    ensures CONTENT_TYPE == ['C'] + (ONTENT + (['T'] + YPE))
    ensures TYPE_KEY == ['c'] + (ONTENT + (['t'] + YPE))
  {
  }

  lemma TrimNames()
    ensures Trim(CONTENT_DISPOSITION) == CONTENT_DISPOSITION && Trim(CONTENT_TYPE) == CONTENT_TYPE
  {
    hide Trim;
    TrimTrimmed(CONTENT_DISPOSITION);
    TrimTrimmed(CONTENT_TYPE);
  }

  lemma LowerDisposition()
    ensures ToLower(Trim(CONTENT_DISPOSITION)) == DISPOSITION_KEY
  {
    hide *;
    TrimNames();
    LowerParts();
    SpellDisposition();
    LowerCapitals('C', ONTENT, 'D', ISPOSITION);
  }

  lemma LowerType()
    ensures ToLower(Trim(CONTENT_TYPE)) == TYPE_KEY
  {
    hide *;
    TrimNames();
    LowerParts();
    SpellType();
    LowerCapitals('C', ONTENT, 'T', YPE);
  }

  // ── The two header blocks ───────────────────────────────────────

  lemma DispositionEnds(name: Buffer, tail: Buffer)
    requires tail == [] || tail[|tail| - 1] == '"'
    ensures Trim([' '] + Disposition(name, tail)) == Disposition(name, tail)
  {
    hide Trim, FORM_DATA, NAME;
    var text := Disposition(name, tail);
    FormData();
    assert text[0] == FORM_DATA[0];
    assert text[|text| - 1] == '"';
    TrimTrimmed(text);
  }

  lemma FormData()
    ensures FORM_DATA != [] && FORM_DATA[0] == 'f'
  {
  }

  lemma UploadEnds()
    ensures UPLOAD_PARAM != [] && UPLOAD_PARAM[|UPLOAD_PARAM| - 1] == '"' && CR !in UPLOAD_PARAM
  {
    hide FILENAME, UPLOAD;
    HeaderNames();
  }

  lemma NoLineBreak(name: Buffer, tail: Buffer)
    requires IsFrameable(name) && CR !in tail
    ensures CR !in HeaderLine(CONTENT_DISPOSITION, Disposition(name, tail))
  {
    hide CONTENT_DISPOSITION, FORM_DATA, NAME;
    HeaderNames();
  }

  lemma FirstOfTwo(line: string, rest: string, name: string)
    ensures FirstValue([line], name) == LineValue(line, name)
    ensures FirstValue([line, rest], name)
         == if LineValue(line, name).Some? then LineValue(line, name) else LineValue(rest, name)
  {
    hide LineValue;
    assert [line][1..] == [];
    assert [line, rest][1..] == [rest];
    assert [rest][1..] == [];
  }

  lemma ReadsDisposition(name: Buffer, tail: Buffer)
    requires IsFrameable(name)
    requires tail == [] || tail[|tail| - 1] == '"'
    ensures var line := HeaderLine(CONTENT_DISPOSITION, Disposition(name, tail));
            LineValue(line, DISPOSITION_KEY) == Some(Disposition(name, tail)) && LineValue(line, TYPE_KEY).None?
  {
    hide *;
    HeaderNames();
    LowerDisposition();
    DispositionEnds(name, tail);
    ReadsLine(CONTENT_DISPOSITION, Disposition(name, tail), DISPOSITION_KEY);
    ReadsLine(CONTENT_DISPOSITION, Disposition(name, tail), TYPE_KEY);
  }

  lemma ReadsFieldHead(name: Buffer)
    requires IsFrameable(name)
    ensures HeaderValue(FieldHead(name), DISPOSITION_KEY) == Some(Disposition(name, []))
    ensures HeaderValue(FieldHead(name), TYPE_KEY) == None
  {
    hide LineValue, FirstValue, Lines, Disposition, HeaderLine;
    NoLineBreak(name, []);
    OneLine(FieldHead(name));
    ReadsDisposition(name, []);
    FirstOfTwo(FieldHead(name), [], DISPOSITION_KEY);
    FirstOfTwo(FieldHead(name), [], TYPE_KEY);
  }

  lemma ReadsFileHead(name: Buffer, contentType: Buffer)
    requires IsFrameable(name) && CR !in contentType
    ensures HeaderValue(FileHead(name, contentType), DISPOSITION_KEY) == Some(Disposition(name, UPLOAD_PARAM))
    ensures HeaderValue(FileHead(name, contentType), TYPE_KEY) == Some(Trim([' '] + contentType))
  {
    hide LineValue, FirstValue, Lines, Disposition, HeaderLine, Trim, ToLower, UPLOAD_PARAM;
    var line := HeaderLine(CONTENT_DISPOSITION, Disposition(name, UPLOAD_PARAM));
    var rest := HeaderLine(CONTENT_TYPE, contentType);
    UploadEnds();
    NoLineBreak(name, UPLOAD_PARAM);
    NoLineBreakInType(contentType);
    TwoLines(line, rest);
    ReadsDisposition(name, UPLOAD_PARAM);
    HeaderNames();
    LowerType();
    ReadsLine(CONTENT_TYPE, contentType, TYPE_KEY);
    FirstOfTwo(line, rest, DISPOSITION_KEY);
    FirstOfTwo(line, rest, TYPE_KEY);
  }

  lemma NoLineBreakInType(contentType: Buffer)
    requires CR !in contentType
    ensures CR !in HeaderLine(CONTENT_TYPE, contentType)
  {
    hide CONTENT_TYPE;
    HeaderNames();
  }

  /** A content type that is its own media type is read back whole. */
  lemma TypeReadBack(contentType: Buffer)
    requires MediaType(Some(contentType)) == contentType
    ensures MediaType(Some(Trim([' '] + contentType))) == contentType
  {
    hide Split, Trim, TrimStart;
    SplitHead(contentType, ';');
    TrimIsTight(Split(contentType, ';')[0]);
    TrimTrimmed(contentType);
  }

  lemma SplitHead(s: string, c: char)
    ensures |Split(s, c)[0]| <= |s| && (|Split(s, c)[0]| == |s| ==> Split(s, c)[0] == s)
  {
  }

  lemma TrimIsTight(s: string)
    ensures |Trim(s)| <= |s|
    ensures |Trim(s)| == |s| ==> s == [] || (!IsSpace(s[0]) && !IsSpace(s[|s| - 1]))
  {
    if |Trim(s)| == |s| {
      assert TrimStart(s) == s;
      assert TrimEnd(s) == s;
    }
  }
}
