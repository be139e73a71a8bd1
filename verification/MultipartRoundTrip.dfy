/**
 * Parsing a built body whose names come through its headers: the exact condition under which the fields and the file
 * come back as they were given.
 */
module MultipartRoundTrip {
  import opened Wrappers
  import opened Scanning
  import Utf8
  import opened MultipartHeaders
  import opened MultipartParser
  import opened MultipartFraming
  import opened MultipartNames
  import opened MultipartBuilder
  import opened MultipartBoundary

  function AddFields(form: map<string, string>, fields: Fields): map<string, string>
    decreases |fields|
  {
    if fields == [] then form else AddFields(form[fields[0].0 := fields[0].1], fields[1..])
  }

  function FileOf(file: FormFile): MultipartFile {
    MultipartFile(file.fieldName, UPLOAD, file.contentType, file.bytes)
  }

  /** The form a round trip should end in, starting from what was already read. */
  function Grown(form: MultipartForm, fields: Fields, file: FormFile): MultipartForm {
    MultipartForm(AddFields(form.fields, fields), form.files + [FileOf(file)])
  }

  /** A value the parser cannot return: too long, or beginning with the boundary line. */
  predicate ValueSurvives(boundary: string, value: string, limits: MultipartLimits) {
    |Utf8.Encode(value)| <= limits.maxFieldBytes && !StartsWith(value, DashBoundary(boundary))
  }

  predicate Survives(boundary: string, fields: Fields, parts: nat, files: nat, limits: MultipartLimits) {
    && parts + |fields| + 1 <= limits.maxParts
    && files + 1 <= limits.maxFiles
    && forall i :: 0 <= i < |fields| ==> ValueSurvives(boundary, fields[i].1, limits)
  }

  /** A name that comes through a header as it is, and leaves the part a text field. */
  predicate SurvivesHeader(name: string) {
    Utf8.IsAscii(name) && '\\' !in name && !HidesFilename(name)
  }

  /** What the round trip asks of the names of fields. */
  predicate NamesSurvive(fields: Fields) {
    DistinctNames(fields) && forall i :: 0 <= i < |fields| ==> SurvivesHeader(fields[i].0)
  }

  /** And of the file: a name that comes through and keeps the file's, a content type that is read as it is. */
  predicate FileSurvives(file: FormFile) {
    && Utf8.IsAscii(file.fieldName) && '\\' !in file.fieldName && KeepsUpload(file.fieldName)
    && MediaType(Some(Trim([' '] + Utf8.Encode(file.contentType)))) == file.contentType
  }

  // ── Small facts about what is on the wire ───────────────────────

  lemma DelimiterShape(boundary: string)
    requires CR !in boundary
    ensures IsDelimiter(DelimiterOf(boundary)) && DelimiterOf(boundary)[2..] == DashBoundary(boundary)
  {
    var d := DelimiterOf(boundary);
    assert d == CRLF + DashBoundary(boundary);
    forall i | 4 <= i < |d| ensures d[i] != CR {
      assert d[i] == boundary[i - 4] && boundary[i - 4] in boundary;
    }
  }

  lemma {:induction false} EncodedPrefix(value: string, prefix: string)
    requires Utf8.IsAscii(prefix)
    ensures Matches(Utf8.Encode(value), prefix, 0) <==> StartsWith(value, prefix)
  {
    var bytes := Utf8.Encode(value);
    if prefix == [] {
      assert value[..0] == [];
    } else if value != [] {
      if bytes[0] == prefix[0] {
        assert value[0] == prefix[0];
        assert bytes == [value[0]] + Utf8.Encode(value[1..]);
        assert bytes[1..] == Utf8.Encode(value[1..]);
        EncodedPrefix(value[1..], prefix[1..]);
        PrefixByHead(bytes, prefix);
        StartsByHead(value, prefix);
      } else {
        MismatchAt(bytes, prefix, 0, 0);
        assert value[0] != prefix[0];
        StartsByHead(value, prefix);
      }
    }
  }

  lemma PrefixByHead(bytes: Buffer, prefix: string)
    requires bytes != [] && prefix != [] && bytes[0] == prefix[0]
    ensures Matches(bytes, prefix, 0) <==> Matches(bytes[1..], prefix[1..], 0)
  {
    if Matches(bytes[1..], prefix[1..], 0) {
      forall j | 0 <= j < |prefix| ensures bytes[j] == prefix[j] {
        if j > 0 {
          assert bytes[1..][0 + (j - 1)] == prefix[1..][j - 1];
        }
      }
    }
    if Matches(bytes, prefix, 0) {
      forall j | 0 <= j < |prefix[1..]| ensures bytes[1..][0 + j] == prefix[1..][j] {
        assert bytes[0 + (j + 1)] == prefix[j + 1];
      }
    }
  }

  lemma StartsByHead(value: string, prefix: string)
    requires value != [] && prefix != []
    ensures StartsWith(value, prefix) <==> value[0] == prefix[0] && StartsWith(value[1..], prefix[1..])
  {
    if |prefix| <= |value| {
      assert value[1..][..|prefix| - 1] == value[..|prefix|][1..];
      assert value[..|prefix|] == [value[0]] + value[..|prefix|][1..];
      assert prefix == [prefix[0]] + prefix[1..];
    }
  }

  lemma ValueIsContent(value: string, boundary: string)
    requires CR !in boundary && Utf8.IsAscii(boundary) && CR !in value
    ensures IsDelimiter(DelimiterOf(boundary))
    ensures StartsWith(value, DashBoundary(boundary)) <==> Matches(Utf8.Encode(value), DelimiterOf(boundary)[2..], 0)
    ensures !StartsWith(value, DashBoundary(boundary)) ==> IsContent(Utf8.Encode(value), DelimiterOf(boundary))
  {
    hide Utf8.Encode, StartsWith, DelimiterOf;
    DelimiterShape(boundary);
    EncodedPrefix(value, DashBoundary(boundary));
    Utf8.EncodeTransparent(value, CR);
    var content, d := Utf8.Encode(value), DelimiterOf(boundary);
    forall k: nat | k < |content| ensures !Matches(content, d, k) {
      assert content[k] in content;
      MismatchAt(content, d, k, 0);
    }
  }

  lemma BytesAreContent(bytes: Buffer, boundary: string)
    requires CR !in boundary && Utf8.IsAscii(boundary)
    requires IndexOf(bytes, Utf8.Encode(DashBoundary(boundary)), 0).None?
    ensures IsDelimiter(DelimiterOf(boundary)) && IsContent(bytes, DelimiterOf(boundary))
  {
    hide IndexOf, Utf8.Encode;
    DelimiterShape(boundary);
    Utf8.EncodeAscii(DashBoundary(boundary));
    var d := DelimiterOf(boundary);
    IndexOfIsFirst(bytes, d[2..], 0, 0);
    forall k: nat | k < |bytes| ensures !Matches(bytes, d, k) {
      IndexOfIsFirst(bytes, d[2..], 0, k + 2);
      BoundaryOfDelimiter(bytes, d, k);
    }
  }

  lemma FieldHeadIsBlock(name: Buffer)
    requires IsFrameable(name)
    ensures IsHeaderBlock(FieldHead(name))
  {
    hide HeaderLine, Disposition;
    NoLineBreak(name, []);
    var head := FieldHead(name);
    forall i | 0 <= i < |head| ensures head[i] != CR {
      assert head[i] in head;
    }
  }

  lemma FileHeadIsBlock(name: Buffer, contentType: Buffer)
    requires IsFrameable(name) && CR !in contentType
    ensures IsHeaderBlock(FileHead(name, contentType))
  {
    hide HeaderLine, Disposition, UPLOAD_PARAM;
    UploadEnds();
    NoLineBreak(name, UPLOAD_PARAM);
    NoLineBreakInType(contentType);
    var line := HeaderLine(CONTENT_DISPOSITION, Disposition(name, UPLOAD_PARAM));
    var rest := HeaderLine(CONTENT_TYPE, contentType);
    TypeLineStarts(contentType);
    var head := FileHead(name, contentType);
    NowhereIn(line);
    NowhereIn(rest);
    forall i | 0 <= i < |head| && i != |line| ensures head[i] != CR {
      if i < |line| {
        assert head[i] == line[i];
      } else if |line| + 2 <= i {
        assert head[i] == rest[i - |line| - 2];
      }
    }
    assert head[|line| + 2] == rest[0];
  }

  lemma NowhereIn(s: Buffer)
    requires CR !in s
    ensures forall i :: 0 <= i < |s| ==> s[i] != CR
  {
    forall i | 0 <= i < |s| ensures s[i] != CR {
      assert s[i] in s;
    }
  }

  lemma TypeLineStarts(contentType: Buffer)
    ensures |HeaderLine(CONTENT_TYPE, contentType)| > 0 && HeaderLine(CONTENT_TYPE, contentType)[0] == 'C'
  {
  }

  // ── Reading one part back ───────────────────────────────────────

  lemma ReadsField(name: Buffer, content: Buffer, form: MultipartForm, limits: MultipartLimits)
    requires IsFrameable(name) && SurvivesHeader(name) && name !in form.fields
    ensures ReadPart(FieldHead(name), content, form, limits)
         == if |content| > limits.maxFieldBytes then Err(FieldTooLarge(name))
            else Ok(form.(fields := form.fields[name := Utf8.Decode(content)]))
  {
    hide HeaderValue, DispositionParam, FieldHead, Disposition, Utf8.Decode, HidesFilename;
    ReadsFieldHead(name);
    NameReadBack(name, []);
    FieldStaysField(name);
  }

  lemma ReadsFile(file: FormFile, form: MultipartForm, limits: MultipartLimits)
    requires IsFrameable(file.fieldName) && CR !in file.contentType && FileSurvives(file)
    ensures ReadPart(FileHead(file.fieldName, Utf8.Encode(file.contentType)), file.bytes, form, limits)
         == if |form.files| + 1 > limits.maxFiles then Err(MalformedMultipart(TooManyFiles))
            else Ok(form.(files := form.files + [FileOf(file)]))
  {
    hide HeaderValue, DispositionParam, FileHead, Disposition, FirstParam, MediaType, UPLOAD_PARAM, Utf8.Encode,
         KeepsUpload;
    Utf8.EncodeTransparent(file.contentType, CR);
    ReadsFileHead(file.fieldName, Utf8.Encode(file.contentType));
    NameReadBack(file.fieldName, UPLOAD_PARAM);
    FileStaysFile(file.fieldName);
  }

  // ── The walk over the wire ──────────────────────────────────────

  lemma {:induction false} AddFieldsKeeps(form: map<string, string>, fields: Fields, name: string)
    requires forall i :: 0 <= i < |fields| ==> fields[i].0 != name
    requires name in form
    ensures name in AddFields(form, fields) && AddFields(form, fields)[name] == form[name]
    decreases |fields|
  {
    if fields != [] {
      AddFieldsKeeps(form[fields[0].0 := fields[0].1], fields[1..], name);
    }
  }

  /** First occurrence wins: what a field holds is never replaced by a later part. */
  lemma {:induction false} WalkKeepsFields(scan: Buffer, delimiter: string, cursor: nat, parts: nat,
      form: MultipartForm, limits: MultipartLimits, name: string)
    requires Matches(scan, delimiter, cursor) && |delimiter| > 0
    requires name in form.fields
    ensures var r := ParseFrom(scan, delimiter, cursor, parts, form, limits);
            r.Ok? ==> name in r.value.form.fields && r.value.form.fields[name] == form.fields[name]
    decreases |scan| - cursor
  {
    hide FrameAt, HeaderValue, DispositionParam, MediaType, Utf8.Decode;
    var frame := FrameAt(scan, delimiter, cursor, parts + 1 <= limits.maxParts);
    if frame.Part? {
      var read := ReadPart(frame.header, frame.content, form, limits);
      if read.Ok? {
        WalkKeepsFields(scan, delimiter, frame.next, parts + 1, read.value, limits, name);
      }
    }
  }

  lemma WireStarts(boundary: string, fields: Fields, file: FormFile)
    requires CR !in boundary
    ensures IsDelimiter(DelimiterOf(boundary))
    ensures Matches(Wire(DelimiterOf(boundary), fields, file), DelimiterOf(boundary), 0)
  {
    hide Framed, FieldHead, FileHead, Utf8.Encode, DelimiterOf;
    DelimiterShape(boundary);
  }

  /** One step of the walk: what the frame at the cursor holds, and what is left after it. */
  lemma StepAfterLine(d: string, line: Buffer, framed: Buffer, frame: Frame, rest: Buffer, parts: nat,
      form: MultipartForm,
      limits: MultipartLimits)
    requires IsDelimiter(d) && CR !in line && IsPadding(line) && !StartsWith(line, DASH_DASH)
    requires frame.Part? && FramePart(framed, d, 0, true) == frame
    requires frame.next <= |framed| && framed[frame.next..] == rest && Matches(rest, d, 0)
    ensures Matches(d + (line + (CRLF + framed)), d, 0)
    ensures FormOf(ParseFrom(d + (line + (CRLF + framed)), d, 0, parts, form, limits))
         == if parts + 1 > limits.maxParts then Err(MalformedMultipart(TooManyParts))
            else match ReadPart(frame.header, frame.content, form, limits)
                 case Err(error) => Err(error)
                 case Ok(grown) => FormOf(ParseFrom(rest, d, 0, parts + 1, grown, limits))
  {
    hide ReadPart, FrameAt, FramePart, StartsWith, IsPadding, Matches, IsDelimiter;
    var scan := d + (line + (CRLF + framed));
    var room := parts + 1 <= limits.maxParts;
    DelimiterNotEmpty(d);
    FramesAfterLine(d, line, framed, room);
    RefusesWithoutRoom(framed, d);
    if room {
      var read := ReadPart(frame.header, frame.content, form, limits);
      if read.Ok? {
        StepsBehindLine(d, line, framed, frame.next, parts, read.value, limits);
      }
    }
  }

  lemma StepsBehindLine(d: string, line: Buffer, framed: Buffer, n: nat, parts: nat, form: MultipartForm,
      limits: MultipartLimits)
    requires |d| > 0 && n <= |framed| && Matches(framed[n..], d, 0)
    ensures var scan, k := d + (line + (CRLF + framed)), |d| + |line| + 2 + n;
            && Matches(scan, d, k)
            && FormOf(ParseFrom(scan, d, k, parts + 1, form, limits)) == FormOf(ParseFrom(framed[n..], d, 0, parts + 1, form, limits))
  {
    hide Matches, ParseFrom;
    var scan, k := d + (line + (CRLF + framed)), |d| + |line| + 2 + n;
    BehindLine(d, line, framed, n);
    MatchesShifted(scan, k, d, 0);
    WalkShifted(scan, k, d, 0, parts + 1, form, limits);
  }

  lemma BehindLine(d: string, line: Buffer, framed: Buffer, n: nat)
    requires n <= |framed|
    ensures |d| + |line| + 2 + n <= |d + (line + (CRLF + framed))|
    ensures (d + (line + (CRLF + framed)))[|d| + |line| + 2 + n..] == framed[n..]
  {
  }

  lemma PlainLine(d: string, framed: Buffer)
    ensures d + ([] + (CRLF + framed)) == d + CRLF + framed
  {
  }

  lemma StepAfter(d: string, framed: Buffer, frame: Frame, rest: Buffer, parts: nat, form: MultipartForm,
      limits: MultipartLimits)
    requires IsDelimiter(d)
    requires frame.Part? && FramePart(framed, d, 0, true) == frame
    requires frame.next <= |framed| && framed[frame.next..] == rest && Matches(rest, d, 0)
    ensures Matches(d + CRLF + framed, d, 0)
    ensures FormOf(ParseFrom(d + CRLF + framed, d, 0, parts, form, limits))
         == if parts + 1 > limits.maxParts then Err(MalformedMultipart(TooManyParts))
            else match ReadPart(frame.header, frame.content, form, limits)
                 case Err(error) => Err(error)
                 case Ok(grown) => FormOf(ParseFrom(rest, d, 0, parts + 1, grown, limits))
  {
    PlainLine(d, framed);
    hide ReadPart, FramePart, ParseFrom, IsDelimiter;
    StepAfterLine(d, [], framed, frame, rest, parts, form, limits);
  }

  lemma RefusesWithoutRoom(framed: Buffer, d: string)
    requires FramePart(framed, d, 0, true).Part?
    ensures FramePart(framed, d, 0, false) == Refused(TooManyParts)
  {
  }

  /** Everything the builder accepted, and everything the theorem asks of names. */
  predicate Framable(boundary: string, fields: Fields, file: FormFile) {
    && CR !in boundary && Utf8.IsAscii(boundary)
    && NamesSurvive(fields) && FileSurvives(file)
    && FirstRefusal(boundary, fields, file).None?
  }

  lemma ClosingAt(boundary: string, parts: nat, form: MultipartForm, limits: MultipartLimits)
    requires CR !in boundary
    ensures var rest := DelimiterOf(boundary) + (DASH_DASH + CRLF);
            && Matches(rest, DelimiterOf(boundary), 0)
            && FormOf(ParseFrom(rest, DelimiterOf(boundary), 0, parts, form, limits)) == Ok(form)
  {
    hide DelimiterOf, FrameLine;
    var d := DelimiterOf(boundary);
    var rest := d + (DASH_DASH + CRLF);
    assert Matches(rest, DASH_DASH, |d|);
  }

  lemma FileNameIsAscii(file: FormFile)
    requires FileSurvives(file)
    ensures Utf8.Encode(file.fieldName) == file.fieldName
  {
    Utf8.EncodeAscii(file.fieldName);
  }

  lemma FieldNameIsAscii(name: string)
    requires SurvivesHeader(name)
    ensures Utf8.Encode(name) == name
  {
    Utf8.EncodeAscii(name);
  }

  /** The last part, whatever its head: it is read, and then the body ends. */
  lemma LastPart(boundary: string, line: Buffer, head: Buffer, bytes: Buffer, parts: nat, form: MultipartForm,
      limits: MultipartLimits)
    requires CR !in boundary && Utf8.IsAscii(boundary) && IsHeaderBlock(head)
    requires CR !in line && IsPadding(line) && !StartsWith(line, DASH_DASH)
    requires IndexOf(bytes, Utf8.Encode(DashBoundary(boundary)), 0).None?
    ensures var d := DelimiterOf(boundary);
            var scan := d + (line + (CRLF + Framed(head, bytes, d + (DASH_DASH + CRLF))));
            && Matches(scan, d, 0)
            && FormOf(ParseFrom(scan, d, 0, parts, form, limits))
            == if parts + 1 > limits.maxParts then Err(MalformedMultipart(TooManyParts)) else ReadPart(head, bytes, form, limits)
  {
    hide Framed, ReadPart, ParseFrom, FramePart, IndexOf, IsContent, IsHeaderBlock, DelimiterOf, IsDelimiter, Utf8.Encode,
         StartsWith, IsPadding;
    var d := DelimiterOf(boundary);
    var rest := d + (DASH_DASH + CRLF);
    BytesAreContent(bytes, boundary);
    ClosingAt(boundary, parts + 1, form, limits);
    FramesContent(head, bytes, rest, d);
    FramedRest(head, bytes, rest);
    StepAfterLine(d, line, Framed(head, bytes, rest), Part(head, bytes, |head| + 4 + |bytes|), rest, parts, form, limits);
    var read := ReadPart(head, bytes, form, limits);
    if read.Ok? {
      ClosingAt(boundary, parts + 1, read.value, limits);
    }
  }

  lemma WalksFile(boundary: string, file: FormFile, parts: nat, form: MultipartForm, limits: MultipartLimits)
    requires Framable(boundary, [], file)
    ensures Matches(Wire(DelimiterOf(boundary), [], file), DelimiterOf(boundary), 0)
    ensures FormOf(ParseFrom(Wire(DelimiterOf(boundary), [], file), DelimiterOf(boundary), 0, parts, form, limits)) == Ok(Grown(form, [], file))
        <==> Survives(boundary, [], parts, |form.files|, limits)
  {
    FileNameIsAscii(file);
    Utf8.EncodeTransparent(file.contentType, CR);
    var d := DelimiterOf(boundary);
    var head := FileHead(file.fieldName, Utf8.Encode(file.contentType));
    assert Wire(d, [], file) == d + CRLF + Framed(head, file.bytes, d + (DASH_DASH + CRLF)) by { hide FileHead, Framed; }
    assert !HasLineBreak(file.contentType) && IsFrameable(file.fieldName) by { hide IsFrameable, HasLineBreak; }
    assert IndexOf(file.bytes, Utf8.Encode(DashBoundary(boundary)), 0).None? by { hide IndexOf; }
    hide FileHead, FileSurvives, Framed, ReadPart, ParseFrom, IndexOf, IsHeaderBlock, DelimiterOf, Utf8.Encode, Wire, FirstRefusal,
         Matches;
    FileHeadIsBlock(file.fieldName, Utf8.Encode(file.contentType));
    LastPart(boundary, [], head, file.bytes, parts, form, limits);
    PlainLine(d, Framed(head, file.bytes, d + (DASH_DASH + CRLF)));
    ReadsFile(file, form, limits);
  }

  lemma FramedRest(head: Buffer, content: Buffer, rest: Buffer)
    ensures |head| + 4 + |content| <= |Framed(head, content, rest)|
    ensures Framed(head, content, rest)[|head| + 4 + |content|..] == rest
  {
  }

  /** One good value: the walk reads it and goes on. */
  lemma WalksGoodField(boundary: string, fields: Fields, file: FormFile, parts: nat, form: MultipartForm,
      limits: MultipartLimits)
    requires Framable(boundary, fields, file) && fields != []
    requires fields[0].0 !in form.fields && !StartsWith(fields[0].1, DashBoundary(boundary))
    ensures var d := DelimiterOf(boundary);
            var (name, value) := fields[0];
            && Matches(Wire(d, fields, file), d, 0) && Matches(Wire(d, fields[1..], file), d, 0)
            && FormOf(ParseFrom(Wire(d, fields, file), d, 0, parts, form, limits))
            == if parts + 1 > limits.maxParts then Err(MalformedMultipart(TooManyParts))
               else if |Utf8.Encode(value)| > limits.maxFieldBytes then Err(FieldTooLarge(name))
               else FormOf(ParseFrom(Wire(d, fields[1..], file), d, 0, parts + 1, form.(fields := form.fields[name := value]), limits))
  {
    hide FieldHead, FileHead, FileSurvives, Framed, ReadPart, ParseFrom, FramePart, IndexOf, IsContent, IsHeaderBlock,
         DelimiterOf, IsDelimiter, Utf8.Encode, Utf8.Decode, Matches, StartsWith, SurvivesHeader, IsFrameable;
    var d := DelimiterOf(boundary);
    var (name, value) := fields[0];
    assert IsFrameable(name) && SurvivesHeader(name) && !FieldRefused(fields[0]);
    FieldNameIsAscii(name);
    var head, content, rest := FieldHead(name), Utf8.Encode(value), Wire(d, fields[1..], file);
    WireStarts(boundary, fields, file);
    WireStarts(boundary, fields[1..], file);
    FieldHeadIsBlock(name);
    ValueIsContent(value, boundary);
    FramesContent(head, content, rest, d);
    FramedRest(head, content, rest);
    StepAfter(d, Framed(head, content, rest), Part(head, content, |head| + 4 + |content|), rest, parts, form, limits);
    ReadsField(name, content, form, limits);
    Utf8.DecodeEncode(value);
  }

  /** One value that begins with the boundary: whatever comes of it, that field does not hold that value. */
  lemma WalksBadField(boundary: string, fields: Fields, file: FormFile, parts: nat, form: MultipartForm,
      limits: MultipartLimits)
    requires Framable(boundary, fields, file) && fields != []
    requires fields[0].0 !in form.fields && StartsWith(fields[0].1, DashBoundary(boundary))
    ensures var d := DelimiterOf(boundary);
            && Matches(Wire(d, fields, file), d, 0)
            && match FormOf(ParseFrom(Wire(d, fields, file), d, 0, parts, form, limits))
               case Err(_) => true
               case Ok(read) => fields[0].0 in read.fields && read.fields[fields[0].0] == []
  {
    hide FieldHead, FileHead, FileSurvives, ReadPart, ParseFrom, FramePart, IndexOf, IsContent, IsHeaderBlock,
         DelimiterOf, IsDelimiter, Utf8.Encode, Matches, StartsWith, SurvivesHeader, IsFrameable;
    var d := DelimiterOf(boundary);
    var (name, value) := fields[0];
    assert IsFrameable(name) && SurvivesHeader(name) && !FieldRefused(fields[0]);
    FieldNameIsAscii(name);
    var head, content := FieldHead(name), Utf8.Encode(value);
    var framed := Framed(head, content, Wire(d, fields[1..], file));
    WireStarts(boundary, fields, file);
    FieldHeadIsBlock(name);
    ValueIsContent(value, boundary);
    FramesNothing(head, content, Wire(d, fields[1..], file), d);
    var next := |head| + 2;
    var rest := framed[next..];
    FramePartEnds(framed, d);
    MatchesShifted(framed, next, d, 0);
    StepAfter(d, framed, Part(head, [], next), rest, parts, form, limits);
    ReadsField(name, [], form, limits);
    var grown := form.(fields := form.fields[name := []]);
    DelimiterNotEmpty(d);
    WalkKeepsFields(rest, d, 0, parts + 1, grown, limits, name);
  }

  lemma DelimiterNotEmpty(d: string)
    requires IsDelimiter(d)
    ensures |d| > 0
  {
  }

  lemma FramePartEnds(framed: Buffer, d: string)
    requires FramePart(framed, d, 0, true).Part?
    ensures FramePart(framed, d, 0, true).next <= |framed| && Matches(framed, d, FramePart(framed, d, 0, true).next)
  {
  }

  lemma {:induction false} WalksFields(boundary: string, fields: Fields, file: FormFile, parts: nat,
      form: MultipartForm, limits: MultipartLimits)
    requires Framable(boundary, fields, file)
    requires forall i :: 0 <= i < |fields| ==> fields[i].0 !in form.fields
    ensures Matches(Wire(DelimiterOf(boundary), fields, file), DelimiterOf(boundary), 0)
    ensures FormOf(ParseFrom(Wire(DelimiterOf(boundary), fields, file), DelimiterOf(boundary), 0, parts, form, limits))
         == Ok(Grown(form, fields, file))
        <==> Survives(boundary, fields, parts, |form.files|, limits)
    decreases |fields|
  {
    hide ParseFrom, Wire, Matches, DelimiterOf, Utf8.Encode, FileSurvives, SurvivesHeader, FieldRefused, IsFrameable,
         HasLineBreak, IndexOf, FileOf;
    if fields == [] {
      WalksFile(boundary, file, parts, form, limits);
    } else {
      var (name, value) := fields[0];
      var grown := form.(fields := form.fields[name := value]);
      if StartsWith(value, DashBoundary(boundary)) {
        WalksBadField(boundary, fields, file, parts, form, limits);
        AddFieldsKeeps(grown.fields, fields[1..], name);
      } else {
        WalksGoodField(boundary, fields, file, parts, form, limits);
        WalksFields(boundary, fields[1..], file, parts + 1, grown, limits);
        SurvivesStep(boundary, fields, parts, |form.files|, limits);
      }
    }
  }

  lemma SurvivesStep(boundary: string, fields: Fields, parts: nat, files: nat, limits: MultipartLimits)
    requires fields != []
    ensures Survives(boundary, fields, parts, files, limits)
       <==> ValueSurvives(boundary, fields[0].1, limits) && Survives(boundary, fields[1..], parts + 1, files, limits)
    ensures Survives(boundary, fields, parts, files, limits) ==> parts + 1 <= limits.maxParts
  {
    hide ValueSurvives;
    if ValueSurvives(boundary, fields[0].1, limits) && Survives(boundary, fields[1..], parts + 1, files, limits) {
      forall i | 0 <= i < |fields| ensures ValueSurvives(boundary, fields[i].1, limits) {
        if i > 0 {
          assert fields[i] == fields[1..][i - 1];
        }
      }
    }
  }

  // ── The boundary ────────────────────────────────────────────────

  lemma TokenIsBoundary(token: string)
    requires IsToken(token)
    ensures IsBoundary(BoundaryOf(token))
  {
    var boundary := BoundaryOf(token);
    forall i | 0 <= i < |boundary| ensures IsBoundaryChar(boundary[i]) {
      if i >= 5 {
        assert boundary[i] == token[i - 5];
      }
    }
  }

  lemma BoundaryIsPlain(boundary: string)
    requires IsBoundary(boundary)
    ensures CR !in boundary && Utf8.IsAscii(boundary)
  {
    BoundaryChars(boundary);
    hide IsBoundary;
  }

  lemma ContentTypeText(boundary: string)
    ensures MULTIPART + ParamText(BOUNDARY, boundary) == MULTIPART + Parameter(" ", BOUNDARY, "", "", boundary + "")
  {
    hide MULTIPART, BOUNDARY;
    assert boundary + "" == boundary;
    assert "" + (['='] + ("" + boundary)) == ['='] + boundary;
  }

  lemma BoundaryReadBack(token: string)
    requires IsToken(token)
    ensures BoundaryFrom(MULTIPART + ParamText(BOUNDARY, BoundaryOf(token))) == Ok(BoundaryOf(token))
  {
    var boundary := BoundaryOf(token);
    TokenIsBoundary(token);
    hide BoundaryFrom, IsBoundary, BoundaryOf;
    ContentTypeText(boundary);
    PlainHead();
    BoundaryIsRead(MULTIPART, " ", BOUNDARY, "", "", boundary, "");
  }

  // ── The law ─────────────────────────────────────────────────────

  /** The form is exactly what was built: the fields with their values, and the one file. */
  predicate Returns(form: MultipartForm, fields: Fields, file: FormFile) {
    && form.files == [FileOf(file)]
    && form.fields.Keys == (set i | 0 <= i < |fields| :: fields[i].0)
    && forall i :: 0 <= i < |fields| ==> fields[i].0 in form.fields && form.fields[fields[i].0] == fields[i].1
  }

  lemma {:induction false} AddFieldsHolds(form: map<string, string>, fields: Fields)
    requires DistinctNames(fields)
    ensures AddFields(form, fields).Keys == form.Keys + (set i | 0 <= i < |fields| :: fields[i].0)
    ensures forall i :: 0 <= i < |fields| ==> AddFields(form, fields)[fields[i].0] == fields[i].1
    decreases |fields|
  {
    if fields != [] {
      var grown := form[fields[0].0 := fields[0].1];
      AddFieldsHolds(grown, fields[1..]);
      AddFieldsKeeps(grown, fields[1..], fields[0].0);
      var names := set i | 0 <= i < |fields| :: fields[i].0;
      var later := set i | 0 <= i < |fields[1..]| :: fields[1..][i].0;
      assert names == {fields[0].0} + later by {
        forall i | 0 < i < |fields| ensures fields[i].0 in later {
          assert fields[i] == fields[1..][i - 1];
        }
      }
      forall i | 0 <= i < |fields| ensures AddFields(form, fields)[fields[i].0] == fields[i].1 {
        if i > 0 {
          assert fields[i] == fields[1..][i - 1];
        }
      }
    }
  }

  lemma ReturnsIs(form: MultipartForm, fields: Fields, file: FormFile)
    requires DistinctNames(fields)
    ensures Returns(form, fields, file) <==> form == Grown(EMPTY_FORM, fields, file)
  {
    hide FileOf, AddFields;
    AddFieldsHolds(map[], fields);
    var all := AddFields(map[], fields);
    if Returns(form, fields, file) {
      assert form.fields.Keys == all.Keys;
      forall name | name in form.fields ensures form.fields[name] == all[name] {
        var i :| 0 <= i < |fields| && fields[i].0 == name;
      }
      assert form.fields == all;
    }
  }

  /** Parsing a body framed with the boundary of its content type is walking its wire form. */
  lemma ParsesWire(boundary: string, contentType: string, fields: Fields, file: FormFile, limits: MultipartLimits)
    requires BoundaryFrom(contentType) == Ok(boundary) && FirstRefusal(boundary, fields, file).None?
    ensures var d := DelimiterOf(boundary);
            && |d| > 0 && Matches(Wire(d, fields, file), d, 0)
            && Parse(BodyOf(boundary, fields, file), contentType, limits)
            == FormOf(ParseFrom(Wire(d, fields, file), d, 0, 0, EMPTY_FORM, limits))
  {
    BoundaryIsPlain(boundary);
    hide Wire, DelimiterOf, BodyOf, IndexOf, Matches, BoundaryFrom, ParseFrom, FirstRefusal, IsBoundary;
    BodyOnTheWire(boundary, fields, file);
    WireStarts(boundary, fields, file);
    DelimiterNotEmpty(DelimiterOf(boundary));
    IndexOfIs(Wire(DelimiterOf(boundary), fields, file), DelimiterOf(boundary), 0, 0);
  }

  /** With names that survive, only limits and values decide. */
  lemma NamedRoundTrip(boundary: string, contentType: string, fields: Fields, file: FormFile, limits: MultipartLimits)
    requires NamesSurvive(fields) && FileSurvives(file)
    requires BoundaryFrom(contentType) == Ok(boundary) && FirstRefusal(boundary, fields, file).None?
    ensures (match Parse(BodyOf(boundary, fields, file), contentType, limits)
             case Err(_) => false
             case Ok(form) => Returns(form, fields, file))
            <==> Survives(boundary, fields, 0, 0, limits)
  {
    BoundaryIsPlain(boundary);
    assert Framable(boundary, fields, file) && DistinctNames(fields);
    hide *;
    ParsesWire(boundary, contentType, fields, file, limits);
    NothingInForm(fields);
    WalksFields(boundary, fields, file, 0, EMPTY_FORM, limits);
    var read := Parse(BodyOf(boundary, fields, file), contentType, limits);
    if read.Ok? {
      ReturnsIs(read.value, fields, file);
    }
  }

  lemma NothingInForm(fields: Fields)
    ensures (forall i :: 0 <= i < |fields| ==> fields[i].0 !in EMPTY_FORM.fields) && |EMPTY_FORM.files| == 0
  {
  }
}
