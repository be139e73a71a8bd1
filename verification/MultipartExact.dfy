/**
 * Which built bodies come back: for every field name, file name, content type and value the builder accepts, exactly
 * when the parsed form is what was built. Names that do not come through could only make up for each other by trading
 * places, and reading a name never adds a backslash and never shortens what has none.
 */
module MultipartExact {
  import opened Wrappers
  import opened Scanning
  import opened Sorting
  import Utf8
  import opened MultipartHeaders
  import opened MultipartParser
  import opened MultipartFraming
  import opened MultipartNames
  import opened MultipartBuilder
  import opened MultipartRoundTrip

  // ── What a form is made of ──────────────────────────────────────

  /** What one part can add to a form: a field, or a file. */
  datatype Item = Entry(name: string) | Upload(name: string, filename: string, contentType: string)

  function Entries(fields: map<string, string>): multiset<Item> {
    multiset(set name | name in fields :: Entry(name))
  }

  function Uploads(files: seq<MultipartFile>): multiset<Item> {
    multiset(Map((f: MultipartFile) => Upload(f.fieldName, f.filename, f.contentType), files))
  }

  function ItemsOf(form: MultipartForm): multiset<Item> {
    Entries(form.fields) + Uploads(form.files)
  }

  function NameIn(disposition: string): string {
    match DispositionParam(disposition, NAME) case None => [] case Some(name) => name
  }

  /** What a part with this disposition and content type adds, if anything. */
  function ItemFrom(disposition: string, contentType: string): Item {
    match DispositionParam(disposition, FILENAME)
    case None => Entry(NameIn(disposition))
    case Some(filename) => Upload(NameIn(disposition), filename, contentType)
  }

  lemma NewEntry(fields: map<string, string>, name: string, value: string)
    requires name !in fields
    ensures Entries(fields[name := value]) == Entries(fields) + multiset{Entry(name)}
  {
    var before, after := set n | n in fields :: Entry(n), set n | n in fields[name := value] :: Entry(n);
    assert after == before + {Entry(name)};
  }

  lemma {:induction false} MapSnoc<S(!new), T(!new)>(f: S -> T, xs: seq<S>, x: S)
    ensures Map(f, xs + [x]) == Map(f, xs) + [f(x)]
  {
  }

  lemma NewUpload(files: seq<MultipartFile>, f: MultipartFile)
    ensures Uploads(files + [f]) == Uploads(files) + multiset{Upload(f.fieldName, f.filename, f.contentType)}
  {
    MapSnoc((f: MultipartFile) => Upload(f.fieldName, f.filename, f.contentType), files, f);
  }

  /** A part that is read adds its item, or nothing. */
  lemma ReadsItem(head: Buffer, content: Buffer, form: MultipartForm, limits: MultipartLimits, disposition: string)
    requires HeaderValue(head, DISPOSITION_KEY) == Some(disposition) && DispositionParam(disposition, NAME).Some?
    ensures var read := ReadPart(head, content, form, limits);
            read.Ok? ==> ItemsOf(read.value) <= ItemsOf(form) + multiset{ItemFrom(disposition, MediaType(HeaderValue(head, TYPE_KEY)))}
  {
    hide HeaderValue, DispositionParam, MediaType, Entries, Uploads, Utf8.Decode;
    var name := DispositionParam(disposition, NAME).value;
    match DispositionParam(disposition, FILENAME) {
      case None =>
        if name !in form.fields {
          NewEntry(form.fields, name, Utf8.Decode(content));
        }
      case Some(filename) =>
        NewUpload(form.files, MultipartFile(name, filename, MediaType(HeaderValue(head, TYPE_KEY)), content));
    }
  }

  // ── The next part of a built body ───────────────────────────────

  function FieldDisposition(name: string): Buffer {
    Disposition(Utf8.Encode(name), [])
  }

  function FileDisposition(name: string): Buffer {
    Disposition(Utf8.Encode(name), UPLOAD_PARAM)
  }

  function TypeRead(contentType: string): string {
    MediaType(Some(Trim([' '] + Utf8.Encode(contentType))))
  }

  function FieldItem(name: string): Item {
    ItemFrom(FieldDisposition(name), [])
  }

  function FileItem(file: FormFile): Item {
    ItemFrom(FileDisposition(file.fieldName), TypeRead(file.contentType))
  }

  function Items(fields: Fields, file: FormFile): (r: seq<Item>)
    ensures |r| == |fields| + 1
  {
    if fields == [] then [FileItem(file)] else [FieldItem(fields[0].0)] + Items(fields[1..], file)
  }

  function HeadOf(fields: Fields, file: FormFile): Buffer {
    if fields == [] then FileHead(Utf8.Encode(file.fieldName), Utf8.Encode(file.contentType))
    else FieldHead(Utf8.Encode(fields[0].0))
  }

  function ContentOf(fields: Fields, file: FormFile): Buffer {
    if fields == [] then file.bytes else Utf8.Encode(fields[0].1)
  }

  function RestOf(d: string, fields: Fields, file: FormFile): Buffer {
    if fields == [] then d + (DASH_DASH + CRLF) else Wire(d, fields[1..], file)
  }

  /** What is framed when the walk has come to these fields; `before` is a line that ran into the header block. */
  function FramedFrom(d: string, before: Buffer, fields: Fields, file: FormFile): Buffer {
    Framed(before + HeadOf(fields, file), ContentOf(fields, file), RestOf(d, fields, file))
  }

  lemma WireIsFramed(d: string, fields: Fields, file: FormFile)
    ensures Wire(d, fields, file) == d + ([] + (CRLF + FramedFrom(d, [], fields, file)))
  {
    assert [] + HeadOf(fields, file) == HeadOf(fields, file);
    PlainLine(d, FramedFrom(d, [], fields, file));
    hide Framed, FieldHead, FileHead;
  }

  /** What the builder accepts, with any boundary. */
  predicate Accepted(boundary: string, fields: Fields, file: FormFile) {
    && CR !in boundary && Utf8.IsAscii(boundary)
    && FirstRefusal(boundary, fields, file).None?
  }

  /** A header block, or one that a boundary line ran into. */
  predicate Before(before: Buffer, boundary: string) {
    before == [] || before == DashBoundary(boundary) + CRLF
  }

  lemma EncodedIsFrameable(name: string)
    requires IsFrameable(name)
    ensures IsFrameable(Utf8.Encode(name))
  {
    Utf8.EncodeTransparent(name, CR);
    Utf8.EncodeTransparent(name, LF);
    Utf8.EncodeTransparent(name, '"');
  }

  lemma AcceptedHead(boundary: string, fields: Fields, file: FormFile)
    requires Accepted(boundary, fields, file)
    ensures fields != [] ==> IsFrameable(fields[0].0) && CR !in fields[0].1 && Accepted(boundary, fields[1..], file)
    ensures IsFrameable(file.fieldName) && CR !in file.contentType
    ensures IndexOf(file.bytes, Utf8.Encode(DashBoundary(boundary)), 0).None?
  {
    hide IndexOf, IsFrameable, Utf8.Encode;
    if fields != [] {
      assert !FieldRefused(fields[0]);
      assert forall i :: 0 <= i < |fields[1..]| ==> fields[1..][i] == fields[i + 1];
    }
  }

  lemma HeadStarts(fields: Fields, file: FormFile)
    ensures HeadOf(fields, file) != [] && HeadOf(fields, file)[0] == 'C'
  {
    hide Disposition, Utf8.Encode, UPLOAD_PARAM;
  }

  lemma HeadIsBlock(boundary: string, fields: Fields, file: FormFile)
    requires Accepted(boundary, fields, file)
    ensures IsHeaderBlock(HeadOf(fields, file))
  {
    AcceptedHead(boundary, fields, file);
    hide Accepted, FieldHead, FileHead, IsHeaderBlock, Utf8.Encode, IsFrameable, IndexOf;
    if fields == [] {
      EncodedIsFrameable(file.fieldName);
      Utf8.EncodeTransparent(file.contentType, CR);
      FileHeadIsBlock(Utf8.Encode(file.fieldName), Utf8.Encode(file.contentType));
    } else {
      EncodedIsFrameable(fields[0].0);
      FieldHeadIsBlock(Utf8.Encode(fields[0].0));
    }
  }

  /** A boundary line in front of a header block does not end it, and is no header. */
  lemma BeforeBlock(before: Buffer, boundary: string, head: Buffer)
    requires Before(before, boundary) && CR !in boundary && IsHeaderBlock(head) && head != [] && head[0] == 'C'
    ensures IsHeaderBlock(before + head)
  {
    var dash := DashBoundary(boundary);
    if before == [] {
      assert before + head == head;
    } else {
      var block := before + head;
      assert block[|dash|] == CR && block[|dash| + 2] == head[0];
      forall i | 0 <= i < |block| && block[i] == CR ensures i + 2 < |block| && block[i + 2] != CR && block[i + 2] != '-' {
        if i < |dash| {
          NoCarriageReturn(dash, boundary, i);
        } else if i >= |dash| + 2 {
          assert block[i] == head[i - |dash| - 2] && block[i + 2] == head[i - |dash|];
        }
      }
    }
  }

  lemma NoCarriageReturn(dash: Buffer, boundary: string, i: nat)
    requires dash == DashBoundary(boundary) && CR !in boundary && i < |dash|
    ensures dash[i] != CR
  {
    if i >= 2 {
      assert dash[i] == boundary[i - 2] && boundary[i - 2] in boundary;
    }
  }

  lemma BeforeHeader(before: Buffer, boundary: string, head: Buffer, key: string)
    requires Before(before, boundary) && CR !in boundary && key != [] && key[0] == 'c'
    ensures HeaderValue(before + head, key) == HeaderValue(head, key)
  {
    hide LineValue;
    if before == [] {
      assert before + head == head;
    } else {
      var dash := DashBoundary(boundary);
      LinesAfter(dash, boundary, head);
      NoHeader(dash, boundary, key);
      assert ([dash] + Lines(head))[1..] == Lines(head);
      hide Lines;
    }
  }

  lemma LinesAfter(dash: Buffer, boundary: string, head: Buffer)
    requires dash == DashBoundary(boundary) && CR !in boundary
    ensures Lines(dash + CRLF + head) == [dash] + Lines(head)
  {
    hide IndexOf;
    var block := dash + CRLF + head;
    forall i: nat | i < |dash| ensures !Matches(block, CRLF, i) {
      NoCarriageReturn(dash, boundary, i);
      assert block[i] == dash[i];
      MismatchAt(block, CRLF, i, 0);
    }
    assert block[|dash|] == CR && block[|dash| + 1] == LF;
    IndexOfIs(block, CRLF, 0, |dash|);
    assert block[..|dash|] == dash && block[|dash| + 2..] == head;
  }

  /** Whatever a boundary line names begins with a dash. */
  lemma NoHeader(dash: Buffer, boundary: string, key: string)
    requires dash == DashBoundary(boundary) && key != [] && key[0] == 'c'
    ensures LineValue(dash, key).None?
  {
    assert dash[0] == '-';
    match Find(dash, ':') {
      case None =>
      case Some(colon) =>
        if colon > 0 {
          StartsWithDash(dash[..colon]);
        }
    }
  }

  lemma StartsWithDash(name: string)
    requires name != [] && name[0] == '-'
    ensures Trim(name) != [] && ToLower(Trim(name))[0] == '-'
  {
    assert !IsSpace(name[0]) && Lower('-') == '-';
    hide IsSpace, Lower;
    assert TrimStart(name) == name;
    var t := Trim(name);
    assert forall i :: |t| <= i < |name| ==> IsSpace(name[i]);
  }

  /** Reading the next part, its head plain or with a boundary line in front, adds its item or nothing. */
  lemma ReadsHead(boundary: string, before: Buffer, fields: Fields, file: FormFile, content: Buffer,
      form: MultipartForm,
      limits: MultipartLimits)
    requires Accepted(boundary, fields, file) && Before(before, boundary)
    ensures var read := ReadPart(before + HeadOf(fields, file), content, form, limits);
            read.Ok? ==> ItemsOf(read.value) <= ItemsOf(form) + multiset{Items(fields, file)[0]}
  {
    AcceptedHead(boundary, fields, file);
    hide Before, IsFrameable, Utf8.Encode, FieldHead, FileHead, HeaderValue, Disposition, UPLOAD_PARAM, ItemFrom, ItemsOf, ReadPart,
         FirstRefusal, IndexOf, MediaType, DispositionParam;
    var head := HeadOf(fields, file);
    BeforeHeader(before, boundary, head, DISPOSITION_KEY);
    BeforeHeader(before, boundary, head, TYPE_KEY);
    if fields == [] {
      EncodedIsFrameable(file.fieldName);
      Utf8.EncodeTransparent(file.contentType, CR);
      ReadsFileHead(Utf8.Encode(file.fieldName), Utf8.Encode(file.contentType));
      NameRead(Utf8.Encode(file.fieldName), UPLOAD_PARAM);
      ReadsItem(before + head, content, form, limits, FileDisposition(file.fieldName));
    } else {
      EncodedIsFrameable(fields[0].0);
      ReadsFieldHead(Utf8.Encode(fields[0].0));
      NameRead(Utf8.Encode(fields[0].0), []);
      NoMediaType();
      ReadsItem(before + head, content, form, limits, FieldDisposition(fields[0].0));
    }
  }

  lemma NoMediaType()
    ensures MediaType(None) == []
  {
  }

  // ── The walk over any built body ────────────────────────────────

  lemma Behind(a: Buffer, b: Buffer, c: Buffer)
    ensures |a| + |b| <= |a + (b + c)| && (a + (b + c))[|a| + |b|..] == c
  {
  }

  lemma HalfBlankLine(head: Buffer, content: Buffer, rest: Buffer)
    ensures |head| + 2 <= |Framed(head, content, rest)|
    ensures Framed(head, content, rest)[|head| + 2..] == CRLF + (content + rest)
  {
    FramedGrouped(head, content, rest);
    assert CRLF_CRLF == CRLF + CRLF && |CRLF| == 2;
    hide *;
    Grouped(CRLF, CRLF, content + rest);
    Behind(head, CRLF, CRLF + (content + rest));
  }

  lemma FramedBefore(before: Buffer, head: Buffer, content: Buffer, rest: Buffer)
    ensures Framed(before + head, content, rest) == before + Framed([] + head, content, rest)
  {
    assert [] + head == head;
    FramedGrouped(before + head, content, rest);
    FramedGrouped(head, content, rest);
    hide Framed;
    Grouped(before, head, CRLF_CRLF + (content + rest));
  }

  lemma BadValueText(d: string, dash: Buffer, suffix: Buffer, next: Buffer)
    requires d == CRLF + dash
    ensures CRLF + ((dash + suffix) + (d + ([] + (CRLF + next)))) == d + (suffix + (CRLF + ((dash + CRLF) + next)))
  {
    hide *;
    assert [] + (CRLF + next) == CRLF + next;
    Grouped(dash, CRLF, next);
    Grouped(CRLF, dash, CRLF + next);
    Grouped(dash, suffix, d + (CRLF + next));
    Grouped(CRLF, dash, suffix + (d + (CRLF + next)));
  }

  /** A value that begins with the boundary line: the part is empty, and the rest of the value is a delimiter line. */
  lemma BadValue(boundary: string, before: Buffer, fields: Fields, file: FormFile, suffix: Buffer)
    requires fields != [] && Utf8.Encode(fields[0].1) == DashBoundary(boundary) + suffix
    ensures var d := DelimiterOf(boundary);
            var framed, n := FramedFrom(d, before, fields, file), |before + HeadOf(fields, file)| + 2;
            && n <= |framed|
            && framed[n..] == d + (suffix + (CRLF + FramedFrom(d, DashBoundary(boundary) + CRLF, fields[1..], file)))
  {
    var d, dash, rest := DelimiterOf(boundary), DashBoundary(boundary), fields[1..];
    assert d == CRLF + dash;
    hide Framed, Wire, HeadOf, Utf8.Encode;
    HalfBlankLine(before + HeadOf(fields, file), dash + suffix, Wire(d, rest, file));
    WireIsFramed(d, rest, file);
    FramedBefore(dash + CRLF, HeadOf(rest, file), ContentOf(rest, file), RestOf(d, rest, file));
    BadValueText(d, dash, suffix, FramedFrom(d, [], rest, file));
  }

  lemma BadPrefix(value: string, boundary: string) returns (suffix: Buffer)
    requires CR !in boundary && Utf8.IsAscii(boundary) && CR !in value && StartsWith(value, DashBoundary(boundary))
    ensures Utf8.Encode(value) == DashBoundary(boundary) + suffix && CR !in suffix
  {
    hide Utf8.Encode;
    var dash := DashBoundary(boundary);
    var rest := value[|dash|..];
    assert value == dash + rest;
    suffix := Utf8.Encode(rest);
    Utf8.EncodeAppend(dash, rest);
    Utf8.EncodeAscii(dash);
    Utf8.EncodeTransparent(rest, CR);
  }

  /** One part, its content framed whole or as nothing, and what is left after it. */
  lemma NextPart(boundary: string, line: Buffer, before: Buffer, fields: Fields, file: FormFile, content: Buffer,
      n: nat,
      rest: Buffer, parts: nat, form: MultipartForm, limits: MultipartLimits)
    requires Accepted(boundary, fields, file) && Before(before, boundary)
    requires CR !in line && IsPadding(line) && !StartsWith(line, DASH_DASH) && IsDelimiter(DelimiterOf(boundary))
    requires var d, head := DelimiterOf(boundary), before + HeadOf(fields, file);
             var framed := FramedFrom(d, before, fields, file);
             FramePart(framed, d, 0, true) == Part(head, content, n) && n <= |framed| && framed[n..] == rest && Matches(rest, d, 0)
    ensures var d := DelimiterOf(boundary);
            var scan := d + (line + (CRLF + FramedFrom(d, before, fields, file)));
            && Matches(scan, d, 0)
            && match FormOf(ParseFrom(scan, d, 0, parts, form, limits))
               case Err(_) => true
               case Ok(read) => exists grown :: ItemsOf(grown) <= ItemsOf(form) + multiset{Items(fields, file)[0]}
                                  && FormOf(ParseFrom(rest, d, 0, parts + 1, grown, limits)) == Ok(read)
  {
    hide Accepted, Before, IsPadding, StartsWith, IsDelimiter, FramePart, Matches, ParseFrom, ReadPart, FramedFrom, HeadOf, ItemsOf,
         Items, DelimiterOf;
    var d, head := DelimiterOf(boundary), before + HeadOf(fields, file);
    var framed := FramedFrom(d, before, fields, file);
    ReadsHead(boundary, before, fields, file, content, form, limits);
    StepAfterLine(d, line, framed, Part(head, content, n), rest, parts, form, limits);
  }

  lemma ItemsAre(fields: Fields, file: FormFile)
    requires fields != []
    ensures multiset(Items(fields, file)) == multiset{Items(fields, file)[0]} + multiset(Items(fields[1..], file))
  {
    assert Items(fields, file) == [Items(fields, file)[0]] + Items(fields[1..], file);
  }

  /**
   * Whatever a built body parses to is made of the items of its parts: none twice, and none from anywhere else.
   */
  lemma {:induction false} WalkItems(boundary: string, line: Buffer, before: Buffer, fields: Fields, file: FormFile,
      parts: nat,
      form: MultipartForm, limits: MultipartLimits)
    requires Accepted(boundary, fields, file) && Before(before, boundary) && CR !in line
    ensures var d := DelimiterOf(boundary);
            var scan := d + (line + (CRLF + FramedFrom(d, before, fields, file)));
            && IsDelimiter(d) && Matches(scan, d, 0)
            && match FormOf(ParseFrom(scan, d, 0, parts, form, limits))
               case Err(_) => true
               case Ok(read) => ItemsOf(read) <= ItemsOf(form) + multiset(Items(fields, file))
    decreases |fields|, 2
  {
    assert CR !in boundary;
    hide *;
    DelimiterShape(boundary);
    if !StartsWith(line, DASH_DASH) && IsPadding(line) {
      WalkPart(boundary, line, before, fields, file, parts, form, limits);
    } else {
      StopsAtLine(DelimiterOf(boundary), line, FramedFrom(DelimiterOf(boundary), before, fields, file), parts, form, limits);
    }
  }

  /** Any other line closes the body, or is an error. */
  lemma StopsAtLine(d: string, line: Buffer, framed: Buffer, parts: nat, form: MultipartForm, limits: MultipartLimits)
    requires IsDelimiter(d) && CR !in line && (StartsWith(line, DASH_DASH) || !IsPadding(line))
    ensures var scan := d + (line + (CRLF + framed));
            && Matches(scan, d, 0)
            && match FormOf(ParseFrom(scan, d, 0, parts, form, limits)) case Err(_) => true case Ok(read) => read == form
  {
    hide IsPadding, StartsWith, FramePart, Matches, IsDelimiter;
    DelimiterNotEmpty(d);
    FramesAfterLine(d, line, framed, parts + 1 <= limits.maxParts);
  }

  /** The part at the cursor has this content and ends at `n`; `suffix` follows the next delimiter on its line. */
  ghost predicate NextIs(boundary: string, before: Buffer, fields: Fields, file: FormFile, content: Buffer, n: nat,
      suffix: Buffer,
      next: Buffer)
    requires fields != []
  {
    var d := DelimiterOf(boundary);
    var framed := FramedFrom(d, before, fields, file);
    && Accepted(boundary, fields[1..], file) && Before(next, boundary) && CR !in suffix
    && FramePart(framed, d, 0, true) == Part(before + HeadOf(fields, file), content, n) && n <= |framed|
    && framed[n..] == d + (suffix + (CRLF + FramedFrom(d, next, fields[1..], file)))
  }

  lemma BlockReady(boundary: string, before: Buffer, fields: Fields, file: FormFile)
    requires Accepted(boundary, fields, file) && Before(before, boundary) && fields != []
    ensures IsHeaderBlock(before + HeadOf(fields, file)) && CR !in boundary && Utf8.IsAscii(boundary)
    ensures CR !in fields[0].1
    ensures Accepted(boundary, fields[1..], file)
  {
    AcceptedHead(boundary, fields, file);
    HeadIsBlock(boundary, fields, file);
    HeadStarts(fields, file);
    hide HeadOf, IsHeaderBlock, FirstRefusal, Before, IsFrameable, IndexOf;
    BeforeBlock(before, boundary, HeadOf(fields, file));
  }

  lemma FramedField(d: string, before: Buffer, fields: Fields, file: FormFile)
    requires fields != []
    ensures FramedFrom(d, before, fields, file)
         == Framed(before + HeadOf(fields, file), Utf8.Encode(fields[0].1), Wire(d, fields[1..], file))
  {
    hide HeadOf, Framed, Wire, Utf8.Encode;
  }

  lemma GoodPart(boundary: string, before: Buffer, fields: Fields, file: FormFile)
    requires Accepted(boundary, fields, file) && Before(before, boundary) && fields != []
    requires !StartsWith(fields[0].1, DashBoundary(boundary))
    ensures var content := Utf8.Encode(fields[0].1);
            NextIs(boundary, before, fields, file, content, |before + HeadOf(fields, file)| + 4 + |content|, [], [])
  {
    hide Accepted, Utf8.Encode, HeadOf, Framed, FramedFrom, FramePart, IsHeaderBlock, IsContent, StartsWith, Wire, Matches, IsDelimiter,
         DelimiterOf;
    var d, head := DelimiterOf(boundary), before + HeadOf(fields, file);
    var content, rest := Utf8.Encode(fields[0].1), Wire(d, fields[1..], file);
    BlockReady(boundary, before, fields, file);
    ValueIsContent(fields[0].1, boundary);
    FramedField(d, before, fields, file);
    WireIsFramed(d, fields[1..], file);
    FramesAfterLine(d, [], FramedFrom(d, [], fields[1..], file), true);
    FramesContent(head, content, rest, d);
    FramedRest(head, content, rest);
  }

  lemma BadPart(boundary: string, before: Buffer, fields: Fields, file: FormFile) returns (suffix: Buffer)
    requires Accepted(boundary, fields, file) && Before(before, boundary) && fields != []
    requires StartsWith(fields[0].1, DashBoundary(boundary))
    ensures NextIs(boundary, before, fields, file, [], |before + HeadOf(fields, file)| + 2, suffix, DashBoundary(boundary) + CRLF)
  {
    hide Accepted, Utf8.Encode, HeadOf, Framed, FramedFrom, FramePart, IsHeaderBlock, IsContent, StartsWith, Wire, Matches, IsDelimiter,
         DelimiterOf;
    BlockReady(boundary, before, fields, file);
    suffix := BadPrefix(fields[0].1, boundary);
    BadValue(boundary, before, fields, file, suffix);
    ValueIsContent(fields[0].1, boundary);
    FramedField(DelimiterOf(boundary), before, fields, file);
    FramesNothing(before + HeadOf(fields, file), Utf8.Encode(fields[0].1), Wire(DelimiterOf(boundary), fields[1..], file),
                  DelimiterOf(boundary));
  }

  lemma WalkLast(boundary: string, line: Buffer, before: Buffer, file: FormFile, parts: nat, form: MultipartForm,
      limits: MultipartLimits)
    requires Accepted(boundary, [], file) && Before(before, boundary) && CR !in line
    requires !StartsWith(line, DASH_DASH) && IsPadding(line)
    ensures var d := DelimiterOf(boundary);
            var scan := d + (line + (CRLF + FramedFrom(d, before, [], file)));
            && Matches(scan, d, 0)
            && match FormOf(ParseFrom(scan, d, 0, parts, form, limits))
               case Err(_) => true
               case Ok(read) => ItemsOf(read) <= ItemsOf(form) + multiset(Items([], file))
  {
    AcceptedHead(boundary, [], file);
    HeadIsBlock(boundary, [], file);
    HeadStarts([], file);
    BeforeBlock(before, boundary, HeadOf([], file));
    ReadsHead(boundary, before, [], file, file.bytes, form, limits);
    assert Items([], file) == [Items([], file)[0]];
    hide Utf8.Encode, HeadOf, Framed, ReadPart, ParseFrom, IsHeaderBlock, StartsWith, IsPadding, FirstRefusal, Before, Matches,
         DelimiterOf, IsFrameable, IndexOf, ItemsOf, Items;
    LastPart(boundary, line, before + HeadOf([], file), file.bytes, parts, form, limits);
  }

  lemma {:induction false} WalkPart(boundary: string, line: Buffer, before: Buffer, fields: Fields, file: FormFile,
      parts: nat,
      form: MultipartForm, limits: MultipartLimits)
    requires Accepted(boundary, fields, file) && Before(before, boundary) && CR !in line
    requires IsDelimiter(DelimiterOf(boundary)) && !StartsWith(line, DASH_DASH) && IsPadding(line)
    ensures var d := DelimiterOf(boundary);
            var scan := d + (line + (CRLF + FramedFrom(d, before, fields, file)));
            && Matches(scan, d, 0)
            && match FormOf(ParseFrom(scan, d, 0, parts, form, limits))
               case Err(_) => true
               case Ok(read) => ItemsOf(read) <= ItemsOf(form) + multiset(Items(fields, file))
    decreases |fields|, 1
  {
    hide *;
    if fields == [] {
      WalkLast(boundary, line, before, file, parts, form, limits);
    } else {
      if StartsWith(fields[0].1, DashBoundary(boundary)) {
        var suffix := BadPart(boundary, before, fields, file);
        WalkOn(boundary, line, before, fields, file, [], |before + HeadOf(fields, file)| + 2, suffix, DashBoundary(boundary) + CRLF,
               parts, form, limits);
      } else {
        GoodPart(boundary, before, fields, file);
        var content := Utf8.Encode(fields[0].1);
        WalkOn(boundary, line, before, fields, file, content, |before + HeadOf(fields, file)| + 4 + |content|, [], [],
               parts, form, limits);
      }
    }
  }

  /** The part is read, and the walk goes on behind it. */
  lemma {:induction false} WalkOn(boundary: string, line: Buffer, before: Buffer, fields: Fields, file: FormFile,
      content: Buffer,
      n: nat, suffix: Buffer, next: Buffer, parts: nat, form: MultipartForm, limits: MultipartLimits)
    requires Accepted(boundary, fields, file) && Before(before, boundary) && CR !in line && fields != []
    requires IsDelimiter(DelimiterOf(boundary)) && !StartsWith(line, DASH_DASH) && IsPadding(line)
    requires NextIs(boundary, before, fields, file, content, n, suffix, next)
    ensures var d := DelimiterOf(boundary);
            var scan := d + (line + (CRLF + FramedFrom(d, before, fields, file)));
            && Matches(scan, d, 0)
            && match FormOf(ParseFrom(scan, d, 0, parts, form, limits))
               case Err(_) => true
               case Ok(read) => ItemsOf(read) <= ItemsOf(form) + multiset(Items(fields, file))
    decreases |fields|, 0
  {
    hide Accepted, Before, IsPadding, StartsWith, IsDelimiter, FramePart, Matches, ParseFrom, FramedFrom, HeadOf, ItemsOf, Items,
         DelimiterOf;
    var d := DelimiterOf(boundary);
    var rest := d + (suffix + (CRLF + FramedFrom(d, next, fields[1..], file)));
    WalkItems(boundary, suffix, next, fields[1..], file, parts + 1, form, limits);
    NextPart(boundary, line, before, fields, file, content, n, rest, parts, form, limits);
    ItemsAre(fields, file);
    var outcome := FormOf(ParseFrom(d + (line + (CRLF + FramedFrom(d, before, fields, file))), d, 0, parts, form, limits));
    if outcome.Ok? {
      var grown :| ItemsOf(grown) <= ItemsOf(form) + multiset{Items(fields, file)[0]}
                     && FormOf(ParseFrom(rest, d, 0, parts + 1, grown, limits)) == Ok(outcome.value);
      WalkItems(boundary, suffix, next, fields[1..], file, parts + 1, grown, limits);
    }
  }

  // ── Names that add up ───────────────────────────────────────────

  function Sum(weight: Item -> nat, items: seq<Item>): nat {
    if items == [] then 0 else weight(items[0]) + Sum(weight, items[1..])
  }

  lemma {:induction false} SumWithout(weight: Item -> nat, items: seq<Item>, k: nat)
    requires k < |items|
    ensures Sum(weight, items) == weight(items[k]) + Sum(weight, Without(items, k))
  {
    if k > 0 {
      SumWithout(weight, items[1..], k - 1);
      assert Without(items, k) == [items[0]] + Without(items[1..], k - 1);
    } else {
      assert Without(items, k) == items[1..];
    }
  }

  lemma {:induction false} SumPermuted(weight: Item -> nat, xs: seq<Item>, ys: seq<Item>)
    requires multiset(xs) == multiset(ys)
    ensures Sum(weight, xs) == Sum(weight, ys)
    decreases |xs|
  {
    SameMultisetSameElements(xs, ys);
    if xs != [] {
      var k := Elsewhere(xs, ys);
      SumWithout(weight, ys, k);
      SumPermuted(weight, xs[1..], Without(ys, k));
    }
  }

  lemma Elsewhere(xs: seq<Item>, ys: seq<Item>) returns (k: nat)
    requires multiset(xs) == multiset(ys) && xs != []
    ensures k < |ys| && ys[k] == xs[0] && multiset(xs[1..]) == multiset(Without(ys, k))
  {
    SameMultisetSameElements(xs, ys);
    assert xs[0] in xs;
    k :| 0 <= k < |ys| && ys[k] == xs[0];
    WithoutOne(ys, k);
    WithoutOne(xs, 0);
    assert Without(xs, 0) == xs[1..];
  }

  /** Sums that agree, entry by entry no smaller on one side, agree entry by entry. */
  lemma {:induction false} SumPointwise(weight: Item -> nat, xs: seq<Item>, ys: seq<Item>)
    requires |xs| == |ys| && forall i :: 0 <= i < |xs| ==> weight(xs[i]) <= weight(ys[i])
    ensures Sum(weight, xs) <= Sum(weight, ys)
    ensures Sum(weight, xs) == Sum(weight, ys) ==> forall i :: 0 <= i < |xs| ==> weight(xs[i]) == weight(ys[i])
  {
    if xs != [] {
      assert forall i :: 0 <= i < |xs[1..]| ==> xs[1..][i] == xs[i + 1] && ys[1..][i] == ys[i + 1];
      SumPointwise(weight, xs[1..], ys[1..]);
      if Sum(weight, xs) == Sum(weight, ys) {
        forall i | 0 <= i < |xs| ensures weight(xs[i]) == weight(ys[i]) {
          if i > 0 {
            assert xs[i] == xs[1..][i - 1] && ys[i] == ys[1..][i - 1];
          }
        }
      }
    }
  }

  /** The items of the form that was built. */
  function Wanted(fields: Fields, file: FormFile): (r: seq<Item>)
    ensures |r| == |fields| + 1
  {
    if fields == [] then [Upload(file.fieldName, UPLOAD, file.contentType)]
    else [Entry(fields[0].0)] + Wanted(fields[1..], file)
  }

  function NameAt(fields: Fields, file: FormFile, i: nat): string
    requires i <= |fields|
  {
    if i < |fields| then fields[i].0 else file.fieldName
  }

  lemma {:induction false} ItemAt(fields: Fields, file: FormFile, i: nat)
    requires i <= |fields|
    ensures Items(fields, file)[i] == if i < |fields| then FieldItem(fields[i].0) else FileItem(file)
    ensures Wanted(fields, file)[i] == if i < |fields| then Entry(fields[i].0) else Upload(file.fieldName, UPLOAD, file.contentType)
  {
    hide FieldItem, FileItem, UPLOAD;
    if fields != [] && i > 0 {
      ItemAt(fields[1..], file, i - 1);
    }
  }

  lemma ItemNamed(fields: Fields, file: FormFile, i: nat)
    requires i <= |fields| && IsFrameable(NameAt(fields, file, i))
    ensures var q, name := Items(fields, file)[i].name, Utf8.Encode(NameAt(fields, file, i));
            '"' in q || Backslashes(q) < Backslashes(name) || ('\\' !in name && q == name)
  {
    var name := NameAt(fields, file, i);
    EncodedIsFrameable(name);
    ItemAt(fields, file, i);
    hide IsFrameable, Utf8.Encode, Backslashes, DispositionParam, Disposition, UPLOAD_PARAM;
    NameRead(Utf8.Encode(name), if i < |fields| then [] else UPLOAD_PARAM);
  }

  lemma {:induction false} EncodedBackslashes(s: string)
    ensures Backslashes(Utf8.Encode(s)) == Backslashes(s)
    ensures |Utf8.Encode(s)| == |s| ==> Utf8.IsAscii(s)
  {
    if s != [] {
      EncodedBackslashes(s[1..]);
      BackslashesAppend(Utf8.EncodeChar(s[0]), Utf8.Encode(s[1..]));
      EncodedChar(s[0]);
      if |Utf8.Encode(s)| == |s| {
        forall i | 0 <= i < |s| ensures s[i] < 0x80 as char {
          assert i > 0 ==> s[i] == s[1..][i - 1];
        }
      }
    }
  }

  lemma EncodedChar(c: char)
    ensures Backslashes(Utf8.EncodeChar(c)) == if c == '\\' then 1 else 0
    ensures |Utf8.EncodeChar(c)| == 1 <==> c < 0x80 as char
  {
    SomeBackslash(Utf8.EncodeChar(c));
    if c < 0x80 as char {
      assert Utf8.EncodeChar(c)[1..] == [];
    }
  }

  lemma {:induction false} BackslashesAppend(s: string, t: string)
    ensures Backslashes(s + t) == Backslashes(s) + Backslashes(t)
  {
    if s == [] {
      assert s + t == t;
    } else {
      assert (s + t)[1..] == s[1..] + t;
      BackslashesAppend(s[1..], t);
    }
  }

  // ── Which bodies come back ──────────────────────────────────────

  predicate AllFrameable(fields: Fields, file: FormFile) {
    (forall i :: 0 <= i < |fields| ==> IsFrameable(fields[i].0)) && IsFrameable(file.fieldName)
  }

  /** Sent and read names hold no quote, so none of the names read does. */
  lemma NoQuoteRead(fields: Fields, file: FormFile, i: nat)
    requires AllFrameable(fields, file) && multiset(Items(fields, file)) == multiset(Wanted(fields, file))
    requires i <= |fields|
    ensures '"' !in Items(fields, file)[i].name
  {
    hide Items;
    var item := Items(fields, file)[i];
    assert item in multiset(Items(fields, file));
    assert item in Wanted(fields, file);
    var k :| 0 <= k < |Wanted(fields, file)| && Wanted(fields, file)[k] == item;
    ItemAt(fields, file, k);
  }

  /** Every name is read as it was sent, and is plain. */
  lemma NamesArePlain(fields: Fields, file: FormFile)
    requires AllFrameable(fields, file) && multiset(Items(fields, file)) == multiset(Wanted(fields, file))
    ensures forall i :: 0 <= i <= |fields| ==>
              var name := NameAt(fields, file, i); Utf8.IsAscii(name) && '\\' !in name && Items(fields, file)[i].name == name
  {
    var read, sent := Items(fields, file), Wanted(fields, file);
    forall i | 0 <= i < |read| ensures Slashes(read[i]) == Slashes(sent[i]) && Length(read[i]) == Length(sent[i]) {
      SameSlashes(fields, file);
      SameLengths(fields, file);
    }
    forall i | 0 <= i <= |fields|
      ensures var name := NameAt(fields, file, i); Utf8.IsAscii(name) && '\\' !in name && read[i].name == name
    {
      assert Slashes(read[i]) == Slashes(sent[i]) && Length(read[i]) == Length(sent[i]);
      NameIsPlain(fields, file, i);
    }
  }

  function Slashes(item: Item): nat {
    Backslashes(item.name)
  }

  function Length(item: Item): nat {
    |item.name|
  }

  lemma SameSlashes(fields: Fields, file: FormFile)
    requires AllFrameable(fields, file) && multiset(Items(fields, file)) == multiset(Wanted(fields, file))
    ensures forall i :: 0 <= i <= |fields| ==> Slashes(Items(fields, file)[i]) == Slashes(Wanted(fields, file)[i])
  {
    hide Items, Wanted, Sum, AllFrameable, Backslashes;
    var read, sent := Items(fields, file), Wanted(fields, file);
    SumPermuted(Slashes, read, sent);
    forall i | 0 <= i < |read| ensures Slashes(read[i]) <= Slashes(sent[i]) {
      NameNoWorse(fields, file, i);
    }
    SumPointwise(Slashes, read, sent);
  }

  lemma SameLengths(fields: Fields, file: FormFile)
    requires AllFrameable(fields, file) && multiset(Items(fields, file)) == multiset(Wanted(fields, file))
    ensures forall i :: 0 <= i <= |fields| ==> Length(Items(fields, file)[i]) == Length(Wanted(fields, file)[i])
  {
    hide Items, Wanted, Sum, AllFrameable, Backslashes;
    var read, sent := Items(fields, file), Wanted(fields, file);
    SumPermuted(Length, read, sent);
    SameSlashes(fields, file);
    forall i | 0 <= i < |read| ensures Length(sent[i]) <= Length(read[i]) {
      assert Slashes(read[i]) == Slashes(sent[i]);
      NameNoShorter(fields, file, i);
    }
    SumPointwise(Length, sent, read);
  }

  lemma NameNoWorse(fields: Fields, file: FormFile, i: nat)
    requires AllFrameable(fields, file) && multiset(Items(fields, file)) == multiset(Wanted(fields, file))
    requires i <= |fields|
    ensures Wanted(fields, file)[i].name == NameAt(fields, file, i)
    ensures Backslashes(Items(fields, file)[i].name) <= Backslashes(NameAt(fields, file, i))
    ensures Backslashes(Items(fields, file)[i].name) == Backslashes(NameAt(fields, file, i)) ==>
              '\\' !in NameAt(fields, file, i) && Items(fields, file)[i].name == Utf8.Encode(NameAt(fields, file, i))
  {
    var name := NameAt(fields, file, i);
    assert IsFrameable(name);
    ItemAt(fields, file, i);
    hide Items, Wanted, IsFrameable, Utf8.Encode, Backslashes;
    NoQuoteRead(fields, file, i);
    ItemNamed(fields, file, i);
    EncodedBackslashes(name);
    SomeBackslash(name);
    SomeBackslash(Utf8.Encode(name));
  }

  lemma NameNoShorter(fields: Fields, file: FormFile, i: nat)
    requires AllFrameable(fields, file) && multiset(Items(fields, file)) == multiset(Wanted(fields, file))
    requires i <= |fields|
    requires Backslashes(Items(fields, file)[i].name) == Backslashes(Wanted(fields, file)[i].name)
    ensures |Wanted(fields, file)[i].name| <= |Items(fields, file)[i].name|
  {
    hide Items, Wanted, Backslashes, AllFrameable;
    NameNoWorse(fields, file, i);
  }

  lemma NameIsPlain(fields: Fields, file: FormFile, i: nat)
    requires AllFrameable(fields, file) && multiset(Items(fields, file)) == multiset(Wanted(fields, file))
    requires i <= |fields|
    requires Backslashes(Items(fields, file)[i].name) == Backslashes(Wanted(fields, file)[i].name)
    requires |Items(fields, file)[i].name| == |Wanted(fields, file)[i].name|
    ensures var name := NameAt(fields, file, i); Utf8.IsAscii(name) && '\\' !in name && Items(fields, file)[i].name == name
  {
    var name := NameAt(fields, file, i);
    hide Items, Wanted, Backslashes, AllFrameable, Utf8.Encode, NameAt;
    NameNoWorse(fields, file, i);
    EncodedBackslashes(name);
    Utf8.EncodeAscii(name);
  }

  function IsUpload(item: Item): nat {
    if item.Upload? then 1 else 0
  }

  lemma {:induction false} OneUploadWanted(fields: Fields, file: FormFile)
    ensures Sum(IsUpload, Wanted(fields, file)) == 1
  {
    if fields == [] {
      assert Wanted(fields, file)[1..] == [];
    } else {
      OneUploadWanted(fields[1..], file);
      assert Wanted(fields, file)[1..] == Wanted(fields[1..], file);
    }
  }

  lemma UploadOnce(items: seq<Item>, i: nat, j: nat)
    requires i < j < |items| && Sum(IsUpload, items) == 1
    ensures !(items[i].Upload? && items[j].Upload?)
  {
    SumWithout(IsUpload, items, j);
    SumWithout(IsUpload, Without(items, j), i);
    assert Without(items, j)[i] == items[i];
  }

  /** A name that makes a file of a field makes a file of the file. */
  lemma HiddenTwice(file: FormFile)
    requires IsFrameable(file.fieldName)
    ensures FieldItem(file.fieldName).Upload? ==> FileItem(file).Upload?
  {
    hide Utf8.Encode, Disposition, UPLOAD_PARAM, DispositionParam, IsFrameable;
    EncodedIsFrameable(file.fieldName);
    FieldStaysField(Utf8.Encode(file.fieldName));
    FileStaysFile(Utf8.Encode(file.fieldName));
  }

  /** The one file of the form is the file: no field makes one in its place. */
  lemma FileIsFile(fields: Fields, file: FormFile)
    requires AllFrameable(fields, file) && multiset(Items(fields, file)) == multiset(Wanted(fields, file))
    ensures FileItem(file) == Upload(file.fieldName, UPLOAD, file.contentType)
    ensures forall i :: 0 <= i < |fields| ==> !FieldItem(fields[i].0).Upload?
  {
    var read, sent, n := Items(fields, file), Wanted(fields, file), |fields|;
    NamesArePlain(fields, file);
    SumPermuted(IsUpload, read, sent);
    OneUploadWanted(fields, file);
    assert IsFrameable(file.fieldName);
    hide Items, Wanted, FieldItem, FileItem, AllFrameable, UPLOAD, Utf8.IsAscii, Sum, IsFrameable;
    ItemAt(fields, file, n);
    HiddenTwice(file);
    assert sent[n] in multiset(sent);
    assert sent[n] in read;
    var i :| 0 <= i < |read| && read[i] == sent[n];
    ItemAt(fields, file, i);
    if i < n {
      UploadOnce(read, i, n);
    }
    forall k | 0 <= k < n ensures !FieldItem(fields[k].0).Upload? {
      ItemAt(fields, file, k);
      UploadOnce(read, k, n);
    }
  }

  /** Then every name survives, and so does the file. */
  lemma ItemsDecide(fields: Fields, file: FormFile)
    requires AllFrameable(fields, file) && multiset(Items(fields, file)) == multiset(Wanted(fields, file))
    requires DistinctNames(fields)
    ensures NamesSurvive(fields) && FileSurvives(file)
  {
    FileIsFile(fields, file);
    NamesArePlain(fields, file);
    hide Items, Wanted, FieldItem, FileItem;
    forall i | 0 <= i < |fields| ensures SurvivesHeader(fields[i].0) {
      assert NameAt(fields, file, i) == fields[i].0;
      FieldDecides(fields[i].0);
    }
    assert NameAt(fields, file, |fields|) == file.fieldName;
    FileDecides(file);
  }

  lemma FieldDecides(name: string)
    requires IsFrameable(name) && Utf8.IsAscii(name)
    ensures FieldItem(name).Upload? <==> HidesFilename(name)
  {
    hide Disposition, DispositionParam, IsFrameable, HidesFilename;
    Utf8.EncodeAscii(name);
    FieldStaysField(name);
  }

  lemma FileDecides(file: FormFile)
    requires IsFrameable(file.fieldName) && Utf8.IsAscii(file.fieldName)
    requires FileItem(file) == Upload(file.fieldName, UPLOAD, file.contentType)
    ensures KeepsUpload(file.fieldName) && TypeRead(file.contentType) == file.contentType
  {
    hide Disposition, DispositionParam, IsFrameable, KeepsUpload, UPLOAD_PARAM, TypeRead;
    Utf8.EncodeAscii(file.fieldName);
    FileStaysFile(file.fieldName);
  }

  // ── The law ─────────────────────────────────────────────────────

  /** A form that holds what was built has these items and no others. */
  lemma ReturnedItems(form: MultipartForm, fields: Fields, file: FormFile)
    requires DistinctNames(fields) && Returns(form, fields, file)
    ensures ItemsOf(form) == multiset(Wanted(fields, file))
  {
    EntriesOf(form.fields, fields);
    OneFile(file);
    WantedIs(fields, file);
    hide Wanted, Entries, Uploads, UPLOAD;
  }

  lemma OneFile(file: FormFile)
    ensures Uploads([FileOf(file)]) == multiset{Upload(file.fieldName, UPLOAD, file.contentType)}
  {
  }

  function EntryItems(fields: Fields): (r: seq<Item>)
    ensures |r| == |fields| && forall i :: 0 <= i < |fields| ==> r[i] == Entry(fields[i].0)
  {
    if fields == [] then [] else [Entry(fields[0].0)] + EntryItems(fields[1..])
  }

  lemma {:induction false} WantedIs(fields: Fields, file: FormFile)
    ensures Wanted(fields, file) == EntryItems(fields) + [Upload(file.fieldName, UPLOAD, file.contentType)]
  {
    if fields != [] {
      WantedIs(fields[1..], file);
    }
  }

  lemma {:induction false} EntriesOf(form: map<string, string>, fields: Fields)
    requires DistinctNames(fields) && form.Keys == (set i | 0 <= i < |fields| :: fields[i].0)
    ensures Entries(form) == multiset(EntryItems(fields))
  {
    var entries, items := set name | name in form :: Entry(name), EntryItems(fields);
    assert NoDuplicates(items);
    MultiplicityOne(items);
    forall item ensures item in entries <==> item in items {
      SameEntry(form, fields, item);
    }
    hide EntryItems, NoDuplicates, DistinctNames;
    assert forall item :: multiset(entries)[item] == multiset(items)[item];
  }

  lemma {:induction false} SameEntry(form: map<string, string>, fields: Fields, item: Item)
    requires form.Keys == (set i | 0 <= i < |fields| :: fields[i].0)
    ensures item in (set name | name in form :: Entry(name)) <==> item in EntryItems(fields)
  {
    if item in (set name | name in form :: Entry(name)) {
      var i :| 0 <= i < |fields| && Entry(fields[i].0) == item;
      assert EntryItems(fields)[i] == item;
    }
    if item in EntryItems(fields) {
      var i :| 0 <= i < |fields| && EntryItems(fields)[i] == item;
      assert fields[i].0 in form.Keys;
    }
  }

  lemma SameSize(a: multiset<Item>, b: multiset<Item>)
    requires a <= b && |a| == |b|
    ensures a == b
  {
    assert b == a + (b - a);
  }

  /** A body that comes back has names that survive. */
  lemma ReturnedSurvives(boundary: string, fields: Fields, file: FormFile, form: MultipartForm, limits: MultipartLimits)
    requires Accepted(boundary, fields, file) && DistinctNames(fields) && Returns(form, fields, file)
    requires Matches(Wire(DelimiterOf(boundary), fields, file), DelimiterOf(boundary), 0) && |DelimiterOf(boundary)| > 0
    requires FormOf(ParseFrom(Wire(DelimiterOf(boundary), fields, file), DelimiterOf(boundary), 0, 0, EMPTY_FORM, limits)) == Ok(form)
    ensures NamesSurvive(fields) && FileSurvives(file)
  {
    AllAccepted(boundary, fields, file);
    hide *;
    WireIsFramed(DelimiterOf(boundary), fields, file);
    WalkItems(boundary, [], [], fields, file, 0, EMPTY_FORM, limits);
    ReturnedItems(form, fields, file);
    NothingRead();
    SameSize(ItemsOf(form), multiset(Items(fields, file)));
    ItemsDecide(fields, file);
  }

  lemma AllAccepted(boundary: string, fields: Fields, file: FormFile)
    requires Accepted(boundary, fields, file)
    ensures AllFrameable(fields, file) && Before([], boundary) && CR !in boundary && Utf8.IsAscii(boundary)
  {
    hide IsFrameable, IndexOf;
    assert forall i :: 0 <= i < |fields| ==> !FieldRefused(fields[i]);
  }

  lemma NothingRead()
    ensures ItemsOf(EMPTY_FORM) == multiset{}
  {
  }

  /**
   * A body framed with whatever boundary its content type names: parsing gives back what was framed, precisely when
   * every name comes through the header and hides no filename, the file keeps its name and its content type, parts and
   * file fit the limits, and no value is longer than a field may be or begins with the boundary line.
   */
  lemma FramedRoundTrip(boundary: string, contentType: string, fields: Fields, file: FormFile, limits: MultipartLimits)
    requires BoundaryFrom(contentType) == Ok(boundary) && DistinctNames(fields)
    requires FirstRefusal(boundary, fields, file).None?
    ensures (match Parse(BodyOf(boundary, fields, file), contentType, limits)
             case Err(_) => false
             case Ok(form) => Returns(form, fields, file))
            <==> NamesSurvive(fields) && FileSurvives(file) && Survives(boundary, fields, 0, 0, limits)
  {
    BoundaryIsPlain(boundary);
    assert Accepted(boundary, fields, file);
    hide *;
    ParsesWire(boundary, contentType, fields, file, limits);
    var read := Parse(BodyOf(boundary, fields, file), contentType, limits);
    if read.Ok? && Returns(read.value, fields, file) {
      ReturnedSurvives(boundary, fields, file, read.value, limits);
    }
    if NamesSurvive(fields) && FileSurvives(file) {
      NamedRoundTrip(boundary, contentType, fields, file, limits);
    }
  }

  /** Build then parse is the identity under the same condition. */
  lemma RoundTrip(fields: Fields, file: FormFile, token: string, limits: MultipartLimits)
    requires IsToken(token) && DistinctNames(fields) && Build(fields, file, token).Ok?
    ensures var built := Build(fields, file, token).value;
            (match Parse(built.body, built.contentType, limits)
             case Err(_) => false
             case Ok(form) => Returns(form, fields, file))
            <==> NamesSurvive(fields) && FileSurvives(file) && Survives(BoundaryOf(token), fields, 0, 0, limits)
  {
    var boundary, contentType := BoundaryOf(token), MULTIPART + ParamText(BOUNDARY, BoundaryOf(token));
    assert FirstRefusal(boundary, fields, file).None?;
    assert Build(fields, file, token).value == Built(BodyOf(boundary, fields, file), contentType);
    hide *;
    BoundaryReadBack(token);
    FramedRoundTrip(boundary, contentType, fields, file, limits);
  }
}
