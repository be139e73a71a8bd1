/**
 * parseMultipartFormData: one cursor walks the delimiters of `CRLF + body`.
 * The walk is written twice: as the function the lemmas are about, and as the loop of the source.
 */
module MultipartParser {
  import opened Wrappers
  import opened Scanning
  import opened MultipartHeaders
  import Utf8

  datatype MultipartFile = MultipartFile(fieldName: string, filename: string, contentType: string, bytes: Buffer)

  datatype MultipartForm = MultipartForm(fields: map<string, string>, files: seq<MultipartFile>)

  datatype MultipartLimits = MultipartLimits(maxParts: int, maxFiles: int, maxFieldBytes: int)

  const DEFAULT_LIMITS := MultipartLimits(16, 1, 8 * 1024)
  const CRLF_CRLF: Buffer := [CR, LF, CR, LF]
  const DASH_DASH: Buffer := ['-', '-']
  const EMPTY_FORM := MultipartForm(map[], [])

  /** A parsed form and the index just past its closing `--boundary--`. */
  datatype Parsed = Parsed(form: MultipartForm, end: nat)

  function DelimiterOf(boundary: string): (r: string)
    ensures |r| == |boundary| + 4
  {
    "\r\n--" + boundary
  }

  predicate IsPadding(s: Buffer) {
    forall i :: 0 <= i < |s| ==> s[i] == ' ' || s[i] == '\t'
  }

  /** `scan.subarray(start, end)`, empty when the bounds cross. */
  function Slice(scan: Buffer, start: nat, end: nat): Buffer
    requires end <= |scan|
  {
    if start <= end then scan[start..end] else []
  }

  /** One part, already delimited: add it to the form or refuse it. */
  function ReadPart(header: Buffer, content: Buffer, form: MultipartForm, limits: MultipartLimits)
    : (r: Result<MultipartForm, HttpError>)
  {
    match HeaderValue(header, DISPOSITION_KEY)
    case None => Err(MalformedMultipart(NoDisposition))
    case Some(disposition) =>
      match DispositionParam(disposition, NAME)
      case None => Err(MalformedMultipart(NoFieldName))
      case Some(fieldName) =>
        match DispositionParam(disposition, FILENAME)
        case None =>
          if |content| > limits.maxFieldBytes then Err(FieldTooLarge(fieldName))
          else if fieldName in form.fields then Ok(form)
          else Ok(form.(fields := form.fields[fieldName := Utf8.Decode(content)]))
        case Some(filename) =>
          if |form.files| + 1 > limits.maxFiles then Err(MalformedMultipart(TooManyFiles))
          else
            var contentType := MediaType(HeaderValue(header, TYPE_KEY));
            Ok(form.(files := form.files + [MultipartFile(fieldName, filename, contentType, content)]))
  }

  /** What the scan finds at a delimiter: the closing one, a framed part, or a framing violation. */
  datatype Frame = Closing | Part(header: Buffer, content: Buffer, next: nat) | Refused(detail: Detail)

  function FramePart(scan: Buffer, delimiter: string, partStart: nat, room: bool): (r: Frame)
    ensures r.Part? ==> partStart <= r.next && Matches(scan, delimiter, r.next)
  {
    match IndexOf(scan, delimiter, partStart)
    case None => Refused(UnterminatedPart)
    case Some(next) =>
      if !room then Refused(TooManyParts)
      else
        match IndexOf(scan, CRLF_CRLF, partStart)
        case None => Refused(NoHeaderBlock)
        case Some(headerEnd) =>
          if headerEnd > next then Refused(NoHeaderBlock)
          else Part(Slice(scan, partStart, headerEnd), Slice(scan, headerEnd + 4, next), next)
  }

  /** After the delimiter: padding up to the line break, then the part. */
  function FrameLine(scan: Buffer, delimiter: string, after: nat, room: bool): (r: Frame)
    ensures r.Part? ==> after <= r.next && Matches(scan, delimiter, r.next)
    ensures !r.Closing?
  {
    match IndexOf(scan, CRLF, after)
    case None => Refused(UnterminatedLine)
    case Some(lineEnd) =>
      if IsPadding(scan[after..lineEnd]) then FramePart(scan, delimiter, lineEnd + 2, room)
      else Refused(DataAfterDelimiter)
  }

  function FrameAt(scan: Buffer, delimiter: string, cursor: nat, room: bool): (r: Frame)
    requires Matches(scan, delimiter, cursor)
    ensures r.Part? ==> cursor + |delimiter| <= r.next && Matches(scan, delimiter, r.next)
    ensures r.Closing? <==> Matches(scan, DASH_DASH, cursor + |delimiter|)
  {
    if Matches(scan, DASH_DASH, cursor + |delimiter|) then Closing
    else FrameLine(scan, delimiter, cursor + |delimiter|, room)
  }

  /** The walk from a delimiter at `cursor`, with `parts` parts already read into `form`. */
  function ParseFrom(scan: Buffer, delimiter: string, cursor: nat, parts: nat, form: MultipartForm,
      limits: MultipartLimits)
    : (r: Result<Parsed, HttpError>)
    requires Matches(scan, delimiter, cursor) && |delimiter| > 0
    ensures r.Ok? ==> cursor + |delimiter| + 2 <= r.value.end <= |scan|
    decreases |scan| - cursor
  {
    match FrameAt(scan, delimiter, cursor, parts + 1 <= limits.maxParts)
    case Closing => Ok(Parsed(form, cursor + |delimiter| + 2))
    case Refused(detail) => Err(MalformedMultipart(detail))
    case Part(header, content, next) =>
      match ReadPart(header, content, form, limits)
      case Err(error) => Err(error)
      case Ok(grown) => ParseFrom(scan, delimiter, next, parts + 1, grown, limits)
  }

  /** The whole parse; `end` counts octets of `CRLF + body`. */
  function ParseScan(scan: Buffer, contentType: string, limits: MultipartLimits): (r: Result<Parsed, HttpError>)
    ensures r.Ok? ==> 2 <= r.value.end <= |scan|
  {
    match BoundaryFrom(contentType)
    case Err(error) => Err(error)
    case Ok(boundary) =>
      match IndexOf(scan, DelimiterOf(boundary), 0)
      case None => Err(MalformedMultipart(NoOpeningDelimiter))
      case Some(first) => ParseFrom(scan, DelimiterOf(boundary), first, 0, EMPTY_FORM, limits)
  }

  function Parse(body: Buffer, contentType: string, limits: MultipartLimits): (r: Result<MultipartForm, HttpError>) {
    match ParseScan(CRLF + body, contentType, limits)
    case Err(error) => Err(error)
    case Ok(parsed) => Ok(parsed.form)
  }

  // ── The loop of the source ──────────────────────────────────────

  method AddPart(header: Buffer, content: Buffer, form: MultipartForm, limits: MultipartLimits)
    returns (r: Result<MultipartForm, HttpError>)
    ensures r == ReadPart(header, content, form, limits)
  {
    var disposition := PartHeader(header, DISPOSITION_KEY);
    if disposition.None? {
      return Err(MalformedMultipart(NoDisposition));
    }
    var fieldName := DispositionParam(disposition.value, NAME);
    if fieldName.None? {
      return Err(MalformedMultipart(NoFieldName));
    }
    var filename := DispositionParam(disposition.value, FILENAME);
    if filename.None? {
      if |content| > limits.maxFieldBytes {
        return Err(FieldTooLarge(fieldName.value));
      }
      if fieldName.value in form.fields {
        return Ok(form);
      }
      return Ok(form.(fields := form.fields[fieldName.value := Utf8.Decode(content)]));
    }
    if |form.files| + 1 > limits.maxFiles {
      return Err(MalformedMultipart(TooManyFiles));
    }
    var contentType := PartHeader(header, TYPE_KEY);
    var file := MultipartFile(fieldName.value, filename.value, MediaType(contentType), content);
    return Ok(form.(files := form.files + [file]));
  }

  /** The framing half of one turn of the loop. */
  method ScanFrame(scan: Buffer, delimiter: string, cursor: nat, room: bool) returns (r: Frame)
    requires Matches(scan, delimiter, cursor)
    ensures r == FrameAt(scan, delimiter, cursor, room)
  {
    var after := cursor + |delimiter|;
    if Matches(scan, DASH_DASH, after) {
      return Closing;
    }
    var lineEnd := IndexOf(scan, CRLF, after);
    if lineEnd.None? {
      return Refused(UnterminatedLine);
    }
    if !IsPadding(scan[after..lineEnd.value]) {
      return Refused(DataAfterDelimiter);
    }
    var partStart := lineEnd.value + 2;
    var next := IndexOf(scan, delimiter, partStart);
    if next.None? {
      return Refused(UnterminatedPart);
    }
    if !room {
      return Refused(TooManyParts);
    }
    var headerEnd := IndexOf(scan, CRLF_CRLF, partStart);
    if headerEnd.None? || headerEnd.value > next.value {
      return Refused(NoHeaderBlock);
    }
    return Part(scan[partStart..headerEnd.value], Slice(scan, headerEnd.value + 4, next.value), next.value);
  }

  method ParseMultipartFormData(body: Buffer, contentType: string, limits: MultipartLimits := DEFAULT_LIMITS)
    returns (r: Result<MultipartForm, HttpError>)
    ensures r == Parse(body, contentType, limits)
  {
    var found := BoundaryFrom(contentType);
    if found.Err? {
      return Err(found.error);
    }
    var delimiter := DelimiterOf(found.value);
    var scan := CRLF + body;
    var fields: map<string, string> := map[];
    var files: seq<MultipartFile> := [];

    var cursor := IndexOf(scan, delimiter, 0);
    if cursor.None? {
      return Err(MalformedMultipart(NoOpeningDelimiter));
    }
    var parts := 0;
    ghost var whole := ParseScan(scan, contentType, limits);
    while true
      invariant cursor.Some? && Matches(scan, delimiter, cursor.value)
      invariant whole == ParseFrom(scan, delimiter, cursor.value, parts, MultipartForm(fields, files), limits)
      decreases |scan| - cursor.value
    {
      var frame := ScanFrame(scan, delimiter, cursor.value, parts + 1 <= limits.maxParts);
      match frame
      case Closing =>
        return Ok(MultipartForm(fields, files));
      case Refused(detail) =>
        return Err(MalformedMultipart(detail));
      case Part(header, content, next) =>
        parts := parts + 1;
        var read := AddPart(header, content, MultipartForm(fields, files), limits);
        if read.Err? {
          return Err(read.error);
        }
        fields, files := read.value.fields, read.value.files;
        cursor := Some(next);
    }
  }

  // ── Truncation ──────────────────────────────────────────────────

  /** The frame lies wholly before the cut, with the delimiter that ends it. */
  predicate Fits(frame: Frame, cursor: nat, delimiter: string, cut: nat) {
    match frame
    case Closing => cursor + |delimiter| + 2 <= cut
    case Part(_, _, next) => next + |delimiter| <= cut
    case Refused(_) => false
  }

  /** Cutting a buffer keeps the frames that fit and makes every other one a framing violation. */
  lemma CutFrame(scan: Buffer, cut: nat, delimiter: string, cursor: nat, room: bool)
    requires cut <= |scan|
    requires Matches(scan, delimiter, cursor) && cursor + |delimiter| <= cut && |delimiter| >= 4
    ensures Matches(scan[..cut], delimiter, cursor)
    ensures var all := FrameAt(scan, delimiter, cursor, room);
            var some := FrameAt(scan[..cut], delimiter, cursor, room);
            if Fits(all, cursor, delimiter, cut) then some == all else some.Refused?
  {
    hide FrameLine;
    MatchesInPrefix(scan, cut, delimiter, cursor);
    var after := cursor + |delimiter|;
    if Matches(scan, DASH_DASH, after) {
      CutClosing(scan, cut, delimiter, after, room);
    } else {
      assert !Matches(scan[..cut], DASH_DASH, after) by {
        MatchesInPrefix(scan, cut, DASH_DASH, after);
      }
      CutFrameLine(scan, cut, delimiter, after, room);
    }
  }

  lemma CutClosing(scan: Buffer, cut: nat, delimiter: string, after: nat, room: bool)
    requires after <= cut <= |scan|
    requires Matches(scan, DASH_DASH, after)
    ensures if after + 2 <= cut then Matches(scan[..cut], DASH_DASH, after)
            else !Matches(scan[..cut], DASH_DASH, after) && FrameLine(scan[..cut], delimiter, after, room).Refused?
  {
    MatchesInPrefix(scan, cut, DASH_DASH, after);
    if cut < after + 2 {
      assert IndexOf(scan[..cut], CRLF, after).None?;
    }
  }

  lemma CutFrameLine(scan: Buffer, cut: nat, delimiter: string, after: nat, room: bool)
    requires after <= cut <= |scan| && |delimiter| >= 4
    ensures var all := FrameLine(scan, delimiter, after, room);
            var some := FrameLine(scan[..cut], delimiter, after, room);
            if all.Part? && all.next + |delimiter| <= cut then some == all else some.Refused?
  {
    hide FramePart;
    IndexOfInPrefix(scan, cut, CRLF, after);
    var line := IndexOf(scan, CRLF, after);
    if line.Some? && line.value + 2 <= cut {
      assert scan[..cut][after..line.value] == scan[after..line.value];
      CutFramePart(scan, cut, delimiter, line.value + 2, room);
    }
  }

  lemma CutFramePart(scan: Buffer, cut: nat, delimiter: string, partStart: nat, room: bool)
    requires cut <= |scan|
    requires |delimiter| >= 4
    ensures var all := FramePart(scan, delimiter, partStart, room);
            if all.Part? && all.next + |delimiter| <= cut then FramePart(scan[..cut], delimiter, partStart, room) == all
            else FramePart(scan[..cut], delimiter, partStart, room).Refused?
  {
    IndexOfInPrefix(scan, cut, delimiter, partStart);
    IndexOfInPrefix(scan, cut, CRLF_CRLF, partStart);
    var next := IndexOf(scan, delimiter, partStart);
    var headerEnd := IndexOf(scan, CRLF_CRLF, partStart);
    if next.Some? && headerEnd.Some? && headerEnd.value <= next.value && next.value + |delimiter| <= cut {
      assert scan[..cut][partStart..headerEnd.value] == scan[partStart..headerEnd.value];
      assert Slice(scan[..cut], headerEnd.value + 4, next.value) == Slice(scan, headerEnd.value + 4, next.value);
    }
  }

  /** After a cut, the walk succeeds exactly when its closing delimiter fits, and then with the same outcome. */
  lemma {:induction false} CutWalk(scan: Buffer, cut: nat, delimiter: string, cursor: nat, parts: nat,
      form: MultipartForm, limits: MultipartLimits)
    requires cut <= |scan| && |delimiter| >= 4
    requires Matches(scan, delimiter, cursor) && cursor + |delimiter| <= cut
    ensures Matches(scan[..cut], delimiter, cursor)
    ensures var all := ParseFrom(scan, delimiter, cursor, parts, form, limits);
            var some := ParseFrom(scan[..cut], delimiter, cursor, parts, form, limits);
            && (some.Ok? <==> all.Ok? && all.value.end <= cut)
            && (some.Ok? ==> some == all)
    decreases |scan| - cursor
  {
    var room := parts + 1 <= limits.maxParts;
    hide ReadPart, FrameAt;
    CutFrame(scan, cut, delimiter, cursor, room);
    var frame := FrameAt(scan, delimiter, cursor, room);
    if frame.Part? && frame.next + |delimiter| <= cut {
      var read := ReadPart(frame.header, frame.content, form, limits);
      if read.Ok? {
        CutWalk(scan, cut, delimiter, frame.next, parts + 1, read.value, limits);
      }
    }
  }

  lemma CutScan(scan: Buffer, cut: nat, contentType: string, limits: MultipartLimits)
    requires cut <= |scan|
    ensures var all := ParseScan(scan, contentType, limits);
            var some := ParseScan(scan[..cut], contentType, limits);
            && (some.Ok? <==> all.Ok? && all.value.end <= cut)
            && (some.Ok? ==> some == all)
  {
    hide ParseFrom, BoundaryFrom, IndexOf;
    var boundary := BoundaryFrom(contentType);
    if boundary.Ok? {
      var delimiter := DelimiterOf(boundary.value);
      IndexOfInPrefix(scan, cut, delimiter, 0);
      var first := IndexOf(scan, delimiter, 0);
      if first.Some? && first.value + |delimiter| <= cut {
        CutWalk(scan, cut, delimiter, first.value, 0, EMPTY_FORM, limits);
      }
    }
  }

  /** Where in the body the closing delimiter of a successful parse ends. */
  function ClosedAt(body: Buffer, contentType: string, limits: MultipartLimits): (r: int)
    requires Parse(body, contentType, limits).Ok?
  {
    ParseScan(CRLF + body, contentType, limits).value.end - 2
  }

  lemma {:induction false} WalkClosesOnDelimiter(scan: Buffer, delimiter: string, cursor: nat, parts: nat,
      form: MultipartForm, limits: MultipartLimits)
    requires Matches(scan, delimiter, cursor) && |delimiter| > 0
    requires ParseFrom(scan, delimiter, cursor, parts, form, limits).Ok?
    ensures var end := ParseFrom(scan, delimiter, cursor, parts, form, limits).value.end;
            end <= |scan| && scan[end - |delimiter| - 2..end] == delimiter + DASH_DASH
    decreases |scan| - cursor
  {
    hide ReadPart, FrameAt;
    var frame := FrameAt(scan, delimiter, cursor, parts + 1 <= limits.maxParts);
    match frame
    case Closing =>
      MatchesAppend(scan, delimiter, DASH_DASH, cursor);
    case Part(header, content, next) =>
      var read := ReadPart(header, content, form, limits);
      WalkClosesOnDelimiter(scan, delimiter, next, parts + 1, read.value, limits);
  }

  lemma ScanClosesOnDelimiter(scan: Buffer, contentType: string, limits: MultipartLimits)
    requires ParseScan(scan, contentType, limits).Ok?
    ensures BoundaryFrom(contentType).Ok?
    ensures var closing := DelimiterOf(BoundaryFrom(contentType).value) + DASH_DASH;
            var end := ParseScan(scan, contentType, limits).value.end;
            |closing| <= end && scan[end - |closing|..end] == closing
  {
    hide ParseFrom, BoundaryFrom, IndexOf;
    var delimiter := DelimiterOf(BoundaryFrom(contentType).value);
    var first := IndexOf(scan, delimiter, 0).value;
    WalkClosesOnDelimiter(scan, delimiter, first, 0, EMPTY_FORM, limits);
  }

  /** The delimiter line of the closing delimiter, without the line break before it. */
  function ClosingLine(boundary: string): string {
    "--" + boundary + DASH_DASH
  }

  lemma ClosingAfterLineBreak(boundary: string)
    ensures DelimiterOf(boundary) + DASH_DASH == CRLF + ClosingLine(boundary)
  {
  }

  lemma DropLineBreak(body: Buffer, closing: Buffer, end: nat)
    requires |closing| + 2 <= end <= |body| + 2
    requires (CRLF + body)[end - |closing| - 2..end] == CRLF + closing
    ensures body[end - 2 - |closing|..end - 2] == closing
  {
    var scan := CRLF + body;
    forall i | 0 <= i < |closing| ensures body[end - 2 - |closing| + i] == closing[i] {
      assert scan[end - |closing| - 2..end][i + 2] == scan[end - |closing| + i];
      assert (CRLF + closing)[i + 2] == closing[i];
    }
  }

  /** The point a parse closes at really is the end of a `--boundary--` of the body. */
  lemma ClosedOnClosingDelimiter(body: Buffer, contentType: string, limits: MultipartLimits)
    requires Parse(body, contentType, limits).Ok?
    ensures BoundaryFrom(contentType).Ok?
    ensures var closing := ClosingLine(BoundaryFrom(contentType).value);
            var end := ClosedAt(body, contentType, limits);
            |closing| <= end <= |body| && body[end - |closing|..end] == closing
  {
    hide ParseScan, BoundaryFrom, DelimiterOf, ClosingLine;
    ScanClosesOnDelimiter(CRLF + body, contentType, limits);
    var boundary := BoundaryFrom(contentType).value;
    ClosingAfterLineBreak(boundary);
    DropLineBreak(body, ClosingLine(boundary), ParseScan(CRLF + body, contentType, limits).value.end);
  }

  /**
   * Truncation is always detected: a cut body parses exactly when the closing delimiter survived the cut whole,
   * and then to the same form. A shorter file is never returned.
   */
  lemma TruncationIsDetected(body: Buffer, contentType: string, limits: MultipartLimits, cut: nat)
    requires Parse(body, contentType, limits).Ok? && cut <= |body|
    ensures Parse(body[..cut], contentType, limits).Ok? <==> ClosedAt(body, contentType, limits) <= cut
    ensures ClosedAt(body, contentType, limits) <= cut ==>
              Parse(body[..cut], contentType, limits) == Parse(body, contentType, limits)
  {
    hide ParseScan;
    CutScan(CRLF + body, cut + 2, contentType, limits);
    assert (CRLF + body)[..cut + 2] == CRLF + body[..cut];
  }

  lemma SameScanToTheEnd(scan: Buffer, other: Buffer, cut: nat, contentType: string, limits: MultipartLimits)
    requires ParseScan(scan, contentType, limits).Ok?
    requires ParseScan(scan, contentType, limits).value.end <= cut <= |scan| && cut <= |other|
    requires other[..cut] == scan[..cut]
    ensures ParseScan(other, contentType, limits) == ParseScan(scan, contentType, limits)
  {
    hide ParseScan;
    CutScan(scan, cut, contentType, limits);
    CutScan(other, cut, contentType, limits);
  }

  /** What follows the closing delimiter has no say: bodies that agree up to it parse alike. */
  lemma TrailerIsIgnored(body: Buffer, other: Buffer, contentType: string, limits: MultipartLimits)
    requires Parse(body, contentType, limits).Ok?
    requires ClosedAt(body, contentType, limits) <= |other|
    requires forall i :: 0 <= i < ClosedAt(body, contentType, limits) && i < |body| ==> other[i] == body[i]
    ensures Parse(other, contentType, limits) == Parse(body, contentType, limits)
  {
    hide ParseScan;
    var scan, longer := CRLF + body, CRLF + other;
    var end := ParseScan(scan, contentType, limits).value.end;
    assert longer[..end] == scan[..end];
    SameScanToTheEnd(scan, longer, end, contentType, limits);
  }
}
