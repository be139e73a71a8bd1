/**
 * The header grammar of a multipart body (section 4 of RFC 7578): boundary, part headers, Content-Disposition
 * parameters and media type. The regular expressions of the source are written as scanners over the rest of
 * the text; each has one way to match, so no backtracking is lost.
 */
module MultipartHeaders {
  import opened Wrappers
  import opened Scanning

  const CRLF: Buffer := [CR, LF]
  const NAME := "name"
  const FILENAME := "filename"
  const BOUNDARY := "boundary"
  const MULTIPART := "multipart/form-data"
  const DISPOSITION_KEY := "content-disposition"
  const TYPE_KEY := "content-type"

  datatype Detail =
    | MissingBoundary | InvalidBoundary | NoOpeningDelimiter | UnterminatedLine | DataAfterDelimiter
    | UnterminatedPart | TooManyParts | NoHeaderBlock | NoDisposition | NoFieldName | TooManyFiles

  datatype HttpError =
    | UnsupportedMediaType
    | MalformedMultipart(detail: Detail)
    | FieldTooLarge(fieldName: string)

  // ── `;\s*name\s*=\s*` at a semicolon ────────────────────────────

  predicate NamedBy(s: string, name: string) {
    |name| <= |s| && forall i {:trigger name[i]} :: 0 <= i < |name| ==> Lower(s[i]) == name[i]
  }

  function AfterEquals(s: string): (r: Option<string>) {
    if s != [] && s[0] == '=' then Some(TrimStart(s[1..])) else None
  }

  /** After a `;`: what follows `name =`, if that parameter is the one given here. */
  function AfterParam(s: string, name: string): (r: Option<string>) {
    if NamedBy(TrimStart(s), name) then AfterEquals(TrimStart(TrimStart(s)[|name|..])) else None
  }

  /** The text at the value of the leftmost parameter called `name`. */
  function FirstParam(s: string, name: string): (r: Option<string>)
  {
    if s == [] then None
    else if s[0] == ';' && AfterParam(s[1..], name).Some? then AfterParam(s[1..], name)
    else FirstParam(s[1..], name)
  }

  /** `[^;\s]*` */
  function Bare(s: string): (r: string)
    ensures |r| <= |s| && r == s[..|r|]
  {
    if s == [] || s[0] == ';' || IsSpace(s[0]) then [] else [s[0]] + Bare(s[1..])
  }

  // ── Content-Disposition parameters ──────────────────────────────

  /** A character `.` does not match. */
  predicate IsLineEnd(c: char) {
    c in "\n\r\U{2028}\U{2029}"
  }

  /** After an opening quote: the unescaped text up to the closing one, if there is one. */
  function Quoted(s: string): (r: Option<string>)
  {
    if s == [] then None
    else if s[0] == '"' then Some([])
    else if s[0] == '\\' then
      if |s| < 2 || IsLineEnd(s[1]) then None else Prepend(s[1], Quoted(s[2..]))
    else Prepend(s[0], Quoted(s[1..]))
  }

  function Prepend(c: char, rest: Option<string>): (r: Option<string>) {
    match rest
    case None => None
    case Some(t) => Some([c] + t)
  }

  function BareValue(s: string): Option<string> {
    if Bare(s) == [] then None else Some(Bare(s))
  }

  function ParamValue(s: string): Option<string> {
    if s != [] && s[0] == '"' && Quoted(s[1..]).Some? then Quoted(s[1..]) else BareValue(s)
  }

  function DispositionParam(disposition: string, param: string): (r: Option<string>) {
    match FirstParam(disposition, param)
    case None => None
    case Some(value) => ParamValue(value)
  }

  // ── Part headers ────────────────────────────────────────────────

  /** `block.split('\r\n')` */
  function Lines(block: Buffer): (r: seq<Buffer>)
    ensures r != []
    decreases |block|
  {
    match IndexOf(block, CRLF, 0)
    case None => [block]
    case Some(at) => [block[..at]] + Lines(block[at + 2..])
  }

  /** The value on this line, when the line is the header `name`. */
  function LineValue(line: string, name: string): Option<string> {
    match Find(line, ':')
    case None => None
    case Some(colon) =>
      if colon > 0 && ToLower(Trim(line[..colon])) == name then Some(Trim(line[colon + 1..])) else None
  }

  function FirstValue(lines: seq<string>, name: string): Option<string> {
    if lines == [] then None
    else if LineValue(lines[0], name).Some? then LineValue(lines[0], name)
    else FirstValue(lines[1..], name)
  }

  function HeaderValue(block: Buffer, name: string): Option<string> {
    FirstValue(Lines(block), name)
  }

  /** One part header by lower-cased name: the first line that carries it. */
  method PartHeader(block: Buffer, name: string) returns (r: Option<string>)
    ensures r == HeaderValue(block, name)
  {
    var lines := Lines(block);
    for i := 0 to |lines|
      invariant FirstValue(lines, name) == FirstValue(lines[i..], name)
    {
      var colon := Find(lines[i], ':');
      if colon.None? || colon.value == 0 {
        continue;
      }
      if ToLower(Trim(lines[i][..colon.value])) == name {
        return Some(Trim(lines[i][colon.value + 1..]));
      }
    }
    return None;
  }

  function MediaType(header: Option<string>): (r: string) {
    match header
    case None => []
    case Some(value) => ToLower(Trim(Split(value, ';')[0]))
  }

  // ── The boundary parameter ──────────────────────────────────────

  /** `[^"]+"` */
  function UpToQuote(s: string): Option<string> {
    match Find(s, '"')
    case None => None
    case Some(at) => if at == 0 then None else Some(s[..at])
  }

  /** `"([^"]+)"|([^;\s]+)` */
  function BoundaryValue(s: string): Option<string> {
    if s != [] && s[0] == '"' && UpToQuote(s[1..]).Some? then UpToQuote(s[1..]) else BareValue(s)
  }

  function BoundaryParam(s: string): Option<string>
  {
    if s == [] then None
    else if s[0] == ';' && AfterParam(s[1..], BOUNDARY).Some?
            && BoundaryValue(AfterParam(s[1..], BOUNDARY).value).Some? then
      BoundaryValue(AfterParam(s[1..], BOUNDARY).value)
    else BoundaryParam(s[1..])
  }

  predicate IsBoundaryChar(c: char) {
    || '0' <= c <= '9' || 'A' <= c <= 'Z' || 'a' <= c <= 'z'
    || c in "'()+_,-./:=?"
  }

  predicate IsBoundary(s: string) {
    1 <= |s| <= 70 && forall i :: 0 <= i < |s| ==> IsBoundaryChar(s[i])
  }

  function StartsWith(s: string, prefix: string): bool {
    |prefix| <= |s| && s[..|prefix|] == prefix
  }

  function BoundaryFrom(contentType: string): (r: Result<string, HttpError>)
    ensures r.Ok? ==> IsBoundary(r.value)
  {
    if !StartsWith(ToLower(TrimStart(contentType)), MULTIPART) then Err(UnsupportedMediaType)
    else
      match BoundaryParam(contentType)
      case None => Err(MalformedMultipart(MissingBoundary))
      case Some(raw) =>
        if IsBoundary(raw) then Ok(raw) else Err(MalformedMultipart(InvalidBoundary))
  }
}
