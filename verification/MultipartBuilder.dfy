/**
 * buildMultipartFormData and the law that makes it the inverse of the parser: what it frames is read back
 * exactly, and precisely when.
 */
module MultipartBuilder {
  import opened Wrappers
  import opened Scanning
  import Utf8
  import opened MultipartHeaders
  import opened MultipartParser
  import opened MultipartFraming
  import opened MultipartNames

  datatype FormFile = FormFile(fieldName: string, contentType: string, bytes: Buffer)

  datatype Built = Built(body: Buffer, contentType: string)

  datatype BuildError = UnsafeField | UnsafeFile | BoundaryCollision

  /** The field record, in the order of `Object.entries`; its names are distinct. */
  type Fields = seq<(string, string)>

  predicate DistinctNames(fields: Fields) {
    forall i, j :: 0 <= i < j < |fields| ==> fields[i].0 != fields[j].0
  }

  /** 16 random bytes in hexadecimal. */
  predicate IsToken(token: string) {
    |token| == 32 && forall i :: 0 <= i < |token| ==> '0' <= token[i] <= '9' || 'a' <= token[i] <= 'f'
  }

  const PREFIX := "usrp-"

  function BoundaryOf(token: string): string {
    PREFIX + token
  }

  function DashBoundary(boundary: string): string {
    DASH_DASH + boundary
  }

  predicate HasLineBreak(s: string) {
    CR in s || LF in s
  }

  predicate FieldRefused(field: (string, string)) {
    !IsFrameable(field.0) || HasLineBreak(field.1)
  }

  // ── Building ────────────────────────────────────────────────────

  /** The text of one field part, from its boundary line to the line break after its value. */
  function FieldText(boundary: string, field: (string, string)): string {
    DashBoundary(boundary) + (CRLF + (FieldHead(field.0) + (CRLF_CRLF + (field.1 + CRLF))))
  }

  function FileText(boundary: string, file: FormFile): string {
    DashBoundary(boundary) + (CRLF + (FileHead(file.fieldName, file.contentType) + CRLF_CRLF))
  }

  function ClosingText(boundary: string): string {
    CRLF + (DashBoundary(boundary) + (DASH_DASH + CRLF))
  }

  function Chunks(boundary: string, fields: Fields): Buffer {
    if fields == [] then [] else Utf8.Encode(FieldText(boundary, fields[0])) + Chunks(boundary, fields[1..])
  }

  function BodyOf(boundary: string, fields: Fields, file: FormFile): Buffer {
    Chunks(boundary, fields)
    + (Utf8.Encode(FileText(boundary, file)) + (file.bytes + Utf8.Encode(ClosingText(boundary))))
  }

  function FirstRefusal(boundary: string, fields: Fields, file: FormFile): Option<BuildError> {
    if exists i :: 0 <= i < |fields| && FieldRefused(fields[i]) then Some(UnsafeField)
    else if !IsFrameable(file.fieldName) || HasLineBreak(file.contentType) then Some(UnsafeFile)
    else if IndexOf(file.bytes, Utf8.Encode(DashBoundary(boundary)), 0).Some? then Some(BoundaryCollision)
    else None
  }

  function Build(fields: Fields, file: FormFile, token: string): (r: Result<Built, BuildError>) {
    var boundary := BoundaryOf(token);
    match FirstRefusal(boundary, fields, file)
    case Some(error) => Err(error)
    case None => Ok(Built(BodyOf(boundary, fields, file), MULTIPART + ParamText(BOUNDARY, boundary)))
  }

  lemma {:induction false} ChunksAppend(boundary: string, fields: Fields, field: (string, string))
    ensures Chunks(boundary, fields + [field]) == Chunks(boundary, fields) + Utf8.Encode(FieldText(boundary, field))
  {
    hide FieldText;
    if fields == [] {
      assert ([] + [field])[1..] == [];
    } else {
      assert (fields + [field])[1..] == fields[1..] + [field];
      ChunksAppend(boundary, fields[1..], field);
    }
  }

  method BuildMultipartFormData(fields: Fields, file: FormFile, token: string) returns (r: Result<Built, BuildError>)
    ensures r == Build(fields, file, token)
  {
    hide FieldText, FileText, ClosingText, FieldRefused, IsFrameable, IndexOf, ParamText, BoundaryOf;
    var boundary := BoundaryOf(token);
    var body: Buffer := [];
    for i := 0 to |fields|
      invariant body == Chunks(boundary, fields[..i])
      invariant forall k :: 0 <= k < i ==> !FieldRefused(fields[k])
    {
      if FieldRefused(fields[i]) {
        return Err(UnsafeField);
      }
      ChunksAppend(boundary, fields[..i], fields[i]);
      assert fields[..i + 1] == fields[..i] + [fields[i]];
      body := body + Utf8.Encode(FieldText(boundary, fields[i]));
    }
    assert fields[..|fields|] == fields;
    if !IsFrameable(file.fieldName) || HasLineBreak(file.contentType) {
      return Err(UnsafeFile);
    }
    if IndexOf(file.bytes, Utf8.Encode(DashBoundary(boundary)), 0).Some? {
      return Err(BoundaryCollision);
    }
    body := body + (Utf8.Encode(FileText(boundary, file)) + (file.bytes + Utf8.Encode(ClosingText(boundary))));
    return Ok(Built(body, MULTIPART + ParamText(BOUNDARY, boundary)));
  }

  // ── The body as the parser scans it ─────────────────────────────

  /** `CRLF + body`, delimiter by delimiter. */
  function Wire(d: string, fields: Fields, file: FormFile): Buffer {
    if fields == [] then
      d + CRLF + Framed(FileHead(Utf8.Encode(file.fieldName), Utf8.Encode(file.contentType)), file.bytes, d + (DASH_DASH + CRLF))
    else
      d + CRLF + Framed(FieldHead(Utf8.Encode(fields[0].0)), Utf8.Encode(fields[0].1), Wire(d, fields[1..], file))
  }

  lemma EncodeWithin(left: string, text: string, right: string)
    requires Utf8.IsAscii(left) && Utf8.IsAscii(right)
    ensures Utf8.Encode(left + (text + right)) == left + (Utf8.Encode(text) + right)
  {
    hide Utf8.Encode;
    Utf8.EncodeAppend(left, text + right);
    Utf8.EncodeAppend(text, right);
    Utf8.EncodeAscii(left);
    Utf8.EncodeAscii(right);
  }

  lemma AsciiAppend(s: string, t: string)
    requires Utf8.IsAscii(s) && Utf8.IsAscii(t)
    ensures Utf8.IsAscii(s + t)
  {
  }

  lemma AsciiLiterals()
    ensures Utf8.IsAscii(CONTENT_DISPOSITION) && Utf8.IsAscii(CONTENT_TYPE) && Utf8.IsAscii(FORM_DATA)
    ensures Utf8.IsAscii(NAME) && Utf8.IsAscii(FILENAME) && Utf8.IsAscii(UPLOAD)
  {
  }

  lemma AsciiUpload()
    ensures Utf8.IsAscii(UPLOAD_PARAM)
  {
    hide FILENAME, UPLOAD;
    AsciiLiterals();
  }

  /** What stands in front of the name in its header line. */
  function BeforeName(): string {
    HeaderLine(CONTENT_DISPOSITION, FORM_DATA + ParamText(NAME, QUOTE))
  }

  lemma NameInLine(name: Buffer, tail: Buffer)
    ensures HeaderLine(CONTENT_DISPOSITION, Disposition(name, tail)) == BeforeName() + (name + (QUOTE + tail))
  {
    hide CONTENT_DISPOSITION, FORM_DATA, NAME;
    var value := name + (QUOTE + tail);
    Grouped(['='], QUOTE, value);
    Grouped(NAME, ['='] + QUOTE, value);
    Grouped([' '], NAME + (['='] + QUOTE), value);
    Grouped([';'], [' '] + (NAME + (['='] + QUOTE)), value);
    Grouped(FORM_DATA, ParamText(NAME, QUOTE), value);
    Grouped([' '], FORM_DATA + ParamText(NAME, QUOTE), value);
    Grouped([':'], [' '] + (FORM_DATA + ParamText(NAME, QUOTE)), value);
    Grouped(CONTENT_DISPOSITION, [':'] + ([' '] + (FORM_DATA + ParamText(NAME, QUOTE))), value);
  }

  lemma AsciiBeforeName()
    ensures Utf8.IsAscii(BeforeName())
  {
    hide CONTENT_DISPOSITION, FORM_DATA, NAME;
    AsciiLiterals();
  }

  /** A header line with a name in it is encoded around the name. */
  lemma EncodedLine(name: string, tail: string)
    requires Utf8.IsAscii(tail)
    ensures Utf8.Encode(HeaderLine(CONTENT_DISPOSITION, Disposition(name, tail)))
         == HeaderLine(CONTENT_DISPOSITION, Disposition(Utf8.Encode(name), tail))
  {
    AsciiAppend(QUOTE, tail);
    hide Utf8.Encode, HeaderLine, Disposition, BeforeName;
    AsciiBeforeName();
    NameInLine(name, tail);
    NameInLine(Utf8.Encode(name), tail);
    EncodeWithin(BeforeName(), name, QUOTE + tail);
  }

  lemma EncodedTypeLine(contentType: string)
    ensures Utf8.Encode(HeaderLine(CONTENT_TYPE, contentType)) == HeaderLine(CONTENT_TYPE, Utf8.Encode(contentType))
  {
    hide Utf8.Encode, CONTENT_TYPE;
    AsciiLiterals();
    var left := CONTENT_TYPE + ([':'] + [' ']);
    Grouped([':'], [' '], contentType);
    Grouped(CONTENT_TYPE, [':'] + [' '], contentType);
    Grouped([':'], [' '], Utf8.Encode(contentType));
    Grouped(CONTENT_TYPE, [':'] + [' '], Utf8.Encode(contentType));
    Utf8.EncodeAppend(left, contentType);
    Utf8.EncodeAscii(left);
  }

  lemma EncodedFieldHead(name: string)
    ensures Utf8.Encode(FieldHead(name)) == FieldHead(Utf8.Encode(name))
  {
    hide Utf8.Encode, HeaderLine, Disposition;
    EncodedLine(name, []);
  }

  lemma EncodedFileHead(name: string, contentType: string)
    ensures Utf8.Encode(FileHead(name, contentType)) == FileHead(Utf8.Encode(name), Utf8.Encode(contentType))
  {
    hide Utf8.Encode, HeaderLine, Disposition, UPLOAD_PARAM;
    AsciiUpload();
    EncodedLine(name, UPLOAD_PARAM);
    EncodedTypeLine(contentType);
    var line, rest := HeaderLine(CONTENT_DISPOSITION, Disposition(name, UPLOAD_PARAM)), HeaderLine(CONTENT_TYPE, contentType);
    Utf8.EncodeAppend(line, CRLF + rest);
    Utf8.EncodeAppend(CRLF, rest);
    Utf8.EncodeAscii(CRLF);
  }

  lemma EncodedField(boundary: string, field: (string, string))
    requires Utf8.IsAscii(boundary)
    ensures CRLF + Utf8.Encode(FieldText(boundary, field))
         == DelimiterOf(boundary) + (CRLF + (FieldHead(Utf8.Encode(field.0)) + (CRLF_CRLF + (Utf8.Encode(field.1) + CRLF))))
  {
    hide Utf8.Encode, FieldHead;
    var head, tail := FieldHead(field.0), CRLF_CRLF + (field.1 + CRLF);
    EncodedFieldHead(field.0);
    EncodeWithin(CRLF_CRLF, field.1, CRLF);
    Utf8.EncodeAppend(head, tail);
    Utf8.EncodeAppend(CRLF, head + tail);
    Utf8.EncodeAscii(CRLF);
    Utf8.EncodeAppend(DashBoundary(boundary), CRLF + (head + tail));
    Utf8.EncodeAscii(DashBoundary(boundary));
    assert DelimiterOf(boundary) == CRLF + DashBoundary(boundary);
    Grouped(CRLF, DashBoundary(boundary), CRLF + (Utf8.Encode(head) + Utf8.Encode(tail)));
  }

  lemma EncodedFile(boundary: string, file: FormFile)
    requires Utf8.IsAscii(boundary)
    ensures CRLF + Utf8.Encode(FileText(boundary, file))
         == DelimiterOf(boundary) + (CRLF + (FileHead(Utf8.Encode(file.fieldName), Utf8.Encode(file.contentType)) + CRLF_CRLF))
  {
    hide Utf8.Encode, FileHead;
    var head := FileHead(file.fieldName, file.contentType);
    EncodedFileHead(file.fieldName, file.contentType);
    Utf8.EncodeAppend(head, CRLF_CRLF);
    Utf8.EncodeAscii(CRLF_CRLF);
    Utf8.EncodeAppend(CRLF, head + CRLF_CRLF);
    Utf8.EncodeAscii(CRLF);
    Utf8.EncodeAppend(DashBoundary(boundary), CRLF + (head + CRLF_CRLF));
    Utf8.EncodeAscii(DashBoundary(boundary));
    assert DelimiterOf(boundary) == CRLF + DashBoundary(boundary);
    Grouped(CRLF, DashBoundary(boundary), CRLF + (Utf8.Encode(head) + CRLF_CRLF));
  }

  lemma EncodedClosing(boundary: string)
    requires Utf8.IsAscii(boundary)
    ensures Utf8.Encode(ClosingText(boundary)) == DelimiterOf(boundary) + (DASH_DASH + CRLF)
  {
    hide Utf8.Encode;
    Utf8.EncodeAscii(ClosingText(boundary));
    assert DelimiterOf(boundary) == CRLF + DashBoundary(boundary);
  }

  lemma Grouped(a: Buffer, b: Buffer, c: Buffer)
    ensures a + b + c == a + (b + c)
  {
  }

  lemma Regroup(d: Buffer, head: Buffer, content: Buffer, rest: Buffer)
    ensures d + (CRLF + (head + (CRLF_CRLF + (content + CRLF)))) + rest == d + CRLF + Framed(head, content, CRLF + rest)
    ensures d + (CRLF + (head + CRLF_CRLF)) + (content + rest) == d + CRLF + Framed(head, content, rest)
  {
    FramedGrouped(head, content, CRLF + rest);
    FramedGrouped(head, content, rest);
    hide *;
    Regrouped(d, head, content + CRLF, rest);
    Grouped(content, CRLF, rest);
    Regrouped(d, head, [], content + rest);
    assert CRLF_CRLF + [] == CRLF_CRLF && [] + (content + rest) == content + rest;
  }

  lemma FramedGrouped(head: Buffer, content: Buffer, rest: Buffer)
    ensures Framed(head, content, rest) == head + (CRLF_CRLF + (content + rest))
  {
    assert Framed(head, content, rest) == head + CRLF_CRLF + content + rest;
    Grouped(head + CRLF_CRLF, content, rest);
    Grouped(head, CRLF_CRLF, content + rest);
  }

  lemma Regrouped(d: Buffer, head: Buffer, tail: Buffer, rest: Buffer)
    ensures d + (CRLF + (head + (CRLF_CRLF + tail))) + rest == d + CRLF + (head + (CRLF_CRLF + (tail + rest)))
  {
    hide *;
    Grouped(d, CRLF + (head + (CRLF_CRLF + tail)), rest);
    Grouped(CRLF, head + (CRLF_CRLF + tail), rest);
    Grouped(head, CRLF_CRLF + tail, rest);
    Grouped(CRLF_CRLF, tail, rest);
    Grouped(d, CRLF, head + (CRLF_CRLF + (tail + rest)));
  }

  /** What is built, behind the CRLF the parser puts in front of it, is the wire form. */
  lemma {:induction false} BodyOnTheWire(boundary: string, fields: Fields, file: FormFile)
    requires Utf8.IsAscii(boundary)
    ensures CRLF + BodyOf(boundary, fields, file) == Wire(DelimiterOf(boundary), fields, file)
  {
    hide FieldText, FileText, ClosingText, FieldHead, FileHead, Framed, DelimiterOf, Utf8.Encode;
    var d := DelimiterOf(boundary);
    if fields == [] {
      EncodedFile(boundary, file);
      EncodedClosing(boundary);
      var head := FileHead(Utf8.Encode(file.fieldName), Utf8.Encode(file.contentType));
      Regroup(d, head, file.bytes, d + (DASH_DASH + CRLF));
      var tail := file.bytes + Utf8.Encode(ClosingText(boundary));
      assert CRLF + BodyOf(boundary, fields, file) == (CRLF + Utf8.Encode(FileText(boundary, file))) + tail;
    } else {
      EncodedField(boundary, fields[0]);
      BodyOnTheWire(boundary, fields[1..], file);
      var chunk := Utf8.Encode(FieldText(boundary, fields[0]));
      var rest := BodyOf(boundary, fields[1..], file);
      assert CRLF + BodyOf(boundary, fields, file) == (CRLF + chunk) + rest;
      Regroup(d, FieldHead(Utf8.Encode(fields[0].0)), Utf8.Encode(fields[0].1), rest);
    }
  }
}
