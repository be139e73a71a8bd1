/**
 * Which bodies parse and to what, said without the scan: a chain of delimiter lines, each followed by a header block, a
 * blank line and content, up to the first closing delimiter; and what the parts of the chain make of the form.
 */
module MultipartGrammar {
  import opened Wrappers
  import opened Scanning
  import opened MultipartHeaders
  import opened MultipartParser
  import Utf8

  // ── Places in the text ──────────────────────────────────────────

  predicate StandsAt(s: Buffer, pattern: Buffer, at: nat) {
    at + |pattern| <= |s| && s[at..at + |pattern|] == pattern
  }

  ghost predicate FirstFrom(s: Buffer, pattern: Buffer, from: nat, at: nat) {
    from <= at && StandsAt(s, pattern, at) && forall i :: from <= i < at ==> !StandsAt(s, pattern, i)
  }

  lemma StandsMeans(s: Buffer, pattern: Buffer, at: nat)
    ensures StandsAt(s, pattern, at) <==> Matches(s, pattern, at)
  {
    if at + |pattern| <= |s| {
      var there := s[at..at + |pattern|];
      if Matches(s, pattern, at) {
        assert forall j :: 0 <= j < |pattern| ==> there[j] == pattern[j];
        assert there == pattern;
      }
      if there == pattern {
        assert forall j {:trigger pattern[j]} :: 0 <= j < |pattern| ==> s[at + j] == there[j];
      }
    }
  }

  lemma FirstMeans(s: Buffer, pattern: Buffer, from: nat, at: nat)
    ensures FirstFrom(s, pattern, from, at) <==> IndexOf(s, pattern, from) == Some(at)
  {
    hide StandsAt, Matches, IndexOf;
    forall i: nat ensures StandsAt(s, pattern, i) <==> Matches(s, pattern, i) {
      StandsMeans(s, pattern, i);
    }
    if FirstFrom(s, pattern, from, at) {
      IndexOfIs(s, pattern, from, at);
    }
    if IndexOf(s, pattern, from) == Some(at) {
      forall i: nat | from <= i < at ensures !StandsAt(s, pattern, i) {
        IndexOfIsFirst(s, pattern, from, i);
      }
    }
  }

  // ── The chain of parts ──────────────────────────────────────────

  /** Where a part stands: its delimiter, the end of that line, the blank line, and the delimiter that ends it. */
  datatype Place = Place(start: nat, lineEnd: nat, blank: nat, next: nat)

  /**
   * A part stands here: a delimiter that is not the closing one, only spaces and tabs to the end of its line, and a
   * blank line no later than the next delimiter.
   */
  ghost predicate PartStands(scan: Buffer, d: string, p: Place) {
    && StandsAt(scan, d, p.start) && !StandsAt(scan, "--", p.start + |d|)
    && FirstFrom(scan, "\r\n", p.start + |d|, p.lineEnd)
    && (forall i :: p.start + |d| <= i < p.lineEnd ==> i < |scan| && (scan[i] == ' ' || scan[i] == '\t'))
    && FirstFrom(scan, d, p.lineEnd + 2, p.next)
    && FirstFrom(scan, "\r\n\r\n", p.lineEnd + 2, p.blank) && p.blank <= p.next
  }

  /** The header block is what stands before the blank line, the content what stands behind it. */
  ghost function PartAt(scan: Buffer, d: string, p: Place): (Buffer, Buffer)
    requires PartStands(scan, d, p)
  {
    assert p.lineEnd + 2 <= p.blank <= p.next <= |scan|;
    (scan[p.lineEnd + 2..p.blank], if p.blank + 4 <= p.next then scan[p.blank + 4..p.next] else [])
  }

  ghost predicate Chained(scan: Buffer, d: string, from: nat, places: seq<Place>, end: nat) {
    && (forall k :: 0 <= k < |places| ==> PartStands(scan, d, places[k]))
    && (forall k :: 0 < k < |places| ==> places[k].start == places[k - 1].next)
    && (if places == [] then end == from else places[0].start == from && places[|places| - 1].next == end)
  }

  ghost function PartsAt(scan: Buffer, d: string, places: seq<Place>): (r: seq<(Buffer, Buffer)>)
    requires forall k :: 0 <= k < |places| ==> PartStands(scan, d, places[k])
    ensures |r| == |places|
  {
    seq(|places|, k requires 0 <= k < |places| => PartAt(scan, d, places[k]))
  }

  // ── What parts make of a form ───────────────────────────────────

  function NameOf(header: Buffer): Option<string> {
    var disposition :- HeaderValue(header, "content-disposition");
    DispositionParam(disposition, "name")
  }

  function FilenameOf(header: Buffer): Option<string> {
    var disposition :- HeaderValue(header, "content-disposition");
    DispositionParam(disposition, "filename")
  }

  function FilesOf(parts: seq<(Buffer, Buffer)>): seq<MultipartFile>
  {
    if parts == [] then []
    else
      match (NameOf(parts[0].0), FilenameOf(parts[0].0))
      case (Some(name), Some(filename)) =>
        [MultipartFile(name, filename, MediaType(HeaderValue(parts[0].0, "content-type")), parts[0].1)] + FilesOf(parts[1..])
      case _ => FilesOf(parts[1..])
  }

  predicate IsField(part: (Buffer, Buffer), name: string) {
    NameOf(part.0) == Some(name) && FilenameOf(part.0).None?
  }

  predicate FirstField(parts: seq<(Buffer, Buffer)>, k: nat, name: string) {
    k < |parts| && IsField(parts[k], name) && forall j :: 0 <= j < k ==> !IsField(parts[j], name)
  }

  /** Every part has a name, and a text field is no longer than it may be. */
  predicate Readable(part: (Buffer, Buffer), limits: MultipartLimits) {
    NameOf(part.0).Some? && (FilenameOf(part.0).None? ==> |part.1| <= limits.maxFieldBytes)
  }

  ghost predicate Named(parts: seq<(Buffer, Buffer)>, name: string) {
    exists k :: 0 <= k < |parts| && IsField(parts[k], name)
  }

  /** The new fields, each with the content of the first part of that name, decoded as UTF-8. */
  ghost predicate HoldsFirst(fields: map<string, string>, parts: seq<(Buffer, Buffer)>, name: string) {
    forall k :: 0 <= k < |parts| && FirstField(parts, k, name) ==> name in fields && fields[name] == Utf8.Decode(parts[k].1)
  }

  /** The files in their order, and the fields; what was there before stays. */
  ghost predicate Collects(before: MultipartForm, parts: seq<(Buffer, Buffer)>, form: MultipartForm) {
    && form.files == before.files + FilesOf(parts)
    && (forall name :: name in form.fields <==> name in before.fields || Named(parts, name))
    && (forall name :: name in before.fields ==> name in form.fields && form.fields[name] == before.fields[name])
    && (forall name :: name !in before.fields ==> HoldsFirst(form.fields, parts, name))
  }

  function ReadAll(parts: seq<(Buffer, Buffer)>, form: MultipartForm,
      limits: MultipartLimits): Result<MultipartForm, HttpError> {
    if parts == [] then Ok(form)
    else
      match ReadPart(parts[0].0, parts[0].1, form, limits)
      case Err(error) => Err(error)
      case Ok(grown) => ReadAll(parts[1..], grown, limits)
  }

  lemma FormIsUnique(before: MultipartForm, parts: seq<(Buffer, Buffer)>, a: MultipartForm, b: MultipartForm)
    requires Collects(before, parts, a) && Collects(before, parts, b)
    ensures a == b
  {
    hide IsField, FilesOf, Utf8.Decode;
    assert a.fields.Keys == b.fields.Keys;
    forall name | name in a.fields ensures a.fields[name] == b.fields[name] {
      if name !in before.fields {
        var k := FirstOf(parts, name);
        assert HoldsFirst(a.fields, parts, name) && HoldsFirst(b.fields, parts, name);
      }
    }
    assert a.fields == b.fields;
  }

  lemma {:induction false} FirstOf(parts: seq<(Buffer, Buffer)>, name: string) returns (k: nat)
    requires Named(parts, name)
    ensures FirstField(parts, k, name)
  {
    hide IsField;
    k := 0;
    while !IsField(parts[k], name)
      invariant k < |parts|
      invariant forall j :: 0 <= j < k ==> !IsField(parts[j], name)
      decreases |parts| - k
    {
      k := k + 1;
    }
  }

  // ── Reading the parts ───────────────────────────────────────────

  lemma ReadPartAdmits(header: Buffer, content: Buffer, form: MultipartForm, limits: MultipartLimits)
    ensures ReadPart(header, content, form, limits).Ok?
       <==> Readable((header, content), limits) && (FilenameOf(header).Some? ==> |form.files| + 1 <= limits.maxFiles)
  {
    assert "content-disposition" == DISPOSITION_KEY && "name" == NAME && "filename" == FILENAME;
    hide HeaderValue, DispositionParam, MediaType, Utf8.Decode, DISPOSITION_KEY, NAME, FILENAME;
  }

  /** What a part that is read makes of the form. */
  lemma ReadPartGives(header: Buffer, content: Buffer, form: MultipartForm, limits: MultipartLimits)
    requires ReadPart(header, content, form, limits).Ok?
    ensures NameOf(header).Some?
    ensures ReadPart(header, content, form, limits).value ==
              match FilenameOf(header)
              case Some(filename) =>
                form.(files := form.files + [MultipartFile(NameOf(header).value, filename, MediaType(HeaderValue(header, "content-type")), content)])
              case None =>
                if NameOf(header).value in form.fields then form
                else form.(fields := form.fields[NameOf(header).value := Utf8.Decode(content)])
  {
    assert "content-disposition" == DISPOSITION_KEY && "name" == NAME && "filename" == FILENAME && "content-type" == TYPE_KEY;
    hide HeaderValue, DispositionParam, MediaType, Utf8.Decode, DISPOSITION_KEY, NAME, FILENAME, TYPE_KEY;
  }

  lemma FileCollects(form: MultipartForm, part: (Buffer, Buffer), filename: string)
    requires NameOf(part.0).Some? && FilenameOf(part.0) == Some(filename)
    ensures var file := MultipartFile(NameOf(part.0).value, filename, MediaType(HeaderValue(part.0, "content-type")), part.1);
            Collects(form, [part], form.(files := form.files + [file]))
  {
    hide NameOf, FilenameOf, MediaType, HeaderValue, Utf8.Decode;
    assert [part][0] == part && [part][1..] == [];
    assert FilesOf([]) == [];
  }

  lemma FieldCollects(form: MultipartForm, part: (Buffer, Buffer), name: string)
    requires NameOf(part.0) == Some(name) && FilenameOf(part.0).None?
    ensures Collects(form, [part], if name in form.fields then form else form.(fields := form.fields[name := Utf8.Decode(part.1)]))
  {
    hide NameOf, FilenameOf, MediaType, HeaderValue, Utf8.Decode;
    assert [part][0] == part && [part][1..] == [];
    assert FilesOf([]) == [];
    assert form.files + [] == form.files;
  }

  lemma ReadPartMeans(header: Buffer, content: Buffer, form: MultipartForm, limits: MultipartLimits)
    ensures ReadPart(header, content, form, limits).Ok?
       <==> Readable((header, content), limits) && (FilenameOf(header).Some? ==> |form.files| + 1 <= limits.maxFiles)
    ensures ReadPart(header, content, form, limits).Ok? ==>
              Collects(form, [(header, content)], ReadPart(header, content, form, limits).value)
  {
    hide *;
    ReadPartAdmits(header, content, form, limits);
    if ReadPart(header, content, form, limits).Ok? {
      ReadPartGives(header, content, form, limits);
      match FilenameOf(header) {
        case Some(filename) => FileCollects(form, (header, content), filename);
        case None => FieldCollects(form, (header, content), NameOf(header).value);
      }
    }
  }

  lemma NamedOneMore(part: (Buffer, Buffer), rest: seq<(Buffer, Buffer)>, name: string)
    ensures Named([part], name) <==> IsField(part, name)
    ensures Named([part] + rest, name) <==> IsField(part, name) || Named(rest, name)
  {
    hide IsField;
    var parts := [part] + rest;
    assert [part][0] == part && parts[0] == part;
    forall k | 0 <= k < |rest| ensures parts[k + 1] == rest[k] {
    }
    forall k | 0 < k < |parts| ensures parts[k] == rest[k - 1] {
    }
  }

  lemma FirstShifted(part: (Buffer, Buffer), rest: seq<(Buffer, Buffer)>, k: nat, name: string)
    requires FirstField([part] + rest, k, name)
    ensures k == 0 ==> IsField(part, name) && ([part] + rest)[k] == part
    ensures k > 0 ==> !IsField(part, name) && FirstField(rest, k - 1, name) && ([part] + rest)[k] == rest[k - 1]
  {
    hide IsField;
    var parts := [part] + rest;
    assert parts[0] == part;
    if k > 0 {
      assert parts[k] == rest[k - 1];
      forall j | 0 <= j < k - 1 ensures !IsField(rest[j], name) {
        assert rest[j] == parts[j + 1];
      }
    }
  }

  lemma FirstOneMore(fields: map<string, string>, part: (Buffer, Buffer), rest: seq<(Buffer, Buffer)>, name: string)
    requires if IsField(part, name) then name in fields && fields[name] == Utf8.Decode(part.1) else HoldsFirst(fields, rest, name)
    ensures HoldsFirst(fields, [part] + rest, name)
  {
    hide IsField, FirstField, Utf8.Decode;
    var parts := [part] + rest;
    forall k | 0 <= k < |parts| && FirstField(parts, k, name) ensures name in fields && fields[name] == Utf8.Decode(parts[k].1) {
      FirstShifted(part, rest, k, name);
    }
  }

  lemma OneField(fields: map<string, string>, part: (Buffer, Buffer), name: string)
    requires HoldsFirst(fields, [part], name) && IsField(part, name)
    ensures name in fields && fields[name] == Utf8.Decode(part.1)
  {
    assert FirstField([part], 0, name);
  }

  lemma FilesOneMore(part: (Buffer, Buffer), rest: seq<(Buffer, Buffer)>)
    ensures FilesOf([part] + rest) == FilesOf([part]) + FilesOf(rest)
    ensures |FilesOf([part])| <= 1
    ensures NameOf(part.0).Some? ==> |FilesOf([part])| == if FilenameOf(part.0).Some? then 1 else 0
  {
    hide NameOf, FilenameOf, MediaType, HeaderValue;
    assert ([part] + rest)[1..] == rest && [part][1..] == [];
    assert FilesOf([]) == [];
  }

  /** What collecting says of one name. */
  ghost predicate CollectsName(before: MultipartForm, parts: seq<(Buffer, Buffer)>, form: MultipartForm, name: string) {
    && (name in form.fields <==> name in before.fields || Named(parts, name))
    && (name in before.fields ==> name in form.fields && form.fields[name] == before.fields[name])
    && (name !in before.fields ==> HoldsFirst(form.fields, parts, name))
  }

  lemma CollectsByName(before: MultipartForm, parts: seq<(Buffer, Buffer)>, form: MultipartForm)
    ensures Collects(before, parts, form)
       <==> form.files == before.files + FilesOf(parts) && forall name :: CollectsName(before, parts, form, name)
  {
    hide FilesOf, Named, HoldsFirst;
    if forall name :: CollectsName(before, parts, form, name) {
      forall name
        ensures name in form.fields <==> name in before.fields || Named(parts, name)
        ensures name in before.fields ==> name in form.fields && form.fields[name] == before.fields[name]
        ensures name !in before.fields ==> HoldsFirst(form.fields, parts, name)
      {
        assert CollectsName(before, parts, form, name);
      }
    }
  }

  lemma NameOneMore(before: MultipartForm, part: (Buffer, Buffer), middle: MultipartForm, rest: seq<(Buffer, Buffer)>,
      form: MultipartForm, name: string)
    requires CollectsName(before, [part], middle, name) && CollectsName(middle, rest, form, name)
    ensures CollectsName(before, [part] + rest, form, name)
  {
    hide IsField, Named, HoldsFirst, Utf8.Decode;
    NamedOneMore(part, rest, name);
    if name !in before.fields {
      if IsField(part, name) {
        OneField(middle.fields, part, name);
      }
      FirstOneMore(form.fields, part, rest, name);
    }
  }

  lemma CollectsOneMore(before: MultipartForm, part: (Buffer, Buffer), middle: MultipartForm,
      rest: seq<(Buffer, Buffer)>,
      form: MultipartForm)
    requires Collects(before, [part], middle) && Collects(middle, rest, form)
    ensures Collects(before, [part] + rest, form)
  {
    hide *;
    FilesOneMore(part, rest);
    CollectsByName(before, [part], middle);
    CollectsByName(middle, rest, form);
    CollectsByName(before, [part] + rest, form);
    forall name ensures CollectsName(before, [part] + rest, form, name) {
      NameOneMore(before, part, middle, rest, form, name);
    }
  }

  lemma CollectsNothing(form: MultipartForm)
    ensures Collects(form, [], form)
  {
  }

  lemma ReadableOneMore(part: (Buffer, Buffer), rest: seq<(Buffer, Buffer)>, limits: MultipartLimits)
    ensures (forall k :: 0 <= k < |[part] + rest| ==> Readable(([part] + rest)[k], limits))
       <==> Readable(part, limits) && forall k :: 0 <= k < |rest| ==> Readable(rest[k], limits)
  {
    hide Readable;
    var parts := [part] + rest;
    assert parts[0] == part;
    forall k | 0 <= k < |rest| ensures parts[k + 1] == rest[k] {
    }
    forall k | 0 < k < |parts| ensures parts[k] == rest[k - 1] {
    }
  }

  /** Parts are read exactly if each is readable and the files are not too many; and then the form collects them. */
  lemma {:induction false} ReadAllMeans(parts: seq<(Buffer, Buffer)>, form: MultipartForm, limits: MultipartLimits)
    ensures ReadAll(parts, form, limits).Ok?
       <==> (forall k :: 0 <= k < |parts| ==> Readable(parts[k], limits))
            && (FilesOf(parts) == [] || |form.files| + |FilesOf(parts)| <= limits.maxFiles)
    ensures ReadAll(parts, form, limits).Ok? ==> Collects(form, parts, ReadAll(parts, form, limits).value)
  {
    hide ReadPart, Readable, Collects, FilenameOf, NameOf;
    if parts == [] {
      CollectsNothing(form);
      assert FilesOf(parts) == [];
    } else {
      var part, rest := parts[0], parts[1..];
      assert parts == [part] + rest && (part.0, part.1) == part;
      hide FilesOf;
      ReadPartMeans(part.0, part.1, form, limits);
      FilesOneMore(part, rest);
      ReadableOneMore(part, rest, limits);
      if Readable(part, limits) {
        ReadableNamed(part, limits);
      }
      var read := ReadPart(part.0, part.1, form, limits);
      if read.Ok? {
        FilesGrow(form, part, read.value);
        ReadAllMeans(rest, read.value, limits);
        if ReadAll(rest, read.value, limits).Ok? {
          CollectsOneMore(form, part, read.value, rest, ReadAll(rest, read.value, limits).value);
        }
      }
    }
  }

  lemma FilesGrow(form: MultipartForm, part: (Buffer, Buffer), grown: MultipartForm)
    requires Collects(form, [part], grown)
    ensures grown.files == form.files + FilesOf([part])
  {
  }

  lemma ReadableNamed(part: (Buffer, Buffer), limits: MultipartLimits)
    requires Readable(part, limits)
    ensures NameOf(part.0).Some?
  {
  }

  // ── The walk follows the chain ──────────────────────────────────

  lemma DashesStand(scan: Buffer, at: nat)
    ensures StandsAt(scan, "--", at) <==> Matches(scan, DASH_DASH, at)
  {
    assert DASH_DASH == "--";
    StandsMeans(scan, DASH_DASH, at);
  }

  lemma PaddingMeans(scan: Buffer, after: nat, lineEnd: nat)
    requires after <= lineEnd <= |scan|
    ensures IsPadding(scan[after..lineEnd]) <==> forall i :: after <= i < lineEnd ==> i < |scan| && (scan[i] == ' ' || scan[i] == '\t')
  {
    var line := scan[after..lineEnd];
    if IsPadding(line) {
      forall i | after <= i < lineEnd ensures scan[i] == ' ' || scan[i] == '\t' {
        assert scan[i] == line[i - after];
      }
    }
  }

  lemma LineEnds()
    ensures CRLF == "\r\n" && CRLF_CRLF == "\r\n\r\n"
  {
  }

  /** The same place, as the searches find it. */
  predicate Searched(scan: Buffer, d: string, p: Place) {
    && Matches(scan, d, p.start) && !Matches(scan, DASH_DASH, p.start + |d|)
    && IndexOf(scan, CRLF, p.start + |d|) == Some(p.lineEnd) && p.start + |d| <= p.lineEnd <= |scan|
    && IsPadding(scan[p.start + |d|..p.lineEnd])
    && IndexOf(scan, d, p.lineEnd + 2) == Some(p.next) && IndexOf(scan, CRLF_CRLF, p.lineEnd + 2) == Some(p.blank)
    && p.blank <= p.next
  }

  lemma FirstWithin(s: Buffer, pattern: Buffer, from: nat, at: nat)
    requires FirstFrom(s, pattern, from, at)
    ensures from <= at && at + |pattern| <= |s|
  {
  }

  lemma PlaceIsSearched(scan: Buffer, d: string, p: Place)
    ensures PartStands(scan, d, p) <==> Searched(scan, d, p)
  {
    LineEnds();
    hide IndexOf, FirstFrom, Matches, IsPadding, CRLF, CRLF_CRLF, StandsAt, DASH_DASH;
    StandsMeans(scan, d, p.start);
    DashesStand(scan, p.start + |d|);
    FirstMeans(scan, CRLF, p.start + |d|, p.lineEnd);
    FirstMeans(scan, d, p.lineEnd + 2, p.next);
    FirstMeans(scan, CRLF_CRLF, p.lineEnd + 2, p.blank);
    if FirstFrom(scan, CRLF, p.start + |d|, p.lineEnd) {
      FirstWithin(scan, CRLF, p.start + |d|, p.lineEnd);
      PaddingMeans(scan, p.start + |d|, p.lineEnd);
    }
  }

  lemma SearchedParts(scan: Buffer, d: string, p: Place)
    requires PartStands(scan, d, p)
    ensures p.lineEnd + 2 <= p.blank <= p.next <= |scan|
    ensures PartAt(scan, d, p) == (Slice(scan, p.lineEnd + 2, p.blank), Slice(scan, p.blank + 4, p.next))
  {
    FirstWithin(scan, d, p.lineEnd + 2, p.next);
    FirstWithin(scan, "\r\n\r\n", p.lineEnd + 2, p.blank);
    hide StandsAt, FirstFrom;
  }

  lemma SearchedFrame(scan: Buffer, d: string, p: Place)
    requires Searched(scan, d, p) && p.lineEnd + 2 <= p.blank <= p.next <= |scan|
    ensures FrameAt(scan, d, p.start, true) == Part(Slice(scan, p.lineEnd + 2, p.blank), Slice(scan, p.blank + 4, p.next), p.next)
  {
    hide IndexOf, Matches, IsPadding, Slice;
  }

  /** With room for it, a part is framed exactly where one stands. */
  lemma FrameIsPlace(scan: Buffer, d: string, p: Place)
    requires PartStands(scan, d, p) && |d| > 0
    ensures Matches(scan, d, p.start)
    ensures FrameAt(scan, d, p.start, true) == Part(PartAt(scan, d, p).0, PartAt(scan, d, p).1, p.next)
  {
    hide *;
    PlaceIsSearched(scan, d, p);
    SearchedParts(scan, d, p);
    SearchedFrame(scan, d, p);
    SearchedStart(scan, d, p);
  }

  lemma SearchedStart(scan: Buffer, d: string, p: Place)
    requires Searched(scan, d, p)
    ensures Matches(scan, d, p.start)
  {
  }

  lemma FrameSearched(scan: Buffer, d: string, cursor: nat, room: bool, p: Place)
    requires Matches(scan, d, cursor) && |d| > 0 && FrameAt(scan, d, cursor, room).Part?
    requires p.start == cursor && IndexOf(scan, CRLF, cursor + |d|) == Some(p.lineEnd)
    requires IndexOf(scan, d, p.lineEnd + 2) == Some(p.next) && IndexOf(scan, CRLF_CRLF, p.lineEnd + 2) == Some(p.blank)
    ensures room && Searched(scan, d, p)
  {
    hide IndexOf, Matches, IsPadding, Slice;
    LineWithin(scan, cursor + |d|, p.lineEnd);
  }

  lemma LineWithin(scan: Buffer, from: nat, at: nat)
    requires IndexOf(scan, CRLF, from) == Some(at)
    ensures from <= at <= |scan|
  {
  }

  lemma FrameSearches(scan: Buffer, d: string, cursor: nat, room: bool)
    requires Matches(scan, d, cursor) && |d| > 0 && FrameAt(scan, d, cursor, room).Part?
    ensures IndexOf(scan, CRLF, cursor + |d|).Some?
    ensures var from := IndexOf(scan, CRLF, cursor + |d|).value + 2; IndexOf(scan, d, from).Some? && IndexOf(scan, CRLF_CRLF, from).Some?
  {
    hide IndexOf, Matches, IsPadding, Slice;
  }

  lemma PlaceOfFrame(scan: Buffer, d: string, cursor: nat, room: bool) returns (p: Place)
    requires Matches(scan, d, cursor) && |d| > 0 && FrameAt(scan, d, cursor, room).Part?
    ensures room && p.start == cursor && PartStands(scan, d, p)
    ensures FrameAt(scan, d, cursor, room) == Part(PartAt(scan, d, p).0, PartAt(scan, d, p).1, p.next)
  {
    hide *;
    FrameSearches(scan, d, cursor, room);
    var lineEnd := IndexOf(scan, CRLF, cursor + |d|).value;
    p := Place(cursor, lineEnd, IndexOf(scan, CRLF_CRLF, lineEnd + 2).value, IndexOf(scan, d, lineEnd + 2).value);
    FrameSearched(scan, d, cursor, room, p);
    PlaceIsSearched(scan, d, p);
    FrameIsPlace(scan, d, p);
  }

  lemma ChainGrows(scan: Buffer, d: string, p: Place, rest: seq<Place>, end: nat)
    requires PartStands(scan, d, p) && Chained(scan, d, p.next, rest, end)
    ensures Chained(scan, d, p.start, [p] + rest, end)
    ensures PartsAt(scan, d, [p] + rest) == [PartAt(scan, d, p)] + PartsAt(scan, d, rest)
  {
    hide PartStands, PartAt;
    var places := [p] + rest;
    assert places[0] == p;
    assert forall k :: 0 < k < |places| ==> places[k] == rest[k - 1];
    forall k | 0 < k < |places| ensures places[k].start == places[k - 1].next {
      assert k > 1 ==> rest[k - 1].start == rest[k - 2].next;
    }
  }

  lemma ChainShrinks(scan: Buffer, d: string, p: Place, rest: seq<Place>, end: nat)
    requires Chained(scan, d, p.start, [p] + rest, end)
    ensures PartStands(scan, d, p) && Chained(scan, d, p.next, rest, end)
  {
    hide PartStands;
    var places := [p] + rest;
    assert places[0] == p;
    forall k | 0 <= k < |rest| ensures PartStands(scan, d, rest[k]) {
      assert places[k + 1] == rest[k];
    }
    forall k | 0 < k < |rest| ensures rest[k].start == rest[k - 1].next {
      assert places[k + 1] == rest[k] && places[k] == rest[k - 1];
      assert places[k + 1].start == places[k].next;
    }
    if rest != [] {
      assert places[1] == rest[0] && places[1].start == places[0].next && places[|places| - 1] == rest[|rest| - 1];
    }
  }

  ghost predicate Closes(scan: Buffer, d: string, end: nat) {
    StandsAt(scan, d, end) && StandsAt(scan, "--", end + |d|)
  }

  lemma ClosingFrame(scan: Buffer, d: string, end: nat, room: bool)
    requires |d| > 0
    ensures Closes(scan, d, end) <==> Matches(scan, d, end) && FrameAt(scan, d, end, room).Closing?
  {
    StandsMeans(scan, d, end);
    DashesStand(scan, end + |d|);
    hide StandsAt, Matches, FrameLine;
  }

  lemma {:induction false} WalkFollows(scan: Buffer, d: string, cursor: nat, parts: nat, form: MultipartForm,
      limits: MultipartLimits)
      returns (places: seq<Place>, end: nat)
    requires Matches(scan, d, cursor) && |d| > 0 && ParseFrom(scan, d, cursor, parts, form, limits).Ok?
    ensures Chained(scan, d, cursor, places, end) && Closes(scan, d, end)
    ensures places != [] ==> parts + |places| <= limits.maxParts
    ensures ReadAll(PartsAt(scan, d, places), form, limits) == Ok(ParseFrom(scan, d, cursor, parts, form, limits).value.form)
    decreases |scan| - cursor
  {
    var frame := FrameAt(scan, d, cursor, parts + 1 <= limits.maxParts);
    hide FrameAt, ReadPart, PartStands, PartAt, Closes, Matches;
    if frame.Closing? {
      ClosingFrame(scan, d, cursor, parts + 1 <= limits.maxParts);
      places, end := [], cursor;
    } else {
      var p := PlaceOfFrame(scan, d, cursor, parts + 1 <= limits.maxParts);
      var grown := ReadPart(frame.header, frame.content, form, limits).value;
      var rest;
      rest, end := WalkFollows(scan, d, frame.next, parts + 1, grown, limits);
      places := [p] + rest;
      ChainGrows(scan, d, p, rest, end);
      assert PartsAt(scan, d, places)[1..] == PartsAt(scan, d, rest);
    }
  }

  lemma {:induction false} ChainIsWalked(scan: Buffer, d: string, cursor: nat, places: seq<Place>, end: nat, parts: nat,
      form: MultipartForm, limits: MultipartLimits)
    requires |d| > 0 && Chained(scan, d, cursor, places, end) && Closes(scan, d, end)
    requires places != [] ==> parts + |places| <= limits.maxParts
    requires ReadAll(PartsAt(scan, d, places), form, limits).Ok?
    ensures Matches(scan, d, cursor)
    ensures ParseFrom(scan, d, cursor, parts, form, limits)
         == Ok(Parsed(ReadAll(PartsAt(scan, d, places), form, limits).value, end + |d| + 2))
    decreases |places|
  {
    hide FrameAt, ReadPart, PartAt, PartStands, Closes, Matches;
    if places == [] {
      ClosingFrame(scan, d, end, parts + 1 <= limits.maxParts);
    } else {
      var p, rest := places[0], places[1..];
      assert places == [p] + rest;
      ChainShrinks(scan, d, p, rest, end);
      ChainGrows(scan, d, p, rest, end);
      FrameIsPlace(scan, d, p);
      var part := PartAt(scan, d, p);
      assert PartsAt(scan, d, places)[0] == part && PartsAt(scan, d, places)[1..] == PartsAt(scan, d, rest);
      ChainIsWalked(scan, d, p.next, rest, end, parts + 1, ReadPart(part.0, part.1, form, limits).value, limits);
    }
  }

  // ── The law ─────────────────────────────────────────────────────

  /** All parts readable, and no more files than allowed. */
  predicate Admitted(parts: seq<(Buffer, Buffer)>, limits: MultipartLimits) {
    && (forall k :: 0 <= k < |parts| ==> Readable(parts[k], limits))
    && (FilesOf(parts) == [] || |FilesOf(parts)| <= limits.maxFiles)
  }

  /** A chain that begins at the first delimiter of the body, of no more parts than allowed. */
  ghost predicate Leads(body: Buffer, boundary: string, places: seq<Place>, end: nat, limits: MultipartLimits) {
    var scan, d := "\r\n" + body, "\r\n--" + boundary;
    && FirstFrom(scan, d, 0, if places == [] then end else places[0].start)
    && Chained(scan, d, if places == [] then end else places[0].start, places, end)
    && (places != [] ==> |places| <= limits.maxParts)
  }

  ghost function PartsOf(body: Buffer, boundary: string, places: seq<Place>, end: nat,
      limits: MultipartLimits): seq<(Buffer, Buffer)>
    requires Leads(body, boundary, places, end, limits)
  {
    PartsAt("\r\n" + body, "\r\n--" + boundary, places)
  }

  /** The chain goes to the closing delimiter, its parts are admitted, and the form is what they make. */
  ghost predicate Bears(body: Buffer, boundary: string, limits: MultipartLimits, form: MultipartForm,
      places: seq<Place>, end: nat) {
    && Leads(body, boundary, places, end, limits) && Closes("\r\n" + body, "\r\n--" + boundary, end)
    && Admitted(PartsOf(body, boundary, places, end, limits), limits)
    && Collects(EMPTY_FORM, PartsOf(body, boundary, places, end, limits), form)
  }

  lemma AdmittedIsRead(parts: seq<(Buffer, Buffer)>, limits: MultipartLimits)
    ensures Admitted(parts, limits) <==> ReadAll(parts, EMPTY_FORM, limits).Ok?
    ensures Admitted(parts, limits) ==> Collects(EMPTY_FORM, parts, ReadAll(parts, EMPTY_FORM, limits).value)
  {
    hide Readable, FilesOf, ReadAll, Collects;
    ReadAllMeans(parts, EMPTY_FORM, limits);
  }

  lemma ParsedBears(body: Buffer, contentType: string, limits: MultipartLimits, boundary: string)
      returns (places: seq<Place>, end: nat)
    requires BoundaryFrom(contentType) == Ok(boundary) && Parse(body, contentType, limits).Ok?
    ensures Bears(body, boundary, limits, Parse(body, contentType, limits).value, places, end)
  {
    LineEnds();
    var scan, d := CRLF + body, DelimiterOf(boundary);
    hide BoundaryFrom, IndexOf, ParseFrom, Admitted, Collects, Closes, Chained, FirstFrom, Matches, ReadAll, CRLF;
    var first := IndexOf(scan, d, 0).value;
    FirstMeans(scan, d, 0, first);
    places, end := WalkFollows(scan, d, first, 0, EMPTY_FORM, limits);
    ChainStarts(scan, d, first, places, end);
    AdmittedIsRead(PartsAt(scan, d, places), limits);
  }

  lemma ChainStarts(scan: Buffer, d: string, from: nat, places: seq<Place>, end: nat)
    requires Chained(scan, d, from, places, end)
    ensures from == if places == [] then end else places[0].start
    ensures forall k :: 0 <= k < |places| ==> PartStands(scan, d, places[k])
  {
    hide PartStands;
  }

  lemma BornIsParsed(body: Buffer, contentType: string, limits: MultipartLimits, boundary: string, form: MultipartForm,
      places: seq<Place>, end: nat)
    requires BoundaryFrom(contentType) == Ok(boundary) && Bears(body, boundary, limits, form, places, end)
    ensures Parse(body, contentType, limits) == Ok(form)
  {
    LineEnds();
    var scan, d := CRLF + body, DelimiterOf(boundary);
    var first := if places == [] then end else places[0].start;
    hide BoundaryFrom, IndexOf, ParseFrom, Admitted, Collects, Closes, Chained, FirstFrom, Matches, ReadAll, CRLF;
    FirstMeans(scan, d, 0, first);
    ChainStarts(scan, d, first, places, end);
    var parts := PartsAt(scan, d, places);
    AdmittedIsRead(parts, limits);
    ChainIsWalked(scan, d, first, places, end, 0, EMPTY_FORM, limits);
    FormIsUnique(EMPTY_FORM, parts, form, ReadAll(parts, EMPTY_FORM, limits).value);
  }

  /**
   * A body parses to a form exactly if, from its first delimiter on, it is a chain of well-formed parts that ends in the
   * closing delimiter, no more than allowed, each with a name and no text field too long, and that form is what the
   * chain holds: the files in order, and of each field the first.
   */
  lemma ParsesExactly(body: Buffer, contentType: string, limits: MultipartLimits, form: MultipartForm)
    ensures Parse(body, contentType, limits) == Ok(form)
       <==> match BoundaryFrom(contentType)
            case Err(_) => false
            case Ok(boundary) => exists places, end :: Bears(body, boundary, limits, form, places, end)
  {
    if BoundaryFrom(contentType).Ok? {
      var boundary := BoundaryFrom(contentType).value;
      hide Bears, Parse, BoundaryFrom;
      if Parse(body, contentType, limits) == Ok(form) {
        var places, end := ParsedBears(body, contentType, limits, boundary);
      }
      if places, end :| Bears(body, boundary, limits, form, places, end) {
        BornIsParsed(body, contentType, limits, boundary, form, places, end);
      }
    }
  }

  // ── A field that is too long ────────────────────────────────────

  /** All parts but the last can be read, and the last is a text field of this name that is too long. */
  ghost predicate EndsTooLong(before: MultipartForm, parts: seq<(Buffer, Buffer)>, limits: MultipartLimits,
      name: string) {
    && parts != [] && (forall k :: 0 <= k < |parts| - 1 ==> Readable(parts[k], limits))
    && (FilesOf(parts) == [] || |before.files| + |FilesOf(parts)| <= limits.maxFiles)
    && IsField(parts[|parts| - 1], name) && |parts[|parts| - 1].1| > limits.maxFieldBytes
  }

  lemma TooLongMeans(part: (Buffer, Buffer), form: MultipartForm, limits: MultipartLimits, name: string)
    ensures ReadPart(part.0, part.1, form, limits) == Err(FieldTooLarge(name)) <==> EndsTooLong(form, [part], limits, name)
  {
    FilesOneMore(part, []);
    assert [part] + [] == [part];
  }

  lemma ReadableFront(part: (Buffer, Buffer), rest: seq<(Buffer, Buffer)>, limits: MultipartLimits)
    requires rest != []
    ensures var parts := [part] + rest;
            (forall k :: 0 <= k < |parts| - 1 ==> Readable(parts[k], limits))
            <==> Readable(part, limits) && forall k :: 0 <= k < |rest| - 1 ==> Readable(rest[k], limits)
  {
    hide Readable;
    var parts, last := [part] + rest, |rest| - 1;
    ReadableOneMore(part, rest[..last], limits);
    assert ([part] + rest)[..last + 1] == [part] + rest[..last];
    assert forall k :: 0 <= k < last + 1 ==> parts[k] == ([part] + rest[..last])[k];
    assert forall k :: 0 <= k < last ==> rest[k] == rest[..last][k];
  }

  lemma TooLongOneMore(form: MultipartForm, part: (Buffer, Buffer), grown: MultipartForm, rest: seq<(Buffer, Buffer)>,
      limits: MultipartLimits, name: string)
    requires rest != [] && ReadPart(part.0, part.1, form, limits) == Ok(grown)
    ensures EndsTooLong(form, [part] + rest, limits, name) <==> EndsTooLong(grown, rest, limits, name)
  {
    hide Readable, Collects, FilesOf, IsField, ReadPart, FilenameOf, NameOf;
    ReadPartMeans(part.0, part.1, form, limits);
    assert (part.0, part.1) == part;
    ReadableNamed(part, limits);
    FilesOneMore(part, rest);
    FilesGrow(form, part, grown);
    ReadableFront(part, rest, limits);
    var parts := [part] + rest;
    assert parts[|parts| - 1] == rest[|rest| - 1];
  }

  lemma {:induction false} WalkTooLong(scan: Buffer, d: string, cursor: nat, parts: nat, form: MultipartForm,
      limits: MultipartLimits,
      name: string) returns (places: seq<Place>, end: nat)
    requires Matches(scan, d, cursor) && |d| > 0
    requires ParseFrom(scan, d, cursor, parts, form, limits) == Err(FieldTooLarge(name))
    ensures Chained(scan, d, cursor, places, end) && places != [] && parts + |places| <= limits.maxParts
    ensures EndsTooLong(form, PartsAt(scan, d, places), limits, name)
    decreases |scan| - cursor
  {
    var frame := FrameAt(scan, d, cursor, parts + 1 <= limits.maxParts);
    hide FrameAt, ReadPart, PartStands, PartAt, Matches, EndsTooLong;
    var p := PlaceOfFrame(scan, d, cursor, parts + 1 <= limits.maxParts);
    var part := PartAt(scan, d, p);
    var read := ReadPart(frame.header, frame.content, form, limits);
    var rest: seq<Place> := [];
    end := frame.next;
    if read.Ok? {
      rest, end := WalkTooLong(scan, d, frame.next, parts + 1, read.value, limits, name);
      TooLongOneMore(form, part, read.value, PartsAt(scan, d, rest), limits, name);
    } else {
      assert Chained(scan, d, p.next, [], end) && PartsAt(scan, d, []) == [];
      TooLongMeans(part, form, limits, name);
    }
    ChainGrows(scan, d, p, rest, end);
    places := [p] + rest;
    assert [part] + [] == [part];
  }

  /** One turn of the walk over a part that stands there. */
  lemma WalkOver(scan: Buffer, d: string, p: Place, parts: nat, form: MultipartForm, limits: MultipartLimits)
    requires PartStands(scan, d, p) && |d| > 0 && parts + 1 <= limits.maxParts
    ensures Matches(scan, d, p.start) && Matches(scan, d, p.next)
    ensures var part := PartAt(scan, d, p);
            ParseFrom(scan, d, p.start, parts, form, limits)
            == match ReadPart(part.0, part.1, form, limits)
               case Err(error) => Err(error)
               case Ok(grown) => ParseFrom(scan, d, p.next, parts + 1, grown, limits)
  {
    hide FrameAt, ReadPart, PartAt, PartStands, Matches;
    FrameIsPlace(scan, d, p);
  }

  lemma {:induction false} TooLongIsWalked(scan: Buffer, d: string, cursor: nat, places: seq<Place>, end: nat,
      parts: nat,
      form: MultipartForm, limits: MultipartLimits, name: string)
    requires |d| > 0 && Chained(scan, d, cursor, places, end) && places != [] && parts + |places| <= limits.maxParts
    requires EndsTooLong(form, PartsAt(scan, d, places), limits, name)
    ensures Matches(scan, d, cursor) && ParseFrom(scan, d, cursor, parts, form, limits) == Err(FieldTooLarge(name))
    decreases |places|
  {
    var p, rest := places[0], places[1..];
    assert places == [p] + rest && cursor == p.start;
    hide *;
    ChainShrinks(scan, d, p, rest, end);
    ChainGrows(scan, d, p, rest, end);
    WalkOver(scan, d, p, parts, form, limits);
    var part := PartAt(scan, d, p);
    var others := PartsAt(scan, d, rest);
    if rest == [] {
      assert [part] + others == [part];
      TooLongMeans(part, form, limits, name);
    } else {
      FirstIsRead(form, part, others, limits, name);
      var grown := ReadPart(part.0, part.1, form, limits).value;
      TooLongOneMore(form, part, grown, others, limits, name);
      TooLongIsWalked(scan, d, p.next, rest, end, parts + 1, grown, limits, name);
    }
  }

  lemma FirstIsRead(form: MultipartForm, part: (Buffer, Buffer), rest: seq<(Buffer, Buffer)>, limits: MultipartLimits,
      name: string)
    requires rest != [] && EndsTooLong(form, [part] + rest, limits, name)
    ensures ReadPart(part.0, part.1, form, limits).Ok?
  {
    hide ReadPart, FilesOf, Collects, IsField;
    assert ([part] + rest)[0] == part && (part.0, part.1) == part;
    ReadPartMeans(part.0, part.1, form, limits);
    FilesOneMore(part, rest);
    hide Readable;
    ReadableNamed(part, limits);
  }

  /** A chain from the first delimiter on that ends in a text field of this name that is too long. */
  ghost predicate BearsTooLong(body: Buffer, boundary: string, limits: MultipartLimits, name: string,
      places: seq<Place>, end: nat) {
    && places != [] && Leads(body, boundary, places, end, limits)
    && EndsTooLong(EMPTY_FORM, PartsOf(body, boundary, places, end, limits), limits, name)
  }

  lemma TooLargeBears(body: Buffer, contentType: string, limits: MultipartLimits, boundary: string, name: string)
      returns (places: seq<Place>, end: nat)
    requires BoundaryFrom(contentType) == Ok(boundary) && Parse(body, contentType, limits) == Err(FieldTooLarge(name))
    ensures BearsTooLong(body, boundary, limits, name, places, end)
  {
    LineEnds();
    var scan, d := CRLF + body, DelimiterOf(boundary);
    hide BoundaryFrom, IndexOf, ParseFrom, Chained, FirstFrom, Matches, EndsTooLong, CRLF;
    var first := IndexOf(scan, d, 0).value;
    FirstMeans(scan, d, 0, first);
    places, end := WalkTooLong(scan, d, first, 0, EMPTY_FORM, limits, name);
    ChainStarts(scan, d, first, places, end);
  }

  lemma BornTooLarge(body: Buffer, contentType: string, limits: MultipartLimits, boundary: string, name: string,
      places: seq<Place>, end: nat)
    requires BoundaryFrom(contentType) == Ok(boundary) && BearsTooLong(body, boundary, limits, name, places, end)
    ensures Parse(body, contentType, limits) == Err(FieldTooLarge(name))
  {
    LineEnds();
    var scan, d := CRLF + body, DelimiterOf(boundary);
    hide BoundaryFrom, IndexOf, ParseFrom, Chained, FirstFrom, Matches, EndsTooLong, CRLF;
    FirstMeans(scan, d, 0, places[0].start);
    TooLongIsWalked(scan, d, places[0].start, places, end, 0, EMPTY_FORM, limits, name);
  }

  /**
   * A field is answered to be too large exactly if the first part that cannot be read is that field: a text field over
   * the limit, at the end of a chain of parts that all can be.
   */
  lemma TooLargeExactly(body: Buffer, contentType: string, limits: MultipartLimits, name: string)
    ensures Parse(body, contentType, limits) == Err(FieldTooLarge(name))
       <==> match BoundaryFrom(contentType)
            case Err(_) => false
            case Ok(boundary) => exists places, end :: BearsTooLong(body, boundary, limits, name, places, end)
  {
    if BoundaryFrom(contentType).Ok? {
      var boundary := BoundaryFrom(contentType).value;
      hide BearsTooLong, Parse, BoundaryFrom;
      if Parse(body, contentType, limits) == Err(FieldTooLarge(name)) {
        var places, end := TooLargeBears(body, contentType, limits, boundary, name);
      }
      if places, end :| BearsTooLong(body, boundary, limits, name, places, end) {
        BornTooLarge(body, contentType, limits, boundary, name, places, end);
      }
    }
  }
}
