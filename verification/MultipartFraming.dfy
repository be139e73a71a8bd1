/**
 * How the scan frames what the builder writes: the walk depends only on what lies ahead of the cursor, a
 * delimiter cannot overlap itself, and content is cut exactly where the next delimiter starts.
 */
module MultipartFraming {
  import opened Wrappers
  import opened Scanning
  import opened MultipartHeaders
  import opened MultipartParser

  // ── The walk only sees what lies ahead of its cursor ────────────

  function ShiftFrame(frame: Frame, k: nat): (r: Frame) {
    if frame.Part? then frame.(next := k + frame.next) else frame
  }

  lemma SliceShifted(scan: Buffer, k: nat, start: nat, end: nat)
    requires k <= |scan| && k + end <= |scan|
    ensures Slice(scan[k..], start, end) == Slice(scan, k + start, k + end)
  {
  }

  lemma FramePartShifted(scan: Buffer, k: nat, delimiter: string, partStart: nat, room: bool)
    requires k <= |scan|
    ensures FramePart(scan, delimiter, k + partStart, room) == ShiftFrame(FramePart(scan[k..], delimiter, partStart, room), k)
  {
    hide IndexOf, Slice;
    IndexOfShifted(scan, k, delimiter, partStart);
    IndexOfShifted(scan, k, CRLF_CRLF, partStart);
    var next := IndexOf(scan[k..], delimiter, partStart);
    var headerEnd := IndexOf(scan[k..], CRLF_CRLF, partStart);
    if next.Some? && headerEnd.Some? && headerEnd.value <= next.value {
      SliceShifted(scan, k, partStart, headerEnd.value);
      SliceShifted(scan, k, headerEnd.value + 4, next.value);
    }
  }

  lemma FrameLineShifted(scan: Buffer, k: nat, delimiter: string, after: nat, room: bool)
    requires k <= |scan|
    ensures FrameLine(scan, delimiter, k + after, room) == ShiftFrame(FrameLine(scan[k..], delimiter, after, room), k)
  {
    hide FramePart;
    IndexOfShifted(scan, k, CRLF, after);
    var line := IndexOf(scan[k..], CRLF, after);
    if line.Some? {
      assert scan[k..][after..line.value] == scan[k + after..k + line.value];
      FramePartShifted(scan, k, delimiter, line.value + 2, room);
    }
  }

  lemma FrameShifted(scan: Buffer, k: nat, delimiter: string, cursor: nat, room: bool)
    requires k <= |scan| && Matches(scan, delimiter, k + cursor)
    ensures Matches(scan[k..], delimiter, cursor)
    ensures FrameAt(scan, delimiter, k + cursor, room) == ShiftFrame(FrameAt(scan[k..], delimiter, cursor, room), k)
  {
    hide FrameLine;
    MatchesShifted(scan, k, delimiter, cursor);
    MatchesShifted(scan, k, DASH_DASH, cursor + |delimiter|);
    FrameLineShifted(scan, k, delimiter, cursor + |delimiter|, room);
  }

  function FormOf(r: Result<Parsed, HttpError>): Result<MultipartForm, HttpError> {
    match r
    case Ok(parsed) => Ok(parsed.form)
    case Err(error) => Err(error)
  }

  lemma {:induction false} WalkShifted(scan: Buffer, k: nat, delimiter: string, cursor: nat, parts: nat,
      form: MultipartForm, limits: MultipartLimits)
    requires k <= |scan| && |delimiter| > 0 && Matches(scan, delimiter, k + cursor)
    ensures Matches(scan[k..], delimiter, cursor)
    ensures FormOf(ParseFrom(scan, delimiter, k + cursor, parts, form, limits))
         == FormOf(ParseFrom(scan[k..], delimiter, cursor, parts, form, limits))
    decreases |scan| - cursor
  {
    hide ReadPart, FrameAt;
    var room := parts + 1 <= limits.maxParts;
    FrameShifted(scan, k, delimiter, cursor, room);
    var frame := FrameAt(scan[k..], delimiter, cursor, room);
    if frame.Part? {
      var read := ReadPart(frame.header, frame.content, form, limits);
      if read.Ok? {
        WalkShifted(scan, k, delimiter, frame.next, parts + 1, read.value, limits);
      }
    }
  }

  // ── One framed part ─────────────────────────────────────────────

  /** A delimiter begins with CRLF, goes on with a dash and holds no other CR: it cannot overlap itself. */
  predicate IsDelimiter(d: string) {
    |d| >= 4 && d[0] == CR && d[1] == LF && d[2] == '-' && forall i :: 1 <= i < |d| ==> d[i] != CR
  }

  /** No line break of a header block is followed by another line break or by a dash. */
  predicate IsHeaderBlock(head: Buffer) {
    forall i :: 0 <= i < |head| && head[i] == CR ==> i + 2 < |head| && head[i + 2] != CR && head[i + 2] != '-'
  }

  /** A header block, the blank line, the content, and whatever follows. */
  function Framed(head: Buffer, content: Buffer, rest: Buffer): (r: Buffer)
    ensures |r| == |head| + 4 + |content| + |rest|
    ensures forall i :: 0 <= i < |head| ==> r[i] == head[i]
    ensures forall i {:trigger r[i]} :: 0 <= i < 4 ==> r[|head| + i] == CRLF_CRLF[i]
    ensures forall i {:trigger content[i]} :: 0 <= i < |content| ==> r[|head| + 4 + i] == content[i]
    ensures r[|head| + 4 + |content|..] == rest
  {
    head + CRLF_CRLF + content + rest
  }

  /** Content that cannot be mistaken for framing: no delimiter inside, and no boundary right at its start. */
  predicate IsContent(content: Buffer, d: string)
    requires IsDelimiter(d)
  {
    && !Matches(content, d[2..], 0)
    && forall k: nat :: k < |content| ==> !Matches(content, d, k)
  }

  lemma NoDelimiterInHead(head: Buffer, content: Buffer, rest: Buffer, d: string, i: nat)
    requires IsDelimiter(d) && IsHeaderBlock(head) && i < |head| + 4 && i != |head| + 2
    ensures !Matches(Framed(head, content, rest), d, i)
    ensures i < |head| ==> !Matches(Framed(head, content, rest), CRLF_CRLF, i)
  {
    var f := Framed(head, content, rest);
    assert f[|head| + 0] == CR && f[|head| + 1] == LF && f[|head| + 2] == CR && f[|head| + 3] == LF;
    if f[i] == CR {
      MismatchAt(f, d, i, 2);
      if i < |head| {
        MismatchAt(f, CRLF_CRLF, i, 2);
      }
    } else {
      MismatchAt(f, d, i, 0);
      MismatchAt(f, CRLF_CRLF, i, 0);
    }
  }

  lemma FramedContent(head: Buffer, content: Buffer, rest: Buffer)
    ensures Framed(head, content, rest)[|head| + 4..|head| + 4 + |content|] == content
  {
  }

  /** An occurrence that reached past `end`, where a delimiter starts, would hold a second CR. */
  lemma NoDelimiterAcross(f: Buffer, end: nat, d: string, i: nat)
    requires IsDelimiter(d) && end < |f| && f[end] == CR
    requires i < end < i + |d|
    ensures !Matches(f, d, i)
  {
    MismatchAt(f, d, i, end - i);
  }

  lemma NoDelimiterInContent(head: Buffer, content: Buffer, rest: Buffer, d: string, i: nat)
    requires IsDelimiter(d) && IsContent(content, d) && Matches(rest, d, 0)
    requires |head| + 2 == i || |head| + 4 <= i < |head| + 4 + |content|
    ensures !Matches(Framed(head, content, rest), d, i)
  {
    hide Matches;
    var f := Framed(head, content, rest);
    var start, end := |head| + 4, |head| + 4 + |content|;
    FramedContent(head, content, rest);
    if end < i + |d| {
      DelimiterStarts(rest, d);
      assert f[end] == f[end..][0];
      NoDelimiterAcross(f, end, d, i);
    } else if i < start {
      MatchesWithin(f, start, end, d[2..], 0);
      BoundaryOfDelimiter(f, d, i);
    } else {
      MatchesWithin(f, start, end, d, i - start);
    }
  }

  lemma DelimiterStarts(rest: Buffer, d: string)
    requires IsDelimiter(d) && Matches(rest, d, 0)
    ensures rest != [] && rest[0] == CR
  {
    assert rest[0 + 0] == d[0];
  }

  lemma BoundaryOfDelimiter(f: Buffer, d: string, i: nat)
    requires |d| >= 2 && !Matches(f, d[2..], i + 2)
    ensures !Matches(f, d, i)
  {
    if i + |d| <= |f| {
      var j :| 0 <= j < |d[2..]| && f[i + 2 + j] != d[2..][j];
      MismatchAt(f, d, i, j + 2);
    }
  }

  lemma {:induction false} FramesContent(head: Buffer, content: Buffer, rest: Buffer, d: string)
    requires IsDelimiter(d) && IsHeaderBlock(head) && IsContent(content, d) && Matches(rest, d, 0)
    ensures FramePart(Framed(head, content, rest), d, 0, true) == Part(head, content, |head| + 4 + |content|)
  {
    hide IndexOf;
    var f := Framed(head, content, rest);
    var next := |head| + 4 + |content|;
    forall i: nat | i < next ensures !Matches(f, d, i) {
      if i < |head| + 4 && i != |head| + 2 {
        NoDelimiterInHead(head, content, rest, d, i);
      } else {
        NoDelimiterInContent(head, content, rest, d, i);
      }
    }
    MatchesShifted(f, next, d, 0);
    IndexOfIs(f, d, 0, next);
    FindsBlankLine(head, content, rest, d);
    assert f[..|head|] == head;
    assert Slice(f, |head| + 4, next) == content;
  }

  lemma FindsBlankLine(head: Buffer, content: Buffer, rest: Buffer, d: string)
    requires IsDelimiter(d) && IsHeaderBlock(head)
    ensures IndexOf(Framed(head, content, rest), CRLF_CRLF, 0) == Some(|head|)
  {
    hide IndexOf;
    var f := Framed(head, content, rest);
    forall i: nat | i < |head| ensures !Matches(f, CRLF_CRLF, i) {
      NoDelimiterInHead(head, content, rest, d, i);
    }
    IndexOfIs(f, CRLF_CRLF, 0, |head|);
  }

  /**
   * Content that does begin with the boundary: the blank line supplies the CRLF of a delimiter, and the part
   * is read as empty.
   */
  lemma FramesNothing(head: Buffer, content: Buffer, rest: Buffer, d: string)
    requires IsDelimiter(d) && IsHeaderBlock(head) && Matches(content, d[2..], 0)
    ensures FramePart(Framed(head, content, rest), d, 0, true) == Part(head, [], |head| + 2)
  {
    hide IndexOf;
    var f := Framed(head, content, rest);
    forall i: nat | i < |head| + 2 ensures !Matches(f, d, i) {
      NoDelimiterInHead(head, content, rest, d, i);
    }
    forall j | 0 <= j < |d| ensures f[|head| + 2 + j] == d[j] {
      if j < 2 {
        assert f[|head| + (2 + j)] == CRLF_CRLF[2 + j];
      } else {
        assert f[|head| + 4 + (j - 2)] == content[0 + (j - 2)] && content[0 + (j - 2)] == d[2..][j - 2];
      }
    }
    IndexOfIs(f, d, 0, |head| + 2);
    FindsBlankLine(head, content, rest, d);
    assert f[..|head|] == head;
  }

  /** A delimiter line: closing, of no use, or followed by what is framed after its line break. */
  lemma FramesAfterLine(d: string, line: Buffer, framed: Buffer, room: bool)
    requires IsDelimiter(d) && CR !in line
    ensures var s := d + (line + (CRLF + framed));
            && Matches(s, d, 0)
            && FrameAt(s, d, 0, room)
            == if StartsWith(line, DASH_DASH) then Closing
               else if !IsPadding(line) then Refused(DataAfterDelimiter)
               else ShiftFrame(FramePart(framed, d, 0, room), |d| + |line| + 2)
  {
    hide IndexOf, FramePart, IsPadding;
    var s := d + (line + (CRLF + framed));
    var end := |d| + |line|;
    assert s[end] == CR && s[end + 1] == LF;
    LineDashes(s, d, line, framed);
    forall i: nat | |d| <= i < end ensures !Matches(s, CRLF, i) {
      assert s[i] == line[i - |d|] && line[i - |d|] in line;
      MismatchAt(s, CRLF, i, 0);
    }
    IndexOfIs(s, CRLF, |d|, end);
    assert s[|d|..end] == line;
    assert s[end + 2..] == framed;
    FramePartShifted(s, end + 2, d, 0, room);
  }

  lemma LineDashes(s: Buffer, d: string, line: Buffer, framed: Buffer)
    requires s == d + (line + (CRLF + framed)) && CR !in line
    ensures Matches(s, DASH_DASH, |d|) <==> StartsWith(line, DASH_DASH)
  {
    assert s[|d| + |line|] == CR;
    if |line| >= 2 {
      assert s[|d| + 0] == line[0] && s[|d| + 1] == line[1];
    } else if |line| == 1 {
      MismatchAt(s, DASH_DASH, |d|, 1);
    } else {
      MismatchAt(s, DASH_DASH, |d|, 0);
    }
  }
}
