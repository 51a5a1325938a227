/** Whole multipart requests, from the serializer to the parts the server sees, whatever the reads. */
module HttpUpload {
  import opened Wrappers
  import opened HttpText
  import opened HttpMessage
  import opened HttpParsing
  import opened HttpFragments
  import opened HttpReads
  import opened HttpRoundTrip
  import opened HttpMultipart

  // ----- One part

  /**
   * Data that comes back: not empty, no line of it passing for a boundary, and only in the last part one
   * for the end.
   */
  ghost predicate Survives(data: string, boundary: string, isLast: bool) {
    data != "" && NoBoundaryIn(data, boundary) && (isLast || NoEndMarkIn(data, boundary))
  }

  ghost predicate AllSurvive(parts: seq<FormPart>, boundary: string) {
    parts == [] || (Survives(parts[0].data, boundary, |parts| == 1) && AllSurvive(parts[1..], boundary))
  }

  function ServedAll(parts: seq<FormPart>): seq<Part> {
    if parts == [] then [] else [Served(parts[0])] + ServedAll(parts[1..])
  }

  /** What follows a part's headers. */
  function DataText(boundary: string, parts: seq<FormPart>): string
    requires parts != []
  {
    parts[0].data + CRLF + PartsText(boundary, parts[1..])
  }

  /** What follows a boundary line, up to the end. */
  function AfterBoundary(boundary: string, parts: seq<FormPart>): string {
    if parts == [] then "" else HeadersText(PartHeaders(parts[0])) + (CRLF + DataText(boundary, parts))
  }

  function BoundaryLine(boundary: string, parts: seq<FormPart>): string {
    if parts == [] then "--" + boundary + "--" else "--" + boundary
  }

  lemma PartsTextSplits(boundary: string, parts: seq<FormPart>)
    ensures PartsText(boundary, parts) == BoundaryLine(boundary, parts) + CRLF + AfterBoundary(boundary, parts)
  {
    hide HeadersText, PartHeaders;
    if parts == [] {
      assert "--" + boundary + "--" + CRLF + "" == "--" + boundary + "--" + CRLF;
    } else {
      FivePieces("--" + boundary + CRLF, HeadersText(PartHeaders(parts[0])), parts[0].data,
                 PartsText(boundary, parts[1..]));
    }
  }

  lemma FivePieces(line: string, head: string, data: string, rest: string)
    ensures line + (head + (CRLF + (data + CRLF))) + rest == line + (head + (CRLF + (data + CRLF + rest)))
  {
    assert head + (CRLF + (data + CRLF)) + rest == head + (CRLF + (data + CRLF) + rest);
    assert CRLF + (data + CRLF) + rest == CRLF + (data + CRLF + rest);
  }

  /** Between two parts, or before the first. */
  predicate BetweenParts(s: State) {
    s.step == BoundaryParsed && s.part == None && s.message.contentType.multipart && NoCRLF(Boundary(s))
    && !s.finished && Sizes(s)
  }

  function Boundary(s: State): string {
    s.message.contentType.additional
  }

  /** Inside a part whose headers have been read. */
  function InPart(s: State, p: FormPart, text: string): State {
    s.(pending := text, part := Some(Part(p.name, p.fileName, "")), step := HeadersParsed)
  }

  function At(s: State, text: string): State {
    s.(pending := text)
  }

  function PartAdded(s: State, part: Part): State {
    s.(message := s.message.(parts := s.message.parts + [part]))
  }

  lemma HeadersAreRead(s: State, parts: seq<FormPart>)
    requires BetweenParts(s) && parts != [] && GoodPart(parts[0])
    ensures MultipartLoop(At(s, AfterBoundary(Boundary(s), parts)))
         == MultipartLoop(InPart(s, parts[0], DataText(Boundary(s), parts)))
  {
    hide MultipartLoop, PartHeaderLoop, HeadersText, DataText, GoodPart;
    PartHeadersRead(parts[0], DataText(Boundary(s), parts));
    AtHeaders(At(s, AfterBoundary(Boundary(s), parts)));
  }

  /** Where the part's data is found to end. */
  lemma DataEnds(s: State, parts: seq<FormPart>)
    requires BetweenParts(s) && parts != []
    ensures var data, isLast := parts[0].data, |parts| == 1;
            var line := BoundaryLine(Boundary(s), parts[1..]);
            var r := NextBoundary(DataText(Boundary(s), parts), 0, Boundary(s), false);
            if NoBoundaryIn(data, Boundary(s))
            then r == Found(|data| + 2, |line|, isLast || !NoEndMarkIn(data, Boundary(s)))
            else r.Found? && r.off <= |data|
  {
    hide FindCRLF, IsBoundary, MarksEnd, NextBoundary, NoBoundaryIn, NoEndMarkIn, PartsText, AfterBoundary;
    var boundary, rest := Boundary(s), parts[1..];
    var text, line := DataText(boundary, parts), BoundaryLine(boundary, rest);
    PartsTextSplits(boundary, rest);
    WrittenBoundaries(boundary);
    assert text[0..] == parts[0].data + CRLF + (line + CRLF + AfterBoundary(boundary, rest));
    BoundaryFound(text, 0, parts[0].data, boundary, line, AfterBoundary(boundary, rest), false);
  }

  /** A part that is read whole. */
  lemma PartIsRead(s: State, parts: seq<FormPart>)
    requires BetweenParts(s) && parts != [] && parts[0].data != "" && NoBoundaryIn(parts[0].data, Boundary(s))
    ensures var t := At(PartAdded(s, Served(parts[0])), AfterBoundary(Boundary(s), parts[1..]));
            MultipartLoop(InPart(s, parts[0], DataText(Boundary(s), parts)))
            == if |parts| == 1 || !NoEndMarkIn(parts[0].data, Boundary(s)) then Ok(Finish(t.(step := Ended)))
               else MultipartLoop(t)
  {
    hide MultipartLoop, NextBoundary, NoBoundaryIn, NoEndMarkIn, PartsText, AfterBoundary, Finish;
    var boundary, rest, p := Boundary(s), parts[1..], parts[0];
    var text, line := DataText(boundary, parts), BoundaryLine(boundary, rest);
    var t := InPart(s, p, text);
    AtData(t);
    DataEnds(s, parts);
    PartsTextSplits(boundary, rest);
    assert text[..|p.data|] == p.data;
    assert text == p.data + CRLF + (line + CRLF) + AfterBoundary(boundary, rest);
    assert text[|p.data| + 2 + |line| + 2..] == AfterBoundary(boundary, rest);
    assert "" + p.data == p.data;
  }

  /** A part with a line that passes for a boundary: the part is cut short there, or refused. */
  lemma PartIsCut(s: State, parts: seq<FormPart>)
    requires BetweenParts(s) && parts != [] && (parts[0].data == "" || !NoBoundaryIn(parts[0].data, Boundary(s)))
    ensures var r := MultipartLoop(InPart(s, parts[0], DataText(Boundary(s), parts)));
            r.Ok? ==> |r.state.message.parts| > |s.message.parts|
                      && r.state.message.parts[|s.message.parts|] != Served(parts[0])
  {
    hide MultipartLoop, NextBoundary, NoBoundaryIn, NoEndMarkIn, PartsText, Finish;
    var text := DataText(Boundary(s), parts);
    var t := InPart(s, parts[0], text);
    AtData(t);
    DataEnds(s, parts);
    EmptyDataHasNoBoundary(Boundary(s));
    var r := NextBoundary(text, 0, Boundary(s), false);
    if r.off > 2 {
      var u := WithPart(t, text[..r.off - 2], text[r.off + r.count + 2..], r.ended);
      assert u.message.parts[|s.message.parts|].data == text[..r.off - 2];
      assert |text[..r.off - 2]| < |parts[0].data|;
      if r.ended {
        FinishKeepsParts(u);
      } else {
        PartsOnlyGrow(u);
      }
    }
  }

  lemma EmptyDataHasNoBoundary(boundary: string)
    ensures NoBoundaryIn("", boundary)
  {
    EmptyIsNoBoundary(boundary);
    NoCrlfEmpty();
    DataLinesOf("");
  }

  lemma FinishKeepsParts(s: State)
    ensures Finish(s).message.parts == s.message.parts && Finish(s).finished && Finish(s).step == s.step
  {
  }

  /** The loop only adds parts. */
  lemma {:induction false} PartsOnlyGrow(s: State)
    ensures var r := MultipartLoop(s); r.Ok? ==> s.message.parts <= r.state.message.parts
    decreases |s.pending|, 1
  {
    hide MultipartLoop, PartHeaderLoop, IsBoundary, FindCRLF;
    if s.pending == "" || s.step == Ended {
      StopsWithParts(s);
    } else if s.step == Start {
      AtStart(s);
      if FindCRLF(s.pending, 0).Some? {
        PartsOnlyGrow(Move(s, s.pending[FindCRLF(s.pending, 0).value + 2..], BoundaryParsed));
      }
    } else if s.step == BoundaryParsed {
      AtHeaders(s);
      var r := PartHeaderLoop(s.pending, CurrentPart(s));
      if r.PartHeaded? {
        PartsOnlyGrow(Move(s.(part := Some(r.part)), r.rest, HeadersParsed));
      }
    } else {
      PartsGrowByOne(s);
    }
  }

  lemma StopsWithParts(s: State)
    requires s.pending == "" || s.step == Ended
    ensures var r := MultipartLoop(s); r.Ok? ==> r.state.message.parts == s.message.parts
  {
  }

  lemma {:induction false} PartsGrowByOne(s: State)
    requires s.step == HeadersParsed && s.pending != ""
    ensures var r := MultipartLoop(s); r.Ok? ==> s.message.parts <= r.state.message.parts
    decreases |s.pending|, 0
  {
    hide MultipartLoop, NextBoundary, Finish;
    AtData(s);
    var r := NextBoundary(s.pending, 0, Boundary(s), false);
    if r.Found? && r.off > 2 {
      var t := WithPart(s, s.pending[..r.off - 2], s.pending[r.off + r.count + 2..], r.ended);
      FinishKeepsParts(t);
      PartsOnlyGrow(t);
    }
  }

  // ----- All parts

  function UploadEnd(s: State, parts: seq<FormPart>): State {
    Finish(s.(pending := "", step := Ended, message := s.message.(parts := s.message.parts + ServedAll(parts))))
  }

  ghost predicate GivesParts(r: Outcome, parts: seq<Part>) {
    r.Ok? && r.state.message.parts == parts
  }

  /** The parts come back exactly if the data of each survives. */
  lemma {:induction false} PartsComeBack(s: State, parts: seq<FormPart>)
    requires BetweenParts(s) && parts != [] && forall p <- parts :: GoodPart(p)
    ensures var r := MultipartLoop(At(s, AfterBoundary(Boundary(s), parts)));
            && (AllSurvive(parts, Boundary(s)) ==> r == Ok(UploadEnd(s, parts)))
            && (GivesParts(r, s.message.parts + ServedAll(parts)) ==> AllSurvive(parts, Boundary(s)))
    decreases |parts|
  {
    hide MultipartLoop, NoBoundaryIn, NoEndMarkIn, GoodPart, AfterBoundary, DataText, UploadEnd, ServedAll, PartAdded;
    HeadersAreRead(s, parts);
    FirstServed(s, parts);
    var data, rest := parts[0].data, parts[1..];
    if data == "" || !NoBoundaryIn(data, Boundary(s)) {
      PartIsCut(s, parts);
    } else {
      PartIsRead(s, parts);
      if rest == [] {
        OnlyPart(s, parts);
      } else if !NoEndMarkIn(data, Boundary(s)) {
        EndsTooSoon(s, parts);
      } else {
        PartsComeBack(PartAdded(s, Served(parts[0])), rest);
      }
    }
  }

  lemma FirstServed(s: State, parts: seq<FormPart>)
    requires parts != []
    ensures var all, t := s.message.parts + ServedAll(parts), PartAdded(s, Served(parts[0]));
            && |all| > |s.message.parts| && all[|s.message.parts|] == Served(parts[0])
            && all == t.message.parts + ServedAll(parts[1..])
            && UploadEnd(t, parts[1..]) == UploadEnd(s, parts)
            && Boundary(t) == Boundary(s) && (BetweenParts(s) ==> BetweenParts(t))
  {
    hide Finish, Served;
    assert s.message.parts + ServedAll(parts) == s.message.parts + [Served(parts[0])] + ServedAll(parts[1..]);
  }

  lemma OnlyPart(s: State, parts: seq<FormPart>)
    requires |parts| == 1
    ensures UploadEnd(s, parts)
         == Finish(At(PartAdded(s, Served(parts[0])), AfterBoundary(Boundary(s), parts[1..])).(step := Ended))
  {
    hide Finish, Served;
    assert ServedAll(parts) == [Served(parts[0])];
  }

  lemma EndsTooSoon(s: State, parts: seq<FormPart>)
    requires |parts| > 1
    ensures Finish(At(PartAdded(s, Served(parts[0])),
                      AfterBoundary(Boundary(s), parts[1..])).(step := Ended)).message.parts
         != s.message.parts + ServedAll(parts)
  {
    hide AfterBoundary, Served;
    assert |ServedAll(parts)| >= 2;
  }

  // ----- The headers of the request

  lemma NoCrlfParts(a: string, b: string)
    requires NoCRLF(a + b)
    ensures NoCRLF(a) && NoCRLF(b)
  {
    forall i | 0 <= i < |a| ensures !CrlfAt(a, i) {
      assert !CrlfAt(a + b, i);
    }
    forall i | 0 <= i < |b| ensures !CrlfAt(b, i) {
      assert !CrlfAt(a + b, |a| + i);
    }
  }

  lemma PlainWithValue(h: Header, value: string)
    requires Plain(h) && NoCRLF(value) && Trimmed(value)
    ensures Plain(Header(h.name, value))
  {
    hide FindCRLF;
    assert HeaderLine(h) == h.name + (": " + h.value);
    NoCrlfParts(h.name, ": " + h.value);
    NoReturn(": ");
    NoCrlfConcat(h.name, ": ");
    NoCrlfConcat(h.name + ": ", value);
  }

  lemma SetKeepsGood(hs: seq<Header>, name: string, value: string)
    requires GoodHeaders(hs) && Plain(Header(name, value))
    ensures GoodHeaders(SetHeader(hs, name, value))
    ensures HasHeader(SetHeader(hs, name, value), name) && GetHeader(SetHeader(hs, name, value), name) == value
  {
    hide Plain, FindHeader, IEquals;
    SetKeepsDistinct(hs, name, value);
    var i, after := FindHeader(hs, name), SetHeader(hs, name, value);
    if i < |hs| {
      assert Plain(hs[i]);
      ValueIsPlain(Header(name, value));
      PlainWithValue(hs[i], value);
      FindIs(after, name, i);
    } else {
      SameName(name);
      FindIs(after, name, |hs|);
    }
  }

  lemma SameName(name: string)
    ensures IEquals(name, name)
  {
  }

  lemma ValueIsPlain(h: Header)
    requires Plain(h)
    ensures NoCRLF(h.value) && Trimmed(h.value)
  {
    hide FindCRLF;
    assert HeaderLine(h) == h.name + ": " + h.value;
    NoCrlfParts(h.name + ": ", h.value);
  }

  /** The value that `Get` gives is that of the one header with the name. */
  lemma GetIs(hs: seq<Header>, i: nat, key: string)
    requires DistinctNames(hs) && i < |hs| && IEquals(hs[i].name, key)
    ensures HasHeader(hs, key) && GetHeader(hs, key) == hs[i].value
  {
    hide IEquals, FindHeader;
    forall k | 0 <= k < i ensures !IEquals(hs[k].name, key) {
      if IEquals(hs[k].name, key) {
        Symmetric(hs[i].name, key);
        Symmetric(hs[k].name, key);
        SameNameAs(key, hs[k].name, hs[i].name);
      }
    }
    FindIs(hs, key, i);
  }

  predicate GoodBoundary(boundary: string) {
    boundary != "" && Trimmed(boundary) && NoCRLF(boundary)
  }

  const MULTIPART: string := "multipart/form-data"

  lemma MultipartTypeRead(boundary: string)
    requires GoodBoundary(boundary)
    ensures ParseContentType("multipart/form-data; boundary=" + boundary) == ContentType(MULTIPART, boundary, true)
  {
    hide Trim, FindCRLF, FindChar, Trimmed;
    var value := "multipart/form-data; boundary=" + boundary;
    var other := "boundary=" + boundary;
    assert value == MULTIPART + [';'] + (" " + other);
    FindCharAfter(MULTIPART, ';', " " + other);
    assert value[..19] == MULTIPART && value[20..] == " " + other;
    MultipartPieces(boundary);
    assert other == "boundary" + ['='] + boundary;
    FindCharAfter("boundary", '=', boundary);
    assert other[9..] == boundary;
  }

  lemma MultipartPieces(boundary: string)
    requires GoodBoundary(boundary)
    ensures Trim(MULTIPART) == MULTIPART && Trim(boundary) == boundary
    ensures Trim(" " + ("boundary=" + boundary)) == "boundary=" + boundary
  {
    hide Trim, FindCRLF;
    TrimSpaceBefore(MULTIPART);
    TrimSpaceBefore("boundary=" + boundary);
    TrimSpaceBefore(boundary);
  }

  lemma MultipartTypeIsPlain(boundary: string)
    requires GoodBoundary(boundary)
    ensures Plain(Header("Content-Type", "multipart/form-data; boundary=" + boundary))
  {
    hide FindCRLF, HeaderLine;
    var start := "multipart/form-data; boundary=";
    NoReturn(start);
    NoCrlfConcat(start, boundary);
    MediaTypeRead(start + boundary, EMPTY_PART);
  }

  lemma LengthIsPlain(n: nat)
    ensures Plain(Header("Content-Length", Decimal.Digits(n)))
  {
    hide FindCRLF;
    var digits := Decimal.Digits(n);
    assert Decimal.IsDigit(digits[0]) && Decimal.IsDigit(digits[|digits| - 1]);
    NoReturn(HeaderLine(Header("Content-Length", digits)));
  }

  /** What can be sent: the headers set before the boundary and length are added, and the parts. */
  ghost predicate Uploadable(limit: nat, startLine: string, hs: seq<Header>, boundary: string, parts: seq<FormPart>) {
    && GoodStartLine(startLine) && GoodHeaders(hs) && GetHeader(hs, "Transfer-Encoding") != "chunked"
    && GoodBoundary(boundary) && parts != [] && (forall p <- parts :: GoodPart(p))
    && |PartsText(boundary, parts)| <= limit < NPOS
  }

  lemma UploadHeaders(limit: nat, hs: seq<Header>, boundary: string, length: nat)
    requires GoodHeaders(hs) && GoodBoundary(boundary) && length <= limit < NPOS
    ensures var all := MultipartHeaders(hs, boundary, length);
            && GoodHeaders(all) && (forall h <- all :: Acceptable(limit, h))
            && HasHeader(all, "Content-Type")
            && ParseContentType(GetHeader(all, "Content-Type")) == ContentType(MULTIPART, boundary, true)
            && HasHeader(all, "Content-Length") && StoUl(GetHeader(all, "Content-Length"), 10) == Some(length)
            && GetHeader(all, "Transfer-Encoding") == GetHeader(hs, "Transfer-Encoding")
  {
    hide Plain, SetHeader, FindHeader, IEquals, ParseContentType, StoUl, HasHeader, GetHeader;
    var value := "multipart/form-data; boundary=" + boundary;
    var typed := SetHeader(hs, "Content-Type", value);
    var all := MultipartHeaders(hs, boundary, length);
    MultipartTypeRead(boundary);
    MultipartTypeIsPlain(boundary);
    LengthIsPlain(length);
    LengthRoundTrip(length);
    SetKeepsGood(hs, "Content-Type", value);
    SetKeepsGood(typed, "Content-Length", Decimal.Digits(length));
    KeysDiffer();
    SetKeepsOthers(hs, "Content-Type", value, "Transfer-Encoding");
    SetKeepsOthers(typed, "Content-Length", Decimal.Digits(length), "Transfer-Encoding");
    SetKeepsOthers(typed, "Content-Length", Decimal.Digits(length), "Content-Type");
    forall h | h in all ensures Acceptable(limit, h) {
      var i :| 0 <= i < |all| && all[i] == h;
      if IEquals(h.name, "Content-Length") {
        GetIs(all, i, "Content-Length");
      } else if IEquals(h.name, "Content-Type") {
        GetIs(all, i, "Content-Type");
      }
    }
  }

  lemma KeysDiffer()
    ensures !IEquals("Content-Type", "Transfer-Encoding") && !IEquals("Content-Length", "Transfer-Encoding")
    ensures !IEquals("Content-Length", "Content-Type")
  {
  }

  // ----- The round trip

  /** The request as it is sent. */
  function UploadText(startLine: string, hs: seq<Header>, boundary: string, parts: seq<FormPart>): string {
    var body := PartsText(boundary, parts);
    MessageText(startLine, MultipartHeaders(hs, boundary, |body|), "") + body
  }

  /** The parser when it has read the headers and the first boundary line. */
  function FirstPart(startLine: string, hs: seq<Header>, boundary: string, parts: seq<FormPart>): State {
    var all := MultipartHeaders(hs, boundary, |PartsText(boundary, parts)|);
    Knowing(Started(FRESH, startLine), all).(headerEnded := true, step := BoundaryParsed)
  }

  lemma BodyGoesLast(startLine: string, hs: seq<Header>, body: string)
    ensures MessageText(startLine, hs, "") + body == MessageText(startLine, hs, body)
  {
    hide HeadersText;
    assert HeadersText(hs) + (CRLF + "") + body == HeadersText(hs) + (CRLF + body);
  }

  lemma UploadIsRead(limit: nat, startLine: string, hs: seq<Header>, boundary: string, parts: seq<FormPart>)
    requires Uploadable(limit, startLine, hs, boundary, parts)
    ensures var text := UploadText(startLine, hs, boundary, parts);
            var s := FirstPart(startLine, hs, boundary, parts);
            && BetweenParts(s) && Boundary(s) == boundary && s.message.parts == [] && text != ""
            && EndIsStable(limit, FRESH, text)
            && Parse(limit, FRESH, text) == MultipartLoop(At(s, AfterBoundary(boundary, parts)))
  {
    hide HeaderLoop, MultipartLoop, Knowing, GoodStartLine, GoodHeaders, Acceptable, ParseContentType, StoUl, PartsText;
    hide HasHeader, GetHeader, MultipartHeaders, GoodPart, AfterBoundary;
    var body := PartsText(boundary, parts);
    var all := MultipartHeaders(hs, boundary, |body|);
    var text := UploadText(startLine, hs, boundary, parts);
    UploadHeaders(limit, hs, boundary, |body|);
    BodyGoesLast(startLine, all, body);
    HeadRead(limit, FRESH, startLine, all, body);
    var h := Knowing(Started(FRESH, startLine), all).(pending := body, headerEnded := true);
    KnownUpload(startLine, all, boundary, |body|);
    assert "" + text == text && body + "" == body;
    MultipartIsStable(limit, FRESH, text, h);
    HeaderLoopIgnoresPending(limit, FRESH, text, text);
    FirstBoundary(h, boundary, parts);
  }

  lemma KnownUpload(startLine: string, all: seq<Header>, boundary: string, length: nat)
    requires HasHeader(all, "Content-Type") && GetHeader(all, "Transfer-Encoding") != "chunked"
    requires ParseContentType(GetHeader(all, "Content-Type")) == ContentType(MULTIPART, boundary, true)
    requires HasHeader(all, "Content-Length") && StoUl(GetHeader(all, "Content-Length"), 10) == Some(length)
    ensures var h := Knowing(Started(FRESH, startLine), all);
            && !h.chunked && h.message.contentType == ContentType(MULTIPART, boundary, true)
            && h.contentLengthParsed && h.contentLength == length && h.message.parts == []
            && h.step == Start && h.part == None && !h.finished && h.chunkSize == NPOS
  {
    hide ParseContentType, StoUl, HasHeader, GetHeader, SplitBlanks;
  }

  lemma FirstBoundary(h: State, boundary: string, parts: seq<FormPart>)
    requires h.pending == PartsText(boundary, parts) && parts != [] && h.step == Start
    requires Boundary(h) == boundary && NoCRLF(boundary)
    ensures MultipartLoop(h) == MultipartLoop(Move(h, AfterBoundary(boundary, parts), BoundaryParsed))
  {
    hide MultipartLoop, IsBoundary, FindCRLF, PartsText, AfterBoundary;
    PartsTextSplits(boundary, parts);
    WrittenBoundaries(boundary);
    LineFound("--" + boundary, AfterBoundary(boundary, parts));
    AtStart(h);
  }

  /**
   * A multipart request, read in any pieces by a new parser, gives the server its parts as they
   * were exactly if the data of each survives.
   */
  lemma UploadRoundTrip(limit: nat, startLine: string, hs: seq<Header>, boundary: string, parts: seq<FormPart>,
                        fragments: seq<string>)
    requires Uploadable(limit, startLine, hs, boundary, parts)
    requires Concat(fragments) == UploadText(startLine, hs, boundary, parts)
    ensures var r := Feed(limit, FRESH, fragments);
            && (GivesParts(r, ServedAll(parts)) <==> AllSurvive(parts, boundary))
            && (AllSurvive(parts, boundary) ==> r.state.finished && r.state.step == Ended)
  {
    hide Parse, Feed, MultipartLoop, AllSurvive, FirstPart, UploadText, GoodPart, AfterBoundary;
    UploadIsRead(limit, startLine, hs, boundary, parts);
    var s := FirstPart(startLine, hs, boundary, parts);
    PartsComeBack(s, parts);
    assert [] + ServedAll(parts) == ServedAll(parts);
    if fragments == [] {
      ConcatNone();
    }
    FeedAgrees(limit, FRESH, fragments);
    FinishKeepsParts(s.(pending := "", step := Ended, message := s.message.(parts := [] + ServedAll(parts))));
  }
}
