/**
 * Chunked bodies: the content is the concatenation of the chunks, and a read may end anywhere but
 * strictly inside a chunk-size line.
 */
module HttpChunked {
  import opened Wrappers
  import opened HttpText
  import opened HttpMessage
  import opened HttpParsing
  import opened HttpFragments
  import opened HttpReads
  import opened HttpRoundTrip

  /** A size line, without its CRLF, and the data it announces. */
  datatype Chunk = Chunk(line: string, data: string)

  predicate SizeLine(line: string, size: nat) {
    NoCRLF(line + "\r") && StoUl(SizeText(line), 16) == Some(size)
  }

  predicate WellFormedChunk(c: Chunk) {
    SizeLine(c.line, |c.data|) && 0 < |c.data| < NPOS - 1
  }

  ghost predicate WellFormedChunks(chunks: seq<Chunk>, last: string) {
    (forall c <- chunks :: WellFormedChunk(c)) && SizeLine(last, 0)
  }

  function ChunkText(c: Chunk): string {
    c.line + CRLF + (c.data + CRLF)
  }

  /** Up to the end of the zero-size line. */
  function ChunksText(chunks: seq<Chunk>, last: string): string {
    if chunks == [] then last + CRLF else ChunkText(chunks[0]) + ChunksText(chunks[1..], last)
  }

  function ChunksData(chunks: seq<Chunk>): string {
    if chunks == [] then "" else chunks[0].data + ChunksData(chunks[1..])
  }

  function FirstLine(chunks: seq<Chunk>, last: string): string {
    if chunks == [] then last else chunks[0].line
  }

  /** Some but not all of a size line and its CRLF lies before `k`. */
  predicate InsideSizeLine(chunks: seq<Chunk>, last: string, k: nat) {
    if k < |FirstLine(chunks, last)| + 2 then k > 0
    else chunks != [] && k >= |ChunkText(chunks[0])| && InsideSizeLine(chunks[1..], last, k - |ChunkText(chunks[0])|)
  }

  /** Where a size line is expected. */
  predicate Expecting(s: State) {
    Chunking(s) && s.chunkSize == NPOS && !s.finished
  }

  function Pend(s: State, text: string): State {
    s.(pending := text)
  }

  function InData(s: State, size: nat, text: string): State {
    s.(pending := text, chunkSize := size)
  }

  lemma SizeLineRead(s: State, line: string, size: nat, rest: string)
    requires Expecting(s) && SizeLine(line, size)
    ensures Sized(Pend(s, line + CRLF + rest)) == Some(InData(s, size, rest))
  {
    hide StoUl, SizeText;
    FindCrlfAfter(line, rest);
    var text := line + CRLF + rest;
    assert text[..|line|] == line && text[|line| + 2..] == rest;
  }

  /** A whole chunk is moved to the content. */
  lemma WholeChunk(s: State, c: Chunk, rest: string)
    requires Expecting(s) && WellFormedChunk(c)
    ensures ChunkLoop(Pend(s, ChunkText(c) + rest)) == ChunkLoop(Pend(s.(content := s.content + c.data), rest))
  {
    hide ChunkLoop, SizeLine, Sized;
    var after := c.data + CRLF + rest;
    assert ChunkText(c) + rest == c.line + CRLF + after;
    SizeLineRead(s, c.line, |c.data|, after);
    ChunkUnfold(Pend(s, c.line + CRLF + after));
    var t := InData(s, |c.data|, after);
    ChunkStep(t);
    assert after[..|c.data|] == c.data && after[|c.data| + 2..] == rest;
  }

  /** The end state of a chunked body: `rest` is what was read beyond the zero-size line. */
  function ChunkedEnd(s: State, chunks: seq<Chunk>, rest: string): State {
    Finish(s.(content := s.content + ChunksData(chunks), pending := rest, chunkSize := 0))
  }

  lemma {:induction false} ChunkedBody(s: State, chunks: seq<Chunk>, last: string, rest: string)
    requires Expecting(s) && WellFormedChunks(chunks, last)
    ensures ChunkLoop(Pend(s, ChunksText(chunks, last) + rest)) == Ok(ChunkedEnd(s, chunks, rest))
    decreases |chunks|
  {
    hide ChunkLoop, SizeLine, Sized, Finish, WellFormedChunk;
    if chunks == [] {
      SizeLineRead(s, last, 0, rest);
      ChunkUnfold(Pend(s, last + CRLF + rest));
      assert s.content + "" == s.content;
    } else {
      var tail := ChunksText(chunks[1..], last) + rest;
      assert ChunksText(chunks, last) + rest == ChunkText(chunks[0]) + tail;
      WholeChunk(s, chunks[0], tail);
      ChunkedBody(s.(content := s.content + chunks[0].data), chunks[1..], last, rest);
      assert s.content + chunks[0].data + ChunksData(chunks[1..]) == s.content + ChunksData(chunks);
    }
  }

  /** With no size line to be had, the parser waits only while it has nothing at all. */
  lemma PartOfSizeLine(s: State, line: string, size: nat, k: nat)
    requires Expecting(s) && SizeLine(line, size) && k < |line| + 2
    ensures var r := ChunkLoop(Pend(s, (line + CRLF)[..k]));
            if k > 0 then r == Throw else Unfinished(r)
  {
    hide ChunkLoop, StoUl;
    var t := Pend(s, (line + CRLF)[..k]);
    forall i | 0 <= i < k ensures !CrlfAt(t.pending, i) {
      assert !CrlfAt(line + "\r", i);
    }
    NoSizeLine(t);
    ChunkUnfold(t);
    if k == 0 {
      NothingPending(t);
    }
  }

  /** Inside a chunk's data the parser waits for the rest. */
  lemma PartOfChunk(s: State, c: Chunk, k: nat)
    requires Expecting(s) && WellFormedChunk(c) && |c.line| + 2 <= k < |ChunkText(c)|
    ensures Unfinished(ChunkLoop(Pend(s, ChunkText(c)[..k])))
  {
    hide ChunkLoop, SizeLine, Sized;
    var part := (c.data + CRLF)[..k - |c.line| - 2];
    assert ChunkText(c)[..k] == c.line + CRLF + part;
    SizeLineRead(s, c.line, |c.data|, part);
    ChunkUnfold(Pend(s, c.line + CRLF + part));
    ChunkStep(InData(s, |c.data|, part));
  }

  /** Exactly the reads that end strictly inside a size line break the parser; all others leave it waiting. */
  lemma {:induction false} PartOfBody(s: State, chunks: seq<Chunk>, last: string, k: nat)
    requires Expecting(s) && WellFormedChunks(chunks, last) && k < |ChunksText(chunks, last)|
    ensures var r := ChunkLoop(Pend(s, ChunksText(chunks, last)[..k]));
            if InsideSizeLine(chunks, last, k) then r == Throw else Unfinished(r)
    decreases |chunks|
  {
    hide ChunkLoop, SizeLine;
    if chunks == [] {
      PartOfSizeLine(s, last, 0, k);
    } else {
      var c, tail := chunks[0], ChunksText(chunks[1..], last);
      var n := |ChunkText(c)|;
      assert WellFormedChunk(c);
      if k < |c.line| + 2 {
        assert ChunksText(chunks, last)[..k] == (c.line + CRLF)[..k];
        PartOfSizeLine(s, c.line, |c.data|, k);
      } else if k < n {
        assert ChunksText(chunks, last)[..k] == ChunkText(c)[..k];
        PartOfChunk(s, c, k);
      } else {
        assert ChunksText(chunks, last)[..k] == ChunkText(c) + tail[..k - n];
        WholeChunk(s, c, tail[..k - n]);
        PartOfBody(s.(content := s.content + c.data), chunks[1..], last, k - n);
      }
    }
  }

  // ----- Whole requests

  /** The headers alone leave a parser that expects a chunked body. */
  ghost predicate ChunkedHead(limit: nat, s: State, head: string, h: State) {
    HeadEnds(limit, s, head, h) && Expecting(h)
  }

  lemma HeadThenBody(limit: nat, s: State, head: string, h: State, body: string)
    requires ChunkedHead(limit, s, head, h)
    ensures Parse(limit, s, head + body) == ChunkLoop(Pend(h, body))
  {
    hide HeaderLoop, ChunkLoop;
    HeadThenContent(limit, s, head, h, body);
    assert body + "" == body;
  }

  /** Where a read of the request may not end. */
  predicate BadCut(head: string, chunks: seq<Chunk>, last: string, k: nat) {
    k > |head| && InsideSizeLine(chunks, last, k - |head|)
  }

  /** What the parser makes of each part of a chunked request; it is complete exactly with the zero-size line. */
  lemma PartOfRequest(limit: nat, s: State, head: string, h: State, chunks: seq<Chunk>, last: string, rest: string,
                      k: nat)
    requires ChunkedHead(limit, s, head, h) && WellFormedChunks(chunks, last)
    requires k <= |head| + |ChunksText(chunks, last)| + |rest|
    ensures var r := Parse(limit, s, (head + ChunksText(chunks, last) + rest)[..k]);
            var end := |head| + |ChunksText(chunks, last)|;
            if k >= end then r == Ok(ChunkedEnd(h, chunks, rest[..k - end]))
            else if BadCut(head, chunks, last, k) then r == Throw
            else Unfinished(r)
  {
    hide Parse, HeaderLoop, ChunkLoop, InsideSizeLine, ChunkedEnd, ChunkedHead, WellFormedChunks;
    var body := ChunksText(chunks, last);
    var text, end := head + body + rest, |head| + |body|;
    if k < |head| {
      assert text[..k] == head[..k];
      ExpectsBody(limit, s, head, h);
      PartOfHead(limit, s, head, h, k);
    } else if k < end {
      assert text[..k] == head + body[..k - |head|];
      HeadThenBody(limit, s, head, h, body[..k - |head|]);
      ExpectsBody(limit, s, head, h);
      PartOfBody(h, chunks, last, k - |head|);
      NotInsideAtStart(chunks, last);
    } else {
      assert text[..k] == head + (body + rest[..k - end]);
      HeadThenBody(limit, s, head, h, body + rest[..k - end]);
      ExpectsBody(limit, s, head, h);
      ChunkedBody(h, chunks, last, rest[..k - end]);
    }
  }

  lemma ExpectsBody(limit: nat, s: State, head: string, h: State)
    requires ChunkedHead(limit, s, head, h)
    ensures HeadEnds(limit, s, head, h) && Expecting(h)
  {
  }

  lemma NotInsideAtStart(chunks: seq<Chunk>, last: string)
    ensures !InsideSizeLine(chunks, last, 0)
  {
  }

  /**
   * A chunked request, read in any pieces of which none ends inside a size line, is completed with
   * the concatenation of its chunks as content. What follows it, such as the last CRLF, may arrive with it.
   */
  lemma ChunkedReads(limit: nat, s: State, head: string, h: State, chunks: seq<Chunk>, last: string, rest: string,
                     fragments: seq<string>)
    requires ChunkedHead(limit, s, head, h) && WellFormedChunks(chunks, last)
    requires Concat(fragments) == head + ChunksText(chunks, last) + rest
    requires forall i :: 0 <= i <= |fragments| ==> !BadCut(head, chunks, last, Length(fragments[..i]))
    ensures exists k | 0 <= k <= |rest| :: Feed(limit, s, fragments) == Ok(ChunkedEnd(h, chunks, rest[..k]))
  {
    hide Parse, Feed, BadCut, ChunkedHead, ChunkedEnd, WellFormedChunks;
    var end := |head| + |ChunksText(chunks, last)|;
    BodyIsNotEmpty(chunks, last);
    var n := ReadsCovering(fragments, end);
    var pieces := fragments[..n];
    forall i | 0 < i <= n ensures CutAllowed(Parse(limit, s, Concat(pieces[..i])), Concat(pieces[i..])) {
      assert pieces[..i] == fragments[..i];
      PrefixOfText(fragments, i);
      var k := Length(fragments[..i]);
      assert !BadCut(head, chunks, last, k);
      PartOfRequest(limit, s, head, h, chunks, last, rest, k);
      if i == n {
        assert Concat(pieces[i..]) == "";
      }
    }
    PrefixOfText(fragments, n);
    var k := Length(pieces);
    PartOfRequest(limit, s, head, h, chunks, last, rest, k);
    assert pieces[..n] == pieces;
    HeadIsLive(limit, s, head, h);
    FragmentsDoNotMatter(limit, s, pieces);
    EndIsNotInChunk(h, chunks, rest[..k - end]);
    FeedStops(limit, s, fragments, n);
  }

  lemma HeadIsLive(limit: nat, s: State, head: string, h: State)
    requires ChunkedHead(limit, s, head, h)
    ensures Live(s)
  {
  }

  lemma BodyIsNotEmpty(chunks: seq<Chunk>, last: string)
    ensures ChunksText(chunks, last) != ""
  {
  }

  lemma EndIsNotInChunk(h: State, chunks: seq<Chunk>, rest: string)
    ensures !InChunk(ChunkedEnd(h, chunks, rest)) && ChunkedEnd(h, chunks, rest).finished
    ensures h.content == "" && ChunksData(chunks) != "" ==>
             ChunkedEnd(h, chunks, rest).message.content == ChunksData(chunks)
  {
    assert "" + ChunksData(chunks) == ChunksData(chunks);
  }


  // ----- A read that does end inside a size line

  /** Going on from a good cut to a bad one fails like reading up to the bad cut at once. */
  lemma {:induction false} BadCutThrows(s: State, chunks: seq<Chunk>, last: string, from: nat, to: nat)
    requires Expecting(s) && WellFormedChunks(chunks, last) && from <= to < |ChunksText(chunks, last)|
    requires !InsideSizeLine(chunks, last, from) && InsideSizeLine(chunks, last, to)
    ensures var body := ChunksText(chunks, last);
            var r := ChunkLoop(Pend(s, body[..from]));
            r.Ok? && ChunkLoop(Extend(r.state, body[from..to])) == Throw
    decreases |chunks|
  {
    hide ChunkLoop, SizeLine;
    var body := ChunksText(chunks, last);
    PartOfBody(s, chunks, last, from);
    PartOfBody(s, chunks, last, to);
    if from == 0 {
      NothingPending(Pend(s, body[..0]));
      assert body[..0] + body[0..to] == body[..to];
    } else {
      var c, tail := chunks[0], ChunksText(chunks[1..], last);
      var n := |ChunkText(c)|;
      assert WellFormedChunk(c);
      if from < n {
        assert body[..from] == ChunkText(c)[..from] && body[from..to] == ChunkText(c)[from..] + tail[..to - n];
        FromInsideChunk(s, c, from, tail[..to - n]);
        assert body[..to] == ChunkText(c) + tail[..to - n];
      } else {
        assert body[..from] == ChunkText(c) + tail[..from - n] && body[from..to] == tail[from - n..to - n];
        WholeChunk(s, c, tail[..from - n]);
        BadCutThrows(s.(content := s.content + c.data), chunks[1..], last, from - n, to - n);
      }
    }
  }

  lemma FromInsideChunk(s: State, c: Chunk, from: nat, more: string)
    requires Expecting(s) && WellFormedChunk(c) && |c.line| + 2 <= from < |ChunkText(c)|
    ensures var r := ChunkLoop(Pend(s, ChunkText(c)[..from]));
            && r.Ok?
            && SameOutcome(ChunkLoop(Extend(r.state, ChunkText(c)[from..] + more)),
                           ChunkLoop(Pend(s, ChunkText(c) + more)))
  {
    hide ChunkLoop, SizeLine, Sized;
    var data := c.data + CRLF;
    var k := from - |c.line| - 2;
    var part, rest := data[..k], data[k..] + more;
    assert ChunkText(c)[..from] == c.line + CRLF + part && ChunkText(c)[from..] == data[k..];
    assert ChunkText(c) + more == c.line + CRLF + (data + more);
    SizeLineRead(s, c.line, |c.data|, part);
    SizeLineRead(s, c.line, |c.data|, data + more);
    ChunkUnfold(Pend(s, c.line + CRLF + part));
    ChunkUnfold(Pend(s, c.line + CRLF + (data + more)));
    var t := InData(s, |c.data|, part);
    assert part + rest == data + more;
    assert Extend(t, rest) == InData(s, |c.data|, data + more);
    ChunkStep(t);
    if k < |c.data| {
      PartialIsSame(t, rest);
      ChunkLoopSame(Extend(t, rest), Extend(TakePartial(t), rest));
    }
  }

  /** From a good cut of a whole request to a bad one. */
  lemma BadCutOfRequest(limit: nat, s: State, head: string, h: State, chunks: seq<Chunk>, last: string,
                        from: nat, to: nat, t: State)
    requires ChunkedHead(limit, s, head, h) && WellFormedChunks(chunks, last)
    requires from <= to < |head| + |ChunksText(chunks, last)|
    requires !BadCut(head, chunks, last, from) && BadCut(head, chunks, last, to)
    requires SameOutcome(Ok(t), Parse(limit, s, (head + ChunksText(chunks, last))[..from]))
    ensures Parse(limit, t, (head + ChunksText(chunks, last))[from..to]) == Throw
  {
    hide Parse, HeaderLoop, ChunkLoop, WellFormedChunks, InsideSizeLine;
    var body := ChunksText(chunks, last);
    var text := head + body;
    assert text[..to] == text[..from] + text[from..to] == head + body[..to - |head|];
    HeadThenBody(limit, s, head, h, body[..to - |head|]);
    PartOfBody(h, chunks, last, to - |head|);
    if from < |head| {
      assert text[..from] == head[..from];
      SplitInHead(limit, s, head, h, from, text[from..to], t);
    } else {
      var k := from - |head|;
      assert text[..from] == head + body[..k] && text[from..to] == body[k..to - |head|];
      HeadThenBody(limit, s, head, h, body[..k]);
      NotInsideAtStart(chunks, last);
      BadCutThrows(h, chunks, last, k, to - |head|);
      ChunkKeeps(Pend(h, body[..k]));
      var u := ChunkLoop(Pend(h, body[..k])).state;
      SameChunkExtends(t, u, body[k..to - |head|]);
      ChunkLoopSame(Extend(t, body[k..to - |head|]), Extend(u, body[k..to - |head|]));
      ParseInBody(limit, t, body[k..to - |head|]);
    }
  }

  lemma ParseInBody(limit: nat, t: State, data: string)
    requires Chunking(t)
    ensures Parse(limit, t, data) == ChunkLoop(Extend(t, data))
  {
    hide ChunkLoop;
  }

  /** The first read that ends inside a size line breaks the connection. */
  lemma ChunkedReadsThrow(limit: nat, s: State, head: string, h: State, chunks: seq<Chunk>, last: string,
                          fragments: seq<string>, i: nat)
    requires ChunkedHead(limit, s, head, h) && WellFormedChunks(chunks, last) && 0 < i <= |fragments|
    requires Concat(fragments) == head + ChunksText(chunks, last)
    requires BadCut(head, chunks, last, Length(fragments[..i]))
    requires forall j :: 0 <= j < i ==> !BadCut(head, chunks, last, Length(fragments[..j]))
    ensures Feed(limit, s, fragments) == Throw
  {
    hide Parse, Feed, BadCut, ChunkedHead, WellFormedChunks;
    var text, end := Concat(fragments), |head| + |ChunksText(chunks, last)|;
    assert text + "" == text;
    var pieces := fragments[..i - 1];
    var from, to := Length(pieces), Length(fragments[..i]);
    LastPiece(fragments, i);
    PrefixOfText(fragments, i);
    BadCutIsInside(head, chunks, last, to);
    forall j | 0 < j <= i - 1 ensures CutAllowed(Parse(limit, s, Concat(pieces[..j])), Concat(pieces[j..])) {
      assert pieces[..j] == fragments[..j];
      PrefixOfText(fragments, j);
      PrefixOfText(pieces, j);
      PartOfRequest(limit, s, head, h, chunks, last, "", Length(fragments[..j]));
    }
    PrefixOfText(fragments, i - 1);
    PartOfRequest(limit, s, head, h, chunks, last, "", from);
    HeadIsLive(limit, s, head, h);
    assert fragments[i - 1] == text[from..to];
    if i == 1 {
      assert pieces == [] && text[0..to] == text[..to];
      PartOfRequest(limit, s, head, h, chunks, last, "", to);
      FeedFirst(limit, s, fragments);
    } else {
      FragmentsDoNotMatter(limit, s, pieces);
      var t := Feed(limit, s, pieces).state;
      FeedGoesOn(limit, s, fragments, i - 1);
      BadCutOfRequest(limit, s, head, h, chunks, last, from, to, t);
      FeedFirst(limit, t, fragments[i - 1..]);
    }
  }

  lemma BadCutIsInside(head: string, chunks: seq<Chunk>, last: string, k: nat)
    requires BadCut(head, chunks, last, k)
    ensures k < |head| + |ChunksText(chunks, last)|
  {
    SizeLinesAreInside(chunks, last, k - |head|);
  }

  lemma {:induction false} SizeLinesAreInside(chunks: seq<Chunk>, last: string, k: nat)
    requires InsideSizeLine(chunks, last, k)
    ensures k < |ChunksText(chunks, last)|
    decreases |chunks|
  {
    if chunks != [] && k >= |ChunkText(chunks[0])| {
      SizeLinesAreInside(chunks[1..], last, k - |ChunkText(chunks[0])|);
    }
  }

  // ----- Requests as they are sent

  /** The parser when the head of a chunked request has been read. */
  function AfterHead(s: State, startLine: string, hs: seq<Header>): State {
    Knowing(Started(s, startLine), hs).(headerEnded := true)
  }

  lemma HeadIsChunked(limit: nat, s: State, startLine: string, hs: seq<Header>)
    requires Ready(s) && GoodStartLine(startLine) && GoodHeaders(hs) && (forall h <- hs :: Acceptable(limit, h))
    requires GetHeader(hs, "Transfer-Encoding") == "chunked"
    ensures ChunkedHead(limit, s, MessageText(startLine, hs, ""), AfterHead(s, startLine, hs))
    ensures var h := AfterHead(s, startLine, hs);
            h.message.headers == hs && h.message.startLine == startLine && h.content == "" && h.message.content == ""
  {
    hide HeaderLoop, GoodStartLine, GoodHeaders, Acceptable, SplitBlanks, ParseContentType, StoUl, HasHeader, GetHeader;
    HeadRead(limit, s, startLine, hs, "");
    var text := MessageText(startLine, hs, "");
    assert "" + text == text;
  }

  /** A chunked request that is sent with its headers comes back with them and with the data of its chunks. */
  lemma ChunkedRoundTrip(limit: nat, s: State, startLine: string, hs: seq<Header>, chunks: seq<Chunk>, last: string,
                         rest: string, fragments: seq<string>)
    requires Ready(s) && GoodStartLine(startLine) && GoodHeaders(hs) && (forall h <- hs :: Acceptable(limit, h))
    requires GetHeader(hs, "Transfer-Encoding") == "chunked" && WellFormedChunks(chunks, last)
    requires Concat(fragments) == MessageText(startLine, hs, "") + ChunksText(chunks, last) + rest
    requires forall i :: 0 <= i <= |fragments| ==>
               !BadCut(MessageText(startLine, hs, ""), chunks, last, Length(fragments[..i]))
    ensures var r := Feed(limit, s, fragments);
            && r.Ok? && r.state.finished
            && r.state.message.headers == hs && r.state.message.content == ChunksData(chunks)
  {
    hide Feed, ChunkedHead, WellFormedChunks, BadCut, MessageText, GoodStartLine, GoodHeaders, Acceptable, GetHeader;
    hide AfterHead, Length, ChunksText, ChunkedEnd;
    HeadIsChunked(limit, s, startLine, hs);
    var h := AfterHead(s, startLine, hs);
    ChunkedReads(limit, s, MessageText(startLine, hs, ""), h, chunks, last, rest, fragments);
    var k :| 0 <= k <= |rest| && Feed(limit, s, fragments) == Ok(ChunkedEnd(h, chunks, rest[..k]));
    EndHasData(h, chunks, rest[..k]);
  }

  lemma EndHasData(h: State, chunks: seq<Chunk>, rest: string)
    requires h.content == "" && h.message.content == ""
    ensures var end := ChunkedEnd(h, chunks, rest);
            end.finished && end.message.headers == h.message.headers && end.message.content == ChunksData(chunks)
  {
    assert "" + ChunksData(chunks) == ChunksData(chunks);
  }
}
