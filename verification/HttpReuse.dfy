/**
 * A second upload on one connection: the parser is prepared for it by `Init`, which keeps the
 * multipart step of the first.
 */
module HttpReuse {
  import opened HttpText
  import opened HttpMessage
  import opened HttpParsing
  import opened HttpReads
  import opened HttpRoundTrip
  import opened HttpUpload

  function UploadHead(startLine: string, hs: seq<Header>, boundary: string, parts: seq<FormPart>): string {
    MessageText(startLine, MultipartHeaders(hs, boundary, |PartsText(boundary, parts)|), "")
  }

  /** The parser when it has read the headers of an upload. */
  function HeadDone(s: State, startLine: string, hs: seq<Header>, boundary: string, parts: seq<FormPart>): State {
    Knowing(Started(s, startLine), MultipartHeaders(hs, boundary, |PartsText(boundary, parts)|)).(headerEnded := true)
  }

  lemma HeadIsRead(limit: nat, s: State, startLine: string, hs: seq<Header>, boundary: string, parts: seq<FormPart>)
    requires Ready(s) && Uploadable(limit, startLine, hs, boundary, parts)
    ensures HeadEnds(limit, s, UploadHead(startLine, hs, boundary, parts), HeadDone(s, startLine, hs, boundary, parts))
    ensures var h := HeadDone(s, startLine, hs, boundary, parts);
            && !h.chunked && h.message.contentType.multipart && h.contentLengthParsed && h.contentLength != NPOS
            && h.step == s.step && h.message.parts == []
    ensures UploadHead(startLine, hs, boundary, parts) != ""
  {
    hide HeaderLoop, Knowing, GoodStartLine, GoodHeaders, Acceptable, ParseContentType, StoUl, PartsText, HasHeader;
    hide GetHeader, MultipartHeaders;
    var length := |PartsText(boundary, parts)|;
    var all := MultipartHeaders(hs, boundary, length);
    UploadHeaders(limit, hs, boundary, length);
    HeadRead(limit, s, startLine, all, "");
    KnownHead(s, startLine, all, boundary, length);
    var text := MessageText(startLine, all, "");
    assert "" + text == text;
  }

  lemma KnownHead(s: State, startLine: string, all: seq<Header>, boundary: string, length: nat)
    requires Ready(s) && HasHeader(all, "Content-Type") && GetHeader(all, "Transfer-Encoding") != "chunked"
    requires ParseContentType(GetHeader(all, "Content-Type")) == ContentType(MULTIPART, boundary, true)
    requires HasHeader(all, "Content-Length") && StoUl(GetHeader(all, "Content-Length"), 10).Some?
    requires StoUl(GetHeader(all, "Content-Length"), 10).value == length
    ensures var h := Knowing(Started(s, startLine), all).(headerEnded := true);
            && !h.chunked && h.message.contentType == ContentType(MULTIPART, boundary, true)
            && h.contentLengthParsed && h.contentLength == length && h.message.parts == []
            && h.step == s.step && h.pending == "" && h.headerEnded
            && h == Knowing(Started(s, startLine), all).(pending := "", headerEnded := true)
            && Live(s) && !s.headerEnded && s.pending == ""
  {
    hide ParseContentType, StoUl, HasHeader, GetHeader, SplitBlanks;
  }

  /** After the end step, content that is there is never used up; without any the body counts as ended. */
  lemma ContentAfterEnd(h: State, body: string)
    requires h.headerEnded && !h.chunked && h.message.contentType.multipart && h.contentLengthParsed
             && h.contentLength != NPOS
    requires h.step == Ended
    ensures Content(h.(pending := body), "") == if body == "" then Ok(Finish(h.(pending := ""))) else Hang
  {
    assert body + "" == body;
  }

  /** What a reused parser makes of each part of an upload. */
  lemma PartOfUpload(limit: nat, s: State, startLine: string, hs: seq<Header>, boundary: string, parts: seq<FormPart>,
                     k: nat)
    requires Ready(s) && s.step == Ended && Uploadable(limit, startLine, hs, boundary, parts)
    requires k <= |UploadText(startLine, hs, boundary, parts)|
    ensures var r := Parse(limit, s, UploadText(startLine, hs, boundary, parts)[..k]);
            var head := |UploadHead(startLine, hs, boundary, parts)|;
            if k < head then Unfinished(r)
            else if k == head then r == Ok(Finish(HeadDone(s, startLine, hs, boundary, parts)))
            else r == Hang
  {
    hide Parse, PartsText, MessageText, HeadDone, Content, Uploadable, MultipartHeaders, Finish;
    HeadIsRead(limit, s, startLine, hs, boundary, parts);
    var text := UploadText(startLine, hs, boundary, parts);
    var head, h := UploadHead(startLine, hs, boundary, parts), HeadDone(s, startLine, hs, boundary, parts);
    if k < |head| {
      assert text[..k] == head[..k];
      PartOfHead(limit, s, head, h, k);
    } else {
      var body := text[|head|..k];
      assert text[..k] == head + body;
      HeadThenContent(limit, s, head, h, body);
      ContentAfterEnd(h, body);
      assert h.(pending := "") == h;
    }
  }

  /**
   * An upload that a reused parser reads after another has ended: if a read ends with the headers,
   * the request counts as complete without any part; otherwise the parser never returns.
   */
  lemma SecondUpload(limit: nat, s: State, startLine: string, hs: seq<Header>, boundary: string, parts: seq<FormPart>,
                     fragments: seq<string>)
    requires Ready(s) && s.step == Ended && Uploadable(limit, startLine, hs, boundary, parts)
    requires Concat(fragments) == UploadText(startLine, hs, boundary, parts)
    ensures var r := Feed(limit, s, fragments);
            if EndsAt(fragments, |UploadHead(startLine, hs, boundary, parts)|)
            then r.Ok? && r.state.finished && r.state.message.parts == [] else r == Hang
  {
    hide Parse, Feed, PartsText, MessageText, HeadDone, Uploadable, MultipartHeaders, Concat;
    HeadIsRead(limit, s, startLine, hs, boundary, parts);
    var head, h := UploadHead(startLine, hs, boundary, parts), HeadDone(s, startLine, hs, boundary, parts);
    HeadIsShorter(startLine, hs, boundary, parts);
    var n := ReadsCovering(fragments, |head|);
    FirstRead(fragments, n, |head|);
    if Length(fragments[..n]) == |head| {
      ReadsUpToHead(limit, s, startLine, hs, boundary, parts, fragments, n);
      FeedStops(limit, s, fragments, n);
    } else {
      ReadBeyondHead(limit, s, startLine, hs, boundary, parts, fragments, n);
    }
  }

  lemma HeadIsShorter(startLine: string, hs: seq<Header>, boundary: string, parts: seq<FormPart>)
    ensures |UploadHead(startLine, hs, boundary, parts)| <= |UploadText(startLine, hs, boundary, parts)|
  {
  }

  /** Some read ends at position `k`. */
  ghost predicate EndsAt(fragments: seq<string>, k: nat) {
    exists i :: 0 <= i <= |fragments| && Length(fragments[..i]) == k
  }

  /** If a read ends at `k`, the first that covers it does. */
  lemma FirstRead(fragments: seq<string>, n: nat, k: nat)
    requires 0 < n <= |fragments| && Length(fragments[..n]) >= k
    requires forall j :: 0 <= j < n ==> Length(fragments[..j]) < k
    ensures EndsAt(fragments, k) <==> Length(fragments[..n]) == k
  {
    forall i | n <= i <= |fragments| ensures Length(fragments[..i]) >= Length(fragments[..n]) {
      PrefixOfText(fragments[..i], n);
      assert fragments[..i][..n] == fragments[..n];
    }
  }

  /** The reads before the head is complete leave the parser unfinished. */
  lemma CutsInHead(limit: nat, s: State, startLine: string, hs: seq<Header>, boundary: string, parts: seq<FormPart>,
                   fragments: seq<string>, n: nat)
    requires Ready(s) && s.step == Ended && Uploadable(limit, startLine, hs, boundary, parts)
    requires Concat(fragments) == UploadText(startLine, hs, boundary, parts) && n <= |fragments|
    requires forall j :: 0 <= j < n ==> Length(fragments[..j]) < |UploadHead(startLine, hs, boundary, parts)|
    requires Length(fragments[..n]) <= |UploadHead(startLine, hs, boundary, parts)|
    ensures CutsAllowed(limit, s, fragments[..n])
  {
    hide Parse, PartsText, MessageText, HeadDone, Uploadable, MultipartHeaders, UploadText, UploadHead, Concat;
    var pieces := fragments[..n];
    forall i | 0 < i <= n ensures CutAllowed(Parse(limit, s, Concat(pieces[..i])), Concat(pieces[i..])) {
      assert pieces[..i] == fragments[..i];
      PrefixOfText(fragments, i);
      PartOfUpload(limit, s, startLine, hs, boundary, parts, Length(fragments[..i]));
      if i == n {
        assert pieces[i..] == [];
        ConcatNone();
      }
    }
  }

  lemma ReadsUpToHead(limit: nat, s: State, startLine: string, hs: seq<Header>, boundary: string, parts: seq<FormPart>,
                      fragments: seq<string>, n: nat)
    requires Ready(s) && s.step == Ended && Uploadable(limit, startLine, hs, boundary, parts)
    requires Concat(fragments) == UploadText(startLine, hs, boundary, parts) && 0 < n <= |fragments|
    requires forall j :: 0 <= j < n ==> Length(fragments[..j]) < |UploadHead(startLine, hs, boundary, parts)|
    requires Length(fragments[..n]) == |UploadHead(startLine, hs, boundary, parts)|
    ensures var r := Feed(limit, s, fragments[..n]); r.Ok? && r.state.finished && r.state.message.parts == []
  {
    hide Parse, Feed, PartsText, MessageText, HeadDone, Uploadable, MultipartHeaders, UploadText, UploadHead, Concat;
    HeadIsRead(limit, s, startLine, hs, boundary, parts);
    CutsInHead(limit, s, startLine, hs, boundary, parts, fragments, n);
    PrefixOfText(fragments, n);
    PartOfUpload(limit, s, startLine, hs, boundary, parts, Length(fragments[..n]));
    FragmentsDoNotMatter(limit, s, fragments[..n]);
    FinishKeepsParts(HeadDone(s, startLine, hs, boundary, parts));
  }

  lemma ReadBeyondHead(limit: nat, s: State, startLine: string, hs: seq<Header>, boundary: string, parts: seq<FormPart>,
                       fragments: seq<string>, n: nat)
    requires Ready(s) && s.step == Ended && Uploadable(limit, startLine, hs, boundary, parts)
    requires Concat(fragments) == UploadText(startLine, hs, boundary, parts) && 0 < n <= |fragments|
    requires forall j :: 0 <= j < n ==> Length(fragments[..j]) < |UploadHead(startLine, hs, boundary, parts)|
    requires Length(fragments[..n]) > |UploadHead(startLine, hs, boundary, parts)|
    ensures Feed(limit, s, fragments) == Hang
  {
    hide Parse, Feed, PartsText, MessageText, HeadDone, Uploadable, MultipartHeaders, UploadText, UploadHead, Concat,
         CutsAllowed;
    HeadIsRead(limit, s, startLine, hs, boundary, parts);
    var text, last := UploadText(startLine, hs, boundary, parts), fragments[n - 1];
    var head, h := UploadHead(startLine, hs, boundary, parts), HeadDone(s, startLine, hs, boundary, parts);
    var from := Length(fragments[..n - 1]);
    LastPiece(fragments, n);
    PrefixOfText(fragments, n);
    PrefixOfText(fragments, n - 1);
    PartOfUpload(limit, s, startLine, hs, boundary, parts, Length(fragments[..n]));
    PartOfUpload(limit, s, startLine, hs, boundary, parts, from);
    if n == 1 {
      assert fragments[..0] == [];
      ConcatNone();
      assert "" + last == last;
      FeedFirst(limit, s, fragments);
    } else {
      CutsInHead(limit, s, startLine, hs, boundary, parts, fragments, n - 1);
      FragmentsDoNotMatter(limit, s, fragments[..n - 1]);
      var t := Feed(limit, s, fragments[..n - 1]).state;
      TextBegins(startLine, hs, boundary, parts, from);
      SplitInHead(limit, s, head, h, from, last, t);
      FeedGoesOn(limit, s, fragments, n - 1);
      FeedFirst(limit, t, fragments[n - 1..]);
    }
  }

  lemma TextBegins(startLine: string, hs: seq<Header>, boundary: string, parts: seq<FormPart>, k: nat)
    requires k <= |UploadHead(startLine, hs, boundary, parts)|
    ensures k <= |UploadText(startLine, hs, boundary, parts)|
    ensures UploadHead(startLine, hs, boundary, parts)[..k] == UploadText(startLine, hs, boundary, parts)[..k]
  {
    hide MessageText, PartsText;
  }

  /**
   * Two uploads on one connection, the second any other: when the first has come to its end and the
   * parser has been prepared for the second, the second hangs, or loses all its parts.
   */
  lemma UploadAfterUpload(limit: nat, startLine: string, hs: seq<Header>, boundary: string, parts: seq<FormPart>,
                          fragments: seq<string>, startLine2: string, hs2: seq<Header>, boundary2: string,
                          parts2: seq<FormPart>, fragments2: seq<string>)
    requires Uploadable(limit, startLine, hs, boundary, parts) && AllSurvive(parts, boundary)
    requires Concat(fragments) == UploadText(startLine, hs, boundary, parts)
    requires Uploadable(limit, startLine2, hs2, boundary2, parts2)
    requires Concat(fragments2) == UploadText(startLine2, hs2, boundary2, parts2)
    ensures var done := Feed(limit, FRESH, fragments);
            && done.Ok? && done.state.message.parts == ServedAll(parts)
            && var r := Feed(limit, AfterInit(done.state), fragments2);
               if EndsAt(fragments2, |UploadHead(startLine2, hs2, boundary2, parts2)|)
               then r.Ok? && r.state.finished && r.state.message.parts == [] else r == Hang
  {
    hide Feed, Uploadable, AllSurvive, UploadText, UploadHead, Concat;
    UploadRoundTrip(limit, startLine, hs, boundary, parts, fragments);
    var s := AfterInit(Feed(limit, FRESH, fragments).state);
    SecondUpload(limit, s, startLine2, hs2, boundary2, parts2, fragments2);
  }
}
