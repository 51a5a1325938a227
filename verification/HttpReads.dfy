/**
 * Whole runs of the parser: any way of cutting a request into reads gives what a single read gives.
 */
module HttpReads {
  import opened Wrappers
  import opened HttpText
  import opened HttpMessage
  import opened HttpParsing
  import opened HttpFragments

  // ----- What every call keeps

  /** A parser that may be called again, whatever it has parsed before. */
  predicate Live(s: State) {
    !s.finished && Sizes(s)
  }

  /** One that has not seen a multipart body to its end. */
  predicate Steady(s: State) {
    Live(s) && s.step != Ended
  }

  predicate LiveOrFinished(r: Outcome) {
    r.Ok? && !r.state.finished ==> Live(r.state)
  }

  predicate SteadyOrFinished(r: Outcome) {
    r != Hang && (r.Ok? && !r.state.finished ==> Steady(r.state))
  }

  lemma {:induction false} HeaderLoopKeeps(limit: nat, s: State, rest: string)
    ensures match HeaderLoop(limit, s, rest)
            case Ok(t) =>
              && t.finished == s.finished && t.content == s.content && t.chunkSize == s.chunkSize
              && t.step == s.step && t.part == s.part
            case bad => bad == Fail
    decreases |rest|
  {
    hide LineOf, FindCRLF;
    var r := FindCRLF(rest, 0);
    if r.Some? && rest[..r.value] != "" {
      LineIsTotal(limit, s, rest[..r.value]);
      var next := LineOf(limit, s, rest[..r.value]);
      if next.Ok? {
        HeaderLoopKeeps(limit, next.state, rest[r.value + 2..]);
      }
    }
  }

  lemma {:induction false} ChunkLoopLive(s: State)
    requires Live(s) && Chunking(s)
    ensures LiveOrFinished(ChunkLoop(s)) && (Steady(s) ==> SteadyOrFinished(ChunkLoop(s)))
    decreases |s.pending|
  {
    hide ChunkLoop, ChunkSize, TakePartial, Finish;
    ChunkUnfold(s);
    ChunkSizeKeeps(s);
    if Sized(s).Some? {
      var t := Sized(s).value;
      SizedIs64Bits(s);
      if InChunk(t) {
        ChunkStep(t);
        InChunkLive(t);
      } else if t.chunkSize == 0 {
        FinishIsFinished(t);
      }
    }
  }

  lemma SizedIs64Bits(s: State)
    requires Sizes(s)
    ensures Sized(s).Some? ==> Sizes(Sized(s).value)
  {
    hide FindCRLF, SizeText, StoUl;
    var p := FindCRLF(s.pending, 0);
    if p.Some? {
      SizeIs64Bits(SizeText(s.pending[..p.value]));
    }
  }

  lemma FinishIsFinished(s: State)
    ensures Finish(s).finished
  {
  }

  lemma {:induction false} InChunkLive(t: State)
    requires Live(t) && InChunk(t)
    ensures LiveOrFinished(ChunkLoop(t)) && (Steady(t) ==> SteadyOrFinished(ChunkLoop(t)))
    decreases |t.pending|, 0
  {
    hide ChunkLoop;
    ChunkStep(t);
    if t.chunkSize + 2 <= |t.pending| {
      ChunkLoopLive(TakeChunk(t));
    }
  }

  lemma {:induction false} MultipartLoopLive(s: State)
    requires Steady(s)
    ensures SteadyOrFinished(MultipartLoop(s))
    decreases |s.pending|
  {
    hide MultipartLoop, PartHeaderLoop, NextBoundary, IsBoundary, FindCRLF, WithPart, Finish;
    if s.pending == "" {
      NothingPendingMultipart(s);
    } else if s.step == Start {
      AtStart(s);
      if FindCRLF(s.pending, 0).Some? {
        MultipartLoopLive(Move(s, s.pending[FindCRLF(s.pending, 0).value + 2..], BoundaryParsed));
      }
    } else if s.step == BoundaryParsed {
      AtHeaders(s);
      var r := PartHeaderLoop(s.pending, CurrentPart(s));
      if r.PartHeaded? {
        MultipartLoopLive(Move(s.(part := Some(r.part)), r.rest, HeadersParsed));
      }
    } else {
      DataLive(s);
    }
  }

  lemma NothingPendingMultipart(s: State)
    requires s.pending == "" && s.step != Ended
    ensures MultipartLoop(s) == Ok(s)
  {
  }

  lemma {:induction false} DataLive(s: State)
    requires Steady(s) && s.step == HeadersParsed && s.pending != ""
    ensures SteadyOrFinished(MultipartLoop(s))
    decreases |s.pending|, 0
  {
    hide MultipartLoop, NextBoundary;
    AtData(s);
    var r := NextBoundary(s.pending, 0, s.message.contentType.additional, false);
    if r.Found? && r.off > 2 {
      var t := WithPart(s, s.pending[..r.off - 2], s.pending[r.off + r.count + 2..], r.ended);
      if !r.ended {
        MultipartLoopLive(t);
      }
    }
  }

  lemma ContentLive(s: State, data: string)
    requires Live(s) && s.headerEnded
    ensures LiveOrFinished(Content(s, data)) && (Steady(s) ==> SteadyOrFinished(Content(s, data)))
  {
    hide ChunkLoop, MultipartLoop;
    if s.chunked {
      ChunkLoopLive(Extend(s, data));
    } else if s.message.contentType.multipart {
      if Steady(s) {
        MultipartLoopLive(Extend(s, data));
      } else {
        AfterTheEnd(Extend(s, data));
      }
    }
  }

  lemma AfterTheEnd(s: State)
    requires s.step == Ended
    ensures LiveOrFinished(MultipartLoop(s))
  {
  }

  /** A call leaves a live parser live or finished, and never hangs on one that has not seen a multipart body end. */
  lemma ParseLive(limit: nat, s: State, data: string)
    requires Live(s)
    ensures LiveOrFinished(Parse(limit, s, data)) && (Steady(s) ==> SteadyOrFinished(Parse(limit, s, data)))
  {
    hide HeaderLoop, Content;
    if s.headerEnded {
      ContentLive(s, data);
    } else {
      HeaderLoopKeeps(limit, Extend(s, data), s.pending + data);
      var r := HeaderLoop(limit, Extend(s, data), s.pending + data);
      if r.Ok? && r.state.headerEnded {
        ContentLive(r.state, "");
      }
    }
  }

  /** Behind the headers, a call never returns exactly if the multipart step has ended and there is data for it. */
  lemma ReuseHangs(s: State, data: string)
    requires s.headerEnded && !s.finished && Sizes(s)
    ensures Content(s, data) == Hang <==>
        !s.chunked && s.message.contentType.multipart && s.contentLengthParsed && s.contentLength != NPOS
            && s.step == Ended && s.pending + data != ""
  {
    hide ChunkLoop;
    if s.step != Ended {
      ContentLive(s, data);
    }
  }

  // ----- One call or two

  lemma ContentOfPending(t: State, b: string)
    requires match Content(t, "") case Ok(u) => !u.finished case _ => true
    ensures Content(Extend(t, b), "") == Content(t, b)
  {
    hide ChunkLoop, MultipartLoop;
    assert t.pending + b + "" == t.pending + b;
    assert t.content + (t.pending + b) + "" == t.content + t.pending + b;
  }

  /** Parsing `a` and then `b` is parsing `a + b`. */
  lemma ParseSplit(limit: nat, s: State, a: string, b: string)
    requires Live(s) && Parse(limit, s, a + b) != Throw
    requires match Parse(limit, s, a) case Ok(t) => !t.finished case Fail => true case _ => false
    ensures match Parse(limit, s, a)
            case Ok(t) => SameOutcome(Parse(limit, s, a + b), Parse(limit, t, b))
            case bad => Parse(limit, s, a + b) == bad
  {
    hide HeaderLoop, Content;
    ParseLive(limit, s, a);
    if s.headerEnded {
      ContentSplit(s, a, b);
      KindKept(s, a);
    } else {
      assert s.pending + (a + b) == s.pending + a + b;
      HeaderLoopIgnoresPending(limit, s, s.pending + a, s.pending + a);
      HeaderLoopIgnoresPending(limit, s, s.pending + (a + b), s.pending + (a + b));
      HeadersSplit(limit, s, s.pending + a, b);
      HeaderLoopKeeps(limit, s, s.pending + a);
      var r := HeaderLoop(limit, s, s.pending + a);
      if r.Ok? {
        if r.state.headerEnded {
          ContentLive(r.state, "");
          ContentOfPending(r.state, b);
          assert "" + b == b;
          ContentSplit(r.state, "", b);
          KindKept(r.state, "");
        } else {
          HeaderLoopIgnoresPending(limit, r.state, r.state.pending + b, r.state.pending + b);
        }
      }
    }
  }

  // ----- Any number of calls

  /** At no cut between two reads is the request complete with bytes still to come, and no call throws or hangs. */
  ghost predicate CutsAllowed(limit: nat, s: State, fragments: seq<string>) {
    forall i :: 0 < i <= |fragments| ==> CutAllowed(Parse(limit, s, Concat(fragments[..i])), Concat(fragments[i..]))
  }

  predicate CutAllowed(r: Outcome, rest: string) {
    r != Throw && r != Hang && (r.Ok? && r.state.finished ==> rest == "")
  }

  lemma CutsAfterFirst(limit: nat, s: State, fragments: seq<string>, t: State)
    requires Live(s) && fragments != [] && CutsAllowed(limit, s, fragments)
    requires Parse(limit, s, fragments[0]) == Ok(t) && !t.finished
    ensures CutsAllowed(limit, t, fragments[1..])
  {
    hide Parse, Concat;
    var rest := fragments[1..];
    forall i | 0 < i <= |rest| ensures CutAllowed(Parse(limit, t, Concat(rest[..i])), Concat(rest[i..])) {
      assert fragments[..i + 1] == [fragments[0]] + rest[..i] && fragments[i + 1..] == rest[i..];
      ConcatCons(fragments[0], rest[..i]);
      assert CutAllowed(Parse(limit, s, Concat(fragments[..i + 1])), Concat(fragments[i + 1..]));
      ParseSplit(limit, s, fragments[0], Concat(rest[..i]));
    }
  }

  lemma ConcatCons(first: string, rest: seq<string>)
    ensures Concat([first] + rest) == first + Concat(rest)
  {
    assert ([first] + rest)[1..] == rest;
  }

  lemma CutAt(limit: nat, s: State, fragments: seq<string>, i: nat)
    requires CutsAllowed(limit, s, fragments) && 0 < i <= |fragments|
    ensures CutAllowed(Parse(limit, s, Concat(fragments[..i])), Concat(fragments[i..]))
  {
  }

  /** However a request is cut into reads, the outcome is that of reading it at once. */
  lemma {:induction false} FragmentsDoNotMatter(limit: nat, s: State, fragments: seq<string>)
    requires Live(s) && fragments != [] && CutsAllowed(limit, s, fragments)
    ensures SameOutcome(Feed(limit, s, fragments), Parse(limit, s, Concat(fragments)))
    decreases |fragments|
  {
    hide Parse, Concat, CutsAllowed;
    var first, rest := fragments[0], fragments[1..];
    assert fragments == [first] + rest && fragments[..1] == [first] + [] && fragments[..|fragments|] == fragments;
    ConcatCons(first, rest);
    ConcatCons(first, []);
    ConcatNone();
    assert first + "" == first;
    CutAt(limit, s, fragments, 1);
    CutAt(limit, s, fragments, |fragments|);
    ParseLive(limit, s, first);
    var r := Parse(limit, s, first);
    if r.Ok? && !r.state.finished {
      ParseSplit(limit, s, first, Concat(rest));
      if rest != [] {
        CutsAfterFirst(limit, s, fragments, r.state);
        FragmentsDoNotMatter(limit, r.state, rest);
      }
    } else if r == Fail {
      ParseSplit(limit, s, first, Concat(rest));
    }
  }

  lemma ConcatNone()
    ensures Concat([]) == ""
  {
  }

  // ----- Requests that end where their text ends

  /** Everything short of the whole text is accepted and found incomplete. */
  ghost predicate NeverEarly(limit: nat, s: State, text: string) {
    forall k: nat :: k < |text| ==> Unfinished(Parse(limit, s, text[..k]))
  }

  predicate Unfinished(r: Outcome) {
    r.Ok? && !r.state.finished
  }

  /** The whole text is accepted and completes the request, and nothing less does. */
  ghost predicate Completes(limit: nat, s: State, text: string, end: State) {
    text != "" && Parse(limit, s, text) == Ok(end) && end.finished && !InChunk(end) && NeverEarly(limit, s, text)
  }

  lemma {:induction false} ConcatParts(fragments: seq<string>, i: nat)
    requires i <= |fragments|
    ensures Concat(fragments) == Concat(fragments[..i]) + Concat(fragments[i..])
  {
    ConcatAppend(fragments[..i], fragments[i..]);
    assert fragments == fragments[..i] + fragments[i..];
  }

  lemma EarlierIsUnfinished(limit: nat, s: State, text: string, k: nat)
    requires NeverEarly(limit, s, text) && k < |text|
    ensures Unfinished(Parse(limit, s, text[..k]))
  {
  }

  /** Such a request may arrive in any reads at all. */
  lemma AnyReadsComplete(limit: nat, s: State, fragments: seq<string>, end: State)
    requires Live(s) && Completes(limit, s, Concat(fragments), end)
    ensures Feed(limit, s, fragments) == Ok(end)
  {
    hide Parse;
    var text := Concat(fragments);
    forall i | 0 < i <= |fragments|
      ensures CutAllowed(Parse(limit, s, Concat(fragments[..i])), Concat(fragments[i..]))
    {
      ConcatParts(fragments, i);
      var k := |Concat(fragments[..i])|;
      assert text[..k] == Concat(fragments[..i]) && text[..|text|] == text;
      if k < |text| {
        EarlierIsUnfinished(limit, s, text, k);
      } else {
        assert Concat(fragments[i..]) == "";
      }
    }
    FragmentsDoNotMatter(limit, s, fragments);
  }

  lemma HeadersOfPrefix(limit: nat, s: State, p: string, q: string, h: State)
    requires Live(s) && !s.headerEnded && HeaderLoop(limit, s, s.pending + (p + q)) == Ok(h) && h.headerEnded
    ensures var r := HeaderLoop(limit, Extend(s, p), s.pending + p);
            && r.Ok? && Live(r.state) && r.state.content == s.content && r.state.step == s.step
            && (r.state.headerEnded ==> h == Extend(r.state, q))
  {
    hide HeaderLoop;
    assert s.pending + (p + q) == s.pending + p + q;
    HeaderLoopIgnoresPending(limit, s, s.pending + p, s.pending + p);
    HeadersSplit(limit, s, s.pending + p, q);
    HeaderLoopKeeps(limit, s, s.pending + p);
  }

  predicate FixedLength(h: State) {
    && h.headerEnded && !h.chunked && !h.message.contentType.multipart && h.contentLength <= NPOS
    && (h.contentLengthParsed ==> h.contentLength != NPOS)
  }

  /** A body of exactly Content-Length bytes, or none at all, completes its request. */
  lemma FixedCompletes(limit: nat, s: State, text: string, h: State)
    requires Live(s) && !s.headerEnded && s.content == "" && text != ""
    requires HeaderLoop(limit, s, s.pending + text) == Ok(h) && FixedLength(h)
    requires |h.pending| == (if h.contentLengthParsed then h.contentLength else 0)
    ensures Completes(limit, s, text, Finish(h.(content := h.pending, pending := "")))
  {
    hide HeaderLoop, Finish;
    HeaderLoopIgnoresPending(limit, s, s.pending + text, s.pending + text);
    HeaderLoopKeeps(limit, s, s.pending + text);
    assert "" + h.pending + "" == h.pending;
    FixedEnd(h);
    forall k: nat | k < |text| ensures Unfinished(Parse(limit, s, text[..k])) {
      var p, q := text[..k], text[k..];
      assert text == p + q;
      HeadersOfPrefix(limit, s, p, q, h);
    }
  }

  lemma FixedEnd(h: State)
    requires h.content == "" && FixedLength(h) && |h.pending| == (if h.contentLengthParsed then h.contentLength else 0)
    requires h.headerEnded && !h.chunked
    ensures var end := Finish(h.(content := h.pending, pending := ""));
            Content(h, "") == Ok(end) && end.finished && !InChunk(end)
  {
    assert "" + h.pending + "" == h.pending;
  }

  lemma {:induction false} MultipartEndExtends(s: State, more: string)
    requires Steady(s) && MultipartLoop(s).Ok? && MultipartLoop(s).state.finished
    ensures MultipartLoop(Extend(s, more)) == Ok(Extend(MultipartLoop(s).state, more))
    decreases |s.pending|, 1
  {
    if s.pending == "" {
      NothingPendingMultipart(s);
    } else if s.step == Start {
      StartEndExtends(s, more);
    } else if s.step == BoundaryParsed {
      HeadersEndExtends(s, more);
    } else {
      DataEndExtends(s, more);
    }
  }

  lemma {:induction false} StartEndExtends(s: State, more: string)
    requires Steady(s) && s.step == Start && s.pending != ""
    requires MultipartLoop(s).Ok? && MultipartLoop(s).state.finished
    ensures MultipartLoop(Extend(s, more)) == Ok(Extend(MultipartLoop(s).state, more))
    decreases |s.pending|, 0
  {
    hide MultipartLoop, IsBoundary, FindCRLF;
    AtStart(s);
    AtStart(Extend(s, more));
    FindCrlfExtends(s.pending, 0, more);
    var p := FindCRLF(s.pending, 0).value;
    assert (s.pending + more)[..p] == s.pending[..p] && (s.pending + more)[p + 2..] == s.pending[p + 2..] + more;
    MultipartEndExtends(Move(s, s.pending[p + 2..], BoundaryParsed), more);
  }

  lemma {:induction false} HeadersEndExtends(s: State, more: string)
    requires Steady(s) && s.step == BoundaryParsed && s.pending != ""
    requires MultipartLoop(s).Ok? && MultipartLoop(s).state.finished
    ensures MultipartLoop(Extend(s, more)) == Ok(Extend(MultipartLoop(s).state, more))
    decreases |s.pending|, 0
  {
    hide MultipartLoop, PartHeaderLoop;
    AtHeaders(s);
    AtHeaders(Extend(s, more));
    PartHeadersExtend(s.pending, CurrentPart(s), more);
    var r := PartHeaderLoop(s.pending, CurrentPart(s));
    MultipartEndExtends(Move(s.(part := Some(r.part)), r.rest, HeadersParsed), more);
  }

  lemma {:induction false} DataEndExtends(s: State, more: string)
    requires Steady(s) && s.step == HeadersParsed && s.pending != ""
    requires MultipartLoop(s).Ok? && MultipartLoop(s).state.finished
    ensures MultipartLoop(Extend(s, more)) == Ok(Extend(MultipartLoop(s).state, more))
    decreases |s.pending|, 0
  {
    hide MultipartLoop, NextBoundary, WithPart, Finish;
    AtData(s);
    AtData(Extend(s, more));
    var boundary := s.message.contentType.additional;
    var r := NextBoundary(s.pending, 0, boundary, false);
    BoundaryExtends(s.pending, 0, boundary, false, more);
    var data, rest := s.pending[..r.off - 2], s.pending[r.off + r.count + 2..];
    assert (s.pending + more)[..r.off - 2] == data && (s.pending + more)[r.off + r.count + 2..] == rest + more;
    WithPartExtends(s, data, rest, r.ended, more);
    if r.ended {
      FinishExtends(WithPart(s, data, rest, true), more);
    } else {
      WithPartLive(s, data, rest);
      MultipartEndExtends(WithPart(s, data, rest, false), more);
    }
  }

  lemma FinishExtends(s: State, more: string)
    ensures Finish(Extend(s, more)) == Extend(Finish(s), more)
  {
  }

  lemma WithPartLive(s: State, data: string, rest: string)
    requires Steady(s)
    ensures Steady(WithPart(s, data, rest, false))
  {
  }

  /** A multipart body that leaves nothing pending completes its request. */
  lemma MultipartCompletes(limit: nat, s: State, text: string, h: State, end: State)
    requires Steady(s) && !s.headerEnded && text != ""
    requires HeaderLoop(limit, s, s.pending + text) == Ok(h) && h.headerEnded && !h.chunked
             && h.message.contentType.multipart
    requires MultipartContent(h, "") == Ok(end) && end.finished && end.pending == ""
    ensures Completes(limit, s, text, end)
  {
    hide HeaderLoop, MultipartLoop;
    HeaderLoopIgnoresPending(limit, s, s.pending + text, s.pending + text);
    HeaderLoopKeeps(limit, s, s.pending + text);
    MultipartKeeps(Extend(h, ""));
    forall k: nat | k < |text| ensures Unfinished(Parse(limit, s, text[..k])) {
      var p, q := text[..k], text[k..];
      assert text == p + q;
      HeadersOfPrefix(limit, s, p, q, h);
      var r := HeaderLoop(limit, Extend(s, p), s.pending + p);
      if r.state.headerEnded {
        MultipartPrefix(r.state, q, end);
      }
    }
  }

  lemma MultipartPrefix(t: State, q: string, end: State)
    requires Steady(t) && q != "" && MultipartContent(Extend(t, q), "") == Ok(end) && end.pending == ""
    ensures Unfinished(MultipartContent(t, ""))
  {
    hide MultipartLoop;
    assert t.pending + "" == t.pending && t.pending + q + "" == t.pending + q;
    assert Extend(t, "") == t && Extend(Extend(t, q), "") == Extend(t, q);
    MultipartLoopLive(t);
    var r := MultipartLoop(t);
    if r.Ok? && r.state.finished {
      MultipartEndExtends(t, q);
    } else {
      MultipartSplit(t, q);
    }
  }

  // ----- Requests that may end early

  /** A run that has completed a request reads no further. */
  lemma {:induction false} FeedStops(limit: nat, s: State, fragments: seq<string>, i: nat)
    requires i <= |fragments|
    requires Feed(limit, s, fragments[..i]).Ok? && Feed(limit, s, fragments[..i]).state.finished
    ensures Feed(limit, s, fragments) == Feed(limit, s, fragments[..i])
    decreases i
  {
    hide Parse;
    if i > 0 && !s.finished {
      assert fragments[..i][0] == fragments[0] && fragments[..i][1..] == fragments[1..][..i - 1];
      if Parse(limit, s, fragments[0]).Ok? {
        FeedStops(limit, Parse(limit, s, fragments[0]).state, fragments[1..], i - 1);
      }
    }
  }

  /** A part of the text that completes the request says all there is to say about it. */
  predicate Stable(part: Outcome, whole: Outcome) {
    && part != Throw && part != Hang
    && (part.Ok? && part.state.finished ==> SameMessage(part, whole))
  }

  predicate SameMessage(a: Outcome, b: Outcome) {
    a.Ok? == b.Ok? && (a.Ok? ==> Agree(a.state, b.state))
  }

  predicate Agree(s: State, t: State) {
    s.message == t.message && s.finished == t.finished && s.step == t.step
  }

  ghost predicate EndIsStable(limit: nat, s: State, text: string) {
    forall k: nat :: k <= |text| ==> Stable(Parse(limit, s, text[..k]), Parse(limit, s, text))
  }

  /** Number of reads after which the request is complete; all of them if it never is. */
  lemma FirstEnd(limit: nat, s: State, fragments: seq<string>) returns (n: nat)
    requires fragments != []
    ensures 0 < n <= |fragments|
    ensures forall i :: 0 < i < n ==> var r := Parse(limit, s, Concat(fragments[..i])); !(r.Ok? && r.state.finished)
    ensures n < |fragments| ==> var r := Parse(limit, s, Concat(fragments[..n])); r.Ok? && r.state.finished
  {
    hide Parse, Concat;
    n := 1;
    while n < |fragments| && !IsEnd(Parse(limit, s, Concat(fragments[..n])))
      invariant 0 < n <= |fragments|
      invariant forall i :: 0 < i < n ==> !IsEnd(Parse(limit, s, Concat(fragments[..i])))
    {
      n := n + 1;
    }
  }

  predicate IsEnd(r: Outcome) {
    r.Ok? && r.state.finished
  }

  /** In any reads, such a request is accepted or refused, and understood, as in one. */
  lemma FeedAgrees(limit: nat, s: State, fragments: seq<string>)
    requires Live(s) && fragments != [] && EndIsStable(limit, s, Concat(fragments))
    ensures SameMessage(Feed(limit, s, fragments), Parse(limit, s, Concat(fragments)))
  {
    hide Parse, Feed, Concat;
    var n := FirstEnd(limit, s, fragments);
    var pieces := fragments[..n];
    forall i | 0 < i <= n ensures CutAllowed(Parse(limit, s, Concat(pieces[..i])), Concat(pieces[i..])) {
      assert pieces[..i] == fragments[..i];
      StableAt(limit, s, fragments, i);
      if i == n {
        assert pieces[i..] == [];
        ConcatNone();
      }
    }
    FragmentsDoNotMatter(limit, s, pieces);
    StableAt(limit, s, fragments, n);
    if n < |fragments| {
      FeedStops(limit, s, fragments, n);
    } else {
      assert pieces == fragments;
    }
  }

  lemma StableAt(limit: nat, s: State, fragments: seq<string>, i: nat)
    requires EndIsStable(limit, s, Concat(fragments)) && i <= |fragments|
    ensures Stable(Parse(limit, s, Concat(fragments[..i])), Parse(limit, s, Concat(fragments)))
  {
    hide Parse;
    ConcatParts(fragments, i);
    var k := |Concat(fragments[..i])|;
    assert Concat(fragments)[..k] == Concat(fragments[..i]);
  }

  /** Multipart requests are of this kind. */
  lemma MultipartIsStable(limit: nat, s: State, text: string, h: State)
    requires Steady(s) && !s.headerEnded
    requires HeaderLoop(limit, s, s.pending + text) == Ok(h) && h.headerEnded && !h.chunked
             && h.message.contentType.multipart
    ensures EndIsStable(limit, s, text)
  {
    hide HeaderLoop, MultipartLoop;
    HeaderLoopIgnoresPending(limit, s, s.pending + text, s.pending + text);
    forall k: nat | k <= |text| ensures Stable(Parse(limit, s, text[..k]), Parse(limit, s, text)) {
      var p, q := text[..k], text[k..];
      assert text == p + q;
      HeadersOfPrefix(limit, s, p, q, h);
      var r := HeaderLoop(limit, Extend(s, p), s.pending + p);
      if r.state.headerEnded {
        MultipartStable(r.state, q);
      }
    }
  }

  lemma MultipartStable(t: State, q: string)
    requires Steady(t)
    ensures Stable(MultipartContent(t, ""), MultipartContent(Extend(t, q), ""))
  {
    hide MultipartLoop;
    assert t.pending + "" == t.pending && t.pending + q + "" == t.pending + q;
    assert Extend(t, "") == t && Extend(Extend(t, q), "") == Extend(t, q);
    MultipartLoopLive(t);
    var r := MultipartLoop(t);
    if r.Ok? && r.state.finished {
      MultipartEndExtends(t, q);
    }
  }

  // ----- The head of a request

  /** The head leaves a parser that has read the headers and nothing else. */
  ghost predicate HeadEnds(limit: nat, s: State, head: string, h: State) {
    && Live(s) && !s.headerEnded && HeaderLoop(limit, s, s.pending + head) == Ok(h)
    && h.headerEnded && h.pending == ""
  }

  lemma HeadThenContent(limit: nat, s: State, head: string, h: State, body: string)
    requires HeadEnds(limit, s, head, h)
    ensures Parse(limit, s, head + body) == Content(h.(pending := body), "")
  {
    hide HeaderLoop, Content;
    assert s.pending + (head + body) == s.pending + head + body;
    HeadersSplit(limit, s, s.pending + head, body);
    HeaderLoopIgnoresPending(limit, s, s.pending + (head + body), s.pending + (head + body));
    assert "" + body == body;
  }

  lemma PartOfHead(limit: nat, s: State, head: string, h: State, k: nat)
    requires HeadEnds(limit, s, head, h) && k < |head|
    ensures Unfinished(Parse(limit, s, head[..k]))
  {
    hide HeaderLoop;
    var p, q := head[..k], head[k..];
    assert head == p + q;
    HeadersOfPrefix(limit, s, p, q, h);
  }

  lemma SplitInHead(limit: nat, s: State, head: string, h: State, from: nat, more: string, t: State)
    requires HeadEnds(limit, s, head, h) && from < |head| && SameOutcome(Ok(t), Parse(limit, s, head[..from]))
    ensures Parse(limit, t, more) == Parse(limit, s, head[..from] + more)
  {
    hide HeaderLoop, Content;
    var p, q := head[..from], head[from..];
    assert head == p + q && s.pending + (p + more) == s.pending + p + more;
    HeadersOfPrefix(limit, s, p, q, h);
    var r := HeaderLoop(limit, Extend(s, p), s.pending + p);
    assert t == r.state;
    HeaderLoopIgnoresPending(limit, s, s.pending + p, s.pending + p);
    HeaderLoopIgnoresPending(limit, s, s.pending + (p + more), s.pending + (p + more));
    HeadersSplit(limit, s, s.pending + p, more);
    HeaderLoopIgnoresPending(limit, t, t.pending + more, t.pending + more);
  }

  // ----- Reads by length

  function Length(fragments: seq<string>): nat {
    |Concat(fragments)|
  }

  /** The number of reads that cover `n` bytes. */
  lemma {:induction false} ReadsCovering(fragments: seq<string>, n: nat) returns (i: nat)
    requires 0 < n <= Length(fragments)
    ensures 0 < i <= |fragments| && Length(fragments[..i]) >= n
    ensures forall j :: 0 <= j < i ==> Length(fragments[..j]) < n
  {
    i := |fragments|;
    assert fragments[..i] == fragments && fragments[..0] == [];
    var j := 0;
    while Length(fragments[..j]) < n
      invariant j <= |fragments|
      invariant forall m :: 0 <= m < j ==> Length(fragments[..m]) < n
      decreases |fragments| - j
    {
      j := j + 1;
    }
    i := j;
  }

  lemma PrefixOfText(fragments: seq<string>, i: nat)
    requires i <= |fragments|
    ensures Length(fragments[..i]) <= Length(fragments)
    ensures Concat(fragments)[..Length(fragments[..i])] == Concat(fragments[..i])
  {
    ConcatParts(fragments, i);
  }

  lemma FeedFirst(limit: nat, s: State, fragments: seq<string>)
    requires fragments != [] && !s.finished && !Parse(limit, s, fragments[0]).Ok?
    ensures Feed(limit, s, fragments) == Parse(limit, s, fragments[0])
  {
    hide Parse;
  }

  lemma {:induction false} FeedGoesOn(limit: nat, s: State, fragments: seq<string>, i: nat)
    requires i <= |fragments|
    requires Unfinished(Feed(limit, s, fragments[..i]))
    ensures Feed(limit, s, fragments) == Feed(limit, Feed(limit, s, fragments[..i]).state, fragments[i..])
    decreases i
  {
    hide Parse;
    if i == 0 {
      assert fragments[0..] == fragments;
    } else if !s.finished {
      assert fragments[..i][0] == fragments[0] && fragments[..i][1..] == fragments[1..][..i - 1];
      assert fragments[1..][i - 1..] == fragments[i..];
      FeedGoesOn(limit, Parse(limit, s, fragments[0]).state, fragments[1..], i - 1);
    }
  }

  lemma LastPiece(fragments: seq<string>, i: nat)
    requires 0 < i <= |fragments|
    ensures Concat(fragments[..i]) == Concat(fragments[..i - 1]) + fragments[i - 1]
  {
    assert fragments[..i] == fragments[..i - 1] + [fragments[i - 1]];
    ConcatAppend(fragments[..i - 1], [fragments[i - 1]]);
    assert Concat([fragments[i - 1]]) == fragments[i - 1] + "";
  }
}
