/**
 * Fragmentation: what the parser makes of some bytes does not depend on the reads they arrive in.
 */
module HttpFragments {
  import opened Wrappers
  import opened HttpText
  import opened HttpMessage
  import opened HttpParsing

  // ----- Headers

  lemma LineIgnoresPending(limit: nat, s: State, rest: string, line: string)
    ensures LineOf(limit, s.(pending := rest), line)
         == match LineOf(limit, s, line) case Ok(t) => Ok(t.(pending := rest)) case bad => bad
  {
    hide StoUl, ParseContentType, SetHeader, Split2, IEquals, SplitBlanks;
  }

  lemma LineIsTotal(limit: nat, s: State, line: string)
    ensures match LineOf(limit, s, line)
            case Ok(t) => t == t.(pending := s.pending) && !t.headerEnded == !s.headerEnded && t.finished == s.finished
            case bad => bad == Fail
    ensures LineOf(limit, s, line).Ok? ==>
              var t := LineOf(limit, s, line).state;
              t.content == s.content && t.chunkSize == s.chunkSize && t.step == s.step && t.part == s.part
  {
    hide StoUl, ParseContentType, SetHeader, Split2, IEquals, SplitBlanks;
  }

  lemma {:induction false} HeaderLoopIgnoresPending(limit: nat, s: State, p: string, rest: string)
    ensures HeaderLoop(limit, s.(pending := p), rest) == HeaderLoop(limit, s, rest)
    decreases |rest|
  {
    hide LineOf;
    match FindCRLF(rest, 0)
    case None =>
    case Some(q) =>
      if rest[..q] != "" {
        LineIgnoresPending(limit, s, p, rest[..q]);
        LineIsTotal(limit, s, rest[..q]);
        match LineOf(limit, s, rest[..q])
        case Ok(t) => HeaderLoopIgnoresPending(limit, t, p, rest[q + 2..]);
        case _ =>
      }
  }

  /** The header loop, stopped by a lack of data, goes on where it stopped. */
  lemma {:induction false} HeadersSplit(limit: nat, s: State, rest: string, more: string)
    requires !s.headerEnded
    ensures HeaderLoop(limit, s, rest + more)
         == match HeaderLoop(limit, s, rest)
            case Ok(t) =>
              if t.headerEnded then Ok(t.(pending := t.pending + more)) else HeaderLoop(limit, t, t.pending + more)
            case bad => bad
    decreases |rest|
  {
    hide LineOf;
    match FindCRLF(rest, 0)
    case None =>
      HeaderLoopIgnoresPending(limit, s, rest, rest + more);
    case Some(q) =>
      FindCrlfExtends(rest, 0, more);
      assert (rest + more)[..q] == rest[..q] && (rest + more)[q + 2..] == rest[q + 2..] + more;
      if rest[..q] != "" {
        LineIsTotal(limit, s, rest[..q]);
        match LineOf(limit, s, rest[..q])
        case Ok(t) => HeadersSplit(limit, t, rest[q + 2..], more);
        case _ =>
      }
  }

  // ----- Chunked content

  /** Reading a chunked body. */
  predicate Chunking(s: State) {
    s.headerEnded && s.chunked
  }

  /** In the middle of a chunk: its size is known and not used up. */
  predicate InChunk(s: State) {
    Chunking(s) && 0 < s.chunkSize < NPOS - 1
  }

  /** States that differ at most in how much of the current chunk has been moved out of the pending data. */
  ghost predicate SameChunk(s: State, t: State) {
    && t == s.(content := t.content, pending := t.pending, chunkSize := t.chunkSize)
    && (s == t
        || (&& InChunk(s) && InChunk(t)
            && s.content + s.pending == t.content + t.pending
            && |s.content| + s.chunkSize == |t.content| + t.chunkSize))
  }

  ghost predicate SameOutcome(a: Outcome, b: Outcome) {
    a == b || (a.Ok? && b.Ok? && SameChunk(a.state, b.state))
  }

  lemma ChunkStep(s: State)
    requires InChunk(s)
    ensures s.chunkSize + 2 <= |s.pending| ==> ChunkLoop(s) == ChunkLoop(TakeChunk(s))
    ensures |s.pending| < s.chunkSize ==> ChunkLoop(s) == Ok(TakePartial(s))
    ensures s.chunkSize <= |s.pending| < s.chunkSize + 2 ==> ChunkLoop(s) == Ok(s)
  {
    hide ChunkSize, TakeChunk, TakePartial;
  }

  lemma SplitsAgree(s: State, t: State)
    requires SameChunk(s, t) && InChunk(s) && InChunk(t)
    ensures s.chunkSize + 2 <= |s.pending| ==> t.chunkSize + 2 <= |t.pending| && TakeChunk(s) == TakeChunk(t)
    ensures |s.pending| < s.chunkSize ==> |t.pending| < t.chunkSize && TakePartial(s) == TakePartial(t)
    ensures s.chunkSize - |s.pending| == t.chunkSize - |t.pending|
  {
    var whole := s.content + s.pending;
    assert |whole| == |t.content| + |t.pending|;
    if s.chunkSize + 2 <= |s.pending| {
      var k := |s.content| + s.chunkSize;
      assert s.content + s.pending[..s.chunkSize] == whole[..k] == t.content + t.pending[..t.chunkSize];
      assert s.pending[s.chunkSize + 2..] == whole[k + 2..] == t.pending[t.chunkSize + 2..];
    }
  }

  lemma ChunkLoopSame(s: State, t: State)
    requires SameChunk(s, t)
    ensures SameOutcome(ChunkLoop(s), ChunkLoop(t))
  {
    hide ChunkLoop, TakeChunk, TakePartial;
    if s != t {
      SplitsAgree(s, t);
      ChunkStep(s);
      ChunkStep(t);
    }
  }

  lemma SameChunkExtends(s: State, t: State, more: string)
    requires SameChunk(s, t)
    ensures SameChunk(s.(pending := s.pending + more), t.(pending := t.pending + more))
  {
    assert s.content + (s.pending + more) == s.content + s.pending + more;
    assert t.content + (t.pending + more) == t.content + t.pending + more;
  }

  function Extend(s: State, more: string): State {
    s.(pending := s.pending + more)
  }

  lemma ChunkSizeExtends(s: State, more: string)
    requires FindCRLF(s.pending, 0).Some?
    ensures match ChunkSize(s)
            case Some(t) => ChunkSize(Extend(s, more)) == Some(Extend(t, more))
            case None => ChunkSize(Extend(s, more)) == None
  {
    hide StoUl, SizeText;
    FindCrlfExtends(s.pending, 0, more);
    var p := FindCRLF(s.pending, 0).value;
    assert (s.pending + more)[..p] == s.pending[..p] && (s.pending + more)[p + 2..] == s.pending[p + 2..] + more;
  }

  lemma TakeChunkExtends(s: State, more: string)
    requires s.chunkSize + 2 <= |s.pending|
    ensures TakeChunk(Extend(s, more)) == Extend(TakeChunk(s), more)
  {
    assert (s.pending + more)[..s.chunkSize] == s.pending[..s.chunkSize];
    assert (s.pending + more)[s.chunkSize + 2..] == s.pending[s.chunkSize + 2..] + more;
  }

  lemma PartialIsSame(s: State, more: string)
    requires InChunk(s) && |s.pending| < s.chunkSize
    ensures SameChunk(Extend(s, more), Extend(TakePartial(s), more))
  {
    assert s.content + (s.pending + more) == s.content + s.pending + ("" + more);
  }

  /** The state after the size line, or the state itself inside a chunk. */
  function Sized(s: State): Option<State> {
    if s.chunkSize == NPOS then ChunkSize(s) else Some(s)
  }

  lemma ChunkUnfold(s: State)
    requires Chunking(s)
    ensures Sized(s) == None ==> ChunkLoop(s) == Fail
    ensures Sized(s).Some? && Sized(s).value.chunkSize == 0 ==> ChunkLoop(s) == Ok(Finish(Sized(s).value))
    ensures Sized(s).Some? && InChunk(Sized(s).value) ==> ChunkLoop(s) == ChunkLoop(Sized(s).value)
    ensures Sized(s).Some? && NPOS - 1 <= Sized(s).value.chunkSize <= NPOS && ChunkLoop(s) != Throw ==>
              var t := Sized(s).value; t.pending == "" && t.chunkSize == NPOS && ChunkLoop(s) == Ok(t)
    ensures (Sized(s).Some? && NPOS - 1 <= Sized(s).value.chunkSize <= NPOS && Sized(s).value.pending != "") ==>
              ChunkLoop(s) == Throw
  {
    hide ChunkSize, Finish, TakeChunk;
    if Sized(s).Some? {
      assert Sized(s).value.content + "" == Sized(s).value.content;
    }
  }

  /** Reading on after a call that left the body unfinished is the same as having read all at once. */
  lemma {:induction false} ChunkSplit(s: State, more: string)
    requires Chunking(s) && s.chunkSize <= NPOS && ChunkLoop(Extend(s, more)) != Throw
    requires match ChunkLoop(s) case Ok(t) => !t.finished case Fail => true case _ => false
    ensures match ChunkLoop(s)
            case Ok(t) => SameOutcome(ChunkLoop(Extend(s, more)), ChunkLoop(Extend(t, more)))
            case bad => ChunkLoop(Extend(s, more)) == bad
    decreases |s.pending|, s.chunkSize
  {
    hide ChunkLoop, ChunkSize, TakeChunk, TakePartial;
    ChunkUnfold(s);
    ChunkUnfold(Extend(s, more));
    if s.chunkSize == NPOS {
      if FindCRLF(s.pending, 0).Some? {
        ChunkSizeExtends(s, more);
        SizedSplit(s, more);
      } else {
        NoSizeLine(s);
      }
    } else if s.chunkSize == 0 || s.chunkSize == NPOS - 1 {
    } else {
      InChunkSplit(s, more);
    }
  }

  lemma NoSizeLine(s: State)
    requires s.chunkSize == NPOS && FindCRLF(s.pending, 0).None?
    ensures Sized(s) == Some(s)
  {
  }

  lemma NothingAdded(s: State, more: string)
    ensures more == "" ==> Extend(s, more) == s
    ensures more != "" ==> Extend(s, more).pending != ""
  {
    assert s.pending + "" == s.pending;
  }

  lemma NothingPending(s: State)
    requires s.chunkSize == NPOS && s.pending == ""
    ensures ChunkLoop(s) == Ok(s)
  {
    assert s.content + "" == s.content;
  }

  lemma {:induction false} SizedSplit(s: State, more: string)
    requires Chunking(s) && s.chunkSize == NPOS && FindCRLF(s.pending, 0).Some?
    requires ChunkLoop(Extend(s, more)) != Throw
    requires match ChunkLoop(s) case Ok(t) => !t.finished case Fail => true case _ => false
    ensures match ChunkLoop(s)
            case Ok(t) => SameOutcome(ChunkLoop(Extend(s, more)), ChunkLoop(Extend(t, more)))
            case bad => ChunkLoop(Extend(s, more)) == bad
    decreases |s.pending|, s.chunkSize, 0
  {
    hide ChunkLoop, TakeChunk, TakePartial, StoUl, FindCRLF;
    ChunkUnfold(s);
    ChunkUnfold(Extend(s, more));
    ChunkSizeExtends(s, more);
    match ChunkSize(s)
    case None =>
    case Some(t) =>
      SizeIs64Bits(SizeText(s.pending[..FindCRLF(s.pending, 0).value]));
      if InChunk(t) {
        InChunkSplit(t, more);
      } else if t.chunkSize != 0 {
        // the size line itself says "no length": only nothing may follow it
        assert t.pending == "" && "" + more == more;
        NothingAdded(s, more);
        NothingAdded(t, more);
        NoSizeLine(t);
        NothingPending(t);
      }
  }

  lemma SizeIs64Bits(line: string)
    ensures match StoUl(line, 16) case Some(n) => n <= NPOS case None => true
  {
  }

  lemma {:induction false} InChunkSplit(s: State, more: string)
    requires InChunk(s) && ChunkLoop(Extend(s, more)) != Throw
    requires match ChunkLoop(s) case Ok(t) => !t.finished case Fail => true case _ => false
    ensures match ChunkLoop(s)
            case Ok(t) => SameOutcome(ChunkLoop(Extend(s, more)), ChunkLoop(Extend(t, more)))
            case bad => ChunkLoop(Extend(s, more)) == bad
    decreases |s.pending|, 0, 0
  {
    hide ChunkLoop, ChunkSize, Finish, TakePartial;
    ChunkStep(s);
    ChunkStep(Extend(s, more));
    if s.chunkSize + 2 <= |s.pending| {
      TakeChunkExtends(s, more);
      ChunkSplit(TakeChunk(s), more);
    } else if |s.pending| < s.chunkSize {
      PartialIsSame(s, more);
      ChunkLoopSame(Extend(s, more), Extend(TakePartial(s), more));
    }
  }

  // ----- Multipart content

  /** A header line sets both names or nothing, so that reading it again for a later part makes no difference. */
  lemma PartHeaderAgain(line: string, part: Part, later: Part)
    requires PartHeader(line, part).Some?
    ensures PartHeader(line, part).value.data == part.data
    ensures later.data == part.data ==>
             PartHeader(line, later) == Some(later) || PartHeader(line, later) == PartHeader(line, part)
  {
    hide Split2, IEquals, ParseDisposition;
  }

  lemma {:induction false} PartHeadersExtend(rest: string, part: Part, more: string)
    ensures match PartHeaderLoop(rest, part)
            case NeedMore(p) => p.data == part.data
                && PartHeaderLoop(rest + more, part) == PartHeaderLoop(rest + more, p)
            case BadHeaders => PartHeaderLoop(rest + more, part) == BadHeaders
            case PartHeaded(p, after) => PartHeaderLoop(rest + more, part) == PartHeaded(p, after + more)
    decreases |rest|
  {
    hide PartHeader;
    match FindCRLF(rest, 0)
    case None =>
    case Some(q) =>
      FindCrlfExtends(rest, 0, more);
      var line, after := rest[..q], rest[q + 2..];
      assert (rest + more)[..q] == line && (rest + more)[q + 2..] == after + more;
      if line != "" && PartHeader(line, part).Some? {
        var next := PartHeader(line, part).value;
        PartHeadersExtend(after, next, more);
        var r := PartHeaderLoop(after, next);
        PartHeaderAgain(line, part, if r.NeedMore? then r.part else part);
      }
  }

  lemma {:induction false} BoundaryExtends(pending: string, off: nat, boundary: string, ended: bool, more: string)
    requires off <= |pending| && NextBoundary(pending, off, boundary, ended).Found?
    ensures NextBoundary(pending + more, off, boundary, ended) == NextBoundary(pending, off, boundary, ended)
    decreases |pending| - off
  {
    hide IsBoundary, MarksEnd, FindCRLF;
    FindCrlfExtends(pending, off, more);
    var pos := FindCRLF(pending, off).value;
    var line := pending[off..pos];
    assert (pending + more)[off..pos] == line;
    if line == "" {
      BoundaryExtends(pending, pos + 2, boundary, ended, more);
    } else if !IsBoundary(line, boundary) {
      BoundaryExtends(pending, pos + 2, boundary, ended || MarksEnd(line, boundary), more);
    }
  }

  lemma {:induction false} MultipartSplit(s: State, more: string)
    requires match MultipartLoop(s) case Ok(t) => !t.finished case Fail => true case _ => false
    ensures match MultipartLoop(s)
            case Ok(t) => MultipartLoop(Extend(s, more)) == MultipartLoop(Extend(t, more))
            case bad => MultipartLoop(Extend(s, more)) == bad
    decreases |s.pending|, 1
  {
    if s.pending == "" {
    } else if s.step == Start {
      StartSplit(s, more);
    } else if s.step == BoundaryParsed {
      HeadersSplitPart(s, more);
    } else {
      DataSplit(s, more);
    }
  }

  lemma {:induction false} StartSplit(s: State, more: string)
    requires s.step == Start && s.pending != ""
    requires match MultipartLoop(s) case Ok(t) => !t.finished case Fail => true case _ => false
    ensures match MultipartLoop(s)
            case Ok(t) => MultipartLoop(Extend(s, more)) == MultipartLoop(Extend(t, more))
            case bad => MultipartLoop(Extend(s, more)) == bad
    decreases |s.pending|, 0
  {
    hide MultipartLoop, IsBoundary, FindCRLF;
    AtStart(s);
    AtStart(Extend(s, more));
    if FindCRLF(s.pending, 0).Some? {
      FindCrlfExtends(s.pending, 0, more);
      var p := FindCRLF(s.pending, 0).value;
      assert (s.pending + more)[..p] == s.pending[..p] && (s.pending + more)[p + 2..] == s.pending[p + 2..] + more;
      if IsBoundary(s.pending[..p], s.message.contentType.additional) {
        MultipartSplit(Move(s, s.pending[p + 2..], BoundaryParsed), more);
      }
    }
  }

  lemma {:induction false} HeadersSplitPart(s: State, more: string)
    requires s.step == BoundaryParsed && s.pending != ""
    requires match MultipartLoop(s) case Ok(t) => !t.finished case Fail => true case _ => false
    ensures match MultipartLoop(s)
            case Ok(t) => MultipartLoop(Extend(s, more)) == MultipartLoop(Extend(t, more))
            case bad => MultipartLoop(Extend(s, more)) == bad
    decreases |s.pending|, 0
  {
    hide MultipartLoop, PartHeaderLoop;
    AtHeaders(s);
    AtHeaders(Extend(s, more));
    PartHeadersExtend(s.pending, CurrentPart(s), more);
    match PartHeaderLoop(s.pending, CurrentPart(s))
    case NeedMore(part) => AtHeaders(Extend(s.(part := Some(part)), more));
    case BadHeaders =>
    case PartHeaded(part, rest) => MultipartSplit(Move(s.(part := Some(part)), rest, HeadersParsed), more);
  }

  lemma WithPartExtends(s: State, data: string, rest: string, ended: bool, more: string)
    ensures WithPart(Extend(s, more), data, rest + more, ended) == Extend(WithPart(s, data, rest, ended), more)
    ensures WithPart(s, data, rest, ended).pending == rest
  {
  }

  lemma {:induction false} DataSplit(s: State, more: string)
    requires s.step == HeadersParsed && s.pending != ""
    requires match MultipartLoop(s) case Ok(t) => !t.finished case Fail => true case _ => false
    ensures match MultipartLoop(s)
            case Ok(t) => MultipartLoop(Extend(s, more)) == MultipartLoop(Extend(t, more))
            case bad => MultipartLoop(Extend(s, more)) == bad
    decreases |s.pending|, 0
  {
    hide MultipartLoop, NextBoundary, WithPart;
    AtData(s);
    AtData(Extend(s, more));
    var boundary := s.message.contentType.additional;
    match NextBoundary(s.pending, 0, boundary, false)
    case NotFound =>
    case Found(off, count, ended) =>
      BoundaryExtends(s.pending, 0, boundary, false, more);
      if off > 2 {
        assert (s.pending + more)[..off - 2] == s.pending[..off - 2];
        assert (s.pending + more)[off + count + 2..] == s.pending[off + count + 2..] + more;
        WithPartExtends(s, s.pending[..off - 2], s.pending[off + count + 2..], ended, more);
        if !ended {
          MultipartSplit(WithPart(s, s.pending[..off - 2], s.pending[off + count + 2..], ended), more);
        }
      }
  }

  // ----- All kinds of content

  lemma FixedSplit(s: State, a: string, b: string)
    requires match FixedContent(s, a) case Ok(t) => !t.finished case _ => true
    ensures match FixedContent(s, a)
            case Ok(t) => FixedContent(s, a + b) == FixedContent(t, b)
            case bad => FixedContent(s, a + b) == bad
    ensures s.contentLengthParsed ==> FixedContent(Extend(s, a), b) == FixedContent(s, a + b)
  {
    if s.contentLengthParsed {
      assert s.content + s.pending + (a + b) == s.content + s.pending + a + "" + b;
      assert s.content + (s.pending + a) + b == s.content + s.pending + (a + b);
    }
  }

  /** What every reachable state satisfies: sizes are 64-bit numbers. */
  predicate Sizes(s: State) {
    s.chunkSize <= NPOS
  }

  lemma ContentSplit(s: State, a: string, b: string)
    requires s.headerEnded && Sizes(s) && Content(s, a + b) != Throw
    requires match Content(s, a) case Ok(t) => !t.finished case Fail => true case _ => false
    ensures match Content(s, a)
            case Ok(t) => SameOutcome(Content(s, a + b), Content(t, b))
            case bad => Content(s, a + b) == bad
  {
    hide ChunkLoop, MultipartLoop, FixedContent;
    assert s.pending + (a + b) == s.pending + a + b;
    var t := Extend(s, a);
    assert Extend(t, b) == s.(pending := s.pending + (a + b));
    KindKept(s, a);
    if s.chunked {
      ChunkSplit(t, b);
    } else if s.message.contentType.multipart {
      if MultipartContent(s, a) != Fail || (s.contentLengthParsed && s.contentLength != NPOS) {
        MultipartSplit(t, b);
      }
    } else {
      FixedSplit(s, a, b);
    }
  }

  /** While the body is unfinished, the way it is delimited stays the same. */
  lemma KindKept(s: State, a: string)
    ensures match Content(s, a)
            case Ok(t) =>
              && t.chunked == s.chunked && t.headerEnded == s.headerEnded
                 && t.message.contentType == s.message.contentType
              && t.contentLengthParsed == s.contentLengthParsed && t.contentLength == s.contentLength
            case _ => true
  {
    hide ChunkLoop, MultipartLoop;
    if s.chunked {
      ChunkKeeps(Extend(s, a));
    } else if s.message.contentType.multipart {
      MultipartKeeps(Extend(s, a));
    }
  }

  predicate Keeps(s: State, r: Outcome) {
    match r
    case Ok(t) =>
      && t.chunked == s.chunked && t.headerEnded == s.headerEnded && t.message.contentType == s.message.contentType
      && t.contentLengthParsed == s.contentLengthParsed && t.contentLength == s.contentLength
    case _ => true
  }

  lemma {:induction false} ChunkKeeps(s: State)
    ensures Keeps(s, ChunkLoop(s))
    decreases |s.pending|
  {
    hide ChunkSize, Add64, TakeChunk, TakePartial, Finish;
    ChunkSizeKeeps(s);
    if Sized(s).Some? {
      var t := Sized(s).value;
      if t.chunkSize != 0 && Add64(t.chunkSize, 2) <= |t.pending| && t.chunkSize < NPOS - 1 {
        TakesKeep(t);
        ChunkKeeps(TakeChunk(t));
      } else {
        TakesKeep(t);
      }
    }
  }

  lemma TakesKeep(t: State)
    ensures t.chunkSize < NPOS - 1 && Add64(t.chunkSize, 2) <= |t.pending| ==>
              t.chunkSize + 2 <= |t.pending| && Keeps(t, Ok(TakeChunk(t))) && |TakeChunk(t).pending| < |t.pending|
    ensures |t.pending| < t.chunkSize ==> Keeps(t, Ok(TakePartial(t)))
    ensures Keeps(t, Ok(Finish(t)))
  {
  }

  lemma ChunkSizeKeeps(s: State)
    ensures match ChunkSize(s)
            case Some(t) => t == s.(pending := t.pending, chunkSize := t.chunkSize) && |t.pending| <= |s.pending|
            case None => true
  {
    hide StoUl, SizeText, FindCRLF;
  }

  lemma {:induction false} MultipartKeeps(s: State)
    ensures Keeps(s, MultipartLoop(s))
    decreases |s.pending|
  {
    hide PartHeaderLoop, NextBoundary, IsBoundary, FindCRLF, MultipartLoop, WithPart;
    if s.pending == "" || s.step == Ended {
      MultipartStops(s);
    } else if s.step == Start {
      AtStart(s);
      if FindCRLF(s.pending, 0).Some? {
        MultipartKeeps(Move(s, s.pending[FindCRLF(s.pending, 0).value + 2..], BoundaryParsed));
      }
    } else if s.step == BoundaryParsed {
      AtHeaders(s);
      var r := PartHeaderLoop(s.pending, CurrentPart(s));
      if r.PartHeaded? {
        MultipartKeeps(Move(s.(part := Some(r.part)), r.rest, HeadersParsed));
      }
    } else {
      DataKeeps(s);
    }
  }

  lemma {:induction false} DataKeeps(s: State)
    requires s.step == HeadersParsed && s.pending != ""
    ensures Keeps(s, MultipartLoop(s))
    decreases |s.pending|, 0
  {
    hide NextBoundary, MultipartLoop, WithPart;
    AtData(s);
    var r := NextBoundary(s.pending, 0, s.message.contentType.additional, false);
    if r.Found? && r.off > 2 {
      var data, rest := s.pending[..r.off - 2], s.pending[r.off + r.count + 2..];
      WithPartKeeps(s, data, rest, r.ended);
      MultipartKeeps(WithPart(s, data, rest, r.ended));
    }
  }

  lemma WithPartKeeps(s: State, data: string, rest: string, ended: bool)
    ensures Keeps(s, Ok(WithPart(s, data, rest, ended))) && WithPart(s, data, rest, ended).pending == rest
  {
  }

  lemma MultipartStops(s: State)
    requires s.pending == "" || s.step == Ended
    ensures Keeps(s, MultipartLoop(s))
  {
  }
}
