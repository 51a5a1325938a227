/** The incremental request parser: a state machine that is fed the bytes of one read after another. */
module HttpParser {
  import opened Wrappers
  import opened HttpText
  import opened HttpMessage
  import opened HttpParsing

  /** How a turn of a content loop leaves it. */
  datatype Turn = Failed | Thrown | Done | Continue

  class RequestParser {
    const limit: nat
    var pendingData: string
    var content: string
    var contentLength: nat
    var startLineParsed: bool
    var contentLengthParsed: bool
    var headerEnded: bool
    var chunked: bool
    var chunkSize: nat
    var finished: bool
    var message: Message
    var step: Step
    var part: Option<Part>

    ghost function View(): State
      reads this
    {
      State(pendingData, content, contentLength, startLineParsed, contentLengthParsed, headerEnded, chunked, chunkSize,
            finished, message, step, part)
    }

    constructor (limit: nat)
      ensures this.limit == limit && View() == FRESH
    {
      this.limit := limit;
      pendingData, content, contentLength := "", "", NPOS;
      startLineParsed, contentLengthParsed, headerEnded := false, false, false;
      chunked, chunkSize, finished := false, NPOS, false;
      message, step, part := EMPTY_MESSAGE, Start, None;
    }

    /** Prepares for the next request on the connection; the multipart step and part are kept. */
    method Init()
      modifies this
      ensures View() == AfterInit(old(View()))
    {
      pendingData, content, contentLength := "", "", NPOS;
      startLineParsed, contentLengthParsed, headerEnded := false, false, false;
      chunked, chunkSize, finished := false, NPOS, false;
      message := EMPTY_MESSAGE;
    }

    /** The caller must not come back to a parser that has ended a multipart body and still has data. */
    method ParseData(data: string) returns (thrown: bool, ok: bool)
      requires Parse(limit, View(), data) != Hang
      modifies this
      ensures match Parse(limit, old(View()), data)
              case Ok(t) => !thrown && ok && View() == t
              case Fail => !thrown && !ok
              case Throw => thrown
    {
      hide HeaderLoop, Content;
      if headerEnded {
        thrown, ok := ParseContent(data);
        return;
      }
      pendingData := pendingData + data;
      ok := ParseHeaders();
      thrown := false;
      if !ok {
        return;
      }
      if headerEnded {
        thrown, ok := ParseContent("");
      }
    }

    method ParseHeaders() returns (ok: bool)
      modifies this
      ensures match HeaderLoop(limit, old(View()), old(pendingData))
              case Ok(t) => ok && View() == t
              case _ => !ok
    {
      hide LineOf, HeaderLoop, FindCRLF;
      var off := 0;
      ghost var all := pendingData;
      assert all[0..] == all;
      while true
        invariant off <= |pendingData| && pendingData == all
        invariant HeaderLoop(limit, old(View()), all) == HeaderLoop(limit, View(), all[off..])
        decreases |all| - off
      {
        var pos := FindCRLF(pendingData, off);
        HeaderAt(limit, View(), all, off);
        if pos.None? {
          break;
        }
        var line := pendingData[off..pos.value];
        off := pos.value + 2;
        if line == "" {
          headerEnded := true;
          break;
        }
        ghost var before := View();
        var parsed := ParseLine(line);
        if !parsed {
          return false;
        }
        LineKeepsPending(limit, before, line);
      }
      pendingData := pendingData[off..];
      return true;
    }

    method ParseLine(line: string) returns (ok: bool)
      modifies this
      ensures match LineOf(limit, old(View()), line)
              case Ok(t) => ok && View() == t
              case _ => !ok
    {
      if !startLineParsed {
        startLineParsed := true;
        message := message.(startLine := line);
        ok := ParseStartLine(line);
      } else {
        ok := ParseHeaderLine(line);
      }
    }

    method ParseStartLine(line: string) returns (ok: bool)
      modifies this`message
      ensures var strs := SplitBlanks(line);
              ok == (|strs| == 3) && (ok ==> message == old(message).(verb := strs[0], url := strs[1]))
    {
      var strs := SplitBlanks(line);
      if |strs| != 3 {
        return false;
      }
      message := message.(verb := strs[0]);
      message := message.(url := strs[1]);
      return true;
    }

    method ParseHeaderLine(line: string) returns (ok: bool)
      modifies this
      ensures match HeaderOf(limit, old(View()), line)
              case Ok(t) => ok && View() == t
              case _ => !ok
    {
      hide StoUl, ParseContentType, SetHeader, Split2, IEquals;
      var split, name, value := Split2Parts(line, ':');
      if !split {
        return false;
      }
      if IEquals(name, "Content-Length") {
        contentLengthParsed := true;
        var n := StoUl(value, 10);
        if n.None? {
          return false;
        }
        contentLength := n.value;
        if contentLength > limit {
          return false;
        }
      } else if IEquals(name, "Content-Type") {
        var contentType := ParseContentType(value);
        if !contentType.Valid() {
          return false;
        }
        message := message.(contentType := contentType);
      } else if IEquals(name, "Transfer-Encoding") {
        if value == "chunked" {
          chunked := true;
        }
      }
      message := message.(headers := SetHeader(message.headers, name, value));
      return true;
    }

    method ParseContent(data: string) returns (thrown: bool, ok: bool)
      requires Content(View(), data) != Hang
      modifies this
      ensures match Content(old(View()), data)
              case Ok(t) => !thrown && ok && View() == t
              case Fail => !thrown && !ok
              case Throw => thrown
    {
      hide ChunkLoop, MultipartLoop;
      if chunked {
        thrown, ok := ParseChunkedContent(data);
      } else if message.contentType.multipart {
        thrown := false;
        ok := ParseMultipartContent(data);
      } else {
        thrown := false;
        ok := ParseFixedContent(data);
      }
    }

    method FinishMessage()
      modifies this
      ensures View() == Finish(old(View()))
    {
      finished := true;
      if content == "" {
        return;
      }
      message := message.(contentLength := contentLength);
      message := message.(content := content);
      content := "";
    }

    method ParseFixedContent(data: string) returns (ok: bool)
      modifies this
      ensures match FixedContent(old(View()), data)
              case Ok(t) => ok && View() == t
              case _ => !ok
    {
      if !contentLengthParsed {
        FinishMessage();
        return true;
      }
      if contentLength == NPOS {
        return false;
      }
      if pendingData != "" {
        content := content + pendingData;
        pendingData := "";
      }
      content := content + data;
      if contentLength != NPOS && contentLength <= |content| {
        FinishMessage();
      }
      return true;
    }

    method ParseChunkedContent(data: string) returns (thrown: bool, ok: bool)
      modifies this
      ensures match ChunkLoop(old(View()).(pending := old(pendingData) + data))
              case Ok(t) => !thrown && ok && View() == t
              case Fail => !thrown && !ok
              case Throw => thrown
    {
      hide ChunkLoop;
      pendingData := pendingData + data;
      ghost var goal := ChunkLoop(View());
      while true
        invariant goal == ChunkLoop(View())
        decreases |pendingData|
      {
        var turn := ChunkTurn();
        match turn {
          case Failed => return false, false;
          case Thrown => return true, false;
          case Done => return false, true;
          case Continue =>
        }
      }
    }

    method ChunkTurn() returns (turn: Turn)
      modifies this
      ensures turn == Failed ==> ChunkLoop(old(View())) == Fail
      ensures turn == Thrown ==> ChunkLoop(old(View())) == Throw
      ensures turn == Done ==> ChunkLoop(old(View())) == Ok(View())
      ensures turn == Continue ==> ChunkLoop(old(View())) == ChunkLoop(View()) && |pendingData| < |old(pendingData)|
    {
      hide ChunkSize, Finish, TakeChunk, TakePartial, FindCRLF;
      if chunkSize == NPOS {
        var ok := ParseChunkSize();
        if !ok {
          return Failed;
        }
      }
      if chunkSize == 0 {
        FinishMessage();
        return Done;
      }
      if Add64(chunkSize, 2) <= |pendingData| {
        if chunkSize >= NPOS - 1 {
          return Thrown;
        }
        AppendChunk();
        return Continue;
      } else if chunkSize > |pendingData| {
        AppendPartial();
        return Done;
      }
      return Done;
    }

    method AppendChunk()
      requires chunkSize + 2 <= |pendingData|
      modifies this
      ensures View() == TakeChunk(old(View())) && |pendingData| < |old(pendingData)|
    {
      content := content + pendingData[..chunkSize];
      pendingData := pendingData[chunkSize + 2..];
      chunkSize := NPOS;
    }

    method AppendPartial()
      requires |pendingData| < chunkSize
      modifies this
      ensures View() == TakePartial(old(View()))
    {
      content := content + pendingData;
      chunkSize := chunkSize - |pendingData|;
      pendingData := "";
    }

    method ParseChunkSize() returns (ok: bool)
      modifies this
      ensures match ChunkSize(old(View()))
              case Some(t) => ok && View() == t
              case None => !ok
      ensures ok ==> |pendingData| <= |old(pendingData)|
    {
      hide StoUl;
      var pos := FindCRLF(pendingData, 0);
      if pos.None? {
        return true;
      }
      var line := pendingData[..pos.value];
      pendingData := pendingData[pos.value + 2..];
      var hex := SizeText(line);
      var n := StoUl(hex, 16);
      if n.None? {
        return false;
      }
      chunkSize := n.value;
      return true;
    }

    method ParseMultipartContent(data: string) returns (ok: bool)
      requires MultipartContent(View(), data) != Hang
      modifies this
      ensures match MultipartContent(old(View()), data)
              case Ok(t) => ok && View() == t
              case _ => !ok
    {
      hide MultipartLoop;
      pendingData := pendingData + data;
      if !contentLengthParsed || contentLength == NPOS {
        return false;
      }
      ghost var goal := MultipartLoop(View());
      while true
        invariant goal == MultipartLoop(View()) != Hang
        decreases |pendingData|
      {
        var outcome := MultipartTurn();
        if outcome == Failed {
          return false;
        }
        if outcome == Done {
          return true;
        }
      }
    }

    /** One turn of the loop: it fails, or it waits for more data or has ended, or it goes on. */
    method MultipartTurn() returns (turn: Turn)
      requires MultipartLoop(View()) != Hang
      modifies this
      ensures turn != Thrown
      ensures turn == Failed ==> MultipartLoop(old(View())) == Fail
      ensures turn == Done ==> MultipartLoop(old(View())) == Ok(View())
      ensures turn == Continue ==>
               MultipartLoop(old(View())) == MultipartLoop(View()) && |pendingData| < |old(pendingData)|
    {
      if pendingData == "" {
        if step == Ended {
          FinishMessage();
        }
        return Done;
      }
      if step == Start {
        turn := StartTurn();
      } else if step == BoundaryParsed {
        turn := HeadersTurn();
      } else {
        turn := DataTurn();
      }
    }

    method StartTurn() returns (turn: Turn)
      requires step == Start && pendingData != ""
      modifies this
      ensures turn != Thrown
      ensures turn == Failed ==> MultipartLoop(old(View())) == Fail
      ensures turn == Done ==> MultipartLoop(old(View())) == Ok(View())
      ensures turn == Continue ==>
               MultipartLoop(old(View())) == MultipartLoop(View()) && |pendingData| < |old(pendingData)|
    {
      hide MultipartLoop, IsBoundary, FindCRLF;
      AtStart(View());
      var pos := FindCRLF(pendingData, 0);
      if pos.None? {
        return Done;
      }
      var line := pendingData[..pos.value];
      pendingData := pendingData[pos.value + 2..];
      if !IsBoundary(line, message.contentType.additional) {
        return Failed;
      }
      step := BoundaryParsed;
      return Continue;
    }

    method HeadersTurn() returns (turn: Turn)
      requires step == BoundaryParsed && pendingData != ""
      modifies this
      ensures turn != Thrown
      ensures turn == Failed ==> MultipartLoop(old(View())) == Fail
      ensures turn == Done ==> MultipartLoop(old(View())) == Ok(View())
      ensures turn == Continue ==>
               MultipartLoop(old(View())) == MultipartLoop(View()) && |pendingData| < |old(pendingData)|
    {
      hide MultipartLoop, PartHeaderLoop;
      AtHeaders(View());
      if part.None? {
        part := Some(EMPTY_PART);
      }
      var headed, needMoreData := ParsePartHeaders();
      if headed {
        step := HeadersParsed;
        return Continue;
      }
      return if needMoreData then Done else Failed;
    }

    method DataTurn() returns (turn: Turn)
      requires step == HeadersParsed && pendingData != ""
      modifies this
      ensures turn != Thrown
      ensures turn == Failed ==> MultipartLoop(old(View())) == Fail
      ensures turn == Done ==> MultipartLoop(old(View())) == Ok(View())
      ensures turn == Continue ==>
               MultipartLoop(old(View())) == MultipartLoop(View()) && |pendingData| < |old(pendingData)|
    {
      hide MultipartLoop, NextBoundary, WithPart, Finish;
      AtData(View());
      var found, off, count, ended := GetNextBoundaryLine();
      if !found {
        return Done;
      }
      if off <= 2 {
        return Failed;
      }
      AddPart(off, count, ended);
      if ended {
        FinishMessage();
        return Done;
      }
      return Continue;
    }

    /** The part ends two bytes before its boundary line; both are taken off the pending data. */
    method AddPart(off: nat, count: nat, ended: bool)
      requires 2 < off && off + count + 2 <= |pendingData|
      modifies this
      ensures View() == WithPart(old(View()), old(pendingData)[..off - 2], old(pendingData)[off + count + 2..], ended)
      ensures |pendingData| < |old(pendingData)|
    {
      var p := CurrentPartHere();
      part := Some(p.(data := p.data + pendingData[..off - 2]));
      pendingData := pendingData[off + count + 2..];
      message := message.(parts := message.parts + [part.value]);
      part := None;
      step := if ended then Ended else BoundaryParsed;
    }

    method CurrentPartHere() returns (p: Part)
      ensures p == CurrentPart(View())
    {
      p := if part.Some? then part.value else EMPTY_PART;
    }

    method ParsePartHeaders() returns (headed: bool, needMoreData: bool)
      requires part.Some?
      modifies this`pendingData, this`part
      ensures match PartHeaderLoop(old(pendingData), old(part).value)
              case NeedMore(p) => !headed && needMoreData && pendingData == old(pendingData) && part == Some(p)
              case BadHeaders => !headed && !needMoreData
              case PartHeaded(p, rest) => headed && pendingData == rest && part == Some(p)
    {
      hide PartHeaderLoop, PartHeader;
      var off := 0;
      ghost var all := pendingData;
      ghost var goal := PartHeaderLoop(all, part.value);
      assert all[0..] == all;
      while true
        invariant off <= |all| && pendingData == all && part.Some?
        invariant goal == PartHeaderLoop(all[off..], part.value)
        decreases |all| - off
      {
        PartHeaderAt(all, off, part.value);
        var pos := FindCRLF(pendingData, off);
        if pos.None? {
          return false, true;
        }
        var line := pendingData[off..pos.value];
        off := pos.value + 2;
        if line == "" {
          break;
        }
        var ok := ParsePartHeader(line);
        if !ok {
          return false, false;
        }
      }
      pendingData := pendingData[off..];
      return true, false;
    }

    method ParsePartHeader(line: string) returns (ok: bool)
      requires part.Some?
      modifies this`part
      ensures if ok then part.Some? && PartHeader(line, old(part).value) == part
              else PartHeader(line, old(part).value) == None
    {
      hide Split2, ParseDisposition;
      var split, name, value := Split2Parts(line, ':');
      if !split {
        return false;
      }
      if IEquals(name, "Content-Disposition") {
        var valid, d := InitDisposition(value);
        if !valid {
          return false;
        }
        part := Some(part.value.(name := d.name, fileName := d.fileName));
      }
      return true;
    }

    method GetNextBoundaryLine() returns (found: bool, off: nat, count: nat, ended: bool)
      ensures match NextBoundary(pendingData, 0, message.contentType.additional, false)
              case NotFound => !found
              case Found(o, c, e) => found && off == o && count == c && ended == e
    {
      hide IsBoundary, MarksEnd;
      off, count, ended := 0, 0, false;
      var boundary := message.contentType.additional;
      while true
        invariant off <= |pendingData|
        invariant NextBoundary(pendingData, 0, boundary, false) == NextBoundary(pendingData, off, boundary, ended)
        decreases |pendingData| - off
      {
        var pos := FindCRLF(pendingData, off);
        if pos.None? {
          return false, off, count, ended;
        }
        count := pos.value - off;
        if count == 0 {
          off := pos.value + 2;
          continue;
        }
        var line := pendingData[off..pos.value];
        ended := ended || MarksEnd(line, boundary);
        if IsBoundary(line, boundary) {
          return true, off, count, ended;
        }
        off := pos.value + 2;
      }
    }
  }

  lemma HeaderStep(limit: nat, s: State, rest: string)
    ensures var r := FindCRLF(rest, 0);
            HeaderLoop(limit, s, rest)
            == if r.None? then Ok(s.(pending := rest))
               else if r.value == 0 then Ok(s.(pending := rest[2..], headerEnded := true))
               else if !LineOf(limit, s, rest[..r.value]).Ok? then Fail
               else HeaderLoop(limit, LineOf(limit, s, rest[..r.value]).state, rest[r.value + 2..])
  {
    hide LineOf, FindCRLF;
  }

  /** One turn of the header loop at an offset. */
  lemma HeaderAt(limit: nat, s: State, all: string, off: nat)
    requires off <= |all|
    ensures var r := FindCRLF(all, off);
            HeaderLoop(limit, s, all[off..])
            == if r.None? then Ok(s.(pending := all[off..]))
               else if r.value == off then Ok(s.(pending := all[r.value + 2..], headerEnded := true))
               else if !LineOf(limit, s, all[off..r.value]).Ok? then Fail
               else HeaderLoop(limit, LineOf(limit, s, all[off..r.value]).state, all[r.value + 2..])
  {
    hide LineOf, HeaderLoop, FindCRLF;
    HeaderStep(limit, s, all[off..]);
    FindFrom(all, off);
    var r := FindCRLF(all, off);
    if r.Some? {
      assert all[off..][..r.value - off] == all[off..r.value] && all[off..][r.value - off + 2..] == all[r.value + 2..];
    }
  }

  lemma PartHeaderStep(rest: string, part: Part)
    ensures var r := FindCRLF(rest, 0);
            PartHeaderLoop(rest, part)
            == if r.None? then NeedMore(part)
               else if r.value == 0 then PartHeaded(part, rest[2..])
               else if PartHeader(rest[..r.value], part).None? then BadHeaders
               else PartHeaderLoop(rest[r.value + 2..], PartHeader(rest[..r.value], part).value)
  {
    hide PartHeader, FindCRLF;
  }

  /** One turn of the part header loop at an offset. */
  lemma PartHeaderAt(all: string, off: nat, part: Part)
    requires off <= |all|
    ensures var r := FindCRLF(all, off);
            PartHeaderLoop(all[off..], part)
            == if r.None? then NeedMore(part)
               else if r.value == off then PartHeaded(part, all[r.value + 2..])
               else if PartHeader(all[off..r.value], part).None? then BadHeaders
               else PartHeaderLoop(all[r.value + 2..], PartHeader(all[off..r.value], part).value)
  {
    hide PartHeader, PartHeaderLoop, FindCRLF;
    PartHeaderStep(all[off..], part);
    FindFrom(all, off);
    var r := FindCRLF(all, off);
    if r.Some? {
      assert all[off..][..r.value - off] == all[off..r.value] && all[off..][r.value - off + 2..] == all[r.value + 2..];
    }
  }

  lemma LineKeepsPending(limit: nat, s: State, line: string)
    ensures match LineOf(limit, s, line) case Ok(t) => t.pending == s.pending case Fail => true case _ => false
  {
    hide StoUl, ParseContentType, SetHeader, Split2, IEquals, SplitBlanks;
  }
}
