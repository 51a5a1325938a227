/**
 * What the incremental request parser computes, as functions of its state and the new data. The
 * class `RequestParser` in module HttpParser is proved to compute exactly this.
 */
module HttpParsing {
  import opened Wrappers
  import opened HttpText
  import opened HttpMessage

  /** A form part as the server sees it. */
  datatype Part = Part(name: string, fileName: string, data: string)

  const EMPTY_PART: Part := Part("", "", "")

  /** The request being filled in. Its URL is kept as written in the start line. */
  datatype Message = Message(
    startLine: string,
    verb: string,
    url: string,
    headers: seq<Header>,
    contentType: ContentType,
    contentLength: nat,
    content: string,
    parts: seq<Part>)

  datatype Step = Start | BoundaryParsed | HeadersParsed | Ended

  datatype State = State(
    pending: string,
    content: string,
    contentLength: nat,
    startLineParsed: bool,
    contentLengthParsed: bool,
    headerEnded: bool,
    chunked: bool,
    chunkSize: nat,
    finished: bool,
    message: Message,
    step: Step,
    part: Option<Part>)

  const EMPTY_MESSAGE: Message := Message("", "", "", [], NO_CONTENT_TYPE, NPOS, "", [])

  const FRESH: State := State("", "", NPOS, false, false, false, false, NPOS, false, EMPTY_MESSAGE, Start, None)

  /** The parser that `Init` prepares for the next request of a connection: the multipart step and part are kept. */
  function AfterInit(s: State): State {
    FRESH.(step := s.step, part := s.part)
  }

  /** A parser that is new, or has been prepared for another request. */
  predicate Ready(s: State) {
    s == AfterInit(s)
  }

  /**
   * `Fail` is the return value false. `Throw` is the exception of an append whose length is out of
   * range, and `Hang` the loop that never ends because no step applies.
   */
  datatype Outcome = Fail | Throw | Hang | Ok(state: State)

  // ----- Start line and headers

  function StartLine(s: State, line: string): Outcome {
    var strs := SplitBlanks(line);
    if |strs| != 3 then Fail
    else Ok(s.(startLineParsed := true, message := s.message.(startLine := line, verb := strs[0], url := strs[1])))
  }

  function WithHeader(s: State, name: string, value: string): State {
    s.(message := s.message.(headers := SetHeader(s.message.headers, name, value)))
  }

  function HeaderOf(limit: nat, s: State, line: string): Outcome {
    match Split2(line, ':')
    case None => Fail
    case Some((name, value)) => Accept(limit, s, name, value)
  }

  /** `limit` is the most that can be reserved for the content. */
  function Accept(limit: nat, s: State, name: string, value: string): Outcome {
    if IEquals(name, "Content-Length") then
      match StoUl(value, 10)
      case None => Fail
      case Some(n) =>
        if n > limit then Fail
        else Ok(WithHeader(s.(contentLengthParsed := true, contentLength := n), name, value))
    else if IEquals(name, "Content-Type") then
      var contentType := ParseContentType(value);
      if !contentType.Valid() then Fail
      else Ok(WithHeader(s.(message := s.message.(contentType := contentType)), name, value))
    else if IEquals(name, "Transfer-Encoding") && value == "chunked" then
      Ok(WithHeader(s.(chunked := true), name, value))
    else Ok(WithHeader(s, name, value))
  }

  function LineOf(limit: nat, s: State, line: string): Outcome {
    if s.startLineParsed then HeaderOf(limit, s, line) else StartLine(s, line)
  }

  /** Parses the complete lines of `rest`, up to the empty line; what is left over becomes the pending data. */
  function HeaderLoop(limit: nat, s: State, rest: string): (r: Outcome)
    ensures r.Fail? || r.Ok?
    decreases |rest|
  {
    match FindCRLF(rest, 0)
    case None => Ok(s.(pending := rest))
    case Some(p) =>
      var line, after := rest[..p], rest[p + 2..];
      if line == "" then Ok(s.(pending := after, headerEnded := true))
      else match LineOf(limit, s, line)
        case Ok(t) => HeaderLoop(limit, t, after)
        case _ => Fail
  }

  // ----- Content

  /** Moves the content into the message. */
  function Finish(s: State): State {
    if s.content == "" then s.(finished := true)
    else s.(finished := true, content := "",
            message := s.message.(contentLength := s.contentLength, content := s.content))
  }

  function FixedContent(s: State, data: string): Outcome {
    if !s.contentLengthParsed then Ok(Finish(s))
    else if s.contentLength == NPOS then Fail
    else
      var t := s.(content := s.content + s.pending + data, pending := "");
      Ok(if t.contentLength <= |t.content| then Finish(t) else t)
  }

  function SizeText(line: string): string {
    match FindChar(line, ' ')
    case Some(p) => line[..p]
    case None => line
  }

  /** Reads a chunk-size line if there is a complete one. */
  function ChunkSize(s: State): (r: Option<State>)
    ensures r.Some? ==> |r.value.pending| <= |s.pending|
  {
    match FindCRLF(s.pending, 0)
    case None => Some(s)
    case Some(p) =>
      match StoUl(SizeText(s.pending[..p]), 16)
      case None => None
      case Some(n) => Some(s.(pending := s.pending[p + 2..], chunkSize := n))
  }

  /** 64-bit addition. */
  function Add64(a: nat, b: nat): nat {
    (a + b) % (NPOS + 1)
  }

  /** Takes the data of a chunk that is complete, with its CRLF. */
  function TakeChunk(s: State): State
    requires s.chunkSize + 2 <= |s.pending|
  {
    s.(content := s.content + s.pending[..s.chunkSize], pending := s.pending[s.chunkSize + 2..], chunkSize := NPOS)
  }

  /** Takes all there is of a chunk that is not complete, and expects that much less. */
  function TakePartial(s: State): State
    requires |s.pending| < s.chunkSize
  {
    s.(content := s.content + s.pending, pending := "", chunkSize := s.chunkSize - |s.pending|)
  }

  function ChunkLoop(s: State): (r: Outcome)
    ensures !r.Hang?
    decreases |s.pending|
  {
    match if s.chunkSize == NPOS then ChunkSize(s) else Some(s)
    case None => Fail
    case Some(t) =>
      if t.chunkSize == 0 then Ok(Finish(t))
      else if Add64(t.chunkSize, 2) <= |t.pending| then
        if t.chunkSize >= NPOS - 1 then Throw  // the sum has wrapped around, and so much cannot be appended
        else ChunkLoop(TakeChunk(t))
      else if t.chunkSize > |t.pending| then Ok(TakePartial(t))
      else Ok(t)
  }

  // ----- Multipart content

  /** `strncmp` of equally long strings. */
  predicate SameUpToNul(a: string, b: string)
    requires |a| == |b|
  {
    a == "" || (a[0] == b[0] && (a[0] == '\0' || SameUpToNul(a[1..], b[1..])))
  }

  predicate Dashed(line: string, boundary: string) {
    (|line| == |boundary| + 2 || |line| == |boundary| + 4) && line[0] == '-' && line[1] == '-'
  }

  /** The end flag is set before the boundary itself is compared. */
  predicate MarksEnd(line: string, boundary: string) {
    Dashed(line, boundary) && |line| == |boundary| + 4 && line[|line| - 1] == '-' && line[|line| - 2] == '-'
  }

  predicate IsBoundary(line: string, boundary: string) {
    && Dashed(line, boundary)
    && (|line| == |boundary| + 4 ==> MarksEnd(line, boundary))
    && SameUpToNul(boundary, line[2..2 + |boundary|])
  }

  datatype Search = NotFound | Found(off: nat, count: nat, ended: bool)

  /** The first boundary line at or after `off`; the end flag may have been set by an earlier line. */
  function NextBoundary(pending: string, off: nat, boundary: string, ended: bool): (r: Search)
    requires off <= |pending|
    ensures r.Found? ==> off <= r.off && CrlfAt(pending, r.off + r.count)
    decreases |pending| - off
  {
    match FindCRLF(pending, off)
    case None => NotFound
    case Some(pos) =>
      var line := pending[off..pos];
      if line == "" then NextBoundary(pending, pos + 2, boundary, ended)
      else if IsBoundary(line, boundary) then Found(off, pos - off, ended || MarksEnd(line, boundary))
      else NextBoundary(pending, pos + 2, boundary, ended || MarksEnd(line, boundary))
  }

  datatype PartParse = NeedMore(part: Part) | BadHeaders | PartHeaded(part: Part, rest: string)

  /** What one header line does to its part. */
  function PartHeader(line: string, part: Part): Option<Part> {
    match Split2(line, ':')
    case None => None
    case Some((name, value)) =>
      if !IEquals(name, "Content-Disposition") then Some(part)
      else match ParseDisposition(value)
        case None => None
        case Some(d) => Some(part.(name := d.name, fileName := d.fileName))
  }

  /** The headers of a part; the lines read so far have set the part's names even when more are needed. */
  function PartHeaderLoop(rest: string, part: Part): (r: PartParse)
    ensures r.PartHeaded? ==> |r.rest| < |rest|
    decreases |rest|
  {
    match FindCRLF(rest, 0)
    case None => NeedMore(part)
    case Some(p) =>
      var line, after := rest[..p], rest[p + 2..];
      if line == "" then PartHeaded(part, after)
      else match PartHeader(line, part)
        case None => BadHeaders
        case Some(next) => PartHeaderLoop(after, next)
  }

  function CurrentPart(s: State): Part {
    if s.part.Some? then s.part.value else EMPTY_PART
  }

  function WithPart(s: State, data: string, rest: string, ended: bool): State {
    var part := CurrentPart(s);
    s.(pending := rest, part := None, step := if ended then Ended else BoundaryParsed,
       message := s.message.(parts := s.message.parts + [part.(data := part.data + data)]))
  }

  function Move(s: State, rest: string, step: Step): State {
    s.(pending := rest, step := step)
  }

  function MultipartLoop(s: State): (r: Outcome)
    ensures !r.Throw?
    decreases |s.pending|
  {
    var boundary := s.message.contentType.additional;
    if s.pending == "" then Ok(if s.step.Ended? then Finish(s) else s)
    else match s.step
      case Start =>
        (match FindCRLF(s.pending, 0)
         case None => Ok(s)
         case Some(p) =>
           if IsBoundary(s.pending[..p], boundary)
           then MultipartLoop(Move(s, s.pending[p + 2..], BoundaryParsed))
           else Fail)
      case BoundaryParsed =>
        (match PartHeaderLoop(s.pending, CurrentPart(s))
         case NeedMore(part) => Ok(s.(part := Some(part)))
         case BadHeaders => Fail
         case PartHeaded(part, rest) =>
           MultipartLoop(Move(s.(part := Some(part)), rest, HeadersParsed)))
      case HeadersParsed =>
        (match NextBoundary(s.pending, 0, boundary, false)
         case NotFound => Ok(s)
         case Found(off, count, ended) =>
           if off <= 2 then Fail else
           var t := WithPart(s, s.pending[..off - 2], s.pending[off + count + 2..], ended);
           if ended then Ok(Finish(t)) else MultipartLoop(t))
      case Ended => Hang
  }

  // The branches of the loop, one lemma each.

  lemma AtStart(s: State)
    requires s.step == Start && s.pending != ""
    ensures MultipartLoop(s)
         == match FindCRLF(s.pending, 0)
            case None => Ok(s)
            case Some(p) =>
              if IsBoundary(s.pending[..p], s.message.contentType.additional)
              then MultipartLoop(Move(s, s.pending[p + 2..], BoundaryParsed)) else Fail
  {
    hide FindCRLF, IsBoundary, Move;
  }

  lemma AtHeaders(s: State)
    requires s.step == BoundaryParsed && s.pending != ""
    ensures var r := PartHeaderLoop(s.pending, CurrentPart(s));
            MultipartLoop(s)
            == if r.NeedMore? then Ok(s.(part := Some(r.part)))
               else if r.BadHeaders? then Fail
               else MultipartLoop(Move(s.(part := Some(r.part)), r.rest, HeadersParsed))
  {
    hide PartHeaderLoop, CurrentPart, Move;
  }

  lemma AtData(s: State)
    requires s.step == HeadersParsed && s.pending != ""
    ensures MultipartLoop(s)
         == match NextBoundary(s.pending, 0, s.message.contentType.additional, false)
            case NotFound => Ok(s)
            case Found(off, count, ended) =>
              if off <= 2 then Fail
              else
                var t := WithPart(s, s.pending[..off - 2], s.pending[off + count + 2..], ended);
                if ended then Ok(Finish(t)) else MultipartLoop(t)
  {
    hide NextBoundary, WithPart, Finish;
  }

  function MultipartContent(s: State, data: string): Outcome {
    if !s.contentLengthParsed || s.contentLength == NPOS then Fail
    else MultipartLoop(s.(pending := s.pending + data))
  }

  function Content(s: State, data: string): Outcome {
    if s.chunked then ChunkLoop(s.(pending := s.pending + data))
    else if s.message.contentType.multipart then MultipartContent(s, data)
    else FixedContent(s, data)
  }

  /** One call of `Parse` with the bytes of one read. */
  function Parse(limit: nat, s: State, data: string): Outcome {
    if s.headerEnded then Content(s, data)
    else match HeaderLoop(limit, s.(pending := s.pending + data), s.pending + data)
      case Ok(t) => if t.headerEnded then Content(t, "") else Ok(t)
      case _ => Fail
  }

  /** A connection's reads: it stops when a call fails or the request is complete. */
  function Feed(limit: nat, s: State, fragments: seq<string>): Outcome
    decreases fragments
  {
    if fragments == [] || s.finished then Ok(s)
    else match Parse(limit, s, fragments[0])
      case Ok(t) => Feed(limit, t, fragments[1..])
      case bad => bad
  }
}
