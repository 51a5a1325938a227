/** The parser undoes the serializer: a message laid out as text is read back as it was. */
module HttpRoundTrip {
  import opened Wrappers
  import opened HttpText
  import opened HttpMessage
  import opened HttpParsing
  import opened HttpReads

  // ----- Numbers and lines

  lemma {:induction false} LeadingDigit(a: string, c: char, value: nat)
    requires Decimal.AllDigits(a) && Decimal.IsDigit(c)
    ensures LeadingNumber(a + [c], 10, value) == LeadingNumber(a, 10, value) * 10 + DigitValue(c)
    decreases |a|
  {
    if a == "" {
      assert a + [c] == [c] && [c][1..] == "";
    } else {
      assert (a + [c])[1..] == a[1..] + [c];
      LeadingDigit(a[1..], c, value * 10 + DigitValue(a[0]));
    }
  }

  lemma {:induction false} LeadingIsValue(s: string)
    requires Decimal.AllDigits(s)
    ensures LeadingNumber(s, 10, 0) == Decimal.ValueOf(s)
  {
    if s != "" {
      var k := |s| - 1;
      LeadingIsValue(s[..k]);
      LeadingDigit(s[..k], s[k], 0);
      assert s == s[..k] + [s[k]];
    }
  }

  /** A printed length is read back. */
  lemma LengthRoundTrip(n: nat)
    requires n <= NPOS
    ensures StoUl(Decimal.Digits(n), 10) == Some(n)
  {
    hide LeadingNumber;
    var s := Decimal.Digits(n);
    LeadingIsValue(s);
    Decimal.ValueOfDigits(n);
    assert Decimal.IsDigit(s[0]);
    assert TrimLeft(s) == s;
  }

  lemma NoCrlfConcat(a: string, b: string)
    requires NoCRLF(a) && NoCRLF(b) && (a != "" && b != "" ==> a[|a| - 1] != '\r' || b[0] != '\n')
    ensures NoCRLF(a + b)
  {
    forall i | 0 <= i < |a + b| ensures !CrlfAt(a + b, i) {
      assert i < |a| ==> !CrlfAt(a, i);
      assert i >= |a| ==> !CrlfAt(b, i - |a|);
    }
  }

  lemma NoCrlfBeforeReturn(a: string)
    requires NoCRLF(a)
    ensures NoCRLF(a + "\r")
  {
    NoCrlfConcat(a, "\r");
  }

  lemma LineFound(line: string, rest: string)
    requires NoCRLF(line)
    ensures var text := line + CRLF + rest;
            FindCRLF(text, 0) == Some(|line|) && text[..|line|] == line && text[|line| + 2..] == rest
  {
    NoCrlfBeforeReturn(line);
    FindCrlfAfter(line, rest);
  }

  // ----- Headers

  /** A header that survives being written as a line and split again. */
  predicate Plain(h: Header) {
    ':' !in h.name && NoCRLF(HeaderLine(h)) && Trimmed(h.name) && Trimmed(h.value)
  }

  lemma HeaderLineSplits(h: Header)
    requires Plain(h)
    ensures Split2(HeaderLine(h), ':') == Some((h.name, h.value)) && HeaderLine(h) != ""
  {
    hide Trim;
    var line := HeaderLine(h);
    assert line == h.name + [':'] + (" " + h.value);
    FindCharAfter(h.name, ':', " " + h.value);
    assert line[..|h.name|] == h.name && line[|h.name| + 1..] == " " + h.value;
    TrimSpaceBefore(h.name);
    TrimSpaceBefore(h.value);
  }

  /** The headers one after another. */
  function AcceptAll(limit: nat, s: State, hs: seq<Header>): Outcome
    decreases |hs|
  {
    if hs == [] then Ok(s)
    else match Accept(limit, s, hs[0].name, hs[0].value)
      case Ok(t) => AcceptAll(limit, t, hs[1..])
      case _ => Fail
  }

  lemma AcceptKeepsFlags(limit: nat, s: State, name: string, value: string)
    ensures match Accept(limit, s, name, value)
            case Ok(t) => t.startLineParsed == s.startLineParsed
            case bad => bad == Fail
  {
    hide StoUl, ParseContentType, SetHeader, IEquals;
  }

  lemma {:induction false} HeadersRead(limit: nat, s: State, hs: seq<Header>, content: string)
    requires s.startLineParsed && forall h <- hs :: Plain(h)
    ensures HeaderLoop(limit, s, HeadersText(hs) + (CRLF + content))
         == match AcceptAll(limit, s, hs)
            case Ok(t) => Ok(t.(pending := content, headerEnded := true))
            case _ => Fail
    decreases |hs|
  {
    hide Accept, Plain, HeaderLine, Split2;
    if hs == [] {
      var text := HeadersText(hs) + (CRLF + content);
      assert text == "" + CRLF + content;
      NoCrlfEmpty();
      LineFound("", content);
    } else {
      var h, after := hs[0], HeadersText(hs[1..]) + (CRLF + content);
      assert Plain(h);
      PlainLine(h);
      HeaderLineSplits(h);
      assert HeadersText(hs) + (CRLF + content) == HeaderLine(h) + CRLF + after;
      LineFound(HeaderLine(h), after);
      AcceptKeepsFlags(limit, s, h.name, h.value);
      match Accept(limit, s, h.name, h.value)
      case Ok(t) => HeadersRead(limit, t, hs[1..], content);
      case _ =>
    }
  }

  lemma NoCrlfEmpty()
    ensures NoCRLF("")
  {
  }

  lemma PlainLine(h: Header)
    requires Plain(h)
    ensures NoCRLF(HeaderLine(h))
  {
  }

  // ----- What the headers amount to

  /** A header the parser accepts. */
  predicate Acceptable(limit: nat, h: Header) {
    if IEquals(h.name, "Content-Length") then
      StoUl(h.value, 10).Some? && StoUl(h.value, 10).value <= limit
    else IEquals(h.name, "Content-Type") ==> ParseContentType(h.value).Valid()
  }

  /** The state that knows the headers `hs` and nothing else that it did not know. */
  function Knowing(s: State, hs: seq<Header>): State {
    var length := if HasHeader(hs, "Content-Length") then StoUl(GetHeader(hs, "Content-Length"), 10) else None;
    s.(message := s.message.(headers := hs,
                             contentType := if HasHeader(hs, "Content-Type")
                                            then ParseContentType(GetHeader(hs, "Content-Type"))
                                            else s.message.contentType),
       contentLengthParsed := s.contentLengthParsed || HasHeader(hs, "Content-Length"),
       contentLength := if length.Some? then length.value else s.contentLength,
       chunked := s.chunked || GetHeader(hs, "Transfer-Encoding") == "chunked")
  }

  /** What one more header with a new name adds. */
  lemma OneMore(hs: seq<Header>, h: Header, key: string)
    requires DistinctNames(hs + [h])
    ensures SetHeader(hs, h.name, h.value) == hs + [h]
    ensures IEquals(h.name, key) ==>
              && !HasHeader(hs, key)
              && HasHeader(hs + [h], key) && GetHeader(hs + [h], key) == h.value
    ensures !IEquals(h.name, key) ==>
              HasHeader(hs + [h], key) == HasHeader(hs, key) && GetHeader(hs + [h], key) == GetHeader(hs, key)
  {
    hide FindHeader, IEquals;
    var all, n := hs + [h], |hs|;
    forall i | 0 <= i < n ensures !IEquals(hs[i].name, h.name) {
      assert all[i] == hs[i] && all[n] == h && !IEquals(all[i].name, all[n].name);
    }
    FindIs(hs, h.name, n);
    if IEquals(h.name, key) {
      forall i | 0 <= i < n ensures !IEquals(hs[i].name, key) {
        SameNameAs(h.name, key, hs[i].name);
        Symmetric(hs[i].name, key);
        Symmetric(hs[i].name, h.name);
      }
      FindIs(hs, key, n);
      FindIs(all, key, n);
    } else {
      var i := FindHeader(hs, key);
      assert forall k :: 0 <= k < i ==> all[k] == hs[k];
      FindIs(all, key, if i < n then i else n + 1);
    }
  }

  lemma Symmetric(a: string, b: string)
    ensures IEquals(a, b) <==> IEquals(b, a)
  {
  }

  lemma DifferentKeys(name: string)
    ensures IEquals(name, "Content-Length") ==> !IEquals(name, "Content-Type") && !IEquals(name, "Transfer-Encoding")
    ensures IEquals(name, "Content-Type") ==> !IEquals(name, "Transfer-Encoding")
  {
  }

  lemma AcceptMore(limit: nat, s: State, hs: seq<Header>, h: Header)
    requires DistinctNames(hs + [h])
    ensures Accept(limit, Knowing(s, hs), h.name, h.value)
         == if Acceptable(limit, h) then Ok(Knowing(s, hs + [h])) else Fail
  {
    hide StoUl, ParseContentType, SetHeader, IEquals, HasHeader, GetHeader;
    OneMore(hs, h, "Content-Length");
    OneMore(hs, h, "Content-Type");
    OneMore(hs, h, "Transfer-Encoding");
    NoValue(hs, "Transfer-Encoding");
    DifferentKeys(h.name);
  }

  lemma NoValue(hs: seq<Header>, key: string)
    ensures !HasHeader(hs, key) ==> GetHeader(hs, key) == ""
  {
  }

  lemma {:induction false} AcceptRest(limit: nat, s: State, hs: seq<Header>, rest: seq<Header>)
    requires DistinctNames(hs + rest)
    ensures AcceptAll(limit, Knowing(s, hs), rest)
         == if forall h <- rest :: Acceptable(limit, h) then Ok(Knowing(s, hs + rest)) else Fail
    decreases |rest|
  {
    hide Accept, Acceptable, Knowing;
    if rest == [] {
      assert hs + rest == hs;
    } else {
      var h := rest[0];
      assert hs + rest == hs + [h] + rest[1..] && (hs + rest)[..|hs| + 1] == hs + [h];
      DistinctPrefix(hs + rest, |hs| + 1);
      AcceptMore(limit, s, hs, h);
      assert rest == [h] + rest[1..];
      if Acceptable(limit, h) {
        AcceptRest(limit, s, hs + [h], rest[1..]);
      }
    }
  }

  lemma DistinctPrefix(hs: seq<Header>, k: nat)
    requires DistinctNames(hs) && k <= |hs|
    ensures DistinctNames(hs[..k])
  {
  }

  // ----- Whole messages

  /** The parser after a start line. */
  function Started(s: State, line: string): State {
    var strs := SplitBlanks(line);
    s.(startLineParsed := true,
       message := EMPTY_MESSAGE.(startLine := line, verb := strs[0], url := if |strs| > 1 then strs[1] else ""))
  }

  predicate GoodStartLine(line: string) {
    line != "" && NoCRLF(line) && |SplitBlanks(line)| == 3
  }

  /** Headers that can be laid out and found again. */
  ghost predicate GoodHeaders(hs: seq<Header>) {
    DistinctNames(hs) && forall h <- hs :: Plain(h)
  }

  /** The head of a message is read exactly if every header is acceptable. */
  lemma HeadRead(limit: nat, s: State, startLine: string, hs: seq<Header>, content: string)
    requires Ready(s) && GoodStartLine(startLine) && GoodHeaders(hs)
    ensures HeaderLoop(limit, s, MessageText(startLine, hs, content))
         == if forall h <- hs :: Acceptable(limit, h)
            then Ok(Knowing(Started(s, startLine), hs).(pending := content, headerEnded := true)) else Fail
  {
    hide HeaderLoop, AcceptAll, Acceptable, Knowing, Plain;
    var rest := HeadersText(hs) + (CRLF + content);
    LineFound(startLine, rest);
    FirstLineRead(limit, s, startLine, rest);
    HeadersRead(limit, Started(s, startLine), hs, content);
    KnowingNothing(s, startLine);
    assert [] + hs == hs;
    AcceptRest(limit, Started(s, startLine), [], hs);
  }

  lemma FirstLineRead(limit: nat, s: State, startLine: string, rest: string)
    requires Ready(s) && GoodStartLine(startLine)
    ensures HeaderLoop(limit, s, startLine + CRLF + rest) == HeaderLoop(limit, Started(s, startLine), rest)
  {
    hide SplitBlanks;
    LineFound(startLine, rest);
  }

  lemma KnowingNothing(s: State, startLine: string)
    requires Ready(s)
    ensures Knowing(Started(s, startLine), []) == Started(s, startLine)
  {
    hide SplitBlanks;
  }

  /** The message that is sent: its length header, if any, is right, and it is neither chunked nor multipart. */
  ghost predicate Sendable(limit: nat, startLine: string, hs: seq<Header>, content: string) {
    && GoodStartLine(startLine) && GoodHeaders(hs) && limit < NPOS
    && (forall h <- hs :: Acceptable(limit, h))
    && GetHeader(hs, "Transfer-Encoding") != "chunked"
    && !(HasHeader(hs, "Content-Type") && ParseContentType(GetHeader(hs, "Content-Type")).multipart)
    && (if HasHeader(hs, "Content-Length") then StoUl(GetHeader(hs, "Content-Length"), 10) == Some(|content|)
        else content == "")
  }

  function Received(s: State, startLine: string, hs: seq<Header>, content: string): State {
    var t := Knowing(Started(s, startLine), hs).(headerEnded := true);
    Finish(t.(content := content, pending := ""))
  }

  /** A message comes back as it was sent, from any reads, whatever the connection has carried before. */
  lemma MessageRoundTrip(limit: nat, s: State, startLine: string, hs: seq<Header>, content: string,
                         fragments: seq<string>)
    requires Ready(s) && Sendable(limit, startLine, hs, content)
    requires Concat(fragments) == MessageText(startLine, hs, content)
    ensures var end := Received(s, startLine, hs, content);
            && Feed(limit, s, fragments) == Ok(end)
            && end.finished && end.message.headers == hs && end.message.content == content
            && end.message.startLine == startLine && [end.message.verb, end.message.url] == SplitBlanks(startLine)[..2]
  {
    hide HeaderLoop, Feed, Knowing, GoodStartLine, GoodHeaders, Acceptable, StoUl, ParseContentType, Finish;
    var text := MessageText(startLine, hs, content);
    HeadRead(limit, s, startLine, hs, content);
    var h := Knowing(Started(s, startLine), hs).(pending := content, headerEnded := true);
    LengthWithinLimit(limit, s, startLine, hs, content);
    assert "" + text == text;
    FixedCompletes(limit, s, text, h);
    assert h.(content := h.pending, pending := "")
        == Knowing(Started(s, startLine), hs).(headerEnded := true, content := content, pending := "");
    AnyReadsComplete(limit, s, fragments, Received(s, startLine, hs, content));
    ReceivedMessage(s, startLine, hs, content);
  }

  lemma LengthWithinLimit(limit: nat, s: State, startLine: string, hs: seq<Header>, content: string)
    requires Ready(s) && Sendable(limit, startLine, hs, content)
    ensures var h := Knowing(Started(s, startLine), hs).(pending := content, headerEnded := true);
            FixedLength(h) && |h.pending| == (if h.contentLengthParsed then h.contentLength else 0)
  {
    hide StoUl, ParseContentType, FindHeader, IEquals, SplitBlanks;
    var i := FindHeader(hs, "Content-Length");
    if i < |hs| {
      assert Acceptable(limit, hs[i]);
    }
  }

  lemma ReceivedMessage(s: State, startLine: string, hs: seq<Header>, content: string)
    requires Ready(s) && GoodStartLine(startLine)
    ensures var end := Received(s, startLine, hs, content);
            && end.finished && end.message.headers == hs && end.message.content == content
            && end.message.startLine == startLine && [end.message.verb, end.message.url] == SplitBlanks(startLine)[..2]
  {
    hide StoUl, ParseContentType, FindHeader, IEquals, SplitBlanks;
  }

  predicate NoBlanks(s: string) {
    ' ' !in s && '\r' !in s
  }

  /** A request line made of pieces without blanks is split into them again. */
  lemma RequestLineRead(verb: string, t: Target)
    requires NoBlanks(verb) && NoBlanks(t.path) && NoBlanks(t.query)
    ensures GoodStartLine(RequestLine(verb, t))
    ensures SplitBlanks(RequestLine(verb, t))
         == [verb, "/" + t.path + (if t.query != "" then "?" + t.query else ""), "HTTP/1.1"]
  {
    hide SplitBlanks;
    var url := "/" + t.path + (if t.query != "" then "?" + t.query else "");
    assert NoBlanks(url);
    assert NoBlanks("HTTP/1.1");
    SplitThree(verb, url, "HTTP/1.1");
    assert '\r' !in verb + " " + url + " " + "HTTP/1.1";
  }
}
