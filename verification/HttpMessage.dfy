/** Headers, content types, form parts, and the text a request is serialized to. */
module HttpMessage {
  import opened Wrappers
  import opened HttpText
  import Decimal = JsonNumber

  // ----- Headers

  datatype Header = Header(name: string, value: string)

  /** The index of the first header named `key`, ignoring case; the length if there is none. */
  function FindHeader(hs: seq<Header>, key: string): (i: nat)
    ensures i <= |hs| && (i < |hs| ==> IEquals(hs[i].name, key))
    ensures forall k :: 0 <= k < i ==> !IEquals(hs[k].name, key)
  {
    if hs == [] then 0
    else if IEquals(hs[0].name, key) then 0
    else 1 + FindHeader(hs[1..], key)
  }

  function SetHeader(hs: seq<Header>, name: string, value: string): seq<Header> {
    var i := FindHeader(hs, name);
    if i < |hs| then hs[i := hs[i].(value := value)] else hs + [Header(name, value)]
  }

  function GetHeader(hs: seq<Header>, name: string): string {
    var i := FindHeader(hs, name);
    if i < |hs| then hs[i].value else ""
  }

  function HasHeader(hs: seq<Header>, name: string): bool {
    FindHeader(hs, name) < |hs|
  }

  class Headers {
    var data: seq<Header>

    constructor ()
      ensures data == []
    {
      data := [];
    }

    method Find(key: string) returns (i: nat)
      ensures i == FindHeader(data, key)
    {
      i := 0;
      while i < |data|
        invariant i <= |data|
        invariant forall k :: 0 <= k < i ==> !IEquals(data[k].name, key)
      {
        if IEquals(data[i].name, key) {
          break;
        }
        i := i + 1;
      }
    }

    method Set(key: string, value: string)
      modifies this
      ensures data == SetHeader(old(data), key, value)
    {
      var i := Find(key);
      if i != |data| {
        data := data[i := data[i].(value := value)];
      } else {
        data := data + [Header(key, value)];
      }
    }

    method Get(key: string) returns (value: string, existed: bool)
      ensures value == GetHeader(data, key) && existed == HasHeader(data, key)
    {
      var i := Find(key);
      existed := i != |data|;
      value := if existed then data[i].value else "";
    }
  }

  /** No two headers have the same name; this is what `Set` keeps. */
  ghost predicate DistinctNames(hs: seq<Header>) {
    forall i, j :: 0 <= i < j < |hs| ==> !IEquals(hs[i].name, hs[j].name)
  }

  lemma SetKeepsDistinct(hs: seq<Header>, name: string, value: string)
    requires DistinctNames(hs)
    ensures DistinctNames(SetHeader(hs, name, value))
    ensures GetHeader(SetHeader(hs, name, value), name) == value
  {
    FindIs(SetHeader(hs, name, value), name, FindHeader(hs, name));
  }

  lemma SameNameAs(a: string, b: string, c: string)
    requires IEquals(a, b)
    ensures IEquals(a, c) <==> IEquals(b, c)
  {
    if IEquals(a, c) {
      forall k | 0 <= k < |b| ensures Lower(b[k]) == Lower(c[k]) {
        assert Lower(a[k]) == Lower(b[k]);
      }
    }
  }

  /** Setting a header leaves every header with another name as it was. */
  lemma SetKeepsOthers(hs: seq<Header>, name: string, value: string, other: string)
    requires !IEquals(name, other)
    ensures GetHeader(SetHeader(hs, name, value), other) == GetHeader(hs, other)
    ensures HasHeader(SetHeader(hs, name, value), other) == HasHeader(hs, other)
  {
    var i, j, after := FindHeader(hs, name), FindHeader(hs, other), SetHeader(hs, name, value);
    if i < |hs| {
      SameNameAs(hs[i].name, name, other);
    }
    FindIs(after, other, if j < |hs| then j else |after|);
  }

  lemma FindIs(hs: seq<Header>, key: string, i: nat)
    requires i <= |hs| && (i < |hs| ==> IEquals(hs[i].name, key))
    requires forall k :: 0 <= k < i ==> !IEquals(hs[k].name, key)
    ensures FindHeader(hs, key) == i
  {
  }

  // ----- Content-Type and Content-Disposition

  datatype ContentType = ContentType(mediaType: string, additional: string, multipart: bool) {
    predicate Valid() {
      mediaType != "" && (multipart ==> additional != "")
    }
  }

  const NO_CONTENT_TYPE: ContentType := ContentType("", "", false)

  /** The value after `key=`; empty if the text is something else. */
  function ValueFor(s: string, key: string): string {
    match Split2(s, '=')
    case None => ""
    case Some((k, v)) => v
  }

  function ParseContentType(str: string): ContentType {
    var pos := FindChar(str, ';');
    var mediaType := Trim(if pos.Some? then str[..pos.value] else str);
    var other := Trim(if pos.Some? then str[pos.value + 1..] else "");
    ContentType(mediaType, ValueFor(other, if mediaType == "multipart/form-data" then "boundary" else "charset"),
                mediaType == "multipart/form-data")
  }

  function TrimQuotes(s: string): string {
    if s != "" && s[0] == '\"' then TrimQuotes(s[1..])
    else if s != "" && s[|s| - 1] == '\"' then TrimQuotes(s[..|s| - 1])
    else s
  }

  /** Name and file name of a part. */
  datatype Disposition = Disposition(name: string, fileName: string)

  function ParseFields(fields: seq<string>, d: Disposition): Option<Disposition> {
    if fields == [] then Some(d)
    else match Split2(fields[0], '=')
      case None => None
      case Some((key, value)) =>
        ParseFields(fields[1..],
                    if key == "name" then d.(name := TrimQuotes(value))
                    else if key == "filename" then d.(fileName := TrimQuotes(value)) else d)
  }

  function ParseDisposition(str: string): Option<Disposition> {
    var parts := Split(str, ';');
    if parts[0] != "form-data" then None else ParseFields(parts[1..], Disposition("", ""))
  }

  method InitDisposition(str: string) returns (valid: bool, d: Disposition)
    ensures if valid then ParseDisposition(str) == Some(d) else ParseDisposition(str) == None
  {
    d := Disposition("", "");
    var parts := Split(str, ';');
    if parts[0] != "form-data" {
      return false, d;
    }
    for i := 1 to |parts|
      invariant ParseFields(parts[1..], Disposition("", "")) == ParseFields(parts[i..], d)
    {
      var ok, key, value := Split2Parts(parts[i], '=');
      if !ok {
        return false, d;
      }
      assert parts[i..][1..] == parts[i + 1..];
      if key == "name" {
        d := d.(name := TrimQuotes(value));
      } else if key == "filename" {
        d := d.(fileName := TrimQuotes(value));
      }
    }
    return true, d;
  }

  // ----- Serialized text

  datatype FormPart = FormPart(name: string, fileName: string, mediaType: string, data: string)

  function DispositionText(p: FormPart): string {
    "form-data"
    + (if p.name != "" then "; name=\"" + p.name + "\"" else "")
    + (if p.fileName != "" then "; filename=\"" + p.fileName + "\"" else "")
  }

  function PartHeaders(p: FormPart): seq<Header> {
    [Header("Content-Disposition", DispositionText(p))]
    + if p.mediaType != "" then [Header("Content-Type", p.mediaType)] else []
  }

  function HeaderLine(h: Header): string {
    h.name + ": " + h.value
  }

  function HeadersText(hs: seq<Header>): string {
    if hs == [] then "" else HeaderLine(hs[0]) + CRLF + HeadersText(hs[1..])
  }

  function PartText(boundary: string, p: FormPart): string {
    "--" + boundary + CRLF + (HeadersText(PartHeaders(p)) + (CRLF + (p.data + CRLF)))
  }

  function PartsText(boundary: string, parts: seq<FormPart>): string {
    if parts == [] then "--" + boundary + "--" + CRLF
    else PartText(boundary, parts[0]) + PartsText(boundary, parts[1..])
  }

  /** A whole message: start line, headers, empty line, content. */
  function MessageText(startLine: string, hs: seq<Header>, content: string): string {
    startLine + CRLF + (HeadersText(hs) + (CRLF + content))
  }

  function Concat(payload: seq<string>): string {
    if payload == [] then "" else payload[0] + Concat(payload[1..])
  }

  function TotalSize(payload: seq<string>): nat {
    if payload == [] then 0 else |payload[0]| + TotalSize(payload[1..])
  }

  lemma {:induction false} ConcatAppend(a: seq<string>, b: seq<string>)
    ensures Concat(a + b) == Concat(a) + Concat(b)
  {
    if a == [] {
      assert a + b == b;
    } else {
      ConcatAppend(a[1..], b);
      assert (a + b)[1..] == a[1..] + b;
    }
  }

  lemma {:induction false} SizeOfConcat(payload: seq<string>)
    ensures |Concat(payload)| == TotalSize(payload)
  {
    if payload != [] {
      SizeOfConcat(payload[1..]);
    }
  }

  /** The headers a multipart request ends up with. */
  function MultipartHeaders(hs: seq<Header>, boundary: string, length: nat): seq<Header> {
    SetHeader(SetHeader(hs, "Content-Type", "multipart/form-data; boundary=" + boundary),
              "Content-Length", Decimal.Digits(length))
  }

  /** Where a request goes. */
  datatype Target = Target(host: string, port: string, path: string, query: string)

  function RequestLine(verb: string, t: Target): string {
    verb + " " + ("/" + t.path + (if t.query != "" then "?" + t.query else "")) + " " + "HTTP/1.1"
  }

  function HostText(t: Target): string {
    if t.port == "" then t.host else t.host + ":" + t.port
  }

  /** The serializer: the payload is a list of buffers whose concatenation goes on the wire. */
  class Request {
    var verb: string
    var target: Target
    var startLine: string
    var headers: seq<Header>
    var content: string
    var formParts: seq<FormPart>
    var boundary: string
    var contentLength: nat
    var payload: seq<string>

    constructor (verb: string, target: Target, headers: seq<Header>, content: string, formParts: seq<FormPart>)
      ensures this.verb == verb && this.target == target && startLine == ""
      ensures this.headers == headers && this.content == content
      ensures this.formParts == formParts && boundary == "" && payload == []
    {
      this.verb, this.target, startLine := verb, target, "";
      this.headers, this.content, this.formParts := headers, content, formParts;
      boundary, contentLength, payload := "", NPOS, [];
    }

    /** A request without a host cannot be sent. */
    method CreateStartLine() returns (thrown: bool)
      modifies this`startLine
      ensures thrown <==> old(startLine) == "" && target.host == ""
      ensures startLine == if old(startLine) == "" && !thrown then RequestLine(verb, target) else old(startLine)
    {
      if startLine != "" {
        return false;
      }
      if target.host == "" {
        return true;
      }
      var path := "/" + target.path;
      if target.query != "" {
        path := path + "?";
        path := path + target.query;
      }
      startLine := verb;
      startLine := startLine + " ";
      startLine := startLine + path;
      startLine := startLine + " HTTP/1.1";
      StartLinePieces(verb, target, path);
      return false;
    }

    method PrepareHeaders()
      modifies this`payload
      ensures Concat(payload) == MessageText(startLine, headers, content)
    {
      payload := [startLine, CRLF];
      FourPieces(startLine, CRLF, "", "");
      payload := PushHeaders(payload, headers);
      ghost var before, tail := payload, [CRLF] + if content != "" then [content] else [];
      payload := payload + [CRLF];
      if content != "" {
        payload := payload + [content];
      }
      assert payload == before + tail;
      ConcatAppend(before, tail);
      OptionalPiece(content, []);
      assert tail == [CRLF] + (if content != "" then [content] else []) + [];
      ThreeStrings(startLine + CRLF, HeadersText(headers), CRLF + content);
    }

    /** `uuid` is the random boundary used when there is none yet. */
    method Prepare(uuid: string) returns (thrown: bool)
      modifies this
      ensures thrown <==> old(startLine) == "" && old(target).host == ""
      ensures content == old(content) && formParts == old(formParts) && target == old(target) && verb == old(verb)
      ensures !thrown ==> startLine == if old(startLine) == "" then RequestLine(verb, target) else old(startLine)
      ensures !thrown && formParts == [] ==>
                && headers == SetHeader(old(headers), "Host", HostText(target))
                && Concat(payload) == MessageText(startLine, headers, content)
      ensures !thrown && formParts != [] ==>
                && boundary == (if old(boundary) == "" then uuid else old(boundary))
                && headers == MultipartHeaders(SetHeader(old(headers), "Host", HostText(target)), boundary,
                                               |PartsText(boundary, formParts)|)
                && Concat(payload) == MessageText(startLine, headers, content) + PartsText(boundary, formParts)
    {
      thrown := CreateStartLine();
      if thrown {
        return;
      }
      if target.port == "" {
        headers := SetHeader(headers, "Host", target.host);
      } else {
        headers := SetHeader(headers, "Host", target.host + ":" + target.port);
      }
      if formParts == [] {
        PrepareHeaders();
      } else {
        PrepareMultipart(uuid);
      }
    }

    method PrepareMultipart(uuid: string)
      modifies this`boundary, this`headers, this`contentLength, this`payload
      ensures boundary == (if old(boundary) == "" then uuid else old(boundary))
      ensures headers == MultipartHeaders(old(headers), boundary, |PartsText(boundary, formParts)|)
      ensures Concat(payload) == MessageText(startLine, headers, content) + PartsText(boundary, formParts)
    {
      hide Concat, TotalSize, MessageText, PartsText, SetHeader;
      if boundary == "" {
        boundary := uuid;
      }
      headers := SetHeader(headers, "Content-Type", "multipart/form-data; boundary=" + boundary);
      var dataPayload := PrepareParts();
      var length := SizeOf(dataPayload);
      SizeOfConcat(dataPayload);
      contentLength := length;
      headers := SetHeader(headers, "Content-Length", Decimal.Digits(length));
      PrepareHeaders();
      ConcatAppend(payload, dataPayload);
      payload := payload + dataPayload;
    }

    /** The buffers of all parts and of the end line. */
    method PrepareParts() returns (dataPayload: seq<string>)
      ensures Concat(dataPayload) == PartsText(boundary, formParts)
    {
      dataPayload := [];
      assert formParts[0..] == formParts;
      for i := 0 to |formParts|
        invariant Concat(dataPayload) + PartsText(boundary, formParts[i..]) == PartsText(boundary, formParts)
      {
        ghost var before := dataPayload;
        assert formParts[i..][1..] == formParts[i + 1..];
        var pieces := PreparePart(formParts[i]);
        dataPayload := dataPayload + pieces;
        ConcatAppend(before, pieces);
        ThreeStrings(Concat(before), PartText(boundary, formParts[i]), PartsText(boundary, formParts[i + 1..]));
      }
      assert formParts[|formParts|..] == [];
      ghost var before := dataPayload;
      dataPayload := dataPayload + ["--", boundary, "--", CRLF];
      ConcatAppend(before, ["--", boundary, "--", CRLF]);
      FourPieces("--", boundary, "--", CRLF);
    }

    /** The buffers of one part: boundary line, headers, data. */
    method PreparePart(part: FormPart) returns (pieces: seq<string>)
      ensures Concat(pieces) == PartText(boundary, part)
    {
      hide PartHeaders;
      pieces := ["--", boundary, CRLF];
      ghost var head := "--" + boundary + CRLF;
      FourPieces("--", boundary, CRLF, "");
      pieces := PushHeaders(pieces, PartHeaders(part));
      ghost var before, tail := pieces, [CRLF] + (if part.data != "" then [part.data] else []) + [CRLF];
      pieces := pieces + [CRLF];
      if part.data != "" {
        pieces := pieces + [part.data];
      }
      pieces := pieces + [CRLF];
      assert pieces == before + tail;
      ConcatAppend(before, tail);
      OptionalPiece(part.data, [CRLF]);
      ThreeStrings(head, HeadersText(PartHeaders(part)), CRLF + (part.data + CRLF));
    }
  }

  lemma StartLinePieces(verb: string, t: Target, path: string)
    requires path == "/" + t.path + (if t.query != "" then "?" + t.query else "")
    ensures verb + " " + path + " HTTP/1.1" == RequestLine(verb, t)
  {
    assert " " + "HTTP/1.1" == " HTTP/1.1";
  }

  /** The loop that serializes headers, for a message as for a part. */
  method PushHeaders(payload: seq<string>, hs: seq<Header>) returns (result: seq<string>)
    ensures Concat(result) == Concat(payload) + HeadersText(hs)
  {
    result := payload;
    assert hs[0..] == hs;
    for i := 0 to |hs|
      invariant Concat(result) + HeadersText(hs[i..]) == Concat(payload) + HeadersText(hs)
    {
      ghost var before := result;
      assert hs[i..][1..] == hs[i + 1..];
      var h := hs[i];
      result := result + [h.name, ": ", h.value, CRLF];
      ConcatAppend(before, [h.name, ": ", h.value, CRLF]);
      FourPieces(h.name, ": ", h.value, CRLF);
      ThreeStrings(Concat(before), HeaderLine(h) + CRLF, HeadersText(hs[i + 1..]));
    }
    assert hs[|hs|..] == [] && Concat(result) + "" == Concat(result);
  }

  method SizeOf(payload: seq<string>) returns (length: nat)
    ensures length == TotalSize(payload)
  {
    length := 0;
    assert payload[0..] == payload;
    for i := 0 to |payload|
      invariant length + TotalSize(payload[i..]) == TotalSize(payload)
    {
      assert payload[i..][1..] == payload[i + 1..];
      length := length + |payload[i]|;
    }
  }

  lemma ThreeStrings(a: string, b: string, c: string)
    ensures a + b + c == a + (b + c)
  {
  }

  /** An empty buffer is left out of the payload; the text is the same. */
  lemma OptionalPiece(text: string, rest: seq<string>)
    ensures Concat([CRLF] + (if text != "" then [text] else []) + rest) == CRLF + (text + Concat(rest))
    ensures rest == [] ==> text + Concat(rest) == text
    ensures Concat([CRLF]) == CRLF
  {
    var middle := if text != "" then [text] else [];
    FourPieces(CRLF, "", "", "");
    assert [CRLF] + middle + rest == [CRLF] + (middle + rest);
    ConcatAppend([CRLF], middle + rest);
    ConcatAppend(middle, rest);
    if text != "" {
      assert [text][1..] == [];
    }
  }

  lemma OnePiece(a: string)
    ensures Concat([a]) == a
  {
    assert [a][1..] == [] && a + "" == a;
  }

  lemma FourPieces(a: string, b: string, c: string, d: string)
    ensures Concat([a, b, c, d]) == a + b + c + d
    ensures Concat([a, b, c]) == a + b + c
    ensures Concat([a, b]) == a + b && Concat([a]) == a
  {
    hide Concat;
    OnePiece(a);
    OnePiece(b);
    OnePiece(c);
    OnePiece(d);
    ConcatAppend([a], [b]);
    assert [a] + [b] == [a, b];
    ConcatAppend([a, b], [c]);
    assert [a, b] + [c] == [a, b, c];
    ConcatAppend([a, b, c], [d]);
    assert [a, b, c] + [d] == [a, b, c, d];
  }
}
