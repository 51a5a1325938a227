/** Multipart requests: exactly which parts come back from the server's parser as they were sent. */
module HttpMultipart {
  import opened Wrappers
  import opened HttpText
  import opened HttpMessage
  import opened HttpParsing
  import opened HttpRoundTrip

  // ----- Part headers

  predicate GoodName(n: string) {
    ';' !in n && NoCRLF(n) && (n != "" ==> n[0] != '\"' && n[|n| - 1] != '\"')
  }

  predicate GoodPart(p: FormPart) {
    GoodName(p.name) && GoodName(p.fileName) && NoCRLF(p.mediaType)
  }

  function Served(p: FormPart): Part {
    Part(p.name, p.fileName, p.data)
  }

  lemma SplitFirst(a: string, rest: string)
    requires ';' !in a
    ensures Split(a + ";" + rest, ';') == [a] + Split(rest, ';')
    ensures Split(a, ';') == [a]
  {
    hide FindChar;
    FindCharAfter(a, ';', rest);
    var s := a + [';'] + rest;
    assert s == a + ";" + rest && s[..|a|] == a && s[|a| + 1..] == rest;
  }

  /** A quoted field of a part's Content-Disposition. */
  function Field(key: string, value: string): string {
    " " + key + "=\"" + value + "\""
  }

  lemma FieldRead(key: string, value: string)
    requires key == "name" || key == "filename"
    requires GoodName(value)
    ensures Split2(Field(key, value), '=') == Some((key, "\"" + value + "\""))
            && TrimQuotes("\"" + value + "\"") == value
    ensures ';' !in Field(key, value)
  {
    hide Split2, TrimQuotes;
    FieldSplits(key, value);
    Unquoted(value);
  }

  lemma FieldSplits(key: string, value: string)
    requires '=' !in key && key != "" && Trimmed(key)
    ensures Split2(Field(key, value), '=') == Some((key, "\"" + value + "\""))
  {
    hide Trim, FindChar;
    var s, quoted := Field(key, value), "\"" + value + "\"";
    assert s == (" " + key) + ['='] + quoted;
    FindCharAfter(" " + key, '=', quoted);
    assert s[..|key| + 1] == " " + key && s[|key| + 2..] == quoted;
    TrimSpaceBefore(key);
    TrimSpaceBefore(quoted);
  }

  lemma TrimFirst(s: string)
    requires s != "" && s[0] == '\"'
    ensures TrimQuotes(s) == TrimQuotes(s[1..])
  {
  }

  lemma Unquoted(value: string)
    requires GoodName(value)
    ensures TrimQuotes("\"" + value + "\"") == value
  {
    hide FindCRLF;
    var behind := value + "\"";
    assert ("\"" + value + "\"")[1..] == behind;
    TrimFirst("\"" + value + "\"");
    if value == "" {
      TrimFirst(behind);
      assert behind[1..] == "";
    } else {
      assert behind[0] == value[0] && behind[..|value|] == value;
      assert TrimQuotes(behind) == TrimQuotes(value) == value;
    }
  }

  lemma {:induction false} FieldsRead(fields: seq<string>, key: string, value: string, d: Disposition)
    requires (key == "name" || key == "filename") && GoodName(value)
    ensures ParseFields([Field(key, value)] + fields, d)
         == ParseFields(fields, if key == "name" then d.(name := value) else d.(fileName := value))
  {
    hide Split2, Field, TrimQuotes;
    FieldRead(key, value);
    var all := [Field(key, value)] + fields;
    assert all[0] == Field(key, value) && all[1..] == fields;
  }

  lemma DispositionRead(p: FormPart)
    requires GoodName(p.name) && GoodName(p.fileName)
    ensures ParseDisposition(DispositionText(p)) == Some(Disposition(p.name, p.fileName))
  {
    hide Field, Split, ParseFields;
    var n, f := Field("name", p.name), Field("filename", p.fileName);
    var names := (if p.name != "" then [n] else []) + (if p.fileName != "" then [f] else []);
    FieldRead("name", p.name);
    FieldRead("filename", p.fileName);
    DispositionSplit(p);
    var d := Disposition("", "");
    NoFields(Disposition(p.name, p.fileName));
    if p.fileName != "" {
      FieldsRead([], "filename", p.fileName, Disposition(p.name, ""));
      assert [f] + [] == [f];
    }
    if p.name != "" {
      FieldsRead(if p.fileName != "" then [f] else [], "name", p.name, d);
      assert names == [n] + if p.fileName != "" then [f] else [];
    } else {
      assert names == if p.fileName != "" then [f] else [];
    }
    assert (["form-data"] + names)[1..] == names;
  }

  lemma NoFields(d: Disposition)
    ensures ParseFields([], d) == Some(d)
  {
  }

  lemma DispositionSplit(p: FormPart)
    requires ';' !in Field("name", p.name) && ';' !in Field("filename", p.fileName)
    ensures Split(DispositionText(p), ';')
         == ["form-data"] + ((if p.name != "" then [Field("name", p.name)] else [])
                             + (if p.fileName != "" then [Field("filename", p.fileName)] else []))
  {
    hide Split;
    var n, f := Field("name", p.name), Field("filename", p.fileName);
    var fileText := if p.fileName != "" then ";" + f else "";
    assert (if p.fileName != "" then "; filename=\"" + p.fileName + "\"" else "") == fileText;
    assert p.name != "" ==> "; name=\"" + p.name + "\"" == ";" + n;
    SplitFirst("form-data", f);
    SplitFirst("form-data", n + fileText);
    SplitFirst(n, f);
    SplitFirst(f, "");
    if p.name != "" {
      assert DispositionText(p) == "form-data" + ";" + (n + fileText);
      if p.fileName != "" {
        assert n + fileText == n + ";" + f;
      } else {
        assert n + fileText == n;
      }
    } else if p.fileName != "" {
      assert DispositionText(p) == "form-data" + ";" + f;
    } else {
      assert DispositionText(p) == "form-data";
    }
  }

  lemma NoReturn(s: string)
    requires '\r' !in s
    ensures NoCRLF(s)
  {
  }

  /** A name in quotes, with something before it. */
  lemma QuotedIsPlain(before: string, value: string)
    requires NoCRLF(before) && NoCRLF(value) && before != "" && before[|before| - 1] == '\"'
    ensures NoCRLF(before + value + "\"")
  {
    NoReturn("\"");
    NoCrlfConcat(before, value);
    NoCrlfConcat(before + value, "\"");
  }

  lemma DispositionIsPlain(p: FormPart)
    requires GoodName(p.name) && GoodName(p.fileName)
    ensures Plain(Header("Content-Disposition", DispositionText(p)))
  {
    hide FindCRLF, NoCRLF, GoodName, HeaderLine, DispositionText;
    var start := "Content-Disposition: form-data";
    NoReturn(start);
    NamesHaveNoCrlf(p);
    MaybeField(start, "; name=\"", p.name);
    var line := WithField(start, "; name=\"", p.name);
    MaybeField(line, "; filename=\"", p.fileName);
    DispositionLine(p);
    DispositionIsTrimmed(p);
  }

  /** A quoted field is added only for a value that is not empty. */
  function WithField(line: string, start: string, value: string): string {
    if value != "" then line + start + value + "\"" else line
  }

  lemma MaybeField(line: string, start: string, value: string)
    requires NoCRLF(line) && NoCRLF(value) && '\r' !in start && '\n' !in start && start != ""
             && start[|start| - 1] == '\"'
    ensures NoCRLF(WithField(line, start, value))
  {
    hide FindCRLF;
    NoReturn(start);
    NoCrlfConcat(line, start);
    QuotedIsPlain(line + start, value);
  }

  lemma NamesHaveNoCrlf(p: FormPart)
    requires GoodName(p.name) && GoodName(p.fileName)
    ensures NoCRLF(p.name) && NoCRLF(p.fileName)
  {
  }

  lemma DispositionLine(p: FormPart)
    ensures HeaderLine(Header("Content-Disposition", DispositionText(p)))
         == WithField(WithField("Content-Disposition: form-data", "; name=\"", p.name), "; filename=\"", p.fileName)
    ensures ':' !in "Content-Disposition" && Trimmed("Content-Disposition")
  {
    assert "Content-Disposition" + ": " + "form-data" == "Content-Disposition: form-data";
  }

  lemma DispositionIsTrimmed(p: FormPart)
    ensures Trimmed(DispositionText(p))
  {
    var s := DispositionText(p);
    assert s[0] == 'f' && (s[|s| - 1] == 'a' || s[|s| - 1] == '\"');
  }

  /** The headers of a part give it back its names; its media type is not kept. */
  lemma PartHeadersRead(p: FormPart, content: string)
    requires GoodPart(p)
    ensures PartHeaderLoop(HeadersText(PartHeaders(p)) + (CRLF + content), EMPTY_PART)
         == PartHeaded(Part(p.name, p.fileName, ""), content)
  {
    hide PartHeaderLoop, PartHeader, HeaderLine, ParseDisposition, DispositionText, FindCRLF, Split2;
    var named := Part(p.name, p.fileName, "");
    var h := Header("Content-Disposition", DispositionText(p));
    var after := CRLF + content;
    var t := Header("Content-Type", p.mediaType);
    DispositionIsPlain(p);
    PlainLine(h);
    HeaderLineSplits(h);
    DispositionRead(p);
    NamesRead(p);
    EndOfPartHeaders(named, content);
    if p.mediaType == "" {
      assert HeadersText(PartHeaders(p)) == HeaderLine(h) + CRLF + "";
      assert HeadersText(PartHeaders(p)) + after == HeaderLine(h) + CRLF + after;
      OnePartHeader(HeaderLine(h), after, EMPTY_PART, named);
    } else {
      MediaTypeRead(p.mediaType, named);
      var rest := HeaderLine(t) + CRLF + after;
      assert PartHeaders(p) == [h, t];
      TwoHeaders(h, t);
      assert HeadersText([h, t]) + after == HeaderLine(h) + CRLF + rest;
      OnePartHeader(HeaderLine(h), rest, EMPTY_PART, named);
      OnePartHeader(HeaderLine(t), after, named, named);
    }
  }

  lemma TwoHeaders(h: Header, t: Header)
    ensures HeadersText([h, t]) == HeaderLine(h) + CRLF + (HeaderLine(t) + CRLF)
  {
    hide HeaderLine;
    assert [h, t][1..] == [t] && [t][1..] == [];
    assert HeadersText([t]) == HeaderLine(t) + CRLF + "";
  }

  lemma OnePartHeader(line: string, rest: string, part: Part, next: Part)
    requires line != "" && NoCRLF(line) && PartHeader(line, part) == Some(next)
    ensures PartHeaderLoop(line + CRLF + rest, part) == PartHeaderLoop(rest, next)
  {
    hide PartHeader;
    LineFound(line, rest);
  }

  lemma EndOfPartHeaders(part: Part, content: string)
    ensures PartHeaderLoop(CRLF + content, part) == PartHeaded(part, content)
  {
    NoCrlfEmpty();
    LineFound("", content);
    assert "" + CRLF + content == CRLF + content;
  }

  lemma NamesRead(p: FormPart)
    requires Plain(Header("Content-Disposition", DispositionText(p))) && GoodName(p.name) && GoodName(p.fileName)
    ensures PartHeader(HeaderLine(Header("Content-Disposition", DispositionText(p))), EMPTY_PART)
         == Some(Part(p.name, p.fileName, ""))
  {
    hide Split2, ParseDisposition, DispositionText, HeaderLine;
    HeaderLineSplits(Header("Content-Disposition", DispositionText(p)));
    DispositionRead(p);
  }

  lemma MediaTypeRead(mediaType: string, part: Part)
    requires NoCRLF(mediaType)
    ensures var line := HeaderLine(Header("Content-Type", mediaType));
            line != "" && NoCRLF(line) && PartHeader(line, part) == Some(part)
  {
    hide Trim, ParseDisposition, FindCRLF, FindChar, TrimLeft, TrimRight;
    var line := HeaderLine(Header("Content-Type", mediaType));
    NoReturn("Content-Type: ");
    NoCrlfConcat("Content-Type: ", mediaType);
    assert line == "Content-Type: " + mediaType;
    FindCharAfter("Content-Type", ':', " " + mediaType);
    assert line == "Content-Type" + [':'] + (" " + mediaType);
    assert line[..12] == "Content-Type";
    TrimSpaceBefore("Content-Type");
  }

  // ----- Data and boundaries

  /** The pieces of `data` between its CRLFs. */
  function DataLines(data: string): seq<string>
    decreases |data|
  {
    match FindCRLF(data, 0)
    case None => [data]
    case Some(p) => [data[..p]] + DataLines(data[p + 2..])
  }

  ghost predicate NoBoundaryIn(data: string, boundary: string) {
    forall line <- DataLines(data) :: !IsBoundary(line, boundary)
  }

  ghost predicate NoEndMarkIn(data: string, boundary: string) {
    forall line <- DataLines(data) :: !MarksEnd(line, boundary)
  }

  /** A boundary line, with more text behind, looked for from `off`, where `data` begins. */
  ghost predicate BoundaryAfter(text: string, off: nat, data: string, boundary: string, line: string, rest: string) {
    && off <= |text| && text[off..] == data + CRLF + (line + CRLF + rest)
    && NoCRLF(line) && IsBoundary(line, boundary)
  }

  lemma NextLine(text: string, off: nat, line: string, rest: string)
    requires off <= |text| && text[off..] == line + CRLF + rest && NoCRLF(line)
    ensures FindCRLF(text, off) == Some(off + |line|) && text[off..off + |line|] == line
            && text[off + |line| + 2..] == rest
  {
    hide FindCRLF;
    FindFrom(text, off);
    LineFound(line, rest);
    var tail := text[off..];
    assert text[off..off + |line|] == tail[..|line|] && text[off + |line| + 2..] == tail[|line| + 2..];
  }

  /** The boundary line that was written is found unless a line of the data passes for one. */
  lemma {:induction false} BoundaryFound(text: string, off: nat, data: string, boundary: string, line: string,
                                         rest: string, ended: bool)
    requires BoundaryAfter(text, off, data, boundary, line, rest)
    ensures var r := NextBoundary(text, off, boundary, ended);
            if NoBoundaryIn(data, boundary)
            then r == Found(off + |data| + 2, |line|, ended || !NoEndMarkIn(data, boundary) || MarksEnd(line, boundary))
            else r.Found? && r.off <= off + |data|
    decreases |data|
  {
    hide FindCRLF, IsBoundary, MarksEnd, NextBoundary, NoBoundaryIn, NoEndMarkIn;
    var p := FindCRLF(data, 0);
    if p == None {
      LastDataLine(text, off, data, boundary, line, rest, ended);
    } else {
      var first, more := data[..p.value], data[p.value + 2..];
      FirstDataLine(data);
      FirstIsLine(data);
      var tail := line + CRLF + rest;
      assert text[off..] == first + CRLF + (more + CRLF + tail);
      NextLine(text, off, first, more + CRLF + tail);
      SplitDataLines(data, boundary);
      StepBoundary(text, off, first, boundary, ended);
      if !IsBoundary(first, boundary) {
        BoundaryFound(text, off + |first| + 2, more, boundary, line, rest, ended || MarksEnd(first, boundary));
      }
    }
  }

  lemma LastDataLine(text: string, off: nat, data: string, boundary: string, line: string, rest: string, ended: bool)
    requires BoundaryAfter(text, off, data, boundary, line, rest) && FindCRLF(data, 0) == None
    ensures var r := NextBoundary(text, off, boundary, ended);
            if NoBoundaryIn(data, boundary)
            then r == Found(off + |data| + 2, |line|, ended || !NoEndMarkIn(data, boundary) || MarksEnd(line, boundary))
            else r.Found? && r.off <= off + |data|
  {
    hide FindCRLF, IsBoundary, MarksEnd, NextBoundary;
    NextLine(text, off, data, line + CRLF + rest);
    NextLine(text, off + |data| + 2, line, rest);
    DataLinesOf(data);
    OneDataLine(text, off, data, boundary, line, ended);
  }

  /** One turn of the search, at a line that has been found. */
  lemma StepBoundary(text: string, off: nat, line: string, boundary: string, ended: bool)
    requires off <= |text| && FindCRLF(text, off) == Some(off + |line|) && text[off..off + |line|] == line
    ensures NextBoundary(text, off, boundary, ended)
         == if IsBoundary(line, boundary) then Found(off, |line|, ended || MarksEnd(line, boundary))
            else NextBoundary(text, off + |line| + 2, boundary, ended || MarksEnd(line, boundary))
  {
    hide FindCRLF;
    EmptyIsNoBoundary(boundary);
  }

  lemma OneDataLine(text: string, off: nat, data: string, boundary: string, line: string, ended: bool)
    requires off <= |text| && FindCRLF(text, off) == Some(off + |data|) && text[off..off + |data|] == data
    requires FindCRLF(text, off + |data| + 2) == Some(off + |data| + 2 + |line|)
    requires text[off + |data| + 2..off + |data| + 2 + |line|] == line && IsBoundary(line, boundary)
    ensures NextBoundary(text, off, boundary, ended)
         == if IsBoundary(data, boundary) then Found(off, |data|, ended || MarksEnd(data, boundary))
            else Found(off + |data| + 2, |line|, ended || MarksEnd(data, boundary) || MarksEnd(line, boundary))
  {
    hide FindCRLF, NextBoundary, IsBoundary, MarksEnd;
    assert off + |data| + 2 <= |text|;
    StepBoundary(text, off, data, boundary, ended);
    StepBoundary(text, off + |data| + 2, line, boundary, ended || MarksEnd(data, boundary));
  }

  lemma EmptyIsNoBoundary(boundary: string)
    ensures !IsBoundary("", boundary) && !MarksEnd("", boundary)
  {
  }

  lemma DataLinesOf(data: string)
    requires FindCRLF(data, 0) == None
    ensures DataLines(data) == [data]
  {
  }

  lemma FirstDataLine(data: string)
    requires FindCRLF(data, 0).Some?
    ensures var p := FindCRLF(data, 0).value; data == data[..p] + CRLF + data[p + 2..]
  {
  }

  lemma FirstIsLine(data: string)
    requires FindCRLF(data, 0).Some?
    ensures NoCRLF(data[..FindCRLF(data, 0).value])
  {
    var p := FindCRLF(data, 0).value;
    forall i | 0 <= i < p ensures !CrlfAt(data[..p], i) {
      assert !CrlfAt(data, i);
    }
  }

  lemma SplitDataLines(data: string, boundary: string)
    requires FindCRLF(data, 0).Some?
    ensures var p := FindCRLF(data, 0).value;
            && (NoBoundaryIn(data, boundary) <==>
                !IsBoundary(data[..p], boundary) && NoBoundaryIn(data[p + 2..], boundary))
            && (NoEndMarkIn(data, boundary) <==> !MarksEnd(data[..p], boundary) && NoEndMarkIn(data[p + 2..], boundary))
  {
    hide FindCRLF, IsBoundary, MarksEnd;
    var p := FindCRLF(data, 0).value;
    var first, more := data[..p], DataLines(data[p + 2..]);
    assert DataLines(data) == [first] + more;
    assert forall line :: line in [first] + more <==> line == first || line in more;
  }

  lemma {:induction false} SameAsItself(a: string)
    ensures SameUpToNul(a, a)
  {
    if a != "" {
      SameAsItself(a[1..]);
    }
  }

  /** The boundary lines that the serializer writes. */
  lemma WrittenBoundaries(boundary: string)
    requires NoCRLF(boundary)
    ensures var line, end := "--" + boundary, "--" + boundary + "--";
            && NoCRLF(line) && IsBoundary(line, boundary) && !MarksEnd(line, boundary)
            && NoCRLF(end) && IsBoundary(end, boundary) && MarksEnd(end, boundary)
  {
    hide FindCRLF;
    var line, end := "--" + boundary, "--" + boundary + "--";
    NoReturn("--");
    NoCrlfConcat("--", boundary);
    NoCrlfConcat(line, "--");
    SameAsItself(boundary);
    assert line[2..2 + |boundary|] == boundary && end[2..2 + |boundary|] == boundary;
  }
}
