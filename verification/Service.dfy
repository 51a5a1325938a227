/** The service's own handler: from the content of a request to the content of its response. */
module Service {
  import opened Wrappers
  import opened JsonText
  import opened JsonNumber
  import opened JsonValue
  import opened JsonGrammar
  import opened JsonComments
  import opened JsonThrows
  import opened JsonLayout
  import opened JsonReader
  import opened JsonRoundTrip
  import opened JsonSound
  import opened JsonWriter
  import Base64
  import Messages = HttpMessage
  import Parser = HttpParsing
  import HttpRoundTrip

  /** What the reader's factory sets up by default; the two functions stand for the text of real numbers. */
  function DefaultFeatures(scanDouble: string -> Option<Double>, printDouble: Double -> string): Features {
    Features(true, true, false, false, false, false, false, false, false, 1000, scanDouble, printDouble)
  }

  // ----- Documents

  /** A document that is in error leaves what had been read; one that makes the reader throw leaves nothing. */
  method StringToJson(f: Features, s: string) returns (thrown: bool, json: Value)
    ensures match Parse(f, s, Null)
            case Thrown => thrown
            case Done(_, v, _, _) => !thrown && json == v
  {
    var reader := new OurReader(f);
    json := Null;
    var ok;
    thrown, ok := reader.ParseDocument(s, Null);
    if !thrown {
      json := reader.nodes[0];
    }
  }

  method JsonToString(json: Value) returns (text: string)
    requires Representable(json) && RealFree(json)
    ensures Lays(text, Tokens(json))
  {
    SpacedColon();
    AllSpacesHere();
    var writer := new BuiltStyledStreamWriter("\t", AllComments, " : ", "null", "");
    text := writer.Write(json);
  }

  lemma AllSpacesHere()
    ensures AllSpaces("\t") && AllSpaces("") && AllSpaces(" ")
  {
  }

  lemma SpacedColon()
    ensures Lays(" : ", [":"])
  {
    AllSpacesHere();
    LaysSymbol(":");
    LaysSpaces(" ");
    LaysConcat(" ", [], ":", [":"]);
    LaysConcat(" :", [":"], " ", []);
    assert " " + ":" == " :" && " :" + " " == " : ";
    assert [] + [":"] == [":"] && [":"] + [] == [":"];
  }

  // ----- Images and faces

  /** The image is held as its bytes; decoding it is the detector's business. */
  datatype Image = Image(faceId: string, data: Option<seq<Base64.Byte>>)

  type Int32 = i: int | -0x8000_0000 <= i <= 0x7FFF_FFFF

  datatype Rect = Rect(x: Int32, y: Int32, width: Int32, height: Int32)

  /** `None` is an exception: the value is no object, or its member no text. */
  function Get(json: Value, name: string): Option<Value> {
    match json
    case Null => Some(Null)
    case Obj(members) => Some(Lookup(members, name))
    case _ => None
  }

  function AsString(f: Features, v: Value): Option<string> {
    match v
    case Null => Some("")
    case Str(s) => Some(s)
    case Bool(b) => Some(if b then "true" else "false")
    case Int(i) => Some(IntText(i))
    case UInt(u) => Some(IntText(u))
    case Real(d) => Some(f.printDouble(d))
    case _ => None
  }

  function TextOf(f: Features, json: Value, name: string): Option<string> {
    match Get(json, name)
    case Some(v) => AsString(f, v)
    case None => None
  }

  function JsonToImage(f: Features, json: Value): Option<Image> {
    match TextOf(f, json, "faceId")
    case None => None
    case Some(id) =>
      if Get(json, "imageData") == Some(Null) then Some(Image(id, None))
      else match TextOf(f, json, "imageData")
        case None => None
        case Some(text) => Some(Image(id, Some(Base64.Decode(text))))
  }

  method ReadImage(f: Features, json: Value) returns (image: Option<Image>)
    ensures image == JsonToImage(f, json)
  {
    hide IntText;
    var id := TextOf(f, json, "faceId");
    if id.None? {
      return None;
    }
    if Get(json, "imageData") == Some(Null) {
      return Some(Image(id.value, None));
    }
    var text := TextOf(f, json, "imageData");
    if text.None? {
      return None;
    }
    var data := Base64.DecodeString(text.value);
    return Some(Image(id.value, Some(data)));
  }

  function FaceValue(r: Rect): Value {
    Obj([Member("height", Int(r.height)), Member("width", Int(r.width)), Member("x", Int(r.x)), Member("y", Int(r.y))])
  }

  function FaceValues(faces: seq<Rect>): seq<Value> {
    seq(|faces|, i requires 0 <= i < |faces| => FaceValue(faces[i]))
  }

  function Reply(faceId: string, faces: seq<Rect>): Value {
    Obj([Member("faceId", Str(faceId)), Member("faces", Arr(FaceValues(faces)))])
  }

  /** The members are set in the order width, height, x, y, and stored in the order of their names. */
  method FaceToJson(r: Rect) returns (json: Value)
    ensures json == FaceValue(r)
  {
    NameOrder();
    var members := Store([], "width", Int(r.width));
    members := Store(members, "height", Int(r.height));
    assert members == [Member("height", Int(r.height)), Member("width", Int(r.width))];
    StoreLast(members, "x", Int(r.x));
    members := Store(members, "x", Int(r.x));
    StoreLast(members, "y", Int(r.y));
    members := Store(members, "y", Int(r.y));
    json := Obj(members);
  }

  lemma NameOrder()
    ensures BytesLess("height", "width") && BytesLess("height", "x") && BytesLess("height", "y")
    ensures BytesLess("width", "x") && BytesLess("width", "y") && BytesLess("x", "y")
    ensures BytesLess("faceId", "faces") && BytesLess("faceId", "imageData")
  {
    BytesLessStep("height", "width");
    BytesLessStep("height", "x");
    BytesLessStep("height", "y");
    BytesLessStep("width", "x");
    BytesLessStep("width", "y");
    BytesLessStep("x", "y");
    BytesLessStep("faceId", "imageData");
    BytesLessStep("faceId", "faces");
    assert "faceId"[1..] == "aceId" && "faces"[1..] == "aces";
    BytesLessStep("aceId", "aces");
    assert "aceId"[1..] == "ceId" && "aces"[1..] == "ces";
    BytesLessStep("ceId", "ces");
    assert "ceId"[1..] == "eId" && "ces"[1..] == "es";
    BytesLessStep("eId", "es");
    assert "eId"[1..] == "Id" && "es"[1..] == "s";
    BytesLessStep("Id", "s");
  }

  /** A text that a string value can hold. */
  ghost predicate Holds(s: string) {
    IsBytes(s) && |s| <= MAX_STRING_LENGTH
  }

  ghost predicate GoodName(name: string) {
    IsBytes(name) && WellFormed(name) && |name| < MAX_KEY_LENGTH
  }

  /** An object is as good as its members. */
  lemma ObjectOf(members: seq<Member>)
    requires Sorted(members)
    requires forall k :: 0 <= k < |members| ==>
                           GoodName(members[k].name) && Representable(members[k].value) && RealFree(members[k].value)
    ensures Representable(Obj(members)) && RealFree(Obj(members))
    ensures (forall k :: 0 <= k < |members| ==> Textual(members[k].value)) ==> Textual(Obj(members))
    ensures (forall k :: 0 <= k < |members| ==> Norm(members[k].value) == members[k].value) ==>
             Norm(Obj(members)) == Obj(members)
  {
    hide WellFormed, IsBytes;
    if forall k :: 0 <= k < |members| ==> Norm(members[k].value) == members[k].value {
      assert NormMembers(members, 0) == members;
    }
  }

  lemma NumberIsPlain(i: Int32)
    ensures var v := Int(i); Representable(v) && RealFree(v) && Textual(v) && Norm(v) == v
  {
  }

  lemma FaceIsRepresentable(r: Rect)
    ensures Representable(FaceValue(r)) && RealFree(FaceValue(r)) && Textual(FaceValue(r))
    ensures Norm(FaceValue(r)) == FaceValue(r) && Depth(FaceValue(r)) == 2
  {
    hide Representable, RealFree, Textual, Norm, WellFormed, IsBytes, BytesLess;
    NameOrder();
    var members := FaceValue(r).members;
    Ascii("height");
    Ascii("width");
    Ascii("x");
    Ascii("y");
    NumberIsPlain(r.height);
    NumberIsPlain(r.width);
    NumberIsPlain(r.x);
    NumberIsPlain(r.y);
    ObjectOf(members);
    DepthOfLeaves(members, 0);
  }

  lemma {:induction false} DepthOfLeaves(members: seq<Member>, k: nat)
    requires k <= |members| && forall m <- members :: !m.value.Arr? && !m.value.Obj?
    ensures DepthOfMembers(members, k) == if k == |members| then 0 else 1
    decreases |members| - k
  {
    if k < |members| {
      assert members[k] in members;
      DepthOfLeaves(members, k + 1);
    }
  }

  lemma {:induction false} Ascii(s: string)
    requires forall c <- s :: c as int < 128
    ensures IsBytes(s) && WellFormed(s)
  {
    if s != "" {
      assert s[0] in s && forall c <- s[1..] :: c in s;
      Ascii(s[1..]);
    }
  }

  lemma FacesAreRepresentable(faces: seq<Rect>)
    ensures var v := Arr(FaceValues(faces));
            Representable(v) && RealFree(v) && Textual(v) && Norm(v) == v && Depth(v) <= 3
  {
    hide FaceValue, Representable, RealFree, Textual;
    var items := FaceValues(faces);
    forall k | 0 <= k < |items|
      ensures Representable(items[k]) && RealFree(items[k]) && Textual(items[k]) && Norm(items[k]) == items[k]
              && Depth(items[k]) == 2
    {
      FaceIsRepresentable(faces[k]);
    }
    ArrayOf(items);
    assert NormItems(items, 0) == items;
    DepthOfFaces(items, 0);
  }

  lemma ArrayOf(items: seq<Value>)
    requires forall k :: 0 <= k < |items| ==> Representable(items[k]) && RealFree(items[k]) && Textual(items[k])
    ensures Representable(Arr(items)) && RealFree(Arr(items)) && Textual(Arr(items))
  {
  }

  lemma {:induction false} DepthOfFaces(items: seq<Value>, k: nat)
    requires k <= |items| && forall i :: 0 <= i < |items| ==> Depth(items[i]) == 2
    ensures DepthOfItems(items, k) <= 2
    decreases |items| - k
  {
    hide Depth;
    if k < |items| {
      DepthOfFaces(items, k + 1);
    }
  }

  /** An object of a text and one more member. */
  function Pair(faceId: string, name: string, v: Value): Value {
    Obj([Member("faceId", Str(faceId)), Member(name, v)])
  }

  lemma PairIsRepresentable(faceId: string, name: string, v: Value)
    requires name == "faces" || name == "imageData"
    requires Holds(faceId) && Representable(v) && RealFree(v)
    ensures Representable(Pair(faceId, name, v)) && RealFree(Pair(faceId, name, v))
    ensures WellFormed(faceId) && Textual(v) ==> Readable(Pair(faceId, name, v))
    ensures Norm(v) == v ==> Norm(Pair(faceId, name, v)) == Pair(faceId, name, v)
    ensures Depth(v) <= 3 ==> Depth(Pair(faceId, name, v)) <= 4
  {
    hide Representable, RealFree, Textual, Norm, WellFormed, IsBytes, BytesLess;
    NameOrder();
    Ascii("faceId");
    Ascii("faces");
    Ascii("imageData");
    TextIsPlain(faceId);
    var members := Pair(faceId, name, v).members;
    ObjectOf(members);
    DepthOfTwo(members);
  }

  lemma TextIsPlain(s: string)
    requires Holds(s)
    ensures var v := Str(s); Representable(v) && RealFree(v) && (WellFormed(s) ==> Textual(v)) && Norm(v) == v
  {
  }

  lemma DepthOfTwo(members: seq<Member>)
    requires |members| == 2 && members[0].value.Str?
    ensures DepthOfMembers(members, 0) == Max(1, Depth(members[1].value))
  {
    hide Depth;
    StringDepth(members[0].value);
    assert DepthOfMembers(members, 2) == 0;
    assert DepthOfMembers(members, 1) == Max(Depth(members[1].value), 0);
  }

  lemma StringDepth(v: Value)
    requires v.Str?
    ensures Depth(v) == 1
  {
  }

  // ----- The handler

  /** `Untouched` is an empty request, for which the response stays as it was. */
  datatype Response = Untouched | Exception | BadRequest | Created(content: string)

  lemma ImageIdHolds(f: Features, json: Value)
    requires Representable(json) && PrintsBytes(f)
    ensures JsonToImage(f, json).Some? ==> Holds(JsonToImage(f, json).value.faceId)
  {
    hide IsBytes;
    if json.Obj? {
      LookupRepresentable(json.members, "faceId");
      TextHolds(f, Lookup(json.members, "faceId"));
    } else {
      TextHolds(f, Null);
    }
  }

  lemma LookupRepresentable(members: seq<Member>, name: string)
    requires Representable(Obj(members))
    ensures Representable(Lookup(members, name))
  {
    hide Representable, AsRead;
    AsReadIsRepresentable(false, Obj(members), 0);
    AllAsRead(false, members, 0);
    LookupAsRead(false, members, name, -1);
    AsReadIsRepresentable(false, Lookup(members, name), -1);
  }

  lemma TextHolds(f: Features, v: Value)
    requires Representable(v) && PrintsBytes(f)
    ensures AsString(f, v).Some? ==> Holds(AsString(f, v).value)
  {
    hide Digits;
    match v
    case Int(i) =>
      IntTextIsBytes(i);
      SixtyFourBitsFit(if i < 0 then -i else i);
    case UInt(u) =>
      IntTextIsBytes(u);
      SixtyFourBitsFit(u);
    case _ =>
  }

  /** `detect` decodes an image and finds the faces in it. */
  method Post(f: Features, content: string, detect: Image -> seq<Rect>) returns (r: Response)
    requires Sound(f, content)
    ensures content == "" ==> r == Untouched
    ensures content != "" ==>
              match Parse(f, content, Null)
              case Thrown => r == Exception
              case Done(_, v, _, _) =>
                if v == Null then r == BadRequest
                else match JsonToImage(f, v)
                  case None => r == Exception
                  case Some(image) => r.Created? && Lays(r.content, Tokens(Reply(image.faceId, detect(image))))
  {
    hide Parse, IsBytes, JsonToImage, Reply;
    if content == "" {
      return Untouched;
    }
    var thrown, json := StringToJson(f, content);
    if thrown {
      return Exception;
    }
    if json == Null {
      return BadRequest;
    }
    var image := ReadImage(f, json);
    if image.None? {
      return Exception;
    }
    ReadsRepresentable(f, content, Null);
    ImageIdHolds(f, json);
    var text := Answer(image.value.faceId, detect(image.value));
    return Created(text);
  }

  /** Builds the reply face by face and prints it. */
  method Answer(faceId: string, faces: seq<Rect>) returns (text: string)
    requires Holds(faceId)
    ensures Lays(text, Tokens(Reply(faceId, faces)))
  {
    hide IsBytes, Tokens, Lays, Representable, RealFree, Store, FaceValue;
    var members := FirstMembers(faceId);
    for i := 0 to |faces|
      invariant members == Reply(faceId, faces[..i]).members
    {
      var face := FaceToJson(faces[i]);
      assert FaceValues(faces[..i + 1]) == FaceValues(faces[..i]) + [face];
      ReplaceFaces(members[0], members[1].value, Arr(members[1].value.items + [face]));
      members := Store(members, "faces", Arr(members[1].value.items + [face]));
    }
    assert faces[..|faces|] == faces;
    FacesAreRepresentable(faces);
    PairIsRepresentable(faceId, "faces", Arr(FaceValues(faces)));
    text := JsonToString(Obj(members));
  }

  method FirstMembers(faceId: string) returns (members: seq<Member>)
    ensures members == Reply(faceId, []).members
  {
    NameOrder();
    members := Store([], "faceId", Str(faceId));
    StoreLast(members, "faces", Arr([]));
    members := Store(members, "faces", Arr([]));
    assert FaceValues([]) == [];
  }

  lemma ReplaceFaces(first: Member, v: Value, w: Value)
    requires first.name == "faceId"
    ensures Store([first, Member("faces", v)], "faces", w) == [first, Member("faces", w)]
  {
    hide BytesLess;
    NameOrder();
    BytesTotal("faceId", "faces");
    BytesTotal("faces", "faces");
    var rest := [first, Member("faces", v)][1..];
    assert rest == [Member("faces", v)] && rest[1..] == [];
    assert Store(rest, "faces", w) == [Member("faces", w)] + [];
  }

  // ----- When the handler throws while reading

  /** The exact condition, with the settings the service reads with. */
  lemma ReadingThrows(scanDouble: string -> Option<Double>, printDouble: Double -> string, content: string)
    ensures var f := DefaultFeatures(scanDouble, printDouble);
            var events := DocumentEvents(f, content, Null);
            Parse(f, content, Null).Thrown? <==>
              Exceeds(f, events) || exists k :: 0 <= k < |events| && Refuses(content, events, k)
  {
    hide Parse, DocumentEvents, Exceeds, Refuses;
    ParseThrows(DefaultFeatures(scanDouble, printDouble), content, Null);
  }

  /**
   * A line that starts with a quote and a slash, before any document at all that would be read: the
   * service's reader throws, and without the comment's quote it is not the document that is to blame.
   */
  lemma QuotedLineThrows(scanDouble: string -> Option<Double>, printDouble: Double -> string, remark: string, v: Value,
                         text: string)
    requires forall c <- remark :: !IsLineEnd(c)
    requires Readable(v) && Depth(v) <= 1000 && Lays(text, Tokens(v))
    ensures var f := DefaultFeatures(scanDouble, printDouble);
            var content := "'/" + remark + "\n" + text;
            Parse(f, content, Null) == Thrown && ReadDocument(f, content, Null) == Done(true, Norm(v), |content|, 0)
  {
    hide Parse, ReadValue, Tokens, Run, Depth, Readable, Norm;
    var f := DefaultFeatures(scanDouble, printDouble);
    var before := "'/" + remark + "\n";
    var content := before + text;
    QuotedLine(f, remark, text);
    LeadingQuoteThrows(f, content, Null);
    var e := Run(text, 0, Tokens(v));
    RunShifts(before, text, 0, Tokens(v));
    EndsInSpace(before, text, e);
    ReadsValue(f, content, |before|, v, 1, Null, |before| + e);
    BehindComment(f, content, Null);
    SkipIsFirst(content, |before| + e, |content|);
    SpacesThenToken(f, content, |before| + e);
  }

  /** One such document. */
  lemma QuotedCommentThrows(scanDouble: string -> Option<Double>, printDouble: Double -> string)
    ensures Parse(DefaultFeatures(scanDouble, printDouble), "'/x\n{\"faceId\":\"a\"}", Null) == Thrown
  {
    hide Parse;
    var f := DefaultFeatures(scanDouble, printDouble);
    var content := "'/x\n{\"faceId\":\"a\"}";
    QuotedLine(f, "x", content[4..]);
    assert "'/" + "x" + "\n" + content[4..] == content;
    LeadingQuoteThrows(f, content, Null);
  }

  lemma {:induction false} LineScanned(doc: string, cur: nat, end: nat)
    requires cur <= end < |doc| && doc[end] == '\n' && forall i :: cur <= i < end ==> !IsLineEnd(doc[i])
    ensures ScanCppComment(doc, cur) == end + 1
    decreases end - cur
  {
    if cur < end {
      LineScanned(doc, cur + 1, end);
    }
  }

  lemma QuotedLine(f: Features, remark: string, text: string)
    requires !f.allowSingleQuotes && forall c <- remark :: !IsLineEnd(c)
    ensures var before := "'/" + remark + "\n"; ReadToken(f, before + text, 0) == Token(Comment, 0, |before|)
    ensures ("'/" + remark + "\n" + text)[0] == '\''
  {
    hide ScanCppComment, ScanCComment;
    var doc := "'/" + remark + "\n" + text;
    forall i | 2 <= i < 2 + |remark| ensures !IsLineEnd(doc[i]) {
      assert doc[i] == remark[i - 2] && remark[i - 2] in remark;
    }
    LineScanned(doc, 2, 2 + |remark|);
    assert SkipSpaces(doc, 0) == 0;
  }

  lemma EndsInSpace(before: string, text: string, e: nat)
    requires e <= |text| && AllSpaces(text[e..])
    ensures forall i :: |before| + e <= i < |before + text| ==> IsSpace((before + text)[i])
    ensures Delimited(before + text, |before| + e)
  {
    forall i | |before| + e <= i < |before + text| ensures IsSpace((before + text)[i]) {
      assert (before + text)[i] == text[e..][i - |before| - e];
    }
  }

  /** But for the comment itself, a value is the same with a comment before it. */
  lemma BehindComment(f: Features, doc: string, before: Value)
    requires f.allowComments && ReadToken(f, doc, 0).kind == Comment && f.stackLimit >= 1
    ensures ReadValue(f, doc, 0, 1, before) == ReadValue(f, doc, ReadToken(f, doc, 0).end, 1, before)
  {
    hide ReadToken, ReadMembers, ReadElements, Unescape, NumberValue, SkipSpaces;
  }

  // ----- From one end to the other

  /** The service's own pair: what it prints it reads back, unless the value is nested too deep. */
  lemma ServiceRoundTrip(scanDouble: string -> Option<Double>, printDouble: Double -> string, v: Value, text: string)
    requires Readable(v) && Lays(text, Tokens(v))
    ensures var f := DefaultFeatures(scanDouble, printDouble);
            Parse(f, text, Null) == if Depth(v) > 1000 then Thrown else Done(true, Norm(v), |text|, 0)
    ensures SameValue(v, Norm(v))
  {
    ParseLaidOut(DefaultFeatures(scanDouble, printDouble), text, v, Null);
    NormIsSame(v);
  }

  /** The document a client sends for an image. */
  function ImageValue(faceId: string, data: seq<Base64.Byte>): Value {
    Pair(faceId, "imageData", Str(Base64.Encode(data)))
  }

  lemma {:induction false} LettersAreAscii(s: seq<Base64.Sextet>)
    ensures forall c <- Base64.Letters(s) :: c as int < 128
  {
    if s != [] {
      LettersAreAscii(s[1..]);
    }
  }

  /** An image whose Base64 text is not too long for a string value. */
  predicate Fits(data: seq<Base64.Byte>) {
    4 * ((|data| + 2) / 3) <= MAX_STRING_LENGTH
  }

  lemma EncodingIsAscii(data: seq<Base64.Byte>)
    ensures Fits(data) ==> Holds(Base64.Encode(data))
    ensures WellFormed(Base64.Encode(data))
  {
    Base64.EncodedLength(data);
    LettersAreAscii(Base64.Sextets(data));
    Ascii(Base64.Encode(data));
  }

  lemma ImageIsReadable(faceId: string, data: seq<Base64.Byte>)
    requires Holds(faceId) && WellFormed(faceId) && Fits(data)
    ensures var v := ImageValue(faceId, data); Readable(v) && Norm(v) == v && Depth(v) <= 4
  {
    hide Base64.Encode;
    EncodingIsAscii(data);
    var text := Str(Base64.Encode(data));
    StringDepth(text);
    PairIsRepresentable(faceId, "imageData", text);
  }

  /** The image that the service makes of such a document is the one that was encoded. */
  lemma ImageComesBack(f: Features, faceId: string, data: seq<Base64.Byte>)
    ensures JsonToImage(f, ImageValue(faceId, data)) == Some(Image(faceId, Some(data)))
  {
    hide Base64.Encode, Base64.Decode;
    Base64.RoundTrip(data);
    var members := ImageValue(faceId, data).members;
    assert members[1..][0].name == "imageData";
    assert Lookup(members, "faceId") == Str(faceId);
    assert Lookup(members, "imageData") == Lookup(members[1..], "imageData") == Str(Base64.Encode(data));
  }

  /**
   * An image posted as Base64 in a JSON document, however laid out, in a request that arrives in any
   * reads, the first on its connection or a later one, reaches the handler as the bytes it was.
   */
  lemma ImageArrives(limit: nat, s: Parser.State, startLine: string, hs: seq<Messages.Header>, doc: string,
                     fragments: seq<string>, scanDouble: string -> Option<Double>, printDouble: Double -> string,
                     faceId: string, data: seq<Base64.Byte>)
    requires Parser.Ready(s)
    requires Holds(faceId) && WellFormed(faceId) && Fits(data) && Lays(doc, Tokens(ImageValue(faceId, data)))
    requires HttpRoundTrip.Sendable(limit, startLine, hs, doc)
    requires Messages.Concat(fragments) == Messages.MessageText(startLine, hs, doc)
    ensures var f := DefaultFeatures(scanDouble, printDouble);
            var request := Parser.Feed(limit, s, fragments);
            && request.Ok? && request.state.finished && request.state.message.content == doc
            && Parse(f, doc, Null) == Done(true, ImageValue(faceId, data), |doc|, 0)
            && JsonToImage(f, ImageValue(faceId, data)) == Some(Image(faceId, Some(data)))
  {
    hide Parser.Feed, Parse, Tokens, Lays, Depth, Norm, Readable, ImageValue, HttpRoundTrip.Sendable,
         Messages.MessageText;
    hide HttpRoundTrip.Received, JsonToImage;
    HttpRoundTrip.MessageRoundTrip(limit, s, startLine, hs, doc, fragments);
    ImageIsReadable(faceId, data);
    ServiceRoundTrip(scanDouble, printDouble, ImageValue(faceId, data), doc);
    ImageComesBack(DefaultFeatures(scanDouble, printDouble), faceId, data);
  }

  /** And the reply, however laid out, is read by the client as the identifier and the faces found. */
  lemma ReplyArrives(scanDouble: string -> Option<Double>, printDouble: Double -> string, text: string, faceId: string,
                     faces: seq<Rect>)
    requires Holds(faceId) && WellFormed(faceId) && Lays(text, Tokens(Reply(faceId, faces)))
    ensures Parse(DefaultFeatures(scanDouble, printDouble), text, Null) == Done(true, Reply(faceId, faces), |text|, 0)
  {
    hide Parse, Tokens, Lays;
    FacesAreRepresentable(faces);
    PairIsRepresentable(faceId, "faces", Arr(FaceValues(faces)));
    ServiceRoundTrip(scanDouble, printDouble, Reply(faceId, faces), text);
  }
}
