/**
 * What the JSON reader computes, as functions of the document and a cursor. The class
 * `OurReader` in module JsonReader is proved to compute exactly this.
 */
module JsonGrammar {
  import opened Wrappers
  import opened JsonText
  import opened JsonNumber
  import opened JsonValue

  /**
   * The settings of the reader and of its factory. Floating point text is not modelled: `scanDouble`
   * stands for `sscanf` and `printDouble` for the text of a real number used as a member name.
   */
  datatype Features = Features(
    collectComments: bool,
    allowComments: bool,
    strictRoot: bool,
    allowDroppedNullPlaceholders: bool,
    allowNumericKeys: bool,
    allowSingleQuotes: bool,
    failIfExtra: bool,
    rejectDupKeys: bool,
    allowSpecialFloats: bool,
    stackLimit: nat,
    scanDouble: string -> Option<Double>,
    printDouble: Double -> string)

  datatype TokenType =
    | EndOfStream
    | ObjectBegin
    | ObjectEnd
    | ArrayBegin
    | ArrayEnd
    | StringToken
    | NumberToken
    | TrueToken
    | FalseToken
    | NullToken
    | NaNToken
    | PosInf
    | NegInf
    | ArraySeparator
    | MemberSeparator
    | Comment
    | ErrorToken

  datatype Token = Token(kind: TokenType, start: nat, end: nat)

  /** A scan: whether it succeeded and where it stopped. */
  datatype Scan = Scan(ok: bool, at: nat)

  // ----- Tokens

  predicate IsSpace(c: char) {
    c == ' ' || c == '\t' || c == '\r' || c == '\n'
  }

  function SkipSpaces(doc: string, cur: nat): (p: nat)
    requires cur <= |doc|
    ensures cur <= p <= |doc|
    ensures p < |doc| ==> !IsSpace(doc[p])
    ensures forall i :: cur <= i < p ==> IsSpace(doc[i])
    decreases |doc| - cur
  {
    if cur < |doc| && IsSpace(doc[cur]) then SkipSpaces(doc, cur + 1) else cur
  }

  function NextChar(doc: string, cur: nat): char {
    if cur < |doc| then doc[cur] else '\0'
  }

  function After(doc: string, cur: nat): (p: nat)
    requires cur <= |doc|
    ensures cur <= p <= |doc|
  {
    if cur < |doc| then cur + 1 else cur
  }

  function ScanString(doc: string, cur: nat, quote: char): (r: Scan)
    requires cur <= |doc|
    ensures cur <= r.at <= |doc|
    ensures r.ok ==> cur < r.at && doc[r.at - 1] == quote
    decreases |doc| - cur
  {
    if cur == |doc| then Scan(false, cur)
    else if doc[cur] == '\\' then ScanString(doc, After(doc, cur + 1), quote)
    else if doc[cur] == quote then Scan(true, cur + 1)
    else ScanString(doc, cur + 1, quote)
  }

  function ScanDigits(doc: string, cur: nat): (p: nat)
    requires cur <= |doc|
    ensures cur <= p <= |doc|
    decreases |doc| - cur
  {
    if cur < |doc| && IsDigit(doc[cur]) then ScanDigits(doc, cur + 1) else cur
  }

  function ScanFraction(doc: string, cur: nat): (p: nat)
    requires cur <= |doc|
    ensures cur <= p <= |doc|
  {
    if NextChar(doc, cur) == '.' then ScanDigits(doc, cur + 1) else cur
  }

  function ScanExponent(doc: string, cur: nat): (p: nat)
    requires cur <= |doc|
    ensures cur <= p <= |doc|
  {
    if NextChar(doc, cur) == 'e' || NextChar(doc, cur) == 'E' then
      if NextChar(doc, cur + 1) == '+' || NextChar(doc, cur + 1) == '-'
      then ScanDigits(doc, cur + 2) else ScanDigits(doc, cur + 1)
    else cur
  }

  function ScanNumber(doc: string, cur: nat): (p: nat)
    requires cur <= |doc|
    ensures cur <= p <= |doc|
  {
    ScanExponent(doc, ScanFraction(doc, ScanDigits(doc, cur)))
  }

  predicate Matches(doc: string, cur: nat, pattern: string) {
    cur + |pattern| <= |doc| && doc[cur..cur + |pattern|] == pattern
  }

  /** Where the search for the end of a C comment stops: on its last slash if there is one. */
  function ScanCComment(doc: string, cur: nat): (p: nat)
    requires cur <= |doc|
    ensures cur <= p <= |doc|
    decreases |doc| - cur
  {
    if cur + 1 < |doc| then
      if doc[cur] == '*' && doc[cur + 1] == '/' then cur + 1 else ScanCComment(doc, cur + 1)
    else cur
  }

  function ScanCppComment(doc: string, cur: nat): (p: nat)
    requires cur <= |doc|
    ensures cur <= p <= |doc|
    decreases |doc| - cur
  {
    if cur == |doc| then cur
    else if doc[cur] == '\n' then cur + 1
    else if doc[cur] == '\r' then if NextChar(doc, cur + 1) == '\n' then cur + 2 else cur + 1
    else ScanCppComment(doc, cur + 1)
  }

  function ScanComment(doc: string, cur: nat): (r: Scan)
    requires cur <= |doc|
    ensures cur <= r.at <= |doc|
  {
    var p := After(doc, cur);
    if NextChar(doc, cur) == '*' then
      var q := ScanCComment(doc, p);
      Scan(NextChar(doc, q) == '/', After(doc, q))
    else if NextChar(doc, cur) == '/' then Scan(true, ScanCppComment(doc, p))
    else Scan(false, p)
  }

  function ScanWord(doc: string, cur: nat, pattern: string): (r: Scan)
    requires cur <= |doc|
    ensures cur <= r.at <= |doc|
  {
    if Matches(doc, cur, pattern) then Scan(true, cur + |pattern|) else Scan(false, cur)
  }

  function Tok(kind: TokenType, start: nat, r: Scan): Token {
    Token(if r.ok then kind else ErrorToken, start, r.at)
  }

  function ReadToken(f: Features, doc: string, cur: nat): (t: Token)
    requires cur <= |doc|
    ensures cur <= t.start <= t.end <= |doc|
    ensures t.kind != EndOfStream ==> t.start < t.end
    ensures t.kind == StringToken ==> t.start + 2 <= t.end
    ensures t.kind in {ArraySeparator, ObjectEnd, ArrayEnd} ==> t.end == t.start + 1
  {
    var start := SkipSpaces(doc, cur);
    if start == |doc| then Token(EndOfStream, start, start) else
    var c, p := doc[start], start + 1;
    if c == '{' then Token(ObjectBegin, start, p)
    else if c == '}' then Token(ObjectEnd, start, p)
    else if c == '[' then Token(ArrayBegin, start, p)
    else if c == ']' then Token(ArrayEnd, start, p)
    else if c == '\"' then Tok(StringToken, start, ScanString(doc, p, '\"'))
    else if c == '\'' && f.allowSingleQuotes then Tok(StringToken, start, ScanString(doc, p, '\''))
    else if c == '\'' || c == '/' then Tok(Comment, start, ScanComment(doc, p))
    else if IsDigit(c) then Token(NumberToken, start, ScanNumber(doc, p))
    else if c == '-' then
      if NextChar(doc, p) != 'I' then Token(NumberToken, start, ScanNumber(doc, p))
      else if f.allowSpecialFloats then Tok(NegInf, start, ScanWord(doc, p + 1, "nfinity"))
      else Token(ErrorToken, start, p + 1)
    else if c == 't' then Tok(TrueToken, start, ScanWord(doc, p, "rue"))
    else if c == 'f' then Tok(FalseToken, start, ScanWord(doc, p, "alse"))
    else if c == 'n' then Tok(NullToken, start, ScanWord(doc, p, "ull"))
    else if c == 'N' && f.allowSpecialFloats then Tok(NaNToken, start, ScanWord(doc, p, "aN"))
    else if c == 'I' && f.allowSpecialFloats then Tok(PosInf, start, ScanWord(doc, p, "nfinity"))
    else if c == ',' then Token(ArraySeparator, start, p)
    else if c == ':' then Token(MemberSeparator, start, p)
    else if c == '\0' then Token(EndOfStream, start, p)
    else Token(ErrorToken, start, p)
  }

  /** The first token from `cur` on that is no comment. */
  function ReadPastComments(f: Features, doc: string, cur: nat): (t: Token)
    requires cur <= |doc|
    ensures cur <= t.start <= t.end <= |doc| && t.kind != Comment
    ensures t.kind != EndOfStream ==> t.start < t.end
    ensures t.kind == StringToken ==> t.start + 2 <= t.end
    ensures t.kind in {ArraySeparator, ObjectEnd, ArrayEnd} ==> t.end == t.start + 1
    decreases |doc| - cur
  {
    var t := ReadToken(f, doc, cur);
    if t.kind == Comment then ReadPastComments(f, doc, t.end) else t
  }

  /** The token a value starts with: comments are skipped only when they are allowed. */
  function FirstToken(f: Features, doc: string, cur: nat): (t: Token)
    requires cur <= |doc|
    ensures cur <= t.start <= t.end <= |doc|
    ensures t.kind != EndOfStream ==> t.start < t.end
    ensures t.kind == StringToken ==> t.start + 2 <= t.end
    ensures t.kind in {ArraySeparator, ObjectEnd, ArrayEnd} ==> t.end == t.start + 1
  {
    if f.allowComments then ReadPastComments(f, doc, cur) else ReadToken(f, doc, cur)
  }

  /** Error recovery: reads tokens up to `until` or the end of the stream. */
  function Recover(f: Features, doc: string, cur: nat, until: TokenType): (p: nat)
    requires cur <= |doc|
    ensures cur <= p <= |doc|
    decreases |doc| - cur
  {
    var t := ReadToken(f, doc, cur);
    if t.kind == until || t.kind == EndOfStream then t.end else Recover(f, doc, t.end, until)
  }

  // ----- Members of an object, in the order of the map

  predicate HasMember(members: seq<Member>, name: string) {
    exists k :: 0 <= k < |members| && members[k].name == name
  }

  /** The value already stored under `name`, or null. */
  function Lookup(members: seq<Member>, name: string): Value {
    if members == [] then Null
    else if members[0].name == name then members[0].value
    else Lookup(members[1..], name)
  }

  /** Stores `value` under `name`, keeping the map's order. */
  function Store(members: seq<Member>, name: string, value: Value): seq<Member> {
    if members == [] || BytesLess(name, members[0].name) then [Member(name, value)] + members
    else if members[0].name == name then [Member(name, value)] + members[1..]
    else [members[0]] + Store(members[1..], name, value)
  }

  // ----- Values

  /** `Thrown` is an exception; otherwise the value read so far is kept even on failure. */
  datatype Outcome = Thrown | Done(ok: bool, value: Value, current: nat, errors: nat)

  const MAX_KEY_LENGTH: int := 0x4000_0000

  /** A string value has its length, a word of four bytes, and a terminator in one block below 2^31. */
  const MAX_STRING_LENGTH: int := MAX_INT32 - 5

  /** What a string value keeps of a text: its length is converted to 32 bits. */
  function StringOf(s: string): (r: string) {
    s[..|s| % 0x1_0000_0000]
  }

  /** A string value, or the exception if it is too long for one. */
  function StringOutcome(s: string, t: Token): Outcome {
    if |StringOf(s)| > MAX_STRING_LENGTH then Thrown else Scalar(Str(StringOf(s)), t)
  }

  function NumberValue(f: Features, text: string): Option<Value> {
    match Decode(text)
    case SignedNumber(i) => Some(Int(i))
    case UnsignedNumber(u) => Some(UInt(u))
    case NotInteger =>
      match f.scanDouble(text)
      case Some(d) => Some(Real(d))
      case None => None
  }

  function NumericName(f: Features, v: Value): string {
    match v
    case Int(i) => IntText(i)
    case UInt(u) => IntText(u)
    case Real(d) => f.printDouble(d)
    case _ => ""
  }

  /** The name a member starts with; `None` is a syntax error inside the token. */
  function NameOf(f: Features, doc: string, t: Token): Option<string>
    requires t.start + (if t.kind == StringToken then 2 else 0) <= t.end <= |doc|
  {
    if t.kind == StringToken then Unescape(doc[t.start + 1..t.end - 1])
    else match NumberValue(f, doc[t.start..t.end])
      case Some(v) => Some(NumericName(f, v))
      case None => None
  }

  function Scalar(v: Value, t: Token): Outcome {
    Done(true, v, t.end, 0)
  }

  function ReadValue(f: Features, doc: string, cur: nat, depth: nat, before: Value): (r: Outcome)
    requires cur <= |doc|
    ensures r.Done? ==> cur <= r.current <= |doc| && (r.ok <==> r.errors == 0)
    decreases |doc| - cur, 1, 0
  {
    if depth > f.stackLimit then Thrown else
    var t := FirstToken(f, doc, cur);
    match t.kind
    case ObjectBegin => ReadMembers(f, doc, t.end, depth, [], "")
    case ArrayBegin =>
      var p := SkipSpaces(doc, t.end);
      if NextChar(doc, p) == ']' then Done(true, Arr([]), p + 1, 0)
      else ReadElements(f, doc, p, depth, [])
    case NumberToken =>
      (match NumberValue(f, doc[t.start..t.end])
       case Some(v) => Scalar(v, t)
       case None => Done(false, before, t.end, 1))
    case StringToken =>
      (match Unescape(doc[t.start + 1..t.end - 1])
       case Some(s) => StringOutcome(s, t)
       case None => Done(false, before, t.end, 1))
    case TrueToken => Scalar(Bool(true), t)
    case FalseToken => Scalar(Bool(false), t)
    case NullToken => Scalar(Null, t)
    case NaNToken => Scalar(Real(NaN), t)
    case PosInf => Scalar(Real(PosInfinity), t)
    case NegInf => Scalar(Real(NegInfinity), t)
    case ArraySeparator | ObjectEnd | ArrayEnd =>
      if f.allowDroppedNullPlaceholders
      then Done(true, Null, t.end - 1, 0)  // the token is un-read
      else Done(false, before, t.end, 1)
    case _ => Done(false, before, t.end, 1)
  }

  /** The loop over the members; `name` is the name of the member before. */
  function ReadMembers(f: Features, doc: string, cur: nat, depth: nat, members: seq<Member>, name: string): (r: Outcome)
    requires cur <= |doc|
    ensures r.Done? ==> cur <= r.current <= |doc| && (r.ok <==> r.errors == 0)
    decreases |doc| - cur, 2, 0
  {
    var t := ReadPastComments(f, doc, cur);
    if t.kind == ObjectEnd && name == "" then Done(true, Obj(members), t.end, 0)
    else if t.kind == StringToken || (t.kind == NumberToken && f.allowNumericKeys) then
      match NameOf(f, doc, t)
      case None => Done(false, Obj(members), Recover(f, doc, t.end, ObjectEnd), 1)
      case Some(n) => ReadMember(f, doc, t.end, depth, members, n)
    else Done(false, Obj(members), Recover(f, doc, t.end, ObjectEnd), 1)
  }

  /** From the colon of a member on. */
  function ReadMember(f: Features, doc: string, cur: nat, depth: nat, members: seq<Member>, name: string): (r: Outcome)
    requires cur <= |doc|
    ensures r.Done? ==> cur <= r.current <= |doc| && (r.ok <==> r.errors == 0)
    decreases |doc| - cur, 2, 1
  {
    var colon := ReadToken(f, doc, cur);
    if colon.kind != MemberSeparator then Done(false, Obj(members), Recover(f, doc, colon.end, ObjectEnd), 1)
    else ReadNamed(f, doc, colon.end, depth, members, name)
  }

  /** The value of a member, and the rest of the object. */
  function ReadNamed(f: Features, doc: string, cur: nat, depth: nat, members: seq<Member>, name: string): (r: Outcome)
    requires cur <= |doc|
    ensures r.Done? ==> cur <= r.current <= |doc| && (r.ok <==> r.errors == 0)
    decreases |doc| - cur, 2, 2
  {
    if |name| >= MAX_KEY_LENGTH then Thrown
    else if f.rejectDupKeys && HasMember(members, name)
    then Done(false, Obj(members), Recover(f, doc, cur, ObjectEnd), 1)
    else
      var r := ReadValue(f, doc, cur, depth + 1, Lookup(members, name));
      if r.Thrown? then Thrown else
      var stored := Store(members, name, r.value);
      if !r.ok then Done(false, Obj(stored), Recover(f, doc, r.current, ObjectEnd), r.errors)
      else AfterMember(f, doc, r.current, depth, stored, name)
  }

  /** What follows a member's value: the end of the object, or a separator and the other members. */
  function AfterMember(f: Features, doc: string, cur: nat, depth: nat, stored: seq<Member>, name: string): (r: Outcome)
    requires cur <= |doc|
    ensures r.Done? ==> cur <= r.current <= |doc| && (r.ok <==> r.errors == 0)
    decreases |doc| - cur, 2, 1
  {
    var comma := ReadToken(f, doc, cur);
    if comma.kind !in {ObjectEnd, ArraySeparator, Comment}
    then Done(false, Obj(stored), Recover(f, doc, comma.end, ObjectEnd), 1)
    else
      var next := if comma.kind == Comment then ReadPastComments(f, doc, comma.end) else comma;
      if next.kind == ObjectEnd then Done(true, Obj(stored), next.end, 0)
      else ReadMembers(f, doc, next.end, depth, stored, name)
  }

  function ReadElements(f: Features, doc: string, cur: nat, depth: nat, items: seq<Value>): (r: Outcome)
    requires cur <= |doc|
    ensures r.Done? ==> cur <= r.current <= |doc| && (r.ok <==> r.errors == 0)
    decreases |doc| - cur, 2, 0
  {
    var r := ReadValue(f, doc, cur, depth + 1, Null);
    if r.Thrown? then Thrown else
    var read := items + [r.value];
    if !r.ok then Done(false, Arr(read), Recover(f, doc, r.current, ArrayEnd), r.errors)
    else AfterElement(f, doc, r.current, depth, read)
  }

  /** What follows an element: the end of the array, or a separator and the other elements. */
  function AfterElement(f: Features, doc: string, cur: nat, depth: nat, read: seq<Value>): (r: Outcome)
    requires cur <= |doc|
    ensures r.Done? ==> cur <= r.current <= |doc| && (r.ok <==> r.errors == 0)
    decreases |doc| - cur, 1, 1
  {
    var t := ReadPastComments(f, doc, cur);
    if t.kind == ArrayEnd then Done(true, Arr(read), t.end, 0)
    else if t.kind == ArraySeparator then ReadElements(f, doc, t.end, depth, read)
    else Done(false, Arr(read), Recover(f, doc, t.end, ArrayEnd), 1)
  }

  /** The whole document, but for what comments do: the value, then what may follow it. */
  function ReadDocument(f: Features, doc: string, root: Value): (r: Outcome)
    ensures r.Done? ==> r.current <= |doc| && (r.ok <==> r.errors == 0)
  {
    var r := ReadValue(f, doc, 0, 1, root);
    if r.Thrown? then Thrown else
    var t := FirstToken(f, doc, r.current);
    if IsExtra(f, t) then Done(false, r.value, t.end, r.errors + 1)
    else if f.strictRoot && !r.value.Arr? && !r.value.Obj? then Done(false, r.value, t.end, r.errors + 1)
    else Done(r.ok, r.value, t.end, r.errors)
  }

  /** The token behind the value is one too many. */
  predicate IsExtra(f: Features, t: Token) {
    f.failIfExtra && (f.strictRoot || t.kind != ErrorToken) && t.kind != EndOfStream
  }
}
