/**
 * What comments do to the reader. It collects them for the values beside them, and a value accepts
 * a comment only if it starts with a slash; but a single quote starts a comment too. So the
 * functions below record what happens along a document, and the notes kept of it decide whether
 * the reader throws.
 */
module JsonComments {
  import opened Wrappers
  import opened JsonText
  import opened JsonValue
  import opened JsonGrammar

  /**
   * What can matter for an exception: a comment has been read; the comments so far go to the value
   * that starts, or at the end to the root; a value has ended; a value is entered, a member named
   * and a string decoded.
   */
  datatype Event =
    | Remark(start: nat, text: string)
    | Attach
    | ValueEnd(at: nat)
    | Enter(depth: nat)
    | Named(length: nat)
    | Text(length: nat)

  // ----- The events of a document

  function TokenEvents(doc: string, t: Token): seq<Event>
    requires t.start <= t.end <= |doc|
  {
    if t.kind == Comment then [Remark(t.start, doc[t.start..t.end])] else []
  }

  function PastEvents(f: Features, doc: string, cur: nat): seq<Event>
    requires cur <= |doc|
    decreases |doc| - cur
  {
    var t := ReadToken(f, doc, cur);
    TokenEvents(doc, t) + if t.kind == Comment then PastEvents(f, doc, t.end) else []
  }

  function FirstEvents(f: Features, doc: string, cur: nat): seq<Event>
    requires cur <= |doc|
  {
    if f.allowComments then PastEvents(f, doc, cur) else TokenEvents(doc, ReadToken(f, doc, cur))
  }

  function RecoverEvents(f: Features, doc: string, cur: nat, until: TokenType): seq<Event>
    requires cur <= |doc|
    decreases |doc| - cur
  {
    var t := ReadToken(f, doc, cur);
    TokenEvents(doc, t)
    + if t.kind == until || t.kind == EndOfStream then [] else RecoverEvents(f, doc, t.end, until)
  }

  /** A value starts with one of these, or else it is not even noted that it has ended. */
  predicate StartsValue(f: Features, t: Token) {
    || t.kind in {ObjectBegin, ArrayBegin, NumberToken, StringToken, TrueToken, FalseToken, NullToken, NaNToken,
                  PosInf, NegInf}
    || (t.kind in {ArraySeparator, ObjectEnd, ArrayEnd} && f.allowDroppedNullPlaceholders)
  }

  function ValueEvents(f: Features, doc: string, cur: nat, depth: nat, before: Value): seq<Event>
    requires cur <= |doc|
    decreases |doc| - cur, 1, 0
  {
    if depth > f.stackLimit then [Enter(depth)] else
    var t := FirstToken(f, doc, cur);
    [Enter(depth)] + FirstEvents(f, doc, cur) + [Attach] + InsideEvents(f, doc, cur, depth)
    + EndEvents(f, t, ReadValue(f, doc, cur, depth, before))
  }

  function EndEvents(f: Features, t: Token, r: Outcome): seq<Event> {
    if r.Thrown? || !StartsValue(f, t) then [] else [ValueEnd(r.current)]
  }

  function InsideEvents(f: Features, doc: string, cur: nat, depth: nat): seq<Event>
    requires cur <= |doc|
    decreases |doc| - cur, 0, 0
  {
    var t := FirstToken(f, doc, cur);
    if t.kind == ObjectBegin then MembersEvents(f, doc, t.end, depth, [], "")
    else if t.kind == ArrayBegin then
      var p := SkipSpaces(doc, t.end);
      if NextChar(doc, p) == ']' then [] else ElementsEvents(f, doc, p, depth, [])
    else if t.kind == StringToken then
      match Unescape(doc[t.start + 1..t.end - 1])
      case Some(s) => [Text(|StringOf(s)|)]
      case None => []
    else []
  }

  function MembersEvents(f: Features, doc: string, cur: nat, depth: nat, members: seq<Member>, name: string): seq<Event>
    requires cur <= |doc|
    decreases |doc| - cur, 2, 0
  {
    var t := ReadPastComments(f, doc, cur);
    PastEvents(f, doc, cur)
    + if t.kind == ObjectEnd && name == "" then []
      else if t.kind == StringToken || (t.kind == NumberToken && f.allowNumericKeys) then
        match NameOf(f, doc, t)
        case None => RecoverEvents(f, doc, t.end, ObjectEnd)
        case Some(n) => MemberEvents(f, doc, t.end, depth, members, n)
      else RecoverEvents(f, doc, t.end, ObjectEnd)
  }

  function MemberEvents(f: Features, doc: string, cur: nat, depth: nat, members: seq<Member>, name: string): seq<Event>
    requires cur <= |doc|
    decreases |doc| - cur, 2, 1
  {
    var colon := ReadToken(f, doc, cur);
    TokenEvents(doc, colon)
    + if colon.kind != MemberSeparator then RecoverEvents(f, doc, colon.end, ObjectEnd)
      else [Named(|name|)] + NamedEvents(f, doc, colon.end, depth, members, name)
  }

  /** From behind the colon on. */
  function NamedEvents(f: Features, doc: string, cur: nat, depth: nat, members: seq<Member>, name: string): seq<Event>
    requires cur <= |doc|
    decreases |doc| - cur, 2, 2
  {
    if |name| >= MAX_KEY_LENGTH then []
    else if f.rejectDupKeys && HasMember(members, name) then RecoverEvents(f, doc, cur, ObjectEnd)
    else
      var r := ReadValue(f, doc, cur, depth + 1, Lookup(members, name));
      ValueEvents(f, doc, cur, depth + 1, Lookup(members, name))
      + if r.Thrown? then []
        else if !r.ok then RecoverEvents(f, doc, r.current, ObjectEnd)
        else AfterEvents(f, doc, r.current, depth, Store(members, name, r.value), name)
  }

  function AfterEvents(f: Features, doc: string, cur: nat, depth: nat, stored: seq<Member>, name: string): seq<Event>
    requires cur <= |doc|
    decreases |doc| - cur, 2, 1
  {
    var comma := ReadToken(f, doc, cur);
    TokenEvents(doc, comma)
    + if comma.kind !in {ObjectEnd, ArraySeparator, Comment} then RecoverEvents(f, doc, comma.end, ObjectEnd)
      else
        var next := if comma.kind == Comment then ReadPastComments(f, doc, comma.end) else comma;
        (if comma.kind == Comment then PastEvents(f, doc, comma.end) else [])
        + if next.kind == ObjectEnd then [] else MembersEvents(f, doc, next.end, depth, stored, name)
  }

  function ElementsEvents(f: Features, doc: string, cur: nat, depth: nat, items: seq<Value>): seq<Event>
    requires cur <= |doc|
    decreases |doc| - cur, 2, 0
  {
    var r := ReadValue(f, doc, cur, depth + 1, Null);
    ValueEvents(f, doc, cur, depth + 1, Null)
    + if r.Thrown? then []
      else if !r.ok then RecoverEvents(f, doc, r.current, ArrayEnd)
      else AfterElementEvents(f, doc, r.current, depth, items + [r.value])
  }

  function AfterElementEvents(f: Features, doc: string, cur: nat, depth: nat, read: seq<Value>): seq<Event>
    requires cur <= |doc|
    decreases |doc| - cur, 1, 1
  {
    var t := ReadPastComments(f, doc, cur);
    PastEvents(f, doc, cur)
    + if t.kind == ArrayEnd then []
      else if t.kind == ArraySeparator then ElementsEvents(f, doc, t.end, depth, read)
      else RecoverEvents(f, doc, t.end, ArrayEnd)
  }

  function DocumentEvents(f: Features, doc: string, root: Value): seq<Event> {
    var r := ReadValue(f, doc, 0, 1, root);
    ValueEvents(f, doc, 0, 1, root)
    + if r.Thrown? then []
      else FirstEvents(f, doc, r.current) + if IsExtra(f, FirstToken(f, doc, r.current)) then [] else [Attach]
  }

  // ----- The notes the reader keeps

  /** Where the last value ended, and the comments waiting for the next one. */
  datatype Notes = Notes(last: Option<nat>, waiting: string)

  function NormalizeEOL(s: string): string {
    if s == "" then ""
    else if s[0] != '\r' then [s[0]] + NormalizeEOL(s[1..])
    else if |s| > 1 && s[1] == '\n' then "\n" + NormalizeEOL(s[2..])
    else "\n" + NormalizeEOL(s[1..])
  }

  predicate IsLineEnd(c: char) {
    c == '\n' || c == '\r'
  }

  predicate ContainsNewLine(doc: string, a: nat, b: nat) {
    exists i :: a <= i < b && i < |doc| && IsLineEnd(doc[i])
  }

  /** `setComment` accepts the comment. */
  predicate Settable(comment: string) {
    var c := if comment != "" && comment[|comment| - 1] == '\n' then comment[..|comment| - 1] else comment;
    c != "" && (c[0] == '\0' || c[0] == '/')
  }

  /** A comment that belongs to the value before it, on the same line. */
  predicate SameLine(doc: string, last: Option<nat>, e: Event)
    requires e.Remark?
  {
    && last.Some? && !ContainsNewLine(doc, last.value, e.start)
    && ((|e.text| > 1 && e.text[1] == '*') ==> !ContainsNewLine(doc, e.start, e.start + |e.text|))
  }

  function Note(doc: string, s: Notes, e: Event): Option<Notes> {
    match e
    case Remark(_, text) =>
      var comment := NormalizeEOL(text);
      if !SameLine(doc, s.last, e) then Some(s.(waiting := s.waiting + comment))
      else if Settable(comment) then Some(s) else None
    case Attach =>
      if s.waiting == "" then Some(s)
      else if Settable(s.waiting) then Some(s.(waiting := "")) else None
    case ValueEnd(at) => Some(s.(last := Some(at)))
    case _ => Some(s)
  }

  /** The notes after some events, or `None` if a comment has been refused; without `collect` nothing is noted. */
  function Follow(collect: bool, doc: string, s: Notes, events: seq<Event>): Option<Notes>
    decreases |events|
  {
    if !collect || events == [] then Some(s)
    else match Note(doc, s, events[0])
      case None => None
      case Some(t) => Follow(collect, doc, t, events[1..])
  }

  const NOTHING: Notes := Notes(None, "")

  predicate Collects(f: Features) {
    f.collectComments && f.allowComments
  }

  /** The whole document. */
  function Parse(f: Features, doc: string, root: Value): (r: Outcome)
    ensures r.Done? ==> r.current <= |doc| && (r.ok <==> r.errors == 0)
  {
    if Follow(Collects(f), doc, NOTHING, DocumentEvents(f, doc, root)).None? then Thrown
    else ReadDocument(f, doc, root)
  }

  // ----- Following events piece by piece

  lemma FollowNothing(collect: bool, doc: string, s: Notes)
    ensures Follow(collect, doc, s, []) == Some(s)
  {
  }

  lemma FollowOne(collect: bool, doc: string, s: Notes, e: Event)
    ensures Follow(collect, doc, s, [e]) == if collect then Note(doc, s, e) else Some(s)
  {
    hide Note;
    if collect && Note(doc, s, e).Some? {
      assert [e][1..] == [];
    }
  }

  lemma {:induction false} FollowConcat(collect: bool, doc: string, s: Notes, a: seq<Event>, b: seq<Event>)
    ensures Follow(collect, doc, s, a + b)
         == if Follow(collect, doc, s, a).None? then None
            else Follow(collect, doc, Follow(collect, doc, s, a).value, b)
    decreases |a|
  {
    hide Note;
    if a == [] {
      assert a + b == b;
    } else if collect {
      assert (a + b)[0] == a[0] && (a + b)[1..] == a[1..] + b;
      var t := Note(doc, s, a[0]);
      if t.Some? {
        FollowConcat(collect, doc, t.value, a[1..], b);
      }
    }
  }
}
