/** When the JSON reader throws, exactly: at its limits, and at a comment that starts with a quote. */
module JsonThrows {
  import opened Wrappers
  import opened JsonText
  import opened JsonValue
  import opened JsonGrammar
  import opened JsonComments

  /** The limits: on the height of the stack, the length of a name and the length of a string value. */
  predicate OverLimit(f: Features, e: Event) {
    match e
    case Enter(depth) => depth > f.stackLimit
    case Named(length) => length >= MAX_KEY_LENGTH
    case Text(length) => length > MAX_STRING_LENGTH
    case _ => false
  }

  ghost predicate Exceeds(f: Features, events: seq<Event>) {
    exists e <- events :: OverLimit(f, e)
  }

  /** A comment is a piece of the document that starts as comments do. */
  predicate IsComment(f: Features, doc: string, e: Event)
    requires e.Remark?
  {
    && |e.text| >= 2 && e.start + |e.text| <= |doc| && doc[e.start..e.start + |e.text|] == e.text
    && (e.text[0] == '/' || (e.text[0] == '\'' && !f.allowSingleQuotes))
    && (e.text[1] == '/' || e.text[1] == '*')
  }

  ghost predicate AllComments(f: Features, doc: string, events: seq<Event>) {
    forall e <- events :: e.Remark? ==> IsComment(f, doc, e)
  }

  // ----- Token events are comments, and within the limits

  ghost predicate Harmless(f: Features, doc: string, events: seq<Event>) {
    !Exceeds(f, events) && AllComments(f, doc, events)
  }

  lemma TokenIsHarmless(f: Features, doc: string, cur: nat)
    requires cur <= |doc|
    ensures Harmless(f, doc, TokenEvents(doc, ReadToken(f, doc, cur)))
  {
    hide ScanString, ScanNumber, ScanWord, ScanCComment, ScanCppComment;
    var t := ReadToken(f, doc, cur);
    if t.kind == Comment {
      var text := doc[t.start..t.end];
      assert t == Tok(Comment, t.start, ScanComment(doc, t.start + 1));
      assert text[0] == doc[t.start] && text[1] == doc[t.start + 1];
      assert TokenEvents(doc, t) == [Remark(t.start, text)];
    }
  }

  lemma {:induction false} PastIsHarmless(f: Features, doc: string, cur: nat)
    requires cur <= |doc|
    ensures Harmless(f, doc, PastEvents(f, doc, cur))
    decreases |doc| - cur
  {
    hide ReadToken, TokenEvents;
    TokenIsHarmless(f, doc, cur);
    var t := ReadToken(f, doc, cur);
    if t.kind == Comment {
      PastIsHarmless(f, doc, t.end);
    }
  }

  lemma FirstIsHarmless(f: Features, doc: string, cur: nat)
    requires cur <= |doc|
    ensures Harmless(f, doc, FirstEvents(f, doc, cur))
  {
    hide ReadToken, TokenEvents, PastEvents;
    TokenIsHarmless(f, doc, cur);
    PastIsHarmless(f, doc, cur);
  }

  lemma {:induction false} RecoverIsHarmless(f: Features, doc: string, cur: nat, until: TokenType)
    requires cur <= |doc|
    ensures Harmless(f, doc, RecoverEvents(f, doc, cur, until))
    decreases |doc| - cur
  {
    hide ReadToken, TokenEvents;
    TokenIsHarmless(f, doc, cur);
    var t := ReadToken(f, doc, cur);
    if t.kind != until && t.kind != EndOfStream {
      RecoverIsHarmless(f, doc, t.end, until);
    }
  }

  // ----- The reader without comments throws exactly at a limit

  /** The events go with the outcome. */
  ghost predicate Tells(f: Features, doc: string, events: seq<Event>, thrown: bool) {
    (thrown <==> Exceeds(f, events)) && AllComments(f, doc, events)
  }

  lemma TellsBoth(f: Features, doc: string, a: seq<Event>, b: seq<Event>, thrown: bool)
    requires Harmless(f, doc, a) && Tells(f, doc, b, thrown)
    ensures Tells(f, doc, a + b, thrown)
  {
    if thrown {
      var e :| e in b && OverLimit(f, e);
      assert e in a + b;
    }
  }

  lemma TellsFirst(f: Features, doc: string, a: seq<Event>, b: seq<Event>, thrown: bool)
    requires Tells(f, doc, a, thrown) && Harmless(f, doc, b)
    ensures Tells(f, doc, a + b, thrown)
  {
    if thrown {
      var e :| e in a && OverLimit(f, e);
      assert e in a + b;
    }
  }

  lemma {:induction false} ValueTells(f: Features, doc: string, cur: nat, depth: nat, before: Value)
    requires cur <= |doc|
    ensures Tells(f, doc, ValueEvents(f, doc, cur, depth, before), ReadValue(f, doc, cur, depth, before).Thrown?)
    decreases |doc| - cur, 1, 1
  {
    hide FirstToken, FirstEvents, InsideEvents, ReadValue, StartsValue;
    var r := ReadValue(f, doc, cur, depth, before);
    if depth > f.stackLimit {
      TooDeep(f, doc, cur, depth, before);
    } else {
      var t := FirstToken(f, doc, cur);
      FirstIsHarmless(f, doc, cur);
      InsideTells(f, doc, cur, depth, before);
      var start := [Enter(depth)] + FirstEvents(f, doc, cur) + [Attach];
      assert Harmless(f, doc, start);
      TellsBoth(f, doc, start, InsideEvents(f, doc, cur, depth), r.Thrown?);
      TellsFirst(f, doc, start + InsideEvents(f, doc, cur, depth), EndEvents(f, t, r), r.Thrown?);
    }
  }

  lemma TooDeep(f: Features, doc: string, cur: nat, depth: nat, before: Value)
    requires cur <= |doc| && depth > f.stackLimit
    ensures ReadValue(f, doc, cur, depth, before).Thrown? && Tells(f, doc, [Enter(depth)], true)
  {
    assert Enter(depth) in [Enter(depth)];
  }

  lemma {:induction false} InsideTells(f: Features, doc: string, cur: nat, depth: nat, before: Value)
    requires cur <= |doc| && depth <= f.stackLimit
    ensures Tells(f, doc, InsideEvents(f, doc, cur, depth), ReadValue(f, doc, cur, depth, before).Thrown?)
    decreases |doc| - cur, 1, 0
  {
    hide FirstToken, ReadMembers, ReadElements, MembersEvents, ElementsEvents, Unescape, SkipSpaces, NumberValue;
    var t := FirstToken(f, doc, cur);
    if t.kind == ObjectBegin {
      MembersTell(f, doc, t.end, depth, [], "");
    } else if t.kind == ArrayBegin {
      var p := SkipSpaces(doc, t.end);
      if NextChar(doc, p) != ']' {
        ElementsTell(f, doc, p, depth, []);
      }
    } else if t.kind == StringToken {
      var s := Unescape(doc[t.start + 1..t.end - 1]);
      if s.Some? {
        var e := Text(|StringOf(s.value)|);
        assert e in [e];
      }
    }
  }

  lemma {:induction false} MembersTell(f: Features, doc: string, cur: nat, depth: nat, members: seq<Member>,
                                       name: string)
    requires cur <= |doc|
    ensures Tells(f, doc, MembersEvents(f, doc, cur, depth, members, name),
                  ReadMembers(f, doc, cur, depth, members, name).Thrown?)
    decreases |doc| - cur, 2, 0
  {
    hide ReadPastComments, PastEvents, NameOf, ReadMember, MemberEvents, Recover, RecoverEvents, Tells;
    var t := ReadPastComments(f, doc, cur);
    PastIsHarmless(f, doc, cur);
    var rest := MembersEvents(f, doc, cur, depth, members, name)[|PastEvents(f, doc, cur)|..];
    var r := ReadMembers(f, doc, cur, depth, members, name);
    if t.kind == ObjectEnd && name == "" {
      NothingTells(f, doc);
    } else {
      RecoverTells(f, doc, t.end, ObjectEnd);
      if t.kind == StringToken || (t.kind == NumberToken && f.allowNumericKeys) {
        var n := NameOf(f, doc, t);
        if n.Some? {
          MemberTells(f, doc, t.end, depth, members, n.value);
        }
      }
    }
    TellsBoth(f, doc, PastEvents(f, doc, cur), rest, r.Thrown?);
  }

  lemma NothingTells(f: Features, doc: string)
    ensures Tells(f, doc, [], false)
  {
  }

  lemma RecoverTells(f: Features, doc: string, cur: nat, until: TokenType)
    requires cur <= |doc|
    ensures Tells(f, doc, RecoverEvents(f, doc, cur, until), false)
  {
    RecoverIsHarmless(f, doc, cur, until);
  }

  lemma {:induction false} MemberTells(f: Features, doc: string, cur: nat, depth: nat, members: seq<Member>,
                                       name: string)
    requires cur <= |doc|
    ensures Tells(f, doc, MemberEvents(f, doc, cur, depth, members, name),
                  ReadMember(f, doc, cur, depth, members, name).Thrown?)
    decreases |doc| - cur, 2, 1
  {
    hide ReadToken, TokenEvents, NamedEvents, ReadNamed, Recover, RecoverEvents, Tells;
    var colon := ReadToken(f, doc, cur);
    TokenIsHarmless(f, doc, cur);
    if colon.kind != MemberSeparator {
      RecoverTells(f, doc, colon.end, ObjectEnd);
      TellsBoth(f, doc, TokenEvents(doc, colon), RecoverEvents(f, doc, colon.end, ObjectEnd), false);
    } else {
      NamedTells(f, doc, colon.end, depth, members, name);
      var rest := [Named(|name|)] + NamedEvents(f, doc, colon.end, depth, members, name);
      TellsBoth(f, doc, TokenEvents(doc, colon), rest, ReadMember(f, doc, cur, depth, members, name).Thrown?);
    }
  }

  lemma {:induction false} NamedTells(f: Features, doc: string, cur: nat, depth: nat, members: seq<Member>,
                                      name: string)
    requires cur <= |doc|
    ensures Tells(f, doc, [Named(|name|)] + NamedEvents(f, doc, cur, depth, members, name),
                  ReadNamed(f, doc, cur, depth, members, name).Thrown?)
    decreases |doc| - cur, 2, 2
  {
    hide ReadValue, ValueEvents, AfterMember, AfterEvents, Recover, RecoverEvents, Tells, Lookup, Store;
    var r := ReadNamed(f, doc, cur, depth, members, name);
    if |name| >= MAX_KEY_LENGTH {
      TooLong(f, doc, name);
      assert [Named(|name|)] + [] == [Named(|name|)];
    } else {
      NameIsHarmless(f, doc, name);
      if f.rejectDupKeys && HasMember(members, name) {
        RecoverTells(f, doc, cur, ObjectEnd);
      } else {
        var before := Lookup(members, name);
        var events := ValueEvents(f, doc, cur, depth + 1, before);
        ValueTells(f, doc, cur, depth + 1, before);
        var v := ReadValue(f, doc, cur, depth + 1, before);
        if v.Thrown? {
          assert events + [] == events;
        } else {
          ValueIsHarmless(f, doc, events);
          RecoverTells(f, doc, v.current, ObjectEnd);
          if v.ok {
            var stored := Store(members, name, v.value);
            AfterTells(f, doc, v.current, depth, stored, name);
            TellsBoth(f, doc, events, AfterEvents(f, doc, v.current, depth, stored, name), r.Thrown?);
          } else {
            TellsBoth(f, doc, events, RecoverEvents(f, doc, v.current, ObjectEnd), false);
          }
        }
      }
      TellsBoth(f, doc, [Named(|name|)], NamedEvents(f, doc, cur, depth, members, name), r.Thrown?);
    }
  }

  lemma TooLong(f: Features, doc: string, name: string)
    requires |name| >= MAX_KEY_LENGTH
    ensures Tells(f, doc, [Named(|name|)], true)
  {
    assert Named(|name|) in [Named(|name|)];
  }

  lemma NameIsHarmless(f: Features, doc: string, name: string)
    requires |name| < MAX_KEY_LENGTH
    ensures Harmless(f, doc, [Named(|name|)])
  {
  }

  lemma ValueIsHarmless(f: Features, doc: string, events: seq<Event>)
    requires Tells(f, doc, events, false)
    ensures Harmless(f, doc, events)
  {
  }

  lemma {:induction false} AfterTells(f: Features, doc: string, cur: nat, depth: nat, stored: seq<Member>, name: string)
    requires cur <= |doc|
    ensures Tells(f, doc, AfterEvents(f, doc, cur, depth, stored, name),
                  AfterMember(f, doc, cur, depth, stored, name).Thrown?)
    decreases |doc| - cur, 2, 1
  {
    hide ReadToken, ReadPastComments, TokenEvents, PastEvents, ReadMembers, MembersEvents, Recover, RecoverEvents,
         Tells;
    var comma := ReadToken(f, doc, cur);
    TokenIsHarmless(f, doc, cur);
    if comma.kind !in {ObjectEnd, ArraySeparator, Comment} {
      RecoverTells(f, doc, comma.end, ObjectEnd);
      TellsBoth(f, doc, TokenEvents(doc, comma), RecoverEvents(f, doc, comma.end, ObjectEnd), false);
    } else {
      var next := if comma.kind == Comment then ReadPastComments(f, doc, comma.end) else comma;
      var skipped := if comma.kind == Comment then PastEvents(f, doc, comma.end) else [];
      var rest := if next.kind == ObjectEnd then [] else MembersEvents(f, doc, next.end, depth, stored, name);
      var thrown := AfterMember(f, doc, cur, depth, stored, name).Thrown?;
      if comma.kind == Comment {
        PastIsHarmless(f, doc, comma.end);
      }
      if next.kind == ObjectEnd {
        NothingTells(f, doc);
      } else {
        MembersTell(f, doc, next.end, depth, stored, name);
      }
      TellsBoth(f, doc, skipped, rest, thrown);
      TellsBoth(f, doc, TokenEvents(doc, comma), skipped + rest, thrown);
    }
  }

  lemma {:induction false} ElementsTell(f: Features, doc: string, cur: nat, depth: nat, items: seq<Value>)
    requires cur <= |doc|
    ensures Tells(f, doc, ElementsEvents(f, doc, cur, depth, items), ReadElements(f, doc, cur, depth, items).Thrown?)
    decreases |doc| - cur, 2, 0
  {
    hide ReadValue, ValueEvents, AfterElement, AfterElementEvents, Recover, RecoverEvents, Tells;
    ValueTells(f, doc, cur, depth + 1, Null);
    var r := ReadValue(f, doc, cur, depth + 1, Null);
    var events := ValueEvents(f, doc, cur, depth + 1, Null);
    if r.Thrown? {
      assert events + [] == events;
    } else {
      ValueIsHarmless(f, doc, events);
      RecoverTells(f, doc, r.current, ArrayEnd);
      var rest := if r.ok then AfterElementEvents(f, doc, r.current, depth, items + [r.value])
                  else RecoverEvents(f, doc, r.current, ArrayEnd);
      if r.ok {
        AfterElementTells(f, doc, r.current, depth, items + [r.value]);
      }
      TellsBoth(f, doc, events, rest, ReadElements(f, doc, cur, depth, items).Thrown?);
    }
  }

  lemma {:induction false} AfterElementTells(f: Features, doc: string, cur: nat, depth: nat, read: seq<Value>)
    requires cur <= |doc|
    ensures Tells(f, doc, AfterElementEvents(f, doc, cur, depth, read), AfterElement(f, doc, cur, depth, read).Thrown?)
    decreases |doc| - cur, 1, 2
  {
    hide ReadPastComments, PastEvents, ReadElements, ElementsEvents, Recover, RecoverEvents, Tells;
    var t := ReadPastComments(f, doc, cur);
    PastIsHarmless(f, doc, cur);
    var rest := AfterElementEvents(f, doc, cur, depth, read)[|PastEvents(f, doc, cur)|..];
    if t.kind == ArrayEnd {
      NothingTells(f, doc);
    } else if t.kind == ArraySeparator {
      ElementsTell(f, doc, t.end, depth, read);
    } else {
      RecoverTells(f, doc, t.end, ArrayEnd);
    }
    TellsBoth(f, doc, PastEvents(f, doc, cur), rest, AfterElement(f, doc, cur, depth, read).Thrown?);
  }

  /** Without regard to comments, a document makes the reader throw exactly if it goes beyond a limit. */
  lemma LimitsThrow(f: Features, doc: string, root: Value)
    ensures ReadDocument(f, doc, root).Thrown? <==> Exceeds(f, DocumentEvents(f, doc, root))
    ensures AllComments(f, doc, DocumentEvents(f, doc, root))
  {
    hide ReadValue, ValueEvents, FirstToken, FirstEvents;
    ValueTells(f, doc, 0, 1, root);
    var r := ReadValue(f, doc, 0, 1, root);
    var events := ValueEvents(f, doc, 0, 1, root);
    if r.Thrown? {
      assert events + [] == events;
    } else {
      FirstIsHarmless(f, doc, r.current);
      var rest := FirstEvents(f, doc, r.current) + if IsExtra(f, FirstToken(f, doc, r.current)) then [] else [Attach];
      assert Harmless(f, doc, rest);
      TellsFirst(f, doc, events, rest, false);
    }
  }

  // ----- The comments that throw

  /** The last value noted before event `i` is the one of event `j`. */
  ghost predicate LastEnd(events: seq<Event>, j: int, i: int) {
    0 <= j < i <= |events| && events[j].ValueEnd? && forall m :: j < m < i ==> !events[m].ValueEnd?
  }

  /** Event `i` is a comment behind a value, on the same line. */
  ghost predicate Behind(doc: string, events: seq<Event>, i: int) {
    && 0 <= i < |events| && events[i].Remark?
    && exists j :: LastEnd(events, j, i) && SameLine(doc, Some(events[j].at), events[i])
  }

  /** Event `i` is a comment that waits for the next value. */
  ghost predicate Waits(doc: string, events: seq<Event>, i: int) {
    0 <= i < |events| && events[i].Remark? && !Behind(doc, events, i)
  }

  ghost predicate Attaches(events: seq<Event>, a: int) {
    0 <= a < |events| && events[a].Attach?
  }

  /** The comments waiting before event `k` have all been handed over by then. */
  ghost predicate HandedOver(doc: string, events: seq<Event>, k: int) {
    forall m :: m < k && Waits(doc, events, m) ==> exists a :: m < a < k && Attaches(events, a)
  }

  /** Event `i` is the first of the comments that wait before event `k`. */
  ghost predicate Leads(doc: string, events: seq<Event>, i: int, k: int) {
    && 0 <= i < k && i < |events| && Waits(doc, events, i) && HandedOver(doc, events, i)
    && forall a :: i < a < k ==> !Attaches(events, a)
  }

  ghost predicate Quoted(e: Event) {
    e.Remark? && e.text != "" && e.text[0] == '\''
  }

  /** Event `k` makes the reader refuse a comment: this one, or those waiting because of the first. */
  ghost predicate Refuses(doc: string, events: seq<Event>, k: int) {
    || (Behind(doc, events, k) && Quoted(events[k]))
    || (Attaches(events, k) && exists i :: Leads(doc, events, i, k) && Quoted(events[i]))
  }

  ghost predicate NotesLast(events: seq<Event>, k: int, last: Option<nat>)
    requires k <= |events|
  {
    if last.Some? then exists j :: LastEnd(events, j, k) && last.value == events[j].at
    else forall m :: 0 <= m < k ==> !events[m].ValueEnd?
  }

  ghost predicate StartsWith(e: Event, waiting: string) {
    e.Remark? && |e.text| >= 2 && |waiting| >= 2 && e.text[0] == waiting[0]
  }

  ghost predicate NotesWaiting(doc: string, events: seq<Event>, k: int, waiting: string) {
    if waiting == "" then HandedOver(doc, events, k)
    else exists i :: Leads(doc, events, i, k) && StartsWith(events[i], waiting)
  }

  /** What the notes after `k` events say. */
  ghost predicate NotesAt(doc: string, events: seq<Event>, k: int, s: Notes)
    requires k <= |events|
  {
    NotesLast(events, k, s.last) && NotesWaiting(doc, events, k, s.waiting)
  }

  lemma NormalizedStart(text: string)
    requires |text| >= 2 && (text[0] == '/' || text[0] == '\'') && (text[1] == '/' || text[1] == '*')
    ensures |NormalizeEOL(text)| >= 2 && NormalizeEOL(text)[0] == text[0]
  {
    assert NormalizeEOL(text) == [text[0]] + ([text[1]] + NormalizeEOL(text[1..][1..]));
  }

  /** The comment of an event is on the last value's line, or not, as the notes have it. */
  lemma BehindAsNoted(doc: string, events: seq<Event>, k: nat, s: Notes)
    requires k < |events| && events[k].Remark? && NotesLast(events, k, s.last)
    ensures Behind(doc, events, k) <==> SameLine(doc, s.last, events[k])
  {
    if s.last.Some? {
      var j :| LastEnd(events, j, k) && s.last.value == events[j].at;
      forall i | LastEnd(events, i, k) ensures i == j {
      }
    }
  }

  lemma LastMoves(doc: string, events: seq<Event>, k: nat, s: Notes)
    requires k < |events| && NotesLast(events, k, s.last) && Note(doc, s, events[k]).Some?
    ensures NotesLast(events, k + 1, Note(doc, s, events[k]).value.last)
  {
    if events[k].ValueEnd? {
      assert LastEnd(events, k, k + 1);
    } else if s.last.Some? {
      var j :| LastEnd(events, j, k) && s.last.value == events[j].at;
      assert LastEnd(events, j, k + 1);
    }
  }

  /** Only the first comment of those that wait decides. */
  lemma OneLeader(doc: string, events: seq<Event>, k: int, i: int, j: int)
    requires Leads(doc, events, i, k) && Leads(doc, events, j, k)
    ensures i == j
  {
    hide Waits, Attaches;
  }

  lemma LeaderWaits(doc: string, events: seq<Event>, k: int, i: int)
    requires Leads(doc, events, i, k)
    ensures !HandedOver(doc, events, k)
  {
    hide Waits, Attaches;
  }

  lemma WaitingStays(doc: string, events: seq<Event>, k: nat, waiting: string)
    requires NotesWaiting(doc, events, k, waiting) && !Waits(doc, events, k) && !Attaches(events, k)
    ensures NotesWaiting(doc, events, k + 1, waiting)
  {
    hide Waits, Attaches, StartsWith;
    if waiting != "" {
      var i :| Leads(doc, events, i, k) && StartsWith(events[i], waiting);
      assert Leads(doc, events, i, k + 1);
    }
  }

  lemma WaitingGrows(doc: string, events: seq<Event>, k: nat, waiting: string, comment: string)
    requires k < |events| && NotesWaiting(doc, events, k, waiting) && Waits(doc, events, k)
    requires StartsWith(events[k], comment)
    ensures NotesWaiting(doc, events, k + 1, waiting + comment)
  {
    if waiting == "" {
      assert waiting + comment == comment;
      assert Leads(doc, events, k, k + 1);
    } else {
      var i :| Leads(doc, events, i, k) && StartsWith(events[i], waiting);
      assert Leads(doc, events, i, k + 1);
    }
  }

  lemma WaitingRefused(f: Features, doc: string, events: seq<Event>, k: nat, waiting: string)
    requires k < |events| && AllComments(f, doc, events) && NotesWaiting(doc, events, k, waiting) && Attaches(events, k)
    ensures Refuses(doc, events, k) <==> waiting != "" && !Settable(waiting)
    ensures HandedOver(doc, events, k + 1)
  {
    hide Waits, HandedOver, Behind;
    assert HandedOver(doc, events, k + 1) by {
      AllHandedOver(doc, events, k);
    }
    if waiting == "" {
      forall i ensures !Leads(doc, events, i, k) {
        if Leads(doc, events, i, k) {
          LeaderWaits(doc, events, k, i);
        }
      }
    } else {
      var i :| Leads(doc, events, i, k) && StartsWith(events[i], waiting);
      assert events[i] in events;
      forall j | Leads(doc, events, j, k) ensures j == i {
        OneLeader(doc, events, k, i, j);
      }
    }
  }

  lemma AllHandedOver(doc: string, events: seq<Event>, k: nat)
    requires Attaches(events, k)
    ensures HandedOver(doc, events, k + 1)
  {
  }

  /** One more event: the notes go on telling, unless the event refuses a comment. */
  lemma NotesGoOn(f: Features, doc: string, events: seq<Event>, k: nat, s: Notes)
    requires k < |events| && AllComments(f, doc, events) && NotesAt(doc, events, k, s)
    ensures Note(doc, s, events[k]).None? <==> Refuses(doc, events, k)
    ensures Note(doc, s, events[k]).Some? ==> NotesAt(doc, events, k + 1, Note(doc, s, events[k]).value)
  {
    hide Leads, HandedOver, SameLine, NotesLast, NotesWaiting, NormalizeEOL;
    var e := events[k];
    assert e in events;
    if Note(doc, s, e).Some? {
      LastMoves(doc, events, k, s);
    }
    if e.Remark? {
      BehindAsNoted(doc, events, k, s);
      NormalizedStart(e.text);
      if Behind(doc, events, k) {
        WaitingStays(doc, events, k, s.waiting);
      } else {
        WaitingGrows(doc, events, k, s.waiting, NormalizeEOL(e.text));
      }
    } else if e.Attach? {
      WaitingRefused(f, doc, events, k, s.waiting);
      NothingWaits(doc, events, k + 1);
    } else {
      WaitingStays(doc, events, k, s.waiting);
    }
  }

  lemma NothingWaits(doc: string, events: seq<Event>, k: nat)
    ensures NotesWaiting(doc, events, k, "") <==> HandedOver(doc, events, k)
  {
  }

  lemma {:induction false} RestRefused(f: Features, doc: string, events: seq<Event>, k: nat, s: Notes)
    requires k <= |events| && AllComments(f, doc, events) && NotesAt(doc, events, k, s)
    ensures Follow(true, doc, s, events[k..]).None? <==> exists m :: k <= m < |events| && Refuses(doc, events, m)
    decreases |events| - k
  {
    hide Note, Refuses, NotesAt;
    if k < |events| {
      NotesGoOn(f, doc, events, k, s);
      assert events[k..][0] == events[k] && events[k..][1..] == events[k + 1..];
      var t := Note(doc, s, events[k]);
      if t.Some? {
        RestRefused(f, doc, events, k + 1, t.value);
      }
    }
  }

  /** The reader refuses a comment somewhere in the document. */
  ghost predicate Refused(f: Features, doc: string, events: seq<Event>) {
    Collects(f) && exists k :: 0 <= k < |events| && Refuses(doc, events, k)
  }

  /**
   * When reading throws, for every document and all settings: at a limit, or at a comment that
   * starts with a quote and either stands behind a value on its line, or is the first of those
   * that a value takes over.
   */
  lemma ParseThrows(f: Features, doc: string, root: Value)
    ensures var events := DocumentEvents(f, doc, root);
            Parse(f, doc, root).Thrown? <==> Exceeds(f, events) || Refused(f, doc, events)
  {
    hide DocumentEvents, ReadDocument, Refuses, Exceeds, AllComments;
    LimitsThrow(f, doc, root);
    var events := DocumentEvents(f, doc, root);
    assert events[0..] == events;
    if Collects(f) {
      NoNotes(doc, events);
      RestRefused(f, doc, events, 0, NOTHING);
    }
  }

  lemma NoNotes(doc: string, events: seq<Event>)
    ensures NotesAt(doc, events, 0, NOTHING)
  {
  }

  /** The settings and the documents for which only the limits throw, whatever comments there are. */
  predicate SafeComments(f: Features, doc: string) {
    || !f.collectComments || !f.allowComments || f.allowSingleQuotes
    || forall i :: 0 <= i < |doc| - 1 && doc[i] == '\'' ==> doc[i + 1] != '/' && doc[i + 1] != '*'
  }

  lemma OnlyLimitsThrow(f: Features, doc: string, root: Value)
    requires SafeComments(f, doc)
    ensures Parse(f, doc, root) == ReadDocument(f, doc, root)
    ensures Parse(f, doc, root).Thrown? <==> Exceeds(f, DocumentEvents(f, doc, root))
  {
    hide DocumentEvents, ReadDocument, Exceeds, Behind, Leads, Waits;
    LimitsThrow(f, doc, root);
    ParseThrows(f, doc, root);
    var events := DocumentEvents(f, doc, root);
    if Collects(f) {
      forall e <- events ensures !Quoted(e) {
        if e.Remark? {
          CommentAt(f, doc, e);
        }
      }
      forall k | 0 <= k < |events| ensures !Refuses(doc, events, k) {
        NothingQuoted(doc, events, k);
      }
    }
  }

  lemma CommentAt(f: Features, doc: string, e: Event)
    requires e.Remark? && IsComment(f, doc, e)
    ensures doc[e.start] == e.text[0] && doc[e.start + 1] == e.text[1]
  {
    var text := doc[e.start..e.start + |e.text|];
    assert text[0] == doc[e.start] && text[1] == doc[e.start + 1];
  }

  lemma NothingQuoted(doc: string, events: seq<Event>, k: nat)
    requires k < |events| && forall e <- events :: !Quoted(e)
    ensures !Refuses(doc, events, k)
  {
  }

  lemma {:induction false} PastAreRemarks(f: Features, doc: string, cur: nat)
    requires cur <= |doc|
    ensures forall e <- PastEvents(f, doc, cur) :: e.Remark?
    decreases |doc| - cur
  {
    hide ReadToken;
    var t := ReadToken(f, doc, cur);
    if t.kind == Comment {
      PastAreRemarks(f, doc, t.end);
    }
  }

  /** A comment that starts with a quote at the beginning of a document always makes the reader throw. */
  lemma LeadingQuoteThrows(f: Features, doc: string, root: Value)
    requires Collects(f) && ReadToken(f, doc, 0).kind == Comment && doc[ReadToken(f, doc, 0).start] == '\''
    ensures Parse(f, doc, root).Thrown?
  {
    hide ReadToken, FirstToken, InsideEvents, ReadValue, EndEvents, Exceeds, Parse, Behind;
    ParseThrows(f, doc, root);
    var events, past := DocumentEvents(f, doc, root), PastEvents(f, doc, 0);
    if 1 > f.stackLimit {
      assert events[0] == Enter(1);
      DeepExceeds(f, events);
    } else {
      PastAreRemarks(f, doc, 0);
      var k := 1 + |past|;
      assert events[..k] == [Enter(1)] + past && Attaches(events, k);
      assert past[0] == events[1] && Quoted(past[0]);
      assert forall i :: 1 <= i < k ==> events[i] == past[i - 1] && past[i - 1] in past;
      RemarksBehindNothing(doc, events, 1);
      assert Leads(doc, events, 1, k);
      assert Refuses(doc, events, k);
    }
  }

  lemma DeepExceeds(f: Features, events: seq<Event>)
    requires events != [] && OverLimit(f, events[0])
    ensures Exceeds(f, events)
  {
  }

  lemma RemarksBehindNothing(doc: string, events: seq<Event>, k: nat)
    requires forall i :: 0 <= i < k && i < |events| ==> !events[i].ValueEnd?
    ensures !Behind(doc, events, k)
  {
  }
}
