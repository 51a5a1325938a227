/** The reader on a layout: it reads back the value whose tokens are laid out. */
module JsonRoundTrip {
  import opened Wrappers
  import opened JsonText
  import opened JsonNumber
  import opened JsonValue
  import opened JsonGrammar
  import opened JsonComments
  import opened JsonLayout

  // ----- Members are stored in order

  lemma {:induction false} StoreLast(members: seq<Member>, name: string, value: Value)
    requires forall i :: 0 <= i < |members| ==> BytesLess(members[i].name, name)
    ensures Store(members, name, value) == members + [Member(name, value)]
  {
    if members != [] {
      BytesTotal(members[0].name, name);
      StoreLast(members[1..], name, value);
      assert members == [members[0]] + members[1..];
    }
  }

  lemma NameIsNew(members: seq<Member>, name: string)
    requires forall i :: 0 <= i < |members| ==> BytesLess(members[i].name, name)
    ensures !HasMember(members, name)
  {
    BytesTotal(name, name);
  }

  // ----- Events without comments

  ghost predicate Plain(events: seq<Event>) {
    forall e <- events :: !e.Remark?
  }

  lemma {:induction false} PlainIsFollowed(collect: bool, doc: string, s: Notes, events: seq<Event>)
    requires Plain(events) && s.waiting == ""
    ensures Follow(collect, doc, s, events).Some?
    decreases |events|
  {
    if collect && events != [] {
      assert events[0] in events;
      PlainIsFollowed(collect, doc, Note(doc, s, events[0]).value, events[1..]);
    }
  }

  lemma PlainValue(f: Features, doc: string, p: nat, depth: nat, before: Value)
    requires p <= |doc| && FirstEvents(f, doc, p) == [] && Plain(InsideEvents(f, doc, p, depth))
    ensures Plain(ValueEvents(f, doc, p, depth, before))
  {
    hide FirstEvents, InsideEvents, FirstToken, ReadValue, StartsValue;
  }

  lemma PlainScalar(f: Features, doc: string, p: nat, depth: nat, before: Value)
    requires p <= |doc| && FirstEvents(f, doc, p) == [] && FirstToken(f, doc, p).kind !in {ObjectBegin, ArrayBegin}
    ensures Plain(ValueEvents(f, doc, p, depth, before))
  {
    hide FirstEvents, FirstToken, ValueEvents, Unescape;
    PlainValue(f, doc, p, depth, before);
  }

  // ----- The reader on a layout

  ghost predicate Readable(v: Value) {
    Representable(v) && RealFree(v) && Textual(v)
  }

  ghost predicate ReadableItems(items: seq<Value>) {
    forall k :: 0 <= k < |items| ==> Readable(items[k])
  }

  ghost predicate ReadableMembers(members: seq<Member>) {
    && Sorted(members)
    && (forall k :: 0 <= k < |members| ==>
                      && IsBytes(members[k].name) && WellFormed(members[k].name)
                      && |members[k].name| < MAX_KEY_LENGTH && Readable(members[k].value))
  }

  /** The outcome for a value of depth `d` read at stack height `depth`: there is room, or the limit is hit. */
  ghost function Expected(f: Features, v: Value, depth: nat, d: nat, e: int): Outcome
    requires e >= 0
  {
    if depth + d > f.stackLimit + 1 then Thrown else Done(true, v, e, 0)
  }

  lemma {:induction false} ReadsValue(f: Features, doc: string, p: nat, v: Value, depth: nat, before: Value, e: nat)
    requires p <= |doc| && Readable(v) && Run(doc, p, Tokens(v)) == e && Delimited(doc, e)
    ensures ReadValue(f, doc, p, depth, before) == Expected(f, Norm(v), depth, Depth(v), e)
    ensures Plain(ValueEvents(f, doc, p, depth, before))
    decreases v, 2
  {
    hide ValueEvents;
    PlainTooDeep(f, doc, p, depth, before);
    if depth <= f.stackLimit {
      match v
      case Arr(items) => ReadsArray(f, doc, p, items, depth, before, e);
      case Obj(members) => ReadsObject(f, doc, p, members, depth, before, e);
      case _ => ReadsScalar(f, doc, p, v, depth, before, e);
    }
  }

  lemma PlainTooDeep(f: Features, doc: string, p: nat, depth: nat, before: Value)
    requires p <= |doc|
    ensures depth > f.stackLimit ==> Plain(ValueEvents(f, doc, p, depth, before))
  {
  }

  lemma SpacesThenToken(f: Features, doc: string, p: nat)
    requires p <= |doc|
    ensures ReadToken(f, doc, p) == ReadToken(f, doc, SkipSpaces(doc, p))
    ensures ReadToken(f, doc, p).kind != Comment ==> FirstToken(f, doc, p) == ReadToken(f, doc, p)
    ensures ReadToken(f, doc, p).kind != Comment ==> ReadPastComments(f, doc, p) == ReadToken(f, doc, p)
    ensures ReadToken(f, doc, p).kind != Comment ==> FirstEvents(f, doc, p) == PastEvents(f, doc, p) == []
  {
    hide ScanString, ScanNumber, ScanComment, ScanWord, Tok;
    var q := SkipSpaces(doc, p);
    SkipIsFirst(doc, q, q);
  }

  /** The token that a scalar is read from. */
  lemma ScalarToken(f: Features, doc: string, p: nat, v: Value, e: nat)
    requires p <= |doc| && Readable(v) && !v.Arr? && !v.Obj? && Run(doc, p, Tokens(v)) == e && Delimited(doc, e)
    ensures ReadToken(f, doc, p)
         == Token(match v case Null => NullToken case Bool(b) => (if b then TrueToken else FalseToken)
                          case Str(_) => StringToken case _ => NumberToken,
                  SkipSpaces(doc, p), e)
    ensures doc[SkipSpaces(doc, p)..e] == Tokens(v)[0]
    ensures v.Str? ==> |Tokens(v)[0]| >= 2 && doc[SkipSpaces(doc, p) + 1..e - 1] == Escape(v.s)
  {
    hide ReadToken, Digits, Escape, Quote, Delimited;
    var q := SkipSpaces(doc, p);
    var t := Tokens(v)[0];
    assert Run(doc, e, Tokens(v)[1..]) == e;
    assert Matches(doc, q, t) && e == q + |t|;
    SpacesThenToken(f, doc, p);
    match v
    case Null => ReadsWord(f, doc, q, t);
    case Bool(b) => ReadsWord(f, doc, q, t);
    case Int(i) => ReadsInteger(f, doc, q, i);
    case UInt(u) => ReadsInteger(f, doc, q, u);
    case Str(s) => ReadsQuoted(f, doc, q, s);
  }

  lemma ReadsScalar(f: Features, doc: string, p: nat, v: Value, depth: nat, before: Value, e: nat)
    requires p <= |doc| && Readable(v) && !v.Arr? && !v.Obj? && Run(doc, p, Tokens(v)) == e && Delimited(doc, e)
    requires depth <= f.stackLimit
    ensures ReadValue(f, doc, p, depth, before) == Done(true, Norm(v), e, 0)
    ensures Plain(ValueEvents(f, doc, p, depth, before))
  {
    hide ReadValue, ReadToken, ValueEvents, Delimited, Tokens, Run, SkipSpaces, Plain, Quote, IntText, FirstToken,
         Unescape;
    ScalarToken(f, doc, p, v, e);
    SpacesThenToken(f, doc, p);
    ScalarIsPlain(f, doc, p, v, depth, before, e);
    ScalarText(v);
    if v.Int? || v.UInt? {
      var i := if v.Int? then v.i else v.u;
      DecodePrinted(i);
      NumberStep(f, doc, p, depth, before);
    } else if v.Str? {
      UnescapeEscape(v.s);
      StringStep(f, doc, p, depth, before, v.s);
    } else {
      WordStep(f, doc, p, depth, before);
    }
  }

  lemma NumberStep(f: Features, doc: string, p: nat, depth: nat, before: Value)
    requires p <= |doc| && depth <= f.stackLimit && FirstToken(f, doc, p).kind == NumberToken
    ensures var t := FirstToken(f, doc, p);
            var v := NumberValue(f, doc[t.start..t.end]);
            v.Some? ==> ReadValue(f, doc, p, depth, before) == Done(true, v.value, t.end, 0)
  {
    hide FirstToken, NumberValue, ReadMembers, ReadElements;
  }

  lemma StringStep(f: Features, doc: string, p: nat, depth: nat, before: Value, s: string)
    requires p <= |doc| && depth <= f.stackLimit && FirstToken(f, doc, p).kind == StringToken
    requires var t := FirstToken(f, doc, p); Unescape(doc[t.start + 1..t.end - 1]) == Some(s)
    requires |s| <= MAX_STRING_LENGTH
    ensures ReadValue(f, doc, p, depth, before) == Done(true, Str(s), FirstToken(f, doc, p).end, 0)
  {
    hide FirstToken, Unescape, ReadMembers, ReadElements;
    assert StringOf(s) == s;
  }

  lemma WordStep(f: Features, doc: string, p: nat, depth: nat, before: Value)
    requires p <= |doc| && depth <= f.stackLimit && FirstToken(f, doc, p).kind in {NullToken, TrueToken, FalseToken}
    ensures var t := FirstToken(f, doc, p);
            var v := if t.kind == NullToken then Null else Bool(t.kind == TrueToken);
            ReadValue(f, doc, p, depth, before) == Done(true, v, t.end, 0)
  {
    hide FirstToken, ReadMembers, ReadElements;
  }

  lemma ScalarText(v: Value)
    ensures v.Int? ==> Tokens(v) == [IntText(v.i)]
    ensures v.UInt? ==> Tokens(v) == [IntText(v.u)]
  {
    hide IntText;
  }

  lemma ScalarIsPlain(f: Features, doc: string, p: nat, v: Value, depth: nat, before: Value, e: nat)
    requires p <= |doc| && Readable(v) && !v.Arr? && !v.Obj? && Run(doc, p, Tokens(v)) == e && Delimited(doc, e)
    ensures Plain(ValueEvents(f, doc, p, depth, before))
  {
    hide ReadToken, FirstEvents, FirstToken, ValueEvents, Digits, Escape, Quote, Delimited, Plain;
    SpacesThenToken(f, doc, p);
    ScalarToken(f, doc, p, v, e);
    PlainScalar(f, doc, p, depth, before);
  }

  lemma ReadsWord(f: Features, doc: string, q: nat, t: string)
    requires t in {"null", "true", "false"} && Matches(doc, q, t)
    ensures ReadToken(f, doc, q)
         == Token(if t == "null" then NullToken else if t == "true" then TrueToken else FalseToken, q, q + |t|)
  {
    var head, tail := t[..1], t[1..];
    assert t == head + tail;
    MatchesParts(doc, q, head, tail);
    CharAt(doc, q, head, 0);
    assert SkipSpaces(doc, q) == q;
  }

  // The branches of the reader, one lemma each.

  lemma ArrayStep(f: Features, doc: string, p: nat, depth: nat, before: Value)
    requires p <= |doc| && depth <= f.stackLimit && FirstToken(f, doc, p).kind == ArrayBegin
    requires FirstEvents(f, doc, p) == []
    ensures var q := SkipSpaces(doc, FirstToken(f, doc, p).end);
            && ReadValue(f, doc, p, depth, before)
               == (if NextChar(doc, q) == ']' then Done(true, Arr([]), q + 1, 0)
                   else ReadElements(f, doc, q, depth, []))
            && (NextChar(doc, q) == ']' || Plain(ElementsEvents(f, doc, q, depth, [])) ==>
                  Plain(ValueEvents(f, doc, p, depth, before)))
  {
    hide FirstToken, FirstEvents, SkipSpaces, ReadElements, ElementsEvents, ValueEvents, ReadMembers, MembersEvents;
    var q := SkipSpaces(doc, FirstToken(f, doc, p).end);
    if NextChar(doc, q) == ']' || Plain(ElementsEvents(f, doc, q, depth, [])) {
      PlainValue(f, doc, p, depth, before);
    }
  }

  lemma ElementStep(f: Features, doc: string, p: nat, depth: nat, read: seq<Value>, v: Value, middle: nat)
    requires p <= |doc| && middle <= |doc| && ReadValue(f, doc, p, depth + 1, Null) == Done(true, v, middle, 0)
    requires Plain(ValueEvents(f, doc, p, depth + 1, Null))
    ensures ReadElements(f, doc, p, depth, read) == AfterElement(f, doc, middle, depth, read + [v])
    ensures Plain(AfterElementEvents(f, doc, middle, depth, read + [v])) ==>
             Plain(ElementsEvents(f, doc, p, depth, read))
  {
    hide ReadValue, ValueEvents, AfterElement, AfterElementEvents;
  }

  lemma AfterElementStep(f: Features, doc: string, middle: nat, depth: nat, read: seq<Value>)
    requires middle <= |doc| && PastEvents(f, doc, middle) == []
    ensures var t := ReadPastComments(f, doc, middle);
            && (t.kind == ArrayEnd ==>
                  && AfterElement(f, doc, middle, depth, read) == Done(true, Arr(read), t.end, 0)
                  && Plain(AfterElementEvents(f, doc, middle, depth, read)))
            && (t.kind == ArraySeparator ==>
                  && AfterElement(f, doc, middle, depth, read) == ReadElements(f, doc, t.end, depth, read)
                  && (Plain(ElementsEvents(f, doc, t.end, depth, read)) ==>
                        Plain(AfterElementEvents(f, doc, middle, depth, read))))
  {
    hide ReadPastComments, PastEvents, ReadElements, ElementsEvents;
  }

  lemma ObjectStep(f: Features, doc: string, p: nat, depth: nat, before: Value)
    requires p <= |doc| && depth <= f.stackLimit && FirstToken(f, doc, p).kind == ObjectBegin
    requires FirstEvents(f, doc, p) == []
    ensures var start := FirstToken(f, doc, p).end;
            && ReadValue(f, doc, p, depth, before) == ReadMembers(f, doc, start, depth, [], "")
            && (Plain(MembersEvents(f, doc, start, depth, [], "")) ==> Plain(ValueEvents(f, doc, p, depth, before)))
  {
    hide FirstToken, FirstEvents, ReadMembers, MembersEvents, ValueEvents;
    if Plain(MembersEvents(f, doc, FirstToken(f, doc, p).end, depth, [], "")) {
      PlainValue(f, doc, p, depth, before);
    }
  }

  /** Behind the colon, a member goes on with its value. */
  lemma ColonStep(f: Features, doc: string, colon: nat, start: nat, depth: nat, read: seq<Member>, name: string)
    requires colon <= start <= |doc|
    requires ReadToken(f, doc, colon).kind == MemberSeparator && ReadToken(f, doc, colon).end == start
    ensures ReadMember(f, doc, colon, depth, read, name) == ReadNamed(f, doc, start, depth, read, name)
    ensures Plain(NamedEvents(f, doc, start, depth, read, name)) ==>
             Plain(MemberEvents(f, doc, colon, depth, read, name))
  {
    hide ReadToken, ReadNamed, NamedEvents;
  }

  lemma NamedStep(f: Features, doc: string, start: nat, depth: nat, read: seq<Member>, name: string, v: Value,
                  middle: nat)
    requires start <= |doc| && middle <= |doc| && |name| < MAX_KEY_LENGTH && !HasMember(read, name)
    requires ReadValue(f, doc, start, depth + 1, Lookup(read, name)) == Done(true, v, middle, 0)
    requires Plain(ValueEvents(f, doc, start, depth + 1, Lookup(read, name)))
    ensures var stored := Store(read, name, v);
            && ReadNamed(f, doc, start, depth, read, name) == AfterMember(f, doc, middle, depth, stored, name)
            && (Plain(AfterEvents(f, doc, middle, depth, stored, name)) ==>
                  Plain(NamedEvents(f, doc, start, depth, read, name)))
  {
    hide ReadValue, Store, Lookup, AfterMember, ValueEvents, AfterEvents;
  }

  lemma AfterStep(f: Features, doc: string, middle: nat, depth: nat, stored: seq<Member>, name: string)
    requires middle <= |doc|
    ensures var t := ReadToken(f, doc, middle);
            && (t.kind == ObjectEnd ==>
                  && AfterMember(f, doc, middle, depth, stored, name) == Done(true, Obj(stored), t.end, 0)
                  && Plain(AfterEvents(f, doc, middle, depth, stored, name)))
            && (t.kind == ArraySeparator ==>
                  && AfterMember(f, doc, middle, depth, stored, name) == ReadMembers(f, doc, t.end, depth, stored, name)
                  && (Plain(MembersEvents(f, doc, t.end, depth, stored, name)) ==>
                        Plain(AfterEvents(f, doc, middle, depth, stored, name))))
  {
    hide ReadToken, ReadPastComments, ReadMembers, MembersEvents;
  }

  lemma ReadMemberThrows(f: Features, doc: string, start: nat, depth: nat, read: seq<Member>, name: string)
    requires start <= |doc| && |name| < MAX_KEY_LENGTH && !HasMember(read, name)
    requires ReadValue(f, doc, start, depth + 1, Lookup(read, name)) == Thrown
    requires Plain(ValueEvents(f, doc, start, depth + 1, Lookup(read, name)))
    ensures ReadNamed(f, doc, start, depth, read, name) == Thrown
    ensures Plain(NamedEvents(f, doc, start, depth, read, name))
  {
    hide ReadValue, Store, Lookup, ValueEvents;
  }

  lemma ReadElementThrows(f: Features, doc: string, p: nat, depth: nat, read: seq<Value>)
    requires p <= |doc| && ReadValue(f, doc, p, depth + 1, Null) == Thrown
    requires Plain(ValueEvents(f, doc, p, depth + 1, Null))
    ensures ReadElements(f, doc, p, depth, read) == Thrown
    ensures Plain(ElementsEvents(f, doc, p, depth, read))
  {
    hide ReadPastComments, ReadValue, ValueEvents;
  }

  lemma FirstTokenOfValue(v: Value)
    requires Readable(v)
    ensures Tokens(v) != [] && Tokens(v)[0] != "" && Tokens(v)[0][0] !in {']', '}', ',', ':'}
  {
    match v
    case Int(i) => IntTextStart(i);
    case UInt(u) => IntTextStart(u);
    case _ =>
  }

  lemma {:induction false} ReadsArray(f: Features, doc: string, p: nat, items: seq<Value>, depth: nat, before: Value,
                                      e: nat)
    requires p <= |doc| && ReadableItems(items) && Run(doc, p, Tokens(Arr(items))) == e
    requires depth <= f.stackLimit
    ensures ReadValue(f, doc, p, depth, before) == Expected(f, Norm(Arr(items)), depth, Depth(Arr(items)), e)
    ensures Plain(ValueEvents(f, doc, p, depth, before))
    decreases items, |items| + 1
  {
    hide ReadToken, Run, ReadElements, ReadValue, FirstToken, SkipSpaces, ValueEvents, ElementsEvents, FirstEvents,
         PastEvents, Tokens, TokensOfItems, Norm, NormItems,
         Depth, DepthOfItems, Readable, Matches;
    ArrayParts(items);
    var inside := TokensOfItems(items, 0) + ["]"];
    assert Tokens(Arr(items)) == ["["] + inside;
    ReadsSeparator(f, doc, p, "[", inside);
    SpacesThenToken(f, doc, p);
    ArrayStep(f, doc, p, depth, before);
    var q := SkipSpaces(doc, p) + 1;
    if items == [] {
      NoItems();
      assert inside == ["]"] + [];
      ReadsSeparator(f, doc, q, "]", []);
      RunNothing(doc, SkipSpaces(doc, q) + 1);
    } else {
      var r := SkipSpaces(doc, q);
      var rest := Tokens(items[0]) + TokensOfItems(items, 1) + ["]"];
      FirstTokenOfValue(items[0]);
      ItemsFrom(items, 0);
      assert inside == rest;
      RunStartsAt(doc, q, inside);
      RunFromSpace(doc, q, r, inside);
      ReadsElements(f, doc, r, items, 0, [], depth, e);
    }
  }

  lemma ArrayParts(items: seq<Value>)
    ensures Tokens(Arr(items)) == ["["] + TokensOfItems(items, 0) + ["]"]
    ensures Norm(Arr(items)) == Arr(NormItems(items, 0)) && Depth(Arr(items)) == 1 + DepthOfItems(items, 0)
  {
  }

  lemma ObjectParts(members: seq<Member>)
    ensures Tokens(Obj(members)) == ["{"] + TokensOfMembers(members, 0) + ["}"]
    ensures Norm(Obj(members)) == Obj(NormMembers(members, 0)) && Depth(Obj(members)) == 1 + DepthOfMembers(members, 0)
  {
  }

  lemma NoItems()
    ensures TokensOfItems([], 0) == [] && NormItems([], 0) == [] && DepthOfItems([], 0) == 0
  {
  }

  lemma ItemsFrom(items: seq<Value>, k: nat)
    requires k < |items|
    ensures TokensOfItems(items, k)
         == (if k > 0 then [","] else []) + Tokens(items[k]) + TokensOfItems(items, k + 1)
    ensures DepthOfItems(items, k) == Max(Depth(items[k]), DepthOfItems(items, k + 1))
    ensures k + 1 == |items| ==> TokensOfItems(items, k + 1) == [] && DepthOfItems(items, k + 1) == 0
  {
  }

  lemma MembersFrom(members: seq<Member>, k: nat)
    requires k < |members|
    ensures TokensOfMembers(members, k)
         == (if k > 0 then [","] else []) + TokensOfMember(members[k]) + TokensOfMembers(members, k + 1)
    ensures DepthOfMembers(members, k) == Max(Depth(members[k].value), DepthOfMembers(members, k + 1))
    ensures k + 1 == |members| ==> TokensOfMembers(members, k + 1) == [] && DepthOfMembers(members, k + 1) == 0
  {
  }

  lemma RunNothing(doc: string, p: nat)
    requires p <= |doc|
    ensures Run(doc, p, []) == p
  {
  }

  lemma RunStartsAt(doc: string, p: nat, toks: seq<string>)
    requires p <= |doc| && toks != [] && toks[0] != "" && Run(doc, p, toks) >= 0
    ensures var q := SkipSpaces(doc, p);
            && Matches(doc, q, toks[0]) && doc[q] == toks[0][0]
            && Run(doc, q + |toks[0]|, toks[1..]) == Run(doc, p, toks)
  {
    CharAt(doc, SkipSpaces(doc, p), toks[0], 0);
  }

  /** A run over a value's tokens and what follows them, split in two. */
  lemma RunSplits(doc: string, p: nat, v: Value, tail: seq<string>, e: nat) returns (middle: nat)
    requires p <= |doc| && Readable(v) && Run(doc, p, Tokens(v) + tail) == e
    requires tail != [] && tail[0] in {",", "]", "}"}
    ensures middle <= |doc| && Run(doc, p, Tokens(v)) == middle && Run(doc, middle, tail) == e && Delimited(doc, middle)
  {
    hide Step, Tokens;
    RunConcat(doc, p, Tokens(v), tail);
    middle := Run(doc, p, Tokens(v));
    DelimitedBySeparator(doc, middle, tail);
  }

  lemma {:induction false} ReadsElements(f: Features, doc: string, p: nat, items: seq<Value>, k: nat,
                                         read: seq<Value>, depth: nat, e: nat)
    requires p <= |doc| && k < |items| && ReadableItems(items) && depth <= f.stackLimit
    requires Run(doc, p, Tokens(items[k]) + TokensOfItems(items, k + 1) + ["]"]) == e
    requires read == NormItems(items, 0)[..k]
    ensures ReadElements(f, doc, p, depth, read)
            == Expected(f, Arr(NormItems(items, 0)), depth, 1 + DepthOfItems(items, k), e)
    ensures Plain(ElementsEvents(f, doc, p, depth, read))
    decreases items, |items| - k
  {
    hide ValueEvents, ElementsEvents, FirstEvents, PastEvents, Plain, AfterElement, AfterElementEvents;
    hide ReadToken, ReadPastComments, Run, ReadValue, ReadElements, SkipSpaces, Tokens, Norm, Depth, TokensOfItems,
         NormItems, DepthOfItems, Readable, Delimited;
    var v, tail := items[k], TokensOfItems(items, k + 1) + ["]"];
    assert Tokens(v) + TokensOfItems(items, k + 1) + ["]"] == Tokens(v) + tail;
    ItemsFrom(items, k);
    if k + 1 < |items| {
      ItemsFrom(items, k + 1);
    }
    var middle := RunSplits(doc, p, v, tail, e);
    ReadsValue(f, doc, p, v, depth + 1, Null, middle);
    if depth + 1 + Depth(v) <= f.stackLimit + 1 {
      var next := read + [Norm(v)];
      assert next == NormItems(items, 0)[..k + 1];
      ElementStep(f, doc, p, depth, read, Norm(v), middle);
      if k + 1 == |items| {
        assert tail == ["]"];
        ElementsEnd(f, doc, middle, depth, next, e);
        assert next == NormItems(items, 0);
      } else {
        var rest := Tokens(items[k + 1]) + TokensOfItems(items, k + 2) + ["]"];
        assert tail == [","] + rest;
        ElementsGoOn(f, doc, middle, depth, next, rest);
        ReadsElements(f, doc, SkipSpaces(doc, middle) + 1, items, k + 1, next, depth, e);
      }
    } else {
      ReadElementThrows(f, doc, p, depth, read);
    }
  }

  lemma ElementsEnd(f: Features, doc: string, middle: nat, depth: nat, read: seq<Value>, e: nat)
    requires middle <= |doc| && Run(doc, middle, ["]"]) == e
    ensures AfterElement(f, doc, middle, depth, read) == Done(true, Arr(read), e, 0)
    ensures Plain(AfterElementEvents(f, doc, middle, depth, read))
  {
    hide ReadToken, ReadPastComments, PastEvents, Run, AfterElement, AfterElementEvents, SkipSpaces;
    assert ["]"] + [] == ["]"];
    ReadsSeparator(f, doc, middle, "]", []);
    SpacesThenToken(f, doc, middle);
    RunNothing(doc, SkipSpaces(doc, middle) + 1);
    AfterElementStep(f, doc, middle, depth, read);
  }

  lemma ElementsGoOn(f: Features, doc: string, middle: nat, depth: nat, read: seq<Value>, rest: seq<string>)
    requires middle <= |doc| && Run(doc, middle, [","] + rest) >= 0
    ensures var next := SkipSpaces(doc, middle) + 1;
            && next <= |doc| && Run(doc, next, rest) == Run(doc, middle, [","] + rest)
            && AfterElement(f, doc, middle, depth, read) == ReadElements(f, doc, next, depth, read)
            && (Plain(ElementsEvents(f, doc, next, depth, read)) ==>
                Plain(AfterElementEvents(f, doc, middle, depth, read)))
  {
    hide ReadToken, ReadPastComments, PastEvents, Run, AfterElement, AfterElementEvents, SkipSpaces, ReadElements,
         ElementsEvents;
    ReadsSeparator(f, doc, middle, ",", rest);
    SpacesThenToken(f, doc, middle);
    AfterElementStep(f, doc, middle, depth, read);
  }

  lemma {:induction false} ReadsObject(f: Features, doc: string, p: nat, members: seq<Member>, depth: nat,
                                       before: Value, e: nat)
    requires p <= |doc| && ReadableMembers(members) && Run(doc, p, Tokens(Obj(members))) == e
    requires depth <= f.stackLimit
    ensures ReadValue(f, doc, p, depth, before) == Expected(f, Norm(Obj(members)), depth, Depth(Obj(members)), e)
    ensures Plain(ValueEvents(f, doc, p, depth, before))
    decreases members, |members| + 1
  {
    hide ValueEvents, FirstEvents, PastEvents, MembersEvents;
    hide ReadToken, ReadPastComments, Run, ReadMembers, ReadValue, FirstToken, SkipSpaces, Tokens, TokensOfMembers,
         TokensOfMember, Norm, NormMembers, Depth, DepthOfMembers, Readable;
    ObjectParts(members);
    var inside := TokensOfMembers(members, 0) + ["}"];
    assert Tokens(Obj(members)) == ["{"] + inside;
    ReadsSeparator(f, doc, p, "{", inside);
    SpacesThenToken(f, doc, p);
    ObjectStep(f, doc, p, depth, before);
    var q := SkipSpaces(doc, p) + 1;
    if members == [] {
      NoMembers();
      assert inside == ["}"];
      ReadsNoMembers(f, doc, q, depth, e);
    } else {
      MembersFrom(members, 0);
      assert inside == TokensOfMember(members[0]) + TokensOfMembers(members, 1) + ["}"];
      ReadsMembers(f, doc, q, members, 0, [], "", depth, e);
    }
  }

  lemma ReadsNoMembers(f: Features, doc: string, q: nat, depth: nat, e: nat)
    requires q <= |doc| && Run(doc, q, ["}"]) == e
    ensures ReadMembers(f, doc, q, depth, [], "") == Done(true, Obj([]), e, 0)
    ensures Plain(MembersEvents(f, doc, q, depth, [], ""))
  {
    hide ReadToken, ReadPastComments, Run, ReadMember, MemberEvents, SkipSpaces, PastEvents;
    assert ["}"] + [] == ["}"];
    ReadsSeparator(f, doc, q, "}", []);
    SpacesThenToken(f, doc, q);
    RunNothing(doc, SkipSpaces(doc, q) + 1);
  }

  lemma NoMembers()
    ensures TokensOfMembers([], 0) == [] && NormMembers([], 0) == [] && DepthOfMembers([], 0) == 0
  {
  }

  /** A member's name token, up to its colon. */
  lemma ReadsName(f: Features, doc: string, p: nat, name: string, rest: seq<string>, e: nat)
    returns (colon: nat, start: nat)
    requires p <= |doc| && IsBytes(name) && WellFormed(name) && Run(doc, p, [Quote(name), ":"] + rest) == e
    ensures colon <= start <= |doc| && Run(doc, start, rest) == e
    ensures ReadToken(f, doc, colon).kind == MemberSeparator && ReadToken(f, doc, colon).end == start
    ensures var t := ReadPastComments(f, doc, p);
            t.kind == StringToken && t.end == colon && NameOf(f, doc, t) == Some(name)
    ensures PastEvents(f, doc, p) == []
  {
    hide ReadToken, Run, Escape, Unescape;
    var toks := [Quote(name), ":"] + rest;
    RunStartsAt(doc, p, toks);
    var q := SkipSpaces(doc, p);
    ReadsQuoted(f, doc, q, name);
    SpacesThenToken(f, doc, p);
    UnescapeEscape(name);
    colon := q + |Quote(name)|;
    assert toks[1..] == [":"] + rest;
    ReadsSeparator(f, doc, colon, ":", rest);
    start := SkipSpaces(doc, colon) + 1;
  }

  lemma {:induction false} ReadsMembers(f: Features, doc: string, p: nat, members: seq<Member>, k: nat,
                                        read: seq<Member>, previous: string, depth: nat, e: nat)
    requires p <= |doc| && k < |members| && ReadableMembers(members) && depth <= f.stackLimit
    requires Run(doc, p, TokensOfMember(members[k]) + TokensOfMembers(members, k + 1) + ["}"]) == e
    requires read == NormMembers(members, 0)[..k]
    ensures ReadMembers(f, doc, p, depth, read, previous)
         == Expected(f, Obj(NormMembers(members, 0)), depth, 1 + DepthOfMembers(members, k), e)
    ensures Plain(MembersEvents(f, doc, p, depth, read, previous))
    decreases members, |members| - k, 1
  {
    hide MemberEvents, PastEvents;
    hide ReadToken, ReadPastComments, Run, ReadMember, NameOf, SkipSpaces, Tokens, Norm, Depth;
    hide NormMembers, TokensOfMembers, DepthOfMembers, Quote;
    var name, v := members[k].name, members[k].value;
    var tail := TokensOfMembers(members, k + 1) + ["}"];
    assert TokensOfMember(members[k]) + TokensOfMembers(members, k + 1) + ["}"]
           == [Quote(name), ":"] + (Tokens(v) + tail);
    var colon, start := ReadsName(f, doc, p, name, Tokens(v) + tail, e);
    ReadsMember(f, doc, colon, start, members, k, read, depth, e);
  }

  lemma {:induction false} ReadsMember(f: Features, doc: string, colon: nat, start: nat, members: seq<Member>, k: nat,
                                         read: seq<Member>, depth: nat, e: nat)
    requires colon <= start <= |doc| && k < |members| && ReadableMembers(members) && depth <= f.stackLimit
    requires ReadToken(f, doc, colon).kind == MemberSeparator && ReadToken(f, doc, colon).end == start
    requires Run(doc, start, Tokens(members[k].value) + (TokensOfMembers(members, k + 1) + ["}"])) == e
    requires read == NormMembers(members, 0)[..k]
    ensures ReadMember(f, doc, colon, depth, read, members[k].name)
         == Expected(f, Obj(NormMembers(members, 0)), depth, 1 + DepthOfMembers(members, k), e)
    ensures Plain(MemberEvents(f, doc, colon, depth, read, members[k].name))
    decreases members, |members| - k, 0
  {
    hide ValueEvents, MemberEvents, MembersEvents, NamedEvents, AfterEvents, Plain;
    hide ReadToken, Run, ReadValue, ReadMember, ReadMembers, ReadNamed, AfterMember, SkipSpaces, Tokens, Norm, Depth,
         Store, BytesLess, Lookup, HasMember, NormMembers, TokensOfMembers, TokensOfMember, DepthOfMembers, Readable,
         Delimited, WellFormed;
    var name, v, tail := members[k].name, members[k].value, TokensOfMembers(members, k + 1) + ["}"];
    ColonStep(f, doc, colon, start, depth, read, name);
    NameIsNew(read, name);
    MembersFrom(members, k);
    if k + 1 < |members| {
      MembersFrom(members, k + 1);
    }
    var middle := RunSplits(doc, start, v, tail, e);
    ReadsValue(f, doc, start, v, depth + 1, Lookup(read, name), middle);
    if depth + 1 + Depth(v) <= f.stackLimit + 1 {
      StoreLast(read, name, Norm(v));
      var next := read + [Member(name, Norm(v))];
      NamedStep(f, doc, start, depth, read, name, Norm(v), middle);
      AfterStep(f, doc, middle, depth, next, name);
      assert next == NormMembers(members, 0)[..k + 1];
      if k + 1 == |members| {
        assert tail == ["}"] + [];
        ReadsSeparator(f, doc, middle, "}", []);
        RunNothing(doc, SkipSpaces(doc, middle) + 1);
        assert next == NormMembers(members, 0);
      } else {
        var rest := TokensOfMember(members[k + 1]) + TokensOfMembers(members, k + 2) + ["}"];
        assert tail == [","] + rest;
        ReadsSeparator(f, doc, middle, ",", rest);
        ReadsMembers(f, doc, SkipSpaces(doc, middle) + 1, members, k + 1, next, name, depth, e);
      }
    } else {
      ReadMemberThrows(f, doc, start, depth, read, name);
    }
  }

  // ----- Whole documents

  /**
   * Whatever the layout of a real-free value with well-formed strings, the reader returns the
   * value with its integers in normal form; unless the value is too deep, which is an exception,
   * or is a scalar where the settings ask for a container, which is an error.
   */
  lemma ParseLaidOut(f: Features, doc: string, v: Value, root: Value)
    requires Readable(v) && Lays(doc, Tokens(v))
    ensures Parse(f, doc, root)
         == if Depth(v) > f.stackLimit then Thrown
            else if f.strictRoot && !v.Arr? && !v.Obj? then Done(false, Norm(v), |doc|, 1)
            else Done(true, Norm(v), |doc|, 0)
  {
    hide Run, Tokens, ReadValue, Follow, DocumentEvents, ValueEvents, FirstEvents, FirstToken, SkipSpaces, Depth;
    var e := Run(doc, 0, Tokens(v));
    LayoutEnds(f, doc, e);
    ReadsValue(f, doc, 0, v, 1, root, e);
    PlainDocument(f, doc, root, e);
    PlainIsFollowed(Collects(f), doc, NOTHING, DocumentEvents(f, doc, root));
  }

  lemma LayoutEnds(f: Features, doc: string, e: nat)
    requires e <= |doc| && AllSpaces(doc[e..])
    ensures FirstToken(f, doc, e) == Token(EndOfStream, |doc|, |doc|) && FirstEvents(f, doc, e) == []
    ensures Delimited(doc, e)
  {
    forall i | e <= i < |doc| ensures IsSpace(doc[i]) {
      assert doc[e..][i - e] == doc[i];
    }
    SkipIsFirst(doc, e, |doc|);
    assert ReadToken(f, doc, e) == Token(EndOfStream, |doc|, |doc|);
    SpacesThenToken(f, doc, e);
  }

  lemma PlainDocument(f: Features, doc: string, root: Value, e: nat)
    requires e <= |doc| && Plain(ValueEvents(f, doc, 0, 1, root)) && FirstEvents(f, doc, e) == []
    requires ReadValue(f, doc, 0, 1, root).Done? ==> ReadValue(f, doc, 0, 1, root).current == e
    ensures Plain(DocumentEvents(f, doc, root))
  {
    hide ReadValue, ValueEvents, FirstEvents, FirstToken;
  }

  /** Values that differ at most in the type of an integer that both types can hold. */
  ghost predicate SameValue(v: Value, w: Value) {
    match (v, w)
    case (Int(i), UInt(u)) => i == u
    case (UInt(u), Int(i)) => u == i
    case (Arr(a), Arr(b)) => |a| == |b| && forall k :: 0 <= k < |a| ==> SameValue(a[k], b[k])
    case (Obj(a), Obj(b)) =>
      |a| == |b| && forall k :: 0 <= k < |a| ==> a[k].name == b[k].name && SameValue(a[k].value, b[k].value)
    case _ => v == w
  }

  lemma {:induction false} NormIsSame(v: Value)
    ensures SameValue(v, Norm(v))
    decreases v
  {
    match v
    case Arr(items) =>
      forall k | 0 <= k < |items| ensures SameValue(items[k], NormItems(items, 0)[k]) {
        NormIsSame(items[k]);
      }
    case Obj(members) =>
      forall k | 0 <= k < |members| ensures SameValue(members[k].value, NormMembers(members, 0)[k].value) {
        NormIsSame(members[k].value);
      }
    case _ =>
  }
}
