/**
 * Whatever document the reader is given, it only ever builds values that the program's types allow,
 * and that it would read back.
 */
module JsonSound {
  import opened JsonText
  import opened JsonNumber
  import opened JsonValue
  import opened JsonGrammar
  import opened JsonLayout
  import opened JsonComments
  import opened JsonRoundTrip

  ghost predicate PrintsBytes(f: Features) {
    forall d :: IsBytes(f.printDouble(d)) && |f.printDouble(d)| <= MAX_STRING_LENGTH
  }

  /** The text of one character or escape, and where the next one starts. */
  lemma UnescapeStep(s: string) returns (piece: string, next: nat)
    requires s != "" && s[0] != '\"' && IsBytes(s)
    ensures 0 < next <= |s| && IsBytes(piece)
    ensures Unescape(s).Some? ==> Unescape(s) == Prepend(piece, Unescape(s[next..]))
  {
    hide UnicodeCodePoint, CodePointToUTF8;
    piece, next := "", |s|;
    if s[0] != '\\' {
      piece, next := [s[0]], 1;
    } else if |s| > 1 && s[1] == 'u' {
      var r := UnicodeCodePoint(s[2..]);
      if r.Some? {
        piece, next := CodePointToUTF8(r.value.0), 2 + r.value.1;
      }
    } else if |s| > 1 {
      next := 2;
      piece := match s[1] case 'b' => "\U{8}" case 'f' => "\U{C}" case 'n' => "\n" case 'r' => "\r" case 't' => "\t"
                          case _ => [s[1]];
    }
  }

  lemma {:induction false} UnescapeBytes(s: string)
    requires IsBytes(s)
    ensures Unescape(s).Some? ==> IsBytes(Unescape(s).value)
    decreases |s|
  {
    if s != "" && s[0] != '\"' {
      UnescapeRest(s);
    }
  }

  lemma {:induction false} UnescapeRest(s: string)
    requires s != "" && s[0] != '\"' && IsBytes(s)
    ensures Unescape(s).Some? ==> IsBytes(Unescape(s).value)
    decreases |s|, 0
  {
    hide Unescape;
    var piece, next := UnescapeStep(s);
    UnescapeBytes(s[next..]);
  }

  /**
   * What can have been read: a value of the program's types and, if `exact`, one in normal form with
   * short names that is nested no deeper than `room`.
   */
  ghost predicate AsRead(exact: bool, v: Value, room: int) {
    && (exact ==> room >= 1)
    && match v
       case Int(i) => MIN_INT64 <= i <= MAX_INT64 && (exact ==> i <= MAX_INT32)
       case UInt(u) => 0 <= u <= MAX_UINT64 && (exact ==> u > MAX_INT32)
       case Str(s) => IsBytes(s) && |s| <= MAX_STRING_LENGTH
       case Arr(items) => forall k :: 0 <= k < |items| ==> AsRead(exact, items[k], room - 1)
       case Obj(members) =>
         && Sorted(members)
         && (forall k :: 0 <= k < |members| ==>
               && IsBytes(members[k].name) && (exact ==> |members[k].name| < MAX_KEY_LENGTH)
               && AsRead(exact, members[k].value, room - 1))
       case _ => true
  }

  lemma {:induction false} AsReadIsRepresentable(exact: bool, v: Value, room: int)
    ensures AsRead(exact, v, room) ==> Representable(v)
    ensures !exact && Representable(v) ==> AsRead(exact, v, room)
    decreases v
  {
    hide IsBytes;
    match v
    case Arr(items) =>
      forall k | 0 <= k < |items|
        ensures AsRead(exact, items[k], room - 1) ==> Representable(items[k])
        ensures !exact && Representable(items[k]) ==> AsRead(exact, items[k], room - 1)
      {
        AsReadIsRepresentable(exact, items[k], room - 1);
      }
    case Obj(members) =>
      forall k | 0 <= k < |members|
        ensures AsRead(exact, members[k].value, room - 1) ==> Representable(members[k].value)
        ensures !exact && Representable(members[k].value) ==> AsRead(exact, members[k].value, room - 1)
      {
        AsReadIsRepresentable(exact, members[k].value, room - 1);
      }
    case _ =>
  }

  lemma {:induction false} AsReadIsNormal(v: Value, room: int)
    requires AsRead(true, v, room)
    ensures Norm(v) == v && Depth(v) <= room
    decreases v
  {
    hide IsBytes, Sorted;
    match v
    case Arr(items) =>
      forall k | 0 <= k < |items| ensures Norm(items[k]) == items[k] && Depth(items[k]) <= room - 1 {
        AsReadIsNormal(items[k], room - 1);
      }
      assert NormItems(items, 0) == items;
      ItemsDepth(items, 0, room - 1);
    case Obj(members) =>
      forall k | 0 <= k < |members|
        ensures Norm(members[k].value) == members[k].value && Depth(members[k].value) <= room - 1
      {
        AsReadIsNormal(members[k].value, room - 1);
      }
      assert NormMembers(members, 0) == members;
      MembersDepth(members, 0, room - 1);
    case _ =>
  }

  lemma {:induction false} ItemsDepth(items: seq<Value>, k: nat, room: nat)
    requires k <= |items| && forall i :: 0 <= i < |items| ==> Depth(items[i]) <= room
    ensures DepthOfItems(items, k) <= room
    decreases |items| - k
  {
    hide Depth;
    if k < |items| {
      ItemsDepth(items, k + 1, room);
    }
  }

  lemma {:induction false} MembersDepth(members: seq<Member>, k: nat, room: nat)
    requires k <= |members| && forall i :: 0 <= i < |members| ==> Depth(members[i].value) <= room
    ensures DepthOfMembers(members, k) <= room
    decreases |members| - k
  {
    hide Depth;
    if k < |members| {
      MembersDepth(members, k + 1, room);
    }
  }

  /** All strings and names are well-formed UTF-8. */
  ghost predicate AllWellFormed(v: Value) {
    match v
    case Str(s) => WellFormed(s)
    case Arr(items) => forall k :: 0 <= k < |items| ==> AllWellFormed(items[k])
    case Obj(members) =>
      forall k :: 0 <= k < |members| ==> WellFormed(members[k].name) && AllWellFormed(members[k].value)
    case _ => true
  }

  lemma {:induction false} AsReadIsTextual(v: Value, room: int)
    requires AsRead(true, v, room) && AllWellFormed(v)
    ensures Textual(v)
    decreases v
  {
    hide IsBytes, Sorted, WellFormed;
    match v
    case Arr(items) =>
      forall k | 0 <= k < |items| ensures Textual(items[k]) {
        AsReadIsTextual(items[k], room - 1);
      }
    case Obj(members) =>
      forall k | 0 <= k < |members| ensures Textual(members[k].value) {
        AsReadIsTextual(members[k].value, room - 1);
      }
    case _ =>
  }

  lemma NumberIsAsRead(exact: bool, f: Features, text: string, room: int)
    requires exact ==> room >= 1
    ensures NumberValue(f, text).Some? ==> AsRead(exact, NumberValue(f, text).value, room)
  {
  }

  lemma NameIsBytes(f: Features, v: Value)
    requires PrintsBytes(f)
    ensures IsBytes(NumericName(f, v))
  {
    match v
    case Int(i) => IntTextIsBytes(i);
    case UInt(u) => IntTextIsBytes(u);
    case _ =>
  }

  lemma IntTextIsBytes(i: int)
    ensures IsBytes(IntText(i))
  {
    hide Digits;
    var s := Digits(if i < 0 then -i else i);
    forall k | 0 <= k < |s| ensures s[k] as int < 256 {
      assert IsDigit(s[k]);
    }
  }

  // ----- The map of an object

  ghost predicate Members(exact: bool, members: seq<Member>, room: int) {
    AsRead(exact, Obj(members), room)
  }

  lemma {:induction false} StoredMembers(members: seq<Member>, name: string, value: Value)
    ensures forall m <- Store(members, name, value) :: m == Member(name, value) || m in members
  {
    if members != [] && !BytesLess(name, members[0].name) && members[0].name != name {
      StoredMembers(members[1..], name, value);
    }
  }

  lemma {:induction false} StoreSorted(members: seq<Member>, name: string, value: Value)
    requires Sorted(members)
    ensures Sorted(Store(members, name, value))
  {
    var after := Store(members, name, value);
    if members != [] && BytesLess(name, members[0].name) {
      forall j | 0 <= j < |members| ensures BytesLess(name, members[j].name) {
        if j > 0 {
          BytesTransitive(name, members[0].name, members[j].name);
        }
      }
    } else if members != [] && members[0].name != name {
      StoreSorted(members[1..], name, value);
      StoredMembers(members[1..], name, value);
      BytesTotal(name, members[0].name);
      var rest := Store(members[1..], name, value);
      forall j | 0 <= j < |rest| ensures BytesLess(members[0].name, rest[j].name) {
        assert rest[j] in rest;
        if rest[j] in members[1..] {
          var k :| 0 <= k < |members[1..]| && members[1..][k] == rest[j];
          assert members[k + 1] == rest[j];
        }
      }
    }
  }

  lemma StoreAsRead(exact: bool, members: seq<Member>, name: string, value: Value, room: int)
    requires Members(exact, members, room) && IsBytes(name) && AsRead(exact, value, room - 1)
    requires exact ==> |name| < MAX_KEY_LENGTH
    ensures Members(exact, Store(members, name, value), room)
  {
    hide Store, IsBytes;
    StoreSorted(members, name, value);
    StoredMembers(members, name, value);
    var after := Store(members, name, value);
    forall k | 0 <= k < |after|
      ensures IsBytes(after[k].name) && (exact ==> |after[k].name| < MAX_KEY_LENGTH)
              && AsRead(exact, after[k].value, room - 1)
    {
      assert after[k] in after;
      if after[k] in members {
        MemberOf(exact, members, after[k], room);
      }
    }
  }

  lemma MemberOf(exact: bool, members: seq<Member>, m: Member, room: int)
    requires Members(exact, members, room) && m in members
    ensures IsBytes(m.name) && (exact ==> |m.name| < MAX_KEY_LENGTH) && AsRead(exact, m.value, room - 1)
  {
    var k :| 0 <= k < |members| && members[k] == m;
  }

  /** Storing keeps an object within the program's types. */
  lemma StoreRepresentable(members: seq<Member>, name: string, value: Value)
    requires Representable(Obj(members)) && IsBytes(name) && Representable(value)
    ensures Representable(Obj(Store(members, name, value)))
  {
    hide Store, IsBytes, Representable, AsRead;
    AsReadIsRepresentable(false, Obj(members), 0);
    AsReadIsRepresentable(false, value, -1);
    StoreAsRead(false, members, name, value, 0);
    AsReadIsRepresentable(false, Obj(Store(members, name, value)), 0);
  }

  lemma {:induction false} LookupAsRead(exact: bool, members: seq<Member>, name: string, room: int)
    requires (forall m <- members :: AsRead(exact, m.value, room)) && (exact ==> room >= 1)
    ensures AsRead(exact, Lookup(members, name), room)
  {
    if members != [] {
      LookupAsRead(exact, members[1..], name, room);
    }
  }

  // ----- The reader

  /** The value read at stack height `depth`, if any. */
  ghost predicate Builds(exact: bool, f: Features, depth: nat, r: Outcome) {
    r.Done? ==> AsRead(exact, r.value, f.stackLimit + 1 - depth)
  }

  ghost predicate Sound(f: Features, doc: string) {
    PrintsBytes(f) && IsBytes(doc)
  }

  lemma {:induction false} ValueIsAsRead(exact: bool, f: Features, doc: string, cur: nat, depth: nat, before: Value)
    requires Sound(f, doc) && cur <= |doc|
    requires depth <= f.stackLimit ==> AsRead(exact, before, f.stackLimit + 1 - depth)
    ensures Builds(exact, f, depth, ReadValue(f, doc, cur, depth, before))
    decreases |doc| - cur, 1, 0
  {
    hide ReadMembers, ReadElements, FirstToken, SkipSpaces, Unescape, NumberValue, IsBytes;
    if depth <= f.stackLimit {
      var t := FirstToken(f, doc, cur);
      if t.kind == ObjectBegin {
        MembersAreAsRead(exact, f, doc, t.end, depth, [], "");
      } else if t.kind == ArrayBegin {
        var p := SkipSpaces(doc, t.end);
        if NextChar(doc, p) != ']' {
          ElementsAreAsRead(exact, f, doc, p, depth, []);
        }
      } else if t.kind == NumberToken {
        NumberIsAsRead(exact, f, doc[t.start..t.end], f.stackLimit + 1 - depth);
      } else if t.kind == StringToken {
        PartIsBytes(doc, t.start + 1, t.end - 1);
        UnescapeBytes(doc[t.start + 1..t.end - 1]);
        StringIsBytes(doc[t.start + 1..t.end - 1]);
      }
    }
  }

  lemma StringIsBytes(s: string)
    ensures Unescape(s).Some? && IsBytes(Unescape(s).value) ==> IsBytes(StringOf(Unescape(s).value))
  {
    hide Unescape;
  }

  lemma PartIsBytes(doc: string, a: nat, b: nat)
    requires IsBytes(doc) && a <= b <= |doc|
    ensures IsBytes(doc[a..b])
  {
  }

  lemma {:induction false} MembersAreAsRead(exact: bool, f: Features, doc: string, cur: nat, depth: nat,
                                            members: seq<Member>, name: string)
    requires Sound(f, doc) && cur <= |doc| && depth <= f.stackLimit
    requires Members(exact, members, f.stackLimit + 1 - depth)
    ensures Builds(exact, f, depth, ReadMembers(f, doc, cur, depth, members, name))
    decreases |doc| - cur, 2, 0
  {
    hide ReadMember, ReadPastComments, Recover, Unescape, NumberValue, NumericName, IsBytes, AsRead;
    var t := ReadPastComments(f, doc, cur);
    if t.kind == StringToken || (t.kind == NumberToken && f.allowNumericKeys) {
      var n := NameOf(f, doc, t);
      if n.Some? {
        if t.kind == StringToken {
          PartIsBytes(doc, t.start + 1, t.end - 1);
          UnescapeBytes(doc[t.start + 1..t.end - 1]);
        } else {
          NameIsBytes(f, NumberValue(f, doc[t.start..t.end]).value);
        }
        MemberIsAsRead(exact, f, doc, t.end, depth, members, n.value);
      }
    }
  }

  lemma {:induction false} MemberIsAsRead(exact: bool, f: Features, doc: string, cur: nat, depth: nat,
                                          members: seq<Member>, name: string)
    requires Sound(f, doc) && cur <= |doc| && depth <= f.stackLimit && IsBytes(name)
    requires Members(exact, members, f.stackLimit + 1 - depth)
    ensures Builds(exact, f, depth, ReadMember(f, doc, cur, depth, members, name))
    decreases |doc| - cur, 2, 1
  {
    hide ReadNamed, ReadToken, Recover, IsBytes, AsRead;
    var colon := ReadToken(f, doc, cur);
    if colon.kind == MemberSeparator {
      NamedIsAsRead(exact, f, doc, colon.end, depth, members, name);
    }
  }

  lemma {:induction false} NamedIsAsRead(exact: bool, f: Features, doc: string, cur: nat, depth: nat,
                                         members: seq<Member>, name: string)
    requires Sound(f, doc) && cur <= |doc| && depth <= f.stackLimit && IsBytes(name)
    requires Members(exact, members, f.stackLimit + 1 - depth)
    ensures Builds(exact, f, depth, ReadNamed(f, doc, cur, depth, members, name))
    decreases |doc| - cur, 2, 2
  {
    hide ReadValue, AfterMember, Recover, Store, Lookup, IsBytes, AsRead;
    if |name| < MAX_KEY_LENGTH && !(f.rejectDupKeys && HasMember(members, name)) {
      var before, room := Lookup(members, name), f.stackLimit + 1 - depth;
      if depth + 1 <= f.stackLimit {
        AllAsRead(exact, members, room);
        LookupAsRead(exact, members, name, room - 1);
      }
      ValueIsAsRead(exact, f, doc, cur, depth + 1, before);
      var r := ReadValue(f, doc, cur, depth + 1, before);
      if r.Done? {
        StoreAsRead(exact, members, name, r.value, room);
        AfterMemberAsRead(exact, f, doc, r.current, depth, Store(members, name, r.value), name);
      }
    }
  }

  lemma AllAsRead(exact: bool, members: seq<Member>, room: int)
    requires Members(exact, members, room)
    ensures forall m <- members :: AsRead(exact, m.value, room - 1)
  {
    forall m <- members ensures AsRead(exact, m.value, room - 1) {
      MemberOf(exact, members, m, room);
    }
  }

  lemma {:induction false} AfterMemberAsRead(exact: bool, f: Features, doc: string, cur: nat, depth: nat,
                                             stored: seq<Member>, name: string)
    requires Sound(f, doc) && cur <= |doc| && depth <= f.stackLimit
    requires Members(exact, stored, f.stackLimit + 1 - depth)
    ensures Builds(exact, f, depth, AfterMember(f, doc, cur, depth, stored, name))
    decreases |doc| - cur, 2, 1
  {
    hide ReadMembers, ReadToken, ReadPastComments, Recover, IsBytes, AsRead;
    var comma := ReadToken(f, doc, cur);
    if comma.kind in {ObjectEnd, ArraySeparator, Comment} {
      var next := if comma.kind == Comment then ReadPastComments(f, doc, comma.end) else comma;
      if next.kind != ObjectEnd {
        MembersAreAsRead(exact, f, doc, next.end, depth, stored, name);
      }
    }
  }

  lemma {:induction false} ElementsAreAsRead(exact: bool, f: Features, doc: string, cur: nat, depth: nat,
                                             items: seq<Value>)
    requires Sound(f, doc) && cur <= |doc| && depth <= f.stackLimit
    requires AsRead(exact, Arr(items), f.stackLimit + 1 - depth)
    ensures Builds(exact, f, depth, ReadElements(f, doc, cur, depth, items))
    decreases |doc| - cur, 2, 0
  {
    hide ReadValue, AfterElement, Recover, IsBytes;
    ValueIsAsRead(exact, f, doc, cur, depth + 1, Null);
    var r := ReadValue(f, doc, cur, depth + 1, Null);
    if r.Done? && r.ok {
      AfterElementAsRead(exact, f, doc, r.current, depth, items + [r.value]);
    }
  }

  lemma {:induction false} AfterElementAsRead(exact: bool, f: Features, doc: string, cur: nat, depth: nat,
                                              read: seq<Value>)
    requires Sound(f, doc) && cur <= |doc| && depth <= f.stackLimit
    requires AsRead(exact, Arr(read), f.stackLimit + 1 - depth)
    ensures Builds(exact, f, depth, AfterElement(f, doc, cur, depth, read))
    decreases |doc| - cur, 1, 1
  {
    hide ReadElements, ReadPastComments, Recover, IsBytes, AsRead;
    var t := ReadPastComments(f, doc, cur);
    if t.kind == ArraySeparator {
      ElementsAreAsRead(exact, f, doc, t.end, depth, read);
    }
  }

  /**
   * Integers in range, byte strings of limited length, objects in the order of their map: on every
   * document, good or bad.
   */
  lemma ReadsRepresentable(f: Features, doc: string, root: Value)
    requires Sound(f, doc) && Representable(root)
    ensures Parse(f, doc, root).Done? ==> Representable(Parse(f, doc, root).value)
  {
    hide ReadValue, FirstToken, Representable, IsBytes, AsRead, Follow, DocumentEvents;
    AsReadIsRepresentable(false, root, f.stackLimit);
    ValueIsAsRead(false, f, doc, 0, 1, root);
    var r := ReadValue(f, doc, 0, 1, root);
    if r.Done? {
      AsReadIsRepresentable(false, r.value, f.stackLimit);
    }
  }

  /** And whatever is read, well or badly, is in normal form and no deeper than the limit. */
  lemma ReadsNormal(f: Features, doc: string)
    requires Sound(f, doc)
    ensures var r := Parse(f, doc, Null);
            r.Done? ==> && Representable(r.value) && Norm(r.value) == r.value && Depth(r.value) <= f.stackLimit
                        && (AllWellFormed(r.value) ==> Textual(r.value))
  {
    hide ReadValue, FirstToken, Representable, IsBytes, Follow, DocumentEvents, Textual, AllWellFormed, Depth;
    ValueIsAsRead(true, f, doc, 0, 1, Null);
    var r := ReadValue(f, doc, 0, 1, Null);
    if r.Done? {
      AsReadIsRepresentable(true, r.value, f.stackLimit);
      AsReadIsNormal(r.value, f.stackLimit);
      if AllWellFormed(r.value) {
        AsReadIsTextual(r.value, f.stackLimit);
      }
    }
  }

  /**
   * What has been read once, from any document whatsoever, is read again as exactly the same value
   * from any text that lays it out.
   */
  lemma ReadAgain(f: Features, doc: string, text: string)
    requires Sound(f, doc) && Parse(f, doc, Null).Done?
    requires var v := Parse(f, doc, Null).value; RealFree(v) && AllWellFormed(v) && Lays(text, Tokens(v))
    ensures var v := Parse(f, doc, Null).value;
            Parse(f, text, Null)
            == if f.strictRoot && !v.Arr? && !v.Obj? then Done(false, v, |text|, 1) else Done(true, v, |text|, 0)
  {
    hide Parse, Representable, RealFree, Textual, AllWellFormed, Norm, Depth, Lays, Tokens, IsBytes;
    ReadsNormal(f, doc);
    ParseLaidOut(f, text, Parse(f, doc, Null).value, Null);
  }
}
