/**
 * The recursive-descent JSON reader, with its cursor, its stack of open values, its errors and the
 * comments it has collected.
 */
module JsonReader {
  import opened Wrappers
  import opened JsonText
  import opened JsonNumber
  import opened JsonValue
  import opened JsonGrammar
  import opened JsonComments

  class OurReader {
    const features: Features
    var doc: string
    var current: nat
    /** The values under construction, the root first; the last one is the current value. */
    var nodes: seq<Value>
    /** The number of errors recorded. */
    var errors: nat
    var collectComments: bool
    /** Where the last value ended. */
    var lastValueEnd: Option<nat>
    /** The comments waiting for the next value. */
    var commentsBefore: string
    /** The greatest height the stack has had. */
    ghost var highest: nat

    ghost predicate Valid()
      reads this
    {
      current <= |doc|
    }

    ghost function Noted(): Notes
      reads this
    {
      Notes(lastValueEnd, commentsBefore)
    }

    /** What events do to the notes `was`: they lead to the present ones, or a comment is refused. */
    ghost predicate Followed(events: seq<Event>, was: Notes, thrown: bool)
      reads this
    {
      Follow(collectComments, doc, was, events) == if thrown then None else Some(Noted())
    }

    constructor (f: Features)
      ensures features == f && Valid()
    {
      features := f;
      doc, current, nodes, errors, highest := "", 0, [], 0, 0;
      collectComments, lastValueEnd, commentsBefore := false, None, "";
    }

    // ----- Tokens

    method GetNextChar() returns (c: char)
      requires Valid()
      modifies this`current
      ensures Valid() && c == NextChar(doc, old(current)) && current == After(doc, old(current))
    {
      if current == |doc| {
        return '\0';
      }
      current := current + 1;
      return doc[current - 1];
    }

    method SkipSpacesHere()
      requires Valid()
      modifies this`current
      ensures Valid() && current == SkipSpaces(doc, old(current))
    {
      while current != |doc|
        invariant current <= |doc| && SkipSpaces(doc, current) == SkipSpaces(doc, old(current))
        decreases |doc| - current
      {
        var c := doc[current];
        if c == ' ' || c == '\t' || c == '\r' || c == '\n' {
          current := current + 1;
        } else {
          break;
        }
      }
    }

    method Match(pattern: string) returns (ok: bool)
      requires Valid()
      modifies this`current
      ensures Valid() && Scan(ok, current) == ScanWord(doc, old(current), pattern)
    {
      if |doc| - current < |pattern| {
        return false;
      }
      var index := |pattern|;
      while index > 0
        invariant 0 <= index <= |pattern|
        invariant forall k :: index <= k < |pattern| ==> doc[current + k] == pattern[k]
      {
        index := index - 1;
        if doc[current + index] != pattern[index] {
          assert doc[current..current + |pattern|][index] == doc[current + index];
          return false;
        }
      }
      current := current + |pattern|;
      return true;
    }

    method ReadCStyleComment() returns (ok: bool)
      requires Valid()
      modifies this`current
      ensures Valid()
      ensures var p := ScanCComment(doc, old(current)); ok == (NextChar(doc, p) == '/') && current == After(doc, p)
    {
      while current + 1 < |doc|
        invariant Valid() && ScanCComment(doc, current) == ScanCComment(doc, old(current))
        decreases |doc| - current
      {
        var c := GetNextChar();
        if c == '*' && doc[current] == '/' {
          assert ScanCComment(doc, current - 1) == current;
          c := GetNextChar();
          return c == '/';
        }
      }
      var c := GetNextChar();
      return c == '/';
    }

    method ReadCppStyleComment()
      requires Valid()
      modifies this`current
      ensures Valid() && current == ScanCppComment(doc, old(current))
    {
      while current != |doc|
        invariant Valid() && ScanCppComment(doc, current) == ScanCppComment(doc, old(current))
        decreases |doc| - current
      {
        var c := GetNextChar();
        if c == '\n' {
          return;
        }
        if c == '\r' {
          if current != |doc| && doc[current] == '\n' {
            c := GetNextChar();
          }
          return;
        }
      }
    }

    /** Also collects the comment, which throws if the last value refuses it. */
    method ReadComment() returns (thrown: bool, ok: bool)
      requires Valid() && current >= 1
      modifies this`current, this`commentsBefore
      ensures Valid() && Scan(ok, current) == ScanComment(doc, old(current))
      ensures var begin := old(current) - 1;
              Followed(if ok then [Remark(begin, doc[begin..current])] else [], old(Noted()), thrown)
    {
      hide ScanCComment, ScanCppComment, ContainsNewLine, Follow;
      ghost var was := Noted();
      var commentBegin := current - 1;
      var c := GetNextChar();
      if c == '*' {
        ok := ReadCStyleComment();
      } else if c == '/' {
        ReadCppStyleComment();
        ok := true;
      } else {
        ok := false;
      }
      thrown := false;
      FollowNothing(collectComments, doc, was);
      if ok {
        ghost var e := Remark(commentBegin, doc[commentBegin..current]);
        FollowOne(collectComments, doc, was, e);
        if collectComments {
          assert e.text[1] == c;
          var sameLine := IsOnSameLine(commentBegin, c);
          thrown := AddComment(commentBegin, current, sameLine);
        }
      }
    }

    method IsOnSameLine(commentBegin: nat, c: char) returns (sameLine: bool)
      requires Valid() && commentBegin + 2 <= current && c == doc[commentBegin + 1]
      ensures sameLine == SameLine(doc, lastValueEnd, Remark(commentBegin, doc[commentBegin..current]))
    {
      hide ContainsNewLine;
      sameLine := false;
      assert doc[commentBegin..current][1] == c;
      if lastValueEnd.Some? {
        var newLine := HasNewLine(lastValueEnd.value, commentBegin);
        if !newLine {
          sameLine := c != '*';
          if c == '*' {
            newLine := HasNewLine(commentBegin, current);
            sameLine := !newLine;
          }
        }
      }
    }

    method HasNewLine(begin: nat, end: nat) returns (found: bool)
      requires end <= |doc|
      ensures found == ContainsNewLine(doc, begin, end)
    {
      var at := begin;
      while at < end
        invariant begin <= at && forall i :: begin <= i < at && i < |doc| ==> !IsLineEnd(doc[i])
        invariant at <= end || at == begin
      {
        if doc[at] == '\n' || doc[at] == '\r' {
          return true;
        }
        at := at + 1;
      }
      return false;
    }

    method NormalizedEOL(begin: nat, end: nat) returns (normalized: string)
      requires begin <= end <= |doc|
      ensures normalized == NormalizeEOL(doc[begin..end])
    {
      hide NormalizeEOL;
      normalized := "";
      var at := begin;
      while at != end
        invariant begin <= at <= end
        invariant normalized + NormalizeEOL(doc[at..end]) == NormalizeEOL(doc[begin..end])
      {
        var c := doc[at];
        NormalizeStep(doc[at..end]);
        at := at + 1;
        assert doc[at..end] == doc[at - 1..end][1..];
        if c == '\r' {
          if at != end && doc[at] == '\n' {
            at := at + 1;
            assert doc[at..end] == doc[at - 2..end][2..];
          }
          normalized := normalized + ['\n'];
        } else {
          normalized := normalized + [c];
        }
      }
      NormalizeNothing();
      assert doc[end..end] == "";
    }

    /** The comment goes to the value before it, or waits for the next one. */
    method AddComment(begin: nat, end: nat, sameLine: bool) returns (thrown: bool)
      requires begin <= end <= |doc|
      modifies this`commentsBefore
      ensures var comment := NormalizeEOL(doc[begin..end]);
              if sameLine then commentsBefore == old(commentsBefore) && thrown == !Settable(comment)
              else commentsBefore == old(commentsBefore) + comment && !thrown
    {
      var normalized := NormalizedEOL(begin, end);
      if sameLine {
        thrown := SetComment(normalized);
      } else {
        commentsBefore := commentsBefore + normalized;
        thrown := false;
      }
    }

    /** Whether `setComment` throws; what it stores is not modelled. */
    static method SetComment(text: string) returns (thrown: bool)
      ensures thrown == !Settable(text)
    {
      var comment := text;
      if comment != "" && comment[|comment| - 1] == '\n' {
        comment := comment[..|comment| - 1];
      }
      return comment == "" || !(comment[0] == '\0' || comment[0] == '/');
    }

    /** Scans to the closing quote; an escaped character never closes the string. */
    method ReadString(quote: char) returns (ok: bool)
      requires Valid() && quote != '\\' && quote != '\0'
      modifies this`current
      ensures Valid() && Scan(ok, current) == ScanString(doc, old(current), quote)
    {
      var c := '\0';
      while current != |doc|
        invariant Valid() && ScanString(doc, current, quote) == ScanString(doc, old(current), quote)
        invariant c != quote
        decreases |doc| - current
      {
        c := GetNextChar();
        if c == '\\' {
          var _ := GetNextChar();
        } else if c == quote {
          return true;
        }
      }
      return c == quote;
    }

    method ReadDigits()
      requires Valid()
      modifies this`current
      ensures Valid() && current == ScanDigits(doc, old(current))
    {
      while current < |doc| && '0' <= doc[current] <= '9'
        invariant Valid() && ScanDigits(doc, current) == ScanDigits(doc, old(current))
        decreases |doc| - current
      {
        current := current + 1;
      }
    }

    method ReadNumber(checkInf: bool) returns (ok: bool)
      requires Valid()
      modifies this`current
      ensures Valid()
      ensures ok <==> !(checkInf && NextChar(doc, old(current)) == 'I')
      ensures current == if ok then ScanNumber(doc, old(current)) else old(current) + 1
    {
      hide ScanDigits, IsDigit;
      if checkInf && current != |doc| && doc[current] == 'I' {
        current := current + 1;
        return false;
      }
      ReadDigits();
      if current < |doc| && doc[current] == '.' {
        current := current + 1;
        ReadDigits();
      }
      if current < |doc| && (doc[current] == 'e' || doc[current] == 'E') {
        current := current + 1;
        if current < |doc| && (doc[current] == '+' || doc[current] == '-') {
          current := current + 1;
        }
        ReadDigits();
      }
      return true;
    }

    method ReadTokenHere() returns (thrown: bool, token: Token)
      requires Valid()
      modifies this`current, this`commentsBefore
      ensures Valid() && token == ReadToken(features, doc, old(current)) && current == token.end
      ensures Followed(TokenEvents(doc, ReadToken(features, doc, old(current))), old(Noted()), thrown)
    {
      hide Follow, ScanString, ScanNumber, ScanComment, ScanWord, SkipSpaces;
      FollowNothing(collectComments, doc, Noted());
      thrown := false;
      SkipSpacesHere();
      var start := current;
      SkipTwice(doc, start);
      var c := GetNextChar();
      var ok, kind;
      if (c == '\'' && !features.allowSingleQuotes) || c == '/' {
        kind := Comment;
        thrown, ok := ReadComment();
      } else {
        ok, kind := ScanToken(c, start);
      }
      if !ok {
        kind := ErrorToken;
      }
      token := Token(kind, start, current);
    }

    /** The tokens that are no comments, from the character after `c` on. */
    method ScanToken(c: char, ghost start: nat) returns (ok: bool, kind: TokenType)
      requires start <= |doc| && SkipSpaces(doc, start) == start
      requires c == NextChar(doc, start) && current == After(doc, start)
      requires !(c == '\'' && !features.allowSingleQuotes) && c != '/'
      modifies this`current
      ensures Valid() && Token(if ok then kind else ErrorToken, start, current) == ReadToken(features, doc, start)
    {
      hide ScanString, ScanNumber, ScanComment, ScanWord, SkipSpaces;
      ok, kind := true, ErrorToken;
      if c == '{' {
        kind := ObjectBegin;
      } else if c == '}' {
        kind := ObjectEnd;
      } else if c == '[' {
        kind := ArrayBegin;
      } else if c == ']' {
        kind := ArrayEnd;
      } else if c == '\"' {
        kind := StringToken;
        ok := ReadString('\"');
      } else if c == '\'' {
        kind := StringToken;
        ok := ReadString('\'');
      } else if '0' <= c <= '9' {
        kind := NumberToken;
        var _ := ReadNumber(false);
      } else if c == '-' {
        var isNumber := ReadNumber(true);
        if isNumber {
          kind := NumberToken;
        } else {
          kind := NegInf;
          if features.allowSpecialFloats {
            ok := Match("nfinity");
          } else {
            ok := false;
          }
        }
      } else if c == 't' {
        kind := TrueToken;
        ok := Match("rue");
      } else if c == 'f' {
        kind := FalseToken;
        ok := Match("alse");
      } else if c == 'n' {
        kind := NullToken;
        ok := Match("ull");
      } else if c == 'N' && features.allowSpecialFloats {
        kind := NaNToken;
        ok := Match("aN");
      } else if c == 'I' && features.allowSpecialFloats {
        kind := PosInf;
        ok := Match("nfinity");
      } else if c == ',' {
        kind := ArraySeparator;
      } else if c == ':' {
        kind := MemberSeparator;
      } else if c == '\0' {
        kind := EndOfStream;
      } else {
        ok := false;
      }
    }

    method SkipCommentTokens() returns (thrown: bool, token: Token)
      requires Valid()
      modifies this`current, this`commentsBefore
      ensures Valid()
      ensures Followed(FirstEvents(features, doc, old(current)), old(Noted()), thrown)
      ensures !thrown ==> token == FirstToken(features, doc, old(current)) && current == token.end
    {
      hide Follow, ReadToken;
      if features.allowComments {
        thrown, token := ReadTokenPastComments();
      } else {
        thrown, token := ReadTokenHere();
      }
    }

    /** The events still to come when `token` has been read. */
    ghost function FurtherEvents(token: Token): seq<Event>
      reads this
      requires Valid()
    {
      if token.kind == Comment then PastEvents(features, doc, current) else []
    }

    ghost function FurtherToken(token: Token): Token
      reads this
      requires Valid()
    {
      if token.kind == Comment then ReadPastComments(features, doc, current) else token
    }

    /** The loop that skips comment tokens, starting from the token just read. */
    method SkipFurtherComments(first: Token) returns (thrown: bool, token: Token)
      requires Valid() && current == first.end
      modifies this`current, this`commentsBefore
      ensures Valid()
      ensures Followed(old(FurtherEvents(first)), old(Noted()), thrown)
      ensures !thrown ==> current == token.end && token == old(FurtherToken(first))
    {
      hide Follow, ReadToken;
      ghost var was := Noted();
      token := first;
      while token.kind == Comment
        invariant Valid() && current == token.end && FurtherToken(token) == old(FurtherToken(first))
        invariant Follow(collectComments, doc, Noted(), FurtherEvents(token))
               == Follow(collectComments, doc, was, old(FurtherEvents(first)))
        decreases |doc| - current, token.kind == Comment
      {
        ghost var before, cur := Noted(), current;
        thrown, token := ReadTokenHere();
        FollowConcat(collectComments, doc, before, TokenEvents(doc, ReadToken(features, doc, cur)),
                     FurtherEvents(token));
        if thrown {
          return;
        }
      }
      FollowNothing(collectComments, doc, Noted());
      thrown := false;
    }

    method ReadTokenPastComments() returns (thrown: bool, token: Token)
      requires Valid()
      modifies this`current, this`commentsBefore
      ensures Valid()
      ensures Followed(PastEvents(features, doc, old(current)), old(Noted()), thrown)
      ensures !thrown ==> token == ReadPastComments(features, doc, old(current)) && current == token.end
    {
      hide Follow, ReadToken;
      ghost var was, cur := Noted(), current;
      thrown, token := ReadTokenHere();
      FollowConcat(collectComments, doc, was, TokenEvents(doc, ReadToken(features, doc, cur)), FurtherEvents(token));
      if !thrown {
        thrown, token := SkipFurtherComments(token);
      }
    }

    // ----- Errors

    method RecoverFromError(skipUntilToken: TokenType) returns (thrown: bool)
      requires Valid()
      modifies this`current, this`commentsBefore
      ensures Valid()
      ensures Followed(RecoverEvents(features, doc, old(current), skipUntilToken), old(Noted()), thrown)
      ensures !thrown ==> current == Recover(features, doc, old(current), skipUntilToken)
    {
      hide Follow, ReadToken;
      ghost var was, cur0 := Noted(), current;
      while true
        invariant Valid()
        invariant Recover(features, doc, current, skipUntilToken) == Recover(features, doc, cur0, skipUntilToken)
        invariant Follow(collectComments, doc, Noted(), RecoverEvents(features, doc, current, skipUntilToken))
               == Follow(collectComments, doc, was, RecoverEvents(features, doc, cur0, skipUntilToken))
        decreases |doc| - current
      {
        ghost var before, cur := Noted(), current;
        var skip;
        thrown, skip := ReadTokenHere();
        ghost var last := skip.kind == skipUntilToken || skip.kind == EndOfStream;
        ghost var rest := if last then [] else RecoverEvents(features, doc, current, skipUntilToken);
        FollowConcat(collectComments, doc, before, TokenEvents(doc, ReadToken(features, doc, cur)), rest);
        if thrown {
          return;
        }
        if skip.kind == skipUntilToken || skip.kind == EndOfStream {
          FollowNothing(collectComments, doc, Noted());
          return;
        }
      }
    }

    method AddErrorAndRecover(skipUntilToken: TokenType) returns (thrown: bool)
      requires Valid()
      modifies this`current, this`errors, this`commentsBefore
      ensures Valid() && errors == old(errors) + 1
      ensures Followed(RecoverEvents(features, doc, old(current), skipUntilToken), old(Noted()), thrown)
      ensures !thrown ==> current == Recover(features, doc, old(current), skipUntilToken)
    {
      errors := errors + 1;
      thrown := RecoverFromError(skipUntilToken);
    }

    // ----- Scalars

    method DecodeNumberToken(token: Token) returns (decoded: Option<Value>)
      requires token.start < token.end <= |doc|
      modifies this`errors
      ensures decoded == NumberValue(features, doc[token.start..token.end])
      ensures errors == old(errors) + if decoded.None? then 1 else 0
    {
      var text := doc[token.start..token.end];
      var n := DecodeNumber(text);
      match n
      case SignedNumber(i) => decoded := Some(Int(i));
      case UnsignedNumber(u) => decoded := Some(UInt(u));
      case NotInteger =>
        var d := features.scanDouble(text);
        match d {
          case Some(x) => decoded := Some(Real(x));
          case None => errors := errors + 1; decoded := None;
        }
    }

    method DecodeStringToken(token: Token) returns (decoded: Option<string>)
      requires token.start + 2 <= token.end <= |doc|
      modifies this`errors
      ensures decoded == Unescape(doc[token.start + 1..token.end - 1])
      ensures errors == old(errors) + if decoded.None? then 1 else 0
    {
      var ok, s := DecodeString(doc[token.start + 1..token.end - 1]);
      if ok {
        decoded := Some(s);
      } else {
        errors := errors + 1;
        decoded := None;
      }
    }

    method DecodeName(token: Token) returns (name: Option<string>)
      requires token.start + (if token.kind == StringToken then 2 else 1) <= token.end <= |doc|
      modifies this`errors
      ensures name == NameOf(features, doc, token)
      ensures errors == old(errors) + if name.None? then 1 else 0
    {
      if token.kind == StringToken {
        name := DecodeStringToken(token);
      } else {
        var number := DecodeNumberToken(token);
        name := if number.Some? then Some(NumericName(features, number.value)) else None;
      }
    }

    // ----- Values

    ghost function Top(): Value
      reads this
      requires nodes != []
    {
      nodes[|nodes| - 1]
    }

    method SetCurrentValue(v: Value)
      requires nodes != []
      modifies this`nodes
      ensures nodes == old(nodes[|nodes| - 1 := v])
    {
      nodes := nodes[|nodes| - 1 := v];
    }

    /**
     * The state that outcome `r` and the events of a value stand for, when it was read with stack
     * `stack`, `count` errors and the notes `was`.
     */
    ghost predicate Reached(r: Outcome, events: seq<Event>, was: Notes, thrown: bool, ok: bool, stack: seq<Value>,
                            count: nat)
      reads this
      requires stack != []
    {
      && (thrown <==> r.Thrown? || Follow(collectComments, doc, was, events).None?)
      && (!thrown ==>
            && ok == r.ok && current == r.current && errors == count + r.errors
            && nodes == stack[|stack| - 1 := r.value] && Followed(events, was, false))
    }

    method ReadValueHere() returns (thrown: bool, ok: bool)
      requires Valid() && nodes != [] && highest >= |nodes|
      modifies this`current, this`nodes, this`errors, this`highest, this`commentsBefore, this`lastValueEnd
      decreases |doc| - current, 1, 0
      ensures Valid()
      ensures Reached(ReadValue(features, doc, old(current), |old(nodes)|, old(Top())),
                      ValueEvents(features, doc, old(current), |old(nodes)|, old(Top())),
                      old(Noted()), thrown, ok, old(nodes), old(errors))
      ensures old(highest) <= highest
      ensures highest <= features.stackLimit + 1 || highest == old(highest)
    {
      hide FirstToken, FirstEvents, ReadValue, InsideEvents, StartsValue, Follow, Note;
      ghost var was, cur, depth, before := Noted(), current, |nodes|, Top();
      if |nodes| > features.stackLimit {
        TooHigh(features, doc, cur, depth, before);
        return true, false;
      }
      ghost var first, inside := FirstEvents(features, doc, cur), InsideEvents(features, doc, cur, depth);
      ghost var t, r := FirstToken(features, doc, cur), ReadValue(features, doc, cur, depth, before);
      ghost var end := EndEvents(features, t, r);
      FollowValue(collectComments, doc, was, depth, first, inside, end);
      var token;
      thrown, token := StartValue();
      if thrown {
        ok := false;
        return;
      }
      ghost var started := Noted();
      FollowConcat(collectComments, doc, started, inside, end);
      var ended;
      thrown, ok, ended := ReadInside(token, cur);
      if thrown || !ended {
        FollowNothing(collectComments, doc, Noted());
        return;
      }
      FollowOne(collectComments, doc, Noted(), ValueEnd(current));
      NoteEnd(doc, Noted(), current);
      if collectComments {
        lastValueEnd := Some(current);
      }
    }

    /** The first token of a value; the comments collected before it go to the value. */
    method StartValue() returns (thrown: bool, token: Token)
      requires Valid()
      modifies this`current, this`commentsBefore
      ensures Valid() && Followed(FirstEvents(features, doc, old(current)) + [Attach], old(Noted()), thrown)
      ensures !thrown ==> token == FirstToken(features, doc, old(current)) && current == token.end
    {
      hide FirstToken, FirstEvents, Follow;
      FollowConcat(collectComments, doc, Noted(), FirstEvents(features, doc, current), [Attach]);
      thrown, token := SkipCommentTokens();
      if !thrown {
        thrown := HandOverComments();
      }
    }

    method HandOverComments() returns (thrown: bool)
      modifies this`commentsBefore
      ensures Followed([Attach], old(Noted()), thrown)
    {
      hide Follow, Settable;
      FollowOne(collectComments, doc, Noted(), Attach);
      thrown := false;
      if collectComments && commentsBefore != "" {
        thrown := SetComment(commentsBefore);
        if !thrown {
          commentsBefore := "";
        }
      }
    }

    /** The value that `token` starts; `ended` if it is noted as read. */
    method ReadInside(token: Token, ghost cur: nat) returns (thrown: bool, ok: bool, ended: bool)
      requires Valid() && nodes != [] && highest >= |nodes| && |nodes| <= features.stackLimit && cur <= |doc|
      requires token == FirstToken(features, doc, cur) && current == token.end
      modifies this`current, this`nodes, this`errors, this`highest, this`commentsBefore, this`lastValueEnd
      decreases |doc| - cur, 0, 0
      ensures Valid()
      ensures Reached(ReadValue(features, doc, cur, |old(nodes)|, old(Top())),
                      InsideEvents(features, doc, cur, |old(nodes)|), old(Noted()), thrown, ok, old(nodes), old(errors))
      ensures ended == StartsValue(features, token)
      ensures old(highest) <= highest
      ensures highest <= features.stackLimit + 1 || highest == old(highest)
    {
      hide ReadToken, FirstToken, ReadPastComments, ReadMembers, ReadElements, Unescape, NumberValue, Follow,
           MembersEvents, ElementsEvents, SkipSpaces, StringOf;
      FollowNothing(collectComments, doc, Noted());
      thrown, ok, ended := false, true, true;
      match token.kind
      case ObjectBegin => thrown, ok := ReadObject();
      case ArrayBegin => thrown, ok := ReadArray();
      case NumberToken => ok := ReadNumberValue(token);
      case StringToken => thrown, ok := ReadStringValue(token);
      case TrueToken => SetCurrentValue(Bool(true));
      case FalseToken => SetCurrentValue(Bool(false));
      case NullToken => SetCurrentValue(Null);
      case NaNToken => SetCurrentValue(Real(NaN));
      case PosInf => SetCurrentValue(Real(PosInfinity));
      case NegInf => SetCurrentValue(Real(NegInfinity));
      case ArraySeparator | ObjectEnd | ArrayEnd =>
        if features.allowDroppedNullPlaceholders {
          current := current - 1;
          SetCurrentValue(Null);
        } else {
          errors := errors + 1;
          ok, ended := false, false;
        }
      case _ =>
        errors := errors + 1;
        ok, ended := false, false;
    }

    method ReadNumberValue(token: Token) returns (ok: bool)
      requires token.start < token.end <= |doc| && nodes != []
      modifies this`nodes, this`errors
      ensures var decoded := NumberValue(features, doc[token.start..token.end]);
              if decoded.Some?
              then ok && errors == old(errors) && nodes == old(nodes)[|old(nodes)| - 1 := decoded.value]
              else !ok && errors == old(errors) + 1 && nodes == old(nodes)
    {
      hide NumberValue;
      var decoded := DecodeNumberToken(token);
      ok := decoded.Some?;
      if ok {
        SetCurrentValue(decoded.value);
      }
    }

    method ReadStringValue(token: Token) returns (thrown: bool, ok: bool)
      requires token.start + 2 <= token.end <= |doc| && nodes != []
      modifies this`nodes, this`errors
      ensures var decoded := Unescape(doc[token.start + 1..token.end - 1]);
              if decoded.None?
              then && !thrown && !ok && errors == old(errors) + 1 && nodes == old(nodes)
                   && Followed([], old(Noted()), false)
              else
                var s := StringOf(decoded.value);
                && ok && errors == old(errors) && thrown == (|s| > MAX_STRING_LENGTH)
                && (!thrown ==> nodes == old(nodes)[|old(nodes)| - 1 := Str(s)])
                && Followed([Text(|s|)], old(Noted()), false)
    {
      hide Unescape, Follow, StringOf;
      FollowNothing(collectComments, doc, Noted());
      var decoded := DecodeStringToken(token);
      thrown, ok := false, decoded.Some?;
      if ok {
        thrown := SetString(decoded.value);
      }
    }

    /** A string value has its length in 32 bits, and throws if there is no room for it. */
    method SetString(s: string) returns (thrown: bool)
      requires nodes != []
      modifies this`nodes
      ensures thrown == (|StringOf(s)| > MAX_STRING_LENGTH)
      ensures nodes == if thrown then old(nodes) else old(nodes[|nodes| - 1 := Str(StringOf(s))])
      ensures Followed([Text(|StringOf(s)|)], old(Noted()), false)
    {
      hide Follow;
      FollowOne(collectComments, doc, Noted(), Text(|StringOf(s)|));
      var length := |s| % 0x1_0000_0000;
      if length > MAX_STRING_LENGTH {
        return true;
      }
      SetCurrentValue(Str(s[..length]));
      return false;
    }

    /** Pushes `before`, reads a value into it and pops it again. */
    method ReadChild(before: Value) returns (thrown: bool, ok: bool, value: Value)
      requires Valid() && nodes != [] && highest >= |nodes| && |nodes| <= features.stackLimit
      modifies this`current, this`nodes, this`errors, this`highest, this`commentsBefore, this`lastValueEnd
      decreases |doc| - current, 1, 1
      ensures Valid()
      ensures var r := ReadValue(features, doc, old(current), |old(nodes)| + 1, before);
              var events := ValueEvents(features, doc, old(current), |old(nodes)| + 1, before);
              && (thrown <==> r.Thrown? || Follow(collectComments, doc, old(Noted()), events).None?)
              && (!thrown ==>
                    && ok == r.ok && value == r.value && current == r.current && errors == old(errors) + r.errors
                    && nodes == old(nodes) && Followed(events, old(Noted()), false))
      ensures old(highest) <= highest
      ensures highest <= features.stackLimit + 1 || highest == old(highest)
    {
      hide ReadValue, ValueEvents, Follow;
      ghost var nodes0 := nodes;
      nodes := nodes + [before];
      highest := if highest < |nodes| then |nodes| else highest;
      thrown, ok := ReadValueHere();
      value := before;
      if !thrown {
        value := nodes[|nodes| - 1];
        nodes := nodes[..|nodes| - 1];
        assert nodes == nodes0;
      }
    }

    /**
     * Nothing is decided yet: what remains to be read from here on leads to outcome `next`, and what it
     * does to the present notes is what all of it does to the notes `was`.
     */
    ghost predicate Ahead(r: Outcome, events: seq<Event>, was: Notes, next: Outcome, nextEvents: seq<Event>)
      reads this
    {
      r == next && Follow(collectComments, doc, was, events) == Follow(collectComments, doc, Noted(), nextEvents)
    }

    method ReadObject() returns (thrown: bool, ok: bool)
      requires Valid() && nodes != [] && highest >= |nodes| && |nodes| <= features.stackLimit
      modifies this`current, this`nodes, this`errors, this`highest, this`commentsBefore, this`lastValueEnd
      decreases |doc| - current, 4, 0
      ensures Valid()
      ensures Reached(ReadMembers(features, doc, old(current), |old(nodes)|, [], ""),
                      MembersEvents(features, doc, old(current), |old(nodes)|, [], ""),
                      old(Noted()), thrown, ok, old(nodes), old(errors))
      ensures old(highest) <= highest
      ensures highest <= features.stackLimit + 1 || highest == old(highest)
    {
      hide ReadMembers, MembersEvents, ReadMember, MemberEvents, ReadNamed, NamedEvents, AfterMember, AfterEvents,
           Follow;
      ghost var nodes0, highest0, depth, was := nodes, highest, |nodes|, Noted();
      ghost var r := ReadMembers(features, doc, current, depth, [], "");
      ghost var events := MembersEvents(features, doc, current, depth, [], "");
      SetCurrentValue(Obj([]));
      var name, done := "", false;
      while true
        invariant Valid() && old(current) <= current && errors == old(errors)
        invariant |nodes| == depth && nodes == nodes0[depth - 1 := nodes[depth - 1]] && nodes[depth - 1].Obj?
        invariant Ahead(r, events, was,
                        ReadMembers(features, doc, current, depth, nodes[depth - 1].members, name),
                        MembersEvents(features, doc, current, depth, nodes[depth - 1].members, name))
        invariant highest0 <= highest && (highest <= features.stackLimit + 1 || highest == highest0)
        decreases |doc| - current
      {
        thrown, ok, done, name := ReadName(name);
        if done {
          return;
        }
        thrown, ok, done := ReadColon(name);
        if done {
          return;
        }
        thrown, ok, done := ReadMemberValue(name);
        if done {
          return;
        }
        thrown, ok, done := FinishMember(name);
        if done {
          return;
        }
      }
    }

    /** Reads the name of the next member: `done` when the object has ended, well or badly. */
    method ReadName(previous: string) returns (thrown: bool, ok: bool, done: bool, name: string)
      requires Valid() && nodes != [] && nodes[|nodes| - 1].Obj?
      modifies this`current, this`errors, this`commentsBefore
      ensures Valid()
      ensures var members := nodes[|nodes| - 1].members;
              var r := ReadMembers(features, doc, old(current), |nodes|, members, previous);
              var events := MembersEvents(features, doc, old(current), |nodes|, members, previous);
              if done then Reached(r, events, old(Noted()), thrown, ok, nodes, old(errors))
              else && old(current) < current && errors == old(errors)
                   && Ahead(r, events, old(Noted()),
                            ReadMember(features, doc, current, |nodes|, members, name),
                            MemberEvents(features, doc, current, |nodes|, members, name))
    {
      hide ReadToken, ReadPastComments, PastEvents, Recover, RecoverEvents, ReadMember, MemberEvents, NameOf, Follow,
           MembersEvents;
      FollowMembers(collectComments, Noted(), features, doc, current, |nodes|, nodes[|nodes| - 1].members, previous);
      name := previous;
      var tokenName;
      thrown, tokenName := ReadTokenPastComments();
      if thrown {
        return true, false, true, name;
      }
      if tokenName.kind == ObjectEnd && name == "" {
        return false, true, true, name;
      }
      if tokenName.kind != StringToken && !(tokenName.kind == NumberToken && features.allowNumericKeys) {
        thrown := AddErrorAndRecover(ObjectEnd);
        return thrown, false, true, name;
      }
      var decoded := DecodeName(tokenName);
      if decoded.None? {
        thrown := RecoverFromError(ObjectEnd);
        return thrown, false, true, name;
      }
      return false, true, false, decoded.value;
    }

    /** Reads the colon of a member. */
    method ReadColon(name: string) returns (thrown: bool, ok: bool, done: bool)
      requires Valid() && nodes != [] && nodes[|nodes| - 1].Obj?
      modifies this`current, this`errors, this`commentsBefore
      ensures Valid()
      ensures var members := nodes[|nodes| - 1].members;
              var r := ReadMember(features, doc, old(current), |nodes|, members, name);
              var events := MemberEvents(features, doc, old(current), |nodes|, members, name);
              if done then Reached(r, events, old(Noted()), thrown, ok, nodes, old(errors))
              else && old(current) < current && errors == old(errors)
                   && Ahead(r, events, old(Noted()),
                            ReadNamed(features, doc, current, |nodes|, members, name),
                            NamedEvents(features, doc, current, |nodes|, members, name))
    {
      hide ReadToken, Recover, ReadNamed, Follow, RecoverEvents, TokenEvents, NamedEvents;
      FollowMember(collectComments, Noted(), features, doc, current, |nodes|, nodes[|nodes| - 1].members, name);
      var colon;
      thrown, colon := ReadTokenHere();
      if thrown {
        return true, false, true;
      }
      if colon.kind != MemberSeparator {
        thrown := AddErrorAndRecover(ObjectEnd);
        return thrown, false, true;
      }
      return false, true, false;
    }

    /** Reads the value of a member into a copy and stores it under the name. */
    method ReadMemberValue(name: string) returns (thrown: bool, ok: bool, done: bool)
      requires Valid() && nodes != [] && nodes[|nodes| - 1].Obj?
      requires highest >= |nodes| && |nodes| <= features.stackLimit
      modifies this`current, this`nodes, this`errors, this`highest, this`commentsBefore, this`lastValueEnd
      decreases |doc| - current, 3, 0
      ensures Valid()
      ensures var members := old(nodes[|nodes| - 1].members);
              var r := ReadNamed(features, doc, old(current), |old(nodes)|, members, name);
              var events := NamedEvents(features, doc, old(current), |old(nodes)|, members, name);
              if done then Reached(r, events, old(Noted()), thrown, ok, old(nodes), old(errors))
              else && old(current) <= current && errors == old(errors)
                   && |nodes| == |old(nodes)| && nodes[|nodes| - 1].Obj?
                   && nodes == old(nodes)[|nodes| - 1 := nodes[|nodes| - 1]]
                   && Ahead(r, events, old(Noted()),
                            AfterMember(features, doc, current, |nodes|, nodes[|nodes| - 1].members, name),
                            AfterEvents(features, doc, current, |nodes|, nodes[|nodes| - 1].members, name))
      ensures old(highest) <= highest
      ensures highest <= features.stackLimit + 1 || highest == old(highest)
    {
      hide Recover, ReadValue, AfterMember, Store, Lookup, Follow, RecoverEvents, ValueEvents, AfterEvents, HasMember,
           NamedEvents;
      var members := nodes[|nodes| - 1].members;
      NamedBadly(features, doc, current, |nodes|, members, name);
      if |name| >= MAX_KEY_LENGTH {
        return true, false, true;
      }
      if features.rejectDupKeys && HasMember(members, name) {
        thrown := AddErrorAndRecover(ObjectEnd);
        return thrown, false, true;
      }
      FollowNamed(collectComments, Noted(), features, doc, current, |nodes|, members, name);
      var value;
      thrown, ok, value := ReadChild(Lookup(members, name));
      if thrown {
        return true, ok, true;
      }
      SetCurrentValue(Obj(Store(members, name, value)));
      if !ok {
        thrown := RecoverFromError(ObjectEnd);
        return thrown, false, true;
      }
      return false, true, false;
    }

    /** Reads what follows a member: the end of the object, or a separator. */
    method FinishMember(name: string) returns (thrown: bool, ok: bool, done: bool)
      requires Valid() && nodes != [] && nodes[|nodes| - 1].Obj?
      modifies this`current, this`errors, this`commentsBefore
      ensures Valid()
      ensures var members := nodes[|nodes| - 1].members;
              var r := AfterMember(features, doc, old(current), |nodes|, members, name);
              var events := AfterEvents(features, doc, old(current), |nodes|, members, name);
              if done then Reached(r, events, old(Noted()), thrown, ok, nodes, old(errors))
              else && old(current) < current && errors == old(errors)
                   && Ahead(r, events, old(Noted()),
                            ReadMembers(features, doc, current, |nodes|, members, name),
                            MembersEvents(features, doc, current, |nodes|, members, name))
    {
      hide ReadToken, ReadPastComments, Recover, ReadMembers, Follow, RecoverEvents, TokenEvents, PastEvents,
           MembersEvents;
      ghost var was, cur, members := Noted(), current, nodes[|nodes| - 1].members;
      ghost var first := TokenEvents(doc, ReadToken(features, doc, cur));
      ghost var rest := AfterEvents(features, doc, cur, |nodes|, members, name)[|first|..];
      FollowConcat(collectComments, doc, was, first, rest);
      assert first + rest == AfterEvents(features, doc, cur, |nodes|, members, name);
      var comma;
      thrown, comma := ReadTokenHere();
      if thrown {
        return true, false, true;
      }
      if comma.kind != ObjectEnd && comma.kind != ArraySeparator && comma.kind != Comment {
        thrown := AddErrorAndRecover(ObjectEnd);
        return thrown, false, true;
      }
      ghost var further := FurtherEvents(comma);
      FollowConcat(collectComments, doc, Noted(), further, rest[|further|..]);
      assert further + rest[|further|..] == rest;
      thrown, comma := SkipFurtherComments(comma);
      if thrown {
        return true, false, true;
      }
      FollowNothing(collectComments, doc, Noted());
      return false, true, comma.kind == ObjectEnd;
    }

    method ReadArray() returns (thrown: bool, ok: bool)
      requires Valid() && nodes != [] && highest >= |nodes| && |nodes| <= features.stackLimit
      modifies this`current, this`nodes, this`errors, this`highest, this`commentsBefore, this`lastValueEnd
      decreases |doc| - current, 3, 0
      ensures Valid()
      ensures var p := SkipSpaces(doc, old(current));
              Reached(if NextChar(doc, p) == ']' then Done(true, Arr([]), p + 1, 0)
                      else ReadElements(features, doc, p, |old(nodes)|, []),
                      if NextChar(doc, p) == ']' then [] else ElementsEvents(features, doc, p, |old(nodes)|, []),
                      old(Noted()), thrown, ok, old(nodes), old(errors))
      ensures old(highest) <= highest
      ensures highest <= features.stackLimit + 1 || highest == old(highest)
    {
      hide ReadToken, ReadElements, ElementsEvents, Follow, SkipSpaces;
      FollowNothing(collectComments, doc, Noted());
      SetCurrentValue(Arr([]));
      SkipSpacesHere();
      if current != |doc| && doc[current] == ']' {
        EndOfArray(features, doc, current);
        var endArray;
        thrown, endArray := ReadTokenHere();
        return false, true;
      }
      thrown, ok := ReadElementsHere();
    }

    /** The loop over the elements. */
    method ReadElementsHere() returns (thrown: bool, ok: bool)
      requires Valid() && nodes != [] && highest >= |nodes| && |nodes| <= features.stackLimit
      requires nodes[|nodes| - 1] == Arr([])
      modifies this`current, this`nodes, this`errors, this`highest, this`commentsBefore, this`lastValueEnd
      decreases |doc| - current, 2, 1
      ensures Valid()
      ensures Reached(ReadElements(features, doc, old(current), |old(nodes)|, []),
                      ElementsEvents(features, doc, old(current), |old(nodes)|, []),
                      old(Noted()), thrown, ok, old(nodes), old(errors))
      ensures old(highest) <= highest
      ensures highest <= features.stackLimit + 1 || highest == old(highest)
    {
      hide ReadElements, ElementsEvents, AfterElement, AfterElementEvents, Follow;
      ghost var nodes0, highest0, depth, was := nodes, highest, |nodes|, Noted();
      ghost var r := ReadElements(features, doc, current, depth, []);
      ghost var events := ElementsEvents(features, doc, current, depth, []);
      while true
        invariant Valid() && old(current) <= current && errors == old(errors)
        invariant |nodes| == depth && nodes == nodes0[depth - 1 := nodes[depth - 1]] && nodes[depth - 1].Arr?
        invariant Ahead(r, events, was,
                        ReadElements(features, doc, current, depth, nodes[depth - 1].items),
                        ElementsEvents(features, doc, current, depth, nodes[depth - 1].items))
        invariant highest0 <= highest && (highest <= features.stackLimit + 1 || highest == highest0)
        decreases |doc| - current
      {
        var done;
        thrown, ok, done := ReadElement();
        if done {
          return;
        }
        thrown, ok, done := FinishElement();
        if done {
          return;
        }
      }
    }

    /** Reads the next element into a copy and appends it: `done` when the array has ended, well or badly. */
    method ReadElement() returns (thrown: bool, ok: bool, done: bool)
      requires Valid() && nodes != [] && nodes[|nodes| - 1].Arr?
      requires highest >= |nodes| && |nodes| <= features.stackLimit
      modifies this`current, this`nodes, this`errors, this`highest, this`commentsBefore, this`lastValueEnd
      decreases |doc| - current, 2, 0
      ensures Valid()
      ensures var items := old(nodes[|nodes| - 1].items);
              var r := ReadElements(features, doc, old(current), |old(nodes)|, items);
              var events := ElementsEvents(features, doc, old(current), |old(nodes)|, items);
              if done then Reached(r, events, old(Noted()), thrown, ok, old(nodes), old(errors))
              else && old(current) <= current && errors == old(errors)
                   && |nodes| == |old(nodes)| && nodes[|nodes| - 1].Arr?
                   && nodes == old(nodes)[|nodes| - 1 := nodes[|nodes| - 1]]
                   && Ahead(r, events, old(Noted()),
                            AfterElement(features, doc, current, |nodes|, nodes[|nodes| - 1].items),
                            AfterElementEvents(features, doc, current, |nodes|, nodes[|nodes| - 1].items))
      ensures old(highest) <= highest
      ensures highest <= features.stackLimit + 1 || highest == old(highest)
    {
      hide Recover, ReadValue, Follow, RecoverEvents, ValueEvents, ElementsEvents, AfterElement, AfterElementEvents;
      var items := nodes[|nodes| - 1].items;
      FollowElements(collectComments, Noted(), features, doc, current, |nodes|, items);
      var value;
      thrown, ok, value := ReadChild(Null);
      if thrown {
        return true, ok, true;
      }
      SetCurrentValue(Arr(items + [value]));
      if !ok {
        thrown := RecoverFromError(ArrayEnd);
        return thrown, false, true;
      }
      return false, true, false;
    }

    /** Reads what follows an element: the end of the array, or a separator. */
    method FinishElement() returns (thrown: bool, ok: bool, done: bool)
      requires Valid() && nodes != [] && nodes[|nodes| - 1].Arr?
      modifies this`current, this`errors, this`commentsBefore
      ensures Valid()
      ensures var items := nodes[|nodes| - 1].items;
              var r := AfterElement(features, doc, old(current), |nodes|, items);
              var events := AfterElementEvents(features, doc, old(current), |nodes|, items);
              if done then Reached(r, events, old(Noted()), thrown, ok, nodes, old(errors))
              else && old(current) < current && errors == old(errors)
                   && Ahead(r, events, old(Noted()),
                            ReadElements(features, doc, current, |nodes|, items),
                            ElementsEvents(features, doc, current, |nodes|, items))
    {
      hide ReadPastComments, PastEvents, Recover, Follow, RecoverEvents, ReadElements, ElementsEvents,
           AfterElementEvents;
      FollowAfterElement(collectComments, Noted(), features, doc, current, |nodes|, nodes[|nodes| - 1].items);
      var currentToken;
      thrown, currentToken := ReadTokenPastComments();
      if thrown {
        return true, false, true;
      }
      if currentToken.kind != ArraySeparator && currentToken.kind != ArrayEnd {
        thrown := AddErrorAndRecover(ArrayEnd);
        return thrown, false, true;
      }
      return false, true, currentToken.kind == ArrayEnd;
    }

    /** Reads the document `text` into `root`, collecting comments if the factory asks for it. */
    method ParseDocument(text: string, root: Value) returns (thrown: bool, ok: bool)
      modifies this
      ensures Valid() && doc == text
      ensures match Parse(features, text, root)
              case Thrown => thrown
              case Done(o, v, c, e) => !thrown && ok == o && nodes == [v] && current == c && errors == e
      ensures !thrown ==> (ok <==> errors == 0)
      ensures highest <= features.stackLimit + 1
    {
      hide Follow, ReadValue, ValueEvents, FirstToken, FirstEvents, DocumentEvents, IsExtra;
      doc := text;
      collectComments := features.collectComments && features.allowComments;
      current := 0;
      lastValueEnd, commentsBefore := None, "";
      errors := 0;
      nodes := [root];
      highest := 1;
      FollowDocument(features, text, root);
      thrown, ok := ReadValueHere();
      if !thrown {
        thrown, ok := FinishDocument(ok);
      }
    }

    /** What may follow the value, and whether the root may be of its type. */
    method FinishDocument(successful: bool) returns (thrown: bool, ok: bool)
      requires Valid() && nodes != []
      modifies this`current, this`errors, this`commentsBefore
      ensures Valid()
      ensures var t := FirstToken(features, doc, old(current));
              var skipped := Follow(collectComments, doc, old(Noted()), FirstEvents(features, doc, old(current)));
              && (thrown <==>
                    (if IsExtra(features, t) then skipped else Goes(collectComments, doc, skipped, [Attach])).None?)
              && (!thrown ==>
                    && current == t.end
                    && (var bad := IsExtra(features, t) || (features.strictRoot && !nodes[0].Arr? && !nodes[0].Obj?);
                        ok == (successful && !bad) && errors == old(errors) + if bad then 1 else 0))
    {
      hide Follow, FirstToken, FirstEvents;
      var token;
      thrown, token := SkipCommentTokens();
      if thrown {
        return true, false;
      }
      if features.failIfExtra {
        if (features.strictRoot || token.kind != ErrorToken) && token.kind != EndOfStream {
          errors := errors + 1;
          return false, false;
        }
      }
      thrown := HandOverComments();
      if thrown {
        return true, false;
      }
      if features.strictRoot {
        if !nodes[0].Arr? && !nodes[0].Obj? {
          errors := errors + 1;
          return false, false;
        }
      }
      return false, successful;
    }
  }

  lemma SkipTwice(doc: string, p: nat)
    requires p <= |doc| && (p < |doc| ==> !IsSpace(doc[p]))
    ensures SkipSpaces(doc, p) == p
  {
  }

  lemma TooHigh(f: Features, doc: string, cur: nat, depth: nat, before: Value)
    requires cur <= |doc| && depth > f.stackLimit
    ensures ReadValue(f, doc, cur, depth, before) == Thrown
  {
  }

  lemma NormalizeStep(s: string)
    requires s != ""
    ensures s[0] != '\r' ==> NormalizeEOL(s) == [s[0]] + NormalizeEOL(s[1..])
    ensures s[0] == '\r' && (|s| == 1 || s[1] != '\n') ==> NormalizeEOL(s) == ['\n'] + NormalizeEOL(s[1..])
    ensures s[0] == '\r' && |s| > 1 && s[1] == '\n' ==> NormalizeEOL(s) == ['\n'] + NormalizeEOL(s[2..])
  {
  }

  lemma NormalizeNothing()
    ensures NormalizeEOL("") == ""
  {
  }

  lemma NoteEnd(doc: string, s: Notes, at: nat)
    ensures Note(doc, s, ValueEnd(at)) == Some(s.(last := Some(at)))
  {
  }

  /** The events of a value, part by part. */
  lemma FollowValue(collect: bool, doc: string, s: Notes, depth: nat, first: seq<Event>, inside: seq<Event>,
                    end: seq<Event>)
    ensures var started := Follow(collect, doc, s, first + [Attach]);
            Follow(collect, doc, s, [Enter(depth)] + first + [Attach] + inside + end)
            == if started.None? then None else Follow(collect, doc, started.value, inside + end)
  {
    hide Follow;
    assert [Enter(depth)] + first + [Attach] + inside + end == [Enter(depth)] + (first + [Attach] + (inside + end));
    FollowConcat(collect, doc, s, [Enter(depth)], first + [Attach] + (inside + end));
    FollowOne(collect, doc, s, Enter(depth));
    FollowConcat(collect, doc, s, first + [Attach], inside + end);
  }

  /** The events of a member: its colon, then the rest. */
  lemma FollowMember(collect: bool, s: Notes, f: Features, doc: string, cur: nat, depth: nat, members: seq<Member>,
                     name: string)
    requires cur <= |doc|
    ensures var colon := ReadToken(f, doc, cur);
            var noted := Follow(collect, doc, s, TokenEvents(doc, colon));
            Follow(collect, doc, s, MemberEvents(f, doc, cur, depth, members, name))
            == if noted.None? then None
               else if colon.kind != MemberSeparator
               then Follow(collect, doc, noted.value, RecoverEvents(f, doc, colon.end, ObjectEnd))
               else Follow(collect, doc, noted.value, NamedEvents(f, doc, colon.end, depth, members, name))
  {
    hide Follow, ReadToken, TokenEvents, RecoverEvents, NamedEvents;
    var colon := ReadToken(f, doc, cur);
    var named := NamedEvents(f, doc, colon.end, depth, members, name);
    var rest := if colon.kind != MemberSeparator then RecoverEvents(f, doc, colon.end, ObjectEnd)
                else [Named(|name|)] + named;
    FollowConcat(collect, doc, s, TokenEvents(doc, colon), rest);
    var noted := Follow(collect, doc, s, TokenEvents(doc, colon));
    if noted.Some? && colon.kind == MemberSeparator {
      FollowConcat(collect, doc, noted.value, [Named(|name|)], named);
      FollowOne(collect, doc, noted.value, Named(|name|));
    }
  }

  /** What the events `events` do to notes, if there are any. */
  function Goes(collect: bool, doc: string, s: Option<Notes>, events: seq<Event>): Option<Notes> {
    if s.None? then None else Follow(collect, doc, s.value, events)
  }

  lemma FollowMembers(collect: bool, s: Notes, f: Features, doc: string, cur: nat, depth: nat, members: seq<Member>,
                      name: string)
    requires cur <= |doc|
    ensures var t := ReadPastComments(f, doc, cur);
            var noted := Follow(collect, doc, s, PastEvents(f, doc, cur));
            Follow(collect, doc, s, MembersEvents(f, doc, cur, depth, members, name))
            == if t.kind == ObjectEnd && name == "" then noted
               else if (t.kind == StringToken || (t.kind == NumberToken && f.allowNumericKeys))
                       && NameOf(f, doc, t).Some?
               then Goes(collect, doc, noted, MemberEvents(f, doc, t.end, depth, members, NameOf(f, doc, t).value))
               else Goes(collect, doc, noted, RecoverEvents(f, doc, t.end, ObjectEnd))
  {
    hide Follow, ReadPastComments, PastEvents, MemberEvents, RecoverEvents, NameOf;
    var past := PastEvents(f, doc, cur);
    var rest := MembersEvents(f, doc, cur, depth, members, name)[|past|..];
    FollowConcat(collect, doc, s, past, rest);
    var noted := Follow(collect, doc, s, past);
    if noted.Some? {
      FollowNothing(collect, doc, noted.value);
    }
  }

  lemma NamedBadly(f: Features, doc: string, cur: nat, depth: nat, members: seq<Member>, name: string)
    requires cur <= |doc|
    ensures |name| < MAX_KEY_LENGTH && f.rejectDupKeys && HasMember(members, name) ==>
              NamedEvents(f, doc, cur, depth, members, name) == RecoverEvents(f, doc, cur, ObjectEnd)
  {
  }

  lemma FollowNamed(collect: bool, s: Notes, f: Features, doc: string, cur: nat, depth: nat, members: seq<Member>,
                    name: string)
    requires cur <= |doc| && |name| < MAX_KEY_LENGTH && !(f.rejectDupKeys && HasMember(members, name))
    ensures var before := Lookup(members, name);
            var r := ReadValue(f, doc, cur, depth + 1, before);
            var noted := Follow(collect, doc, s, ValueEvents(f, doc, cur, depth + 1, before));
            Follow(collect, doc, s, NamedEvents(f, doc, cur, depth, members, name))
            == if r.Thrown? then noted
               else if !r.ok then Goes(collect, doc, noted, RecoverEvents(f, doc, r.current, ObjectEnd))
               else Goes(collect, doc, noted,
                         AfterEvents(f, doc, r.current, depth, Store(members, name, r.value), name))
  {
    hide Follow, ReadValue, ValueEvents, RecoverEvents, AfterEvents, Lookup, Store;
    var before := Lookup(members, name);
    var events := ValueEvents(f, doc, cur, depth + 1, before);
    var rest := NamedEvents(f, doc, cur, depth, members, name)[|events|..];
    FollowConcat(collect, doc, s, events, rest);
    var noted := Follow(collect, doc, s, events);
    if noted.Some? {
      FollowNothing(collect, doc, noted.value);
    }
  }

  lemma FollowElements(collect: bool, s: Notes, f: Features, doc: string, cur: nat, depth: nat, items: seq<Value>)
    requires cur <= |doc|
    ensures var r := ReadValue(f, doc, cur, depth + 1, Null);
            var noted := Follow(collect, doc, s, ValueEvents(f, doc, cur, depth + 1, Null));
            Follow(collect, doc, s, ElementsEvents(f, doc, cur, depth, items))
            == if r.Thrown? then noted
               else if !r.ok then Goes(collect, doc, noted, RecoverEvents(f, doc, r.current, ArrayEnd))
               else Goes(collect, doc, noted, AfterElementEvents(f, doc, r.current, depth, items + [r.value]))
  {
    hide Follow, ReadValue, ValueEvents, RecoverEvents, AfterElementEvents;
    var events := ValueEvents(f, doc, cur, depth + 1, Null);
    var rest := ElementsEvents(f, doc, cur, depth, items)[|events|..];
    FollowConcat(collect, doc, s, events, rest);
    var noted := Follow(collect, doc, s, events);
    if noted.Some? {
      FollowNothing(collect, doc, noted.value);
    }
  }

  lemma FollowAfterElement(collect: bool, s: Notes, f: Features, doc: string, cur: nat, depth: nat, read: seq<Value>)
    requires cur <= |doc|
    ensures var t := ReadPastComments(f, doc, cur);
            var noted := Follow(collect, doc, s, PastEvents(f, doc, cur));
            Follow(collect, doc, s, AfterElementEvents(f, doc, cur, depth, read))
            == if t.kind == ArrayEnd then noted
               else if t.kind == ArraySeparator
               then Goes(collect, doc, noted, ElementsEvents(f, doc, t.end, depth, read))
               else Goes(collect, doc, noted, RecoverEvents(f, doc, t.end, ArrayEnd))
  {
    hide Follow, ReadPastComments, PastEvents, ElementsEvents, RecoverEvents;
    var past := PastEvents(f, doc, cur);
    var rest := AfterElementEvents(f, doc, cur, depth, read)[|past|..];
    FollowConcat(collect, doc, s, past, rest);
    var noted := Follow(collect, doc, s, past);
    if noted.Some? {
      FollowNothing(collect, doc, noted.value);
    }
  }

  lemma FollowDocument(f: Features, doc: string, root: Value)
    ensures var r := ReadValue(f, doc, 0, 1, root);
            var noted := Follow(Collects(f), doc, NOTHING, ValueEvents(f, doc, 0, 1, root));
            Follow(Collects(f), doc, NOTHING, DocumentEvents(f, doc, root))
            == if r.Thrown? then noted
               else
                 var skipped := Goes(Collects(f), doc, noted, FirstEvents(f, doc, r.current));
                 if IsExtra(f, FirstToken(f, doc, r.current)) then skipped
                 else Goes(Collects(f), doc, skipped, [Attach])
  {
    hide Follow, ReadValue, ValueEvents, FirstEvents, FirstToken, IsExtra;
    var collect := Collects(f);
    var r := ReadValue(f, doc, 0, 1, root);
    var events := ValueEvents(f, doc, 0, 1, root);
    var rest := DocumentEvents(f, doc, root)[|events|..];
    FollowConcat(collect, doc, NOTHING, events, rest);
    var noted := Follow(collect, doc, NOTHING, events);
    if noted.Some? {
      FollowNothing(collect, doc, noted.value);
      if r.Done? {
        var first := FirstEvents(f, doc, r.current);
        FollowConcat(collect, doc, noted.value, first, rest[|first|..]);
        if Follow(collect, doc, noted.value, first).Some? {
          FollowNothing(collect, doc, Follow(collect, doc, noted.value, first).value);
        }
      }
    }
  }

  lemma EndOfArray(f: Features, doc: string, cur: nat)
    requires cur < |doc| && doc[cur] == ']'
    ensures ReadToken(f, doc, cur) == Token(ArrayEnd, cur, cur + 1)
  {
  }
}
