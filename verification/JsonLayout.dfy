/**
 * The tokens of a value, the texts that lay them out, and the main theorem about the reader:
 * whatever the layout, it reads the value back.
 */
module JsonLayout {
  import opened JsonText
  import opened JsonNumber
  import opened JsonValue
  import opened JsonGrammar

  // ----- Values that have tokens

  ghost predicate Sorted(members: seq<Member>) {
    forall i, j :: 0 <= i < j < |members| ==> BytesLess(members[i].name, members[j].name)
  }

  /** What the program's types guarantee: machine integers, byte strings of limited length, an ordered map. */
  ghost predicate Representable(v: Value) {
    match v
    case Int(i) => MIN_INT64 <= i <= MAX_INT64
    case UInt(u) => 0 <= u <= MAX_UINT64
    case Str(s) => IsBytes(s) && |s| <= MAX_STRING_LENGTH
    case Arr(items) => forall k :: 0 <= k < |items| ==> Representable(items[k])
    case Obj(members) =>
      && Sorted(members)
      && (forall k :: 0 <= k < |members| ==> IsBytes(members[k].name) && Representable(members[k].value))
    case _ => true
  }

  ghost predicate RealFree(v: Value) {
    match v
    case Real(_) => false
    case Arr(items) => forall k :: 0 <= k < |items| ==> RealFree(items[k])
    case Obj(members) => forall k :: 0 <= k < |members| ==> RealFree(members[k].value)
    case _ => true
  }

  /** All strings are well-formed UTF-8, and all names are short enough to be read. */
  ghost predicate Textual(v: Value) {
    match v
    case Str(s) => WellFormed(s)
    case Arr(items) => forall k :: 0 <= k < |items| ==> Textual(items[k])
    case Obj(members) =>
      forall k :: 0 <= k < |members| ==>
                    WellFormed(members[k].name) && |members[k].name| < MAX_KEY_LENGTH && Textual(members[k].value)
    case _ => true
  }

  function Max(a: nat, b: nat): nat {
    if a < b then b else a
  }

  function Depth(v: Value): nat {
    match v
    case Arr(items) => 1 + DepthOfItems(items, 0)
    case Obj(members) => 1 + DepthOfMembers(members, 0)
    case _ => 1
  }

  function DepthOfItems(items: seq<Value>, k: nat): nat
    requires k <= |items|
    decreases items, |items| - k
  {
    if k == |items| then 0 else Max(Depth(items[k]), DepthOfItems(items, k + 1))
  }

  function DepthOfMembers(members: seq<Member>, k: nat): nat
    requires k <= |members|
    decreases members, |members| - k
  {
    if k == |members| then 0 else Max(Depth(members[k].value), DepthOfMembers(members, k + 1))
  }

  // ----- Tokens

  ghost function Tokens(v: Value): seq<string> {
    match v
    case Null => ["null"]
    case Bool(b) => [if b then "true" else "false"]
    case Int(i) => [IntText(i)]
    case UInt(u) => [IntText(u)]
    case Str(s) => [Quote(s)]
    case Real(_) => []
    case Arr(items) => ["["] + TokensOfItems(items, 0) + ["]"]
    case Obj(members) => ["{"] + TokensOfMembers(members, 0) + ["}"]
  }

  /** The tokens from element `k` on, each later element after its comma. */
  ghost function TokensOfItems(items: seq<Value>, k: nat): seq<string>
    requires k <= |items|
    decreases items, |items| - k
  {
    if k == |items| then [] else
    (if k > 0 then [","] else []) + Tokens(items[k]) + TokensOfItems(items, k + 1)
  }

  ghost function TokensOfMembers(members: seq<Member>, k: nat): seq<string>
    requires k <= |members|
    decreases members, |members| - k
  {
    if k == |members| then [] else
    (if k > 0 then [","] else []) + TokensOfMember(members[k]) + TokensOfMembers(members, k + 1)
  }

  ghost function TokensOfMember(m: Member): seq<string>
    decreases m
  {
    [Quote(m.name), ":"] + Tokens(m.value)
  }

  ghost predicate IsToken(t: string) {
    t != "" && !IsSpace(t[0])
  }

  ghost predicate AllTokens(toks: seq<string>) {
    forall i :: 0 <= i < |toks| ==> IsToken(toks[i])
  }

  lemma {:induction false} TokensAreTokens(v: Value)
    ensures AllTokens(Tokens(v))
    decreases v, 0
  {
    match v
    case Int(i) => IntTextStart(i);
    case UInt(u) => IntTextStart(u);
    case Arr(items) => ItemTokensAreTokens(items, 0);
    case Obj(members) => MemberTokensAreTokens(members, 0);
    case _ =>
  }

  lemma {:induction false} ItemTokensAreTokens(items: seq<Value>, k: nat)
    requires k <= |items|
    ensures AllTokens(TokensOfItems(items, k))
    decreases items, |items| - k
  {
    if k < |items| {
      TokensAreTokens(items[k]);
      ItemTokensAreTokens(items, k + 1);
    }
  }

  lemma {:induction false} MemberTokensAreTokens(members: seq<Member>, k: nat)
    requires k <= |members|
    ensures AllTokens(TokensOfMembers(members, k))
    decreases members, |members| - k
  {
    if k < |members| {
      TokensAreTokens(members[k].value);
      MemberTokensAreTokens(members, k + 1);
    }
  }

  lemma IntTextStart(i: int)
    ensures IsToken(IntText(i)) && (IntText(i)[0] == '-' || IsDigit(IntText(i)[0]))
  {
  }

  // ----- Layouts

  ghost predicate AllSpaces(s: string) {
    forall i :: 0 <= i < |s| ==> IsSpace(s[i])
  }

  /** Where token `t`, after any amount of space, ends when looked for at `p`; -1 if it is not there. */
  ghost function Step(doc: string, p: nat, t: string): (e: int)
    requires p <= |doc|
    ensures e == -1 || p + |t| <= e <= |doc|
  {
    var q := SkipSpaces(doc, p);
    if Matches(doc, q, t) then q + |t| else -1
  }

  /** Where a sequence of tokens ends, the same way. */
  ghost function Run(doc: string, p: nat, toks: seq<string>): (e: int)
    requires p <= |doc|
    ensures e == -1 || p <= e <= |doc|
    decreases |toks|
  {
    if toks == [] then p else
    var e := Step(doc, p, toks[0]);
    if e < 0 then -1 else Run(doc, e, toks[1..])
  }

  /** `doc` is the tokens in order with nothing but space around and between them. */
  ghost predicate Lays(doc: string, toks: seq<string>) {
    var e := Run(doc, 0, toks);
    e >= 0 && AllSpaces(doc[e..])
  }

  lemma {:induction false} RunConcat(doc: string, p: nat, a: seq<string>, b: seq<string>)
    requires p <= |doc|
    ensures Run(doc, p, a + b) == if Run(doc, p, a) < 0 then -1 else Run(doc, Run(doc, p, a), b)
    decreases |a|
  {
    hide Step;
    if a == [] {
      assert a + b == b;
    } else {
      assert (a + b)[1..] == a[1..] + b && (a + b)[0] == a[0];
      var e := Step(doc, p, a[0]);
      if e >= 0 {
        RunConcat(doc, e, a[1..], b);
      }
    }
  }

  lemma {:induction false} SkipIsFirst(doc: string, p: nat, q: nat)
    requires p <= q <= |doc| && (forall i :: p <= i < q ==> IsSpace(doc[i]))
    requires q < |doc| ==> !IsSpace(doc[q])
    ensures SkipSpaces(doc, p) == q
    decreases |doc| - p
  {
    if p < q {
      SkipIsFirst(doc, p + 1, q);
    }
  }

  lemma StepExtends(doc: string, p: nat, t: string, more: string)
    requires p <= |doc| && IsToken(t) && Step(doc, p, t) >= 0
    ensures Step(doc + more, p, t) == Step(doc, p, t)
  {
    var q := SkipSpaces(doc, p);
    assert doc[q..q + |t|][0] == t[0];
    SkipIsFirst(doc + more, p, q);
    assert (doc + more)[q..q + |t|] == doc[q..q + |t|];
  }

  lemma StepShifts(before: string, doc: string, p: nat, t: string)
    requires p <= |doc| && Step(doc, p, t) >= 0
    ensures Step(before + doc, |before| + p, t) == |before| + Step(doc, p, t)
  {
    var whole, q := before + doc, SkipSpaces(doc, p);
    forall i | |before| + p <= i < |before| + q ensures IsSpace(whole[i]) {
      assert whole[i] == doc[i - |before|];
    }
    SkipIsFirst(whole, |before| + p, |before| + q);
    assert whole[|before| + q..|before| + q + |t|] == doc[q..q + |t|];
  }

  /** What follows the tokens does not matter. */
  lemma {:induction false} RunExtends(doc: string, p: nat, toks: seq<string>, more: string)
    requires p <= |doc| && AllTokens(toks) && Run(doc, p, toks) >= 0
    ensures Run(doc + more, p, toks) == Run(doc, p, toks)
    decreases |toks|
  {
    hide Step, SkipSpaces;
    if toks != [] {
      StepExtends(doc, p, toks[0], more);
      RunExtends(doc, Step(doc, p, toks[0]), toks[1..], more);
    }
  }

  /** Nor does what comes before them. */
  lemma {:induction false} RunShifts(before: string, doc: string, p: nat, toks: seq<string>)
    requires p <= |doc| && Run(doc, p, toks) >= 0
    ensures Run(before + doc, |before| + p, toks) == |before| + Run(doc, p, toks)
    decreases |toks|
  {
    hide Step, SkipSpaces;
    if toks != [] {
      StepShifts(before, doc, p, toks[0]);
      RunShifts(before, doc, Step(doc, p, toks[0]), toks[1..]);
    }
  }

  lemma RunFromSpace(doc: string, p: nat, q: nat, toks: seq<string>)
    requires p <= q <= |doc| && (forall i :: p <= i < q ==> IsSpace(doc[i])) && toks != []
    ensures Run(doc, p, toks) == Run(doc, q, toks)
  {
    var r := SkipSpaces(doc, q);
    SkipIsFirst(doc, p, r);
  }

  /** Layouts compose. */
  lemma LaysConcat(doc: string, toks: seq<string>, text: string, more: seq<string>)
    requires Lays(doc, toks) && Lays(text, more) && AllTokens(toks)
    ensures Lays(doc + text, toks + more)
  {
    hide Step, SkipSpaces;
    var whole := doc + text;
    var e, d := Run(doc, 0, toks), Run(text, 0, more);
    RunExtends(doc, 0, toks, text);
    RunConcat(whole, 0, toks, more);
    assert Run(whole, 0, toks + more) == Run(whole, e, more);
    forall i | e <= i < |doc| ensures IsSpace(whole[i]) {
      assert doc[e..][i - e] == doc[i];
    }
    if more == [] {
      assert whole[e..] == doc[e..] + text[0..];
    } else {
      RunFromSpace(whole, e, |doc|, more);
      RunShifts(doc, text, 0, more);
      assert whole[|doc| + d..] == text[d..];
    }
  }

  lemma LaysSpaces(ws: string)
    requires AllSpaces(ws)
    ensures Lays(ws, [])
  {
  }

  lemma LaysToken(t: string)
    requires IsToken(t)
    ensures Lays(t, [t])
  {
    assert SkipSpaces(t, 0) == 0;
    assert t[0..|t|] == t;
    assert Run(t, |t|, [t][1..]) == |t|;
  }

  // ----- Reading a layout

  /** The integer type a number comes back with. */
  function Norm(v: Value): Value {
    match v
    case Int(i) => if i <= MAX_INT32 then Int(i) else UInt(i)
    case UInt(u) => if u <= MAX_INT32 then Int(u) else UInt(u)
    case Arr(items) => Arr(NormItems(items, 0))
    case Obj(members) => Obj(NormMembers(members, 0))
    case _ => v
  }

  function NormItems(items: seq<Value>, k: nat): (r: seq<Value>)
    requires k <= |items|
    ensures |r| == |items| - k && forall i :: 0 <= i < |r| ==> r[i] == Norm(items[k + i])
    decreases items, |items| - k
  {
    if k == |items| then [] else [Norm(items[k])] + NormItems(items, k + 1)
  }

  function NormMembers(members: seq<Member>, k: nat): (r: seq<Member>)
    requires k <= |members|
    ensures |r| == |members| - k
    ensures forall i :: 0 <= i < |r| ==> r[i] == Member(members[k + i].name, Norm(members[k + i].value))
    decreases members, |members| - k
  {
    if k == |members| then []
    else [Member(members[k].name, Norm(members[k].value))] + NormMembers(members, k + 1)
  }

  /** What ends a number: the end of the text, a space or a separator. */
  ghost predicate Delimited(doc: string, e: nat) {
    e < |doc| ==> IsSpace(doc[e]) || doc[e] in {',', ']', '}', ':'}
  }

  ghost predicate Separator(t: string) {
    t in {",", "]", "}", ":", "[", "{"}
  }

  lemma DelimitedBySeparator(doc: string, e: nat, toks: seq<string>)
    requires e <= |doc| && toks != [] && toks[0] in {",", "]", "}", ":"} && Run(doc, e, toks) >= 0
    ensures Delimited(doc, e)
  {
    var q := SkipSpaces(doc, e);
    assert doc[q..q + 1][0] == doc[q];
  }

  /** A punctuation token is recognised wherever a layout has it. */
  lemma ReadsSeparator(f: Features, doc: string, p: nat, t: string, rest: seq<string>)
    requires p <= |doc| && Separator(t) && Run(doc, p, [t] + rest) >= 0
    ensures var q := SkipSpaces(doc, p);
            && q < |doc| && doc[q] == t[0] && Run(doc, p, [t] + rest) == Run(doc, q + 1, rest)
            && (var kind := match t[0] case ',' => ArraySeparator case ']' => ArrayEnd case '}' => ObjectEnd
                                  case ':' => MemberSeparator case '[' => ArrayBegin case _ => ObjectBegin;
                ReadToken(f, doc, p) == Token(kind, q, q + 1))
  {
    var q := SkipSpaces(doc, p);
    assert doc[q..q + 1][0] == doc[q];
    assert ([t] + rest)[1..] == rest;
  }

  lemma {:induction false} ScanDigitsTo(doc: string, p: nat, e: nat)
    requires p <= e <= |doc| && (forall i :: p <= i < e ==> IsDigit(doc[i])) && Delimited(doc, e)
    ensures ScanDigits(doc, p) == e
    decreases e - p
  {
    if p < e {
      ScanDigitsTo(doc, p + 1, e);
    }
  }

  lemma ReadsInteger(f: Features, doc: string, q: nat, i: int)
    requires Matches(doc, q, IntText(i)) && Delimited(doc, q + |IntText(i)|)
    ensures ReadToken(f, doc, q) == Token(NumberToken, q, q + |IntText(i)|)
  {
    hide Digits;
    var t := IntText(i);
    var e := q + |t|;
    IntTextStart(i);
    assert forall k :: q <= k < e ==> doc[k] == doc[q..e][k - q] == t[k - q];
    assert forall k :: q + 1 <= k < e ==> IsDigit(doc[k]);
    ScanDigitsTo(doc, q + 1, e);
    assert ScanNumber(doc, q + 1) == e;
  }

  // ----- String tokens end at their closing quote

  lemma CharAt(doc: string, p: nat, t: string, k: nat)
    requires Matches(doc, p, t) && k < |t|
    ensures p + k < |doc| && doc[p + k] == t[k]
  {
    assert doc[p..p + |t|][k] == doc[p + k];
  }

  lemma MatchesParts(doc: string, p: nat, a: string, b: string)
    requires Matches(doc, p, a + b)
    ensures Matches(doc, p, a) && Matches(doc, p + |a|, b)
  {
    var whole := doc[p..p + |a + b|];
    assert doc[p..p + |a|] == whole[..|a|];
    assert doc[p + |a|..p + |a| + |b|] == whole[|a|..];
  }

  /** An escape is scanned as a whole, and the scan goes on behind it. */
  lemma ScanOverEscape(doc: string, p: nat, s: string)
    requires s != "" && IsBytes(s) && Matches(doc, p, EscapeOne(s).0)
    ensures ScanString(doc, p, '\"') == ScanString(doc, p + |EscapeOne(s).0|, '\"')
  {
    hide EscapeCodePoint, ScanString;
    var t := EscapeOne(s).0;
    if s[0] in {'\"', '\\', '\U{8}', '\U{C}', '\n', '\r', '\t'} {
      CharAt(doc, p, t, 0);
      ScanOverPair(doc, p);
    } else {
      ScanOverCodePoint(doc, p, Utf8ToCodepoint(s).0);
    }
  }

  lemma ScanOverPair(doc: string, p: nat)
    requires p + 2 <= |doc| && doc[p] == '\\'
    ensures ScanString(doc, p, '\"') == ScanString(doc, p + 2, '\"')
  {
  }

  lemma ScanOverPlain(doc: string, p: nat)
    requires p < |doc| && doc[p] != '\"' && doc[p] != '\\'
    ensures ScanString(doc, p, '\"') == ScanString(doc, p + 1, '\"')
  {
  }

  lemma ScanOverCodePoint(doc: string, p: nat, cp: nat)
    requires cp != '\"' as int && cp != '\\' as int
    requires Matches(doc, p, EscapeCodePoint(cp))
    ensures ScanString(doc, p, '\"') == ScanString(doc, p + |EscapeCodePoint(cp)|, '\"')
  {
    hide ScanString, UnicodeForm, HighSurrogate, LowSurrogate;
    if 0x20 <= cp < 0x80 {
      CharAt(doc, p, [cp as char], 0);
      ScanOverPlain(doc, p);
    } else if cp < 0x10000 {
      ScanOverUnicodeForm(doc, p, cp);
    } else {
      var high, low := UnicodeForm(HighSurrogate(cp)), UnicodeForm(LowSurrogate(cp));
      MatchesParts(doc, p, high, low);
      ScanOverUnicodeForm(doc, p, HighSurrogate(cp));
      ScanOverUnicodeForm(doc, p + |high|, LowSurrogate(cp));
    }
  }

  lemma ScanOverUnicodeForm(doc: string, p: nat, x: nat)
    requires Matches(doc, p, UnicodeForm(x))
    ensures |UnicodeForm(x)| == 6 && ScanString(doc, p, '\"') == ScanString(doc, p + 6, '\"')
  {
    hide ScanString, ToHex16Bit;
    HexIsPlain(x);
    CharAt(doc, p, UnicodeForm(x), 0);
    CharAt(doc, p, UnicodeForm(x), 2);
    CharAt(doc, p, UnicodeForm(x), 3);
    CharAt(doc, p, UnicodeForm(x), 4);
    CharAt(doc, p, UnicodeForm(x), 5);
    ScanOverPair(doc, p);
    ScanOverPlain(doc, p + 2);
    ScanOverPlain(doc, p + 3);
    ScanOverPlain(doc, p + 4);
    ScanOverPlain(doc, p + 5);
  }

  lemma HexIsPlain(x: nat)
    ensures forall k :: 0 <= k < 4 ==> ToHex16Bit(x)[k] != '\"' && ToHex16Bit(x)[k] != '\\'
  {
    HexDigitInverse(x / 16 / 16 / 16 % 16);
    HexDigitInverse(x / 16 / 16 % 16);
    HexDigitInverse(x / 16 % 16);
    HexDigitInverse(x % 16);
  }

  /** The scanner's end of a quoted string is exactly the closing quote. */
  lemma {:induction false} ScanQuoted(doc: string, p: nat, s: string)
    requires IsBytes(s) && Matches(doc, p, Escape(s) + "\"")
    ensures ScanString(doc, p, '\"') == Scan(true, p + |Escape(s)| + 1)
    decreases |s|
  {
    hide EscapeOne, ScanString, Matches;
    if s == "" {
      ScanQuote(doc, p);
    } else {
      var (t, n) := EscapeOne(s);
      var rest := Escape(s[n..]);
      Associative(t, rest, "\"");
      MatchesParts(doc, p, t, rest + "\"");
      ScanOverEscape(doc, p, s);
      ScanQuoted(doc, p + |t|, s[n..]);
    }
  }

  lemma ScanQuote(doc: string, p: nat)
    requires Matches(doc, p, "" + "\"")
    ensures ScanString(doc, p, '\"') == Scan(true, p + 1)
  {
    CharAt(doc, p, "\"", 0);
  }

  lemma ReadsQuoted(f: Features, doc: string, q: nat, s: string)
    requires IsBytes(s) && Matches(doc, q, Quote(s))
    ensures ReadToken(f, doc, q) == Token(StringToken, q, q + |Quote(s)|)
    ensures doc[q + 1..q + |Quote(s)| - 1] == Escape(s)
  {
    hide Escape, ScanString;
    Associative("\"", Escape(s), "\"");
    MatchesParts(doc, q, "\"", Escape(s) + "\"");
    MatchesParts(doc, q + 1, Escape(s), "\"");
    CharAt(doc, q, "\"", 0);
    ScanQuoted(doc, q + 1, s);
    assert SkipSpaces(doc, q) == q;
  }
}
