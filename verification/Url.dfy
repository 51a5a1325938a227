/** Percent-encoding (section 2.1 of RFC 3986) and the query parameters of a URL. */
module Url {
  import opened Wrappers
  import opened HttpText

  // ----- Characters, given as unsigned bytes

  predicate IsAlphaNumeric(c: char) {
    '0' <= c <= '9' || 'A' <= c <= 'Z' || 'a' <= c <= 'z'
  }

  predicate IsUnreserved(c: char) {
    IsAlphaNumeric(c) || c == '-' || c == '.' || c == '_' || c == '~'
  }

  predicate SubDelimiter(c: char) {
    c in "!$&'()*+,;="
  }

  predicate IsPathChar(c: char) {
    IsUnreserved(c) || SubDelimiter(c) || c == '%' || c == '/' || c == ':' || c == '@'
  }

  predicate IsQueryChar(c: char) {
    IsPathChar(c) || c == '?'
  }

  /** What is encoded in a query. */
  predicate QueryEscapes(c: char) {
    !IsQueryChar(c) || c == '%' || c == '+'
  }

  predicate IsByte(c: char) {
    c as int < 256
  }

  predicate Bytes(s: string) {
    forall c <- s :: IsByte(c)
  }

  function HexDigit(d: nat): char
    requires d < 16
  {
    if d < 10 then ('0' as int + d) as char else ('A' as int + d - 10) as char
  }

  function HexToDecimal(hex: char): Option<nat> {
    if '0' <= hex <= '9' then Some(hex as int - '0' as int)
    else if 'A' <= hex <= 'F' then Some(10 + (hex as int - 'A' as int))
    else if 'a' <= hex <= 'f' then Some(10 + (hex as int - 'a' as int))
    else None
  }

  // ----- Encoding

  function EncodeChar(c: char): string
    requires IsByte(c)
  {
    if QueryEscapes(c) then ['%', HexDigit(c as int / 16 % 16), HexDigit(c as int % 16)] else [c]
  }

  function Encode(raw: string): string
    requires Bytes(raw)
  {
    if raw == "" then "" else EncodeChar(raw[0]) + Encode(raw[1..])
  }

  lemma {:induction false} EncodeAppend(raw: string, c: char)
    requires Bytes(raw) && IsByte(c)
    ensures Bytes(raw + [c]) && Encode(raw + [c]) == Encode(raw) + EncodeChar(c)
  {
    hide EncodeChar;
    if raw == "" {
      assert raw + [c] == [c] && [c][1..] == "";
      assert EncodeChar(c) + "" == EncodeChar(c) == "" + EncodeChar(c);
    } else {
      assert (raw + [c])[0] == raw[0] && (raw + [c])[1..] == raw[1..] + [c];
      EncodeAppend(raw[1..], c);
      assert EncodeChar(raw[0]) + (Encode(raw[1..]) + EncodeChar(c)) == Encode(raw) + EncodeChar(c);
    }
  }

  method EncodeQuery(raw: string) returns (encoded: string)
    requires Bytes(raw)
    ensures encoded == Encode(raw)
  {
    hide Encode, QueryEscapes;
    encoded := "";
    assert raw[..0] == "";
    EncodeNothing();
    for i := 0 to |raw|
      invariant encoded == Encode(raw[..i])
    {
      EncodeAppend(raw[..i], raw[i]);
      assert raw[..i + 1] == raw[..i] + [raw[i]];
      ghost var before := encoded;
      var ch := raw[i];
      if QueryEscapes(ch) {
        encoded := encoded + ['%'];
        encoded := encoded + [HexDigit(ch as int / 16 % 16)];
        encoded := encoded + [HexDigit(ch as int % 16)];
      } else {
        encoded := encoded + [ch];
      }
      assert encoded == before + EncodeChar(ch);
    }
    assert raw[..|raw|] == raw;
  }

  lemma EncodeNothing()
    ensures Encode("") == ""
  {
  }

  /**
   * What is written is legal in a query: no blanks, no bytes above 127, and no plus sign that could
   * stand for a blank.
   */
  lemma {:induction false} EncodedIsLegal(raw: string)
    requires Bytes(raw)
    ensures forall c <- Encode(raw) :: IsQueryChar(c) && c != '+' && c as int < 128
  {
    if raw != "" {
      EncodedIsLegal(raw[1..]);
      CharIsLegal(raw[0]);
    }
  }

  lemma CharIsLegal(c: char)
    requires IsByte(c)
    ensures forall d <- EncodeChar(c) :: IsQueryChar(d) && d != '+' && d as int < 128
  {
    if !QueryEscapes(c) {
      assert EncodeChar(c) == [c];
    }
  }

  // ----- Decoding

  /** `None` for a text that is not a valid encoding. */
  function Decode(encoded: string): Option<string>
    decreases |encoded|
  {
    if encoded == "" then Some("")
    else if encoded[0] == '%' then
      if |encoded| < 3 then None
      else match (HexToDecimal(encoded[1]), HexToDecimal(encoded[2]))
        case (Some(h), Some(l)) => Prepend((h * 16 + l) as char, Decode(encoded[3..]))
        case _ => None
    else if encoded[0] as int > 127 then None
    else Prepend(encoded[0], Decode(encoded[1..]))
  }

  function Prepend(c: char, rest: Option<string>): Option<string> {
    match rest
    case Some(s) => Some([c] + s)
    case None => None
  }

  method DecodeText(encoded: string) returns (ok: bool, raw: string)
    ensures if ok then Decode(encoded) == Some(raw) else Decode(encoded) == None
  {
    hide Decode;
    raw := "";
    var i := 0;
    assert encoded[0..] == encoded;
    PrependNothing(Decode(encoded));
    while i < |encoded|
      invariant 0 <= i <= |encoded|
      invariant Decode(encoded) == PrependAll(raw, Decode(encoded[i..]))
    {
      DecodeStep(encoded, i);
      if encoded[i] == '%' {
        i := i + 1;
        if i == |encoded| {
          return false, raw;
        }
        var h := HexToDecimal(encoded[i]);
        if h.None? {
          return false, raw;
        }
        i := i + 1;
        if i == |encoded| {
          return false, raw;
        }
        var l := HexToDecimal(encoded[i]);
        if l.None? {
          return false, raw;
        }
        raw := raw + [(h.value * 16 + l.value) as char];
      } else if encoded[i] as int > 127 {
        return false, raw;
      } else {
        raw := raw + [encoded[i]];
      }
      i := i + 1;
    }
    DecodeNothing();
    assert encoded[|encoded|..] == "" && raw + "" == raw;
    return true, raw;
  }

  lemma DecodeNothing()
    ensures Decode("") == Some("")
  {
  }

  function PrependAll(s: string, rest: Option<string>): Option<string> {
    match rest
    case Some(t) => Some(s + t)
    case None => None
  }

  lemma PrependNothing(r: Option<string>)
    ensures PrependAll("", r) == r
  {
    assert r.Some? ==> "" + r.value == r.value;
  }

  lemma PrependOneMore(s: string, c: char, r: Option<string>)
    ensures PrependAll(s, Prepend(c, r)) == PrependAll(s + [c], r)
  {
    assert r.Some? ==> s + ([c] + r.value) == s + [c] + r.value;
  }

  /** What is decoded from position `i` on, behind `s`. */
  function DecodedAfter(s: string, encoded: string, i: nat): Option<string>
    requires i < |encoded|
  {
    if encoded[i] == '%' then
      if i + 2 >= |encoded| || HexToDecimal(encoded[i + 1]).None? || HexToDecimal(encoded[i + 2]).None? then None
      else
        var c := (HexToDecimal(encoded[i + 1]).value * 16 + HexToDecimal(encoded[i + 2]).value) as char;
        PrependAll(s + [c], Decode(encoded[i + 3..]))
    else if encoded[i] as int > 127 then None
    else PrependAll(s + [encoded[i]], Decode(encoded[i + 1..]))
  }

  /** One turn of the decoding loop. */
  lemma DecodeStep(encoded: string, i: nat)
    requires i < |encoded|
    ensures forall s :: PrependAll(s, Decode(encoded[i..])) == DecodedAfter(s, encoded, i)
  {
    var rest := encoded[i..];
    assert rest[0] == encoded[i] && rest[1..] == encoded[i + 1..];
    if i + 2 < |encoded| {
      assert rest[1] == encoded[i + 1] && rest[2] == encoded[i + 2] && rest[3..] == encoded[i + 3..];
    }
    forall s, c, r ensures PrependAll(s, Prepend(c, r)) == PrependAll(s + [c], r) {
      PrependOneMore(s, c, r);
    }
  }

  // ----- The round trip

  lemma HexRoundTrip(d: nat)
    requires d < 16
    ensures HexToDecimal(HexDigit(d)) == Some(d)
  {
  }

  lemma DecodeChar(c: char, rest: string)
    requires IsByte(c)
    ensures Decode(EncodeChar(c) + rest) == Prepend(c, Decode(rest))
  {
    var text := EncodeChar(c) + rest;
    if QueryEscapes(c) {
      HexRoundTrip(c as int / 16 % 16);
      HexRoundTrip(c as int % 16);
      assert text[3..] == rest;
    } else {
      assert c as int < 128;
      assert text[0] == c && text[1..] == rest;
    }
  }

  /** Decoding undoes encoding, on every byte string. */
  lemma {:induction false} RoundTrip(raw: string)
    requires Bytes(raw)
    ensures Decode(Encode(raw)) == Some(raw)
  {
    hide EncodeChar;
    if raw != "" {
      DecodeChar(raw[0], Encode(raw[1..]));
      RoundTrip(raw[1..]);
      assert [raw[0]] + raw[1..] == raw;
    }
  }

  // ----- Query parameters

  datatype Parameter = Parameter(key: string, value: string)

  function FindKey(ps: seq<Parameter>, key: string): (i: nat)
    ensures i <= |ps| && (i < |ps| ==> ps[i].key == key)
    ensures forall k :: 0 <= k < i ==> ps[k].key != key
  {
    if ps == [] || ps[0].key == key then 0 else 1 + FindKey(ps[1..], key)
  }

  /** A key that is already there keeps its value. */
  function Add(ps: seq<Parameter>, p: Parameter): seq<Parameter> {
    if FindKey(ps, p.key) == |ps| then ps + [p] else ps
  }

  function SplitKeyValue(kv: string): Option<Parameter> {
    match FindChar(kv, '=')
    case None => None
    case Some(i) => if i == 0 then None else Some(Parameter(kv[..i], kv[i + 1..]))
  }

  function AddText(ps: seq<Parameter>, kv: string): seq<Parameter> {
    match SplitKeyValue(kv)
    case Some(p) => Add(ps, p)
    case None => ps
  }

  function AddTexts(ps: seq<Parameter>, kvs: seq<string>): seq<Parameter>
    decreases |kvs|
  {
    if kvs == [] then ps else AddTexts(AddText(ps, kvs[0]), kvs[1..])
  }

  function Query(str: string): seq<Parameter> {
    if str == "" then [] else AddTexts([], Split(str, '&'))
  }

  lemma NextPair(ps: seq<Parameter>, rest: string)
    ensures var j := FindChar(rest, '&');
            AddTexts(ps, Split(rest, '&'))
            == if j.None? then AddText(ps, rest)
                else AddTexts(AddText(ps, rest[..j.value]), Split(rest[j.value + 1..], '&'))
  {
    hide AddText, FindChar;
    var pieces := Split(rest, '&');
    if FindChar(rest, '&').None? {
      assert pieces[1..] == [];
    } else {
      assert pieces[1..] == Split(rest[FindChar(rest, '&').value + 1..], '&');
    }
  }

  function PairText(p: Parameter): string {
    p.key + "=" + p.value
  }

  function PairsText(ps: seq<Parameter>): string {
    if ps == [] then ""
    else if |ps| == 1 then PairText(ps[0])
    else PairText(ps[0]) + "&" + PairsText(ps[1..])
  }

  class UrlQuery {
    var parameters: seq<Parameter>

    constructor ()
      ensures parameters == []
    {
      parameters := [];
    }

    /** The constructor that reads key-value pairs. */
    constructor Parse(str: string)
      ensures parameters == Query(str)
    {
      parameters := [];
      new;
      hide AddText, AddTexts, Split, FindChar;
      if str != "" {
        var i := Some(0);
        assert str[0..] == str;
        while i.Some?
          invariant i.Some? ==> i.value <= |str| && AddTexts(parameters, Split(str[i.value..], '&')) == Query(str)
          invariant i.None? ==> parameters == Query(str)
          decreases if i.Some? then |str| - i.value + 1 else 0
        {
          var rest := str[i.value..];
          NextPair(parameters, rest);
          var j := FindChar(rest, '&');
          var kv;
          if j.None? {
            kv := rest;
            i := None;
          } else {
            kv := rest[..j.value];
            assert rest[j.value + 1..] == str[i.value + j.value + 1..];
            i := Some(i.value + j.value + 1);
          }
          AddKeyValue(kv);
        }
      }
    }

    method AddKeyValue(kv: string)
      modifies this
      ensures parameters == AddText(old(parameters), kv)
    {
      var p := SplitKeyValue(kv);
      if p.Some? {
        AddPair(p.value);
      }
    }

    method AddPair(p: Parameter)
      modifies this
      ensures parameters == Add(old(parameters), p)
    {
      var found := Find(p.key);
      if found == |parameters| {
        parameters := parameters + [p];
      }
    }

    method Find(key: string) returns (i: nat)
      ensures i == FindKey(parameters, key)
    {
      i := 0;
      while i < |parameters| && parameters[i].key != key
        invariant i <= |parameters| && forall k :: 0 <= k < i ==> parameters[k].key != key
      {
        i := i + 1;
      }
    }

    method ToString() returns (str: string)
      requires Bytes(PairsText(parameters))
      ensures str == Encode(PairsText(parameters))
    {
      if parameters == [] {
        EncodeNothing();
        return "";
      }
      str := PairText(parameters[0]);
      PairsAreFirstAndMore(parameters);
      for i := 1 to |parameters|
        invariant str + MoreText(parameters[i..]) == PairsText(parameters)
      {
        ghost var before := str;
        str := str + "&";
        str := str + PairText(parameters[i]);
        assert parameters[i..][1..] == parameters[i + 1..];
        ghost var more := MoreText(parameters[i + 1..]);
        assert before + ("&" + PairText(parameters[i]) + more) == str + more;
      }
      assert str + "" == str;
      str := EncodeQuery(str);
    }
  }

  /** The pairs after the first. */
  function MoreText(ps: seq<Parameter>): string {
    if ps == [] then "" else "&" + PairText(ps[0]) + MoreText(ps[1..])
  }

  lemma {:induction false} PairsAreFirstAndMore(ps: seq<Parameter>)
    requires ps != []
    ensures PairsText(ps) == PairText(ps[0]) + MoreText(ps[1..])
  {
    hide PairText;
    if |ps| == 1 {
      assert PairText(ps[0]) + "" == PairText(ps[0]);
    } else {
      PairsAreFirstAndMore(ps[1..]);
      assert PairText(ps[0]) + ("&" + PairText(ps[1]) + MoreText(ps[2..]))
          == PairText(ps[0]) + "&" + (PairText(ps[1]) + MoreText(ps[2..]));
      assert ps[1..][1..] == ps[2..];
    }
  }

  // ----- Rebuilding a query

  predicate CleanParameter(p: Parameter) {
    p.key != "" && '=' !in p.key && '&' !in p.key && '&' !in p.value
  }

  ghost predicate Clean(ps: seq<Parameter>) {
    && (forall p <- ps :: CleanParameter(p))
    && (forall i, j :: 0 <= i < j < |ps| ==> ps[i].key != ps[j].key)
  }

  /** Whatever the text, the parameters read from it are clean. */
  lemma {:induction false} AddTextsClean(ps: seq<Parameter>, kvs: seq<string>)
    requires Clean(ps) && forall kv <- kvs :: '&' !in kv
    ensures Clean(AddTexts(ps, kvs))
    decreases |kvs|
  {
    hide Clean;
    if kvs != [] {
      AddTextClean(ps, kvs[0]);
      AddTextsClean(AddText(ps, kvs[0]), kvs[1..]);
    }
  }

  lemma AddTextClean(ps: seq<Parameter>, kv: string)
    requires Clean(ps) && '&' !in kv
    ensures Clean(AddText(ps, kv))
  {
    var p := SplitKeyValue(kv);
    if p.Some? {
      assert CleanParameter(p.value);
    }
  }

  lemma {:induction false} PiecesHaveNoToken(s: string, token: char)
    ensures forall piece <- Split(s, token) :: token !in piece
    decreases |s|
  {
    var p := FindChar(s, token);
    if p.Some? {
      PiecesHaveNoToken(s[p.value + 1..], token);
    }
  }

  lemma {:induction false} SplitPairs(ps: seq<Parameter>)
    requires ps != [] && forall p <- ps :: CleanParameter(p)
    ensures Split(PairsText(ps), '&') == PairTexts(ps)
    decreases |ps|
  {
    assert CleanParameter(ps[0]);
    var first := PairText(ps[0]);
    assert '&' !in first;
    if |ps| == 1 {
      assert PairTexts(ps[1..]) == [];
    } else {
      var rest := PairsText(ps[1..]);
      SplitPairs(ps[1..]);
      FindCharAfter(first, '&', rest);
      var text := first + ['&'] + rest;
      assert text == PairsText(ps) && text[..|first|] == first && text[|first| + 1..] == rest;
    }
  }

  function PairTexts(ps: seq<Parameter>): seq<string> {
    if ps == [] then [] else [PairText(ps[0])] + PairTexts(ps[1..])
  }

  lemma PairSplits(p: Parameter)
    requires CleanParameter(p)
    ensures SplitKeyValue(PairText(p)) == Some(p)
  {
    hide FindChar;
    FindCharAfter(p.key, '=', p.value);
    var text := p.key + ['='] + p.value;
    assert text == PairText(p) && text[..|p.key|] == p.key && text[|p.key| + 1..] == p.value;
  }

  lemma {:induction false} AddPairs(done: seq<Parameter>, ps: seq<Parameter>)
    requires Clean(done + ps)
    ensures AddTexts(done, PairTexts(ps)) == done + ps
    decreases |ps|
  {
    hide PairText, SplitKeyValue;
    if ps == [] {
      assert done + ps == done;
    } else {
      var p := ps[0];
      assert (done + ps)[|done|] == p;
      assert forall k :: 0 <= k < |done| ==> (done + ps)[k] == done[k] && done[k].key != p.key;
      assert CleanParameter(p);
      PairSplits(p);
      assert done + [p] + ps[1..] == done + ps;
      AddPairs(done + [p], ps[1..]);
    }
  }

  /** A query rebuilt from its decoded text is the same exactly if its parameters are clean. */
  lemma QueryRoundTrip(ps: seq<Parameter>)
    requires Bytes(PairsText(ps))
    ensures var text := Decode(Encode(PairsText(ps)));
            text.Some? && (Query(text.value) == ps <==> Clean(ps))
  {
    hide Encode, Decode, Split, AddTexts, PairText;
    var text := PairsText(ps);
    RoundTrip(text);
    if Clean(ps) && ps != [] {
      SplitPairs(ps);
      AddPairs([], ps);
      assert [] + ps == ps;
      PairsAreSomething(ps);
    }
    PiecesHaveNoToken(text, '&');
    AddTextsClean([], Split(text, '&'));
  }

  lemma PairsAreSomething(ps: seq<Parameter>)
    requires ps != []
    ensures PairsText(ps) != ""
  {
  }
}
