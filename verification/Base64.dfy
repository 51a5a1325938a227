/** Base64 (section 4 of RFC 4648), and the two implementations of it. */
module Base64 {
  type Byte = bv8
  type Sextet = v: bv8 | v < 64

  /** The alphabet: A to Z, a to z, 0 to 9, plus and slash. */
  function Letter(v: Sextet): char {
    LetterAt(v as int)
  }

  function LetterAt(n: int): char
    requires 0 <= n < 64
  {
    if n < 26 then ('A' as int + n) as char
    else if n < 52 then ('a' as int + (n - 26)) as char
    else if n < 62 then ('0' as int + (n - 52)) as char
    else if n == 62 then '+' else '/'
  }

  predicate IsBase64(c: char) {
    'a' <= c <= 'z' || 'A' <= c <= 'Z' || '0' <= c <= '9' || c == '+' || c == '/'
  }

  /** The inverse table; -1 for any character that is not a letter of the alphabet. */
  function Inverse(c: char): (v: int)
    ensures -1 <= v < 64
    ensures v >= 0 <==> IsBase64(c)
  {
    if 'A' <= c <= 'Z' then c as int - 'A' as int
    else if 'a' <= c <= 'z' then c as int - 'a' as int + 26
    else if '0' <= c <= '9' then c as int - '0' as int + 52
    else if c == '+' then 62
    else if c == '/' then 63
    else -1
  }

  function SextetOf(c: char): (v: Sextet)
    requires IsBase64(c)
  {
    Inverse(c) as bv8
  }

  lemma SextetOfLetter(v: Sextet)
    ensures IsBase64(Letter(v)) && SextetOf(Letter(v)) == v && Letter(v) != '='
  {
    assert Inverse(Letter(v)) == v as int;
  }

  lemma LetterOfInverse(c: char)
    requires IsBase64(c)
    ensures LetterAt(Inverse(c)) == c
  {
  }

  lemma LetterOfSextet(c: char)
    requires IsBase64(c)
    ensures Letter(SextetOf(c)) == c
  {
    hide LetterAt, Inverse;
    LetterOfInverse(c);
    FitsByte(Inverse(c));
  }

  lemma FitsByte(v: int)
    requires 0 <= v < 64
    ensures v as Byte as int == v
  {
  }

  // ----- Groups of three bytes

  function Sextet0(a: Byte): Sextet {
    (a & 0xfc) >> 2
  }

  function Sextet1(a: Byte, b: Byte): Sextet {
    ((a & 0x03) << 4) + ((b & 0xf0) >> 4)
  }

  function Sextet2(b: Byte, c: Byte): Sextet {
    ((b & 0x0f) << 2) + ((c & 0xc0) >> 6)
  }

  function Sextet3(c: Byte): Sextet {
    c & 0x3f
  }

  function Byte0(p: Sextet, q: Sextet): Byte {
    (p << 2) + ((q & 0x30) >> 4)
  }

  function Byte1(q: Sextet, r: Sextet): Byte {
    ((q & 0xf) << 4) + ((r & 0x3c) >> 2)
  }

  function Byte2(r: Sextet, s: Sextet): Byte {
    ((r & 0x3) << 6) + s
  }

  /** Three bytes are 24 bits, and so are four sextets: each determines the other. */
  lemma GroupRoundTrip(a: Byte, b: Byte, c: Byte)
    ensures Byte0(Sextet0(a), Sextet1(a, b)) == a
    ensures Byte1(Sextet1(a, b), Sextet2(b, c)) == b
    ensures Byte2(Sextet2(b, c), Sextet3(c)) == c
  {
  }

  /** The four sextets are the 24 bits of the three bytes, the first byte's highest bit first. */
  lemma SameBits(a: Byte, b: Byte, c: Byte)
    ensures ((a as bv24) << 16) + ((b as bv24) << 8) + (c as bv24)
         == ((Sextet0(a) as bv24) << 18) + ((Sextet1(a, b) as bv24) << 12) + ((Sextet2(b, c) as bv24) << 6)
             + (Sextet3(c) as bv24)
  {
  }

  lemma SextetsRoundTrip(p: Sextet, q: Sextet, r: Sextet, s: Sextet)
    ensures var a, b, c := Byte0(p, q), Byte1(q, r), Byte2(r, s);
            Sextet0(a) == p && Sextet1(a, b) == q && Sextet2(b, c) == r && Sextet3(c) == s
  {
  }

  function Sextets(data: seq<Byte>): seq<Sextet>
    decreases |data|
  {
    if |data| == 0 then []
    else if |data| == 1 then [Sextet0(data[0]), Sextet1(data[0], 0)]
    else if |data| == 2 then [Sextet0(data[0]), Sextet1(data[0], data[1]), Sextet2(data[1], 0)]
    else [Sextet0(data[0]), Sextet1(data[0], data[1]), Sextet2(data[1], data[2]), Sextet3(data[2])] + Sextets(data[3..])
  }

  /** The bytes of a run of sextets; one left over carries nothing. */
  function Bytes(s: seq<Sextet>): seq<Byte>
    decreases |s|
  {
    if |s| < 2 then []
    else if |s| == 2 then [Byte0(s[0], s[1])]
    else if |s| == 3 then [Byte0(s[0], s[1]), Byte1(s[1], s[2])]
    else [Byte0(s[0], s[1]), Byte1(s[1], s[2]), Byte2(s[2], s[3])] + Bytes(s[4..])
  }

  lemma {:induction false} BytesOfSextets(data: seq<Byte>)
    ensures Bytes(Sextets(data)) == data
    decreases |data|
  {
    hide Sextet0, Sextet1, Sextet2, Sextet3, Byte0, Byte1, Byte2;
    if |data| == 1 {
      GroupRoundTrip(data[0], 0, 0);
    } else if |data| == 2 {
      GroupRoundTrip(data[0], data[1], 0);
    } else if |data| > 2 {
      GroupRoundTrip(data[0], data[1], data[2]);
      BytesOfSextets(data[3..]);
      assert Sextets(data)[4..] == Sextets(data[3..]);
      assert data == data[..3] + data[3..];
    }
  }

  // ----- Texts

  function Letters(s: seq<Sextet>): string {
    if s == [] then "" else [Letter(s[0])] + Letters(s[1..])
  }

  /** As many equals signs as make the length a multiple of four. */
  function Padding(n: nat): string {
    if n % 4 == 2 then "==" else if n % 4 == 3 then "=" else ""
  }

  function Encode(data: seq<Byte>): string {
    Letters(Sextets(data)) + Padding(|Sextets(data)|)
  }

  /** The sextets of the letters up to the first character that is none. */
  function Scan(text: string): seq<Sextet> {
    if text == "" || !IsBase64(text[0]) then [] else [SextetOf(text[0])] + Scan(text[1..])
  }

  function Decode(text: string): seq<Byte> {
    Bytes(Scan(text))
  }

  lemma {:induction false} ScanLetters(s: seq<Sextet>, rest: string)
    requires rest != "" ==> rest[0] == '='
    ensures Scan(Letters(s) + rest) == s
  {
    hide Letter, SextetOf;
    if s == [] {
      assert Letters(s) + rest == rest;
    } else {
      var text := Letters(s) + rest;
      SextetOfLetter(s[0]);
      assert text[0] == Letter(s[0]) && text[1..] == Letters(s[1..]) + rest;
      ScanLetters(s[1..], rest);
    }
  }

  /** Decoding undoes encoding. */
  lemma RoundTrip(data: seq<Byte>)
    ensures Decode(Encode(data)) == data
  {
    BytesOfSextets(data);
    ScanLetters(Sextets(data), Padding(|Sextets(data)|));
  }

  lemma {:induction false} SextetCount(data: seq<Byte>)
    ensures |Sextets(data)| == |data| / 3 * 4 + (if |data| % 3 == 0 then 0 else |data| % 3 + 1)
    decreases |data|
  {
    hide Sextet0, Sextet1, Sextet2, Sextet3;
    if |data| > 2 {
      SextetCount(data[3..]);
    }
  }

  lemma {:induction false} LetterCount(s: seq<Sextet>)
    ensures |Letters(s)| == |s|
  {
    if s != [] {
      LetterCount(s[1..]);
    }
  }

  function EncodedSize(n: nat): nat {
    4 * ((n + 2) / 3)
  }

  function DecodedSize(n: nat): nat {
    n / 4 * 3
  }

  /** The encoding fills the buffer set aside for it. */
  lemma EncodedLength(data: seq<Byte>)
    ensures |Encode(data)| == EncodedSize(|data|)
  {
    hide Letters, Sextets;
    SextetCount(data);
    LetterCount(Sextets(data));
  }

  lemma {:induction false} ByteCount(s: seq<Sextet>)
    ensures |Bytes(s)| == |s| / 4 * 3 + (if |s| % 4 == 0 then 0 else |s| % 4 - 1)
    decreases |s|
  {
    hide Byte0, Byte1, Byte2;
    if |s| > 3 {
      ByteCount(s[4..]);
    }
  }

  lemma {:induction false} ScanCount(text: string)
    ensures |Scan(text)| <= |text|
  {
    if text != "" && IsBase64(text[0]) {
      ScanCount(text[1..]);
    }
  }

  /**
   * A text decodes into the buffer set aside for it, unless its letters fill all whole groups and two or
   * more are left.
   */
  lemma DecodedFits(text: string)
    ensures |Decode(text)| <= DecodedSize(|text|) <==> HasRoom(text)
    ensures |text| % 4 == 0 ==> HasRoom(text)
  {
    ScanCount(text);
    ByteCount(Scan(text));
  }

  lemma {:induction false} SextetsOfBytes(s: seq<Sextet>)
    requires |s| % 4 == 0
    ensures Sextets(Bytes(s)) == s
    decreases |s|
  {
    hide Sextet0, Sextet1, Sextet2, Sextet3, Byte0, Byte1, Byte2;
    if s != [] {
      SextetsRoundTrip(s[0], s[1], s[2], s[3]);
      SextetsOfBytes(s[4..]);
      assert Bytes(s)[3..] == Bytes(s[4..]);
      assert s == s[..4] + s[4..];
    }
  }

  lemma {:induction false} LettersOfScan(text: string)
    requires forall c <- text :: IsBase64(c)
    ensures Letters(Scan(text)) == text && |Scan(text)| == |text|
  {
    hide Letter, SextetOf;
    if text != "" {
      LetterOfSextet(text[0]);
      LettersOfScan(text[1..]);
    }
  }

  /** Whole groups of letters are the encoding of what they decode to. */
  lemma WholeGroups(text: string)
    requires |text| % 4 == 0 && forall c <- text :: IsBase64(c)
    ensures Encode(Decode(text)) == text
  {
    LettersOfScan(text);
    SextetsOfBytes(Scan(text));
  }

  // ----- Steps of the loops

  function Group(a: Byte, b: Byte, c: Byte): string {
    [Letter(Sextet0(a)), Letter(Sextet1(a, b)), Letter(Sextet2(b, c)), Letter(Sextet3(c))]
  }

  lemma EncodeGroup(data: seq<Byte>)
    requires |data| >= 3
    ensures Encode(data) == Group(data[0], data[1], data[2]) + Encode(data[3..])
  {
    hide Sextet0, Sextet1, Sextet2, Sextet3, Letter;
    var first := [Sextet0(data[0]), Sextet1(data[0], data[1]), Sextet2(data[1], data[2]), Sextet3(data[2])];
    var rest := Sextets(data[3..]);
    assert Sextets(data) == first + rest;
    FourLetters(first, rest);
  }

  lemma FourLetters(first: seq<Sextet>, rest: seq<Sextet>)
    requires |first| == 4
    ensures Letters(first + rest)
            == [Letter(first[0]), Letter(first[1]), Letter(first[2]), Letter(first[3])] + Letters(rest)
  {
    hide Letter;
    var all := first + rest;
    assert all[1..][1..][1..][1..] == rest;
    assert all[1..][0] == first[1] && all[1..][1..][0] == first[2] && all[1..][1..][1..][0] == first[3];
    assert Letters(all[1..][1..]) == [Letter(first[2])] + ([Letter(first[3])] + Letters(rest));
  }

  lemma EncodeTail(data: seq<Byte>)
    requires |data| < 3
    ensures data == [] ==> Encode(data) == ""
    ensures |data| == 1 ==> Encode(data) == [Letter(Sextet0(data[0])), Letter(Sextet1(data[0], 0)), '=', '=']
    ensures |data| == 2 ==>
              Encode(data)
              == [Letter(Sextet0(data[0])), Letter(Sextet1(data[0], data[1])), Letter(Sextet2(data[1], 0)), '=']
  {
    hide Sextet0, Sextet1, Sextet2, Sextet3, Letter;
    if |data| == 1 {
      FewLetters(Sextet0(data[0]), Sextet1(data[0], 0), 0);
    } else if |data| == 2 {
      FewLetters(Sextet0(data[0]), Sextet1(data[0], data[1]), Sextet2(data[1], 0));
    }
  }

  lemma FewLetters(p: Sextet, q: Sextet, r: Sextet)
    ensures Letters([p, q]) == [Letter(p), Letter(q)] && Letters([p, q, r]) == [Letter(p), Letter(q), Letter(r)]
  {
    hide Letter;
    assert [p, q][1..] == [q] && [q][1..] == [] && Letters([q]) == [Letter(q)];
    assert [p, q, r][1..] == [q, r] && [q, r][1..] == [r] && Letters([r]) == [Letter(r)];
  }

  lemma BytesGroup(s: seq<Sextet>)
    requires |s| >= 4
    ensures Bytes(s) == [Byte0(s[0], s[1]), Byte1(s[1], s[2]), Byte2(s[2], s[3])] + Bytes(s[4..])
  {
  }

  // ----- The standalone implementation

  method EncodeString(bytesToEncode: seq<Byte>) returns (ret: string)
    ensures ret == Encode(bytesToEncode)
  {
    hide Encode, Sextet0, Sextet1, Sextet2, Sextet3, Letter;
    ret := "";
    var i := 0;
    var three := new Byte[3];
    var four := new Sextet[4];
    var next := 0;
    assert three[..0] + bytesToEncode[0..] == bytesToEncode;
    while next < |bytesToEncode|
      invariant 0 <= i < 3 && next <= |bytesToEncode|
      invariant ret + Encode(three[..i] + bytesToEncode[next..]) == Encode(bytesToEncode)
    {
      ghost var all := three[..i] + bytesToEncode[next..];
      three[i] := bytesToEncode[next];
      i, next := i + 1, next + 1;
      assert three[..i] + bytesToEncode[next..] == all;
      if i == 3 {
        ghost var rest := bytesToEncode[next..];
        EncodeGroup(all);
        assert all[3..] == rest && all[0] == three[0] && all[1] == three[1] && all[2] == three[2];
        ghost var before := ret;
        ret := EncodeThree(ret, three, four);
        i := 0;
        assert three[..0] + rest == rest;
        assert before + (Group(three[0], three[1], three[2]) + Encode(rest)) == ret + Encode(rest);
      }
    }
    assert three[..i] + bytesToEncode[next..] == three[..i];
    EncodeTail(three[..i]);
    if i != 0 {
      ret := EncodeRest(ret, three, i);
    }
  }

  method EncodeThree(ret: string, three: array<Byte>, four: array<Sextet>) returns (result: string)
    requires three.Length == 3 && four.Length == 4
    modifies four
    ensures result == ret + Group(three[0], three[1], three[2])
  {
    hide Sextet0, Sextet1, Sextet2, Sextet3, Letter;
    four[0] := Sextet0(three[0]);
    four[1] := Sextet1(three[0], three[1]);
    four[2] := Sextet2(three[1], three[2]);
    four[3] := Sextet3(three[2]);
    result := AppendLetters(ret, four, 4);
  }

  /** The last one or two bytes, filled up with zeros, and the padding. */
  method EncodeRest(ret: string, three: array<Byte>, i: nat) returns (result: string)
    requires 0 < i < 3 && three.Length == 3
    modifies three
    ensures result == ret + Encode(old(three[..i]))
  {
    hide Encode, Sextet0, Sextet1, Sextet2, Sextet3, Letter;
    EncodeTail(three[..i]);
    for j := i to 3
      invariant three[..i] == old(three[..i]) && forall k :: i <= k < j ==> three[k] == 0
    {
      three[j] := 0;
    }
    var four := new Sextet[4];
    four[0] := Sextet0(three[0]);
    four[1] := Sextet1(three[0], three[1]);
    four[2] := Sextet2(three[1], three[2]);
    result := AppendLetters(ret, four, i + 1);
    ghost var lettered := result;
    var n := i;
    while n < 3
      invariant i <= n <= 3
      invariant result == lettered + (if n == i then "" else if n == i + 1 then "=" else "==")
    {
      result := result + "=";
      n := n + 1;
    }
    ghost var data := old(three[..i]);
    assert three[0] == data[0] && (i == 2 ==> three[1] == data[1]);
  }

  method AppendLetters(ret: string, four: array<Sextet>, count: nat) returns (result: string)
    requires count <= four.Length <= 4
    ensures count == 4 ==> result == ret + [Letter(four[0]), Letter(four[1]), Letter(four[2]), Letter(four[3])]
    ensures count == 3 ==> result == ret + [Letter(four[0]), Letter(four[1]), Letter(four[2])]
    ensures count == 2 ==> result == ret + [Letter(four[0]), Letter(four[1])]
  {
    hide Letter;
    result := ret;
    for i := 0 to count
      invariant |result| == |ret| + i && result[..|ret|] == ret
      invariant forall k :: 0 <= k < i ==> result[|ret| + k] == Letter(four[k])
    {
      result := result + [Letter(four[i])];
    }
    assert result == result[..|ret|] + result[|ret|..];
  }

  lemma {:induction false} ScanPrefix(letters: string, rest: string)
    requires forall c <- letters :: IsBase64(c)
    ensures Scan(letters + rest) == Scan(letters) + Scan(rest) && |Scan(letters)| == |letters|
    ensures forall i :: 0 <= i < |letters| ==> Scan(letters)[i] == SextetOf(letters[i])
  {
    hide SextetOf, IsBase64;
    if letters == "" {
      assert letters + rest == rest;
    } else {
      assert (letters + rest)[0] == letters[0] && (letters + rest)[1..] == letters[1..] + rest;
      ScanPrefix(letters[1..], rest);
    }
  }

  lemma ScanStops(text: string, k: nat)
    requires k <= |text| && (k < |text| ==> !IsBase64(text[k]))
    ensures Scan(text[k..]) == []
  {
  }

  lemma ScanGoesOn(text: string, k: nat)
    requires k < |text| && IsBase64(text[k])
    ensures Scan(text[k..]) == [SextetOf(text[k])] + Scan(text[k + 1..])
  {
    assert text[k..][1..] == text[k + 1..];
  }

  function GroupBytes(p: Sextet, q: Sextet, r: Sextet, s: Sextet): seq<Byte> {
    [Byte0(p, q), Byte1(q, r), Byte2(r, s)]
  }

  lemma FourDecoded(letters: string, rest: string)
    requires |letters| == 4 && forall c <- letters :: IsBase64(c)
    ensures Decode(letters + rest)
         == GroupBytes(SextetOf(letters[0]), SextetOf(letters[1]), SextetOf(letters[2]), SextetOf(letters[3]))
             + Decode(rest)
  {
    hide Scan, Byte0, Byte1, Byte2, SextetOf, IsBase64, Bytes;
    ScanPrefix(letters, rest);
    BytesGroup(Scan(letters) + Scan(rest));
    assert (Scan(letters) + Scan(rest))[4..] == Scan(rest);
  }

  lemma LastDecoded(letters: string, text: string, next: nat)
    requires |letters| < 4 && forall c <- letters :: IsBase64(c)
    requires next <= |text| && (next < |text| ==> text[next] == '=' || !IsBase64(text[next]))
    ensures |letters| < 2 ==> Decode(letters + text[next..]) == []
    ensures |letters| == 2 ==> Decode(letters + text[next..]) == [Byte0(SextetOf(letters[0]), SextetOf(letters[1]))]
    ensures |letters| == 3 ==>
              Decode(letters + text[next..])
              == [Byte0(SextetOf(letters[0]), SextetOf(letters[1])), Byte1(SextetOf(letters[1]), SextetOf(letters[2]))]
  {
    hide Scan, Byte0, Byte1, Byte2, SextetOf, IsBase64, Bytes;
    EqualsIsNoLetter();
    ScanStops(text, next);
    ScanPrefix(letters, text[next..]);
    assert Scan(letters) + [] == Scan(letters);
    FewSextets(Scan(letters));
  }

  method DecodeString(encoded: string) returns (ret: seq<Byte>)
    ensures ret == Decode(encoded)
  {
    hide Decode, Byte0, Byte1, Byte2, SextetOf, IsBase64;
    ret := [];
    var i := 0;
    var letters := new char[4];
    var next := 0;
    assert letters[..0] + encoded[0..] == encoded;
    while next < |encoded| && encoded[next] != '=' && IsBase64(encoded[next])
      invariant 0 <= i < 4 && next <= |encoded|
      invariant forall k :: 0 <= k < i ==> IsBase64(letters[k])
      invariant ret + Decode(letters[..i] + encoded[next..]) == Decode(encoded)
    {
      ghost var all := letters[..i] + encoded[next..];
      letters[i] := encoded[next];
      i, next := i + 1, next + 1;
      assert letters[..i] + encoded[next..] == all;
      if i == 4 {
        ret := AppendGroup(ret, letters, encoded[next..]);
        i := 0;
        assert letters[..0] + encoded[next..] == encoded[next..];
      }
    }
    var rest := DecodeRest(letters, i, encoded, next);
    ret := ret + rest;
  }

  /** What is left of a group at the end. */
  method DecodeRest(letters: array<char>, count: nat, ghost encoded: string, ghost next: nat) returns (rest: seq<Byte>)
    requires letters.Length == 4 && count < 4 && forall k :: 0 <= k < count ==> IsBase64(letters[k])
    requires next <= |encoded| && (next < |encoded| ==> encoded[next] == '=' || !IsBase64(encoded[next]))
    ensures rest == Decode(letters[..count] + encoded[next..])
  {
    hide Decode, Byte0, Byte1, Byte2, SextetOf, IsBase64;
    LastDecoded(letters[..count], encoded, next);
    rest := [];
    if count != 0 {
      rest := DecodeGroup(letters, count);
    }
  }

  /** Four letters are used up. */
  method AppendGroup(ret: seq<Byte>, letters: array<char>, ghost rest: string) returns (result: seq<Byte>)
    requires letters.Length == 4 && forall k :: 0 <= k < 4 ==> IsBase64(letters[k])
    ensures result + Decode(rest) == ret + Decode(letters[..] + rest) && letters[..4] == letters[..]
  {
    hide Decode, Byte0, Byte1, Byte2, SextetOf, IsBase64;
    FourDecoded(letters[..], rest);
    var group := DecodeGroup(letters, 4);
    result := ret + group;
    assert ret + (group + Decode(rest)) == result + Decode(rest);
  }

  lemma EqualsIsNoLetter()
    ensures !IsBase64('=')
  {
  }

  lemma FewSextets(s: seq<Sextet>)
    requires |s| < 4
    ensures |s| < 2 ==> Bytes(s) == []
    ensures |s| == 2 ==> Bytes(s) == [Byte0(s[0], s[1])]
    ensures |s| == 3 ==> Bytes(s) == [Byte0(s[0], s[1]), Byte1(s[1], s[2])]
  {
    hide Byte0, Byte1;
  }

  /** The bytes of up to four letters. */
  method DecodeGroup(letters: array<char>, count: nat) returns (ret: seq<Byte>)
    requires letters.Length == 4 && 0 < count <= 4 && forall k :: 0 <= k < count ==> IsBase64(letters[k])
    ensures count == 1 ==> ret == []
    ensures count == 2 ==> ret == [Byte0(SextetOf(letters[0]), SextetOf(letters[1]))]
    ensures count == 3 ==>
              ret == [Byte0(SextetOf(letters[0]), SextetOf(letters[1])),
                        Byte1(SextetOf(letters[1]), SextetOf(letters[2]))]
    ensures count == 4 ==>
              ret == GroupBytes(SextetOf(letters[0]), SextetOf(letters[1]), SextetOf(letters[2]),
                                  SextetOf(letters[3]))
  {
    hide Byte0, Byte1, Byte2, SextetOf, IsBase64;
    var four := new Sextet[4];
    for j := 0 to count
      invariant forall k :: 0 <= k < j ==> four[k] == SextetOf(letters[k])
    {
      four[j] := SextetOf(letters[j]);
    }
    var three := new Byte[3];
    three[0] := Byte0(four[0], four[1]);
    three[1] := Byte1(four[1], four[2]);
    three[2] := Byte2(four[2], four[3]);
    ret := three[..count - 1];
  }

  // ----- The implementation that writes to a buffer

  method EncodeTo(src: seq<Byte>, dst: array<char>) returns (written: nat)
    requires EncodedSize(|src|) <= dst.Length
    modifies dst
    ensures written == EncodedSize(|src|) && dst[..written] == Encode(src)
  {
    hide Encode, Group;
    var out, next, n := 0, 0, |src| / 3;
    assert src[0..] == src;
    while n > 0
      invariant next <= |src| && next + 3 * n + |src| % 3 == |src|
      invariant out + EncodedSize(|src| - next) == EncodedSize(|src|)
      invariant dst[..out] + Encode(src[next..]) == Encode(src)
    {
      ghost var before := dst[..out];
      EncodeGroup(src[next..]);
      assert src[next..][3..] == src[next + 3..];
      ghost var group := Group(src[next], src[next + 1], src[next + 2]);
      PutGroup(dst, out, src[next], src[next + 1], src[next + 2]);
      assert before + (group + Encode(src[next + 3..])) == dst[..out + 4] + Encode(src[next + 3..]);
      out, next, n := out + 4, next + 3, n - 1;
    }
    written := PutTail(dst, out, src[next..]);
  }

  method PutGroup(dst: array<char>, out: nat, a: Byte, b: Byte, c: Byte)
    requires out + 4 <= dst.Length
    modifies dst
    ensures dst[..out + 4] == old(dst[..out]) + Group(a, b, c)
  {
    hide Sextet0, Sextet1, Sextet2, Sextet3, Letter;
    dst[out] := Letter(Sextet0(a));
    dst[out + 1] := Letter(Sextet1(a, b));
    dst[out + 2] := Letter(Sextet2(b, c));
    dst[out + 3] := Letter(Sextet3(c));
  }

  /** The last one or two bytes, if there are any. */
  method PutTail(dst: array<char>, out: nat, tail: seq<Byte>) returns (written: nat)
    requires |tail| < 3 && out + EncodedSize(|tail|) <= dst.Length
    modifies dst
    ensures written == out + EncodedSize(|tail|) && dst[..written] == old(dst[..out]) + Encode(tail)
  {
    hide Sextet0, Sextet1, Sextet2, Sextet3, Letter, Encode;
    EncodeTail(tail);
    written := out;
    if |tail| == 2 {
      dst[out] := Letter(Sextet0(tail[0]));
      dst[out + 1] := Letter(Sextet1(tail[0], tail[1]));
      dst[out + 2] := Letter(Sextet2(tail[1], 0));
      dst[out + 3] := '=';
      written := out + 4;
    } else if |tail| == 1 {
      dst[out] := Letter(Sextet0(tail[0]));
      dst[out + 1] := Letter(Sextet1(tail[0], 0));
      dst[out + 2] := '=';
      dst[out + 3] := '=';
      written := out + 4;
    }
  }

  lemma FourMore(four: seq<Sextet>, rest: seq<Sextet>)
    requires |four| == 4
    ensures Bytes(four + rest) == GroupBytes(four[0], four[1], four[2], four[3]) + Bytes(rest)
  {
    hide Byte0, Byte1, Byte2, Bytes;
    BytesGroup(four + rest);
    assert (four + rest)[4..] == rest;
  }

  /** `written` bytes come from the first `consumed` characters. */
  method DecodeTo(src: string, dst: array<Byte>) returns (written: nat, consumed: nat)
    requires |Decode(src)| <= dst.Length
    modifies dst
    ensures written == |Decode(src)| && dst[..written] == Decode(src)
    ensures consumed == |Scan(src)|
  {
    hide Bytes, Scan, Byte0, Byte1, Byte2, SextetOf, IsBase64;
    var four, three := new Sextet[4], new Byte[3];
    var out, next, i := 0, 0, 0;
    assert src[0..] == src && four[..0] + Scan(src) == Scan(src);
    while next < |src| && src[next] != '='
      invariant 0 <= i < 4 && next <= |src| && 0 <= out <= dst.Length
      invariant dst[..out] + Bytes(four[..i] + Scan(src[next..])) == Decode(src)
      invariant next + |Scan(src[next..])| == |Scan(src)|
    {
      var v := Inverse(src[next]);
      if v == -1 {
        break;
      }
      ScanGoesOn(src, next);
      ghost var all := four[..i] + Scan(src[next..]);
      four[i] := SextetOf(src[next]);
      i, next := i + 1, next + 1;
      ghost var rest := Scan(src[next..]);
      assert four[..i] + rest == all && four[..4] == four[..];
      if i == 4 {
        out := WriteGroup(four[..], three, dst, out, rest);
        i := 0;
        assert four[..0] + rest == rest;
      }
    }
    EqualsIsNoLetter();
    ScanStops(src, next);
    assert four[..i] + [] == four[..i] == four[..][..i];
    if i > 0 {
      out := WriteRest(four[..], i, three, dst, out);
    } else {
      FewSextets(four[..i]);
    }
    written, consumed := out, next;
  }

  /** Four sextets are used up. */
  method WriteGroup(four: seq<Sextet>, three: array<Byte>, dst: array<Byte>, out: nat, ghost rest: seq<Sextet>)
    returns (after: nat)
    requires |four| == 4 && three.Length == 3 && three != dst
    requires out <= dst.Length && out + |Bytes(four + rest)| <= dst.Length
    modifies three, dst
    ensures after <= dst.Length && dst[..after] + Bytes(rest) == old(dst[..out]) + Bytes(four + rest)
  {
    hide Bytes, Byte0, Byte1, Byte2;
    FourMore(four, rest);
    Unpack(four, three);
    after := CopyBytes(three, 3, dst, out, dst[..out], Bytes(rest));
  }

  /** What is left of a group at the end. */
  method WriteRest(four: seq<Sextet>, count: nat, three: array<Byte>, dst: array<Byte>, out: nat) returns (after: nat)
    requires |four| == 4 && 0 < count < 4 && three.Length == 3 && three != dst
    requires out <= dst.Length && out + |Bytes(four[..count])| <= dst.Length
    modifies three, dst
    ensures after <= dst.Length && dst[..after] == old(dst[..out]) + Bytes(four[..count])
  {
    hide Bytes, Byte0, Byte1, Byte2;
    FewSextets(four[..count]);
    Unpack(four, three);
    after := CopyBytes(three, count - 1, dst, out, dst[..out], []);
  }

  method Unpack(four: seq<Sextet>, three: array<Byte>)
    requires |four| == 4 && three.Length == 3
    modifies three
    ensures three[..] == GroupBytes(four[0], four[1], four[2], four[3])
    ensures three[..3] == three[..] && three[..2] == [three[0], three[1]] && three[..1] == [three[0]]
            && three[..0] == []
  {
    hide Byte0, Byte1, Byte2;
    three[0] := Byte0(four[0], four[1]);
    three[1] := Byte1(four[1], four[2]);
    three[2] := Byte2(four[2], four[3]);
  }

  /** Appends to what has been written; `rest` is still to come, and there is room for it. */
  method CopyBytes(three: array<Byte>, count: nat, dst: array<Byte>, out: nat, ghost before: seq<Byte>,
                   ghost rest: seq<Byte>)
    returns (after: nat)
    requires three.Length == 3 && count <= 3 && three != dst
    requires out + count + |rest| <= dst.Length && dst[..out] == before
    modifies dst
    ensures after == out + count && dst[..after] == before + three[..count]
    ensures before + (three[..count] + rest) == dst[..after] + rest
  {
    after := out;
    for j := 0 to count
      invariant after == out + j && dst[..after] == before + three[..j]
    {
      dst[after] := three[j];
      after := after + 1;
    }
  }

  method EncodeToString(data: seq<Byte>) returns (text: string)
    ensures text == Encode(data)
  {
    var dst := new char[EncodedSize(|data|)];
    var n := EncodeTo(data, dst);
    text := dst[..n];
  }

  /** The buffer is large enough; always so for a length that is a multiple of four. */
  predicate HasRoom(text: string) {
    |Scan(text)| / 4 < |text| / 4 || |Scan(text)| % 4 < 2
  }

  method DecodeFromString(input: string) returns (data: seq<Byte>)
    requires HasRoom(input)
    ensures data == Decode(input)
  {
    DecodedFits(input);
    var dst := new Byte[DecodedSize(|input|)];
    var n, _ := DecodeTo(input, dst);
    data := dst[..n];
  }
}
