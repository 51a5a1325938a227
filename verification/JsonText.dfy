/**
 * JSON string literals: quoting by the writers, unquoting by the reader.
 * A string is a sequence of bytes, each held in a `char` below 256. Bit operations on code
 * points are written as the division and remainder they amount to.
 */
module JsonText {
  import opened Wrappers

  predicate IsBytes(s: string) {
    forall i :: 0 <= i < |s| ==> s[i] as int < 256
  }

  // ----- UTF-8 as section 4 of RFC 3629 defines it

  predicate Tail(c: char) {
    0x80 <= c as int <= 0xBF
  }

  predicate Within(c: char, lo: int, hi: int) {
    lo <= c as int <= hi
  }

  /** The length of the well-formed character at the front of `s`; 0 when there is none. */
  function CharLen(s: string): (n: nat)
    ensures n <= |s| && n <= 4
  {
    if |s| >= 1 && s[0] as int <= 0x7F then 1
    else if |s| >= 2 && Within(s[0], 0xC2, 0xDF) && Tail(s[1]) then 2
    else if |s| >= 3 && Tail(s[2])
            && (|| (s[0] as int == 0xE0 && Within(s[1], 0xA0, 0xBF))
                || (Within(s[0], 0xE1, 0xEC) && Tail(s[1]))
                || (s[0] as int == 0xED && Within(s[1], 0x80, 0x9F))
                || (Within(s[0], 0xEE, 0xEF) && Tail(s[1]))) then 3
    else if |s| >= 4 && Tail(s[2]) && Tail(s[3])
            && (|| (s[0] as int == 0xF0 && Within(s[1], 0x90, 0xBF))
                || (Within(s[0], 0xF1, 0xF3) && Tail(s[1]))
                || (s[0] as int == 0xF4 && Within(s[1], 0x80, 0x8F))) then 4
    else 0
  }

  predicate WellFormed(s: string)
    decreases |s|
  {
    s == "" || (CharLen(s) > 0 && WellFormed(s[CharLen(s)..]))
  }

  // ----- UTF-8 as the program reads and writes it

  function CodePointToUTF8(cp: nat): (s: string)
    ensures IsBytes(s)
  {
    if cp <= 0x7F then [cp as char]
    else if cp <= 0x7FF then [(0xC0 + cp / 64) as char, (0x80 + cp % 64) as char]
    else if cp <= 0xFFFF then
      [(0xE0 + cp / 64 / 64) as char, (0x80 + cp / 64 % 64) as char, (0x80 + cp % 64) as char]
    else if cp <= 0x10FFFF then
      [(0xF0 + cp / 64 / 64 / 64) as char, (0x80 + cp / 64 / 64 % 64) as char,
       (0x80 + cp / 64 % 64) as char, (0x80 + cp % 64) as char]
    else ""
  }

  const REPLACEMENT_CHARACTER: nat := 0xFFFD

  /** The code point at the front of `s`, and how many bytes it used up. */
  function Utf8ToCodepoint(s: string): (r: (nat, nat))
    requires s != ""
    ensures 1 <= r.1 <= |s|
  {
    var b0 := s[0] as int;
    if b0 < 0x80 then (b0, 1)
    else if b0 < 0xE0 then
      if |s| < 2 then (REPLACEMENT_CHARACTER, 1) else
      var cp := b0 % 32 * 64 + s[1] as int % 64;
      (if cp < 0x80 then REPLACEMENT_CHARACTER else cp, 2)
    else if b0 < 0xF0 then
      if |s| < 3 then (REPLACEMENT_CHARACTER, 1) else
      var cp := b0 % 16 * 4096 + s[1] as int % 64 * 64 + s[2] as int % 64;
      (if 0xD800 <= cp <= 0xDFFF || cp < 0x800 then REPLACEMENT_CHARACTER else cp, 3)
    else if b0 < 0xF8 then
      if |s| < 4 then (REPLACEMENT_CHARACTER, 1) else
      var cp := b0 % 8 * 262144 + s[1] as int % 64 * 4096 + s[2] as int % 64 * 64 + s[3] as int % 64;
      (if cp < 0x10000 then REPLACEMENT_CHARACTER else cp, 4)
    else (REPLACEMENT_CHARACTER, 1)
  }

  // ----- Quoting

  const HEX: string := "0123456789abcdef"

  function HexDigit(d: nat): char
    requires d < 16
  {
    HEX[d]
  }

  /** The low sixteen bits of `x`, as four hexadecimal digits. */
  function ToHex16Bit(x: nat): (s: string)
    ensures |s| == 4
  {
    [HexDigit(x / 16 / 16 / 16 % 16), HexDigit(x / 16 / 16 % 16), HexDigit(x / 16 % 16), HexDigit(x % 16)]
  }

  function UnicodeForm(x: nat): string {
    "\\u" + ToHex16Bit(x)
  }

  function HighSurrogate(cp: nat): nat
    requires cp >= 0x10000
  {
    (cp - 0x10000) / 1024 + 0xD800
  }

  function LowSurrogate(cp: nat): nat
    requires cp >= 0x10000
  {
    (cp - 0x10000) % 1024 + 0xDC00
  }

  function EscapeCodePoint(cp: nat): string {
    if 0x20 <= cp < 0x80 then [cp as char]
    else if cp < 0x10000 then UnicodeForm(cp)
    else UnicodeForm(HighSurrogate(cp)) + UnicodeForm(LowSurrogate(cp))
  }

  /** The escape of the character at the front of `s`, and how many bytes it used up. */
  function EscapeOne(s: string): (r: (string, nat))
    requires s != ""
    ensures 1 <= r.1 <= |s|
  {
    match s[0]
    case '\"' => ("\\\"", 1)
    case '\\' => ("\\\\", 1)
    case '\U{8}' => ("\\b", 1)
    case '\U{C}' => ("\\f", 1)
    case '\n' => ("\\n", 1)
    case '\r' => ("\\r", 1)
    case '\t' => ("\\t", 1)
    case _ =>
      var (cp, n) := Utf8ToCodepoint(s);
      (EscapeCodePoint(cp), n)
  }

  function Escape(s: string): string
    decreases |s|
  {
    if s == "" then "" else
    var (t, n) := EscapeOne(s);
    t + Escape(s[n..])
  }

  function Quote(s: string): string {
    "\"" + Escape(s) + "\""
  }

  /** A `char` of the program is signed: the upper half of the bytes is negative. */
  function Signed(c: char): int
    requires c as int < 256
  {
    if c as int < 128 then c as int else c as int - 256
  }

  method IsAnyCharRequiredQuoting(s: string) returns (required: bool)
    requires IsBytes(s)
    ensures required <==> s != ""
  {
    for i := 0 to |s|
      invariant i == 0
    {
      if s[i] == '\\' || s[i] == '\"' || Signed(s[i]) < ' ' as int || (s[i] as int) < 0x80 {
        return true;
      }
    }
    return false;
  }

  /** What the writer appends for a code point that has no short escape. */
  method AppendCodePoint(text: string, cp: nat) returns (result: string)
    ensures result == text + EscapeCodePoint(cp)
  {
    if cp < 0x80 && cp >= 0x20 {
      result := text + [cp as char];
    } else if cp < 0x10000 {
      result := AppendUnicodeForm(text, cp);
    } else {
      result := AppendUnicodeForm(text, HighSurrogate(cp));
      result := AppendUnicodeForm(result, LowSurrogate(cp));
      Associative(text, UnicodeForm(HighSurrogate(cp)), UnicodeForm(LowSurrogate(cp)));
    }
  }

  method AppendUnicodeForm(text: string, x: nat) returns (result: string)
    ensures result == text + UnicodeForm(x)
  {
    result := text + "\\u";
    result := result + ToHex16Bit(x);
    Associative(text, "\\u", ToHex16Bit(x));
  }

  lemma Associative(a: string, b: string, c: string)
    ensures a + b + c == a + (b + c)
  {
  }

  method ValueToQuotedStringN(value: string) returns (result: string)
    requires IsBytes(value)
    ensures result == Quote(value)
  {
    var required := IsAnyCharRequiredQuoting(value);
    if !required {
      return "\"" + value + "\"";
    }
    result := "\"";
    var c := 0;
    while c != |value|
      invariant 0 <= c <= |value|
      invariant result + Escape(value[c..]) == "\"" + Escape(value)
      decreases |value| - c
    {
      ghost var before := result;
      ghost var rest := value[c..];
      ghost var (t, n) := EscapeOne(rest);
      result, c := AppendEscape(result, value, c);
      c := c + 1;
      assert value[c..] == rest[n..];
      Associative(before, t, Escape(value[c..]));
    }
    result := result + "\"";
  }

  /** One turn of the writer's loop: `last` is the last byte that was used up. */
  method AppendEscape(text: string, value: string, c: nat) returns (result: string, last: nat)
    requires IsBytes(value) && c < |value|
    ensures result == text + EscapeOne(value[c..]).0
    ensures last + 1 == c + EscapeOne(value[c..]).1
  {
    last := c;
    assert value[c..][0] == value[c];
    match value[c]
    case '\"' => result := text + "\\\"";
    case '\\' => result := text + "\\\\";
    case '\U{8}' => result := text + "\\b";
    case '\U{C}' => result := text + "\\f";
    case '\n' => result := text + "\\n";
    case '\r' => result := text + "\\r";
    case '\t' => result := text + "\\t";
    case _ =>
      var (cp, used) := Utf8ToCodepoint(value[c..]);
      result := AppendCodePoint(text, cp);
      last := c + used - 1;
  }

  // ----- Unquoting

  function HexValue(c: char): Option<nat> {
    if '0' <= c <= '9' then Some(c as int - '0' as int)
    else if 'a' <= c <= 'f' then Some(c as int - 'a' as int + 10)
    else if 'A' <= c <= 'F' then Some(c as int - 'A' as int + 10)
    else None
  }

  /** Four hexadecimal digits at the front of `s`. */
  function UnicodeEscape(s: string): Option<nat> {
    if |s| < 4 then None
    else match (HexValue(s[0]), HexValue(s[1]), HexValue(s[2]), HexValue(s[3]))
      case (Some(a), Some(b), Some(c), Some(d)) => Some(((a * 16 + b) * 16 + c) * 16 + d)
      case _ => None
  }

  /** The code point written after a backslash and `u`, and how many bytes it used up. */
  function UnicodeCodePoint(s: string): (r: Option<(nat, nat)>)
    ensures r.Some? ==> r.value.1 <= |s|
  {
    match UnicodeEscape(s)
    case None => None
    case Some(unicode) =>
      if 0xD800 <= unicode <= 0xDBFF then
        if |s| - 4 < 6 || s[4] != '\\' || s[5] != 'u' then None
        else match UnicodeEscape(s[6..])
          case None => None
          case Some(low) => Some((0x10000 + unicode % 1024 * 1024 + low % 1024, 10))
      else Some((unicode, 4))
  }

  function Prepend(s: string, r: Option<string>): Option<string> {
    if r.None? then None else Some(s + r.value)
  }

  /** The text of a string token without its quotes; `None` is a syntax error. */
  function Unescape(s: string): Option<string>
    decreases |s|
  {
    if s == "" || s[0] == '\"' then Some("")
    else if s[0] != '\\' then Prepend([s[0]], Unescape(s[1..]))
    else if |s| == 1 then None
    else match s[1]
      case '\"' => Prepend("\"", Unescape(s[2..]))
      case '/' => Prepend("/", Unescape(s[2..]))
      case '\\' => Prepend("\\", Unescape(s[2..]))
      case 'b' => Prepend("\U{8}", Unescape(s[2..]))
      case 'f' => Prepend("\U{C}", Unescape(s[2..]))
      case 'n' => Prepend("\n", Unescape(s[2..]))
      case 'r' => Prepend("\r", Unescape(s[2..]))
      case 't' => Prepend("\t", Unescape(s[2..]))
      case 'u' =>
        (match UnicodeCodePoint(s[2..])
         case None => None
         case Some((cp, n)) => Prepend(CodePointToUTF8(cp), Unescape(s[2 + n..])))
      case _ => None
  }

  method DecodeUnicodeEscapeSequence(s: string, start: nat) returns (ok: bool, current: nat, unicode: nat)
    requires start <= |s|
    ensures ok <==> UnicodeEscape(s[start..]).Some?
    ensures ok ==> current == start + 4 <= |s| && Some(unicode) == UnicodeEscape(s[start..])
  {
    current, unicode := start, 0;
    if |s| - current < 4 {
      return false, current, unicode;
    }
    ghost var r := s[start..];
    for index := 0 to 4
      invariant current == start + index
      invariant forall k :: 0 <= k < index ==> HexValue(r[k]).Some?
      invariant index == 1 ==> unicode == HexValue(r[0]).value
      invariant index == 2 ==> unicode == HexValue(r[0]).value * 16 + HexValue(r[1]).value
      invariant index == 3 ==> unicode == (HexValue(r[0]).value * 16 + HexValue(r[1]).value) * 16 + HexValue(r[2]).value
      invariant index == 4 ==> Some(unicode) == UnicodeEscape(r)
      invariant index == 0 ==> unicode == 0
    {
      var c := s[current];
      assert c == r[index];
      current := current + 1;
      unicode := unicode * 16;
      if '0' <= c <= '9' {
        unicode := unicode + (c as int - '0' as int);
      } else if 'a' <= c <= 'f' {
        unicode := unicode + (c as int - 'a' as int + 10);
      } else if 'A' <= c <= 'F' {
        unicode := unicode + (c as int - 'A' as int + 10);
      } else {
        return false, current, unicode;
      }
    }
    return true, current, unicode;
  }

  method DecodeUnicodeCodePoint(s: string, start: nat) returns (ok: bool, current: nat, unicode: nat)
    requires start <= |s|
    ensures ok <==> UnicodeCodePoint(s[start..]).Some?
    ensures ok ==> start <= current <= |s| && Some((unicode, current - start)) == UnicodeCodePoint(s[start..])
  {
    ok, current, unicode := DecodeUnicodeEscapeSequence(s, start);
    if !ok {
      return;
    }
    if 0xD800 <= unicode <= 0xDBFF {
      if |s| - current < 6 {
        return false, current, unicode;
      }
      if s[current] == '\\' && s[current + 1] == 'u' {
        current := current + 2;
        assert s[current..] == s[start..][6..];
        var surrogatePair;
        ok, current, surrogatePair := DecodeUnicodeEscapeSequence(s, current);
        if !ok {
          return;
        }
        unicode := 0x10000 + unicode % 1024 * 1024 + surrogatePair % 1024;
      } else {
        return false, current, unicode;
      }
    }
  }

  /** `s` is the token without its quotes. */
  method DecodeString(s: string) returns (ok: bool, decoded: string)
    ensures ok <==> Unescape(s).Some?
    ensures ok ==> Some(decoded) == Unescape(s)
  {
    decoded := "";
    var current := 0;
    assert s[0..] == s;
    assert Unescape(s).Some? ==> "" + Unescape(s).value == Unescape(s).value;
    while current != |s|
      invariant 0 <= current <= |s|
      invariant Unescape(s) == Prepend(decoded, Unescape(s[current..]))
      decreases |s| - current
    {
      ghost var rest, before, start := s[current..], decoded, current;
      var c := s[current];
      current := current + 1;
      if c == '\"' {
        assert decoded + "" == decoded;
        return true, decoded;
      } else if c == '\\' {
        if current == |s| {
          return false, decoded;
        }
        var escape := s[current];
        current := current + 1;
        assert s[current..] == rest[2..];
        if escape == '\"' {
          decoded := decoded + "\"";
        } else if escape == '/' {
          decoded := decoded + "/";
        } else if escape == '\\' {
          decoded := decoded + "\\";
        } else if escape == 'b' {
          decoded := decoded + "\U{8}";
        } else if escape == 'f' {
          decoded := decoded + "\U{C}";
        } else if escape == 'n' {
          decoded := decoded + "\n";
        } else if escape == 'r' {
          decoded := decoded + "\r";
        } else if escape == 't' {
          decoded := decoded + "\t";
        } else if escape == 'u' {
          var good, unicode;
          good, current, unicode := DecodeUnicodeCodePoint(s, current);
          if !good {
            return false, decoded;
          }
          decoded := decoded + CodePointToUTF8(unicode);
          assert s[current..] == rest[current - start..];
        } else {
          return false, decoded;
        }
      } else {
        decoded := decoded + [c];
        assert s[current..] == rest[1..];
      }
      PrependTwice(before, decoded[|before|..], Unescape(s[current..]));
      assert decoded == before + decoded[|before|..];
    }
    assert s[current..] == "" && decoded + "" == decoded;
    return true, decoded;
  }

  lemma PrependTwice(a: string, b: string, r: Option<string>)
    ensures Prepend(a, Prepend(b, r)) == Prepend(a + b, r)
  {
    if r.Some? {
      assert a + (b + r.value) == a + b + r.value;
    }
  }

  // ----- Unquoting undoes quoting, exactly on well-formed UTF-8

  lemma HexInverse(x: nat, rest: string)
    requires x < 0x10000
    ensures UnicodeEscape(ToHex16Bit(x) + rest) == Some(x)
  {
    Nibbles(x);
    HexDigitInverse(x / 16 / 16 / 16 % 16);
    HexDigitInverse(x / 16 / 16 % 16);
    HexDigitInverse(x / 16 % 16);
    HexDigitInverse(x % 16);
  }

  lemma Nibbles(x: nat)
    requires x < 0x10000
    ensures ((x / 16 / 16 / 16 % 16 * 16 + x / 16 / 16 % 16) * 16 + x / 16 % 16) * 16 + x % 16 == x
  {
    var x1 := x / 16;
    var x2 := x1 / 16;
    assert x == 16 * x1 + x % 16 && x1 == 16 * x2 + x1 % 16 && x2 == 16 * (x2 / 16) + x2 % 16 && x2 / 16 < 16;
  }

  lemma HexDigitInverse(d: nat)
    requires d < 16
    ensures HexValue(HexDigit(d)) == Some(d)
    ensures HexDigit(d) != '\"' && HexDigit(d) != '\\'
  {
  }

  lemma UnescapeU(s: string, cp: nat, n: nat)
    requires |s| >= 2 && s[0] == '\\' && s[1] == 'u'
    requires UnicodeCodePoint(s[2..]) == Some((cp, n))
    ensures Unescape(s) == Prepend(CodePointToUTF8(cp), Unescape(s[2 + n..]))
  {
    hide CodePointToUTF8, UnicodeCodePoint, Prepend;
  }

  /** A basic code point that is no lone surrogate is read back from its escape. */
  lemma UnescapeUnicodeForm(x: nat, rest: string)
    requires x < 0x10000 && !(0xD800 <= x <= 0xDBFF)
    ensures Unescape(UnicodeForm(x) + rest) == Prepend(CodePointToUTF8(x), Unescape(rest))
  {
    var s := UnicodeForm(x) + rest;
    assert s[2..] == ToHex16Bit(x) + rest;
    HexInverse(x, rest);
    UnescapeU(s, x, 4);
    assert s[6..] == rest;
  }

  lemma UnescapeSurrogatePair(cp: nat, rest: string)
    requires 0x10000 <= cp <= 0x10FFFF
    ensures Unescape(EscapeCodePoint(cp) + rest) == Prepend(CodePointToUTF8(cp), Unescape(rest))
  {
    SurrogateArithmetic(cp);
    SurrogatesMeet(HighSurrogate(cp), LowSurrogate(cp), cp, rest);
  }

  lemma SurrogateArithmetic(cp: nat)
    requires 0x10000 <= cp <= 0x10FFFF
    ensures 0xD800 <= HighSurrogate(cp) <= 0xDBFF && 0xDC00 <= LowSurrogate(cp) <= 0xDFFF
    ensures cp == 0x10000 + HighSurrogate(cp) % 1024 * 1024 + LowSurrogate(cp) % 1024
  {
  }

  lemma SurrogatesMeet(high: nat, low: nat, cp: nat, rest: string)
    requires 0xD800 <= high <= 0xDBFF && 0xDC00 <= low <= 0xDFFF
    requires cp == 0x10000 + high % 1024 * 1024 + low % 1024
    ensures Unescape(UnicodeForm(high) + UnicodeForm(low) + rest) == Prepend(CodePointToUTF8(cp), Unescape(rest))
  {
    hide CodePointToUTF8, UnicodeCodePoint, UnicodeEscape, ToHex16Bit, Unescape, Prepend;
    var first, second := ToHex16Bit(high), ToHex16Bit(low);
    HexInverse(high, "\\u" + second + rest);
    HexInverse(low, rest);
    TwoEscapes(first, second, high, low, rest);
    var s := "\\u" + first + ("\\u" + second) + rest;
    assert s[2..] == first + ("\\u" + second + rest) && s[12..] == rest;
    UnescapeU(s, cp, 10);
  }

  lemma TwoEscapes(first: string, second: string, high: nat, low: nat, rest: string)
    requires |first| == |second| == 4 && 0xD800 <= high <= 0xDBFF
    requires UnicodeEscape(first + ("\\u" + second + rest)) == Some(high)
    requires UnicodeEscape(second + rest) == Some(low)
    ensures UnicodeCodePoint(first + ("\\u" + second + rest))
         == Some((0x10000 + high % 1024 * 1024 + low % 1024, 10))
  {
    var s := first + ("\\u" + second + rest);
    assert s[6..] == second + rest;
    assert s[4] == '\\' && s[5] == 'u';
  }

  /** What reading back the escape of one character yields. */
  function ReadBack(s: string): string
    requires s != ""
  {
    var (cp, n) := Utf8ToCodepoint(s);
    if cp <= 0x10FFFF then CodePointToUTF8(cp)
    else CodePointToUTF8(HighSurrogate(cp)) + CodePointToUTF8(LowSurrogate(cp))
  }

  lemma CodepointRange(s: string)
    requires s != "" && IsBytes(s)
    ensures var cp := Utf8ToCodepoint(s).0; cp < 0x200000 && !(0xD800 <= cp <= 0xDFFF)
  {
  }

  lemma UnescapeEscapeOne(s: string, rest: string)
    requires s != "" && IsBytes(s)
    ensures Unescape(EscapeOne(s).0 + rest) == Prepend(ReadBack(s), Unescape(rest))
  {
    hide EscapeCodePoint, ReadBack, UnicodeCodePoint;
    var (t, n) := EscapeOne(s);
    var (cp, used) := Utf8ToCodepoint(s);
    if s[0] in {'\"', '\\', '\U{8}', '\U{C}', '\n', '\r', '\t'} {
      assert (t + rest)[2..] == rest;
      ReadBackAscii(s);
    } else {
      CodepointRange(s);
      UnescapeEscapeCodePoint(s, cp, rest);
    }
  }

  lemma ReadBackAscii(s: string)
    requires s != "" && s[0] as int < 0x80
    ensures ReadBack(s) == [s[0]]
  {
  }

  lemma UnescapeEscapeCodePoint(s: string, cp: nat, rest: string)
    requires s != "" && IsBytes(s) && Utf8ToCodepoint(s).0 == cp < 0x200000 && !(0xD800 <= cp <= 0xDFFF)
    requires cp != '\"' as int && cp != '\\' as int
    ensures Unescape(EscapeCodePoint(cp) + rest) == Prepend(ReadBack(s), Unescape(rest))
  {
    if 0x20 <= cp < 0x80 {
      assert (EscapeCodePoint(cp) + rest)[1..] == rest;
    } else if cp < 0x10000 {
      UnescapeUnicodeForm(cp, rest);
    } else if cp <= 0x10FFFF {
      UnescapeSurrogatePair(cp, rest);
    } else {
      // above the last code point: the two halves come out as two separate escapes
      var high, low := HighSurrogate(cp), LowSurrogate(cp);
      Associative(UnicodeForm(high), UnicodeForm(low), rest);
      UnescapeUnicodeForm(high, UnicodeForm(low) + rest);
      UnescapeUnicodeForm(low, rest);
      PrependTwice(CodePointToUTF8(high), CodePointToUTF8(low), Unescape(rest));
    }
  }

  /** A well-formed character survives the round trip through its code point. */
  lemma WellFormedReadsBack(s: string)
    requires IsBytes(s) && CharLen(s) > 0
    ensures EscapeOne(s).1 == CharLen(s) && ReadBack(s) == s[..CharLen(s)]
  {
    match CharLen(s)
    case 1 =>
    case 2 => TwoBytes(s);
    case 3 => ThreeBytes(s);
    case 4 => FourBytes(s);
  }

  lemma TwoBytes(s: string)
    requires IsBytes(s) && CharLen(s) == 2
    ensures Utf8ToCodepoint(s).1 == 2
    ensures var cp := Utf8ToCodepoint(s).0; cp <= 0x10FFFF && CodePointToUTF8(cp) == s[..2]
  {
    var q, r := s[0] as int - 0xC0, s[1] as int - 0x80;
    var cp := Utf8ToCodepoint(s).0;
    assert cp == q * 64 + r;
    assert cp / 64 == q && cp % 64 == r;
  }

  lemma ThreeBytes(s: string)
    requires IsBytes(s) && CharLen(s) == 3
    ensures Utf8ToCodepoint(s).1 == 3
    ensures var cp := Utf8ToCodepoint(s).0; cp <= 0x10FFFF && CodePointToUTF8(cp) == s[..3]
  {
    var p, q, r := s[0] as int - 0xE0, s[1] as int - 0x80, s[2] as int - 0x80;
    var cp := Utf8ToCodepoint(s).0;
    assert cp == (p * 64 + q) * 64 + r;
    assert cp / 64 == p * 64 + q && cp % 64 == r;
    assert cp / 64 / 64 == p && cp / 64 % 64 == q;
  }

  lemma FourBytes(s: string)
    requires IsBytes(s) && CharLen(s) == 4
    ensures Utf8ToCodepoint(s).1 == 4
    ensures var cp := Utf8ToCodepoint(s).0; cp <= 0x10FFFF && CodePointToUTF8(cp) == s[..4]
  {
    var o, p, q, r := s[0] as int - 0xF0, s[1] as int - 0x80, s[2] as int - 0x80, s[3] as int - 0x80;
    var cp := Utf8ToCodepoint(s).0;
    assert cp == o * 262144 + p * 4096 + q * 64 + r;
    FourDigits(cp, o, p, q, r);
  }

  /** Base 64 digits of a number. */
  lemma FourDigits(n: nat, o: nat, p: nat, q: nat, r: nat)
    requires p < 64 && q < 64 && r < 64 && n == o * 262144 + p * 4096 + q * 64 + r
    ensures n % 64 == r && n / 64 % 64 == q && n / 64 / 64 % 64 == p && n / 64 / 64 / 64 == o
  {
    assert n == ((o * 64 + p) * 64 + q) * 64 + r;
    assert n / 64 == (o * 64 + p) * 64 + q;
    assert n / 64 / 64 == o * 64 + p;
  }

  /** Anything else comes back as something it does not start with. */
  lemma MalformedChanges(s: string)
    requires IsBytes(s) && s != "" && CharLen(s) == 0
    ensures !(ReadBack(s) <= s)
  {
    var (cp, n) := Utf8ToCodepoint(s);
    CodepointRange(s);
    if cp <= 0x10FFFF {
      if CodePointToUTF8(cp) <= s {
        EncodingIsWellFormed(cp, s);
      }
    } else {
      assert s[0] as int >= 0xF0;
    }
  }

  lemma EncodingIsWellFormed(cp: nat, s: string)
    requires cp <= 0x10FFFF && !(0xD800 <= cp <= 0xDFFF)
    requires CodePointToUTF8(cp) <= s
    ensures CharLen(s) > 0
  {
  }

  lemma {:induction false} UnescapeEscape(s: string)
    requires IsBytes(s)
    ensures Unescape(Escape(s)).Some?
    ensures Unescape(Escape(s)).value == s <==> WellFormed(s)
    decreases |s|
  {
    if s != "" {
      var (t, n) := EscapeOne(s);
      UnescapeEscapeOne(s, Escape(s[n..]));
      UnescapeEscape(s[n..]);
      if CharLen(s) > 0 {
        WellFormedReadsBack(s);
        assert s == s[..n] + s[n..];
        assert ReadBack(s) + Unescape(Escape(s[n..])).value == s ==> Unescape(Escape(s[n..])).value == s[n..] by {
          assert (ReadBack(s) + Unescape(Escape(s[n..])).value)[n..] == Unescape(Escape(s[n..])).value;
        }
      } else {
        MalformedChanges(s);
      }
    }
  }
}
