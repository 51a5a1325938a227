/** Decimal integers: printing them into a fixed buffer, and decoding number tokens exactly. */
module JsonNumber {
  const MAX_UINT64: int := 0xFFFF_FFFF_FFFF_FFFF
  const MAX_INT64: int := 0x7FFF_FFFF_FFFF_FFFF
  const MIN_INT64: int := -0x8000_0000_0000_0000
  const MAX_INT32: int := 0x7FFF_FFFF

  predicate IsDigit(c: char) {
    '0' <= c <= '9'
  }

  predicate AllDigits(s: string) {
    forall i :: 0 <= i < |s| ==> IsDigit(s[i])
  }

  function Digit(d: nat): (c: char)
    requires d < 10
    ensures IsDigit(c)
  {
    ('0' as int + d) as char
  }

  /** The decimal digits of `n`, without leading zeros. */
  function Digits(n: nat): (s: string)
    ensures s != "" && AllDigits(s)
  {
    if n < 10 then [Digit(n)] else Digits(n / 10) + [Digit(n % 10)]
  }

  function IntText(i: int): (s: string)
    ensures s != ""
  {
    if i < 0 then "-" + Digits(-i) else Digits(i)
  }

  /** The number a string of digits denotes; the empty string denotes zero. */
  function ValueOf(s: string): nat
    requires AllDigits(s)
  {
    if s == "" then 0 else ValueOf(s[..|s| - 1]) * 10 + (s[|s| - 1] as int - '0' as int)
  }

  lemma {:induction false} ValueOfDigits(n: nat)
    ensures ValueOf(Digits(n)) == n
  {
    if n >= 10 {
      ValueOfDigits(n / 10);
      var s := Digits(n);
      assert s[..|s| - 1] == Digits(n / 10);
    }
  }

  function Pow10(k: nat): nat {
    if k == 0 then 1 else 10 * Pow10(k - 1)
  }

  lemma {:induction false} DigitCount(n: nat, k: nat)
    requires k >= 1 && n < Pow10(k)
    ensures |Digits(n)| <= k
  {
    if n >= 10 {
      DigitCount(n / 10, k - 1);
    }
  }

  lemma SixtyFourBitsFit(n: nat)
    requires n <= MAX_UINT64
    ensures |Digits(n)| <= 20
  {
    assert Pow10(20) == 100_000_000_000_000_000_000 by {
      assert Pow10(10) == 10_000_000_000;
    }
    DigitCount(n, 20);
  }

  // ----- Printing

  const BUFFER_SIZE: nat := 25  // three characters for each of eight bytes, and the terminator

  method UintToString(number: nat, buffer: array<char>, end: nat) returns (current: nat)
    requires |Digits(number)| < end <= buffer.Length
    modifies buffer
    ensures current == end - 1 - |Digits(number)|
    ensures buffer[current..end - 1] == Digits(number) && buffer[end - 1] == '\0'
    ensures forall i :: 0 <= i < current || end <= i < buffer.Length ==> buffer[i] == old(buffer[i])
  {
    hide Digits;
    var value := number;
    current := end - 1;
    buffer[current] := '\0';
    current := current - 1;
    buffer[current] := Digit(value % 10);
    LastDigit(value, "");
    assert buffer[current..end - 1] == [Digit(value % 10)] + "";
    value := value / 10;
    while value != 0
      invariant current == end - 1 - (|Digits(number)| - |LeadingDigits(value)|) < end - 1
      invariant LeadingDigits(value) + buffer[current..end - 1] == Digits(number)
      invariant buffer[end - 1] == '\0'
      invariant forall i :: 0 <= i < current || end <= i < buffer.Length ==> buffer[i] == old(buffer[i])
      decreases value
    {
      ghost var tail := buffer[current..end - 1];
      LastDigit(value, tail);
      current := current - 1;
      buffer[current] := Digit(value % 10);
      assert buffer[current + 1..end - 1] == tail;
      assert buffer[current..end - 1] == [Digit(value % 10)] + tail;
      value := value / 10;
    }
  }

  /** The digits still to be written when `n` is left; none for zero. */
  function LeadingDigits(n: nat): string {
    if n == 0 then "" else Digits(n)
  }

  lemma LastDigit(n: nat, tail: string)
    ensures Digits(n) + tail == LeadingDigits(n / 10) + ([Digit(n % 10)] + tail)
    ensures |Digits(n)| == |LeadingDigits(n / 10)| + 1
    ensures tail == "" ==> Digits(n) == LeadingDigits(n / 10) + [Digit(n % 10)]
  {
  }

  method SignedToString(value: int) returns (s: string)
    requires MIN_INT64 <= value <= MAX_INT64
    ensures s == IntText(value)
  {
    hide Digits;
    var buffer := new char[BUFFER_SIZE];
    var current := buffer.Length;
    if value == MIN_INT64 {
      SixtyFourBitsFit(MAX_INT64 + 1);
      current := UintToString(MAX_INT64 + 1, buffer, current);
      current := current - 1;
      buffer[current] := '-';
    } else if value < 0 {
      SixtyFourBitsFit(-value);
      current := UintToString(-value, buffer, current);
      current := current - 1;
      buffer[current] := '-';
    } else {
      SixtyFourBitsFit(value);
      current := UintToString(value, buffer, current);
    }
    return buffer[current..BUFFER_SIZE - 1];
  }

  method UnsignedToString(value: int) returns (s: string)
    requires 0 <= value <= MAX_UINT64
    ensures s == IntText(value)
  {
    var buffer := new char[BUFFER_SIZE];
    SixtyFourBitsFit(value);
    var current := UintToString(value, buffer, buffer.Length);
    return buffer[current..BUFFER_SIZE - 1];
  }

  // ----- Decoding

  datatype Number = SignedNumber(i: int) | UnsignedNumber(u: int) | NotInteger

  /** How the reader classifies a mathematical integer that it can represent. */
  function Classify(n: int): Number {
    if n <= MAX_INT32 then SignedNumber(n) else UnsignedNumber(n)
  }

  function Unsigned(token: string): string {
    if token != "" && token[0] == '-' then token[1..] else token
  }

  function Denoted(token: string): int
    requires AllDigits(Unsigned(token))
  {
    var magnitude: int := ValueOf(Unsigned(token));
    if Unsigned(token) != token then -magnitude else magnitude
  }

  /** What a number token means: an integer exactly when its value fits. */
  function Decode(token: string): Number {
    if AllDigits(Unsigned(token)) && MIN_INT64 <= Denoted(token) <= MAX_UINT64
    then Classify(Denoted(token)) else NotInteger
  }

  /** Conversion of an unsigned 64-bit number to a signed one. */
  function ToInt64(u: int): int {
    if u > MAX_INT64 then u - MAX_UINT64 - 1 else u
  }

  /** Negation in 64-bit two's complement. */
  function Negate64(i: int): int {
    if i == MIN_INT64 then i else -i
  }

  /** One digit more is at least ten times as much. */
  lemma {:induction false} LongerIsLarger(s: string, k: nat)
    requires AllDigits(s) && k < |s|
    ensures ValueOf(s) >= ValueOf(s[..k]) * 10
    ensures k + 1 < |s| ==> ValueOf(s) >= ValueOf(s[..k]) * 100
  {
    var n := |s| - 1;
    if k < n {
      LongerIsLarger(s[..n], k);
      assert s[..n][..k] == s[..k];
    }
  }

  /** When the overflow guard stops at digit `k`, the whole number is above the maximum. */
  lemma TooLarge(s: string, k: nat, max: int)
    requires AllDigits(s) && k < |s| && max >= 10
    requires ValueOf(s[..k]) >= max / 10
    requires ValueOf(s[..k]) > max / 10 || k + 1 < |s| || s[k] as int - '0' as int > max % 10
    ensures ValueOf(s) > max
  {
    LongerIsLarger(s, k);
    if k + 1 == |s| {
      assert ValueOf(s) == ValueOf(s[..k]) * 10 + (s[k] as int - '0' as int);
    }
  }

  /** The loop that both readers share: the digits of the token, unless they denote more than `maxIntegerValue`. */
  method DecodeMagnitude(token: string, maxIntegerValue: int) returns (fits: bool, value: int)
    requires token != "" && maxIntegerValue >= 10
    ensures fits <==> AllDigits(Unsigned(token)) && ValueOf(Unsigned(token)) <= maxIntegerValue
    ensures fits ==> value == ValueOf(Unsigned(token))
  {
    var current := if token[0] == '-' then 1 else 0;
    ghost var digits := Unsigned(token);
    ghost var first := current;
    var threshold := maxIntegerValue / 10;
    value := 0;
    while current < |token|
      invariant first <= current <= |token|
      invariant AllDigits(digits[..current - first])
      invariant value == ValueOf(digits[..current - first]) <= maxIntegerValue
    {
      var c := token[current];
      ghost var k := current - first;
      assert c == digits[k];
      current := current + 1;
      if c < '0' || c > '9' {
        return false, value;
      }
      var digit := c as int - '0' as int;
      assert digits[..k + 1][..k] == digits[..k];
      if value >= threshold {
        if value > threshold || current != |token| || digit > maxIntegerValue % 10 {
          if AllDigits(digits) {
            TooLarge(digits, k, maxIntegerValue);
          }
          return false, value;
        }
      }
      assert 0 <= value * 10 + digit <= maxIntegerValue;
      value := value * 10 + digit;
    }
    assert digits[..current - first] == digits;
    fits := true;
  }

  /** The reader's own decoder: the sign is applied in 64-bit arithmetic. */
  method DecodeNumber(token: string) returns (decoded: Number)
    requires token != ""
    ensures decoded == Decode(token)
  {
    var isNegative := token[0] == '-';
    var fits, value := DecodeMagnitude(token, if isNegative then -MIN_INT64 else MAX_UINT64);
    if !fits {
      decoded := NotInteger;
    } else if isNegative {
      decoded := SignedNumber(Negate64(ToInt64(value)));
    } else if value <= MAX_INT32 {
      decoded := SignedNumber(ToInt64(value));
    } else {
      decoded := UnsignedNumber(value);
    }
  }

  /** The older reader's decoder, which treats the least integer on its own, agrees. */
  method DecodeNumberOlder(token: string) returns (decoded: Number)
    requires token != ""
    ensures decoded == Decode(token)
  {
    var isNegative := token[0] == '-';
    var maxIntegerValue := if isNegative then MAX_INT64 + 1 else MAX_UINT64;
    var fits, value := DecodeMagnitude(token, maxIntegerValue);
    if !fits {
      decoded := NotInteger;
    } else if isNegative && value == maxIntegerValue {
      decoded := SignedNumber(MIN_INT64);
    } else if isNegative {
      decoded := SignedNumber(-ToInt64(value));
    } else if value <= MAX_INT32 {
      decoded := SignedNumber(ToInt64(value));
    } else {
      decoded := UnsignedNumber(value);
    }
  }

  /** Printing then decoding is the identity on every representable integer. */
  lemma DecodePrinted(n: int)
    requires MIN_INT64 <= n <= MAX_UINT64
    ensures Decode(IntText(n)) == Classify(n)
  {
    ValueOfDigits(if n < 0 then -n else n);
  }

  /** A minus sign without any digit is a number too, and reads as zero. */
  lemma LoneMinus()
    ensures Decode("-") == SignedNumber(0) && Decode("-") == Decode(IntText(0))
  {
    DecodePrinted(0);
    assert "-"[1..] == "";
  }
}
