/** The string helpers that HTTP parsing rests on. */
module HttpText {
  import opened Wrappers

  const CRLF: string := "\r\n"

  /** `std::string::npos`, which is also the mark of a missing length. */
  const NPOS: nat := 0xFFFF_FFFF_FFFF_FFFF

  // ----- Searching

  predicate CrlfAt(s: string, p: nat) {
    p + 1 < |s| && s[p] == '\r' && s[p + 1] == '\n'
  }

  /** The first CRLF at or after `off`. */
  function FindCRLF(s: string, off: nat): (r: Option<nat>)
    requires off <= |s|
    ensures r.Some? ==> off <= r.value && CrlfAt(s, r.value)
    ensures r.Some? ==> forall i :: off <= i < r.value ==> !CrlfAt(s, i)
    ensures r.None? ==> forall i :: off <= i < |s| ==> !CrlfAt(s, i)
    decreases |s| - off
  {
    if CrlfAt(s, off) then Some(off)
    else if off < |s| then FindCRLF(s, off + 1)
    else None
  }

  predicate NoCRLF(s: string) {
    FindCRLF(s, 0).None?
  }

  function FindChar(s: string, c: char): (r: Option<nat>)
    ensures r.Some? ==> r.value < |s| && s[r.value] == c && c !in s[..r.value]
    ensures r.None? <==> c !in s
  {
    if s == "" then None
    else if s[0] == c then Some(0)
    else match FindChar(s[1..], c)
      case Some(p) => assert s[..p + 1] == [s[0]] + s[1..][..p]; Some(p + 1)
      case None => None
  }

  lemma {:induction false} FindCharIs(s: string, c: char, p: nat)
    requires p < |s| && s[p] == c && c !in s[..p]
    ensures FindChar(s, c) == Some(p)
  {
    if p > 0 {
      assert s[..p] == [s[0]] + s[1..][..p - 1];
      FindCharIs(s[1..], c, p - 1);
    }
  }

  lemma FindCharAfter(a: string, c: char, b: string)
    requires c !in a
    ensures FindChar(a + [c] + b, c) == Some(|a|)
  {
    var s := a + [c] + b;
    assert s[..|a|] == a;
    FindCharIs(s, c, |a|);
  }

  lemma FindCrlfAfter(a: string, b: string)
    requires NoCRLF(a + "\r")
    ensures FindCRLF(a + CRLF + b, 0) == Some(|a|)
  {
    var s := a + CRLF + b;
    assert CrlfAt(s, |a|);
    forall i | 0 <= i < |a| ensures !CrlfAt(s, i) {
      assert !CrlfAt(a + "\r", i);
    }
  }

  /** More text behind does not move a CRLF that was found. */
  lemma FindCrlfExtends(s: string, off: nat, more: string)
    requires off <= |s| && FindCRLF(s, off).Some?
    ensures FindCRLF(s + more, off) == FindCRLF(s, off)
  {
    var p := FindCRLF(s, off).value;
    assert CrlfAt(s + more, p);
    forall i | off <= i < p ensures !CrlfAt(s + more, i) {
      assert !CrlfAt(s, i);
    }
  }

  /** Searching from an offset is searching the rest. */
  lemma FindFrom(s: string, off: nat)
    requires off <= |s|
    ensures FindCRLF(s[off..], 0) == match FindCRLF(s, off) case None => None case Some(p) => Some(p - off)
  {
    assert forall i :: 0 <= i < |s| - off ==> (CrlfAt(s[off..], i) <==> CrlfAt(s, off + i));
    match FindCRLF(s, off)
    case None =>
    case Some(p) =>
      assert CrlfAt(s[off..], p - off);
  }

  // ----- Trimming and comparing

  /** White space of the classic locale. */
  predicate IsSpace(c: char) {
    c == ' ' || '\t' <= c <= '\r'
  }

  function TrimLeft(s: string): string {
    if s != "" && IsSpace(s[0]) then TrimLeft(s[1..]) else s
  }

  function TrimRight(s: string): string {
    if s != "" && IsSpace(s[|s| - 1]) then TrimRight(s[..|s| - 1]) else s
  }

  function Trim(s: string): string {
    TrimRight(TrimLeft(s))
  }

  predicate Trimmed(s: string) {
    s != "" ==> !IsSpace(s[0]) && !IsSpace(s[|s| - 1])
  }

  lemma TrimSpaceBefore(s: string)
    requires Trimmed(s)
    ensures Trim(s) == s && Trim(" " + s) == s
  {
    assert (" " + s)[1..] == s;
  }

  function Lower(c: char): char {
    if 'A' <= c <= 'Z' then (c as int + 32) as char else c
  }

  predicate IEquals(a: string, b: string) {
    |a| == |b| && forall i :: 0 <= i < |a| ==> Lower(a[i]) == Lower(b[i])
  }

  // ----- Splitting

  /** The two trimmed parts around the first `token`. */
  function Split2(s: string, token: char): Option<(string, string)> {
    match FindChar(s, token)
    case None => None
    case Some(p) => Some((Trim(s[..p]), Trim(s[p + 1..])))
  }

  method Split2Parts(str: string, token: char) returns (ok: bool, part1: string, part2: string)
    ensures if ok then Split2(str, token) == Some((part1, part2)) else Split2(str, token) == None
  {
    part1, part2 := "", "";
    var pos := FindChar(str, token);
    if pos.None? {
      return false, part1, part2;
    }
    part1 := str[..pos.value];
    part2 := str[pos.value + 1..];
    part1 := Trim(part1);
    part2 := Trim(part2);
    return true, part1, part2;
  }

  /** All pieces between the `token`s; at least one, possibly empty. */
  function Split(s: string, token: char): (r: seq<string>)
    ensures r != []
    decreases |s|
  {
    match FindChar(s, token)
    case None => [s]
    case Some(p) => [s[..p]] + Split(s[p + 1..], token)
  }

  function SkipBlanks(s: string): (r: string)
    ensures |r| <= |s|
  {
    if s != "" && s[0] == ' ' then SkipBlanks(s[1..]) else s
  }

  /** The pieces between runs of spaces. */
  function SplitBlanks(s: string): (r: seq<string>)
    ensures r != []
    decreases |s|
  {
    match FindChar(s, ' ')
    case None => [s]
    case Some(p) => [s[..p]] + SplitBlanks(SkipBlanks(s[p + 1..]))
  }

  lemma SplitOne(a: string, rest: string)
    requires ' ' !in a && rest != "" && rest[0] != ' '
    ensures SplitBlanks(a + " " + rest) == [a] + SplitBlanks(rest)
  {
    FindCharAfter(a, ' ', rest);
    var s := a + [' '] + rest;
    assert s == a + " " + rest && s[..|a|] == a && s[|a| + 1..] == rest;
    assert SkipBlanks(rest) == rest;
  }

  lemma SplitThree(a: string, b: string, c: string)
    requires ' ' !in a && ' ' !in b && ' ' !in c && b != "" && c != ""
    ensures SplitBlanks(a + " " + b + " " + c) == [a, b, c]
  {
    hide SplitBlanks;
    var rest := b + " " + c;
    assert a + " " + b + " " + c == a + " " + rest && rest[0] == b[0];
    SplitOne(a, rest);
    SplitOne(b, c);
    SplitNone(c);
    assert [a] + ([b] + [c]) == [a, b, c];
  }

  lemma SplitNone(s: string)
    requires ' ' !in s
    ensures SplitBlanks(s) == [s]
  {
  }

  // ----- `std::stoul`

  function DigitValue(c: char): nat {
    if '0' <= c <= '9' then c as int - '0' as int
    else if 'a' <= c <= 'z' then c as int - 'a' as int + 10
    else if 'A' <= c <= 'Z' then c as int - 'A' as int + 10
    else 36
  }

  /** The value of the leading digits of `s`, after the digits that gave `value`. */
  function LeadingNumber(s: string, base: nat, value: nat): nat {
    if s != "" && DigitValue(s[0]) < base then LeadingNumber(s[1..], base, value * base + DigitValue(s[0])) else value
  }

  /** What `std::stoul` returns for a 64-bit `unsigned long`; `None` is an exception. */
  function StoUl(str: string, base: nat): Option<nat> {
    var s := TrimLeft(str);
    var negative := s != "" && s[0] == '-';
    var t := if s != "" && (s[0] == '-' || s[0] == '+') then s[1..] else s;
    var prefixed := base == 16 && |t| >= 3 && t[0] == '0' && (t[1] == 'x' || t[1] == 'X') && DigitValue(t[2]) < 16;
    var digits := if prefixed then t[2..] else t;
    if digits == "" || DigitValue(digits[0]) >= base then None else
    var value := LeadingNumber(digits, base, 0);
    if value > NPOS then None
    else if negative && value > 0 then Some(NPOS + 1 - value)
    else Some(value)
  }
}
