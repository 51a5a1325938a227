/** JSON values and their order. */
module JsonValue {

  datatype Double = Finite(x: real) | PosInfinity | NegInfinity | NaN

  datatype Member = Member(name: string, value: Value)

  /** The members of an object are in the order of its map: by name. */
  datatype Value =
    | Null
    | Int(i: int)
    | UInt(u: int)
    | Real(d: Double)
    | Str(s: string)
    | Bool(b: bool)
    | Arr(items: seq<Value>)
    | Obj(members: seq<Member>)

  function Size(v: Value): nat {
    match v
    case Arr(items) => 1 + SizeOfItems(items)
    case Obj(members) => 1 + SizeOfMembers(members)
    case _ => 1
  }

  function SizeOfItems(items: seq<Value>): nat {
    if items == [] then 0 else 1 + Size(items[0]) + SizeOfItems(items[1..])
  }

  function SizeOfMembers(members: seq<Member>): nat {
    if members == [] then 0 else 1 + Size(members[0].value) + SizeOfMembers(members[1..])
  }

  // ----- operator< and operator==

  /** The sign of `memcmp` on the first `n` bytes. */
  function MemCmp(a: string, b: string, n: nat): int
    requires n <= |a| && n <= |b|
    decreases n
  {
    if n == 0 then 0
    else if a[0] < b[0] then -1
    else if a[0] > b[0] then 1
    else MemCmp(a[1..], b[1..], n - 1)
  }

  predicate BytesLess(a: string, b: string) {
    var minLen := if |a| < |b| then |a| else |b|;
    var comp := MemCmp(a, b, minLen);
    if comp < 0 then true else if comp > 0 then false else |a| < |b|
  }

  predicate DoubleLess(a: Double, b: Double) {
    match (a, b)
    case (NaN, _) => false
    case (_, NaN) => false
    case (Finite(x), Finite(y)) => x < y
    case (NegInfinity, _) => !b.NegInfinity?
    case (_, PosInfinity) => !a.PosInfinity?
    case _ => false
  }

  predicate DoubleEqual(a: Double, b: Double) {
    a == b && !a.NaN?
  }

  function TypeOf(v: Value): int {
    match v
    case Null => 0
    case Int(_) => 1
    case UInt(_) => 2
    case Real(_) => 3
    case Str(_) => 4
    case Bool(_) => 5
    case Arr(_) => 6
    case Obj(_) => 7
  }

  /** Conversion of a 64-bit difference to a 32-bit `int`. */
  function ToInt32(d: int): int {
    var m := d % 0x1_0000_0000;
    if m >= 0x8000_0000 then m - 0x1_0000_0000 else m
  }

  /** The entries of an array's map. Entries at the same place have the same index, so the key never decides. */
  function Entries(items: seq<Value>): (m: seq<Member>)
    ensures |m| == |items| && SizeOfMembers(m) == SizeOfItems(items)
    ensures forall i :: 0 <= i < |m| ==> m[i] == Member("", items[i])
  {
    if items == [] then [] else [Member("", items[0])] + Entries(items[1..])
  }

  predicate Less(v: Value, w: Value)
    decreases Size(v) + Size(w), 1
  {
    if TypeOf(v) != TypeOf(w) then TypeOf(v) < TypeOf(w)
    else match v
      case Null => false
      case Int(i) => i < w.i
      case UInt(u) => u < w.u
      case Real(d) => DoubleLess(d, w.d)
      case Str(s) => BytesLess(s, w.s)
      case Bool(b) => !b && w.b
      case Arr(items) => MapLess(Entries(items), Entries(w.items))
      case Obj(members) => MapLess(members, w.members)
  }

  /** Size first, then entry by entry. */
  predicate MapLess(a: seq<Member>, b: seq<Member>)
    decreases SizeOfMembers(a) + SizeOfMembers(b), 2
  {
    var delta := ToInt32(|a| - |b|);
    if delta != 0 then delta < 0 else Lexicographic(a, b)
  }

  predicate Lexicographic(a: seq<Member>, b: seq<Member>)
    decreases SizeOfMembers(a) + SizeOfMembers(b), 1, |a|
  {
    if b == [] then false
    else if a == [] then true
    else if MemberLess(a[0], b[0]) then true
    else if MemberLess(b[0], a[0]) then false
    else Lexicographic(a[1..], b[1..])
  }

  predicate MemberLess(a: Member, b: Member)
    decreases Size(a.value) + Size(b.value), 2
  {
    BytesLess(a.name, b.name) || (!BytesLess(b.name, a.name) && Less(a.value, b.value))
  }

  predicate Equal(v: Value, w: Value)
    decreases v, 1
  {
    if TypeOf(v) != TypeOf(w) then false
    else match v
      case Null => true
      case Int(i) => i == w.i
      case UInt(u) => u == w.u
      case Real(d) => DoubleEqual(d, w.d)
      case Str(s) => s == w.s
      case Bool(b) => b == w.b
      case Arr(items) => |items| == |w.items| && forall k :: 0 <= k < |items| ==> Equal(items[k], w.items[k])
      case Obj(members) =>
        && |members| == |w.members|
        && forall k :: 0 <= k < |members| ==>
                         members[k].name == w.members[k].name && Equal(members[k].value, w.members[k].value)
  }

  // ----- The values the order is meant for

  const MAX_COUNT: int := 0x8000_0000

  /** No NaN anywhere, and no container with two thousand million entries. */
  predicate Orderly(v: Value) {
    match v
    case Real(d) => !d.NaN?
    case Arr(items) => |items| < MAX_COUNT && forall k :: 0 <= k < |items| ==> Orderly(items[k])
    case Obj(members) => |members| < MAX_COUNT && forall k :: 0 <= k < |members| ==> Orderly(members[k].value)
    case _ => true
  }

  predicate OrderlyMembers(a: seq<Member>) {
    |a| < MAX_COUNT && forall k :: 0 <= k < |a| ==> Orderly(a[k].value)
  }

  // ----- Bytes

  lemma {:induction false} MemCmpSigns(a: string, b: string, n: nat)
    requires n <= |a| && n <= |b|
    ensures MemCmp(a, b, n) == -MemCmp(b, a, n)
    ensures MemCmp(a, b, n) == 0 <==> a[..n] == b[..n]
    decreases n
  {
    if n > 0 {
      MemCmpSigns(a[1..], b[1..], n - 1);
      assert a[..n] == [a[0]] + a[1..][..n - 1] && b[..n] == [b[0]] + b[1..][..n - 1];
      if a[0] != b[0] {
        assert a[..n][0] != b[..n][0];
      } else if a[..n] == b[..n] {
        assert a[1..][..n - 1] == a[..n][1..] && b[1..][..n - 1] == b[..n][1..];
      }
    }
  }

  lemma BytesTotal(a: string, b: string)
    ensures BytesLess(a, b) || BytesLess(b, a) || a == b
    ensures !(BytesLess(a, b) && BytesLess(b, a))
    ensures !BytesLess(a, a)
  {
    var n := if |a| < |b| then |a| else |b|;
    MemCmpSigns(a, b, n);
    MemCmpSigns(a, a, |a|);
    assert a == a[..|a|] && b == b[..|b|];
  }

  /** Comparing the common prefix first is the same as comparing byte by byte. */
  lemma BytesLessStep(a: string, b: string)
    requires a != "" && b != ""
    ensures BytesLess(a, b) <==> a[0] < b[0] || (a[0] == b[0] && BytesLess(a[1..], b[1..]))
  {
  }

  lemma {:induction false} BytesTransitive(a: string, b: string, c: string)
    requires BytesLess(a, b) && BytesLess(b, c)
    ensures BytesLess(a, c)
    decreases |a|
  {
    if a != "" && b != "" && c != "" {
      BytesLessStep(a, b);
      BytesLessStep(b, c);
      BytesLessStep(a, c);
      if a[0] == b[0] && b[0] == c[0] {
        BytesTransitive(a[1..], b[1..], c[1..]);
      }
    }
  }

  // ----- The order is total and strict, and `==` is its third case

  lemma {:induction false} Trichotomy(v: Value, w: Value)
    requires Orderly(v) && Orderly(w)
    ensures Less(v, w) || Less(w, v) || v == w
    ensures !(Less(v, w) && Less(w, v))
    ensures v == w ==> !Less(v, w)
    decreases Size(v) + Size(w), 1
  {
    if TypeOf(v) == TypeOf(w) {
      match v
      case Str(s) => BytesTotal(s, w.s);
      case Arr(items) =>
        MapTrichotomy(Entries(items), Entries(w.items));
        EntriesInjective(items, w.items);
      case Obj(members) => MapTrichotomy(members, w.members);
      case _ =>
    }
  }

  lemma EntriesInjective(a: seq<Value>, b: seq<Value>)
    ensures Entries(a) == Entries(b) ==> a == b
  {
    if Entries(a) == Entries(b) {
      forall i | 0 <= i < |a| ensures a[i] == b[i] {
        assert Entries(a)[i] == Entries(b)[i];
      }
    }
  }

  lemma {:induction false} MapTrichotomy(a: seq<Member>, b: seq<Member>)
    requires OrderlyMembers(a) && OrderlyMembers(b)
    ensures MapLess(a, b) || MapLess(b, a) || a == b
    ensures !(MapLess(a, b) && MapLess(b, a))
    ensures a == b ==> !MapLess(a, b)
    decreases SizeOfMembers(a) + SizeOfMembers(b), 2
  {
    if |a| == |b| {
      LexTrichotomy(a, b);
    }
  }

  lemma {:induction false} LexTrichotomy(a: seq<Member>, b: seq<Member>)
    requires |a| == |b| && OrderlyMembers(a) && OrderlyMembers(b)
    ensures Lexicographic(a, b) || Lexicographic(b, a) || a == b
    ensures !(Lexicographic(a, b) && Lexicographic(b, a))
    ensures a == b ==> !Lexicographic(a, b)
    decreases SizeOfMembers(a) + SizeOfMembers(b), 1, |a|
  {
    if a != [] {
      BytesTotal(a[0].name, b[0].name);
      Trichotomy(a[0].value, b[0].value);
      LexTrichotomy(a[1..], b[1..]);
      assert a == [a[0]] + a[1..] && b == [b[0]] + b[1..];
    }
  }

  lemma {:induction false} Transitive(u: Value, v: Value, w: Value)
    requires Orderly(u) && Orderly(v) && Orderly(w)
    requires Less(u, v) && Less(v, w)
    ensures Less(u, w)
    decreases Size(u) + Size(v) + Size(w), 1
  {
    if TypeOf(u) == TypeOf(v) == TypeOf(w) {
      match u
      case Str(s) => BytesTransitive(s, v.s, w.s);
      case Arr(items) => MapTransitive(Entries(items), Entries(v.items), Entries(w.items));
      case Obj(members) => MapTransitive(members, v.members, w.members);
      case _ =>
    }
  }

  lemma {:induction false} MapTransitive(a: seq<Member>, b: seq<Member>, c: seq<Member>)
    requires OrderlyMembers(a) && OrderlyMembers(b) && OrderlyMembers(c)
    requires MapLess(a, b) && MapLess(b, c)
    ensures MapLess(a, c)
    decreases SizeOfMembers(a) + SizeOfMembers(b) + SizeOfMembers(c), 2
  {
    if |a| == |b| == |c| {
      LexTransitive(a, b, c);
    }
  }

  lemma {:induction false} LexTransitive(a: seq<Member>, b: seq<Member>, c: seq<Member>)
    requires |a| == |b| == |c| && OrderlyMembers(a) && OrderlyMembers(b) && OrderlyMembers(c)
    requires Lexicographic(a, b) && Lexicographic(b, c)
    ensures Lexicographic(a, c)
    decreases SizeOfMembers(a) + SizeOfMembers(b) + SizeOfMembers(c), 1, |a|
  {
    MemberTrichotomy(a[0], b[0]);
    MemberTrichotomy(b[0], c[0]);
    if MemberLess(a[0], b[0]) && MemberLess(b[0], c[0]) {
      MemberTransitive(a[0], b[0], c[0]);
    } else if a[0] == b[0] == c[0] {
      LexTransitive(a[1..], b[1..], c[1..]);
    }
  }

  lemma MemberTrichotomy(a: Member, b: Member)
    requires Orderly(a.value) && Orderly(b.value)
    ensures MemberLess(a, b) || MemberLess(b, a) || a == b
    ensures !(MemberLess(a, b) && MemberLess(b, a))
    ensures a == b ==> !MemberLess(a, b)
  {
    BytesTotal(a.name, b.name);
    Trichotomy(a.value, b.value);
  }

  lemma MemberTransitive(a: Member, b: Member, c: Member)
    requires Orderly(a.value) && Orderly(b.value) && Orderly(c.value)
    requires MemberLess(a, b) && MemberLess(b, c)
    ensures MemberLess(a, c)
    decreases Size(a.value) + Size(b.value) + Size(c.value), 2
  {
    BytesTotal(a.name, b.name);
    BytesTotal(b.name, c.name);
    BytesTotal(a.name, c.name);
    if BytesLess(a.name, b.name) && BytesLess(b.name, c.name) {
      BytesTransitive(a.name, b.name, c.name);
    } else if a.name == b.name == c.name {
      Transitive(a.value, b.value, c.value);
    }
  }

  /** `operator==` is equality of values, as long as there is no NaN. */
  lemma {:induction false} EqualIsEquality(v: Value, w: Value)
    requires Orderly(v)
    ensures Equal(v, w) <==> v == w
    decreases v
  {
    if TypeOf(v) == TypeOf(w) {
      match v
      case Arr(items) =>
        forall k | 0 <= k < |items| && k < |w.items| ensures Equal(items[k], w.items[k]) <==> items[k] == w.items[k] {
          EqualIsEquality(items[k], w.items[k]);
        }
        assert Equal(v, w) ==> items == w.items;
      case Obj(members) =>
        forall k | 0 <= k < |members| && k < |w.members|
          ensures Equal(members[k].value, w.members[k].value) <==> members[k].value == w.members[k].value
        {
          EqualIsEquality(members[k].value, w.members[k].value);
        }
        assert Equal(v, w) ==> members == w.members;
      case _ =>
    }
  }

  function Compare(v: Value, w: Value): int {
    if Less(v, w) then -1 else if Less(w, v) then 1 else 0
  }

  /** `compare` is the sign of a strict total order whose zero is `operator==`. */
  lemma CompareIsTotalOrder(u: Value, v: Value, w: Value)
    requires Orderly(u) && Orderly(v) && Orderly(w)
    ensures Compare(v, w) == 0 <==> Equal(v, w)
    ensures Compare(v, w) == -Compare(w, v)
    ensures Compare(u, v) < 0 && Compare(v, w) < 0 ==> Compare(u, w) < 0
  {
    Trichotomy(v, w);
    EqualIsEquality(v, w);
    if Less(u, v) && Less(v, w) {
      Transitive(u, v, w);
    }
  }

  /** A NaN breaks it: the value is not less than itself, and not equal to itself either. */
  lemma NaNIsIncomparable()
    ensures var nan := Real(NaN); !Less(nan, nan) && !Equal(nan, nan) && Compare(nan, nan) == 0
  {
  }
}
