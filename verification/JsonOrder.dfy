/**
 The comparison of values: by type, then by content; containers by size first and
 then member by member in the order of the underlying map.
 */
module JsonOrder {
  import opened Bytes
  import opened JsonValue

  const TWO31: int := 0x8000_0000
  const TWO32: int := 0x1_0000_0000

  function Rank(v: Value): int {
    match v
    case Null => 0
    case Int(_) => 1
    case UInt(_) => 2
    case Real(_) => 3
    case Str(_) => 4
    case Bool(_) => 5
    case Array(_) => 6
    case Object(_) => 7
  }

  /** `int(m - n)`: the difference of the sizes cut down to 32 signed bits. */
  function SizeDelta(m: nat, n: nat): int {
    (m - n + TWO31) % TWO32 - TWO31
  }

  /** `<` and `==` of doubles; NaN is neither less than nor equal to anything. */
  predicate DoubleLess(a: Double, b: Double) {
    match (a, b)
    case (Finite(x), Finite(y)) => x < y
    case (Finite(_), PosInf) => true
    case (NegInf, Finite(_)) => true
    case (NegInf, PosInf) => true
    case (_, _) => false
  }

  predicate DoubleEqual(a: Double, b: Double) {
    a == b && !a.NaN?
  }

  // ---------------------------------------------------------------- the two operators

  function Weight(v: Value): (n: nat)
    ensures n >= 1
  {
    match v
    case Array(items) => 1 + ItemsWeight(items)
    case Object(members) => 1 + MembersWeight(members)
    case _ => 1
  }

  function ItemsWeight(items: seq<Value>): nat {
    if items == [] then 0 else Weight(items[0]) + ItemsWeight(items[1..])
  }

  function MembersWeight(members: seq<Member>): nat {
    if members == [] then 0 else Weight(members[0].value) + MembersWeight(members[1..])
  }

  predicate Less(a: Value, b: Value)
    decreases Weight(a) + Weight(b), 0
  {
    if Rank(a) != Rank(b) then Rank(a) < Rank(b)
    else
      match a
      case Null => false
      case Int(i) => i < b.i
      case UInt(u) => u < b.u
      case Real(d) => DoubleLess(d, b.d)
      case Bool(x) => !x && b.b
      case Str(s) => NameLess(s, b.s)
      case Array(items) =>
        var delta := SizeDelta(|items|, |b.items|);
        if delta != 0 then delta < 0 else ItemsLess(items, b.items)
      case Object(members) =>
        var delta := SizeDelta(|members|, |b.members|);
        if delta != 0 then delta < 0 else MembersLess(members, b.members)
  }

  /** Lexicographic order of the elements; the indices agree. */
  predicate ItemsLess(a: seq<Value>, b: seq<Value>)
    decreases ItemsWeight(a) + ItemsWeight(b), 1
  {
    if b == [] then false
    else if a == [] then true
    else if Less(a[0], b[0]) then true
    else if Less(b[0], a[0]) then false
    else ItemsLess(a[1..], b[1..])
  }

  predicate MemberLess(x: Member, y: Member)
    decreases Weight(x.value) + Weight(y.value), 1
  {
    NameLess(x.name, y.name) || (!NameLess(y.name, x.name) && Less(x.value, y.value))
  }

  /** Lexicographic order of the pairs of name and value. */
  predicate MembersLess(a: seq<Member>, b: seq<Member>)
    decreases MembersWeight(a) + MembersWeight(b), 2
  {
    if b == [] then false
    else if a == [] then true
    else if MemberLess(a[0], b[0]) then true
    else if MemberLess(b[0], a[0]) then false
    else MembersLess(a[1..], b[1..])
  }

  predicate Equal(a: Value, b: Value)
    decreases a
  {
    Rank(a) == Rank(b) &&
    match a
    case Null => true
    case Int(i) => i == b.i
    case UInt(u) => u == b.u
    case Real(d) => DoubleEqual(d, b.d)
    case Bool(x) => x == b.b
    case Str(s) => NameEqual(s, b.s)
    case Array(items) => |items| == |b.items| && ItemsEqual(items, b.items)
    case Object(members) => |members| == |b.members| && MembersEqual(members, b.members)
  }

  predicate ItemsEqual(a: seq<Value>, b: seq<Value>)
    requires |a| == |b|
    decreases a
  {
    a == [] || (Equal(a[0], b[0]) && ItemsEqual(a[1..], b[1..]))
  }

  predicate MembersEqual(a: seq<Member>, b: seq<Member>)
    requires |a| == |b|
    decreases a
  {
    a == [] || (NameEqual(a[0].name, b[0].name) && Equal(a[0].value, b[0].value) && MembersEqual(a[1..], b[1..]))
  }

  // ---------------------------------------------------------------- equality

  predicate NanFree(v: Value)
    decreases v
  {
    match v
    case Real(d) => !d.NaN?
    case Array(items) => ItemsNanFree(items)
    case Object(members) => MembersNanFree(members)
    case _ => true
  }

  predicate ItemsNanFree(items: seq<Value>)
    decreases items
  {
    items == [] || (NanFree(items[0]) && ItemsNanFree(items[1..]))
  }

  predicate MembersNanFree(members: seq<Member>)
    decreases members
  {
    members == [] || (NanFree(members[0].value) && MembersNanFree(members[1..]))
  }

  /** The operator finds two values equal just when they are the same and hold no NaN. */
  lemma {:induction false} EqualIsEquality(a: Value, b: Value)
    ensures Equal(a, b) <==> a == b && NanFree(a)
    decreases a, 1
  {
    if Rank(a) == Rank(b) {
      match a {
        case Str(s) => NameEqualIsEquality(s, b.s);
        case Array(items) =>
          if |items| == |b.items| {
            ItemsEqualIsEquality(items, b.items);
          }
        case Object(members) =>
          if |members| == |b.members| {
            MembersEqualIsEquality(members, b.members);
          }
        case Null | Int(_) | UInt(_) | Real(_) | Bool(_) =>
      }
    }
  }

  lemma {:induction false} ItemsEqualIsEquality(a: seq<Value>, b: seq<Value>)
    requires |a| == |b|
    ensures ItemsEqual(a, b) <==> a == b && ItemsNanFree(a)
    decreases a
  {
    if a != [] {
      EqualIsEquality(a[0], b[0]);
      ItemsEqualIsEquality(a[1..], b[1..]);
      assert a == [a[0]] + a[1..] && b == [b[0]] + b[1..];
    }
  }

  lemma {:induction false} MembersEqualIsEquality(a: seq<Member>, b: seq<Member>)
    requires |a| == |b|
    ensures MembersEqual(a, b) <==> a == b && MembersNanFree(a)
    decreases a
  {
    if a != [] {
      NameEqualIsEquality(a[0].name, b[0].name);
      EqualIsEquality(a[0].value, b[0].value);
      MembersEqualIsEquality(a[1..], b[1..]);
      assert a == [a[0]] + a[1..] && b == [b[0]] + b[1..];
    }
  }

  // ---------------------------------------------------------------- the order

  /** Containers of fewer than 2^31 members, and no NaN. */
  predicate Comparable(v: Value)
    decreases v
  {
    match v
    case Real(d) => !d.NaN?
    case Array(items) => |items| < TWO31 && ItemsComparable(items)
    case Object(members) => |members| < TWO31 && MembersComparable(members)
    case _ => true
  }

  predicate ItemsComparable(items: seq<Value>)
    decreases items
  {
    items == [] || (Comparable(items[0]) && ItemsComparable(items[1..]))
  }

  predicate MembersComparable(members: seq<Member>)
    decreases members
  {
    members == [] || (Comparable(members[0].value) && MembersComparable(members[1..]))
  }

  /** Below 2^31 the cut does not change the difference of sizes. */
  lemma DeltaIsDifference(m: nat, n: nat)
    requires m < TWO31 && n < TWO31
    ensures SizeDelta(m, n) == m - n
  {
  }

  /** No value is less than itself, none is both less and greater, and unequal values
      are one or the other. */
  lemma {:induction false} LessIsTotal(a: Value, b: Value)
    requires Comparable(a) && Comparable(b)
    ensures !(Less(a, b) && Less(b, a))
    ensures Less(a, b) || Less(b, a) <==> a != b
    decreases Weight(a) + Weight(b), 0
  {
    if Rank(a) == Rank(b) {
      match a {
        case Str(s) => NameTrichotomy(s, b.s);
        case Array(items) =>
          DeltaIsDifference(|items|, |b.items|);
          DeltaIsDifference(|b.items|, |items|);
          ItemsLessIsTotal(items, b.items);
        case Object(members) =>
          DeltaIsDifference(|members|, |b.members|);
          DeltaIsDifference(|b.members|, |members|);
          MembersLessIsTotal(members, b.members);
        case Null | Int(_) | UInt(_) | Real(_) | Bool(_) =>
      }
    }
  }

  lemma {:induction false} ItemsLessIsTotal(a: seq<Value>, b: seq<Value>)
    requires ItemsComparable(a) && ItemsComparable(b)
    ensures !(ItemsLess(a, b) && ItemsLess(b, a))
    ensures ItemsLess(a, b) || ItemsLess(b, a) <==> a != b
    decreases ItemsWeight(a) + ItemsWeight(b), 1
  {
    if a != [] && b != [] {
      LessIsTotal(a[0], b[0]);
      ItemsLessIsTotal(a[1..], b[1..]);
      assert a == [a[0]] + a[1..] && b == [b[0]] + b[1..];
    }
  }

  lemma MemberLessIsTotal(x: Member, y: Member)
    requires Comparable(x.value) && Comparable(y.value)
    ensures !(MemberLess(x, y) && MemberLess(y, x))
    ensures MemberLess(x, y) || MemberLess(y, x) <==> x != y
    decreases Weight(x.value) + Weight(y.value), 1
  {
    NameTrichotomy(x.name, y.name);
    LessIsTotal(x.value, y.value);
  }

  lemma {:induction false} MembersLessIsTotal(a: seq<Member>, b: seq<Member>)
    requires MembersComparable(a) && MembersComparable(b)
    ensures !(MembersLess(a, b) && MembersLess(b, a))
    ensures MembersLess(a, b) || MembersLess(b, a) <==> a != b
    decreases MembersWeight(a) + MembersWeight(b), 2
  {
    if a != [] && b != [] {
      MemberLessIsTotal(a[0], b[0]);
      MembersLessIsTotal(a[1..], b[1..]);
      assert a == [a[0]] + a[1..] && b == [b[0]] + b[1..];
    }
  }

  lemma {:induction false} LessIsTransitive(a: Value, b: Value, c: Value)
    requires Comparable(a) && Comparable(b) && Comparable(c)
    requires Less(a, b) && Less(b, c)
    ensures Less(a, c)
    decreases Weight(a) + Weight(b) + Weight(c), 0
  {
    if Rank(a) == Rank(b) == Rank(c) {
      match a {
        case Str(s) => NameTransitive(s, b.s, c.s);
        case Array(items) =>
          SizesChain(|items|, |b.items|, |c.items|);
          if |items| == |b.items| == |c.items| {
            ItemsTransitive(items, b.items, c.items);
          }
        case Object(members) =>
          SizesChain(|members|, |b.members|, |c.members|);
          if |members| == |b.members| == |c.members| {
            MembersTransitive(members, b.members, c.members);
          }
        case Null | Int(_) | UInt(_) | Real(_) | Bool(_) =>
      }
    }
  }

  lemma SizesChain(l: nat, m: nat, n: nat)
    requires l < TWO31 && m < TWO31 && n < TWO31
    ensures SizeDelta(l, m) == l - m && SizeDelta(m, n) == m - n && SizeDelta(l, n) == l - n
  {
  }

  lemma {:induction false} ItemsTransitive(a: seq<Value>, b: seq<Value>, c: seq<Value>)
    requires ItemsComparable(a) && ItemsComparable(b) && ItemsComparable(c)
    requires ItemsLess(a, b) && ItemsLess(b, c)
    ensures ItemsLess(a, c)
    decreases ItemsWeight(a) + ItemsWeight(b) + ItemsWeight(c), 1
  {
    if a != [] {
      LessIsTotal(a[0], b[0]);
      LessIsTotal(b[0], c[0]);
      LessIsTotal(a[0], c[0]);
      if Less(a[0], b[0]) && Less(b[0], c[0]) {
        LessIsTransitive(a[0], b[0], c[0]);
      } else if a[0] == b[0] == c[0] {
        ItemsTransitive(a[1..], b[1..], c[1..]);
      }
    }
  }

  lemma MemberTransitive(x: Member, y: Member, z: Member)
    requires Comparable(x.value) && Comparable(y.value) && Comparable(z.value)
    requires MemberLess(x, y) && MemberLess(y, z)
    ensures MemberLess(x, z)
    decreases Weight(x.value) + Weight(y.value) + Weight(z.value), 1
  {
    NameTrichotomy(x.name, y.name);
    NameTrichotomy(y.name, z.name);
    NameTrichotomy(x.name, z.name);
    if NameLess(x.name, y.name) && NameLess(y.name, z.name) {
      NameTransitive(x.name, y.name, z.name);
    } else if x.name == y.name == z.name {
      LessIsTransitive(x.value, y.value, z.value);
    }
  }

  lemma {:induction false} MembersTransitive(a: seq<Member>, b: seq<Member>, c: seq<Member>)
    requires MembersComparable(a) && MembersComparable(b) && MembersComparable(c)
    requires MembersLess(a, b) && MembersLess(b, c)
    ensures MembersLess(a, c)
    decreases MembersWeight(a) + MembersWeight(b) + MembersWeight(c), 2
  {
    if a != [] {
      MemberLessIsTotal(a[0], b[0]);
      MemberLessIsTotal(b[0], c[0]);
      MemberLessIsTotal(a[0], c[0]);
      if MemberLess(a[0], b[0]) && MemberLess(b[0], c[0]) {
        MemberTransitive(a[0], b[0], c[0]);
      } else if a[0] == b[0] == c[0] {
        MembersTransitive(a[1..], b[1..], c[1..]);
      }
    }
  }

  // ---------------------------------------------------------------- where it is no order

  /** Sizes clash just when they are an odd number of times 2^31 apart. */
  lemma ClashingSizes(m: nat, n: nat)
    ensures SizeDelta(m, n) < 0 && SizeDelta(n, m) < 0 <==> (m - n) % TWO32 == TWO31
    ensures SizeDelta(m, n) == 0 <==> (m - n) % TWO32 == 0
    ensures SizeDelta(m, n) == 0 <==> SizeDelta(n, m) == 0
    ensures SizeDelta(m, n) < 0 || SizeDelta(n, m) < 0 || SizeDelta(m, n) == 0
  {
  }

  /** Arrays of comparable elements, of any size, are each less than the other exactly
      when their sizes are 2^31 apart modulo 2^32; unequal ones always are comparable. */
  lemma ArraysClashExactly(a: seq<Value>, b: seq<Value>)
    requires ItemsComparable(a) && ItemsComparable(b)
    ensures Less(Array(a), Array(b)) && Less(Array(b), Array(a)) <==> (|a| - |b|) % TWO32 == TWO31
    ensures Less(Array(a), Array(b)) || Less(Array(b), Array(a)) <==> a != b
  {
    hide SizeDelta, ItemsLess;
    ClashingSizes(|a|, |b|);
    ItemsLessIsTotal(a, b);
    DeltaOfSame(|a|);
  }

  lemma DeltaOfSame(n: nat)
    ensures SizeDelta(n, n) == 0
  {
  }

  /** The same of objects. */
  lemma ObjectsClashExactly(a: seq<Member>, b: seq<Member>)
    requires MembersComparable(a) && MembersComparable(b)
    ensures Less(Object(a), Object(b)) && Less(Object(b), Object(a)) <==> (|a| - |b|) % TWO32 == TWO31
    ensures Less(Object(a), Object(b)) || Less(Object(b), Object(a)) <==> a != b
  {
    hide SizeDelta, MembersLess;
    ClashingSizes(|a|, |b|);
    MembersLessIsTotal(a, b);
    DeltaOfSame(|a|);
  }

  /** Two arrays whose sizes are 2^31 apart clash. */
  lemma FarSizesClash(a: seq<Value>, b: seq<Value>)
    requires |b| == |a| + TWO31
    ensures Less(Array(a), Array(b)) && Less(Array(b), Array(a))
  {
  }

  /** With sizes that decide, a chain of two arrays fails to be transitive exactly when
      the two differences of sizes leave 32 bits together. */
  lemma ArraysChainExactly(a: seq<Value>, b: seq<Value>, c: seq<Value>)
    requires SizeDelta(|a|, |b|) < 0 && SizeDelta(|b|, |c|) < 0 && SizeDelta(|a|, |c|) != 0
    ensures Less(Array(a), Array(b)) && Less(Array(b), Array(c))
    ensures Less(Array(a), Array(c)) <==> SizeDelta(|a|, |b|) + SizeDelta(|b|, |c|) >= -TWO31
  {
    hide ItemsLess;
    SizesChainExactly(|a|, |b|, |c|);
  }

  lemma SizesChainExactly(l: nat, m: nat, n: nat)
    requires SizeDelta(l, m) < 0 && SizeDelta(m, n) < 0
    ensures SizeDelta(l, n) < 0 <==> SizeDelta(l, m) + SizeDelta(m, n) >= -TWO31
  {
  }

  /** Sizes one and a half 2^30 apart each are such a chain. */
  lemma FarChainBreaks(a: seq<Value>, b: seq<Value>, c: seq<Value>)
    requires |b| == |a| + 0x6000_0000 && |c| == |b| + 0x6000_0000
    ensures Less(Array(a), Array(b)) && Less(Array(b), Array(c)) && !Less(Array(a), Array(c))
  {
    ArraysChainExactly(a, b, c);
  }

  // ---------------------------------------------------------------- which way it goes

  /** `a` and `b` agree in their first `k` bytes, and there `a` ends or has the smaller byte. */
  predicate FirstDifference(a: bytes, b: bytes, k: nat) {
    k <= |a| && k < |b| && a[..k] == b[..k] && (k < |a| ==> a[k] < b[k])
  }

  /** Names, and strings, are ordered by the first byte in which they differ; a proper
      prefix comes first. */
  lemma {:induction false} NameLessMeans(a: bytes, b: bytes)
    ensures NameLess(a, b) <==> exists k :: 0 <= k <= |a| && FirstDifference(a, b, k)
  {
    if a == [] || b == [] || a[0] != b[0] {
      FirstByte(a, b);
    } else {
      NameLessTail(a, b);
      NameLessMeans(a[1..], b[1..]);
      if k :| 0 <= k <= |a| && FirstDifference(a, b, k) {
        DifferenceShifts(a, b, k - 1);
      }
      if k :| 0 <= k <= |a[1..]| && FirstDifference(a[1..], b[1..], k) {
        DifferenceShifts(a, b, k);
      }
    }
  }

  lemma FirstByte(a: bytes, b: bytes)
    requires a == [] || b == [] || a[0] != b[0]
    ensures NameLess(a, b) <==> FirstDifference(a, b, 0)
    ensures forall k :: 0 < k <= |a| ==> !FirstDifference(a, b, k)
  {
    forall k | 0 < k <= |a| ensures !FirstDifference(a, b, k) {
      if k < |b| {
        assert a[..k][0] == a[0] && b[..k][0] == b[0];
      }
    }
  }

  lemma DifferenceShifts(a: bytes, b: bytes, k: nat)
    requires a != [] && b != [] && a[0] == b[0]
    ensures FirstDifference(a, b, k + 1) <==> FirstDifference(a[1..], b[1..], k)
  {
    if k + 1 <= |a| && k + 1 <= |b| {
      assert a[..k + 1] == [a[0]] + a[1..][..k] && b[..k + 1] == [b[0]] + b[1..][..k];
      assert a[..k + 1][1..] == a[1..][..k] && b[..k + 1][1..] == b[1..][..k];
    }
  }

  /** The kinds come in this order. */
  lemma KindsInOrder(i: int, u: nat, d: Double, s: bytes, b: bool, items: seq<Value>, members: seq<Member>)
    ensures Less(Null, Int(i)) && Less(Int(i), UInt(u)) && Less(UInt(u), Real(d)) && Less(Real(d), Str(s))
    ensures Less(Str(s), Bool(b)) && Less(Bool(b), Array(items)) && Less(Array(items), Object(members))
  {
  }

  /** Within a kind numbers go upwards, false comes before true, and strings go as names. */
  lemma ScalarsInOrder(i: int, j: int, u: nat, v: nat, x: real, y: real, s: bytes, t: bytes)
    ensures Less(Int(i), Int(j)) <==> i < j
    ensures Less(UInt(u), UInt(v)) <==> u < v
    ensures Less(Real(Finite(x)), Real(Finite(y))) <==> x < y
    ensures Less(Real(NegInf), Real(Finite(x))) && Less(Real(Finite(x)), Real(PosInf))
    ensures Less(Bool(false), Bool(true))
    ensures Less(Str(s), Str(t)) <==> exists k :: 0 <= k <= |s| && FirstDifference(s, t, k)
  {
    NameLessMeans(s, t);
  }

  /** Of two containers the smaller comes first. */
  lemma SmallerFirst(a: seq<Value>, b: seq<Value>, x: seq<Member>, y: seq<Member>)
    requires |b| < TWO31 && |y| < TWO31
    ensures |a| < |b| ==> Less(Array(a), Array(b))
    ensures |x| < |y| ==> Less(Object(x), Object(y))
  {
  }

  /** Of two arrays of one size the first elements that differ decide. */
  lemma {:induction false} FirstElementDecides(a: seq<Value>, b: seq<Value>, k: nat)
    requires |a| == |b| && k < |a| && a[..k] == b[..k] && Less(a[k], b[k])
    requires ItemsComparable(a) && ItemsComparable(b)
    ensures ItemsLess(a, b) && Less(Array(a), Array(b))
    decreases k
  {
    if k > 0 {
      assert a[0] == a[..k][0] == b[..k][0] == b[0];
      assert a[1..][..k - 1] == a[..k][1..] == b[..k][1..] == b[1..][..k - 1];
      LessIsTotal(a[0], b[0]);
      FirstElementDecides(a[1..], b[1..], k - 1);
    }
  }

  /** Of two objects of one size the first members that differ do: their names, and
      their values where the names are the same. */
  lemma {:induction false} FirstMemberDecides(a: seq<Member>, b: seq<Member>, k: nat)
    requires |a| == |b| && k < |a| && a[..k] == b[..k]
    requires NameLess(a[k].name, b[k].name) || (a[k].name == b[k].name && Less(a[k].value, b[k].value))
    requires MembersComparable(a) && MembersComparable(b)
    ensures MembersLess(a, b) && Less(Object(a), Object(b))
    decreases k
  {
    NameTrichotomy(a[k].name, b[k].name);
    if k > 0 {
      assert a[0] == a[..k][0] == b[..k][0] == b[0];
      assert a[1..][..k - 1] == a[..k][1..] == b[..k][1..] == b[1..][..k - 1];
      MemberLessIsTotal(a[0], b[0]);
      FirstMemberDecides(a[1..], b[1..], k - 1);
    }
  }
}
