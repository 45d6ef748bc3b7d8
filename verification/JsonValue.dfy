/**
 JSON values.  An array is its dense list of elements; an object is its list of
 members in the order of the underlying map, which compares names as CZString
 does: byte by byte, unsigned, and a proper prefix first.
 */
module JsonValue {
  import opened Bytes
  import opened JsonNumber

  /** A double; its arithmetic plays no part in the model. */
  datatype Double = Finite(r: real) | NaN | PosInf | NegInf

  datatype Value =
    | Null
    | Int(i: int)
    | UInt(u: nat)
    | Real(d: Double)
    | Str(s: bytes)
    | Bool(b: bool)
    | Array(items: seq<Value>)
    | Object(members: seq<Member>)

  datatype Member = Member(name: bytes, value: Value)

  function MinLength(a: bytes, b: bytes): nat {
    if |a| <= |b| then |a| else |b|
  }

  /** The sign of the first difference between the first `n` bytes. */
  function MemCmp(a: bytes, b: bytes, n: nat): int
    requires n <= |a| && n <= |b|
  {
    if n == 0 then 0
    else if a[0] < b[0] then -1
    else if a[0] > b[0] then 1
    else MemCmp(a[1..], b[1..], n - 1)
  }

  predicate NameLess(a: bytes, b: bytes) {
    var comp := MemCmp(a, b, MinLength(a, b));
    comp < 0 || (comp == 0 && |a| < |b|)
  }

  predicate NameEqual(a: bytes, b: bytes) {
    |a| == |b| && MemCmp(a, b, |a|) == 0
  }

  // ---------------------------------------------------------------- the order of names

  lemma {:induction false} NameEqualIsEquality(a: bytes, b: bytes)
    ensures NameEqual(a, b) <==> a == b
  {
    if |a| == |b| && a != [] && a[0] == b[0] {
      NameEqualIsEquality(a[1..], b[1..]);
      assert a == [a[0]] + a[1..] && b == [b[0]] + b[1..];
    }
  }

  lemma {:induction false} NameLessTail(a: bytes, b: bytes)
    requires a != [] && b != [] && a[0] == b[0]
    ensures NameLess(a, b) <==> NameLess(a[1..], b[1..])
  {
  }

  lemma {:induction false} NameTrichotomy(a: bytes, b: bytes)
    ensures !NameLess(a, a)
    ensures !(NameLess(a, b) && NameLess(b, a))
    ensures NameLess(a, b) || NameLess(b, a) || a == b
  {
    NameEqualIsEquality(a, a);
    if a != [] && b != [] && a[0] == b[0] {
      NameTrichotomy(a[1..], b[1..]);
      NameLessTail(a, b);
      NameLessTail(b, a);
      assert a == [a[0]] + a[1..] && b == [b[0]] + b[1..];
    }
  }

  lemma {:induction false} NameTransitive(a: bytes, b: bytes, c: bytes)
    requires NameLess(a, b) && NameLess(b, c)
    ensures NameLess(a, c)
  {
    if a != [] && b != [] && c != [] {
      if a[0] == b[0] == c[0] {
        NameLessTail(a, b);
        NameLessTail(b, c);
        NameLessTail(a, c);
        NameTransitive(a[1..], b[1..], c[1..]);
      }
    }
  }

  // ---------------------------------------------------------------- well-formed values

  /** Members in strictly increasing order of names, as the map keeps them. */
  predicate Ordered(members: seq<Member>) {
    forall i, j :: 0 <= i < j < |members| ==> NameLess(members[i].name, members[j].name)
  }
}
