/**
 A growing buffer.  Reallocation copies what the buffer holds; growing by at least
 half the capacity keeps that copying within four times the largest size asked for,
 growing to an exact capacity does not.
 */
module GrowingBuffer {

  // ---------------------------------------------------------------- what growth costs

  /** The sizes of a buffer, with the elements copied so far by reallocations with
      headroom, those copied by reallocations to an exact capacity, and the largest size
      that was asked for. */
  datatype Shape = Shape(size: nat, capacity: nat, copied: nat, exact: nat, peak: nat)

  datatype Operation = Append(count: nat) | SetSize(newSize: nat) | Reserve(request: nat) | Clear

  const EMPTY := Shape(0, 0, 0, 0, 0)

  function Max(a: nat, b: nat): nat {
    if a >= b then a else b
  }

  function Grown(s: Shape, request: nat, extraHeadroom: bool): Shape {
    var asked := s.(peak := Max(s.peak, request));
    if request <= s.capacity then asked
    else if extraHeadroom then
      asked.(capacity := Max(request, s.capacity + s.capacity / 2), copied := s.copied + s.size)
    else asked.(capacity := request, exact := s.exact + s.size)
  }

  function AfterOperation(s: Shape, op: Operation): Shape {
    match op
    case Append(count) => Grown(s, s.size + count, true).(size := s.size + count)
    case SetSize(newSize) => Grown(s, newSize, true).(size := newSize)
    case Reserve(request) => Grown(s, request, false)
    case Clear => s.(size := 0)
  }

  function AfterOperations(s: Shape, ops: seq<Operation>): Shape
    decreases |ops|
  {
    if ops == [] then s else AfterOperations(AfterOperation(s, ops[0]), ops[1..])
  }

  /** The capacity bounds the size and pays for the copies made with headroom; the
      largest request bounds them too. */
  predicate Amortised(s: Shape) {
    && s.size <= s.capacity
    && s.copied <= (if s.capacity == 0 then 0 else 3 * (s.capacity - 1))
    && (s.copied == 0 || s.copied + 7 <= 4 * s.peak)
  }

  lemma GrowthAmortises(s: Shape, request: nat, extraHeadroom: bool)
    requires Amortised(s)
    ensures Amortised(Grown(s, request, extraHeadroom))
    ensures request <= Grown(s, request, extraHeadroom).capacity
  {
    if request > s.capacity > 0 {
      assert s.copied + s.size <= 4 * s.capacity - 3;
      assert 4 * s.capacity <= 3 * Max(request, s.capacity + s.capacity / 2);
    }
  }

  /** Ten elements appended one by one: the capacity goes 1, 2, 3, 4, 6, 9, 13. */
  lemma TenAppends()
    ensures var a := Append(1);
            AfterOperations(EMPTY, [a, a, a, a, a] + [a, a, a, a, a]) == Shape(10, 13, 25, 0, 10)
  {
    hide AfterOperations;
    var a := Append(1);
    FiveAppends(EMPTY);
    assert AfterOperation(AfterOperation(EMPTY, a), a) == Shape(2, 2, 1, 0, 2);
    assert AfterOperation(AfterOperation(Shape(2, 2, 1, 0, 2), a), a) == Shape(4, 4, 6, 0, 4);
    var five := Shape(5, 6, 10, 0, 5);
    assert AfterOperation(Shape(4, 4, 6, 0, 4), a) == five;
    FiveAppends(five);
    assert AfterOperation(AfterOperation(five, a), a) == Shape(7, 9, 16, 0, 7);
    OperationsInTurn(EMPTY, [a, a, a, a, a], [a, a, a, a, a]);
  }

  lemma FiveAppends(s: Shape)
    ensures var a := Append(1);
            AfterOperations(s, [a, a, a, a, a])
            == AfterOperation(AfterOperation(AfterOperation(AfterOperation(AfterOperation(s, a), a), a), a), a)
  {
    hide AfterOperation;
    var a := Append(1);
    var five, four, three, two := [a, a, a, a, a], [a, a, a, a], [a, a, a], [a, a];
    assert five[1..] == four && four[1..] == three && three[1..] == two && two[1..] == [a];
    var s1 := AfterOperation(s, a);
    var s2 := AfterOperation(s1, a);
    var s3 := AfterOperation(s2, a);
    var s4 := AfterOperation(s3, a);
    assert [a][1..] == [];
    assert AfterOperations(s4, [a]) == AfterOperation(s4, a);
    assert AfterOperations(s3, two) == AfterOperations(s4, [a]);
    assert AfterOperations(s2, three) == AfterOperations(s3, two);
    assert AfterOperations(s1, four) == AfterOperations(s2, three);
  }

  lemma {:induction false} OperationsInTurn(s: Shape, first: seq<Operation>, second: seq<Operation>)
    ensures AfterOperations(s, first + second) == AfterOperations(AfterOperations(s, first), second)
    decreases |first|
  {
    hide AfterOperation;
    if first == [] {
      assert first + second == second;
    } else {
      assert (first + second)[1..] == first[1..] + second;
      OperationsInTurn(AfterOperation(s, first[0]), first[1..], second);
    }
  }

  lemma OperationAmortises(s: Shape, op: Operation)
    requires Amortised(s)
    ensures Amortised(AfterOperation(s, op))
  {
    match op {
      case Append(count) => GrowthAmortises(s, s.size + count, true);
      case SetSize(newSize) => GrowthAmortises(s, newSize, true);
      case Reserve(request) => GrowthAmortises(s, request, false);
      case Clear =>
    }
  }

  lemma {:induction false} OperationsAmortise(s: Shape, ops: seq<Operation>)
    requires Amortised(s)
    ensures Amortised(AfterOperations(s, ops))
    decreases |ops|
  {
    if ops != [] {
      OperationAmortises(s, ops[0]);
      OperationsAmortise(AfterOperation(s, ops[0]), ops[1..]);
    }
  }

  /** The largest size the operations ask for, starting at `size`. */
  function LargestRequest(size: nat, ops: seq<Operation>): nat
    decreases |ops|
  {
    if ops == [] then 0
    else
      match ops[0]
      case Append(count) => Max(size + count, LargestRequest(size + count, ops[1..]))
      case SetSize(newSize) => Max(newSize, LargestRequest(newSize, ops[1..]))
      case Reserve(request) => Max(request, LargestRequest(size, ops[1..]))
      case Clear => LargestRequest(0, ops[1..])
  }

  lemma {:induction false} PeakIsLargestRequest(s: Shape, ops: seq<Operation>)
    ensures AfterOperations(s, ops).peak == Max(s.peak, LargestRequest(s.size, ops))
    decreases |ops|
  {
    if ops != [] {
      PeakIsLargestRequest(AfterOperation(s, ops[0]), ops[1..]);
    }
  }

  lemma {:induction false} ExactOnlyByReserve(s: Shape, ops: seq<Operation>)
    requires forall op :: op in ops ==> !op.Reserve?
    ensures AfterOperations(s, ops).exact == s.exact
    decreases |ops|
  {
    if ops != [] {
      assert ops[0] in ops;
      ExactOnlyByReserve(AfterOperation(s, ops[0]), ops[1..]);
    }
  }

  /** From an empty buffer on, whatever the operations, the copying of all growth with
      headroom stays within four times the largest size asked for; nothing else copies
      unless an exact capacity is reserved. */
  lemma CopyingIsLinear(ops: seq<Operation>)
    ensures var s := AfterOperations(EMPTY, ops);
            && s.size <= s.capacity
            && s.copied <= 4 * LargestRequest(0, ops)
            && ((forall op :: op in ops ==> !op.Reserve?) ==> s.exact == 0)
  {
    OperationsAmortise(EMPTY, ops);
    PeakIsLargestRequest(EMPTY, ops);
    if forall op :: op in ops ==> !op.Reserve? {
      ExactOnlyByReserve(EMPTY, ops);
    }
  }

  /** `count` elements appended one by one to `size` others, with room for one more
      reserved after each. */
  function Creeping(size: nat, count: nat): (ops: seq<Operation>)
    ensures |ops| == 2 * count
    decreases count
  {
    if count == 0 then []
    else [Append(1), Reserve(size + 2)] + Creeping(size + 1, count - 1)
  }

  lemma TwoOperations(s: Shape, first: Operation, second: Operation, rest: seq<Operation>)
    ensures AfterOperations(s, [first, second] + rest)
         == AfterOperations(AfterOperation(AfterOperation(s, first), second), rest)
  {
    var ops := [first, second] + rest;
    assert ops[1..] == [second] + rest;
    assert ops[1..][1..] == rest;
  }

  lemma {:induction false} CreepingCopies(s: Shape, count: nat)
    requires s.capacity == s.size + 1 || (s.size == 0 && s.capacity == 0)
    requires s.peak == s.capacity
    ensures var t := AfterOperations(s, Creeping(s.size, count));
            && 2 * t.exact == 2 * s.exact + count * (2 * s.size + count + 1)
            && t.copied == s.copied
            && t.peak == if count == 0 then s.peak else s.size + count + 1
    decreases count
  {
    if count > 0 {
      var after := AfterOperation(AfterOperation(s, Append(1)), Reserve(s.size + 2));
      TwoOperations(s, Append(1), Reserve(s.size + 2), Creeping(s.size + 1, count - 1));
      CreepingCopies(after, count - 1);
      assert after.exact == s.exact + s.size + 1;
      assert count * (2 * s.size + count + 1)
          == (count - 1) * (2 * s.size + count + 2) + 2 * (s.size + 1);
    }
  }

  /** Reserving an exact capacity has no such bound: with room for one more element
      reserved after each of `count` the copies are quadratic in the largest request. */
  lemma ReservingIsQuadratic(count: nat)
    requires count > 0
    ensures LargestRequest(0, Creeping(0, count)) == count + 1
    ensures 2 * AfterOperations(EMPTY, Creeping(0, count)).exact == count * (count + 1)
  {
    CreepingCopies(EMPTY, count);
    PeakIsLargestRequest(EMPTY, Creeping(0, count));
  }

  lemma SizeFits(s: Shape)
    requires Amortised(s)
    ensures s.size <= s.capacity
  {
  }

  lemma Joined<T>(all: seq<T>, a: seq<T>, b: seq<T>)
    requires |all| == |a| + |b|
    requires forall i :: 0 <= i < |a| ==> all[i] == a[i]
    requires forall i :: 0 <= i < |b| ==> all[|a| + i] == b[i]
    ensures all == a + b
  {
    forall i | 0 <= i < |all| ensures all[i] == (a + b)[i] {
      if i >= |a| {
        assert all[|a| + (i - |a|)] == b[i - |a|];
      }
    }
  }

  // ---------------------------------------------------------------- the buffer

  class BufferT<T(0)> {
    var size: nat
    var capacity: nat
    var data: array?<T>
    ghost var copied: nat
    ghost var exact: nat
    ghost var peak: nat

    /** `IsConsistent`, with the capacity the true length of the array. */
    ghost predicate Valid()
      reads this
    {
      && (data != null || capacity == 0)
      && size <= capacity
      && (data != null ==> data.Length == capacity)
      && Amortised(View())
    }

    ghost function View(): Shape
      reads this
    {
      Shape(size, capacity, copied, exact, peak)
    }

    ghost function Contents(): seq<T>
      requires Valid()
      reads this, data
    {
      if data == null then [] else data[..size]
    }

    constructor ()
      ensures Valid() && View() == EMPTY && Contents() == [] && data == null
    {
      size, capacity, data, copied, exact, peak := 0, 0, null, 0, 0, 0;
    }

    /** Afterwards `request` elements fit; what the buffer holds is still there. */
    method EnsureCapacityWithHeadroom(request: nat, extraHeadroom: bool)
      requires Valid()
      modifies this`capacity, this`data, this`copied, this`exact, this`peak
      ensures Valid() && View() == Grown(old(View()), request, extraHeadroom)
      ensures Contents() == old(Contents())
      ensures request <= capacity
      ensures data == old(data) || fresh(data)
    {
      GrowthAmortises(View(), request, extraHeadroom);
      peak := Max(peak, request);
      if request <= capacity {
        return;
      }
      var newCapacity := if extraHeadroom then Max(request, capacity + capacity / 2) else request;
      var newData := new T[newCapacity];
      if data != null {
        forall i | 0 <= i < size {
          newData[i] := data[i];
        }
        assert newData[..size] == data[..size];
      }
      if extraHeadroom {
        copied := copied + size;
      } else {
        exact := exact + size;
      }
      data := newData;
      capacity := newCapacity;
    }

    /** Room for `request` elements, and no more where the array has to be replaced. */
    method EnsureCapacity(request: nat)
      requires Valid()
      modifies this`capacity, this`data, this`copied, this`exact, this`peak
      ensures Valid() && View() == AfterOperation(old(View()), Reserve(request))
      ensures Contents() == old(Contents())
      ensures capacity == Max(old(capacity), request)
      ensures data == old(data) || fresh(data)
    {
      EnsureCapacityWithHeadroom(request, false);
    }

    method AppendData(source: seq<T>)
      requires Valid()
      modifies this, data
      ensures Valid() && View() == AfterOperation(old(View()), Append(|source|))
      ensures Contents() == old(Contents()) + source
      ensures data == old(data) || fresh(data)
    {
      hide Amortised;
      OperationAmortises(View(), Append(|source|));
      SizeFits(View());
      var newSize := size + |source|;
      ghost var before := Contents();
      EnsureCapacityWithHeadroom(newSize, true);
      assert Contents() == before;
      if data != null {
        forall i | 0 <= i < |source| {
          data[size + i] := source[i];
        }
        Joined(data[..newSize], before, source);
      } else {
        assert before + source == [];
      }
      size := newSize;
    }

    /** A smaller size truncates; a larger one leaves the new elements open. */
    method SetSize(newSize: nat)
      requires Valid()
      modifies this
      ensures Valid() && View() == AfterOperation(old(View()), Operation.SetSize(newSize))
      ensures if newSize <= old(size) then Contents() == old(Contents())[..newSize]
              else |Contents()| == newSize && Contents()[..old(size)] == old(Contents())
      ensures data == old(data) || fresh(data)
    {
      OperationAmortises(View(), Operation.SetSize(newSize));
      ghost var before := Contents();
      EnsureCapacityWithHeadroom(newSize, true);
      size := newSize;
      if data != null && newSize > |before| {
        assert data[..newSize][..|before|] == data[..|before|];
      }
    }

    method Clear()
      requires Valid()
      modifies this`size
      ensures Valid() && View() == AfterOperation(old(View()), Operation.Clear) && Contents() == []
    {
      size := 0;
    }
  }
}
