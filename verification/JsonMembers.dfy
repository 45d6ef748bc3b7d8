/**
 The members of an object as a map: binding one, binding several in a row, and what the
 map comes to.  The last value of a repeated name wins.
 */
module JsonMembers {
  import opened Optional
  import opened Bytes
  import opened JsonValue

  function FindMember(members: seq<Member>, name: bytes): Option<Value> {
    if members == [] then None
    else if members[0].name == name then Some(members[0].value)
    else FindMember(members[1..], name)
  }

  /** `value[name] = v`: the member is bound in the order of names. */
  function SetMember(members: seq<Member>, name: bytes, v: Value): seq<Member> {
    if members == [] || NameLess(name, members[0].name) then [Member(name, v)] + members
    else if members[0].name == name then [Member(name, v)] + members[1..]
    else [members[0]] + SetMember(members[1..], name, v)
  }

  /** Binds members one after the other. */
  function BindAll(bound: seq<Member>, members: seq<Member>): seq<Member>
    decreases |members|
  {
    if members == [] then bound else BindAll(SetMember(bound, members[0].name, members[0].value), members[1..])
  }

  // ---------------------------------------------------------------- binding one member

  lemma OrderedTail(members: seq<Member>)
    requires Ordered(members) && members != []
    ensures Ordered(members[1..]) && forall k :: 0 < k < |members| ==> NameLess(members[0].name, members[k].name)
  {
  }

  lemma {:induction false} NotBelow(members: seq<Member>, name: bytes)
    requires forall k :: 0 <= k < |members| ==> NameLess(name, members[k].name)
    ensures FindMember(members, name) == None
  {
    if members != [] {
      NameTrichotomy(name, name);
      NotBelow(members[1..], name);
    }
  }

  /** Every name in the result was there or is the one bound. */
  lemma {:induction false} SetMemberNames(members: seq<Member>, name: bytes, v: Value, k: nat)
    requires k < |SetMember(members, name, v)|
    ensures SetMember(members, name, v)[k].name == name
      || exists j :: 0 <= j < |members| && SetMember(members, name, v)[k] == members[j]
  {
    if members != [] && !NameLess(name, members[0].name) && members[0].name != name && k > 0 {
      SetMemberNames(members[1..], name, v, k - 1);
      if SetMember(members, name, v)[k].name != name {
        var j :| 0 <= j < |members[1..]| && SetMember(members[1..], name, v)[k - 1] == members[1..][j];
        assert SetMember(members, name, v)[k] == members[j + 1];
      }
    }
  }

  lemma {:induction false} SetMemberOrdered(members: seq<Member>, name: bytes, v: Value)
    requires Ordered(members)
    ensures Ordered(SetMember(members, name, v))
  {
    hide NameLess;
    var r := SetMember(members, name, v);
    if members == [] {
    } else {
      OrderedTail(members);
      NameTrichotomy(name, members[0].name);
      if NameLess(name, members[0].name) {
        forall k | 0 <= k < |members| ensures NameLess(name, members[k].name) {
          if k > 0 {
            NameTransitive(name, members[0].name, members[k].name);
          }
        }
        assert forall k :: 0 <= k < |members| ==> r[k + 1] == members[k];
      } else if members[0].name != name {
        SetMemberOrdered(members[1..], name, v);
        var rest := SetMember(members[1..], name, v);
        forall k | 0 <= k < |rest| ensures NameLess(members[0].name, rest[k].name) {
          SetMemberNames(members[1..], name, v, k);
        }
        assert forall k :: 0 <= k < |rest| ==> r[k + 1] == rest[k];
      }
    }
  }

  /** The name is bound to the value, and every other name is as before. */
  lemma {:induction false} SetMemberFinds(members: seq<Member>, name: bytes, v: Value)
    ensures FindMember(SetMember(members, name, v), name) == Some(v)
    ensures forall other :: other != name ==>
      FindMember(SetMember(members, name, v), other) == FindMember(members, other)
  {
    if members == [] || NameLess(name, members[0].name) || members[0].name == name {
      assert ([Member(name, v)] + members)[1..] == members;
      if members != [] {
        assert ([Member(name, v)] + members[1..])[1..] == members[1..];
      }
    } else {
      SetMemberFinds(members[1..], name, v);
      assert ([members[0]] + SetMember(members[1..], name, v))[1..] == SetMember(members[1..], name, v);
    }
  }

  // ---------------------------------------------------------------- binding many

  /** The last value a name has in a list of members. */
  function FindLast(members: seq<Member>, name: bytes): Option<Value> {
    if members == [] then None
    else if members[|members| - 1].name == name then Some(members[|members| - 1].value)
    else FindLast(members[..|members| - 1], name)
  }

  /** The map of a list of members: in the order of names, each name with its last value. */
  ghost predicate IsMapOf(bound: seq<Member>, members: seq<Member>) {
    Ordered(bound) && forall name :: FindMember(bound, name) == FindLast(members, name)
  }

  lemma {:induction false} BindAllAppend(bound: seq<Member>, members: seq<Member>, m: Member)
    ensures BindAll(bound, members + [m]) == SetMember(BindAll(bound, members), m.name, m.value)
    decreases |members|
  {
    if members == [] {
      assert ([] + [m])[1..] == [];
    } else {
      assert (members + [m])[1..] == members[1..] + [m];
      BindAllAppend(SetMember(bound, members[0].name, members[0].value), members[1..], m);
    }
  }

  /** Binding the members one after the other makes that map. */
  lemma {:induction false} BindAllIsMap(members: seq<Member>)
    ensures IsMapOf(BindAll([], members), members)
    decreases |members|
  {
    hide SetMember;
    if members == [] {
      assert BindAll([], []) == [];
    } else {
      var front, m := members[..|members| - 1], members[|members| - 1];
      BindAllIsMap(front);
      assert members == front + [m];
      BindAllAppend([], front, m);
      SetMemberOrdered(BindAll([], front), m.name, m.value);
      SetMemberFinds(BindAll([], front), m.name, m.value);
      forall name ensures FindMember(BindAll([], members), name) == FindLast(members, name) {
      }
    }
  }

  lemma {:induction false} FindFirst(members: seq<Member>, k: nat)
    requires Ordered(members) && k < |members|
    ensures FindMember(members, members[k].name) == Some(members[k].value)
    decreases |members|
  {
    hide NameLess;
    if k > 0 {
      OrderedTail(members);
      NameTrichotomy(members[0].name, members[k].name);
      FindFirst(members[1..], k - 1);
    }
  }

  lemma {:induction false} Found(members: seq<Member>, name: bytes)
    requires FindMember(members, name).Some?
    ensures exists k :: 0 <= k < |members| && members[k] == Member(name, FindMember(members, name).value)
  {
    if members[0].name == name {
      assert members[0] == Member(name, members[0].value);
    } else {
      Found(members[1..], name);
      var k :| 0 <= k < |members| - 1 && members[1..][k] == Member(name, FindMember(members, name).value);
      assert members[k + 1] == members[1..][k];
    }
  }

  lemma HeadIsLeast(a: seq<Member>, b: seq<Member>)
    requires Ordered(a) && Ordered(b) && a != []
    requires forall name :: FindMember(a, name) == FindMember(b, name)
    ensures b != [] && (a[0].name == b[0].name || NameLess(b[0].name, a[0].name))
  {
    hide NameLess;
    FindFirst(a, 0);
    Found(b, a[0].name);
    var k :| 0 <= k < |b| && b[k] == Member(a[0].name, a[0].value);
    OrderedTail(b);
  }

  lemma {:induction false} TailsAgree(a: seq<Member>, b: seq<Member>)
    requires Ordered(a) && Ordered(b) && a != [] && b != [] && a[0] == b[0]
    requires forall name :: FindMember(a, name) == FindMember(b, name)
    ensures forall name :: FindMember(a[1..], name) == FindMember(b[1..], name)
  {
    hide NameLess;
    OrderedTail(a);
    OrderedTail(b);
    NotBelow(a[1..], a[0].name);
    NotBelow(b[1..], a[0].name);
    forall name ensures FindMember(a[1..], name) == FindMember(b[1..], name) {
      assert FindMember(a, name) == FindMember(b, name);
    }
  }

  /** There is one such map: members in order are known by what they bind. */
  lemma {:induction false} MapIsUnique(a: seq<Member>, b: seq<Member>)
    requires Ordered(a) && Ordered(b)
    requires forall name :: FindMember(a, name) == FindMember(b, name)
    ensures a == b
    decreases |a|
  {
    hide NameLess, FindMember;
    if a == [] {
      if b != [] {
        HeadIsLeast(b, a);
      }
    } else {
      HeadIsLeast(a, b);
      HeadIsLeast(b, a);
      NameTrichotomy(a[0].name, b[0].name);
      FindFirst(a, 0);
      FindFirst(b, 0);
      assert a[0] == b[0];
      TailsAgree(a, b);
      OrderedTail(a);
      OrderedTail(b);
      MapIsUnique(a[1..], b[1..]);
      assert a == [a[0]] + a[1..] && b == [b[0]] + b[1..];
    }
  }

  /** In an ordered list the first value of a name is the last one. */
  lemma {:induction false} OrderedFindsLast(members: seq<Member>, name: bytes)
    requires Ordered(members)
    ensures FindLast(members, name) == FindMember(members, name)
    decreases |members|
  {
    hide NameLess;
    if members != [] {
      var front, m := members[..|members| - 1], members[|members| - 1];
      OrderedFindsLast(front, name);
      if m.name == name {
        FindFirst(members, |members| - 1);
      } else {
        assert members == front + [m];
        FindInFront(front, m, name);
      }
    }
  }

  lemma {:induction false} FindInFront(front: seq<Member>, m: Member, name: bytes)
    requires m.name != name
    ensures FindMember(front + [m], name) == FindMember(front, name)
  {
    if front != [] {
      assert (front + [m])[1..] == front[1..] + [m];
      FindInFront(front[1..], m, name);
    }
  }

  /** Members in order are their own map. */
  lemma OrderedIsBound(members: seq<Member>)
    requires Ordered(members)
    ensures BindAll([], members) == members
  {
    hide BindAll, FindMember, FindLast;
    BindAllIsMap(members);
    forall name ensures FindMember(BindAll([], members), name) == FindMember(members, name) {
      OrderedFindsLast(members, name);
    }
    MapIsUnique(BindAll([], members), members);
  }

  predicate DistinctNames(members: seq<Member>) {
    forall i, j :: 0 <= i < j < |members| ==> members[i].name != members[j].name
  }

  /** With distinct names every member is in the map, whatever their order. */
  lemma {:induction false} DistinctAreBound(members: seq<Member>, k: nat)
    requires DistinctNames(members) && k < |members|
    ensures FindLast(members, members[k].name) == Some(members[k].value)
    decreases |members|
  {
    if k < |members| - 1 {
      DistinctAreBound(members[..|members| - 1], k);
    }
  }
}
