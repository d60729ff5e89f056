/** The in-place member lists of access-control entries. */
module Acls {
  /** The index of the first occurrence, or -1 (slices.Index). */
  function Index(list: seq<string>, m: string): (i: int)
    ensures -1 <= i < |list|
    ensures i == -1 <==> m !in list
    ensures i >= 0 ==> list[i] == m && m !in list[..i]
  {
    if list == [] then -1
    else if list[0] == m then 0
    else
      var i := Index(list[1..], m);
      if i < 0 then -1 else
        assert list[..i + 1] == [list[0]] + list[1..][..i];
        i + 1
  }

  /** The list without the first occurrence of a member. */
  function RemoveFirst(list: seq<string>, m: string): seq<string> {
    if list == [] then []
    else if list[0] == m then list[1..]
    else [list[0]] + RemoveFirst(list[1..], m)
  }

  /** slices.Delete at the index found removes the first occurrence. */
  lemma {:induction false} DeleteAtIndex(list: seq<string>, m: string)
    ensures m in list ==> RemoveFirst(list, m) == list[..Index(list, m)] + list[Index(list, m) + 1..]
    ensures m !in list ==> RemoveFirst(list, m) == list
  {
    if list != [] && list[0] != m {
      var rest := list[1..];
      DeleteAtIndex(rest, m);
      assert list == [list[0]] + rest;
      if m in rest {
        var i := Index(rest, m);
        assert list[..i + 1] == [list[0]] + rest[..i] && list[i + 2..] == rest[i + 1..];
        assert [list[0]] + (rest[..i] + rest[i + 1..]) == list[..i + 1] + list[i + 2..];
      }
    }
  }

  /** The list after removing each member in turn, and after adding each missing one in turn. */
  function Removed(list: seq<string>, members: seq<string>): seq<string>
    decreases |members|
  {
    if members == [] then list else Removed(RemoveFirst(list, members[0]), members[1..])
  }

  function Added(list: seq<string>, members: seq<string>): seq<string>
    decreases |members|
  {
    if members == [] then list
    else Added(if members[0] in list then list else list + [members[0]], members[1..])
  }

  class ACE {
    var actors: seq<string>
    var groups: seq<string>

    constructor (actors: seq<string>, groups: seq<string>)
      ensures this.actors == actors && this.groups == groups
    {
      this.actors, this.groups := actors, groups;
    }

    method AddMembers(actors: seq<string>, groups: seq<string>) returns (changed: bool)
      modifies this
      ensures this.actors == Added(old(this.actors), actors)
      ensures this.groups == Added(old(this.groups), groups)
      ensures changed <==> this.actors != old(this.actors) || this.groups != old(this.groups)
    {
      var changedActors, changedGroups;
      this.actors, changedActors := AddTo(this.actors, actors);
      this.groups, changedGroups := AddTo(this.groups, groups);
      changed := changedActors || changedGroups;
    }

    method RemoveMembers(actors: seq<string>, groups: seq<string>) returns (changed: bool)
      modifies this
      ensures this.actors == Removed(old(this.actors), actors)
      ensures this.groups == Removed(old(this.groups), groups)
      ensures changed <==> this.actors != old(this.actors) || this.groups != old(this.groups)
    {
      var changedActors, changedGroups;
      this.actors, changedActors := RemoveFrom(this.actors, actors);
      this.groups, changedGroups := RemoveFrom(this.groups, groups);
      changed := changedActors || changedGroups;
    }
  }

  method AddTo(list: seq<string>, members: seq<string>) returns (out: seq<string>, changed: bool)
    ensures out == Added(list, members)
    ensures changed <==> out != list
    ensures changed <==> exists m :: m in members && m !in list
  {
    AddedMeans(list, members);
    out, changed := list, false;
    for i := 0 to |members|
      invariant Added(out, members[i..]) == Added(list, members)
      invariant list <= out && (changed <==> |out| > |list|)
    {
      assert members[i..][1..] == members[i + 1..];
      if members[i] !in out {
        out := out + [members[i]];
        changed := true;
      }
    }
    assert members[|members|..] == [];
    if changed {
      var tail := out[|list|..];
      assert tail[0] in tail && tail[0] in out;
    } else {
      assert out == list;
    }
  }

  method RemoveFrom(list: seq<string>, members: seq<string>) returns (out: seq<string>, changed: bool)
    ensures out == Removed(list, members)
    ensures changed <==> out != list
    ensures changed <==> !(multiset(members) !! multiset(list))
  {
    out, changed := list, false;
    for i := 0 to |members|
      invariant Removed(out, members[i..]) == Removed(list, members)
      invariant if changed then |out| < |list| else out == list
      invariant !changed ==> forall k :: 0 <= k < i ==> members[k] !in list
      invariant changed ==> exists k :: 0 <= k < i && members[k] in list
      invariant forall m :: m in out ==> m in list
    {
      assert members[i..][1..] == members[i + 1..];
      DeleteAtIndex(out, members[i]);
      var k := Index(out, members[i]);
      if k >= 0 {
        assert members[i] in out;
        out := out[..k] + out[k + 1..];
        changed := true;
      }
    }
    assert members[|members|..] == [];
    assert forall k :: 0 <= k < |members| ==> members[k] in multiset(members);
    if changed {
      var k :| 0 <= k < |members| && members[k] in list;
      assert members[k] in multiset(members) && members[k] in multiset(list);
    }
  }

  /** One occurrence is removed, the leftmost. */
  lemma {:induction false} RemovesLeftmost(a: seq<string>, m: string, b: seq<string>)
    requires m !in a
    ensures Removed(a + [m] + b, [m]) == a + b
  {
    var list := a + [m] + b;
    if a == [] {
      assert list[0] == m && list[1..] == b && a + b == b;
    } else {
      RemovesLeftmost(a[1..], m, b);
      assert list[0] == a[0] && a[0] in a && list[1..] == a[1..] + [m] + b;
      assert Removed(list, [m]) == RemoveFirst(list, m);
      assert Removed(list[1..], [m]) == RemoveFirst(list[1..], m);
      assert a + b == [a[0]] + (a[1..] + b);
    }
  }

  lemma {:induction false} RemoveFirstCounts(list: seq<string>, m: string)
    ensures multiset(RemoveFirst(list, m)) == multiset(list) - multiset{m}
  {
    if list != [] {
      assert list == [list[0]] + list[1..];
      RemoveFirstCounts(list[1..], m);
    }
  }

  /** Removal is multiset difference. */
  lemma {:induction false} RemovedIsDifference(list: seq<string>, members: seq<string>)
    ensures multiset(Removed(list, members)) == multiset(list) - multiset(members)
    decreases |members|
  {
    if members != [] {
      RemoveFirstCounts(list, members[0]);
      RemovedIsDifference(RemoveFirst(list, members[0]), members[1..]);
      HeadAndTail(members);
      DifferenceTwice(multiset(list), multiset{members[0]}, multiset(members[1..]));
    }
  }

  lemma HeadAndTail(members: seq<string>)
    requires members != []
    ensures multiset(members) == multiset{members[0]} + multiset(members[1..])
    ensures multiset(members[1..]) == multiset(members) - multiset{members[0]}
  {
    assert members == [members[0]] + members[1..];
  }

  lemma DifferenceTwice(a: multiset<string>, b: multiset<string>, c: multiset<string>)
    ensures a - b - c == a - (b + c)
  {
  }

  /** Each member named removes one occurrence: after a removal a named member is gone exactly when
      it was named at least as often as it was listed. */
  lemma GoneIff(list: seq<string>, members: seq<string>, m: string)
    ensures m !in Removed(list, members) <==> multiset(list)[m] <= multiset(members)[m]
  {
    RemovedIsDifference(list, members);
    assert m in Removed(list, members) <==> m in multiset(Removed(list, members));
  }

  /** A member listed twice and named once stays. */
  lemma DuplicateRemains(m: string)
    ensures Removed([m, m], [m]) == [m]
  {
  }

  ghost predicate NoDup(list: seq<string>) {
    forall i, j :: 0 <= i < j < |list| ==> list[i] != list[j]
  }

  /** Every entry equal to one of `items` removed. */
  function Without(base: seq<string>, items: seq<string>): seq<string> {
    if base == [] then []
    else (if base[0] in items then [] else [base[0]]) + Without(base[1..], items)
  }

  lemma {:induction false} WithoutOne(list: seq<string>, m: string)
    requires NoDup(list)
    ensures RemoveFirst(list, m) == Without(list, [m])
  {
    if list != [] {
      WithoutOne(list[1..], m);
      if list[0] == m {
        WithoutAbsent(list[1..], [m]);
      }
    }
  }

  lemma {:induction false} WithoutAbsent(list: seq<string>, items: seq<string>)
    requires forall x :: x in list ==> x !in items
    ensures Without(list, items) == list
  {
    if list != [] {
      assert list[0] in list;
      WithoutAbsent(list[1..], items);
    }
  }

  lemma {:induction false} WithoutTwice(list: seq<string>, m: string, rest: seq<string>)
    ensures Without(Without(list, [m]), rest) == Without(list, [m] + rest)
  {
    if list != [] {
      WithoutTwice(list[1..], m, rest);
      assert list[0] in [m] + rest <==> list[0] == m || list[0] in rest;
      var inner := Without(list[1..], [m]);
      if list[0] == m {
        assert Without(list, [m]) == inner;
      } else {
        assert Without(list, [m]) == [list[0]] + inner;
        assert ([list[0]] + inner)[1..] == inner;
      }
    }
  }

  lemma {:induction false} WithoutNoDup(list: seq<string>, items: seq<string>)
    requires NoDup(list)
    ensures NoDup(Without(list, items)) && forall x :: x in Without(list, items) ==> x in list
  {
    if list != [] {
      WithoutNoDup(list[1..], items);
      var inner := Without(list[1..], items);
      forall k | 0 <= k < |inner| ensures inner[k] != list[0] {
        assert inner[k] in inner;
      }
    }
  }

  /** On a list without duplicates removal is the filter that node tags use. */
  lemma {:induction false} RemovedIsWithout(list: seq<string>, members: seq<string>)
    requires NoDup(list)
    ensures Removed(list, members) == Without(list, members)
    decreases |members|
  {
    if members == [] {
      WithoutAbsent(list, []);
    } else {
      WithoutOne(list, members[0]);
      WithoutNoDup(list, [members[0]]);
      RemovedIsWithout(RemoveFirst(list, members[0]), members[1..]);
      WithoutTwice(list, members[0], members[1..]);
      assert members == [members[0]] + members[1..];
    }
  }

  /** Adding keeps the list as a prefix, makes every member present, adds nothing else and no
      duplicate. */
  lemma {:induction false} AddedMeans(list: seq<string>, members: seq<string>)
    ensures list <= Added(list, members)
    ensures forall x :: x in Added(list, members) <==> x in list || x in members
    ensures NoDup(Added(list, members)[|list|..])
    ensures forall x :: x in Added(list, members)[|list|..] ==> x !in list
    decreases |members|
  {
    if members != [] {
      var m := members[0];
      var next := if m in list then list else list + [m];
      AddedMeans(next, members[1..]);
      assert members == [m] + members[1..];
      var all := Added(list, members);
      if m !in list {
        assert all[|list|..] == [m] + all[|next|..];
      }
    }
  }

  /** The members that are not in the list, each where it is first named, in the order they are
      named: `at` says where. */
  ghost predicate FirstNamed(list: seq<string>, members: seq<string>, tail: seq<string>, at: seq<nat>) {
    && |at| == |tail|
    && (forall i :: 0 <= i < |at| ==> at[i] < |members| && tail[i] == members[at[i]] && tail[i] !in members[..at[i]])
    && (forall i, j :: 0 <= i < j < |at| ==> at[i] < at[j])
    && (forall m :: m in tail <==> m in members && m !in list)
  }

  /** What is appended are the missing members in the order they are first named. */
  lemma {:induction false} AddedInOrder(list: seq<string>, members: seq<string>) returns (tail: seq<string>, at: seq<nat>)
    ensures Added(list, members) == list + tail && FirstNamed(list, members, tail, at)
    decreases |members|
  {
    if members == [] {
      tail, at := [], [];
    } else {
      var m, rest := members[0], members[1..];
      assert members == [m] + rest;
      var next := if m in list then list else list + [m];
      tail, at := AddedInOrder(next, rest);
      at := NamedLater(next, m, rest, tail, at);
      if m !in list {
        assert list + [m] + tail == list + ([m] + tail);
        NamedFirst(list, m, rest, tail, at);
        tail, at := [m] + tail, [0] + at;
      }
    }
  }

  /** The positions move on when a member that is listed is named before. */
  lemma NamedLater(list: seq<string>, m: string, rest: seq<string>, tail: seq<string>, at: seq<nat>) returns (moved: seq<nat>)
    requires m in list && FirstNamed(list, rest, tail, at)
    ensures FirstNamed(list, [m] + rest, tail, moved) && forall i :: 0 <= i < |moved| ==> moved[i] > 0
  {
    moved := seq(|at|, i requires 0 <= i < |at| => at[i] + 1);
    forall i | 0 <= i < |at| ensures tail[i] == ([m] + rest)[moved[i]] && tail[i] !in ([m] + rest)[..moved[i]] {
      assert ([m] + rest)[..moved[i]] == [m] + rest[..at[i]];
      assert tail[i] in tail;
    }
  }

  /** A member that is not listed comes before what is appended after it. */
  lemma NamedFirst(list: seq<string>, m: string, rest: seq<string>, tail: seq<string>, at: seq<nat>)
    requires m !in list && FirstNamed(list + [m], [m] + rest, tail, at) && forall i :: 0 <= i < |at| ==> at[i] > 0
    ensures FirstNamed(list, [m] + rest, [m] + tail, [0] + at)
  {
    var members, tail', at' := [m] + rest, [m] + tail, [0] + at;
    forall i | 0 <= i < |at'| ensures at'[i] < |members| && tail'[i] == members[at'[i]] && tail'[i] !in members[..at'[i]] {
      if i > 0 {
        assert tail'[i] == tail[i - 1] && at'[i] == at[i - 1];
      }
    }
    forall i, j | 0 <= i < j < |at'| ensures at'[i] < at'[j] {
      assert at'[j] == at[j - 1] && (i > 0 ==> at'[i] == at[i - 1]);
    }
    assert forall x :: x in tail' <==> x == m || x in tail;
  }

  /** What is added is some of the members, each as often as it is a member or less. */
  lemma {:induction false} AddedFromMembers(list: seq<string>, members: seq<string>) returns (tail: seq<string>)
    ensures Added(list, members) == list + tail && multiset(tail) <= multiset(members)
    decreases |members|
  {
    if members == [] {
      tail := [];
    } else {
      var m := members[0];
      HeadAndTail(members);
      if m in list {
        tail := AddedFromMembers(list, members[1..]);
      } else {
        var rest := AddedFromMembers(list + [m], members[1..]);
        tail := [m] + rest;
        assert list + [m] + rest == list + tail;
      }
    }
  }

  /** Adding members that are not in the list and removing them again restores it exactly. */
  lemma AddThenRemove(list: seq<string>, members: seq<string>)
    requires forall m :: m in members ==> m !in list
    ensures Removed(Added(list, members), members) == list
  {
    var tail := AddedFromMembers(list, members);
    RemovedTail(list, tail, members);
  }

  lemma {:induction false} RemovedTail(list: seq<string>, tail: seq<string>, members: seq<string>)
    requires forall m :: m in members ==> m !in list
    requires multiset(tail) <= multiset(members)
    ensures Removed(list + tail, members) == list
    decreases |members|
  {
    if members == [] {
      assert |multiset(tail)| == |tail|;
      assert list + tail == list;
    } else {
      var m := members[0];
      RemoveFromTail(list, tail, m);
      RemoveFirstCounts(tail, m);
      HeadAndTail(members);
      RemovedTail(list, RemoveFirst(tail, m), members[1..]);
    }
  }

  lemma {:induction false} RemoveFromTail(list: seq<string>, tail: seq<string>, m: string)
    requires m !in list
    ensures RemoveFirst(list + tail, m) == list + RemoveFirst(tail, m)
  {
    if list == [] {
      assert list + tail == tail;
    } else {
      assert (list + tail)[1..] == list[1..] + tail && list[0] in list;
      RemoveFromTail(list[1..], tail, m);
    }
  }
}
