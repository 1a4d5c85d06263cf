/**
 hook_zygote_jni by the names it looks for: which native methods of the Zygote class it replaces, and
 what it hands back.
 */
module JniEntryPoints {
  import opened Options
  import opened JniHooks
  import opened JniZygote
  import opened JniOverloads

  // The method that each of the three lists is for.
  function EntryName(l: nat): string
    requires l < 3
  {
    ["nativeForkAndSpecialize", "nativeSpecializeAppProcess", "nativeForkSystemServer"][l]
  }

  predicate IsOtherName(name: string) {
    name != "nativeForkAndSpecialize" && name != "nativeSpecializeAppProcess" && name != "nativeForkSystemServer"
  }

  // The list entry m replaces the native method n.
  predicate Replaces(m: Method, n: Native) {
    m.fn != 0 && m.name == n.name && m.sig == n.sig
  }

  // What the library's own lists are: list l holds entries for its method only, each signature once, with
  // functions that occur nowhere else.
  predicate ZygoteLists(table: seq<Native>, lists: seq<seq<Method>>) {
    && |lists| == 3
    && (forall l: nat, j: nat {:trigger lists[l][j]} :: l < 3 && j < |lists[l]| ==> lists[l][j].name == EntryName(l))
    && (forall l: nat {:trigger lists[l]} :: l < 3 ==> DistinctMethods(lists[l]) && FreshPointers(table, lists[l]))
    && (forall k: nat, l: nat {:trigger lists[k], lists[l]} :: k < 3 && l < 3 && k != l ==> NoCommonPointer(lists[k], lists[l]))
  }

  predicate NoCommonPointer(a: seq<Method>, b: seq<Method>) {
    forall i, j :: 0 <= i < |a| && 0 <= j < |b| && a[i].fn != 0 ==> a[i].fn != b[j].fn
  }

  predicate Bears(table: seq<Native>, l: nat, i: nat) {
    l < 3 && i < |table| && table[i].name == EntryName(l)
  }

  // Some native method is replaced by the list; with bound set, one that has a function.
  predicate SomeReplaced(table: seq<Native>, ms: seq<Method>, bound: bool) {
    exists i, j :: 0 <= i < |table| && 0 <= j < |ms| && Replaces(ms[j], table[i]) && (bound ==> table[i].fn != 0)
  }

  // No entry point is missing: if the class has one of that name, the list replaces one; if it has two, the
  // list replaces one that has a function.
  ghost predicate NothingMissing(table: seq<Native>, lists: seq<seq<Method>>)
    requires |lists| == 3
  {
    forall l: nat {:trigger lists[l]} :: l < 3 ==>
      && ((exists i: nat :: Bears(table, l, i)) ==> SomeReplaced(table, lists[l], false))
      && ((exists i: nat, k: nat :: i < k && Bears(table, l, i) && Bears(table, l, k)) ==> SomeReplaced(table, lists[l], true))
  }

  // Exactly one native method bears the name.
  ghost predicate BornOnce(table: seq<Native>, l: nat) {
    exists i: nat :: Bears(table, l, i) && forall k: nat :: Bears(table, l, k) ==> k == i
  }

  ghost predicate Absent(table: seq<Native>, l: nat) {
    forall i: nat :: !Bears(table, l, i)
  }

  // The method i holds the function of the entry that replaces it; without one, its own.
  ghost predicate IsReplaced(table: seq<Native>, ms: seq<Method>, t: seq<Native>, i: nat)
    requires i < |table| == |t|
  {
    && (forall j :: 0 <= j < |ms| && Replaces(ms[j], table[i]) ==> t[i].fn == ms[j].fn)
    && ((forall j :: 0 <= j < |ms| ==> !Replaces(ms[j], table[i])) ==> t[i].fn == table[i].fn)
  }

  // The entry j holds the function that it replaced; without one, null.
  ghost predicate IsOriginalOf(table: seq<Native>, ms: seq<Method>, r: seq<Method>, j: nat)
    requires j < |ms| == |r|
  {
    && r[j].name == ms[j].name && r[j].sig == ms[j].sig
    && (forall i :: 0 <= i < |table| && Replaces(ms[j], table[i]) ==> r[j].fn == table[i].fn)
    && ((forall i :: 0 <= i < |table| ==> !Replaces(ms[j], table[i])) ==> r[j].fn == 0)
  }

  // What list l and the methods of its name are afterwards.
  ghost predicate ListHooked(table: seq<Native>, ms: seq<Method>, l: nat, t: seq<Native>, r: seq<Method>)
    requires |t| == |table|
  {
    && |r| == |ms|
    && (forall i: nat {:trigger t[i]} :: Bears(table, l, i) ==> IsReplaced(table, ms, t, i))
    && (forall j: nat {:trigger r[j]} :: j < |ms| ==> IsOriginalOf(table, ms, r, j))
  }

  // ----- the names -----

  lemma EntryPointByName(name: string, l: nat)
    requires l < 3
    ensures EntryPoint(name) == Some(l) <==> name == EntryName(l)
  {
    assert |EntryName(0)| == 23 && |EntryName(1)| == 26 && |EntryName(2)| == 22;
  }

  lemma NoEntryPoint(name: string)
    requires IsOtherName(name)
    ensures EntryPoint(name) == None
  {
  }

  lemma ListsAreGood(table: seq<Native>, lists: seq<seq<Method>>)
    requires DistinctNatives(table) && ZygoteLists(table, lists)
    ensures GoodClass(table, lists)
  {
    forall l: nat | l < 3
      ensures GoodList(table, lists[l], l)
    {
      forall j | 0 <= j < |lists[l]|
        ensures EntryPoint(lists[l][j].name) == Some(l)
      {
        EntryPointByName(lists[l][j].name, l);
      }
    }
    forall k: nat, l: nat | k < 3 && l < 3 && k != l
      ensures Apart(lists[k], lists[l])
    {
      assert NoCommonPointer(lists[k], lists[l]);
    }
  }

  // A list that is listed for a method that the class has replaces it.
  lemma {:induction false} SetterReplaces(ms: seq<Method>, n: Native)
    requires DistinctMethods(ms)
    ensures forall j: nat :: j < |ms| && Replaces(ms[j], n) ==> Setter(ms, n, |ms|) == Some(j)
    ensures (forall j :: 0 <= j < |ms| ==> !Replaces(ms[j], n)) ==> Setter(ms, n, |ms|) == None
  {
    forall j: nat | j < |ms| && Replaces(ms[j], n)
      ensures Setter(ms, n, |ms|) == Some(j)
    {
      SetterOf(ms, n, j, |ms|);
    }
  }

  lemma ReplacedIsListed(table: seq<Native>, ms: seq<Method>)
    requires DistinctMethods(ms)
    ensures SomeReplaced(table, ms, false) <==> AnyListed(table, ms)
    ensures SomeReplaced(table, ms, true) <==> AnyBound(table, ms)
  {
    if i: nat, j: nat :| i < |table| && j < |ms| && Replaces(ms[j], table[i]) {
      SetterReplaces(ms, table[i]);
    }
    if i: nat, j: nat :| i < |table| && j < |ms| && Replaces(ms[j], table[i]) && table[i].fn != 0 {
      SetterReplaces(ms, table[i]);
      assert IsOriginal(table, ms, i);
    }
  }

  lemma NothingMissingIsComplete(table: seq<Native>, lists: seq<seq<Method>>)
    requires ZygoteLists(table, lists)
    ensures NothingMissing(table, lists) <==> NoneMissing(table, lists)
  {
    forall l: nat | l < 3
      ensures Visits(table, l, |table|) >= 1 <==> exists i: nat :: Bears(table, l, i)
      ensures Visits(table, l, |table|) >= 2 <==> exists i: nat, k: nat :: i < k && Bears(table, l, i) && Bears(table, l, k)
      ensures SomeReplaced(table, lists[l], false) <==> AnyListed(table, lists[l])
      ensures SomeReplaced(table, lists[l], true) <==> AnyBound(table, lists[l])
    {
      ReplacedIsListed(table, lists[l]);
      VisitedByName(table, l);
    }
  }

  lemma VisitedByName(table: seq<Native>, l: nat)
    requires l < 3
    ensures Visits(table, l, |table|) >= 1 <==> exists i: nat :: Bears(table, l, i)
    ensures Visits(table, l, |table|) >= 2 <==> exists i: nat, k: nat :: i < k && Bears(table, l, i) && Bears(table, l, k)
  {
    if Visits(table, l, |table|) >= 1 {
      var i := VisitAt(table, l, 0);
      if Visits(table, l, |table|) >= 2 {
        var k := VisitAt(table, l, 1);
        assert i < k || k < i;
      } else {
        forall k: nat | Bears(table, l, k)
          ensures k == i
        {
          if k < i {
            TwoVisits(table, l, k, i);
          } else {
            TwoVisits(table, l, i, k);
          }
        }
      }
    } else if i: nat :| Bears(table, l, i) {
      TwoVisits(table, l, i, i);
    }
  }

  lemma VisitAt(table: seq<Native>, l: nat, v: nat) returns (i: nat)
    requires l < 3 && v < Visits(table, l, |table|)
    ensures Bears(table, l, i) && Visits(table, l, i) == v
  {
    i := NthVisit(table, l, v, |table|);
    EntryPointByName(table[i].name, l);
  }

  // One method of that name, or two, are as many visits.
  lemma TwoVisits(table: seq<Native>, l: nat, i: nat, k: nat)
    requires Bears(table, l, i) && Bears(table, l, k) && i <= k
    ensures Visits(table, l, |table|) >= 1
    ensures i < k ==> Visits(table, l, |table|) >= 2
  {
    EntryPointByName(table[i].name, l);
    EntryPointByName(table[k].name, l);
    if i < k {
      VisitsGrow(table, l, i + 1, k);
    }
    VisitsGrow(table, l, k + 1, |table|);
  }

  // ----- what is left -----

  lemma BornOnceIsOnce(table: seq<Native>, lists: seq<seq<Method>>, l: nat)
    requires |lists| == 3 && l < 3
    ensures BornOnce(table, l) ==> AllSeen(table, lists, |table|)[l].times.Once?
    ensures Absent(table, l) ==> AllSeen(table, lists, |table|)[l].times.Never?
  {
    VisitedByName(table, l);
    SeenTimes(table, lists, |table|, l);
    TimesIsRemainder(Visits(table, l, |table|));
  }

  lemma OnceReplaces(table: seq<Native>, ms: seq<Method>, t: seq<Native>, i: nat, s: Seen)
    requires DistinctMethods(ms) && i < |table| == |t| && s.times.Once? && t[i].fn == PointerAfter(table, ms, i, s)
    ensures IsReplaced(table, ms, t, i)
  {
    SetterReplaces(ms, table[i]);
  }

  lemma OnceReturns(table: seq<Native>, ms: seq<Method>, r: seq<Method>, j: nat, s: Seen)
    requires DistinctNatives(table) && j < |ms| && s.times.Once? && r == After(table, ms, s)
    ensures IsOriginalOf(table, ms, r, j)
  {
    forall i: nat | i < |table| && Replaces(ms[j], table[i])
      ensures IndexOf(table, ms[j]) == Some(i)
    {
      OneOfThatName(table, ms[j], i);
    }
  }

  lemma ListIsHooked(table: seq<Native>, lists: seq<seq<Method>>, l: nat, t: seq<Native>, ls: seq<seq<Method>>)
    requires DistinctNatives(table) && ZygoteLists(table, lists) && l < 3 && BornOnce(table, l)
    requires HookedTimes(table, lists, AllSeen(table, lists, |table|), t) && ListsAfter(table, lists, |table|, ls)
    ensures ListHooked(table, lists[l], l, t, ls[l])
  {
    var vs := AllSeen(table, lists, |table|);
    BornOnceIsOnce(table, lists, l);
    ListAfter(table, lists, |table|, ls, l);
    forall i: nat | Bears(table, l, i)
      ensures IsReplaced(table, lists[l], t, i)
    {
      EntryPointByName(table[i].name, l);
      assert t[i].fn == TimesPointer(table, lists, vs, i);
      OnceReplaces(table, lists[l], t, i, vs[l]);
    }
    forall j: nat | j < |lists[l]|
      ensures IsOriginalOf(table, lists[l], ls[l], j)
    {
      OnceReturns(table, lists[l], ls[l], j, vs[l]);
    }
  }

  lemma AbsentIsKept(table: seq<Native>, lists: seq<seq<Method>>, l: nat, ls: seq<seq<Method>>)
    requires |lists| == 3 && l < 3 && Absent(table, l) && ListsAfter(table, lists, |table|, ls)
    ensures ls[l] == lists[l]
  {
    BornOnceIsOnce(table, lists, l);
    ListAfter(table, lists, |table|, ls, l);
  }

  lemma OthersAreKept(table: seq<Native>, lists: seq<seq<Method>>, vs: seq<Seen>, t: seq<Native>, i: nat)
    requires HookedTimes(table, lists, vs, t) && i < |table|
    requires IsOtherName(table[i].name)
    ensures t[i] == table[i]
  {
    NoEntryPoint(table[i].name);
    assert t[i].fn == TimesPointer(table, lists, vs, i);
    assert table[i].(fn := 0) == t[i].(fn := 0);
  }

  /** With nothing missing, every method that alone bears one of the three names holds the function that its
      list has for it, and the list holds the originals, and null for what the class lacks; a list for a
      name that the class lacks is kept. With something missing, every list is nulled. Methods of other
      names are never touched. */
  lemma EntryPointsHooked(table: seq<Native>, lists: seq<seq<Method>>)
    requires DistinctNatives(table) && ZygoteLists(table, lists)
    ensures var (t, ls) := HookZygote(table, lists);
            && |ls| == 3 && SameShape(table, t)
            && (forall i: nat {:trigger t[i]} :: i < |table| && IsOtherName(table[i].name) ==> t[i] == table[i])
            && if NothingMissing(table, lists) then
                 && (forall l: nat {:trigger BornOnce(table, l)} :: l < 3 && BornOnce(table, l) ==>
                       ListHooked(table, lists[l], l, t, ls[l]))
                 && (forall l: nat {:trigger Absent(table, l)} :: l < 3 && Absent(table, l) ==> ls[l] == lists[l])
               else
                 forall l: nat, j: nat {:trigger ls[l][j]} :: l < 3 && j < |ls[l]| ==>
                   |ls[l]| == |lists[l]| && ls[l][j] == lists[l][j].(fn := 0)
  {
    var (t, ls) := HookZygote(table, lists);
    ListsAreGood(table, lists);
    NothingMissingIsComplete(table, lists);
    CompleteExactly(table, lists);
    ZygoteOutcome(table, lists);
    var stop := StopsAt(table, lists, 0);
    var vs := if stop == |table| then AllSeen(table, lists, stop) else Again(AllSeen(table, lists, stop));
    forall i: nat | i < |table| && IsOtherName(table[i].name)
      ensures t[i] == table[i]
    {
      OthersAreKept(table, lists, vs, t, i);
    }
    if stop == |table| {
      forall l: nat | l < 3 && BornOnce(table, l)
        ensures ListHooked(table, lists[l], l, t, ls[l])
      {
        ListIsHooked(table, lists, l, t, ls);
      }
      forall l: nat | l < 3 && Absent(table, l)
        ensures ls[l] == lists[l]
      {
        AbsentIsKept(table, lists, l, ls);
      }
    }
  }

  // No two methods bear the name, and what the list replaces has a function.
  ghost predicate OneBound(table: seq<Native>, ms: seq<Method>, l: nat) {
    && (forall i: nat, k: nat :: Bears(table, l, i) && Bears(table, l, k) ==> i == k)
    && forall i, j :: 0 <= i < |table| && 0 <= j < |ms| && Replaces(ms[j], table[i]) ==> table[i].fn != 0
  }

  lemma OneBoundIsOne(table: seq<Native>, ms: seq<Method>, l: nat)
    requires l < 3 && OneBound(table, ms, l)
    ensures OneBoundMethod(table, ms, l)
  {
    VisitedByName(table, l);
    forall i: nat | i < |table| && Setter(ms, table[i], |ms|).Some?
      ensures table[i].fn != 0
    {
      assert Replaces(ms[Setter(ms, table[i], |ms|).value], table[i]);
    }
  }

  /** Then giving up leaves the class as it was, and so does restoring what was hooked. */
  lemma OneBoundIsRestored(table: seq<Native>, lists: seq<seq<Method>>)
    requires DistinctNatives(table) && ZygoteLists(table, lists)
    requires OneBound(table, lists[0], 0) && OneBound(table, lists[1], 1) && OneBound(table, lists[2], 2)
    ensures var (t, ls) := HookZygote(table, lists);
            && |ls| == 3 && RestoreFrom(t, ls, 0) == table
            && (!NothingMissing(table, lists) ==> t == table)
  {
    ListsAreGood(table, lists);
    NothingMissingIsComplete(table, lists);
    OneBoundIsOne(table, lists[0], 0);
    OneBoundIsOne(table, lists[1], 1);
    OneBoundIsOne(table, lists[2], 2);
    OneMethodEach(table, lists, StopsAt(table, lists, 0));
    AllOrNothing(table, lists);
    RestoreUndoesHook(table, lists);
  }

  const SPECIALIZE := Native("nativeSpecializeAppProcess", "s", "s", 7)
  const SPECIALIZE_HOOK := Method("nativeSpecializeAppProcess", "s", 100)

  lemma SpecializePremises()
    ensures var table, lists := [SPECIALIZE], [[], [SPECIALIZE_HOOK], []];
            DistinctNatives(table) && ZygoteLists(table, lists) && NothingMissing(table, lists)
  {
    var table, lists := [SPECIALIZE], [[], [SPECIALIZE_HOOK], []];
    SpecializeNames(table);
    assert Replaces(lists[1][0], table[0]);
  }

  lemma SpecializeNames(table: seq<Native>)
    requires table == [SPECIALIZE]
    ensures Bears(table, 1, 0) && BornOnce(table, 1) && Absent(table, 0) && Absent(table, 2)
  {
    assert Bears(table, 1, 0) && !Bears(table, 0, 0) && !Bears(table, 2, 0);
  }

  lemma SpecializeResult(table: seq<Native>, list: seq<Method>, t: seq<Native>, r: seq<Method>)
    requires table == [SPECIALIZE] && list == [SPECIALIZE_HOOK]
    requires SameShape(table, t) && ListHooked(table, list, 1, t, r)
    ensures t == [SPECIALIZE.(fn := 100)] && r == [SPECIALIZE_HOOK.(fn := 7)]
  {
    SpecializeNames(table);
    assert Replaces(list[0], table[0]);
    assert table[0].(fn := 0) == t[0].(fn := 0);
    assert IsReplaced(table, list, t, 0) && IsOriginalOf(table, list, r, 0);
  }

  /** A class with one bound entry point, the second of the three, and a list for it. */
  lemma SpecializeIsHooked()
    ensures HookZygote([SPECIALIZE], [[], [SPECIALIZE_HOOK], []]) ==
            ([SPECIALIZE.(fn := 100)], [[], [SPECIALIZE_HOOK.(fn := 7)], []])
  {
    var table, lists := [SPECIALIZE], [[], [SPECIALIZE_HOOK], []];
    var (t, ls) := HookZygote(table, lists);
    SpecializePremises();
    SpecializeNames(table);
    EntryPointsHooked(table, lists);
    SpecializeResult(table, lists[1], t, ls[1]);
    assert ls == [ls[0], ls[1], ls[2]];
  }
}
