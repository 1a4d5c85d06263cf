/**
 hook_zygote_jni: hook every entry point of the Zygote class, or roll back.
 */
module JniZygote {
  import opened Options
  import opened JniHooks

  const FORK_APP := "nativeForkAndSpecialize"
  const SPECIALIZE_APP := "nativeSpecializeAppProcess"
  const FORK_SERVER := "nativeForkSystemServer"

  // Which of the three lists is for methods of a name.
  function EntryPoint(name: string): (r: Option<nat>)
    ensures r.Some? ==> r.value < 3
  {
    if name == FORK_APP then Some(0)
    else if name == SPECIALIZE_APP then Some(1)
    else if name == FORK_SERVER then Some(2)
    else None
  }

  datatype Progress = Progress(table: seq<Native>, lists: seq<seq<Method>>, replaced: seq<bool>) {
    predicate Valid() { |lists| == 3 && |replaced| == 3 }
  }

  // The loop over the methods that the class had at the start; true means a method was missing.
  function Visit(z: Progress, natives: seq<Native>): (r: (Progress, bool))
    requires z.Valid()
    ensures r.0.Valid()
    decreases |natives|
  {
    if natives == [] then (z, false)
    else
      match EntryPoint(natives[0].name)
      case None => Visit(z, natives[1..])
      case Some(l) =>
        var h := Hook(z.table, z.lists[l]);
        var z' := z.(table := h.table, lists := z.lists[l := h.list]);
        if h.count == 0 then (z', true)
        else Visit(z'.(replaced := z.replaced[l := true]), natives[1..])
  }

  // The roll-back: lists from l on that were hooked are registered again.
  function RollBack(z: Progress, l: nat): (t: seq<Native>)
    requires z.Valid() && l <= 3
    decreases 3 - l
  {
    if l == 3 then z.table
    else
      var table := if z.replaced[l] then RegisterAll(z.table, z.lists[l]).0 else z.table;
      RollBack(z.(table := table), l + 1)
  }

  function Nulled(ms: seq<Method>): (r: seq<Method>)
    ensures |r| == |ms| && forall j :: 0 <= j < |ms| ==> r[j] == ms[j].(fn := 0)
  {
    seq(|ms|, j requires 0 <= j < |ms| => ms[j].(fn := 0))
  }

  function HookZygote(table: seq<Native>, lists: seq<seq<Method>>): (seq<Native>, seq<seq<Method>>)
    requires |lists| == 3
  {
    var (z, missing) := Visit(Progress(table, lists, [false, false, false]), table);
    if missing then
      (RollBack(z, 0), [Nulled(z.lists[0]), Nulled(z.lists[1]), Nulled(z.lists[2])])
    else
      (z.table, z.lists)
  }

  // ----- restore_zygote_hook -----

  // The three lists registered again, whatever they hold.
  function RestoreFrom(table: seq<Native>, lists: seq<seq<Method>>, l: nat): (t: seq<Native>)
    requires |lists| == 3 && l <= 3
    decreases 3 - l
  {
    if l == 3 then table else RestoreFrom(RegisterAll(table, lists[l]).0, lists, l + 1)
  }

  // ----- the methods -----

  predicate ThreeArrays(lists: seq<array<Method>>) {
    |lists| == 3 && lists[0] != lists[1] && lists[0] != lists[2] && lists[1] != lists[2]
  }

  ghost function Contents(lists: seq<array<Method>>): (r: seq<seq<Method>>)
    requires |lists| == 3
    reads lists
  {
    [lists[0][..], lists[1][..], lists[2][..]]
  }

  // hook_zygote_jni from the method loop on.
  method HookZygoteJni(clazz: JavaClass, lists: seq<array<Method>>)
    requires ThreeArrays(lists)
    modifies clazz, lists
    ensures (clazz.natives, Contents(lists)) == HookZygote(old(clazz.natives), old(Contents(lists)))
  {
    var methods := clazz.natives;
    var missing := false;
    var replaced := [false, false, false];
    ghost var start := Progress(clazz.natives, Contents(lists), replaced);
    var i := 0;
    assert methods[0..] == methods;
    while i < |methods|
      invariant 0 <= i <= |methods| && |replaced| == 3 && !missing
      invariant Visit(start, methods) == Visit(Progress(clazz.natives, Contents(lists), replaced), methods[i..])
    {
      var entry := EntryPoint(methods[i].name);
      assert methods[i..][1..] == methods[i + 1..];
      if entry.Some? {
        var count := HookList(clazz, lists, entry.value);
        if count == 0 {
          missing := true;
          break;
        }
        replaced := replaced[entry.value := true];
      }
      i := i + 1;
    }
    if missing {
      ghost var z := Progress(clazz.natives, Contents(lists), replaced);
      assert Visit(start, methods) == (z, true);
      RollBackAll(clazz, lists, replaced);
    } else {
      assert methods[i..] == [];
    }
  }

  method RestoreZygoteHook(clazz: JavaClass, lists: seq<array<Method>>)
    requires ThreeArrays(lists)
    modifies clazz, lists
    ensures clazz.natives == RestoreFrom(old(clazz.natives), old(Contents(lists)), 0)
  {
    RegisterJniMethods(clazz, lists[0]);
    RegisterJniMethods(clazz, lists[1]);
    RegisterJniMethods(clazz, lists[2]);
  }

  method HookList(clazz: JavaClass, lists: seq<array<Method>>, l: nat) returns (count: nat)
    requires ThreeArrays(lists) && l < 3
    modifies clazz, lists[l]
    ensures var h := Hook(old(clazz.natives), old(Contents(lists))[l]);
            clazz.natives == h.table && Contents(lists) == old(Contents(lists))[l := h.list] && count == h.count
  {
    count := HookJniMethods(clazz, lists[l]);
  }

  method RollBackAll(clazz: JavaClass, lists: seq<array<Method>>, replaced: seq<bool>)
    requires ThreeArrays(lists) && |replaced| == 3
    modifies clazz, lists
    ensures clazz.natives == RollBack(Progress(old(clazz.natives), old(Contents(lists)), replaced), 0)
    ensures Contents(lists) == [Nulled(old(lists[0][..])), Nulled(old(lists[1][..])), Nulled(old(lists[2][..]))]
  {
    ghost var ls := Contents(lists);
    var l := 0;
    while l < 3
      invariant 0 <= l <= 3
      invariant RollBack(Progress(old(clazz.natives), ls, replaced), 0) == RollBack(Progress(clazz.natives, ls, replaced), l)
      invariant forall k :: 0 <= k < 3 ==> Nulled(lists[k][..]) == Nulled(ls[k])
      invariant forall k :: l <= k < 3 ==> lists[k][..] == ls[k]
    {
      if replaced[l] {
        ghost var t := clazz.natives;
        RegisterJniMethods(clazz, lists[l]);
        RegisterKeepsNames(t, ls[l], |ls[l]|);
      }
      l := l + 1;
    }
    NullLists(lists);
  }

  method NullLists(lists: seq<array<Method>>)
    requires ThreeArrays(lists)
    modifies lists
    ensures Contents(lists) == [Nulled(old(lists[0][..])), Nulled(old(lists[1][..])), Nulled(old(lists[2][..]))]
  {
    var l := 0;
    while l < 3
      invariant 0 <= l <= 3
      invariant forall k :: 0 <= k < l ==> lists[k][..] == Nulled(old(lists[k][..]))
      invariant forall k :: l <= k < 3 ==> lists[k][..] == old(lists[k][..])
    {
      NullAll(lists[l]);
      l := l + 1;
    }
  }

  lemma {:induction false} RegisterKeepsNames(table: seq<Native>, ms: seq<Method>, n: nat)
    requires n <= |ms|
    ensures Nulled(RegisterFirst(table, ms, n).1) == Nulled(ms)
    decreases n
  {
    if n > 0 {
      RegisterKeepsNames(table, ms, n - 1);
      var l := RegisterFirst(table, ms, n - 1).1;
      assert Nulled(l)[n - 1] == Nulled(ms)[n - 1];
    }
  }

  method NullAll(methods: array<Method>)
    modifies methods
    ensures methods[..] == Nulled(old(methods[..]))
  {
    var j := 0;
    while j < methods.Length
      invariant 0 <= j <= methods.Length
      invariant forall i :: 0 <= i < j ==> methods[i] == old(methods[i]).(fn := 0)
      invariant forall i :: j <= i < methods.Length ==> methods[i] == old(methods[i])
    {
      methods[j] := methods[j].(fn := 0);
      j := j + 1;
    }
  }
}
