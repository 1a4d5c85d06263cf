/**
 Replacing the native methods of a Java class and putting them back: register_jni_methods and
 hook_jni_methods.
 */
module JniHooks {
  import opened Options

  // A native method of the class. shown is its signature as getNativeMethods prints it, which is
  // not the signature that RegisterNatives takes.
  datatype Native = Native(name: string, sig: string, shown: string, fn: nat)

  // An entry of the caller's list; fn == 0 is a null pointer.
  datatype Method = Method(name: string, sig: string, fn: nat)

  // ----- RegisterNatives, one method at a time -----

  predicate Names(n: Native, m: Method) {
    n.name == m.name && n.sig == m.sig
  }

  function IndexOf(table: seq<Native>, m: Method): (r: Option<nat>)
    ensures r.Some? ==> r.value < |table| && Names(table[r.value], m)
    ensures r.None? ==> forall i :: 0 <= i < |table| ==> !Names(table[i], m)
    decreases |table|
  {
    if table == [] then None
    else if Names(table[0], m) then Some(0)
    else
      match IndexOf(table[1..], m)
      case None => None
      case Some(i) => Some(i + 1)
  }

  function RegisterOne(table: seq<Native>, m: Method): (seq<Native>, Method) {
    if m.fn == 0 then (table, m)
    else
      match IndexOf(table, m)
      case None => (table, m.(fn := 0))
      case Some(i) => (table[i := table[i].(fn := m.fn)], m)
  }

  // The first n entries of the list registered in turn.
  function RegisterFirst(table: seq<Native>, ms: seq<Method>, n: nat): (r: (seq<Native>, seq<Method>))
    requires n <= |ms|
    ensures |r.0| == |table| && |r.1| == |ms|
    ensures forall j :: n <= j < |ms| ==> r.1[j] == ms[j]
    decreases n
  {
    if n == 0 then (table, ms)
    else
      var (t, l) := RegisterFirst(table, ms, n - 1);
      var (t', m) := RegisterOne(t, l[n - 1]);
      (t', l[n - 1 := m])
  }

  function RegisterAll(table: seq<Native>, ms: seq<Method>): (seq<Native>, seq<Method>) {
    RegisterFirst(table, ms, |ms|)
  }

  predicate SameShape(a: seq<Native>, b: seq<Native>) {
    |a| == |b| && forall i :: 0 <= i < |a| ==> a[i].(fn := 0) == b[i].(fn := 0)
  }

  // No two native methods of a class have the same name and signature, in either notation.
  predicate DistinctNatives(table: seq<Native>) {
    forall i, j :: 0 <= i < j < |table| && table[i].name == table[j].name ==>
      table[i].sig != table[j].sig && table[i].shown != table[j].shown
  }

  predicate DistinctMethods(ms: seq<Method>) {
    forall i, j :: 0 <= i < j < |ms| ==> ms[i].name != ms[j].name || ms[i].sig != ms[j].sig
  }

  lemma SameShapeSameIndex(a: seq<Native>, b: seq<Native>, m: Method)
    requires SameShape(a, b)
    ensures IndexOf(a, m) == IndexOf(b, m)
    decreases |a|
  {
    if a != [] {
      assert a[0].(fn := 0) == b[0].(fn := 0);
      forall i | 0 <= i < |a| - 1
        ensures a[1..][i].(fn := 0) == b[1..][i].(fn := 0)
      {
        assert a[i + 1].(fn := 0) == b[i + 1].(fn := 0);
      }
      SameShapeSameIndex(a[1..], b[1..], m);
    }
  }

  // Where entry i of the table gets its pointer from, among the first n of the list.
  function Setter(ms: seq<Method>, entry: Native, n: nat): (r: Option<nat>)
    requires n <= |ms|
    ensures r.Some? ==> r.value < n && ms[r.value].fn != 0 && Names(entry, ms[r.value])
    ensures r.None? ==> forall j :: 0 <= j < n && ms[j].fn != 0 ==> !Names(entry, ms[j])
    decreases n
  {
    if n == 0 then None
    else if ms[n - 1].fn != 0 && Names(entry, ms[n - 1]) then Some(n - 1)
    else Setter(ms, entry, n - 1)
  }

  // Registering touches exactly the entries that the list names, and nulls what the class lacks.
  ghost predicate Registered(table: seq<Native>, ms: seq<Method>, n: nat, t: seq<Native>, l: seq<Method>)
    requires n <= |ms|
  {
    && SameShape(table, t) && |l| == |ms|
    && (forall i :: 0 <= i < |table| ==>
          t[i].fn == match Setter(ms, table[i], n) case None => table[i].fn case Some(j) => ms[j].fn)
    && (forall j :: 0 <= j < n ==> l[j] == if IndexOf(table, ms[j]).None? then ms[j].(fn := 0) else ms[j])
    && (forall j :: n <= j < |ms| ==> l[j] == ms[j])
  }

  lemma {:induction false} RegisterFirstEffect(table: seq<Native>, ms: seq<Method>, n: nat)
    requires n <= |ms| && DistinctNatives(table)
    ensures var r := RegisterFirst(table, ms, n); Registered(table, ms, n, r.0, r.1)
    decreases n
  {
    if n == 0 {
      NothingRegistered(table, ms);
    } else {
      var (t, l) := RegisterFirst(table, ms, n - 1);
      RegisterFirstEffect(table, ms, n - 1);
      SameShapeSameIndex(table, t, ms[n - 1]);
      RegisterNext(table, ms, n - 1, t, l);
      RegisterFirstNext(table, ms, n - 1);
    }
  }

  lemma NothingRegistered(table: seq<Native>, ms: seq<Method>)
    ensures Registered(table, ms, 0, table, ms)
  {
  }

  lemma RegisterFirstNext(table: seq<Native>, ms: seq<Method>, n: nat)
    requires n < |ms|
    ensures var (t, l) := RegisterFirst(table, ms, n);
            var r := RegisterOne(t, l[n]);
            RegisterFirst(table, ms, n + 1) == (r.0, l[n := r.1])
  {
  }

  lemma OneOfThatName(table: seq<Native>, m: Method, i: nat)
    requires DistinctNatives(table) && i < |table|
    ensures Names(table[i], m) <==> IndexOf(table, m) == Some(i)
  {
  }

  lemma RegisterNext(table: seq<Native>, ms: seq<Method>, n: nat, t: seq<Native>, l: seq<Method>)
    requires n < |ms| && DistinctNatives(table) && Registered(table, ms, n, t, l)
    requires IndexOf(table, ms[n]) == IndexOf(t, ms[n])
    ensures var r := RegisterOne(t, l[n]); Registered(table, ms, n + 1, r.0, l[n := r.1])
  {
    var m := ms[n];
    var (t', m') := RegisterOne(t, l[n]);
    assert SameShape(t, t');
    forall i | 0 <= i < |table|
      ensures table[i].(fn := 0) == t'[i].(fn := 0)
      ensures t'[i].fn == match Setter(ms, table[i], n + 1) case None => table[i].fn case Some(j) => ms[j].fn
    {
      assert table[i].(fn := 0) == t[i].(fn := 0);
      OneOfThatName(table, m, i);
    }
  }

  // ----- hook_jni_methods -----

  // The pointer that the entry n had in the old table.
  function OldPointer(former: seq<Native>, n: Native): (r: Option<nat>)
    decreases |former|
  {
    if former == [] then None
    else if former[0].name == n.name && former[0].shown == n.shown then Some(former[0].fn)
    else OldPointer(former[1..], n)
  }

  // The search of the nested loops: an entry of the new table that holds fn, and what it held.
  function Original(former: seq<Native>, latter: seq<Native>, fn: nat): Option<nat>
    decreases |latter|
  {
    if latter == [] then None
    else if latter[0].fn == fn && OldPointer(former, latter[0]).Some? then OldPointer(former, latter[0])
    else Original(former, latter[1..], fn)
  }

  function SwapOne(former: seq<Native>, latter: seq<Native>, m: Method): Method {
    if m.fn == 0 then m
    else
      match Original(former, latter, m.fn)
      case None => m
      case Some(fn) => m.(fn := fn)
  }

  function Swapped(former: seq<Native>, latter: seq<Native>, ms: seq<Method>): (r: seq<Method>)
    ensures |r| == |ms| && forall j :: 0 <= j < |ms| ==> r[j] == SwapOne(former, latter, ms[j])
  {
    seq(|ms|, j requires 0 <= j < |ms| => SwapOne(former, latter, ms[j]))
  }

  // How many of the first n entries found an original.
  function HookCount(former: seq<Native>, latter: seq<Native>, ms: seq<Method>, n: nat): (c: nat)
    requires n <= |ms|
    decreases n
  {
    if n == 0 then 0
    else
      (if ms[n - 1].fn != 0 && Original(former, latter, ms[n - 1].fn).Some? then 1 else 0) +
      HookCount(former, latter, ms, n - 1)
  }

  datatype Outcome = Outcome(table: seq<Native>, list: seq<Method>, count: nat)

  function Hook(table: seq<Native>, ms: seq<Method>): Outcome {
    var (t, l) := RegisterAll(table, ms);
    Outcome(t, Swapped(table, t, l), HookCount(table, t, l, |l|))
  }

  // ----- what hooking leaves, and how to undo it -----

  // Hook pointers that occur nowhere else.
  predicate FreshPointers(table: seq<Native>, ms: seq<Method>) {
    && (forall i, j :: 0 <= i < |table| && 0 <= j < |ms| && ms[j].fn != 0 ==> table[i].fn != ms[j].fn)
    && (forall i, j :: 0 <= i < j < |ms| && ms[i].fn != 0 ==> ms[i].fn != ms[j].fn)
  }

  predicate Hookable(table: seq<Native>, ms: seq<Method>) {
    DistinctNatives(table) && DistinctMethods(ms) && FreshPointers(table, ms)
  }

  // The pointer of entry i once the list is hooked.
  function HookedPointer(table: seq<Native>, ms: seq<Method>, i: nat): nat
    requires i < |table|
  {
    match Setter(ms, table[i], |ms|)
    case None => table[i].fn
    case Some(j) => ms[j].fn
  }

  // The pointer of list entry j once the list is hooked: the original, or null.
  function ReturnedPointer(table: seq<Native>, m: Method): nat {
    if m.fn == 0 then 0
    else
      match IndexOf(table, m)
      case None => 0
      case Some(i) => table[i].fn
  }

  lemma {:induction false} OldPointerAt(former: seq<Native>, n: Native, i: nat)
    requires DistinctNatives(former) && i < |former| && former[i].name == n.name && former[i].shown == n.shown
    ensures OldPointer(former, n) == Some(former[i].fn)
    decreases |former|
  {
    if i > 0 {
      assert former[0].name == former[i].name ==> former[0].shown != former[i].shown;
      OldPointerAt(former[1..], n, i - 1);
    }
  }

  lemma {:induction false} OriginalAt(former: seq<Native>, latter: seq<Native>, fn: nat, i: nat)
    requires i < |latter| && latter[i].fn == fn && OldPointer(former, latter[i]).Some?
    requires forall k :: 0 <= k < i ==> latter[k].fn != fn
    ensures Original(former, latter, fn) == OldPointer(former, latter[i])
    decreases |latter|
  {
    if i > 0 {
      OriginalAt(former, latter[1..], fn, i - 1);
    }
  }

  lemma {:induction false} SetterOf(ms: seq<Method>, entry: Native, j: nat, n: nat)
    requires DistinctMethods(ms) && j < n <= |ms| && ms[j].fn != 0 && Names(entry, ms[j])
    ensures Setter(ms, entry, n) == Some(j)
    decreases n
  {
    if n - 1 != j {
      SetterOf(ms, entry, j, n - 1);
    }
  }

  // A list entry that the class has is found again by its pointer, and by it alone.
  lemma MatchedOriginal(table: seq<Native>, ms: seq<Method>, j: nat)
    requires Hookable(table, ms) && j < |ms| && ms[j].fn != 0 && IndexOf(table, ms[j]).Some?
    ensures Original(table, RegisterAll(table, ms).0, ms[j].fn) == Some(table[IndexOf(table, ms[j]).value].fn)
  {
    var (t, l) := RegisterAll(table, ms);
    RegisterFirstEffect(table, ms, |ms|);
    var i := IndexOf(table, ms[j]).value;
    SetterOf(ms, table[i], j, |ms|);
    assert table[i].(fn := 0) == t[i].(fn := 0);
    OldPointerAt(table, t[i], i);
    forall k | 0 <= k < |t| && k != i
      ensures t[k].fn != ms[j].fn
    {
      OneOfThatName(table, ms[j], k);
      var setter := Setter(ms, table[k], |ms|);
      if setter.Some? {
        assert setter.value != j;
      }
    }
    OriginalAt(table, t, ms[j].fn, i);
  }

  /** Each hooked entry of the list holds its original pointer, each unmatched one null, and the
      class holds the hooks. */
  lemma HookLeaves(table: seq<Native>, ms: seq<Method>)
    requires Hookable(table, ms)
    ensures var h := Hook(table, ms);
            && SameShape(table, h.table)
            && (forall i :: 0 <= i < |table| ==> h.table[i].fn == HookedPointer(table, ms, i))
            && |h.list| == |ms|
            && (forall j :: 0 <= j < |ms| ==> h.list[j] == ms[j].(fn := ReturnedPointer(table, ms[j])))
  {
    var (t, l) := RegisterAll(table, ms);
    RegisterFirstEffect(table, ms, |ms|);
    forall j | 0 <= j < |ms|
      ensures Hook(table, ms).list[j] == ms[j].(fn := ReturnedPointer(table, ms[j]))
    {
      if ms[j].fn != 0 && IndexOf(table, ms[j]).Some? {
        MatchedOriginal(table, ms, j);
      }
    }
  }

  lemma CountedExactly(table: seq<Native>, ms: seq<Method>, j: nat)
    requires Hookable(table, ms) && j < |ms|
    ensures var (t, l) := RegisterAll(table, ms);
            l[j].fn != 0 && Original(table, t, l[j].fn).Some? <==> ms[j].fn != 0 && IndexOf(table, ms[j]).Some?
  {
    RegisterFirstEffect(table, ms, |ms|);
    if ms[j].fn != 0 && IndexOf(table, ms[j]).Some? {
      MatchedOriginal(table, ms, j);
    }
  }

  /** The count is zero exactly when the class has none of the listed methods. */
  lemma {:induction false} CountIsZero(table: seq<Native>, ms: seq<Method>, n: nat)
    requires Hookable(table, ms) && n <= |ms|
    ensures var (t, l) := RegisterAll(table, ms);
            HookCount(table, t, l, n) == 0 <==>
            forall j :: 0 <= j < n && ms[j].fn != 0 ==> IndexOf(table, ms[j]).None?
    decreases n
  {
    if n > 0 {
      CountIsZero(table, ms, n - 1);
      CountedExactly(table, ms, n - 1);
    }
  }

  // No hooked entry was unbound before.
  predicate OriginalsBound(table: seq<Native>, ms: seq<Method>) {
    forall i :: 0 <= i < |table| && Setter(ms, table[i], |ms|).Some? ==> table[i].fn != 0
  }

  lemma ReturnedMethods(table: seq<Native>, ms: seq<Method>)
    requires Hookable(table, ms)
    ensures var h := Hook(table, ms); DistinctNatives(h.table) && DistinctMethods(h.list)
  {
    HookLeaves(table, ms);
    var h := Hook(table, ms);
    forall i, j | 0 <= i < j < |table| && h.table[i].name == h.table[j].name
      ensures h.table[i].sig != h.table[j].sig && h.table[i].shown != h.table[j].shown
    {
      assert table[i].(fn := 0) == h.table[i].(fn := 0) && table[j].(fn := 0) == h.table[j].(fn := 0);
    }
  }

  // Registering the returned list puts entry i back, unless it was hooked over a null pointer.
  lemma RestoredEntry(table: seq<Native>, ms: seq<Method>, i: nat)
    requires Hookable(table, ms) && i < |table|
    ensures var h := Hook(table, ms);
            var t := RegisterAll(h.table, h.list).0;
            i < |t| && t[i] == if Setter(ms, table[i], |ms|).Some? && table[i].fn == 0 then h.table[i] else table[i]
  {
    var h := Hook(table, ms);
    HookLeaves(table, ms);
    ReturnedMethods(table, ms);
    RegisterFirstEffect(h.table, h.list, |ms|);
    var t := RegisterAll(h.table, h.list).0;
    assert table[i].(fn := 0) == h.table[i].(fn := 0) && h.table[i].(fn := 0) == t[i].(fn := 0);
    var setter := Setter(ms, table[i], |ms|);
    if setter.Some? {
      OneOfThatName(table, ms[setter.value], i);
      if table[i].fn != 0 {
        SetterOf(h.list, h.table[i], setter.value, |ms|);
      } else {
        forall j | 0 <= j < |ms| && Names(table[i], ms[j])
          ensures h.list[j].fn == 0
        {
          OneOfThatName(table, ms[j], i);
        }
      }
    } else {
      var again := Setter(h.list, h.table[i], |ms|);
      if again.Some? {
        assert Names(table[i], ms[again.value]);
      }
    }
  }

  /** Registering the returned list restores the class exactly when every hooked method was bound. */
  lemma RestoredExactly(table: seq<Native>, ms: seq<Method>)
    requires Hookable(table, ms)
    ensures var h := Hook(table, ms);
            RegisterAll(h.table, h.list).0 == table <==> OriginalsBound(table, ms)
  {
    var h := Hook(table, ms);
    HookLeaves(table, ms);
    var t := RegisterAll(h.table, h.list).0;
    forall i | 0 <= i < |table|
      ensures t[i] == if Setter(ms, table[i], |ms|).Some? && table[i].fn == 0 then h.table[i] else table[i]
    {
      RestoredEntry(table, ms, i);
    }
    if OriginalsBound(table, ms) {
      assert t == table;
    } else {
      var i :| 0 <= i < |table| && Setter(ms, table[i], |ms|).Some? && table[i].fn == 0;
      assert t[i].fn == HookedPointer(table, ms, i) != 0;
    }
  }

  /** Hooking the returned list again, as a second overload of an entry point makes hook_zygote_jni
      do, takes the hooks off. */
  lemma SecondHookUndoes(table: seq<Native>, ms: seq<Method>)
    requires Hookable(table, ms) && OriginalsBound(table, ms)
    ensures var h := Hook(table, ms); Hook(h.table, h.list).table == table
  {
    RestoredExactly(table, ms);
  }

  // ----- the loops themselves -----

  class JavaClass {
    var natives: seq<Native>

    // env->RegisterNatives for one method; false stands for JNI_ERR or a pending exception.
    method RegisterNatives(m: Method) returns (ok: bool)
      modifies this
      ensures ok <==> IndexOf(old(natives), m).Some?
      ensures natives == if ok then old(natives)[IndexOf(old(natives), m).value :=
                                      old(natives)[IndexOf(old(natives), m).value].(fn := m.fn)]
                         else old(natives)
    {
      var at := IndexOf(natives, m);
      ok := at.Some?;
      if ok {
        natives := natives[at.value := natives[at.value].(fn := m.fn)];
      }
    }
  }

  method RegisterJniMethods(clazz: JavaClass, methods: array<Method>)
    modifies clazz, methods
    ensures (clazz.natives, methods[..]) == RegisterAll(old(clazz.natives), old(methods[..]))
  {
    var n := 0;
    while n < methods.Length
      invariant 0 <= n <= methods.Length
      invariant (clazz.natives, methods[..]) == RegisterFirst(old(clazz.natives), old(methods[..]), n)
    {
      var m := methods[n];
      ghost var before := methods[..];
      if m.fn != 0 {
        var ok := clazz.RegisterNatives(m);
        if !ok {
          methods[n] := m.(fn := 0);
        }
      }
      assert methods[..] == before[n := methods[n]];
      n := n + 1;
    }
  }

  // The search of hook_jni_methods for one entry: over the new methods, and within over the old.
  method FindOriginal(former: seq<Native>, latter: seq<Native>, fn: nat) returns (r: Option<nat>)
    ensures r == Original(former, latter, fn)
  {
    var i := 0;
    while i < |latter|
      invariant 0 <= i <= |latter|
      invariant Original(former, latter, fn) == Original(former, latter[i..], fn)
    {
      assert latter[i..][1..] == latter[i + 1..];
      if latter[i].fn == fn {
        var k := 0;
        while k < |former|
          invariant 0 <= k <= |former|
          invariant OldPointer(former, latter[i]) == OldPointer(former[k..], latter[i])
        {
          assert former[k..][1..] == former[k + 1..];
          if former[k].name == latter[i].name && former[k].shown == latter[i].shown {
            return Some(former[k].fn);
          }
          k := k + 1;
        }
      }
      i := i + 1;
    }
    r := None;
  }

  method HookJniMethods(clazz: JavaClass, methods: array<Method>) returns (count: nat)
    modifies clazz, methods
    ensures Outcome(clazz.natives, methods[..], count) == Hook(old(clazz.natives), old(methods[..]))
  {
    var former := clazz.natives;
    RegisterJniMethods(clazz, methods);
    var latter := clazz.natives;
    ghost var l := methods[..];
    count := 0;
    var n := 0;
    while n < methods.Length
      invariant 0 <= n <= methods.Length
      invariant clazz.natives == latter
      invariant forall j :: 0 <= j < n ==> methods[j] == SwapOne(former, latter, l[j])
      invariant forall j :: n <= j < methods.Length ==> methods[j] == l[j]
      invariant count == HookCount(former, latter, l, n)
    {
      var m := methods[n];
      if m.fn != 0 {
        var original := FindOriginal(former, latter, m.fn);
        if original.Some? {
          methods[n] := m.(fn := original.value);
          count := count + 1;
        }
      }
      n := n + 1;
    }
    assert methods[..] == Swapped(former, latter, l);
  }
}
