/**
 What hook_zygote_jni and restore_zygote_hook do to any class: overloaded entry points, unbound
 methods, missing ones and shared pointers included. Every native method that bears the name of an
 entry point makes the loop hook the whole list of that entry point once more, and hooking twice takes
 the hooks off, unless the search for a pointer finds another method first.
 */
module JniOverloads {
  import opened Options
  import opened JniHooks
  import opened JniZygote

  // How many of the first n methods of the class bear the name of entry point l.
  function Visits(table: seq<Native>, l: nat, n: nat): (v: nat)
    requires n <= |table|
    decreases n
  {
    if n == 0 then 0
    else Visits(table, l, n - 1) + if EntryPoint(table[n - 1].name) == Some(l) then 1 else 0
  }

  // How often a list has been hooked: not at all, once, an even number of times, or an odd one from
  // three on.
  datatype Times = Never | Once | Evenly | Oddly

  function Next(v: Times): Times {
    match v
    case Never => Once
    case Once => Evenly
    case Evenly => Oddly
    case Oddly => Evenly
  }

  function TimesOf(v: nat): Times {
    if v == 0 then Never else Next(TimesOf(v - 1))
  }

  lemma {:induction false} TimesIsRemainder(v: nat)
    ensures TimesOf(v).Never? <==> v == 0
    ensures TimesOf(v).Once? <==> v == 1
    ensures TimesOf(v).Oddly? <==> v % 2 == 1 && v > 1
    ensures TimesOf(v).Evenly? <==> v % 2 == 0 && v > 0
    decreases v
  {
    if v > 0 {
      TimesIsRemainder(v - 1);
    }
  }

  function TimesAt(table: seq<Native>, l: nat, n: nat): (v: Times)
    requires n <= |table|
  {
    TimesOf(Visits(table, l, n))
  }

  // What is known of a list: how often it has been hooked, and the originals it got back for themselves,
  // because a method further to the front held the same pointer.
  datatype Seen = Seen(times: Times, stuck: set<nat>) {
    // Nothing is brought back before the second visit.
    predicate Fits() {
      times.Never? || times.Once? ==> stuck == {}
    }

    // Registered once more.
    function Step(): Seen {
      Seen(Next(times), stuck)
    }
  }

  predicate IsOriginal(table: seq<Native>, ms: seq<Method>, i: nat)
    requires i < |table|
  {
    table[i].fn != 0 && Setter(ms, table[i], |ms|).Some?
  }

  // Method i was bound to fn, and the list hooks it.
  predicate Shares(table: seq<Native>, ms: seq<Method>, fn: nat, i: nat) {
    i < |table| && table[i].fn == fn && IsOriginal(table, ms, i)
  }

  // The first of them from n on.
  function LeaderFrom(table: seq<Native>, ms: seq<Method>, fn: nat, n: nat): (r: Option<nat>)
    requires n <= |table|
    ensures r.Some? ==> n <= r.value && Shares(table, ms, fn, r.value)
    ensures r.Some? ==> forall i: nat :: n <= i < r.value ==> !Shares(table, ms, fn, i)
    ensures r.None? ==> forall i: nat :: n <= i ==> !Shares(table, ms, fn, i)
    decreases |table| - n
  {
    if n == |table| then None
    else if Shares(table, ms, fn, n) then Some(n)
    else LeaderFrom(table, ms, fn, n + 1)
  }

  function Leader(table: seq<Native>, ms: seq<Method>, fn: nat): Option<nat> {
    LeaderFrom(table, ms, fn, 0)
  }

  // The hook that the search for fn brings back: that of the first method with that original.
  function LeadHook(table: seq<Native>, ms: seq<Method>, fn: nat): nat {
    match Leader(table, ms, fn)
    case None => 0
    case Some(i) => HookedPointer(table, ms, i)
  }

  // The pointer of method i once its list has been hooked: its own hook the first time, the original
  // after an even number of times, and later the hook that the search brought back, if it did; but a
  // null original is never put back.
  function PointerAfter(table: seq<Native>, ms: seq<Method>, i: nat, s: Seen): nat
    requires i < |table|
  {
    match Setter(ms, table[i], |ms|)
    case None => table[i].fn
    case Some(j) =>
      if s.times.Never? then table[i].fn
      else if table[i].fn == 0 || s.times.Once? then ms[j].fn
      else if s.times.Evenly? || table[i].fn in s.stuck then table[i].fn
      else LeadHook(table, ms, table[i].fn)
  }

  // What the list then holds in the place of m: the pointer found for it in the old class.
  function EntryAfter(table: seq<Native>, ms: seq<Method>, m: Method, s: Seen): nat {
    if s.times.Never? || m.fn == 0 then m.fn
    else
      match IndexOf(table, m)
      case None => 0
      case Some(i) =>
        if table[i].fn == 0 || !s.times.Evenly? || table[i].fn in s.stuck then table[i].fn
        else LeadHook(table, ms, table[i].fn)
  }

  function After(table: seq<Native>, ms: seq<Method>, s: Seen): (r: seq<Method>)
    ensures |r| == |ms| && forall j :: 0 <= j < |ms| ==> r[j] == ms[j].(fn := EntryAfter(table, ms, ms[j], s))
  {
    seq(|ms|, j requires 0 <= j < |ms| => ms[j].(fn := EntryAfter(table, ms, ms[j], s)))
  }

  // The class once the lists are as vs says.
  ghost predicate HookedTimes(table: seq<Native>, lists: seq<seq<Method>>, vs: seq<Seen>, t: seq<Native>) {
    && |lists| == |vs| == 3
    && SameShape(table, t)
    && forall i: nat {:trigger TimesPointer(table, lists, vs, i)} :: i < |table| ==> t[i].fn == TimesPointer(table, lists, vs, i)
  }

  function TimesPointer(table: seq<Native>, lists: seq<seq<Method>>, vs: seq<Seen>, i: nat): nat
    requires i < |table| && |lists| == |vs| == 3
  {
    match EntryPoint(table[i].name)
    case None => table[i].fn
    case Some(l) => PointerAfter(table, lists[l], i, vs[l])
  }

  // A method before the first one of list l that was bound to fn holds fn now.
  ghost predicate Blocked(table: seq<Native>, lists: seq<seq<Method>>, vs: seq<Seen>, l: nat, fn: nat)
    requires |lists| == |vs| == 3 && l < 3
  {
    Leader(table, lists[l], fn).Some? &&
    exists p: nat {:trigger TimesPointer(table, lists, vs, p)} ::
      p < Leader(table, lists[l], fn).value && TimesPointer(table, lists, vs, p) == fn
  }

  // The originals that list l gets back for themselves when it is hooked now.
  ghost function StuckNow(table: seq<Native>, lists: seq<seq<Method>>, vs: seq<Seen>, l: nat): (stuck: set<nat>)
    requires |lists| == |vs| == 3 && l < 3
  {
    set i | 0 <= i < |table| && IsOriginal(table, lists[l], i) && Blocked(table, lists, vs, l, table[i].fn) :: table[i].fn
  }

  // List l hooked once more.
  ghost function NextSeen(table: seq<Native>, lists: seq<seq<Method>>, vs: seq<Seen>, l: nat): Seen
    requires |lists| == |vs| == 3 && l < 3
  {
    var s := vs[l];
    if s.times.Once? || s.times.Oddly? then Seen(Next(s.times), s.stuck + StuckNow(table, lists, vs, l)) else s.Step()
  }

  // The lists after the first n methods of the class.
  ghost function AllSeen(table: seq<Native>, lists: seq<seq<Method>>, n: nat): (vs: seq<Seen>)
    requires n <= |table| && |lists| == 3
    ensures |vs| == 3
    decreases n
  {
    if n == 0 then [Seen(Never, {}), Seen(Never, {}), Seen(Never, {})]
    else
      var vs := AllSeen(table, lists, n - 1);
      match EntryPoint(table[n - 1].name)
      case None => vs
      case Some(l) => vs[l := NextSeen(table, lists, vs, l)]
  }

  lemma {:induction false} SeenTimes(table: seq<Native>, lists: seq<seq<Method>>, n: nat, l: nat)
    requires n <= |table| && |lists| == 3 && l < 3
    ensures AllSeen(table, lists, n)[l].times == TimesAt(table, l, n)
    ensures AllSeen(table, lists, n)[l].Fits()
    decreases n
  {
    if n > 0 {
      SeenTimes(table, lists, n - 1, l);
    }
  }

  // ----- what is assumed of the class and of the lists -----

  // Every entry is for entry point l, no two are for one method, and the hooks occur nowhere else.
  predicate GoodList(table: seq<Native>, ms: seq<Method>, l: nat) {
    && (forall j :: 0 <= j < |ms| ==> EntryPoint(ms[j].name) == Some(l))
    && DistinctMethods(ms)
    && FreshPointers(table, ms)
  }

  predicate Apart(a: seq<Method>, b: seq<Method>) {
    forall i, j :: 0 <= i < |a| && 0 <= j < |b| && a[i].fn != 0 ==> a[i].fn != b[j].fn
  }

  predicate GoodLists(table: seq<Native>, lists: seq<seq<Method>>) {
    && |lists| == 3
    && (forall l: nat {:trigger GoodList(table, lists[l], l)} :: l < 3 ==> GoodList(table, lists[l], l))
    && (forall k: nat, l: nat {:trigger Apart(lists[k], lists[l])} :: k < 3 && l < 3 && k != l ==>
          Apart(lists[k], lists[l]))
  }

  predicate GoodClass(table: seq<Native>, lists: seq<seq<Method>>) {
    DistinctNatives(table) && GoodLists(table, lists)
  }

  // ----- small facts -----

  lemma ShapeDistinct(table: seq<Native>, t: seq<Native>)
    requires DistinctNatives(table) && SameShape(table, t)
    ensures DistinctNatives(t)
  {
    forall i, j | 0 <= i < j < |t| && t[i].name == t[j].name
      ensures t[i].sig != t[j].sig && t[i].shown != t[j].shown
    {
      assert table[i].(fn := 0) == t[i].(fn := 0) && table[j].(fn := 0) == t[j].(fn := 0);
    }
  }

  lemma {:induction false} SameSetter(ms: seq<Method>, a: Native, b: Native, n: nat)
    requires n <= |ms| && a.(fn := 0) == b.(fn := 0)
    ensures Setter(ms, a, n) == Setter(ms, b, n)
    decreases n
  {
    if n > 0 {
      SameSetter(ms, a, b, n - 1);
    }
  }

  // Which method a list entry sets, and which entry sets a method, is one relation.
  lemma SetterAndIndex(table: seq<Native>, ms: seq<Method>, i: nat, j: nat)
    requires DistinctNatives(table) && DistinctMethods(ms) && i < |table| && j < |ms| && ms[j].fn != 0
    ensures Setter(ms, table[i], |ms|) == Some(j) <==> IndexOf(table, ms[j]) == Some(i)
    ensures IndexOf(table, ms[j]) == Some(i) <==> Names(table[i], ms[j])
  {
    OneOfThatName(table, ms[j], i);
    if Names(table[i], ms[j]) {
      SetterOf(ms, table[i], j, |ms|);
    }
  }

  lemma SetterIsMatched(table: seq<Native>, ms: seq<Method>, i: nat)
    requires DistinctNatives(table) && DistinctMethods(ms) && i < |table| && Setter(ms, table[i], |ms|).Some?
    ensures IndexOf(table, ms[Setter(ms, table[i], |ms|).value]) == Some(i)
  {
    SetterAndIndex(table, ms, i, Setter(ms, table[i], |ms|).value);
  }

  // The hook that a search brings back is that of a method the list hooks.
  lemma LeadIsHook(table: seq<Native>, ms: seq<Method>, i: nat) returns (f: nat)
    requires i < |table| && IsOriginal(table, ms, i)
    ensures Leader(table, ms, table[i].fn) == Some(f) && f <= i && Shares(table, ms, table[i].fn, f)
    ensures LeadHook(table, ms, table[i].fn) == ms[Setter(ms, table[f], |ms|).value].fn != 0
  {
    assert Shares(table, ms, table[i].fn, i);
    f := Leader(table, ms, table[i].fn).value;
  }

  lemma EntryNotNull(table: seq<Native>, ms: seq<Method>, i: nat, j: nat, s: Seen)
    requires DistinctNatives(table) && DistinctMethods(ms) && i < |table| && j < |ms| && Setter(ms, table[i], |ms|) == Some(j)
    requires s.times.Never? || table[i].fn != 0
    ensures EntryAfter(table, ms, ms[j], s) != 0
  {
    SetterIsMatched(table, ms, i);
    if table[i].fn != 0 {
      var f := LeadIsHook(table, ms, i);
    }
  }

  // After any number of visits the list still sets the methods it set, except over a null original.
  lemma SetterAfter(table: seq<Native>, ms: seq<Method>, i: nat, s: Seen)
    requires DistinctNatives(table) && DistinctMethods(ms) && i < |table|
    ensures var a := After(table, ms, s);
            && DistinctMethods(a)
            && Setter(a, table[i], |a|) ==
               if s.times.Never? || table[i].fn != 0 then Setter(ms, table[i], |ms|) else None
  {
    var a, setter := After(table, ms, s), Setter(ms, table[i], |ms|);
    if setter.Some? && (s.times.Never? || table[i].fn != 0) {
      EntryNotNull(table, ms, i, setter.value, s);
      SetterOf(a, table[i], setter.value, |a|);
    } else {
      forall j | 0 <= j < |a|
        ensures Names(table[i], a[j]) ==> a[j].fn == 0
      {
        OneOfThatName(table, ms[j], i);
      }
    }
  }

  lemma OtherEntry(table: seq<Native>, ms: seq<Method>, l: nat, i: nat, s: Seen)
    requires GoodList(table, ms, l) && i < |table| && EntryPoint(table[i].name) != Some(l)
    ensures var a := After(table, ms, s); Setter(a, table[i], |a|) == None
  {
    var a := After(table, ms, s);
    forall j | 0 <= j < |a|
      ensures !Names(table[i], a[j])
    {
      assert EntryPoint(ms[j].name) == Some(l);
    }
  }

  // ----- registering a list once more -----

  lemma AdvancedPointer(table: seq<Native>, ms: seq<Method>, i: nat, s: Seen)
    requires DistinctNatives(table) && DistinctMethods(ms) && i < |table|
    ensures var a := After(table, ms, s);
            PointerAfter(table, ms, i, s.Step()) ==
            match Setter(a, table[i], |a|) case None => PointerAfter(table, ms, i, s) case Some(j) => a[j].fn
  {
    SetterAfter(table, ms, i, s);
    if Setter(ms, table[i], |ms|).Some? {
      SetterIsMatched(table, ms, i);
    }
  }

  lemma RegisteredPointer(table: seq<Native>, lists: seq<seq<Method>>, vs: seq<Seen>, l: nat, i: nat)
    requires DistinctNatives(table) && |lists| == |vs| == 3 && l < 3 && i < |table| && GoodList(table, lists[l], l)
    ensures var a := After(table, lists[l], vs[l]);
            TimesPointer(table, lists, vs[l := vs[l].Step()], i) ==
            match Setter(a, table[i], |a|) case None => TimesPointer(table, lists, vs, i) case Some(j) => a[j].fn
  {
    if EntryPoint(table[i].name) == Some(l) {
      AdvancedPointer(table, lists[l], i, vs[l]);
    } else {
      OtherEntry(table, lists[l], l, i, vs[l]);
    }
  }

  /** Registering a list again is hooking it once more, as far as the class can tell. */
  lemma RegisterAdvances(table: seq<Native>, lists: seq<seq<Method>>, vs: seq<Seen>, t: seq<Native>, l: nat)
    requires DistinctNatives(table) && l < 3 && HookedTimes(table, lists, vs, t) && GoodList(table, lists[l], l)
    ensures HookedTimes(table, lists, vs[l := vs[l].Step()], RegisterAll(t, After(table, lists[l], vs[l])).0)
  {
    var a := After(table, lists[l], vs[l]);
    ShapeDistinct(table, t);
    RegisterFirstEffect(t, a, |a|);
    var u := RegisterAll(t, a).0;
    forall i: nat | i < |table|
      ensures table[i].(fn := 0) == u[i].(fn := 0)
      ensures u[i].fn == TimesPointer(table, lists, vs[l := vs[l].Step()], i)
    {
      assert table[i].(fn := 0) == t[i].(fn := 0) && t[i].(fn := 0) == u[i].(fn := 0);
      assert t[i].fn == TimesPointer(table, lists, vs, i);
      SameSetter(a, table[i], t[i], |a|);
      RegisteredPointer(table, lists, vs, l, i);
    }
  }

  // ----- one visit -----

  lemma HooksDiffer(table: seq<Native>, lists: seq<seq<Method>>, k: nat, i: nat, l: nat, j: nat)
    requires GoodLists(table, lists) && k < 3 && l < 3 && i < |lists[k]| && j < |lists[l]| && lists[k][i].fn != 0
    requires k != l || i != j
    ensures lists[k][i].fn != lists[l][j].fn
  {
    assert GoodList(table, lists[k], k);
    assert k != l ==> Apart(lists[k], lists[l]);
  }

  lemma HookIsNew(table: seq<Native>, lists: seq<seq<Method>>, l: nat, i: nat, j: nat)
    requires GoodLists(table, lists) && l < 3 && i < |table| && j < |lists[l]| && lists[l][j].fn != 0
    ensures table[i].fn != lists[l][j].fn
  {
    assert GoodList(table, lists[l], l);
  }

  // Method w is the one that method i has its hook from: itself, or the first with its original.
  predicate HookedFrom(table: seq<Native>, ms: seq<Method>, s: Seen, i: nat, w: nat)
    requires i < |table|
  {
    && !s.times.Never?
    && (w == i || (s.times.Oddly? && IsOriginal(table, ms, i) && Leader(table, ms, table[i].fn) == Some(w)))
    && (s.times.Evenly? ==> table[i].fn == 0)
  }

  // The pointer that method i has, when it is not the original, is a hook of its own list.
  lemma PointerKind(table: seq<Native>, lists: seq<seq<Method>>, vs: seq<Seen>, i: nat) returns (l: nat, j: nat, w: nat)
    requires DistinctNatives(table) && GoodLists(table, lists) && |vs| == 3
    requires i < |table| && TimesPointer(table, lists, vs, i) != table[i].fn
    ensures l < 3 && EntryPoint(table[i].name) == Some(l) && HookedFrom(table, lists[l], vs[l], i, w)
    ensures j < |lists[l]| && TimesPointer(table, lists, vs, i) == lists[l][j].fn != 0
    ensures w < |table| && Setter(lists[l], table[w], |lists[l]|) == Some(j)
  {
    l := EntryPoint(table[i].name).value;
    w := i;
    if vs[l].times.Oddly? && table[i].fn != 0 {
      w := LeadIsHook(table, lists[l], i);
    }
    j := Setter(lists[l], table[w], |lists[l]|).value;
  }

  // Which methods hold hook j of list l.
  lemma HolderOf(table: seq<Native>, lists: seq<seq<Method>>, vs: seq<Seen>, i: nat, l: nat, j: nat)
    requires DistinctNatives(table) && GoodLists(table, lists) && |vs| == 3
    requires i < |table| && l < 3 && j < |lists[l]| && TimesPointer(table, lists, vs, i) == lists[l][j].fn != 0
    ensures exists w: nat :: w < |table| && Setter(lists[l], table[w], |lists[l]|) == Some(j) && HookedFrom(table, lists[l], vs[l], i, w)
  {
    HookIsNew(table, lists, l, i, j);
    var k, m, w := PointerKind(table, lists, vs, i);
    if k != l || m != j {
      HooksDiffer(table, lists, k, m, l, j);
    }
  }

  // An original is held only by methods that are not hooked.
  lemma OriginalHeld(table: seq<Native>, lists: seq<seq<Method>>, vs: seq<Seen>, i: nat, k: nat)
    requires DistinctNatives(table) && GoodLists(table, lists) && |vs| == 3
    requires i < |table| && k < |table| && TimesPointer(table, lists, vs, i) == table[k].fn
    ensures table[i].fn == table[k].fn
  {
    if TimesPointer(table, lists, vs, i) != table[i].fn {
      var l, j, w := PointerKind(table, lists, vs, i);
      HookIsNew(table, lists, l, k, j);
    }
  }

  lemma SameIndexAfter(table: seq<Native>, t: seq<Native>, ms: seq<Method>, s: Seen, j: nat)
    requires SameShape(table, t) && j < |ms|
    ensures IndexOf(t, After(table, ms, s)[j]) == IndexOf(table, ms[j])
  {
    SameShapeSameIndex(table, t, ms[j]);
    SameNamesSameIndex(t, ms[j], After(table, ms, s)[j]);
  }

  lemma {:induction false} SameNamesSameIndex(t: seq<Native>, m: Method, m': Method)
    requires m.name == m'.name && m.sig == m'.sig
    ensures IndexOf(t, m) == IndexOf(t, m')
    decreases |t|
  {
    if t != [] {
      SameNamesSameIndex(t[1..], m, m');
    }
  }

  // The search goes from the front.
  lemma FirstHolder(t: seq<Native>, u: seq<Native>, fn: nat, p: nat)
    requires DistinctNatives(t) && SameShape(t, u) && p < |u| && u[p].fn == fn
    requires forall k :: 0 <= k < p ==> u[k].fn != fn
    ensures Original(t, u, fn) == Some(t[p].fn)
  {
    assert t[p].(fn := 0) == u[p].(fn := 0);
    OldPointerAt(t, u[p], p);
    OriginalAt(t, u, fn, p);
  }

  lemma {:induction false} LeastHolder(u: seq<Native>, fn: nat, p: nat) returns (q: nat)
    requires p < |u| && u[p].fn == fn
    ensures q <= p && u[q].fn == fn && forall k :: 0 <= k < q ==> u[k].fn != fn
    decreases p
  {
    if k :| 0 <= k < p && u[k].fn == fn {
      q := LeastHolder(u, fn, k);
    } else {
      q := p;
    }
  }

  // The class t, in which list l is about to be hooked, and u, in which it has been registered.
  ghost predicate OneStep(table: seq<Native>, lists: seq<seq<Method>>, vs: seq<Seen>, l: nat, t: seq<Native>, u: seq<Native>) {
    && GoodClass(table, lists) && l < 3
    && HookedTimes(table, lists, vs, t) && HookedTimes(table, lists, vs[l := vs[l].Step()], u)
  }

  lemma StepShape(table: seq<Native>, lists: seq<seq<Method>>, vs: seq<Seen>, l: nat, t: seq<Native>, u: seq<Native>)
    requires OneStep(table, lists, vs, l, t, u)
    ensures DistinctNatives(t) && SameShape(t, u) && GoodList(table, lists[l], l)
  {
    ShapeDistinct(table, t);
    forall i | 0 <= i < |t|
      ensures t[i].(fn := 0) == u[i].(fn := 0)
    {
      assert table[i].(fn := 0) == t[i].(fn := 0) && table[i].(fn := 0) == u[i].(fn := 0);
    }
  }

  // The first visit: each hook is found where it has just been put.
  lemma FoundFirst(table: seq<Native>, lists: seq<seq<Method>>, vs: seq<Seen>, l: nat, t: seq<Native>, u: seq<Native>, i: nat)
    requires OneStep(table, lists, vs, l, t, u) && vs[l].times.Never?
    requires i < |table| && Setter(lists[l], table[i], |lists[l]|).Some?
    ensures Original(t, u, lists[l][Setter(lists[l], table[i], |lists[l]|).value].fn) == Some(table[i].fn)
  {
    var ms, j := lists[l], Setter(lists[l], table[i], |lists[l]|).value;
    StepShape(table, lists, vs, l, t, u);
    assert EntryPoint(ms[j].name) == Some(l);
    assert u[i].fn == TimesPointer(table, lists, vs[l := vs[l].Step()], i) == ms[j].fn;
    assert t[i].fn == TimesPointer(table, lists, vs, i);
    forall k | 0 <= k < i
      ensures u[k].fn != ms[j].fn
    {
      if u[k].fn == ms[j].fn {
        assert u[k].fn == TimesPointer(table, lists, vs[l := vs[l].Step()], k);
        HolderOf(table, lists, vs[l := vs[l].Step()], k, l, j);
        SetterAndIndex(table, ms, i, j);
        SetterAndIndex(table, ms, k, j);
      }
    }
    FirstHolder(t, u, ms[j].fn, i);
  }

  // Before the first method with original fn, list l neither gives fn nor takes it.
  lemma BelowLeader(table: seq<Native>, lists: seq<seq<Method>>, vs: seq<Seen>, l: nat, t: seq<Native>, u: seq<Native>, f: nat, k: nat)
    requires OneStep(table, lists, vs, l, t, u) && !vs[l].times.Never?
    requires f < |table| && Leader(table, lists[l], table[f].fn) == Some(f) && k < f
    ensures t[k].fn == table[f].fn <==> u[k].fn == table[f].fn
  {
    var us := vs[l := vs[l].Step()];
    assert t[k].fn == TimesPointer(table, lists, vs, k) && u[k].fn == TimesPointer(table, lists, us, k);
    assert !Shares(table, lists[l], table[f].fn, k);
    if t[k].fn == table[f].fn {
      OriginalHeld(table, lists, vs, k, f);
    }
    if u[k].fn == table[f].fn {
      OriginalHeld(table, lists, us, k, f);
    }
  }

  // The original of method i, looked up: its hook comes back, unless a method before the first one with
  // that original holds it.
  lemma FoundOriginal(table: seq<Native>, lists: seq<seq<Method>>, vs: seq<Seen>, l: nat, t: seq<Native>, u: seq<Native>, i: nat)
    requires OneStep(table, lists, vs, l, t, u) && (vs[l].times.Once? || vs[l].times.Oddly?) && vs[l].Fits()
    requires i < |table| && IsOriginal(table, lists[l], i)
    ensures Original(t, u, table[i].fn) ==
            Some(if table[i].fn in vs[l].stuck || Blocked(table, lists, vs, l, table[i].fn) then table[i].fn
                 else LeadHook(table, lists[l], table[i].fn))
  {
    var ms, fn := lists[l], table[i].fn;
    StepShape(table, lists, vs, l, t, u);
    var f := LeadIsHook(table, ms, i);
    var us := vs[l := vs[l].Step()];
    HoldsInStep(table, lists, vs, l, t, u, f);
    var p := LeastHolder(u, fn, f);
    FirstHolder(t, u, fn, p);
    forall k: nat | k < f
      ensures TimesPointer(table, lists, vs, k) == fn <==> u[k].fn == fn
    {
      BelowLeader(table, lists, vs, l, t, u, f, k);
      assert t[k].fn == TimesPointer(table, lists, vs, k);
    }
    if p < f {
      assert t[p].fn == TimesPointer(table, lists, vs, p);
    }
  }

  // What the first method with its original holds before and after an even visit.
  lemma HoldsInStep(table: seq<Native>, lists: seq<seq<Method>>, vs: seq<Seen>, l: nat, t: seq<Native>, u: seq<Native>, f: nat)
    requires OneStep(table, lists, vs, l, t, u) && (vs[l].times.Once? || vs[l].times.Oddly?)
    requires f < |table| && IsOriginal(table, lists[l], f) && Leader(table, lists[l], table[f].fn) == Some(f)
    ensures u[f].fn == table[f].fn
    ensures t[f].fn == if vs[l].times.Oddly? && table[f].fn in vs[l].stuck then table[f].fn else LeadHook(table, lists[l], table[f].fn)
  {
    assert GoodList(table, lists[l], l);
    assert EntryPoint(lists[l][Setter(lists[l], table[f], |lists[l]|).value].name) == Some(l);
    assert u[f].fn == TimesPointer(table, lists, vs[l := vs[l].Step()], f);
    assert t[f].fn == TimesPointer(table, lists, vs, f);
  }

  // The original or the hook that an even visit left to method i, looked up: the original comes back.
  lemma FoundAgain(table: seq<Native>, lists: seq<seq<Method>>, vs: seq<Seen>, l: nat, t: seq<Native>, u: seq<Native>, i: nat)
    requires OneStep(table, lists, vs, l, t, u) && vs[l].times.Evenly?
    requires i < |table| && IsOriginal(table, lists[l], i)
    ensures var fn := if table[i].fn in vs[l].stuck then table[i].fn else LeadHook(table, lists[l], table[i].fn);
            Original(t, u, fn) == Some(table[i].fn)
  {
    StepShape(table, lists, vs, l, t, u);
    var f := LeadIsHook(table, lists[l], i);
    AgainInStep(table, lists, vs, l, t, u, f);
    if table[i].fn in vs[l].stuck {
      var p := LeastHolder(u, table[i].fn, f);
      if p < f {
        BelowLeader(table, lists, vs, l, t, u, f, p);
      }
      FirstHolder(t, u, table[i].fn, p);
    } else {
      forall k | 0 <= k < f
        ensures u[k].fn != LeadHook(table, lists[l], table[i].fn)
      {
        NoEarlierLead(table, lists, vs, l, t, u, f, k);
      }
      FirstHolder(t, u, LeadHook(table, lists[l], table[i].fn), f);
    }
  }

  lemma AgainInStep(table: seq<Native>, lists: seq<seq<Method>>, vs: seq<Seen>, l: nat, t: seq<Native>, u: seq<Native>, f: nat)
    requires OneStep(table, lists, vs, l, t, u) && vs[l].times.Evenly?
    requires f < |table| && IsOriginal(table, lists[l], f) && Leader(table, lists[l], table[f].fn) == Some(f)
    ensures t[f].fn == table[f].fn
    ensures u[f].fn == if table[f].fn in vs[l].stuck then table[f].fn else LeadHook(table, lists[l], table[f].fn)
  {
    assert GoodList(table, lists[l], l);
    assert EntryPoint(lists[l][Setter(lists[l], table[f], |lists[l]|).value].name) == Some(l);
    assert u[f].fn == TimesPointer(table, lists, vs[l := vs[l].Step()], f);
    assert t[f].fn == TimesPointer(table, lists, vs, f);
  }

  lemma NoEarlierLead(table: seq<Native>, lists: seq<seq<Method>>, vs: seq<Seen>, l: nat, t: seq<Native>, u: seq<Native>, f: nat, k: nat)
    requires OneStep(table, lists, vs, l, t, u) && vs[l].times.Evenly?
    requires f < |table| && IsOriginal(table, lists[l], f) && Leader(table, lists[l], table[f].fn) == Some(f) && k < f
    ensures u[k].fn != LeadHook(table, lists[l], table[f].fn)
  {
    var ms := lists[l];
    var us := vs[l := vs[l].Step()];
    var j := Setter(ms, table[f], |ms|).value;
    assert GoodList(table, ms, l);
    SetterIsMatched(table, ms, f);
    if u[k].fn == ms[j].fn {
      assert u[k].fn == TimesPointer(table, lists, us, k);
      HolderOf(table, lists, us, k, l, j);
      var w: nat :| w < |table| && Setter(ms, table[w], |ms|) == Some(j) && HookedFrom(table, ms, us[l], k, w);
      HookedBelow(table, ms, us[l], f, k, w);
      SetterIsMatched(table, ms, w);
    }
  }

  // No method before the first one with its original has its hook.
  lemma HookedBelow(table: seq<Native>, ms: seq<Method>, s: Seen, f: nat, k: nat, w: nat)
    requires k < f < |table| && Leader(table, ms, table[f].fn) == Some(f) && HookedFrom(table, ms, s, k, w)
    ensures w != f
  {
    var shared := Shares(table, ms, table[f].fn, k);
  }

  // What the search finds for entry j of the list, which has just been registered.
  lemma FoundEntry(table: seq<Native>, lists: seq<seq<Method>>, vs: seq<Seen>, l: nat, t: seq<Native>, u: seq<Native>, j: nat, i: nat)
    requires OneStep(table, lists, vs, l, t, u) && vs[l].Fits()
    requires j < |lists[l]| && lists[l][j].fn != 0 && IndexOf(table, lists[l][j]) == Some(i)
    requires EntryAfter(table, lists[l], lists[l][j], vs[l]) != 0
    ensures Original(t, u, EntryAfter(table, lists[l], lists[l][j], vs[l])) ==
            Some(EntryAfter(table, lists[l], lists[l][j], NextSeen(table, lists, vs, l)))
  {
    StepShape(table, lists, vs, l, t, u);
    SetterAndIndex(table, lists[l], i, j);
    if vs[l].times.Never? {
      FoundFirst(table, lists, vs, l, t, u, i);
    } else if vs[l].times.Evenly? {
      FoundAgain(table, lists, vs, l, t, u, i);
    } else {
      FoundOriginal(table, lists, vs, l, t, u, i);
      StuckMember(table, lists, vs, l, i);
    }
  }

  lemma StuckMember(table: seq<Native>, lists: seq<seq<Method>>, vs: seq<Seen>, l: nat, i: nat)
    requires |lists| == |vs| == 3 && l < 3 && i < |table| && IsOriginal(table, lists[l], i)
    ensures table[i].fn in StuckNow(table, lists, vs, l) <==> Blocked(table, lists, vs, l, table[i].fn)
  {
  }

  predicate AnyListed(table: seq<Native>, ms: seq<Method>) {
    exists i: nat :: i < |table| && Setter(ms, table[i], |ms|).Some?
  }

  predicate AnyBound(table: seq<Native>, ms: seq<Method>) {
    exists i: nat :: i < |table| && IsOriginal(table, ms, i)
  }

  // A visit fails when it is the first and the class has no listed method, or a later one and no
  // listed method was bound.
  predicate VisitFails(table: seq<Native>, ms: seq<Method>, v: Times) {
    if v.Never? then !AnyListed(table, ms) else !AnyBound(table, ms)
  }

  // An entry of the list that is still worth registering.
  predicate Counts(table: seq<Native>, ms: seq<Method>, s: Seen, j: nat) {
    j < |ms| && EntryAfter(table, ms, ms[j], s) != 0 && IndexOf(table, ms[j]).Some?
  }

  // Entry j through one hook_jni_methods: registered, looked up, and swapped for what was found.
  lemma SwappedEntry(table: seq<Native>, lists: seq<seq<Method>>, vs: seq<Seen>, t: seq<Native>, l: nat, j: nat)
    requires GoodClass(table, lists) && HookedTimes(table, lists, vs, t) && l < 3 && j < |lists[l]| && vs[l].Fits()
    ensures var a := After(table, lists[l], vs[l]);
            var (u, r) := RegisterAll(t, a);
            && |r| == |a|
            && SwapOne(t, u, r[j]) == lists[l][j].(fn := EntryAfter(table, lists[l], lists[l][j], NextSeen(table, lists, vs, l)))
            && (r[j].fn != 0 && Original(t, u, r[j].fn).Some? <==> Counts(table, lists[l], vs[l], j))
  {
    var ms, a := lists[l], After(table, lists[l], vs[l]);
    assert GoodList(table, ms, l);
    ShapeDistinct(table, t);
    RegisterFirstEffect(t, a, |a|);
    RegisterAdvances(table, lists, vs, t, l);
    SameIndexAfter(table, t, ms, vs[l], j);
    var at := IndexOf(table, ms[j]);
    if a[j].fn != 0 && at.Some? {
      LiveEntry(table, ms, vs[l], j);
      FoundEntry(table, lists, vs, l, t, RegisterAll(t, a).0, j, at.value);
    } else {
      DeadEntry(table, lists, vs, l, j);
    }
  }

  lemma LiveEntry(table: seq<Native>, ms: seq<Method>, s: Seen, j: nat)
    requires j < |ms| && EntryAfter(table, ms, ms[j], s) != 0
    ensures ms[j].fn != 0
  {
  }

  lemma DeadEntry(table: seq<Native>, lists: seq<seq<Method>>, vs: seq<Seen>, l: nat, j: nat)
    requires GoodClass(table, lists) && |vs| == 3 && l < 3 && j < |lists[l]| && !Counts(table, lists[l], vs[l], j)
    ensures EntryAfter(table, lists[l], lists[l][j], NextSeen(table, lists, vs, l)) == 0
  {
    var ms := lists[l];
    assert GoodList(table, ms, l);
    var at := IndexOf(table, ms[j]);
    if at.Some? && ms[j].fn != 0 {
      SetterAndIndex(table, ms, at.value, j);
      if table[at.value].fn != 0 {
        EntryNotNull(table, ms, at.value, j, vs[l]);
      }
    }
  }

  lemma {:induction false} NobodyFound(t: seq<Native>, u: seq<Native>, r: seq<Method>, n: nat)
    requires n <= |r|
    ensures HookCount(t, u, r, n) == 0 <==> forall j :: 0 <= j < n ==> !(r[j].fn != 0 && Original(t, u, r[j].fn).Some?)
    decreases n
  {
    if n > 0 {
      NobodyFound(t, u, r, n - 1);
    }
  }

  lemma AnyCounts(table: seq<Native>, ms: seq<Method>, s: Seen)
    requires DistinctNatives(table) && DistinctMethods(ms)
    ensures (forall j: nat :: !Counts(table, ms, s, j)) <==> VisitFails(table, ms, s.times)
  {
    if VisitFails(table, ms, s.times) {
      forall j: nat
        ensures !Counts(table, ms, s, j)
      {
        NoEntryLeft(table, ms, s, j);
      }
    } else {
      var i: nat :| i < |table| && (if s.times.Never? then Setter(ms, table[i], |ms|).Some? else IsOriginal(table, ms, i));
      var j := Setter(ms, table[i], |ms|).value;
      SetterIsMatched(table, ms, i);
      EntryNotNull(table, ms, i, j, s);
      assert Counts(table, ms, s, j);
    }
  }

  lemma NoEntryLeft(table: seq<Native>, ms: seq<Method>, s: Seen, j: nat)
    requires DistinctNatives(table) && DistinctMethods(ms)
    ensures VisitFails(table, ms, s.times) ==> !Counts(table, ms, s, j)
  {
    if Counts(table, ms, s, j) {
      var i := IndexOf(table, ms[j]).value;
      SetterAndIndex(table, ms, i, j);
      assert Setter(ms, table[i], |ms|).Some? && (!s.times.Never? ==> IsOriginal(table, ms, i));
    }
  }

  lemma CountAfter(table: seq<Native>, lists: seq<seq<Method>>, vs: seq<Seen>, t: seq<Native>, l: nat)
    requires GoodClass(table, lists) && HookedTimes(table, lists, vs, t) && l < 3 && vs[l].Fits()
    ensures Hook(t, After(table, lists[l], vs[l])).count == 0 <==> VisitFails(table, lists[l], vs[l].times)
  {
    var a := After(table, lists[l], vs[l]);
    var (u, r) := RegisterAll(t, a);
    assert GoodList(table, lists[l], l);
    NobodyFound(t, u, r, |r|);
    forall j: nat | j < |r|
      ensures r[j].fn != 0 && Original(t, u, r[j].fn).Some? <==> Counts(table, lists[l], vs[l], j)
    {
      SwappedEntry(table, lists, vs, t, l, j);
    }
    AnyCounts(table, lists[l], vs[l]);
  }

  // Which originals are stuck does not matter yet when it is found out.
  lemma StuckLater(table: seq<Native>, lists: seq<seq<Method>>, vs: seq<Seen>, l: nat, u: seq<Native>)
    requires l < 3 && |vs| == 3 && HookedTimes(table, lists, vs[l := vs[l].Step()], u)
    ensures HookedTimes(table, lists, vs[l := NextSeen(table, lists, vs, l)], u)
  {
    forall i: nat | i < |table|
      ensures u[i].fn == TimesPointer(table, lists, vs[l := NextSeen(table, lists, vs, l)], i)
    {
      assert u[i].fn == TimesPointer(table, lists, vs[l := vs[l].Step()], i);
    }
  }

  // A failed visit leaves the class alone.
  lemma FailedVisit(table: seq<Native>, lists: seq<seq<Method>>, vs: seq<Seen>, t: seq<Native>, l: nat)
    requires GoodClass(table, lists) && l < 3 && |vs| == 3 && VisitFails(table, lists[l], vs[l].times)
    requires HookedTimes(table, lists, vs[l := vs[l].Step()], t)
    ensures HookedTimes(table, lists, vs, t)
  {
    forall i: nat | i < |table|
      ensures t[i].fn == TimesPointer(table, lists, vs, i)
    {
      assert t[i].fn == TimesPointer(table, lists, vs[l := vs[l].Step()], i);
      if EntryPoint(table[i].name) == Some(l) && Setter(lists[l], table[i], |lists[l]|).Some? {
        assert !vs[l].times.Never? && !IsOriginal(table, lists[l], i);
      }
    }
  }

  // What one visit did to the class and its list.
  ghost predicate VisitDone(table: seq<Native>, lists: seq<seq<Method>>, vs: seq<Seen>, l: nat, h: Outcome)
    requires |lists| == |vs| == 3 && l < 3
  {
    var next := NextSeen(table, lists, vs, l);
    && HookedTimes(table, lists, vs[l := next], h.table)
    && h.list == After(table, lists[l], next)
    && (h.count == 0 <==> VisitFails(table, lists[l], vs[l].times))
    && (h.count == 0 ==> HookedTimes(table, lists, vs, h.table))
  }

  /** One visit of the loop, on an entry point whose list has been hooked before as vs[l] says. */
  lemma OneVisit(table: seq<Native>, lists: seq<seq<Method>>, vs: seq<Seen>, t: seq<Native>, l: nat)
    requires GoodClass(table, lists) && HookedTimes(table, lists, vs, t) && l < 3 && vs[l].Fits()
    ensures VisitDone(table, lists, vs, l, Hook(t, After(table, lists[l], vs[l])))
  {
    var a := After(table, lists[l], vs[l]);
    var h, next := Hook(t, a), NextSeen(table, lists, vs, l);
    assert GoodList(table, lists[l], l);
    RegisterAdvances(table, lists, vs, t, l);
    StuckLater(table, lists, vs, l, h.table);
    CountAfter(table, lists, vs, t, l);
    var (u, r) := RegisterAll(t, a);
    RegisterFirstEffect(t, a, |a|);
    forall j | 0 <= j < |a|
      ensures h.list[j] == After(table, lists[l], next)[j]
    {
      SwappedEntry(table, lists, vs, t, l, j);
    }
    if h.count == 0 {
      FailedVisit(table, lists, vs, h.table, l);
    }
  }

  // ----- the whole loop -----

  predicate StopsHere(table: seq<Native>, lists: seq<seq<Method>>, n: nat)
    requires n < |table| && |lists| == 3
  {
    match EntryPoint(table[n].name)
    case None => false
    case Some(l) => VisitFails(table, lists[l], TimesAt(table, l, n))
  }

  // Where the loop, started at method n, finds an entry point missing; the size of the class if it does not.
  function StopsAt(table: seq<Native>, lists: seq<seq<Method>>, n: nat): (stop: nat)
    requires n <= |table| && |lists| == 3
    ensures n <= stop <= |table|
    ensures forall i :: n <= i < stop ==> !StopsHere(table, lists, i)
    ensures stop < |table| ==> StopsHere(table, lists, stop)
    decreases |table| - n
  {
    if n == |table| || StopsHere(table, lists, n) then n else StopsAt(table, lists, n + 1)
  }

  ghost predicate ListVisited(table: seq<Native>, lists: seq<seq<Method>>, n: nat, z: Progress, l: nat)
    requires n <= |table|
  {
    && |lists| == 3 && l < 3 && z.Valid()
    && (z.replaced[l] <==> !TimesAt(table, l, n).Never?)
    && z.lists[l] == After(table, lists[l], AllSeen(table, lists, n)[l])
  }

  ghost predicate VisitedUpTo(table: seq<Native>, lists: seq<seq<Method>>, n: nat, z: Progress)
    requires n <= |table|
  {
    && |lists| == 3 && HookedTimes(table, lists, AllSeen(table, lists, n), z.table)
    && ListVisited(table, lists, n, z, 0) && ListVisited(table, lists, n, z, 1) && ListVisited(table, lists, n, z, 2)
  }

  predicate SameNames(a: seq<Method>, b: seq<Method>) {
    |a| == |b| && forall j :: 0 <= j < |a| ==> a[j].(fn := 0) == b[j].(fn := 0)
  }

  // The list of the entry point that is missing is of no use.
  ghost predicate ListEnds(table: seq<Native>, lists: seq<seq<Method>>, n: nat, y: Progress, l: nat)
    requires n <= |table|
  {
    && |lists| == 3 && l < 3 && y.Valid()
    && (y.replaced[l] <==> !TimesAt(table, l, n).Never?)
    && (y.replaced[l] ==> y.lists[l] == After(table, lists[l], AllSeen(table, lists, n)[l]))
    && SameNames(y.lists[l], lists[l])
  }

  ghost predicate EndsAt(table: seq<Native>, lists: seq<seq<Method>>, n: nat, y: Progress)
    requires n <= |table|
  {
    && |lists| == 3 && HookedTimes(table, lists, AllSeen(table, lists, n), y.table)
    && ListEnds(table, lists, n, y, 0) && ListEnds(table, lists, n, y, 1) && ListEnds(table, lists, n, y, 2)
  }

  lemma AfterSameNames(table: seq<Native>, ms: seq<Method>, s: Seen)
    ensures SameNames(After(table, ms, s), ms)
  {
  }

  lemma {:induction false} VisitedIsEnd(table: seq<Native>, lists: seq<seq<Method>>, n: nat, z: Progress)
    requires n <= |table| && VisitedUpTo(table, lists, n, z)
    ensures EndsAt(table, lists, n, z)
  {
    var vs := AllSeen(table, lists, n);
    AfterSameNames(table, lists[0], vs[0]);
    AfterSameNames(table, lists[1], vs[1]);
    AfterSameNames(table, lists[2], vs[2]);
  }

  lemma {:induction false} SeenNext(table: seq<Native>, lists: seq<seq<Method>>, n: nat)
    requires n < |table| && |lists| == 3
    ensures var vs := AllSeen(table, lists, n);
            AllSeen(table, lists, n + 1) ==
            match EntryPoint(table[n].name) case None => vs case Some(l) => vs[l := NextSeen(table, lists, vs, l)]
    ensures forall k: nat :: k < 3 ==>
              TimesAt(table, k, n + 1) == if EntryPoint(table[n].name) == Some(k) then Next(TimesAt(table, k, n)) else TimesAt(table, k, n)
  {
  }

  lemma {:induction false} VisitsGrow(table: seq<Native>, l: nat, m: nat, n: nat)
    requires m <= n <= |table|
    ensures Visits(table, l, m) <= Visits(table, l, n)
    decreases n
  {
    if m < n {
      VisitsGrow(table, l, m, n - 1);
    }
  }

  // A failed list is null, once it has been hooked.
  lemma FailedList(table: seq<Native>, lists: seq<seq<Method>>, vs: seq<Seen>, l: nat)
    requires DistinctNatives(table) && |lists| == |vs| == 3 && l < 3 && DistinctMethods(lists[l])
    requires !vs[l].times.Never? && VisitFails(table, lists[l], vs[l].times)
    ensures After(table, lists[l], vs[l]) == After(table, lists[l], NextSeen(table, lists, vs, l))
  {
    var ms := lists[l];
    forall j | 0 <= j < |ms|
      ensures EntryAfter(table, ms, ms[j], vs[l]) == EntryAfter(table, ms, ms[j], NextSeen(table, lists, vs, l))
    {
      var at := IndexOf(table, ms[j]);
      if at.Some? && ms[j].fn != 0 {
        SetterAndIndex(table, ms, at.value, j);
        assert !IsOriginal(table, ms, at.value);
      }
    }
  }

  lemma {:induction false} MissedEntry(table: seq<Native>, lists: seq<seq<Method>>, n: nat, z: Progress, l: nat, t: seq<Native>)
    requires DistinctNatives(table) && n < |table| && l < 3 && VisitedUpTo(table, lists, n, z)
    requires DistinctMethods(lists[l]) && VisitFails(table, lists[l], TimesAt(table, l, n))
    requires HookedTimes(table, lists, AllSeen(table, lists, n), t)
    ensures EndsAt(table, lists, n,
                   z.(table := t, lists := z.lists[l := After(table, lists[l], NextSeen(table, lists, AllSeen(table, lists, n), l))]))
  {
    var vs := AllSeen(table, lists, n);
    VisitedIsEnd(table, lists, n, z);
    AfterSameNames(table, lists[l], NextSeen(table, lists, vs, l));
    SeenTimes(table, lists, n, l);
    if !TimesAt(table, l, n).Never? {
      FailedList(table, lists, vs, l);
    }
  }

  lemma {:induction false} HitEntry(table: seq<Native>, lists: seq<seq<Method>>, n: nat, z: Progress, l: nat, t: seq<Native>)
    requires n < |table| && l < 3 && VisitedUpTo(table, lists, n, z) && EntryPoint(table[n].name) == Some(l)
    requires var vs := AllSeen(table, lists, n); HookedTimes(table, lists, vs[l := NextSeen(table, lists, vs, l)], t)
    ensures var next := NextSeen(table, lists, AllSeen(table, lists, n), l);
            VisitedUpTo(table, lists, n + 1, Progress(t, z.lists[l := After(table, lists[l], next)], z.replaced[l := true]))
  {
    SeenNext(table, lists, n);
  }

  lemma {:induction false} SkipEntry(table: seq<Native>, lists: seq<seq<Method>>, n: nat, z: Progress)
    requires n < |table| && |lists| == 3 && VisitedUpTo(table, lists, n, z) && EntryPoint(table[n].name).None?
    ensures VisitedUpTo(table, lists, n + 1, z) && !StopsHere(table, lists, n)
  {
    SeenNext(table, lists, n);
  }

  lemma {:induction false} EntryVisited(table: seq<Native>, lists: seq<seq<Method>>, n: nat, z: Progress, l: nat, h: Outcome)
    requires DistinctNatives(table) && n < |table| && l < 3 && VisitedUpTo(table, lists, n, z)
    requires EntryPoint(table[n].name) == Some(l) && DistinctMethods(lists[l])
    requires VisitDone(table, lists, AllSeen(table, lists, n), l, h)
    ensures h.count == 0 <==> StopsHere(table, lists, n)
    ensures h.count == 0 ==> EndsAt(table, lists, n, z.(table := h.table, lists := z.lists[l := h.list]))
    ensures h.count != 0 ==>
              VisitedUpTo(table, lists, n + 1, Progress(h.table, z.lists[l := h.list], z.replaced[l := true]))
  {
    SeenTimes(table, lists, n, l);
    if h.count == 0 {
      MissedEntry(table, lists, n, z, l, h.table);
    } else {
      HitEntry(table, lists, n, z, l, h.table);
    }
  }

  lemma VisitFirst(z: Progress, natives: seq<Native>)
    requires z.Valid() && natives != []
    ensures Visit(z, natives) ==
            match EntryPoint(natives[0].name)
            case None => Visit(z, natives[1..])
            case Some(l) =>
              var h := Hook(z.table, z.lists[l]);
              if h.count == 0 then (z.(table := h.table, lists := z.lists[l := h.list]), true)
              else Visit(Progress(h.table, z.lists[l := h.list], z.replaced[l := true]), natives[1..])
  {
  }

  // How the loop ends when it starts at method n.
  ghost predicate VisitOutcome(table: seq<Native>, lists: seq<seq<Method>>, n: nat, r: (Progress, bool))
    requires n <= |table| && |lists| == 3
  {
    var stop := StopsAt(table, lists, n);
    && (r.1 <==> stop < |table|)
    && EndsAt(table, lists, stop, r.0)
    && (!r.1 ==> VisitedUpTo(table, lists, stop, r.0))
  }

  lemma {:induction false} OutcomeMissed(table: seq<Native>, lists: seq<seq<Method>>, n: nat, y: Progress)
    requires n < |table| && |lists| == 3 && StopsHere(table, lists, n) && EndsAt(table, lists, n, y)
    ensures VisitOutcome(table, lists, n, (y, true))
  {
  }

  lemma {:induction false} OutcomeLater(table: seq<Native>, lists: seq<seq<Method>>, n: nat, r: (Progress, bool))
    requires n < |table| && |lists| == 3 && !StopsHere(table, lists, n) && VisitOutcome(table, lists, n + 1, r)
    ensures VisitOutcome(table, lists, n, r)
  {
    assert StopsAt(table, lists, n) == StopsAt(table, lists, n + 1);
  }

  // The loop after method n, which bears the name of entry point l.
  lemma {:induction false} VisitEntry(table: seq<Native>, lists: seq<seq<Method>>, n: nat, z: Progress, l: nat)
    requires GoodClass(table, lists) && n < |table| && VisitedUpTo(table, lists, n, z)
    requires EntryPoint(table[n].name) == Some(l)
    ensures var h := Hook(z.table, z.lists[l]);
            if h.count == 0 then
              VisitOutcome(table, lists, n, (z.(table := h.table, lists := z.lists[l := h.list]), true))
            else
              && !StopsHere(table, lists, n)
              && VisitedUpTo(table, lists, n + 1, Progress(h.table, z.lists[l := h.list], z.replaced[l := true]))
  {
    var h := Hook(z.table, z.lists[l]);
    assert GoodList(table, lists[l], l);
    SeenTimes(table, lists, n, l);
    OneVisit(table, lists, AllSeen(table, lists, n), z.table, l);
    EntryVisited(table, lists, n, z, l, h);
    if h.count == 0 {
      OutcomeMissed(table, lists, n, z.(table := h.table, lists := z.lists[l := h.list]));
    }
  }

  lemma {:induction false} VisitEnds(table: seq<Native>, lists: seq<seq<Method>>, n: nat, z: Progress)
    requires GoodClass(table, lists) && n <= |table| && VisitedUpTo(table, lists, n, z)
    ensures VisitOutcome(table, lists, n, Visit(z, table[n..]))
    decreases |table| - n
  {
    if n == |table| {
      VisitedIsEnd(table, lists, n, z);
    } else {
      VisitFirst(z, table[n..]);
      assert table[n..][0] == table[n] && table[n..][1..] == table[n + 1..];
      match EntryPoint(table[n].name)
      case Some(l) =>
        VisitEntry(table, lists, n, z, l);
        var h := Hook(z.table, z.lists[l]);
        if h.count != 0 {
          var z' := Progress(h.table, z.lists[l := h.list], z.replaced[l := true]);
          VisitEnds(table, lists, n + 1, z');
          OutcomeLater(table, lists, n, Visit(z', table[n + 1..]));
        }
      case None =>
        SkipEntry(table, lists, n, z);
        VisitEnds(table, lists, n + 1, z);
        OutcomeLater(table, lists, n, Visit(z, table[n + 1..]));
    }
  }

  // ----- the roll-back and the restore -----

  function Up(s: Seen): Seen {
    if s.times.Never? then s else s.Step()
  }

  // One more registration of every list that was hooked at all.
  function Again(vs: seq<Seen>): (r: seq<Seen>)
    requires |vs| == 3
    ensures |r| == 3
  {
    [Up(vs[0]), Up(vs[1]), Up(vs[2])]
  }

  lemma AgainInSteps(vs: seq<Seen>)
    requires |vs| == 3
    ensures var us := vs[0 := Up(vs[0])];
            var ws := us[1 := Up(us[1])];
            ws[2 := Up(ws[2])] == Again(vs)
  {
  }

  // Registering list l, if it was hooked, in its place in the roll-back.
  lemma RegisterHooked(table: seq<Native>, lists: seq<seq<Method>>, vs: seq<Seen>, t: seq<Native>, l: nat, ms: seq<Method>, hooked: bool)
    requires DistinctNatives(table) && l < 3 && HookedTimes(table, lists, vs, t) && GoodList(table, lists[l], l)
    requires (hooked <==> !vs[l].times.Never?) && (hooked ==> ms == After(table, lists[l], vs[l]))
    ensures HookedTimes(table, lists, vs[l := Up(vs[l])], if hooked then RegisterAll(t, ms).0 else t)
  {
    if hooked {
      RegisterAdvances(table, lists, vs, t, l);
    } else {
      assert vs[l := Up(vs[l])] == vs;
    }
  }

  lemma {:induction false} RollBackEnds(table: seq<Native>, lists: seq<seq<Method>>, n: nat, z: Progress)
    requires GoodClass(table, lists) && n <= |table| && EndsAt(table, lists, n, z)
    ensures HookedTimes(table, lists, Again(AllSeen(table, lists, n)), RollBack(z, 0))
  {
    var vs := AllSeen(table, lists, n);
    SeenTimes(table, lists, n, 0);
    SeenTimes(table, lists, n, 1);
    SeenTimes(table, lists, n, 2);
    var us := vs[0 := Up(vs[0])];
    var ws := us[1 := Up(us[1])];
    assert GoodList(table, lists[0], 0) && GoodList(table, lists[1], 1) && GoodList(table, lists[2], 2);
    RegisterHooked(table, lists, vs, z.table, 0, z.lists[0], z.replaced[0]);
    var a := z.(table := if z.replaced[0] then RegisterAll(z.table, z.lists[0]).0 else z.table);
    RegisterHooked(table, lists, us, a.table, 1, z.lists[1], z.replaced[1]);
    var b := a.(table := if z.replaced[1] then RegisterAll(a.table, z.lists[1]).0 else a.table);
    RegisterHooked(table, lists, ws, b.table, 2, z.lists[2], z.replaced[2]);
    AgainInSteps(vs);
    assert RollBack(z, 0) == RollBack(a, 1) == RollBack(b, 2);
  }

  // A list whose entry point the class lacks sets nothing, hooked or not.
  lemma UnseenList(table: seq<Native>, lists: seq<seq<Method>>, vs: seq<Seen>, l: nat, t: seq<Native>)
    requires l < 3 && |vs| == 3 && vs[l].times.Never? && Visits(table, l, |table|) == 0
    requires HookedTimes(table, lists, vs[l := vs[l].Step()], t)
    ensures HookedTimes(table, lists, vs, t)
  {
    forall i: nat | i < |table|
      ensures t[i].fn == TimesPointer(table, lists, vs, i)
    {
      VisitsGrow(table, l, i + 1, |table|);
      assert t[i].fn == TimesPointer(table, lists, vs[l := vs[l].Step()], i);
    }
  }

  // Registering list l, hooked or not, in its place in the restore.
  lemma RegisterAny(table: seq<Native>, lists: seq<seq<Method>>, vs: seq<Seen>, t: seq<Native>, l: nat, ms: seq<Method>)
    requires DistinctNatives(table) && l < 3 && HookedTimes(table, lists, vs, t) && GoodList(table, lists[l], l)
    requires vs[l].times == TimesAt(table, l, |table|) && ms == After(table, lists[l], vs[l])
    ensures HookedTimes(table, lists, vs[l := Up(vs[l])], RegisterAll(t, ms).0)
  {
    RegisterAdvances(table, lists, vs, t, l);
    if vs[l].times.Never? {
      assert vs[l := Up(vs[l])] == vs;
      TimesIsRemainder(Visits(table, l, |table|));
      UnseenList(table, lists, vs, l, RegisterAll(t, ms).0);
    }
  }

  ghost predicate ListsAfter(table: seq<Native>, lists: seq<seq<Method>>, n: nat, ls: seq<seq<Method>>)
    requires n <= |table|
  {
    && |lists| == |ls| == 3
    && ls[0] == After(table, lists[0], AllSeen(table, lists, n)[0])
    && ls[1] == After(table, lists[1], AllSeen(table, lists, n)[1])
    && ls[2] == After(table, lists[2], AllSeen(table, lists, n)[2])
  }

  lemma {:induction false} RestoreEnds(table: seq<Native>, lists: seq<seq<Method>>, t: seq<Native>, ls: seq<seq<Method>>)
    requires GoodClass(table, lists) && HookedTimes(table, lists, AllSeen(table, lists, |table|), t)
    requires ListsAfter(table, lists, |table|, ls)
    ensures HookedTimes(table, lists, Again(AllSeen(table, lists, |table|)), RestoreFrom(t, ls, 0))
  {
    var vs := AllSeen(table, lists, |table|);
    SeenTimes(table, lists, |table|, 0);
    SeenTimes(table, lists, |table|, 1);
    SeenTimes(table, lists, |table|, 2);
    var us := vs[0 := Up(vs[0])];
    var ws := us[1 := Up(us[1])];
    assert GoodList(table, lists[0], 0) && GoodList(table, lists[1], 1) && GoodList(table, lists[2], 2);
    RegisterAny(table, lists, vs, t, 0, ls[0]);
    var a := RegisterAll(t, ls[0]).0;
    RegisterAny(table, lists, us, a, 1, ls[1]);
    var b := RegisterAll(a, ls[1]).0;
    RegisterAny(table, lists, ws, b, 2, ls[2]);
    AgainInSteps(vs);
    assert RestoreFrom(t, ls, 0) == RestoreFrom(a, ls, 1) == RestoreFrom(b, ls, 2);
  }

  predicate Null(ms: seq<Method>) {
    forall j :: 0 <= j < |ms| ==> ms[j].fn == 0
  }

  lemma NullRegisters(table: seq<Native>, ms: seq<Method>)
    requires DistinctNatives(table) && Null(ms)
    ensures RegisterAll(table, ms).0 == table
  {
    RegisterFirstEffect(table, ms, |ms|);
    var t := RegisterAll(table, ms).0;
    forall i | 0 <= i < |table|
      ensures t[i] == table[i]
    {
      assert table[i].(fn := 0) == t[i].(fn := 0);
      assert Setter(ms, table[i], |ms|).None?;
    }
  }

  lemma {:induction false} RestoreNull(table: seq<Native>, ls: seq<seq<Method>>, l: nat)
    requires DistinctNatives(table) && |ls| == 3 && l <= 3 && forall k: nat {:trigger ls[k]} :: k < 3 ==> Null(ls[k])
    ensures RestoreFrom(table, ls, l) == table
    decreases 3 - l
  {
    if l < 3 {
      NullRegisters(table, ls[l]);
      RestoreNull(table, ls, l + 1);
    }
  }

  // ----- the outcome for every class -----

  lemma SameNulled(ms: seq<Method>, ms': seq<Method>)
    requires SameNames(ms, ms')
    ensures Nulled(ms) == Nulled(ms')
  {
  }

  lemma {:induction false} NothingVisited(table: seq<Native>, lists: seq<seq<Method>>)
    requires |lists| == 3
    ensures VisitedUpTo(table, lists, 0, Progress(table, lists, [false, false, false]))
  {
    forall l: nat | l < 3
      ensures lists[l] == After(table, lists[l], Seen(Never, {}))
    {
    }
  }

  function AllNulled(lists: seq<seq<Method>>): seq<seq<Method>>
    requires |lists| == 3
  {
    [Nulled(lists[0]), Nulled(lists[1]), Nulled(lists[2])]
  }

  /** What hook_zygote_jni leaves, entry by entry. When no entry point is missing, each list has been
      hooked once for every method of that name. When one is, each list that was hooked has been
      registered once more, and all are nulled. */
  lemma {:induction false} ZygoteOutcome(table: seq<Native>, lists: seq<seq<Method>>)
    requires GoodClass(table, lists)
    ensures var (t, ls) := HookZygote(table, lists);
            var stop := StopsAt(table, lists, 0);
            if stop == |table| then
              HookedTimes(table, lists, AllSeen(table, lists, stop), t) && ListsAfter(table, lists, stop, ls)
            else
              HookedTimes(table, lists, Again(AllSeen(table, lists, stop)), t) && ls == AllNulled(lists)
  {
    var start := Progress(table, lists, [false, false, false]);
    assert table[0..] == table;
    NothingVisited(table, lists);
    VisitEnds(table, lists, 0, start);
    var (z, missing) := Visit(start, table);
    var stop := StopsAt(table, lists, 0);
    if missing {
      RollBackEnds(table, lists, stop, z);
      SameNulled(z.lists[0], lists[0]);
      SameNulled(z.lists[1], lists[1]);
      SameNulled(z.lists[2], lists[2]);
    }
  }

  // ----- when that is what was meant -----

  // No entry point is missing: the class has a listed method for each one it has, and where it has
  // several methods of that name, a listed one that is bound.
  predicate NoneMissing(table: seq<Native>, lists: seq<seq<Method>>)
    requires |lists| == 3
  {
    forall l: nat {:trigger lists[l]} :: l < 3 ==>
      && (Visits(table, l, |table|) >= 1 ==> AnyListed(table, lists[l]))
      && (Visits(table, l, |table|) >= 2 ==> AnyBound(table, lists[l]))
  }

  // The n-th visit of an entry point.
  lemma {:induction false} NthVisit(table: seq<Native>, l: nat, v: nat, n: nat) returns (i: nat)
    requires n <= |table| && v < Visits(table, l, n)
    ensures i < n && EntryPoint(table[i].name) == Some(l) && Visits(table, l, i) == v
    decreases n
  {
    if v < Visits(table, l, n - 1) {
      i := NthVisit(table, l, v, n - 1);
    } else {
      i := n - 1;
    }
  }

  lemma {:induction false} NeverStops(table: seq<Native>, lists: seq<seq<Method>>, l: nat)
    requires |lists| == 3 && l < 3 && StopsAt(table, lists, 0) == |table|
    ensures Visits(table, l, |table|) >= 1 ==> AnyListed(table, lists[l])
    ensures Visits(table, l, |table|) >= 2 ==> AnyBound(table, lists[l])
  {
    if Visits(table, l, |table|) >= 1 {
      var i := NthVisit(table, l, 0, |table|);
      assert TimesOf(0) == Never && !StopsHere(table, lists, i);
    }
    if Visits(table, l, |table|) >= 2 {
      var i := NthVisit(table, l, 1, |table|);
      assert TimesOf(1) == Once && !StopsHere(table, lists, i);
    }
  }

  /** The loop finds no entry point missing exactly under a condition on the class as it starts. */
  lemma {:induction false} CompleteExactly(table: seq<Native>, lists: seq<seq<Method>>)
    requires |lists| == 3
    ensures StopsAt(table, lists, 0) == |table| <==> NoneMissing(table, lists)
  {
    var stop := StopsAt(table, lists, 0);
    if stop < |table| {
      var l := EntryPoint(table[stop].name).value;
      VisitsGrow(table, l, stop + 1, |table|);
      TimesIsRemainder(Visits(table, l, stop));
      assert lists[l] == lists[l] && VisitFails(table, lists[l], TimesAt(table, l, stop));
    } else {
      forall l: nat | l < 3
        ensures Visits(table, l, |table|) >= 1 ==> AnyListed(table, lists[l])
        ensures Visits(table, l, |table|) >= 2 ==> AnyBound(table, lists[l])
      {
        NeverStops(table, lists, l);
      }
    }
  }

  function TargetPointer(table: seq<Native>, lists: seq<seq<Method>>, i: nat): nat
    requires i < |table| && |lists| == 3
  {
    match EntryPoint(table[i].name)
    case None => table[i].fn
    case Some(l) => HookedPointer(table, lists[l], i)
  }

  function Returned(table: seq<Native>, ms: seq<Method>): (r: seq<Method>)
    ensures |r| == |ms| && forall j :: 0 <= j < |ms| ==> r[j] == ms[j].(fn := ReturnedPointer(table, ms[j]))
  {
    seq(|ms|, j requires 0 <= j < |ms| => ms[j].(fn := ReturnedPointer(table, ms[j])))
  }

  // Every entry point that the class has is hooked, and its list returns the originals.
  ghost predicate AllHooked(table: seq<Native>, lists: seq<seq<Method>>, t: seq<Native>, ls: seq<seq<Method>>) {
    && |lists| == |ls| == 3
    && SameShape(table, t)
    && (forall i: nat {:trigger t[i]} :: i < |table| ==> t[i].fn == TargetPointer(table, lists, i))
    && (forall l: nat {:trigger ls[l]} :: l < 3 && Visits(table, l, |table|) > 0 ==> ls[l] == Returned(table, lists[l]))
  }

  // No entry point is visited an even number of times.
  predicate OddlyVisited(table: seq<Native>, n: nat)
    requires n <= |table|
  {
    forall l: nat {:trigger Visits(table, l, n)} :: l < 3 && Visits(table, l, n) > 0 ==> Visits(table, l, n) % 2 == 1
  }

  // Every method that list l hooks is the first with its original, and no method before it ever held
  // that when the list was hooked an even time.
  ghost predicate ToldApart(table: seq<Native>, lists: seq<seq<Method>>, n: nat, l: nat)
    requires n <= |table| && |lists| == 3 && l < 3
  {
    forall i: nat {:trigger IsOriginal(table, lists[l], i)} :: i < |table| && IsOriginal(table, lists[l], i) ==>
      Leader(table, lists[l], table[i].fn) == Some(i) && table[i].fn !in AllSeen(table, lists, n)[l].stuck
  }

  // The list of each entry point that the class has was hooked once, or an odd number of times and the
  // search told its methods apart.
  ghost predicate LeftHooked(table: seq<Native>, lists: seq<seq<Method>>, n: nat)
    requires n <= |table| && |lists| == 3
  {
    forall l: nat {:trigger Visits(table, l, n)} :: l < 3 && Visits(table, l, n) > 0 ==>
      Visits(table, l, n) == 1 || (Visits(table, l, n) % 2 == 1 && ToldApart(table, lists, n, l))
  }

  // List l holds nothing but originals, however often it was hooked.
  ghost predicate AllStuck(table: seq<Native>, lists: seq<seq<Method>>, n: nat, l: nat)
    requires n <= |table| && |lists| == 3 && l < 3
  {
    forall i: nat {:trigger IsOriginal(table, lists[l], i)} :: i < |table| && IsOriginal(table, lists[l], i) ==>
      table[i].fn in AllSeen(table, lists, n)[l].stuck
  }

  // What each entry point visited before n hooked was bound, and its list holds the originals: it was
  // hooked an odd number of times, or the search never brought its hooks back.
  ghost predicate Undoable(table: seq<Native>, lists: seq<seq<Method>>, n: nat)
    requires n <= |table| && |lists| == 3
  {
    forall l: nat {:trigger Visits(table, l, n)} :: l < 3 && Visits(table, l, n) > 0 ==>
      OriginalsBound(table, lists[l]) && (Visits(table, l, n) % 2 == 1 || AllStuck(table, lists, n, l))
  }

  lemma OddIsReturned(table: seq<Native>, ms: seq<Method>, s: Seen)
    requires s.times.Once? || s.times.Oddly?
    ensures After(table, ms, s) == Returned(table, ms)
  {
  }

  lemma SeenMethod(table: seq<Native>, i: nat, l: nat)
    requires i < |table| && EntryPoint(table[i].name) == Some(l)
    ensures Visits(table, l, |table|) > 0
  {
    VisitsGrow(table, l, i + 1, |table|);
  }

  lemma HookedOnceMore(table: seq<Native>, ms: seq<Method>, s: Seen, i: nat)
    requires i < |table| && (s.times.Once? || s.times.Oddly?)
    ensures PointerAfter(table, ms, i, s) == HookedPointer(table, ms, i) <==>
            (IsOriginal(table, ms, i) && s.times.Oddly? ==>
               if table[i].fn in s.stuck then table[i].fn == HookedPointer(table, ms, i)
               else LeadHook(table, ms, table[i].fn) == HookedPointer(table, ms, i))
  {
  }

  lemma {:induction false} OddIsHooked(table: seq<Native>, lists: seq<seq<Method>>, t: seq<Native>, i: nat)
    requires |lists| == 3 && HookedTimes(table, lists, AllSeen(table, lists, |table|), t)
    requires LeftHooked(table, lists, |table|) && i < |table|
    ensures t[i].fn == TargetPointer(table, lists, i)
  {
    var vs := AllSeen(table, lists, |table|);
    assert t[i].fn == TimesPointer(table, lists, vs, i);
    match EntryPoint(table[i].name)
    case None =>
    case Some(l) =>
      SeenMethod(table, i, l);
      SeenTimes(table, lists, |table|, l);
      TimesIsRemainder(Visits(table, l, |table|));
      HookedOnceMore(table, lists[l], vs[l], i);
  }

  // Visited an even number of times, a bound method has its original back; later on it has that, or the
  // hook of another, unless it is told apart.
  lemma {:induction false} NotItsHook(table: seq<Native>, lists: seq<seq<Method>>, t: seq<Native>, l: nat, i: nat)
    requires |lists| == 3 && HookedTimes(table, lists, AllSeen(table, lists, |table|), t)
    requires DistinctNatives(table) && l < 3 && GoodList(table, lists[l], l) && i < |table| && IsOriginal(table, lists[l], i)
    requires var s := AllSeen(table, lists, |table|)[l];
             s.times.Evenly? || (s.times.Oddly? && (table[i].fn in s.stuck || Leader(table, lists[l], table[i].fn) != Some(i)))
    ensures t[i].fn != TargetPointer(table, lists, i)
  {
    var ms := lists[l];
    var j := Setter(ms, table[i], |ms|).value;
    assert EntryPoint(ms[j].name) == Some(l);
    assert t[i].fn == TimesPointer(table, lists, AllSeen(table, lists, |table|), i);
    assert table[i].fn != ms[j].fn;
    var f := LeadIsHook(table, ms, i);
    if f != i {
      SetterIsMatched(table, ms, i);
      SetterIsMatched(table, ms, f);
      assert Setter(ms, table[f], |ms|).value != j;
    }
  }

  lemma {:induction false} SomeNotHooked(table: seq<Native>, lists: seq<seq<Method>>, t: seq<Native>, l: nat) returns (i: nat)
    requires GoodClass(table, lists) && HookedTimes(table, lists, AllSeen(table, lists, |table|), t) && l < 3
    requires Visits(table, l, |table|) > 1 && AnyBound(table, lists[l])
    requires Visits(table, l, |table|) % 2 == 1 ==> !ToldApart(table, lists, |table|, l)
    ensures i < |table| && t[i].fn != TargetPointer(table, lists, i)
  {
    var s := AllSeen(table, lists, |table|)[l];
    assert GoodList(table, lists[l], l);
    SeenTimes(table, lists, |table|, l);
    TimesIsRemainder(Visits(table, l, |table|));
    if s.times.Evenly? {
      i :| i < |table| && IsOriginal(table, lists[l], i);
    } else {
      i :| i < |table| && IsOriginal(table, lists[l], i) &&
           (table[i].fn in s.stuck || Leader(table, lists[l], table[i].fn) != Some(i));
    }
    NotItsHook(table, lists, t, l, i);
  }

  lemma {:induction false} HookedWhenOdd(table: seq<Native>, lists: seq<seq<Method>>, t: seq<Native>, ls: seq<seq<Method>>)
    requires GoodClass(table, lists) && LeftHooked(table, lists, |table|)
    requires HookedTimes(table, lists, AllSeen(table, lists, |table|), t) && ListsAfter(table, lists, |table|, ls)
    ensures AllHooked(table, lists, t, ls)
  {
    forall l: nat | l < 3 && Visits(table, l, |table|) > 0
      ensures ls[l] == Returned(table, lists[l])
    {
      OddListReturned(table, lists, ls, l);
    }
    forall i: nat {:trigger t[i]} | i < |table|
      ensures t[i].fn == TargetPointer(table, lists, i)
    {
      OddIsHooked(table, lists, t, i);
    }
  }

  lemma {:induction false} CompleteOutcome(table: seq<Native>, lists: seq<seq<Method>>, t: seq<Native>, ls: seq<seq<Method>>)
    requires GoodClass(table, lists) && NoneMissing(table, lists)
    requires HookedTimes(table, lists, AllSeen(table, lists, |table|), t) && ListsAfter(table, lists, |table|, ls)
    ensures AllHooked(table, lists, t, ls) <==> LeftHooked(table, lists, |table|)
  {
    if LeftHooked(table, lists, |table|) {
      HookedWhenOdd(table, lists, t, ls);
    } else {
      var i := NotAllHooked(table, lists, t);
    }
  }

  lemma {:induction false} NotAllHooked(table: seq<Native>, lists: seq<seq<Method>>, t: seq<Native>) returns (i: nat)
    requires GoodClass(table, lists) && NoneMissing(table, lists) && !LeftHooked(table, lists, |table|)
    requires HookedTimes(table, lists, AllSeen(table, lists, |table|), t)
    ensures i < |table| && t[i].fn != TargetPointer(table, lists, i)
  {
    var l: nat :| l < 3 && Visits(table, l, |table|) > 0 && Visits(table, l, |table|) != 1 &&
                  !(Visits(table, l, |table|) % 2 == 1 && ToldApart(table, lists, |table|, l));
    assert AnyListed(table, lists[l]) && AnyBound(table, lists[l]);
    i := SomeNotHooked(table, lists, t, l);
  }

  lemma {:induction false} ListAfter(table: seq<Native>, lists: seq<seq<Method>>, n: nat, ls: seq<seq<Method>>, l: nat)
    requires n <= |table| && ListsAfter(table, lists, n, ls) && l < 3
    ensures ls[l] == After(table, lists[l], AllSeen(table, lists, n)[l])
  {
  }

  lemma {:induction false} OddListReturned(table: seq<Native>, lists: seq<seq<Method>>, ls: seq<seq<Method>>, l: nat)
    requires ListsAfter(table, lists, |table|, ls) && l < 3 && Visits(table, l, |table|) % 2 == 1
    ensures ls[l] == Returned(table, lists[l])
  {
    TimesIsRemainder(Visits(table, l, |table|));
    SeenTimes(table, lists, |table|, l);
    ListAfter(table, lists, |table|, ls, l);
    OddIsReturned(table, lists[l], AllSeen(table, lists, |table|)[l]);
  }

  // A list that has been hooked, or registered, as s says leaves no trace.
  predicate LeavesNoTrace(table: seq<Native>, ms: seq<Method>, s: Seen) {
    !s.times.Never? && AnyListed(table, ms) ==>
      && OriginalsBound(table, ms)
      && (s.times.Evenly? || (s.times.Oddly? && AllAmong(table, ms, s.stuck)))
  }

  // The originals of the list's methods are all in stuck.
  predicate AllAmong(table: seq<Native>, ms: seq<Method>, stuck: set<nat>) {
    forall i: nat {:trigger IsOriginal(table, ms, i)} :: i < |table| && IsOriginal(table, ms, i) ==> table[i].fn in stuck
  }

  lemma TraceLeft(table: seq<Native>, lists: seq<seq<Method>>, vs: seq<Seen>, t: seq<Native>, l: nat)
    requires HookedTimes(table, lists, vs, t) && l < 3 && GoodLists(table, lists)
    requires !LeavesNoTrace(table, lists[l], vs[l])
    ensures t != table
  {
    var ms, s := lists[l], vs[l];
    assert GoodList(table, ms, l);
    var i: nat :| i < |table| && Setter(ms, table[i], |ms|).Some? &&
                  (s.times.Once? || table[i].fn == 0 || (s.times.Oddly? && table[i].fn !in s.stuck));
    var j := Setter(ms, table[i], |ms|).value;
    assert EntryPoint(ms[j].name) == Some(l);
    assert t[i].fn == TimesPointer(table, lists, vs, i);
    HookIsNew(table, lists, l, i, j);
    if table[i].fn != 0 && s.times.Oddly? {
      var f := LeadIsHook(table, ms, i);
      HookIsNew(table, lists, l, i, Setter(ms, table[f], |ms|).value);
    }
  }

  lemma NoTraceLeft(table: seq<Native>, lists: seq<seq<Method>>, vs: seq<Seen>, t: seq<Native>)
    requires HookedTimes(table, lists, vs, t)
    requires forall l: nat :: l < 3 ==> LeavesNoTrace(table, lists[l], vs[l])
    ensures t == table
  {
    forall i: nat | i < |table|
      ensures t[i] == table[i]
    {
      assert table[i].(fn := 0) == t[i].(fn := 0) && t[i].fn == TimesPointer(table, lists, vs, i);
      var entry := EntryPoint(table[i].name);
      if entry.Some? {
        assert LeavesNoTrace(table, lists[entry.value], vs[entry.value]);
        if Setter(lists[entry.value], table[i], |lists[entry.value]|).Some? {
          assert AnyListed(table, lists[entry.value]);
          assert table[i].fn != 0 ==> IsOriginal(table, lists[entry.value], i);
        }
      }
    }
  }

  // An entry point visited without a failure has a listed method.
  lemma {:induction false} VisitedIsListed(table: seq<Native>, lists: seq<seq<Method>>, n: nat, l: nat)
    requires |lists| == 3 && n <= StopsAt(table, lists, 0) && l < 3 && Visits(table, l, n) > 0
    ensures AnyListed(table, lists[l])
  {
    var i := NthVisit(table, l, 0, n);
    assert TimesOf(0) == Never && !StopsHere(table, lists, i);
  }

  lemma {:induction false} OneMoreLeavesNoTrace(table: seq<Native>, lists: seq<seq<Method>>, n: nat, l: nat)
    requires |lists| == 3 && n <= StopsAt(table, lists, 0) && l < 3
    ensures LeavesNoTrace(table, lists[l], Up(AllSeen(table, lists, n)[l])) <==>
            (Visits(table, l, n) > 0 ==>
               OriginalsBound(table, lists[l]) && (Visits(table, l, n) % 2 == 1 || AllStuck(table, lists, n, l)))
  {
    TimesIsRemainder(Visits(table, l, n));
    SeenTimes(table, lists, n, l);
    if Visits(table, l, n) > 0 {
      VisitedIsListed(table, lists, n, l);
    }
  }

  /** Registering once more each list hooked before n puts the class back iff that is undoable. */
  lemma {:induction false} AgainIsSame(table: seq<Native>, lists: seq<seq<Method>>, n: nat, t: seq<Native>)
    requires GoodLists(table, lists) && n <= StopsAt(table, lists, 0)
    requires HookedTimes(table, lists, Again(AllSeen(table, lists, n)), t)
    ensures t == table <==> Undoable(table, lists, n)
  {
    var ws := Again(AllSeen(table, lists, n));
    forall l: nat | l < 3
      ensures ws[l] == Up(AllSeen(table, lists, n)[l])
      ensures LeavesNoTrace(table, lists[l], ws[l]) <==>
              (Visits(table, l, n) > 0 ==>
                 OriginalsBound(table, lists[l]) && (Visits(table, l, n) % 2 == 1 || AllStuck(table, lists, n, l)))
    {
      OneMoreLeavesNoTrace(table, lists, n, l);
    }
    if Undoable(table, lists, n) {
      NoTraceLeft(table, lists, ws, t);
    } else {
      var l: nat :| l < 3 && !LeavesNoTrace(table, lists[l], ws[l]);
      TraceLeft(table, lists, ws, t, l);
    }
  }

  /** All or nothing, exactly. When no entry point is missing, all of them are hooked and every list
      returns the originals iff the list of each was hooked once, or an odd number of times with its
      methods told apart. When one is missing, every list is nulled, and the class is as it was iff what
      each entry point visited before hooked was bound and its list holds the originals. */
  lemma {:induction false} AllOrNothing(table: seq<Native>, lists: seq<seq<Method>>)
    requires GoodClass(table, lists)
    ensures var (t, ls) := HookZygote(table, lists);
            if NoneMissing(table, lists) then
              AllHooked(table, lists, t, ls) <==> LeftHooked(table, lists, |table|)
            else
              (t == table <==> Undoable(table, lists, StopsAt(table, lists, 0))) && ls == AllNulled(lists)
  {
    var (t, ls) := HookZygote(table, lists);
    ZygoteOutcome(table, lists);
    CompleteExactly(table, lists);
    if NoneMissing(table, lists) {
      CompleteOutcome(table, lists, t, ls);
    } else {
      AgainIsSame(table, lists, StopsAt(table, lists, 0), t);
    }
  }

  /** Whether hook_zygote_jni hooked everything or gave up, restore_zygote_hook leaves the class as it
      was before iff what each entry point visited hooked was bound and its list holds the originals. */
  lemma {:induction false} RestoreUndoesHook(table: seq<Native>, lists: seq<seq<Method>>)
    requires GoodClass(table, lists)
    ensures var (t, ls) := HookZygote(table, lists);
            |ls| == 3 && (RestoreFrom(t, ls, 0) == table <==> Undoable(table, lists, StopsAt(table, lists, 0)))
  {
    var (t, ls) := HookZygote(table, lists);
    var stop := StopsAt(table, lists, 0);
    ZygoteOutcome(table, lists);
    if stop == |table| {
      RestoreEnds(table, lists, t, ls);
      AgainIsSame(table, lists, stop, RestoreFrom(t, ls, 0));
    } else {
      ShapeDistinct(table, t);
      RestoreNull(t, ls, 0);
      AgainIsSame(table, lists, stop, t);
    }
  }

  // ----- classes whose pointers are all different -----

  // The methods that the list hooks share their pointers with no other method.
  predicate Unshared(table: seq<Native>, ms: seq<Method>) {
    forall i: nat, k: nat {:trigger IsOriginal(table, ms, i), table[k]} ::
      i < |table| && k < |table| && i != k && IsOriginal(table, ms, i) ==> table[k].fn != table[i].fn
  }

  lemma NothingBlocks(table: seq<Native>, lists: seq<seq<Method>>, vs: seq<Seen>, l: nat, i: nat)
    requires GoodClass(table, lists) && |vs| == 3 && l < 3 && Unshared(table, lists[l])
    requires i < |table| && IsOriginal(table, lists[l], i)
    ensures Leader(table, lists[l], table[i].fn) == Some(i) && !Blocked(table, lists, vs, l, table[i].fn)
  {
    var f := LeadIsHook(table, lists[l], i);
    if p: nat :| p < f && TimesPointer(table, lists, vs, p) == table[i].fn {
      OriginalHeld(table, lists, vs, p, i);
    }
  }

  ghost predicate NoneStuck(table: seq<Native>, lists: seq<seq<Method>>, n: nat, l: nat) {
    n <= |table| && |lists| == 3 && l < 3 && AllSeen(table, lists, n)[l].stuck == {}
  }

  lemma {:induction false} NoneStuckYet(table: seq<Native>, lists: seq<seq<Method>>, l: nat)
    requires |lists| == 3 && l < 3
    ensures NoneStuck(table, lists, 0, l)
  {
  }

  lemma {:induction false} NoneStuckNext(table: seq<Native>, lists: seq<seq<Method>>, n: nat, l: nat)
    requires GoodClass(table, lists) && n < |table| && l < 3 && Unshared(table, lists[l]) && NoneStuck(table, lists, n, l)
    ensures NoneStuck(table, lists, n + 1, l)
  {
    NothingStuck(table, lists, AllSeen(table, lists, n), l);
    SeenChange(table, lists, n, l);
  }

  lemma {:induction false} NeverStuck(table: seq<Native>, lists: seq<seq<Method>>, n: nat, l: nat)
    requires GoodClass(table, lists) && n <= |table| && l < 3 && Unshared(table, lists[l])
    ensures NoneStuck(table, lists, n, l)
    decreases n
  {
    if n == 0 {
      NoneStuckYet(table, lists, l);
    } else {
      NeverStuck(table, lists, n - 1, l);
      NoneStuckNext(table, lists, n - 1, l);
    }
  }

  lemma {:induction false} SeenChange(table: seq<Native>, lists: seq<seq<Method>>, n: nat, l: nat)
    requires n < |table| && |lists| == 3 && l < 3
    ensures var vs := AllSeen(table, lists, n);
            AllSeen(table, lists, n + 1)[l] == if EntryPoint(table[n].name) == Some(l) then NextSeen(table, lists, vs, l) else vs[l]
  {
    SeenNext(table, lists, n);
  }

  lemma NothingStuck(table: seq<Native>, lists: seq<seq<Method>>, vs: seq<Seen>, l: nat)
    requires GoodClass(table, lists) && |vs| == 3 && l < 3 && Unshared(table, lists[l])
    ensures StuckNow(table, lists, vs, l) == {}
  {
    forall i: nat | i < |table| && IsOriginal(table, lists[l], i)
      ensures !Blocked(table, lists, vs, l, table[i].fn)
    {
      NothingBlocks(table, lists, vs, l, i);
    }
  }

  // The methods of list l are told apart, and none of its originals is stuck.
  lemma {:induction false} UnsharedIsTold(table: seq<Native>, lists: seq<seq<Method>>, n: nat, l: nat)
    requires GoodClass(table, lists) && n <= |table| && l < 3 && Unshared(table, lists[l])
    ensures ToldApart(table, lists, n, l)
    ensures AnyBound(table, lists[l]) ==> !AllStuck(table, lists, n, l)
  {
    NeverStuck(table, lists, n, l);
    forall i: nat | i < |table| && IsOriginal(table, lists[l], i)
      ensures Leader(table, lists[l], table[i].fn) == Some(i)
    {
      NothingBlocks(table, lists, AllSeen(table, lists, n), l, i);
    }
  }

  /** Where no list of an overloaded entry point hooks a shared pointer, only the numbers of methods and
      the unbound ones matter. */
  lemma {:induction false} ParityDecides(table: seq<Native>, lists: seq<seq<Method>>, n: nat)
    requires GoodClass(table, lists) && n <= StopsAt(table, lists, 0)
    requires forall l: nat {:trigger Unshared(table, lists[l])} :: l < 3 && Visits(table, l, |table|) >= 2 ==>
               Unshared(table, lists[l])
    ensures LeftHooked(table, lists, n) <==> OddlyVisited(table, n)
    ensures Undoable(table, lists, n) <==>
            OddlyVisited(table, n) && forall l: nat :: l < 3 && Visits(table, l, n) > 0 ==> OriginalsBound(table, lists[l])
  {
    forall l: nat | l < 3 && Visits(table, l, n) > 1
      ensures ToldApart(table, lists, n, l)
      ensures OriginalsBound(table, lists[l]) ==> !AllStuck(table, lists, n, l)
    {
      VisitsGrow(table, l, n, |table|);
      assert Unshared(table, lists[l]);
      UnsharedIsTold(table, lists, n, l);
      VisitedIsListed(table, lists, n, l);
      ListedIsBound(table, lists[l]);
    }
  }

  lemma ListedIsBound(table: seq<Native>, ms: seq<Method>)
    requires AnyListed(table, ms)
    ensures OriginalsBound(table, ms) ==> AnyBound(table, ms)
  {
    var i: nat :| i < |table| && Setter(ms, table[i], |ms|).Some?;
    if OriginalsBound(table, ms) {
      assert IsOriginal(table, ms, i);
    }
  }

  predicate OneBoundMethod(table: seq<Native>, ms: seq<Method>, l: nat) {
    Visits(table, l, |table|) <= 1 && OriginalsBound(table, ms)
  }

  lemma OneIsOdd(table: seq<Native>, ms: seq<Method>, l: nat, n: nat)
    requires OneBoundMethod(table, ms, l) && n <= |table|
    ensures Visits(table, l, n) <= 1
  {
    VisitsGrow(table, l, n, |table|);
  }

  /** With one bound method for each entry point that the class has, both conditions hold. */
  lemma {:induction false} OneMethodEach(table: seq<Native>, lists: seq<seq<Method>>, n: nat)
    requires |lists| == 3 && n <= |table|
    requires OneBoundMethod(table, lists[0], 0) && OneBoundMethod(table, lists[1], 1) && OneBoundMethod(table, lists[2], 2)
    ensures LeftHooked(table, lists, n) && Undoable(table, lists, n)
  {
    OneIsOdd(table, lists[0], 0, n);
    OneIsOdd(table, lists[1], 1, n);
    OneIsOdd(table, lists[2], 2, n);
  }

  // ----- two classes for which it is not -----

  const FORK_A := Native(FORK_APP, "a", "a", 1)
  const FORK_B := Native(FORK_APP, "b", "b", 2)
  const SERVER_C := Native(FORK_SERVER, "c", "c", 3)
  const HOOK_A := Method(FORK_APP, "a", 10)
  const HOOK_D := Method(FORK_SERVER, "d", 11)

  // Hooking the list of FORK_A, again and again.
  lemma HookForkA(rest: seq<Native>)
    requires rest == [] || rest == [SERVER_C]
    ensures Hook([FORK_A, FORK_B] + rest, [HOOK_A]) == Outcome([FORK_A.(fn := 10), FORK_B] + rest, [HOOK_A.(fn := 1)], 1)
    ensures Hook([FORK_A.(fn := 10), FORK_B] + rest, [HOOK_A.(fn := 1)]) == Outcome([FORK_A, FORK_B] + rest, [HOOK_A], 1)
  {
  }

  lemma VisitForks(rest: seq<Native>, others: seq<seq<Method>>)
    requires (rest == [] || rest == [SERVER_C]) && |others| == 2
    ensures var table := [FORK_A, FORK_B] + rest;
            var lists := [[HOOK_A]] + others;
            Visit(Progress(table, lists, [false, false, false]), table) == Visit(Progress(table, lists, [true, false, false]), rest)
  {
    var table, lists := [FORK_A, FORK_B] + rest, [[HOOK_A]] + others;
    var once := Progress([FORK_A.(fn := 10), FORK_B] + rest, lists[0 := [HOOK_A.(fn := 1)]], [true, false, false]);
    HookForkA(rest);
    VisitFirst(Progress(table, lists, [false, false, false]), table);
    assert [false, false, false][0 := true] == [true, false, false];
    assert table[1..] == [FORK_B] + rest && ([FORK_B] + rest)[1..] == rest;
    VisitFirst(once, [FORK_B] + rest);
    assert once.lists[0 := [HOOK_A]] == lists && once.replaced[0 := true] == once.replaced;
  }

  /** Two overloads, then a missing entry point: the roll-back hooks the class for good. */
  lemma RollBackHooks()
    ensures HookZygote([FORK_A, FORK_B, SERVER_C], [[HOOK_A], [], [HOOK_D]]) ==
            ([FORK_A.(fn := 10), FORK_B, SERVER_C], [[HOOK_A.(fn := 0)], [], [HOOK_D.(fn := 0)]])
  {
    var table, lists := [FORK_A, FORK_B, SERVER_C], [[HOOK_A], [], [HOOK_D]];
    assert [FORK_A, FORK_B] + [SERVER_C] == table && [[HOOK_A]] + [[], [HOOK_D]] == lists;
    VisitForks([SERVER_C], [[], [HOOK_D]]);
    VisitServer();
    var z := Progress(table, [[HOOK_A], [], [HOOK_D.(fn := 0)]], [true, false, false]);
    assert Visit(Progress(table, lists, [false, false, false]), table) == (z, true);
    RollBackForks();
    assert HookZygote(table, lists) == (RollBack(z, 0), [Nulled(z.lists[0]), Nulled(z.lists[1]), Nulled(z.lists[2])]);
    assert Nulled([HOOK_A]) == [HOOK_A.(fn := 0)] && Nulled([HOOK_D.(fn := 0)]) == [HOOK_D.(fn := 0)];
  }

  lemma RollBackForks()
    ensures RollBack(Progress([FORK_A, FORK_B, SERVER_C], [[HOOK_A], [], [HOOK_D.(fn := 0)]], [true, false, false]), 0) ==
            [FORK_A.(fn := 10), FORK_B, SERVER_C]
  {
    var z := Progress([FORK_A, FORK_B, SERVER_C], [[HOOK_A], [], [HOOK_D.(fn := 0)]], [true, false, false]);
    HookForkA([SERVER_C]);
    assert [FORK_A, FORK_B] + [SERVER_C] == z.table;
    var t := RegisterAll(z.table, [HOOK_A]).0;
    assert t == [FORK_A.(fn := 10), FORK_B] + [SERVER_C];
    var z' := z.(table := t);
    assert RollBack(z, 0) == RollBack(z', 1);
    assert RollBack(z', 1) == RollBack(z', 2);
    assert RollBack(z', 2) == RollBack(z', 3) == t;
  }

  lemma VisitServer()
    ensures var table, lists := [FORK_A, FORK_B, SERVER_C], [[HOOK_A], [], [HOOK_D]];
            Visit(Progress(table, lists, [true, false, false]), [SERVER_C]) ==
            (Progress(table, [[HOOK_A], [], [HOOK_D.(fn := 0)]], [true, false, false]), true)
  {
    var table, lists := [FORK_A, FORK_B, SERVER_C], [[HOOK_A], [], [HOOK_D]];
    VisitFirst(Progress(table, lists, [true, false, false]), [SERVER_C]);
    HookServerD();
    assert lists[2 := [HOOK_D.(fn := 0)]] == [[HOOK_A], [], [HOOK_D.(fn := 0)]];
  }

  // The class has no method d.
  lemma HookServerD()
    ensures Hook([FORK_A, FORK_B, SERVER_C], [HOOK_D]) ==
            Outcome([FORK_A, FORK_B, SERVER_C], [HOOK_D.(fn := 0)], 0)
  {
    assert IndexOf([FORK_A, FORK_B, SERVER_C], HOOK_D).None?;
  }

  /** Two overloads and nothing missing: the hooks are off, and restoring puts them on. */
  lemma RestoreHooks()
    ensures var (t, ls) := HookZygote([FORK_A, FORK_B], [[HOOK_A], [], []]);
            && t == [FORK_A, FORK_B] && ls == [[HOOK_A], [], []]
            && RestoreFrom(t, ls, 0) == [FORK_A.(fn := 10), FORK_B]
  {
    assert [FORK_A, FORK_B] + [] == [FORK_A, FORK_B] && [[HOOK_A]] + [[], []] == [[HOOK_A], [], []];
    VisitForks([], [[], []]);
    HookForkA([]);
  }

  // ----- a class with a shared pointer -----

  const SHARED_B := Native(FORK_APP, "b", "b", 1)

  // The pointer is looked up from the front, and the overload, which always held it, comes first.
  lemma HookShared()
    ensures Hook([SHARED_B, FORK_A], [HOOK_A]) == Outcome([SHARED_B, FORK_A.(fn := 10)], [HOOK_A.(fn := 1)], 1)
    ensures Hook([SHARED_B, FORK_A.(fn := 10)], [HOOK_A.(fn := 1)]) == Outcome([SHARED_B, FORK_A], [HOOK_A.(fn := 1)], 1)
  {
    var bound, hooked := [SHARED_B, FORK_A], [SHARED_B, FORK_A.(fn := 10)];
    RegisterSecond(bound, HOOK_A);
    RegisterSecond(hooked, HOOK_A.(fn := 1));
    assert bound[1 := FORK_A.(fn := 10)] == hooked && hooked[1 := FORK_A] == bound;
    assert Original(bound, hooked, 10) == Original(bound, hooked[1..], 10) == OldPointer(bound, hooked[1]);
    assert OldPointer(bound, hooked[1]) == OldPointer(bound[1..], hooked[1]) == Some(1);
    assert Original(hooked, bound, 1) == OldPointer(hooked, bound[0]) == Some(1);
    assert HookCount(bound, hooked, [HOOK_A], 1) == 1 + HookCount(bound, hooked, [HOOK_A], 0) == 1;
    assert HookCount(hooked, bound, [HOOK_A.(fn := 1)], 1) == 1 + HookCount(hooked, bound, [HOOK_A.(fn := 1)], 0) == 1;
  }

  lemma RegisterSecond(table: seq<Native>, m: Method)
    requires |table| == 2 && !Names(table[0], m) && Names(table[1], m) && m.fn != 0
    ensures RegisterAll(table, [m]) == (table[1 := table[1].(fn := m.fn)], [m])
  {
    assert IndexOf(table[1..], m) == Some(0) && IndexOf(table, m) == Some(1);
    assert RegisterFirst(table, [m], 0) == (table, [m]);
    assert RegisterOne(table, m) == (table[1 := table[1].(fn := m.fn)], m) && [m][0 := m] == [m];
    assert RegisterAll(table, [m]) == RegisterFirst(table, [m], 1);
  }

  lemma VisitShared()
    ensures Visit(Progress([SHARED_B, FORK_A], [[HOOK_A], [], []], [false, false, false]), [SHARED_B, FORK_A]) ==
            Visit(Progress([SHARED_B, FORK_A], [[HOOK_A.(fn := 1)], [], []], [true, false, false]), [])
  {
    var table, lists, found := [SHARED_B, FORK_A], [[HOOK_A], [], []], [[HOOK_A.(fn := 1)], [], []];
    var once := Progress([SHARED_B, FORK_A.(fn := 10)], found, [true, false, false]);
    HookShared();
    VisitFirst(Progress(table, lists, [false, false, false]), table);
    assert lists[0 := [HOOK_A.(fn := 1)]] == found && [false, false, false][0 := true] == [true, false, false];
    assert table[1..] == [FORK_A] && [FORK_A][1..] == [];
    VisitFirst(once, [FORK_A]);
    assert once.lists[0 := [HOOK_A.(fn := 1)]] == found && once.replaced[0 := true] == once.replaced;
  }

  /** Two overloads with one pointer: the list keeps the original, so that restoring does no harm
      although the entry point was visited twice. */
  lemma SharedPointer()
    ensures var table, lists := [SHARED_B, FORK_A], [[HOOK_A], [], []];
            var (t, ls) := HookZygote(table, lists);
            && t == table && ls == [[HOOK_A.(fn := 1)], [], []]
            && RestoreFrom(t, ls, 0) == table && !OddlyVisited(table, |table|)
  {
    var table, lists := [SHARED_B, FORK_A], [[HOOK_A], [], []];
    VisitShared();
    assert HookZygote(table, lists) == (table, [[HOOK_A.(fn := 1)], [], []]);
    RestoreShared();
    assert EntryPoint(table[0].name) == EntryPoint(table[1].name) == Some(0);
    assert Visits(table, 0, 0) == 0 && Visits(table, 0, 1) == 1 && Visits(table, 0, |table|) == 2;
  }

  lemma RestoreShared()
    ensures RestoreFrom([SHARED_B, FORK_A], [[HOOK_A.(fn := 1)], [], []], 0) == [SHARED_B, FORK_A]
  {
    var table, lists := [SHARED_B, FORK_A], [[HOOK_A.(fn := 1)], [], []];
    assert RegisterAll(table, lists[0]).0 == table;
    assert RestoreFrom(table, lists, 2) == RestoreFrom(table, lists, 3) == table;
    assert RestoreFrom(table, lists, 1) == RestoreFrom(table, lists, 2);
  }
}
