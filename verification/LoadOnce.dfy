/**
 Double-checked loading, for any number of threads and every interleaving of their steps: the
 pattern behind the dynamic symbol table, the symbol table, the linker symbols, the caller
 addresses and the LZMA entry points.
 */
module LoadOnce {
  import opened Options

  // Where a thread is in the function; Loading is between the start and the end of the loader.
  datatype Pc = Check | Lock | Recheck | Load | Loading | Publish | Unlock | Returned

  datatype System = System(loaded: bool, owner: Option<nat>, started: nat, finished: nat, pcs: seq<Pc>)

  ghost predicate Initial(s: System) {
    !s.loaded && s.owner == None && s.started == 0 && s.finished == 0 && forall t :: 0 <= t < |s.pcs| ==> s.pcs[t] == Check
  }

  function Goto(s: System, t: nat, pc: Pc): System
    requires t < |s.pcs|
  {
    s.(pcs := s.pcs[t := pc])
  }

  // One atomic step of thread t: a load of the flag, taking or releasing the lock, the start or the
  // end of the loader, or the store of the flag.
  ghost predicate Step(s: System, t: nat, s': System)
    requires t < |s.pcs|
  {
    match s.pcs[t]
    case Check => s' == Goto(s, t, if s.loaded then Returned else Lock)
    case Lock => s.owner == None && s' == Goto(s, t, Recheck).(owner := Some(t))
    case Recheck => s' == Goto(s, t, if s.loaded then Unlock else Load)
    case Load => s' == Goto(s, t, Loading).(started := s.started + 1)
    case Loading => s' == Goto(s, t, Publish).(finished := s.finished + 1)
    case Publish => s' == Goto(s, t, Unlock).(loaded := true)
    case Unlock => s' == Goto(s, t, Returned).(owner := None)
    case Returned => false
  }

  predicate HoldsLock(pc: Pc) {
    pc == Recheck || pc == Load || pc == Loading || pc == Publish || pc == Unlock
  }

  ghost predicate Next(s: System, s': System) {
    exists t: nat :: t < |s.pcs| && Step(s, t, s')
  }

  ghost predicate IsRun(run: seq<System>) {
    && run != []
    && Initial(run[0])
    && forall i :: 0 <= i < |run| - 1 ==> Next(run[i], run[i + 1])
  }

  ghost predicate Inductive(s: System) {
    && (forall t: nat :: t < |s.pcs| && HoldsLock(s.pcs[t]) ==> s.owner == Some(t))
    && (s.owner.Some? ==> s.owner.value < |s.pcs| && HoldsLock(s.pcs[s.owner.value]))
    && (s.loaded ==> s.started == 1 && s.finished == 1)
    && (forall t :: 0 <= t < |s.pcs| && s.pcs[t] == Returned ==> s.loaded)
    && (forall t :: 0 <= t < |s.pcs| && s.pcs[t] == Unlock ==> s.loaded)
    && (forall t :: 0 <= t < |s.pcs| && s.pcs[t] == Load ==> !s.loaded && s.started == 0)
    && (forall t :: 0 <= t < |s.pcs| && s.pcs[t] == Loading ==> !s.loaded && s.started == 1 && s.finished == 0)
    && (forall t :: 0 <= t < |s.pcs| && s.pcs[t] == Publish ==> !s.loaded && s.started == 1 && s.finished == 1)
    && (!s.loaded && (forall t :: 0 <= t < |s.pcs| ==> s.pcs[t] != Loading && s.pcs[t] != Publish) ==>
          s.started == 0 && s.finished == 0)
  }

  lemma StepKeeps(s: System, t: nat, s': System)
    requires Inductive(s) && t < |s.pcs| && Step(s, t, s')
    ensures Inductive(s')
  {
    assert s'.pcs[t] != s.pcs[t];
    assert forall u :: 0 <= u < |s.pcs| && u != t ==> s'.pcs[u] == s.pcs[u];
  }

  lemma {:induction false} RunInductive(run: seq<System>, i: nat)
    requires IsRun(run) && i < |run|
    ensures Inductive(run[i])
  {
    if i > 0 {
      RunInductive(run, i - 1);
      assert Next(run[i - 1], run[i]);
      var t: nat :| t < |run[i - 1].pcs| && Step(run[i - 1], t, run[i]);
      StepKeeps(run[i - 1], t, run[i]);
    }
  }

  /** In every reachable state the loader has run at most once, one thread at most is inside, and no
      thread has returned before the loading was complete. */
  lemma LoadedOnce(run: seq<System>, i: nat)
    requires IsRun(run) && i < |run|
    ensures var s := run[i];
            && s.started <= 1
            && (forall t, u :: 0 <= t < |s.pcs| && 0 <= u < |s.pcs| && HoldsLock(s.pcs[t]) && HoldsLock(s.pcs[u]) ==> t == u)
            && (forall t :: 0 <= t < |s.pcs| && s.pcs[t] == Returned ==> s.loaded && s.finished == 1)
  {
    RunInductive(run, i);
  }

  // ----- no thread is stuck, and no run goes on for ever -----

  function StepsLeft(pc: Pc): nat {
    match pc
    case Check => 7
    case Lock => 6
    case Recheck => 5
    case Load => 4
    case Loading => 3
    case Publish => 2
    case Unlock => 1
    case Returned => 0
  }

  function TotalLeft(pcs: seq<Pc>): nat {
    if pcs == [] then 0 else StepsLeft(pcs[0]) + TotalLeft(pcs[1..])
  }

  lemma {:induction false} TotalAfter(pcs: seq<Pc>, t: nat, pc: Pc)
    requires t < |pcs|
    ensures TotalLeft(pcs[t := pc]) + StepsLeft(pcs[t]) == TotalLeft(pcs) + StepsLeft(pc)
    decreases |pcs|
  {
    if t == 0 {
      assert pcs[0 := pc][1..] == pcs[1..];
    } else {
      assert pcs[t := pc][1..] == pcs[1..][t - 1 := pc];
      TotalAfter(pcs[1..], t - 1, pc);
    }
  }

  lemma {:induction false} TotalBound(pcs: seq<Pc>)
    ensures TotalLeft(pcs) <= 7 * |pcs|
    decreases |pcs|
  {
    if pcs != [] {
      TotalBound(pcs[1..]);
    }
  }

  /** Every run is finite: with n threads it has at most 7n steps. */
  lemma {:induction false} RunIsShort(run: seq<System>, i: nat)
    requires IsRun(run) && i < |run|
    ensures |run[i].pcs| == |run[0].pcs| && i + TotalLeft(run[i].pcs) <= 7 * |run[0].pcs|
  {
    if i == 0 {
      TotalBound(run[0].pcs);
    } else {
      RunIsShort(run, i - 1);
      var s, s' := run[i - 1], run[i];
      assert Next(s, s');
      var t: nat :| t < |s.pcs| && Step(s, t, s');
      StepShortens(s, t, s');
    }
  }

  lemma StepShortens(s: System, t: nat, s': System)
    requires t < |s.pcs| && Step(s, t, s')
    ensures |s'.pcs| == |s.pcs| && TotalLeft(s'.pcs) < TotalLeft(s.pcs)
  {
    assert s'.pcs == s.pcs[t := s'.pcs[t]];
    assert StepsLeft(s'.pcs[t]) < StepsLeft(s.pcs[t]);
    TotalAfter(s.pcs, t, s'.pcs[t]);
  }

  /** Until every thread has returned, some thread can step: there is no deadlock. */
  lemma SomeoneCanStep(run: seq<System>, i: nat, t: nat) returns (u: nat, s': System)
    requires IsRun(run) && i < |run| && t < |run[i].pcs| && run[i].pcs[t] != Returned
    ensures u < |run[i].pcs| && Step(run[i], u, s')
  {
    RunInductive(run, i);
    var s := run[i];
    u := if s.pcs[t] == Lock && s.owner.Some? then s.owner.value else t;
    match s.pcs[u] {
      case Check => s' := Goto(s, u, if s.loaded then Returned else Lock);
      case Lock => s' := Goto(s, u, Recheck).(owner := Some(u));
      case Recheck => s' := Goto(s, u, if s.loaded then Unlock else Load);
      case Load => s' := Goto(s, u, Loading).(started := s.started + 1);
      case Loading => s' := Goto(s, u, Publish).(finished := s.finished + 1);
      case Publish => s' := Goto(s, u, Unlock).(loaded := true);
      case Unlock => s' := Goto(s, u, Returned).(owner := None);
    }
  }
}
