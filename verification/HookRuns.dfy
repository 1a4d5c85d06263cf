/**
 Whole runs of the library: requests, commits and invalidations, in any order, in a process whose
 other mappings come and go.
 */
module HookRuns {
  import opened AddressSpace
  import opened HookState
  import opened HookStep
  import opened HookCommit
  import opened HookPlan
  import opened HookRoundTrip
  import opened HookInvalidate

  datatype Event =
    | Register(reg: RegisterInfo)
    | CommitHooks(calls: seq<Call>)
    | Invalidate(turns: seq<Turn>)
    | Elsewhere(process: Process)

  // RegisterHook refuses a request without a file, a symbol or a callback.
  predicate Acceptable(reg: RegisterInfo) {
    reg.dev != 0 && reg.inode != 0 && reg.symbol != [] && reg.callback != 0
  }

  // Other code maps, unmaps and writes what the library does not track.
  ghost predicate LeavesAlone(s: State, q: Process)
  {
    && WellFormed(q)
    && forall k {:trigger k in s.infos} :: k in s.infos ==> SameAround(s.process, q, s.infos[k])
  }

  ghost predicate Enabled(s: State, slots: Slots, e: Event)
    requires Invariant(s)
  {
    match e
    case Register(_) => true
    case CommitHooks(calls) => CanCommit(s, slots, calls)
    case Invalidate(turns) => EveryRegion(s.infos, turns)
    case Elsewhere(q) => LeavesAlone(s, q)
  }

  ghost function Step(s: State, slots: Slots, e: Event): (t: State)
    requires Invariant(s) && Enabled(s, slots, e)
    ensures Invariant(t)
  {
    match e
    case Register(reg) => if Acceptable(reg) then s.(queue := s.queue + [reg]) else s
    case CommitHooks(calls) => Commit(s, slots, calls)
    case Invalidate(turns) => InvalidateAll(s, turns)
    case Elsewhere(q) => ElsewhereInvariant(s, q); s.(process := q)
  }

  lemma ElsewhereInvariant(s: State, q: Process)
    requires Invariant(s) && LeavesAlone(s, q)
    ensures Invariant(s.(process := q))
  {
    forall k {:trigger k in s.infos} | k in s.infos
      ensures RegionSound(q, s.infos[k])
    {
      RegionFrame(s.process, q, s.infos[k]);
    }
  }

  // Nothing is tracked when the library is loaded.
  ghost predicate Initial(s: State) {
    WellFormed(s.process) && s.infos == map[] && s.queue == []
  }

  ghost predicate CanRun(s: State, slots: Slots, es: seq<Event>)
    requires Invariant(s)
    decreases |es|
  {
    es == [] || (Enabled(s, slots, es[0]) && CanRun(Step(s, slots, es[0]), slots, es[1..]))
  }

  ghost function Run(s: State, slots: Slots, es: seq<Event>): (t: State)
    requires Invariant(s) && CanRun(s, slots, es)
    ensures Invariant(t)
    decreases |es|
  {
    if es == [] then s else Run(Step(s, slots, es[0]), slots, es[1..])
  }

  /** Every run keeps the regions and backups apart, and every backup an image of its region. */
  lemma RunKeepsInvariant(s: State, slots: Slots, es: seq<Event>)
    requires Initial(s) && CanRun(s, slots, es)
    ensures Invariant(s)
    ensures var t := Run(s, slots, es);
            && (forall k {:trigger k in t.infos} :: k in t.infos && !t.infos[k].isSelf ==>
                  (t.infos[k].backup != 0 <==> t.infos[k].hooks != map[]))
            && (forall k {:trigger Backed(t.infos, k)} :: Backed(t.infos, k) ==> ImageOf(t.process.mem, t.infos[k]))
            && (forall j, k :: j in t.infos && k in t.infos && j != k ==>
                  Clear(j, t.infos[j].area.end, k, t.infos[k].area.end))
            && (forall j, k :: j in t.infos && Backed(t.infos, k) ==>
                  Clear(t.infos[k].backup, BackupEnd(t.infos[k]), j, t.infos[j].area.end))
            && (forall j, k {:trigger Backed(t.infos, j), Backed(t.infos, k)} ::
                  Backed(t.infos, j) && Backed(t.infos, k) && j != k ==>
                    Clear(t.infos[k].backup, BackupEnd(t.infos[k]), t.infos[j].backup, BackupEnd(t.infos[j])))
  {
    var t := Run(s, slots, es);
    forall k {:trigger k in t.infos} | k in t.infos
      ensures RegionSound(t.process, t.infos[k]) && TidyRegion(t.infos[k])
    {
    }
    forall j, k | j in t.infos && k in t.infos
      ensures j != k ==> Clear(j, t.infos[j].area.end, k, t.infos[k].area.end)
      ensures Backed(t.infos, k) ==> Clear(t.infos[k].backup, BackupEnd(t.infos[k]), j, t.infos[j].area.end)
      ensures Backed(t.infos, j) && Backed(t.infos, k) && j != k ==>
                Clear(t.infos[k].backup, BackupEnd(t.infos[k]), t.infos[j].backup, BackupEnd(t.infos[j]))
    {
      RegionsAndBackupsDisjoint(t, j, k);
    }
  }

  // ----- runs that only register and commit, and never ask for the library itself -----

  predicate NotForSelf(reg: RegisterInfo, me: FileId) {
    reg.dev != me.dev || reg.inode != me.inode
  }

  predicate PlainEvent(e: Event, me: FileId) {
    match e
    case Register(reg) => NotForSelf(reg, me)
    case CommitHooks(_) => true
    case Invalidate(_) => false
    case Elsewhere(_) => false
  }

  ghost predicate AllPlain(es: seq<Event>, me: FileId) {
    forall i :: 0 <= i < |es| ==> PlainEvent(es[i], me)
  }

  ghost predicate NoSelfAround(s: State) {
    && NoneSelf(s.infos)
    && forall i :: 0 <= i < |s.queue| ==> NotForSelf(s.queue[i], s.me)
  }

  lemma RescanNoneSelf(s: State)
    requires Sound(s) && NoSelfAround(s)
    ensures NoneSelf(Rescan(s).infos)
  {
    var t := Rescan(s);
    forall k {:trigger k in t.infos} | k in t.infos
      ensures !t.infos[k].isSelf
    {
      RescanRegion(s, k);
      if k !in s.infos {
        var scan := Filtered(Scanned(s.process.vmas, s.me), s.queue);
        assert k in scan && IsWanted(scan[k], s.queue);
      }
    }
  }

  lemma CommitPlain(s: State, slots: Slots, calls: seq<Call>)
    requires Invariant(s) && NoSelfAround(s) && CanCommit(s, slots, calls)
    ensures var t := Commit(s, slots, calls); NoSelfAround(t) && t.me == s.me && Pristine(t) == Pristine(s)
  {
    if !CommitSkips(s) {
      RescanInvariant(s);
      RescanNoneSelf(s);
      RescanPristine(s);
      var r := Rescan(s);
      HookAllRefines(r, calls);
      HookAllIdentities(r, calls);
      SameIdentitiesNoneSelf(r.infos, HookAll(r, calls).infos);
      var left := CommitLeftover(r.infos, s.queue);
      LeftoverFrom(r.infos, Ascending(r.infos.Keys), s.queue);
      forall i | 0 <= i < |left|
        ensures NotForSelf(left[i], s.me)
      {
        assert left[i] in left;
      }
    }
  }

  lemma StepConserves(s: State, slots: Slots, e: Event)
    requires Invariant(s) && NoSelfAround(s) && PlainEvent(e, s.me) && Enabled(s, slots, e)
    ensures var t := Step(s, slots, e); NoSelfAround(t) && t.me == s.me && Pristine(t) == Pristine(s)
  {
    match e {
      case Register(reg) => SamePristine(s, Step(s, slots, e));
      case CommitHooks(calls) => CommitPlain(s, slots, calls);
    }
  }

  /** Conservation: such runs never change the address space underneath. */
  lemma {:induction false} RunConserves(s: State, slots: Slots, es: seq<Event>)
    requires Invariant(s) && NoSelfAround(s) && AllPlain(es, s.me) && CanRun(s, slots, es)
    ensures Pristine(Run(s, slots, es)) == Pristine(s)
    decreases |es|
  {
    if es != [] {
      var t := Step(s, slots, es[0]);
      assert PlainEvent(es[0], s.me);
      StepConserves(s, slots, es[0]);
      assert forall i :: 0 <= i < |es[1..]| ==> es[1..][i] == es[i + 1];
      RunConserves(t, slots, es[1..]);
    }
  }

  /** Whenever such a run ends with no hook recorded, the process is exactly the one it began with. */
  lemma RunWithoutTraces(s: State, slots: Slots, es: seq<Event>)
    requires Initial(s) && CanRun(s, slots, es) && AllPlain(es, s.me)
    ensures Hooks(Run(s, slots, es)) == map[] ==> Run(s, slots, es).process == s.process
  {
    var t := Run(s, slots, es);
    RunConserves(s, slots, es);
    PristineIsActual(s);
    if Hooks(t) == map[] {
      NoRecordsNoBackups(t);
    }
  }
}
