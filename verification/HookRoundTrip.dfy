/**
 The contract of the library's documentation: register, commit, register each symbol again with
 the function pointer that came back, commit, and the process is as it was. Exactly when that holds.
 */
module HookRoundTrip {
  import opened Options
  import opened AddressSpace
  import opened HookState
  import opened HookStep
  import opened HookEffect
  import opened HookOverlay
  import opened HookCommit
  import opened HookPlan
  import opened HookReplan
  import opened HookUnderneath

  // ----- one commit -----

  // Nothing is queued, or no mapping can be hooked: CommitHook returns at once.
  ghost predicate CommitSkips(s: State) {
    s.queue == [] || Scanned(s.process.vmas, s.me) == map[]
  }

  // The kernel answers of a commit whose system calls all succeed.
  ghost predicate CanCommit(s: State, slots: Slots, calls: seq<Call>)
    requires Invariant(s)
  {
    if CommitSkips(s) then calls == []
    else
      RescanInvariant(s);
      Runnable(Rescan(s), calls) && PatchesOf(calls) == CommitPlan(Rescan(s).infos, s.queue, slots)
  }

  ghost function Commit(s: State, slots: Slots, calls: seq<Call>): (t: State)
    requires Invariant(s) && CanCommit(s, slots, calls)
    ensures Invariant(t)
  {
    if CommitSkips(s) then s
    else
      RescanInvariant(s);
      HookAll(Rescan(s), calls).(queue := CommitLeftover(Rescan(s).infos, s.queue))
  }

  // ----- what the records say about the backups -----

  lemma RecordIsOwned(s: State, k: nat, a: nat)
    requires Sound(s) && k in s.infos && a in s.infos[k].hooks
    ensures Owner(s.infos, a) == Some(k) && a in Hooks(s)
  {
    assert RegionSound(s.process, s.infos[k]);
    RegionsDisjoint(s);
    OwnerIsContainer(s.infos, k, a);
    TrackedIsMapped(s);
  }

  lemma BackedHasRecord(s: State, k: nat) returns (a: nat)
    requires Invariant(s) && Backed(s.infos, k)
    ensures a in s.infos[k].hooks && a in Hooks(s) && Owner(s.infos, a) == Some(k)
  {
    assert RegionSound(s.process, s.infos[k]) && TidyRegion(s.infos[k]);
    a :| a in s.infos[k].hooks;
    RecordIsOwned(s, k, a);
  }

  lemma RecordMeansBacked(s: State, a: nat) returns (k: nat)
    requires Invariant(s) && a in Hooks(s)
    ensures Owner(s.infos, a) == Some(k) && k in s.infos && a in s.infos[k].hooks && Hooks(s)[a] == s.infos[k].hooks[a]
    ensures !s.infos[k].isSelf ==> Backed(s.infos, k)
  {
    k := Owner(s.infos, a).value;
    OwnedIsMapped(s, k, a);
  }

  lemma RescanNoRecords(s: State)
    requires Invariant(s) && Hooks(s) == map[]
    ensures Hooks(Rescan(s)) == map[]
  {
    var t := Rescan(s);
    RescanInvariant(s);
    forall a: nat
      ensures a !in Hooks(t)
    {
      if a in Hooks(t) {
        var k := Owner(t.infos, a).value;
        OwnedIsMapped(t, k, a);
        RescanRegion(s, k);
        if k in s.infos {
          RecordIsOwned(s, k, a);
        }
      }
    }
  }

  /** No records, no backups: the address space is the pristine one. */
  lemma NoRecordsNoBackups(s: State)
    requires Invariant(s) && Hooks(s) == map[]
    ensures Pristine(s) == s.process
  {
    forall k {:trigger k in s.infos} | k in s.infos
      ensures s.infos[k].backup == 0
    {
      if Backed(s.infos, k) {
        var a := BackedHasRecord(s, k);
      }
    }
    PristineIsActual(s);
  }

  // ----- a batch of fresh hooks -----

  // Requests are for one batch of hooks on fresh slots. A slot in the library's own file must lie in a
  // mapping that its request matches; any other slot may lie anywhere.
  ghost predicate FreshBatch(s: State, slots: Slots, calls: seq<Call>)
    requires Invariant(s) && CanCommit(s, slots, calls)
  {
    && !CommitSkips(s)
    && FreshHooks(View(Rescan(s)), PatchesOf(calls))
    && OwnSlotsMatch(Rescan(s).infos, s.queue, slots)
  }

  ghost predicate OwnSlotsMatch(infos: Regions, queue: seq<RegisterInfo>, slots: Slots) {
    forall k, reg, a {:trigger k in infos, reg in queue, a in slots(k, reg.symbol)} ::
      k in infos && reg in queue && a in slots(k, reg.symbol) && OwnCell(infos, a) ==>
        infos[Owner(infos, a).value].Match(reg)
  }

  // The state from which the second commit starts: each symbol that got an original registered again.
  ghost function ReadyToUndo(s: State, slots: Slots, calls: seq<Call>): (u: State)
    requires Invariant(s) && CanCommit(s, slots, calls)
    ensures Invariant(u)
  {
    var t := Commit(s, slots, calls);
    t.(queue := t.queue + UndoQueue(AnsweredRequests(s.queue, t.saved), t.saved))
  }

  // ----- what the first commit leaves -----

  lemma SameEnds(a: Regions, b: Regions)
    requires SameIdentities(a, b)
    ensures a.Keys == b.Keys && forall k :: k in a ==> a[k].area.end == b[k].area.end
  {
    SameEndsOf(a, b);
  }

  // Patches of fresh slots drop no backup.
  lemma FreshKeepsBackups(r: State, calls: seq<Call>, k: nat)
    requires Invariant(r) && Runnable(r, calls) && FreshHooks(View(r), PatchesOf(calls)) && Backed(r.infos, k)
    ensures Backed(HookAll(r, calls).infos, k)
  {
    var t, ws := HookAll(r, calls), PatchesOf(calls);
    assert RegionSound(r.process, r.infos[k]);
    var a := BackedHasRecord(r, k);
    HookAllRefines(r, calls);
    forall i | 0 <= i < |ws|
      ensures ws[i].addr != a
    {
    }
    KeptByAll(View(r), ws, a);
    var j := RecordMeansBacked(t, a);
    HookAllIdentities(r, calls);
    SameEnds(r.infos, t.infos);
    SameOwners(r.infos, t.infos);
    assert Identity(r.infos[k]) == Identity(t.infos[k]);
  }

  lemma UnbackedMapped(s: State, k: nat)
    requires Sound(s) && k in s.infos
    ensures k in s.process.vmas && !IsBackup(s.infos, k)
  {
    assert RegionSound(s.process, s.infos[k]);
    if j :| j in s.infos && s.infos[j].backup == k && k != 0 {
      assert Backed(s.infos, j);
      assert false;
    }
  }

  lemma UnbackedUnder(s: State, k: nat)
    requires Sound(s) && k in s.infos && !Backed(s.infos, k)
    ensures k in s.process.vmas && MappingUnder(s, k) == Some(s.process.vmas[k])
    ensures Origin(s.process.vmas[k]) == Origin(s.infos[k].area)
  {
    UnbackedMapped(s, k);
    assert RegionSound(s.process, s.infos[k]);
  }

  // A tracked region without a backup is a mapping that can be hooked.
  ghost predicate Scannable(infos: Regions, vmas: map<nat, MapInfo>, k: nat) {
    k in infos && infos[k].backup == 0 ==> k in vmas && IsCandidate(vmas[k])
  }

  lemma RescanScannable(s: State, k: nat)
    requires Sound(s)
    ensures Scannable(Rescan(s).infos, s.process.vmas, k)
  {
  }

  lemma StillScannable(r: State, calls: seq<Call>, k: nat)
    requires Invariant(r) && Runnable(r, calls) && FreshHooks(View(r), PatchesOf(calls))
    requires Scannable(r.infos, r.process.vmas, k)
    ensures Scannable(HookAll(r, calls).infos, HookAll(r, calls).process.vmas, k)
  {
    var t := HookAll(r, calls);
    HookAllUnder(r, calls);
    HookAllIdentities(r, calls);
    if k in t.infos && !Backed(t.infos, k) {
      if Backed(r.infos, k) {
        FreshKeepsBackups(r, calls, k);
      } else {
        UnbackedUnder(r, k);
        UnbackedUnder(t, k);
        assert AlikeMapping(OwnRegion(r.infos, k), MappingUnder(r, k), MappingUnder(t, k));
        assert Origin(r.process.vmas[k]) == Origin(t.process.vmas[k]);
        SameOriginSameFile(r.process.vmas[k], t.process.vmas[k]);
      }
    }
  }

  lemma SameOriginSameFile(m: MapInfo, n: MapInfo)
    requires Origin(m) == Origin(n)
    ensures m.isPrivate == n.isPrivate && m.path == n.path && m.dev == n.dev && m.inode == n.inode && m.offset == n.offset
  {
  }

  // A mapping that can be hooked and that somebody wants is tracked, unless it is a backup.
  ghost predicate Covered(infos: Regions, vmas: map<nat, MapInfo>, me: FileId, queue: seq<RegisterInfo>, v: nat) {
    v in vmas && IsCandidate(vmas[v]) && IsWanted(NewInfo(vmas[v], me), queue) && !IsBackup(infos, v) ==> v in infos
  }

  lemma BackupNames(infos: Regions, b: nat)
    ensures b in Backups(infos) <==> IsBackup(infos, b)
  {
  }

  lemma RescanCovers(s: State, v: nat)
    requires Sound(s)
    ensures Covered(Rescan(s).infos, s.process.vmas, s.me, s.queue, v)
  {
    RescanNames(s, v);
    BackupNames(s.infos, v);
    var scan := Filtered(Scanned(s.process.vmas, s.me), s.queue);
    assert v in scan <==> v in s.process.vmas && IsCandidate(s.process.vmas[v]) && IsWanted(NewInfo(s.process.vmas[v], s.me), s.queue);
  }

  lemma StillCovered(r: State, calls: seq<Call>, queue: seq<RegisterInfo>, v: nat)
    requires Invariant(r) && Runnable(r, calls) && Covered(r.infos, r.process.vmas, r.me, queue, v)
    ensures Covered(HookAll(r, calls).infos, HookAll(r, calls).process.vmas, r.me, queue, v)
  {
    var t := HookAll(r, calls);
    HookAllUnder(r, calls);
    HookAllIdentities(r, calls);
    if v !in r.infos {
      assert AlikeMapping(OwnRegion(r.infos, v), MappingUnder(r, v), MappingUnder(t, v));
    }
  }

  // Whatever q matches, p matches as well.
  predicate WantsLess(q: seq<RegisterInfo>, p: seq<RegisterInfo>) {
    forall i :: 0 <= i < |q| ==>
      exists j :: 0 <= j < |p| && SameFile(q[i], p[j])
  }

  predicate SameFile(a: RegisterInfo, b: RegisterInfo) {
    a.dev == b.dev && a.inode == b.inode && a.lo == b.lo && a.hi == b.hi
  }

  lemma LessWanted(info: HookInfo, q: seq<RegisterInfo>, p: seq<RegisterInfo>)
    requires WantsLess(q, p)
    ensures IsWanted(info, q) ==> IsWanted(info, p)
  {
    if i :| 0 <= i < |q| && info.Match(q[i]) {
      var j :| 0 <= j < |p| && SameFile(q[i], p[j]);
      assert info.Match(p[j]);
    }
  }

  lemma SameFileSameWants(m: MapInfo, me: FileId, info: HookInfo, queue: seq<RegisterInfo>)
    requires Origin(m) == Origin(info.area)
    ensures IsWanted(NewInfo(m, me), queue) <==> IsWanted(info, queue)
  {
    SameOriginSameFile(m, info.area);
    if i :| 0 <= i < |queue| && NewInfo(m, me).Match(queue[i]) {
      assert info.Match(queue[i]);
    }
    if i :| 0 <= i < |queue| && info.Match(queue[i]) {
      assert NewInfo(m, me).Match(queue[i]);
    }
  }

  // What a scan for a queue finds at k, next to the regions there are.
  lemma MergedAt(u: State, k: nat)
    requires Sound(u) && Scannable(u.infos, u.process.vmas, k) && Covered(u.infos, u.process.vmas, u.me, u.queue, k)
    ensures k in Rescan(u).infos <==> k in Shrunk(u.infos, u.queue)
    ensures k in Rescan(u).infos ==> Rescan(u).infos[k] == u.infos[k]
  {
    BackupNames(u.infos, k);
    var scan := Filtered(Scanned(u.process.vmas, u.me), u.queue);
    assert k in scan <==> k in u.process.vmas && IsCandidate(u.process.vmas[k]) && IsWanted(NewInfo(u.process.vmas[k], u.me), u.queue);
    if k in u.infos {
      UnbackedMapped(u, k);
      if !Backed(u.infos, k) {
        UnbackedUnder(u, k);
        SameFileSameWants(u.process.vmas[k], u.me, u.infos[k], u.queue);
      }
    }
  }

  // The second scan drops the regions that nobody wants any more, and finds no others.
  lemma RescanShrinks(u: State)
    requires Sound(u)
    requires forall k: nat {:trigger Scannable(u.infos, u.process.vmas, k)} :: Scannable(u.infos, u.process.vmas, k)
    requires forall v: nat {:trigger Covered(u.infos, u.process.vmas, u.me, u.queue, v)} ::
               Covered(u.infos, u.process.vmas, u.me, u.queue, v)
    ensures Rescan(u) == u.(infos := Shrunk(u.infos, u.queue))
  {
    forall k: nat
      ensures k in Rescan(u).infos <==> k in Shrunk(u.infos, u.queue)
      ensures k in Rescan(u).infos ==> Rescan(u).infos[k] == Shrunk(u.infos, u.queue)[k]
    {
      assert Scannable(u.infos, u.process.vmas, k) && Covered(u.infos, u.process.vmas, u.me, u.queue, k);
      MergedAt(u, k);
    }
    EqualRegions(Rescan(u).infos, Shrunk(u.infos, u.queue));
  }

  lemma EqualRegions(a: Regions, b: Regions)
    requires forall k: nat {:trigger k in a} {:trigger k in b} :: (k in a <==> k in b) && (k in a ==> a[k] == b[k])
    ensures a == b
  {
  }

  // ----- from the first commit to the second -----

  // What the second commit starts from.
  lemma BatchDone(s: State, slots: Slots, calls: seq<Call>)
    requires Invariant(s) && CanCommit(s, slots, calls) && FreshBatch(s, slots, calls)
    ensures var r, u := Rescan(s), ReadyToUndo(s, slots, calls);
            && Invariant(r) && Runnable(r, calls) && r.me == s.me && r.process == s.process && r.queue == s.queue
            && u.infos == HookAll(r, calls).infos && u.process == HookAll(r, calls).process
            && u.saved == HookAll(r, calls).saved && u.me == s.me
            && u.queue == CommitLeftover(r.infos, s.queue) + UndoQueue(AnsweredRequests(s.queue, u.saved), u.saved)
            && SameIdentities(r.infos, u.infos)
            && PatchesOf(calls) == CommitPlan(r.infos, s.queue, slots)
  {
    RescanInvariant(s);
    HookAllIdentities(Rescan(s), calls);
  }

  lemma HookedView(s: State, slots: Slots, calls: seq<Call>)
    requires Invariant(s) && CanCommit(s, slots, calls) && FreshBatch(s, slots, calls)
    ensures View(ReadyToUndo(s, slots, calls)) == ApplyAll(View(Rescan(s)), PatchesOf(calls))
  {
    BatchDone(s, slots, calls);
    HookAllRefines(Rescan(s), calls);
  }

  lemma {:induction false} LeftoverFrom(infos: Regions, ks: seq<nat>, queue: seq<RegisterInfo>)
    requires forall k :: k in ks ==> k in infos
    ensures forall reg :: reg in Leftover(infos, ks, queue) ==> reg in queue
    decreases |queue|
  {
    if queue != [] {
      LeftoverFrom(infos, ks, queue[1..]);
    }
  }

  lemma UndoneSameFile(back: seq<RegisterInfo>, saved: map<nat, nat>, i: nat)
    requires i < |back|
    ensures SameFile(UndoQueue(back, saved)[i], back[i])
  {
  }

  lemma AgainFrom(left: seq<RegisterInfo>, back: seq<RegisterInfo>, saved: map<nat, nat>, i: nat) returns (reg: RegisterInfo)
    requires i < |left + UndoQueue(back, saved)|
    ensures (reg in left || reg in back) && SameFile((left + UndoQueue(back, saved))[i], reg)
  {
    if i < |left| {
      reg := left[i];
    } else {
      reg := back[i - |left|];
      UndoneSameFile(back, saved, i - |left|);
    }
  }

  lemma AgainWantsLess(infos: Regions, queue: seq<RegisterInfo>, saved: map<nat, nat>)
    ensures WantsLess(CommitLeftover(infos, queue) + UndoQueue(AnsweredRequests(queue, saved), saved), queue)
  {
    var left, back := CommitLeftover(infos, queue), AnsweredRequests(queue, saved);
    var again := left + UndoQueue(back, saved);
    LeftoverFrom(infos, Ascending(infos.Keys), queue);
    AnsweredMembers(queue, saved);
    forall i | 0 <= i < |again|
      ensures exists j :: 0 <= j < |queue| && SameFile(again[i], queue[j])
    {
      var reg := AgainFrom(left, back, saved, i);
      assert reg in queue;
      MemberSameFile(again[i], reg, queue);
    }
  }

  lemma MemberSameFile(a: RegisterInfo, reg: RegisterInfo, queue: seq<RegisterInfo>)
    requires reg in queue && SameFile(a, reg)
    ensures exists j :: 0 <= j < |queue| && SameFile(a, queue[j])
  {
    var j :| 0 <= j < |queue| && queue[j] == reg;
  }

  lemma SecondCovers(s: State, slots: Slots, calls: seq<Call>, v: nat)
    requires Invariant(s) && CanCommit(s, slots, calls) && FreshBatch(s, slots, calls)
    ensures var u := ReadyToUndo(s, slots, calls);
            Scannable(u.infos, u.process.vmas, v) && Covered(u.infos, u.process.vmas, u.me, u.queue, v)
  {
    BatchDone(s, slots, calls);
    var r, u := Rescan(s), ReadyToUndo(s, slots, calls);
    RescanScannable(s, v);
    StillScannable(r, calls, v);
    RescanCovers(s, v);
    StillCovered(r, calls, s.queue, v);
    AgainWantsLess(r.infos, s.queue, u.saved);
    if v in u.process.vmas {
      LessWanted(NewInfo(u.process.vmas[v], u.me), u.queue, s.queue);
    }
  }

  /** After a batch on fresh slots the next scan finds the same regions, but for those that nobody
      wants any more. */
  lemma SecondRescan(s: State, slots: Slots, calls: seq<Call>)
    requires Invariant(s) && CanCommit(s, slots, calls) && FreshBatch(s, slots, calls)
    ensures var u := ReadyToUndo(s, slots, calls); Rescan(u) == u.(infos := Shrunk(u.infos, u.queue))
  {
    var u := ReadyToUndo(s, slots, calls);
    forall v: nat
      ensures Scannable(u.infos, u.process.vmas, v) && Covered(u.infos, u.process.vmas, u.me, u.queue, v)
    {
      SecondCovers(s, slots, calls, v);
    }
    RescanShrinks(u);
  }

  // A mapping that can be hooked is still there after fresh slots are hooked, perhaps as a backup.
  lemma StillHookable(r: State, calls: seq<Call>, v: nat) returns (w: nat)
    requires Invariant(r) && Runnable(r, calls)
    requires v in r.process.vmas && IsCandidate(r.process.vmas[v])
    ensures w in HookAll(r, calls).process.vmas && IsCandidate(HookAll(r, calls).process.vmas[w])
  {
    var t := HookAll(r, calls);
    var home := HomeOf(r, v);
    HookAllUnder(r, calls);
    assert AlikeMapping(OwnRegion(r.infos, home), MappingUnder(r, home), MappingUnder(t, home));
    w := PlaceOf(t, home);
  }

  // Where a mapping that can be hooked belongs.
  lemma HomeOf(r: State, v: nat) returns (home: nat)
    requires Sound(r) && v in r.process.vmas && IsCandidate(r.process.vmas[v])
    ensures MappingUnder(r, home).Some? && IsCandidate(MappingUnder(r, home).value)
  {
    if IsBackup(r.infos, v) {
      home :| home in r.infos && r.infos[home].backup == v;
      assert Backed(r.infos, home);
      assert RegionSound(r.process, r.infos[home]);
      UnbackedMapped(r, home);
    } else {
      home := v;
      BackedNotCandidate(r, v);
    }
  }

  lemma BackedNotCandidate(s: State, k: nat)
    requires Sound(s)
    ensures Backed(s.infos, k) ==> k in s.process.vmas && !IsCandidate(s.process.vmas[k])
  {
    if Backed(s.infos, k) {
      assert RegionSound(s.process, s.infos[k]);
    }
  }

  // Where a mapping underneath is.
  lemma PlaceOf(t: State, home: nat) returns (w: nat)
    requires Sound(t) && MappingUnder(t, home).Some? && IsCandidate(MappingUnder(t, home).value)
    ensures w in t.process.vmas && IsCandidate(t.process.vmas[w])
  {
    w := if Backed(t.infos, home) then t.infos[home].backup else home;
    if Backed(t.infos, home) {
      assert RegionSound(t.process, t.infos[home]);
    }
  }

  lemma SecondScanFinds(s: State, slots: Slots, calls: seq<Call>)
    requires Invariant(s) && CanCommit(s, slots, calls) && FreshBatch(s, slots, calls)
    ensures CommitSkips(ReadyToUndo(s, slots, calls)) <==> ReadyToUndo(s, slots, calls).queue == []
  {
    BatchDone(s, slots, calls);
    var u := ReadyToUndo(s, slots, calls);
    var v :| v in Scanned(s.process.vmas, s.me);
    var w := StillHookable(Rescan(s), calls, v);
    assert w in Scanned(u.process.vmas, u.me);
  }

  // The patches of the second commit.
  ghost function UndoingPatches(s: State, slots: Slots, calls: seq<Call>): seq<Patch>
    requires Invariant(s) && CanCommit(s, slots, calls)
  {
    Undoing(PatchesOf(calls), ReadyToUndo(s, slots, calls).saved)
  }

  lemma SecondPlan(s: State, slots: Slots, calls: seq<Call>)
    requires Invariant(s) && CanCommit(s, slots, calls) && FreshBatch(s, slots, calls)
    ensures var u := ReadyToUndo(s, slots, calls);
            CommitPlan(Shrunk(u.infos, u.queue), u.queue, slots) == UndoingPatches(s, slots, calls)
  {
    BatchDone(s, slots, calls);
    var r, u := Rescan(s), ReadyToUndo(s, slots, calls);
    SamePlans(r.infos, u.infos, s.queue, slots);
    SecondPlanUndoes(u.infos, s.queue, slots, u.saved);
  }

  lemma {:induction false} SameLeftover(a: Regions, b: Regions, ks: seq<nat>, queue: seq<RegisterInfo>)
    requires SameIdentities(a, b) && forall k :: k in ks ==> k in a
    ensures Leftover(a, ks, queue) == Leftover(b, ks, queue)
    decreases |queue|
  {
    if queue != [] {
      SameTakers(a, b, ks, queue[0]);
      SameLeftover(a, b, ks, queue[1..]);
    }
  }

  lemma SamePlans(a: Regions, b: Regions, queue: seq<RegisterInfo>, slots: Slots)
    requires SameIdentities(a, b)
    ensures CommitPlan(a, queue, slots) == CommitPlan(b, queue, slots)
    ensures CommitLeftover(a, queue) == CommitLeftover(b, queue)
  {
    var ks := Ascending(a.Keys);
    SamePlan(a, b, queue, slots);
    SameLeftover(a, b, ks, queue);
  }

  // With nothing queued, there is nothing to undo.
  lemma NothingToUndo(s: State, slots: Slots, calls: seq<Call>)
    requires Invariant(s) && CanCommit(s, slots, calls) && FreshBatch(s, slots, calls)
    requires ReadyToUndo(s, slots, calls).queue == []
    ensures UndoingPatches(s, slots, calls) == []
  {
    var u := ReadyToUndo(s, slots, calls);
    SecondPlan(s, slots, calls);
    var b := Shrunk(u.infos, u.queue);
    CommitPlanIsOver(b, [], slots);
    EmptyPlan(b, Ascending(b.Keys), Ascending(b.Keys), slots);
  }

  lemma {:induction false} EmptyPlan(infos: Regions, all: seq<nat>, ks: seq<nat>, slots: Slots)
    requires forall k :: k in all ==> k in infos
    ensures PlanOver(infos, all, ks, [], slots) == []
    decreases |ks|
  {
    if ks != [] {
      EmptyPlan(infos, all, Front(ks), slots);
    }
  }

  // ----- the slots of the second commit -----

  lemma ShrunkOwner(infos: Regions, queue: seq<RegisterInfo>, a: nat)
    requires WellFormedRegions(infos) && Disjoint(infos)
    ensures var b := Shrunk(infos, queue);
            Owner(b, a) == if Owner(infos, a).Some? && Owner(infos, a).value in b then Owner(infos, a) else None
  {
    var b := Shrunk(infos, queue);
    var owner, owner' := Owner(infos, a), Owner(b, a);
    if owner.Some? {
      OwnerIsContainer(infos, owner.value, a);
      OwnerIsContainer(b, owner.value, a);
    }
    if owner'.Some? {
      OwnerIsContainer(b, owner'.value, a);
      OwnerIsContainer(infos, owner'.value, a);
    }
  }

  // The region of a slot that is undone is still tracked: it has a backup, or it is the library's own
  // and the request wants it.
  lemma SlotStillTracked(s: State, slots: Slots, calls: seq<Call>, i: nat)
    requires Invariant(s) && CanCommit(s, slots, calls) && FreshBatch(s, slots, calls) && i < |PatchesOf(calls)|
    requires Behind(ReadyToUndo(s, slots, calls).saved, PatchesOf(calls)[i].saveTo) != 0
    ensures var u, a := ReadyToUndo(s, slots, calls), PatchesOf(calls)[i].addr;
            Owner(u.infos, a).Some? && Owner(u.infos, a).value in Shrunk(u.infos, u.queue)
  {
    BatchDone(s, slots, calls);
    HookedView(s, slots, calls);
    var r, u, ws := Rescan(s), ReadyToUndo(s, slots, calls), PatchesOf(calls);
    PatchedByAll(View(r), ws, i);
    var k := RecordMeansBacked(u, ws[i].addr);
    if u.infos[k].isSelf {
      OwnSlotWanted(s, slots, calls, ws[i], k);
    }
  }

  // A request that is registered again still wants the regions it wanted.
  lemma AgainWants(info: HookInfo, left: seq<RegisterInfo>, queue: seq<RegisterInfo>, saved: map<nat, nat>, reg: RegisterInfo)
    requires reg in queue && Behind(saved, reg.backup) != 0 && info.Match(reg)
    ensures IsWanted(info, left + UndoQueue(AnsweredRequests(queue, saved), saved))
  {
    var back := AnsweredRequests(queue, saved);
    AnsweredMembers(queue, saved);
    var j :| 0 <= j < |back| && back[j] == reg;
    var again := left + UndoQueue(back, saved);
    assert again[|left| + j] == UndoRequest(reg, saved) && info.Match(again[|left| + j]);
  }

  // The request behind a slot in the library's own file wants the mapping of that slot.
  lemma OwnSlotMatched(infos: Regions, queue: seq<RegisterInfo>, slots: Slots, w: Patch) returns (reg: RegisterInfo)
    requires OwnSlotsMatch(infos, queue, slots) && w in CommitPlan(infos, queue, slots) && OwnCell(infos, w.addr)
    ensures reg in queue && reg.backup == w.saveTo && infos[Owner(infos, w.addr).value].Match(reg)
  {
    var k;
    k, reg := PlannedPatch(infos, queue, slots, w);
  }

  lemma SameMatch(a: HookInfo, b: HookInfo, reg: RegisterInfo)
    requires Identity(a) == Identity(b)
    ensures a.Match(reg) <==> b.Match(reg)
  {
  }

  lemma SameOwnOwner(a: Regions, b: Regions, addr: nat, o: nat)
    requires SameIdentities(a, b) && Owner(b, addr) == Some(o) && OwnRegion(b, o)
    ensures Owner(a, addr) == Some(o) && OwnRegion(a, o) && OwnCell(a, addr) && Identity(a[o]) == Identity(b[o])
  {
    SameOwnRegions(a, b);
    SameEnds(a, b);
    SameOwners(a, b);
    assert o in a && o in b;
  }

  lemma OwnSlotWanted(s: State, slots: Slots, calls: seq<Call>, w: Patch, o: nat)
    requires Invariant(s) && CanCommit(s, slots, calls) && FreshBatch(s, slots, calls) && w in PatchesOf(calls)
    requires var u := ReadyToUndo(s, slots, calls);
             Behind(u.saved, w.saveTo) != 0 && Owner(u.infos, w.addr) == Some(o) && OwnRegion(u.infos, o)
    ensures var u := ReadyToUndo(s, slots, calls); IsWanted(u.infos[o], u.queue)
  {
    BatchDone(s, slots, calls);
    var r, u := Rescan(s), ReadyToUndo(s, slots, calls);
    SameOwnOwner(r.infos, u.infos, w.addr, o);
    var reg := OwnSlotMatched(r.infos, s.queue, slots, w);
    SameMatch(r.infos[o], u.infos[o], reg);
    AgainWants(u.infos[o], CommitLeftover(r.infos, s.queue), s.queue, u.saved, reg);
  }

  lemma ShrunkRecord(infos: Regions, queue: seq<RegisterInfo>, a: nat)
    requires WellFormedRegions(infos) && Disjoint(infos)
    ensures var b, owner := Shrunk(infos, queue), Owner(infos, a);
            RecordAt(b, a) == if owner.Some? && owner.value in b then RecordAt(infos, a) else None
  {
    ShrunkOwner(infos, queue, a);
  }

  // The overlay of the second commit is that of the first on the regions still tracked.
  lemma ShrunkView(u: State, a: nat)
    requires Sound(u)
    ensures var t, owner := u.(infos := Shrunk(u.infos, u.queue)), Owner(u.infos, a);
            && (a in Words(t) <==> a in Words(u) && owner.Some? && owner.value in t.infos)
            && (a in Words(t) ==> Words(t)[a] == Words(u)[a])
            && (a in Hooks(t) <==> a in Hooks(u) && owner.Some? && owner.value in t.infos)
            && (a in Hooks(t) ==> Hooks(t)[a] == Hooks(u)[a])
  {
    RegionsDisjoint(u);
    ShrunkOwner(u.infos, u.queue, a);
    ShrunkRecord(u.infos, u.queue, a);
  }

  lemma UndoingSlots(s: State, slots: Slots, calls: seq<Call>)
    requires Invariant(s) && CanCommit(s, slots, calls) && FreshBatch(s, slots, calls)
    requires Invariant(Rescan(ReadyToUndo(s, slots, calls)))
    ensures var u := ReadyToUndo(s, slots, calls);
            && RecordedSlots(View(u), UndoingPatches(s, slots, calls))
            && RecordedSlots(View(Rescan(u)), UndoingPatches(s, slots, calls))
  {
    var u, ws, us := ReadyToUndo(s, slots, calls), PatchesOf(calls), UndoingPatches(s, slots, calls);
    HookedView(s, slots, calls);
    UndoingRecorded(View(Rescan(s)), ws);
    SecondRescan(s, slots, calls);
    forall j: nat | j < |us|
      ensures us[j].addr in Words(Rescan(u)) && us[j].addr in Hooks(Rescan(u))
    {
      var i := UndoingOrigin(ws, u.saved, j);
      SlotStillTracked(s, slots, calls, i);
      ShrunkView(u, us[j].addr);
    }
  }

  // ----- the second commit needs no new place -----

  lemma RecordedNeedsNoPlace(v: State, w: Patch, place: nat)
    requires Invariant(v) && w.addr in Hooks(v)
    ensures CanHook(v, w, place)
  {
    var k := RecordMeansBacked(v, w.addr);
  }

  lemma StillRecorded(u: State, before: seq<Patch>, front: seq<Call>, a: nat)
    requires Invariant(u) && Runnable(u, front) && PatchesOf(front) == before
    requires AllTracked(View(u), before) && a in Hooks(u) && forall i :: 0 <= i < |before| ==> before[i].addr != a
    ensures a in Hooks(HookAll(u, front))
  {
    HookAllRefines(u, front);
    KeptByAll(View(u), before, a);
  }

  lemma RecordedFront(o: Overlay, us: seq<Patch>)
    requires RecordedSlots(o, us) && us != []
    ensures RecordedSlots(o, Front(us))
    ensures Last(us).addr in o.hooks && forall i :: 0 <= i < |Front(us)| ==> Front(us)[i].addr != Last(us).addr
  {
  }

  // Patches of recorded slots find their regions backed: no call has to take a backup.
  lemma {:induction false} RecordedRun(u: State, us: seq<Patch>, calls: seq<Call>)
    requires Invariant(u) && PatchesOf(calls) == us && RecordedSlots(View(u), us)
    ensures Runnable(u, calls)
    decreases |calls|
  {
    if calls != [] {
      RecordedFront(View(u), us);
      LastPatch(calls);
      assert us == Front(us) + [Last(us)];
      RecordedRun(u, Front(us), Front(calls));
      StillRecorded(u, Front(us), Front(calls), Last(us).addr);
      RecordedNeedsNoPlace(HookAll(u, Front(calls)), Last(calls).patch, Last(calls).place);
    }
  }

  /** Unhooking needs nothing of the kernel but to move the pages home: whatever places it would
      offer, the second commit can run exactly when it patches back the slots of the first that got an
      original. */
  lemma UndoingNeedsNoPlace(s: State, slots: Slots, calls: seq<Call>, undoing: seq<Call>)
    requires Invariant(s) && CanCommit(s, slots, calls) && FreshBatch(s, slots, calls)
    ensures CanCommit(ReadyToUndo(s, slots, calls), slots, undoing) <==> PatchesOf(undoing) == UndoingPatches(s, slots, calls)
  {
    var u := ReadyToUndo(s, slots, calls);
    SecondScanFinds(s, slots, calls);
    if CommitSkips(u) {
      NothingToUndo(s, slots, calls);
    } else {
      RescanInvariant(u);
      SecondRescan(s, slots, calls);
      SecondPlan(s, slots, calls);
      UndoingSlots(s, slots, calls);
      if PatchesOf(undoing) == UndoingPatches(s, slots, calls) {
        RecordedRun(Rescan(u), PatchesOf(undoing), undoing);
      }
    }
  }

  // ----- the two commits, slot by slot -----

  // The two commits as one step for readers.
  ghost function Outcome(s: State, slots: Slots, calls: seq<Call>): Overlay
    requires Invariant(s) && CanCommit(s, slots, calls)
  {
    HookedThenUnhooked(View(Rescan(s)), PatchesOf(calls))
  }

  // Patches of slots that are tracked either way do the same to a slot that is tracked either way.
  lemma SameSlotAfter(o: Overlay, p: Overlay, us: seq<Patch>, a: nat)
    requires DistinctSlots(us) && AllTracked(o, us) && AllTracked(p, us) && SlotKept(o, p, a) && a in o.words
    ensures SlotKept(ApplyAll(o, us), ApplyAll(p, us), a)
  {
    if j :| 0 <= j < |us| && us[j].addr == a {
      PatchedByAll(o, us, j);
      PatchedByAll(p, us, j);
    } else {
      KeptByAll(o, us, a);
      KeptByAll(p, us, a);
    }
  }

  // A slot of a region that is still tracked.
  lemma TrackedSlot(s: State, slots: Slots, calls: seq<Call>, undoing: seq<Call>, a: nat)
    requires Invariant(s) && CanCommit(s, slots, calls) && FreshBatch(s, slots, calls)
    requires CanCommit(ReadyToUndo(s, slots, calls), slots, undoing) && !CommitSkips(ReadyToUndo(s, slots, calls))
    requires a in Words(Rescan(ReadyToUndo(s, slots, calls)))
    ensures SlotKept(Outcome(s, slots, calls), View(Commit(ReadyToUndo(s, slots, calls), slots, undoing)), a)
  {
    var u, us := ReadyToUndo(s, slots, calls), UndoingPatches(s, slots, calls);
    RescanInvariant(u);
    UndoingNeedsNoPlace(s, slots, calls, undoing);
    UndoingSlots(s, slots, calls);
    HookedView(s, slots, calls);
    HookAllRefines(Rescan(u), undoing);
    SecondRescan(s, slots, calls);
    ShrunkView(u, a);
    SameSlotAfter(View(u), View(Rescan(u)), us, a);
  }

  // A slot of a region that is tracked no more is not touched.
  lemma UntrackedSlot(s: State, slots: Slots, calls: seq<Call>, undoing: seq<Call>, a: nat)
    requires Invariant(s) && CanCommit(s, slots, calls) && FreshBatch(s, slots, calls)
    requires CanCommit(ReadyToUndo(s, slots, calls), slots, undoing) && !CommitSkips(ReadyToUndo(s, slots, calls))
    requires a in Words(ReadyToUndo(s, slots, calls)) && a !in Words(Rescan(ReadyToUndo(s, slots, calls)))
    ensures var v := Commit(ReadyToUndo(s, slots, calls), slots, undoing);
            a in Outcome(s, slots, calls).words && a in v.process.mem && v.process.mem[a].word == Outcome(s, slots, calls).words[a]
  {
    var u, us := ReadyToUndo(s, slots, calls), UndoingPatches(s, slots, calls);
    RescanInvariant(u);
    UndoingNeedsNoPlace(s, slots, calls, undoing);
    UndoingSlots(s, slots, calls);
    HookedView(s, slots, calls);
    KeptByAll(View(u), us, a);
    UntrackedCell(u, undoing, a);
  }

  lemma UntrackedCell(u: State, undoing: seq<Call>, a: nat)
    requires Invariant(u) && Invariant(Rescan(u)) && Runnable(Rescan(u), undoing)
    requires a in Words(u) && a !in Words(Rescan(u))
    ensures var v := HookAll(Rescan(u), undoing); a in v.process.mem && v.process.mem[a] == u.process.mem[a]
  {
    var t, v := Rescan(u), HookAll(Rescan(u), undoing);
    HookAllUnder(t, undoing);
    HookAllIdentities(t, undoing);
    SameEnds(t.infos, v.infos);
    SameOwners(t.infos, v.infos);
    assert AlikeCell(OwnCell(t.infos, a), CellUnder(t, a), CellUnder(v, a));
    OwnedIsMapped(u, Owner(u.infos, a).value, a);
    NotInBackup(u, a);
    RescanNames(u, a);
  }

  lemma NotInBackup(u: State, a: nat)
    requires Sound(u) && Owner(u.infos, a).Some?
    ensures !InBackup(u.infos, a)
  {
    var k := Owner(u.infos, a).value;
    OwnedIsMapped(u, k, a);
    if j :| Backed(u.infos, j) && u.infos[j].backup <= a < u.infos[j].backup + (u.infos[j].area.end - j) {
      RegionsAndBackupsDisjoint(u, k, j);
    }
  }

  // With nothing to register again, the second commit does nothing.
  lemma SkippedSecond(s: State, slots: Slots, calls: seq<Call>, undoing: seq<Call>)
    requires Invariant(s) && CanCommit(s, slots, calls) && FreshBatch(s, slots, calls)
    requires CanCommit(ReadyToUndo(s, slots, calls), slots, undoing) && CommitSkips(ReadyToUndo(s, slots, calls))
    ensures Commit(ReadyToUndo(s, slots, calls), slots, undoing) == ReadyToUndo(s, slots, calls)
    ensures View(ReadyToUndo(s, slots, calls)) == Outcome(s, slots, calls)
  {
    SecondScanFinds(s, slots, calls);
    NothingToUndo(s, slots, calls);
    HookedView(s, slots, calls);
  }

  lemma ReadWord(s: State, a: nat)
    requires a in Words(s)
    ensures a in s.process.mem && s.process.mem[a].word == Words(s)[a]
  {
  }

  // Every word that the first commit's regions hold, after the second.
  lemma WordAfterBoth(s: State, slots: Slots, calls: seq<Call>, undoing: seq<Call>, a: nat)
    requires Invariant(s) && CanCommit(s, slots, calls) && FreshBatch(s, slots, calls)
    requires CanCommit(ReadyToUndo(s, slots, calls), slots, undoing) && a in Words(Rescan(s))
    ensures var v := Commit(ReadyToUndo(s, slots, calls), slots, undoing);
            a in Outcome(s, slots, calls).words && a in v.process.mem && v.process.mem[a].word == Outcome(s, slots, calls).words[a]
  {
    var u := ReadyToUndo(s, slots, calls);
    HookedView(s, slots, calls);
    WordsStay(View(Rescan(s)), PatchesOf(calls), a);
    if CommitSkips(u) {
      SkippedSecond(s, slots, calls, undoing);
      ReadWord(u, a);
    } else if a in Words(Rescan(u)) {
      WordsStay(View(u), UndoingPatches(s, slots, calls), a);
      TrackedSlot(s, slots, calls, undoing, a);
      ReadWord(Commit(u, slots, undoing), a);
    } else {
      UntrackedSlot(s, slots, calls, undoing, a);
    }
  }

  lemma {:induction false} WordsStay(o: Overlay, ws: seq<Patch>, a: nat)
    requires a in o.words
    ensures a in ApplyAll(o, ws).words
    decreases |ws|
  {
    if ws != [] {
      WordsStay(Apply(o, ws[0]), ws[1..], a);
    }
  }

  // ----- when everything reads as before -----

  ghost predicate Reads(m: map<nat, nat>, mem: map<nat, Cell>) {
    forall a {:trigger a in m} :: a in m ==> a in mem && mem[a].word == m[a]
  }

  // Every word of the regions that r tracks reads in v as it does in r.
  ghost predicate ReadsAlike(r: State, v: State) {
    Reads(Words(r), v.process.mem)
  }

  // The slots behind each backup pointer start alike, and none of them null.
  ghost predicate Restorable(r: State, ws: seq<Patch>) {
    AllTracked(View(r), ws) && SharedStart(View(r), ws) && BoundStart(View(r), ws)
  }

  lemma {:induction false} WordsGrowNot(o: Overlay, ws: seq<Patch>, a: nat)
    requires a in ApplyAll(o, ws).words
    ensures a in o.words
    decreases |ws|
  {
    if ws != [] {
      WordsGrowNot(Apply(o, ws[0]), ws[1..], a);
    }
  }

  // The second commit leaves the words that the overlay of both rounds has.
  lemma ReadsAsOutcome(s: State, slots: Slots, calls: seq<Call>, undoing: seq<Call>)
    requires Invariant(s) && CanCommit(s, slots, calls) && FreshBatch(s, slots, calls)
    requires CanCommit(ReadyToUndo(s, slots, calls), slots, undoing)
    ensures SameReadings(Words(Rescan(s)), Outcome(s, slots, calls).words,
                         Commit(ReadyToUndo(s, slots, calls), slots, undoing).process.mem)
  {
    var mem := Commit(ReadyToUndo(s, slots, calls), slots, undoing).process.mem;
    forall a: nat | a in Words(Rescan(s))
      ensures a in Outcome(s, slots, calls).words && a in mem && mem[a].word == Outcome(s, slots, calls).words[a]
    {
      WordAfterBoth(s, slots, calls, undoing, a);
    }
    forall a | a in Outcome(s, slots, calls).words
      ensures a in Words(Rescan(s))
    {
      OutcomeAddsNothing(s, slots, calls, a);
    }
  }

  lemma OutcomeAddsNothing(s: State, slots: Slots, calls: seq<Call>, a: nat)
    requires Invariant(s) && CanCommit(s, slots, calls) && FreshBatch(s, slots, calls)
    requires a in Outcome(s, slots, calls).words
    ensures a in Words(Rescan(s))
  {
    var o, ws := View(Rescan(s)), PatchesOf(calls);
    WordsGrowNot(ApplyAll(o, ws), Undoing(ws, ApplyAll(o, ws).saved), a);
    WordsGrowNot(o, ws, a);
  }

  ghost predicate SameReadings(m: map<nat, nat>, n: map<nat, nat>, mem: map<nat, Cell>) {
    && (forall a {:trigger a in m} :: a in m ==> a in n && a in mem && mem[a].word == n[a])
    && (forall a {:trigger a in n} :: a in n ==> a in m)
  }

  lemma AlikeIsEqual(m: map<nat, nat>, n: map<nat, nat>, mem: map<nat, Cell>)
    requires SameReadings(m, n, mem)
    ensures Reads(m, mem) <==> n == m
  {
    if Reads(m, mem) {
      assert m.Keys == n.Keys;
      assert n == m;
    }
  }

  /** Hook and unhook a batch, in two commits: every word reads as before if and only if the slots
      behind each backup pointer started alike, and none of them null. */
  lemma UnhookRestoresExactly(s: State, slots: Slots, calls: seq<Call>, undoing: seq<Call>)
    requires Invariant(s) && CanCommit(s, slots, calls) && FreshBatch(s, slots, calls)
    requires CanCommit(ReadyToUndo(s, slots, calls), slots, undoing)
    ensures ReadsAlike(Rescan(s), Commit(ReadyToUndo(s, slots, calls), slots, undoing)) <==>
            Restorable(Rescan(s), PatchesOf(calls))
  {
    var r, v := Rescan(s), Commit(ReadyToUndo(s, slots, calls), slots, undoing);
    ReadsAsOutcome(s, slots, calls, undoing);
    AlikeIsEqual(Words(r), Outcome(s, slots, calls).words, v.process.mem);
    HookThenUnhookExactly(View(r), PatchesOf(calls));
  }

  // ----- the address space underneath -----

  lemma FirstUnder(s: State, slots: Slots, calls: seq<Call>)
    requires Invariant(s) && CanCommit(s, slots, calls) && FreshBatch(s, slots, calls)
    ensures SameUnderneath(Rescan(s).infos, s, ReadyToUndo(s, slots, calls))
  {
    BatchDone(s, slots, calls);
    var r := Rescan(s);
    RescanPristine(s);
    PristineIsSame(r, s);
    HookAllUnder(r, calls);
    ChainUnderneath(r.infos, r.infos, s, r, HookAll(r, calls));
    SameButQueue(r.infos, s, HookAll(r, calls), ReadyToUndo(s, slots, calls));
  }

  lemma RescanUnder(u: State, undoing: seq<Call>)
    requires Invariant(u) && Invariant(Rescan(u)) && Runnable(Rescan(u), undoing)
    ensures SameUnderneath(Rescan(u).infos, u, HookAll(Rescan(u), undoing))
  {
    var t := Rescan(u);
    RescanPristine(u);
    PristineIsSame(t, u);
    HookAllUnder(t, undoing);
    ChainUnderneath(t.infos, t.infos, u, t, HookAll(t, undoing));
  }

  lemma ShrunkOwn(infos: Regions, queue: seq<RegisterInfo>)
    requires WellFormedRegions(infos) && Disjoint(infos)
    ensures forall v: nat :: OwnRegion(Shrunk(infos, queue), v) ==> OwnRegion(infos, v)
    ensures forall a: nat :: OwnCell(Shrunk(infos, queue), a) ==> OwnCell(infos, a)
  {
    forall a: nat
      ensures OwnCell(Shrunk(infos, queue), a) ==> OwnCell(infos, a)
    {
      ShrunkOwner(infos, queue, a);
    }
  }

  /** Whatever the words, the address space underneath is the same, off the library's own regions. */
  lemma SameUnderBoth(s: State, slots: Slots, calls: seq<Call>, undoing: seq<Call>)
    requires Invariant(s) && CanCommit(s, slots, calls) && FreshBatch(s, slots, calls)
    requires CanCommit(ReadyToUndo(s, slots, calls), slots, undoing)
    ensures SameUnderneath(Rescan(s).infos, s, Commit(ReadyToUndo(s, slots, calls), slots, undoing))
  {
    var r, u := Rescan(s), ReadyToUndo(s, slots, calls);
    FirstUnder(s, slots, calls);
    if !CommitSkips(u) {
      BatchDone(s, slots, calls);
      RescanInvariant(u);
      SecondRescan(s, slots, calls);
      RescanUnder(u, undoing);
      RegionsDisjoint(u);
      ShrunkOwn(u.infos, u.queue);
      SameOwnRegions(r.infos, u.infos);
      ChainUnderneath(r.infos, Rescan(u).infos, s, u, HookAll(Rescan(u), undoing));
      SameButQueue(r.infos, s, HookAll(Rescan(u), undoing), Commit(u, slots, undoing));
    }
  }

  // No record is new, and each one from before is still there, unless it was for a slot of the
  // library's own file whose region is tracked no more.
  ghost predicate RecordsAlike(r: State, v: State) {
    && (forall a: nat {:trigger a in Hooks(v)} :: a in Hooks(v) ==> a in Hooks(r) && Hooks(v)[a] == Hooks(r)[a])
    && (forall a: nat {:trigger a in Hooks(r)} :: a in Hooks(r) ==>
          (a in Hooks(v) <==> Owner(v.infos, a).Some?) && (a !in Hooks(v) ==> OwnCell(r.infos, a)))
  }

  lemma SecondOwners(u: State, undoing: seq<Call>, a: nat)
    requires Invariant(u) && Invariant(Rescan(u)) && Runnable(Rescan(u), undoing)
    ensures a in Hooks(HookAll(Rescan(u), undoing)) ==> a in Words(Rescan(u))
  {
    var t, v := Rescan(u), HookAll(Rescan(u), undoing);
    HookAllIdentities(t, undoing);
    SameEnds(t.infos, v.infos);
    SameOwners(t.infos, v.infos);
    OwnedIsRead(t, a);
  }

  lemma RecordAfterBoth(s: State, slots: Slots, calls: seq<Call>, undoing: seq<Call>, a: nat)
    requires Invariant(s) && CanCommit(s, slots, calls) && FreshBatch(s, slots, calls)
    requires CanCommit(ReadyToUndo(s, slots, calls), slots, undoing)
    requires a in Hooks(Commit(ReadyToUndo(s, slots, calls), slots, undoing))
    ensures var v := Commit(ReadyToUndo(s, slots, calls), slots, undoing);
            a in Outcome(s, slots, calls).hooks && Hooks(v)[a] == Outcome(s, slots, calls).hooks[a]
  {
    var u := ReadyToUndo(s, slots, calls);
    if CommitSkips(u) {
      SkippedSecond(s, slots, calls, undoing);
    } else {
      RescanInvariant(u);
      SecondOwners(u, undoing, a);
      TrackedSlot(s, slots, calls, undoing, a);
    }
  }

  // A record of a region that is still tracked after both commits.
  lemma RecordStays(s: State, slots: Slots, calls: seq<Call>, undoing: seq<Call>, a: nat)
    requires Invariant(s) && CanCommit(s, slots, calls) && FreshBatch(s, slots, calls)
    requires CanCommit(ReadyToUndo(s, slots, calls), slots, undoing)
    requires a in Outcome(s, slots, calls).hooks
    requires Owner(Commit(ReadyToUndo(s, slots, calls), slots, undoing).infos, a).Some?
    ensures a in Hooks(Commit(ReadyToUndo(s, slots, calls), slots, undoing))
  {
    var u := ReadyToUndo(s, slots, calls);
    if CommitSkips(u) {
      SkippedSecond(s, slots, calls, undoing);
    } else {
      RescanInvariant(u);
      OwnersAfter(Rescan(u), undoing, a);
      OwnedIsRead(Rescan(u), a);
      TrackedSlot(s, slots, calls, undoing, a);
    }
  }

  lemma OwnersAfter(r: State, calls: seq<Call>, a: nat)
    requires Invariant(r) && Runnable(r, calls)
    ensures Owner(HookAll(r, calls).infos, a) == Owner(r.infos, a)
  {
    HookAllIdentities(r, calls);
    SameEnds(r.infos, HookAll(r, calls).infos);
    SameOwners(r.infos, HookAll(r, calls).infos);
  }

  // A region with a record is backed up, unless it is the library's own, and stays tracked.
  lemma RecordedStaysTracked(s: State, slots: Slots, calls: seq<Call>, undoing: seq<Call>, a: nat)
    requires Invariant(s) && CanCommit(s, slots, calls) && FreshBatch(s, slots, calls)
    requires CanCommit(ReadyToUndo(s, slots, calls), slots, undoing)
    requires a in Hooks(Rescan(s)) && !OwnCell(Rescan(s).infos, a)
    ensures Owner(Commit(ReadyToUndo(s, slots, calls), slots, undoing).infos, a).Some?
  {
    var r, u := Rescan(s), ReadyToUndo(s, slots, calls);
    BatchDone(s, slots, calls);
    var k := RecordMeansBacked(r, a);
    FreshKeepsBackups(r, calls, k);
    OwnersAfter(r, calls, a);
    if !CommitSkips(u) {
      RescanInvariant(u);
      SecondRescan(s, slots, calls);
      RegionsDisjoint(u);
      ShrunkOwner(u.infos, u.queue, a);
      OwnersAfter(Rescan(u), undoing, a);
    }
  }

  /** The second commit takes every request that a region takes: in the queue it leaves what the first
      one left, and the undoing of those among them whose backup pointers held something already. */
  lemma QueueAfterBoth(s: State, slots: Slots, calls: seq<Call>, undoing: seq<Call>)
    requires Invariant(s) && CanCommit(s, slots, calls) && FreshBatch(s, slots, calls)
    requires CanCommit(ReadyToUndo(s, slots, calls), slots, undoing)
    ensures var t := Commit(s, slots, calls);
            Commit(ReadyToUndo(s, slots, calls), slots, undoing).queue ==
            t.queue + UndoQueue(AnsweredRequests(t.queue, t.saved), t.saved)
  {
    var r, u := Rescan(s), ReadyToUndo(s, slots, calls);
    BatchDone(s, slots, calls);
    SamePlans(r.infos, u.infos, s.queue, slots);
    if CommitSkips(u) {
      SecondScanFinds(s, slots, calls);
    } else {
      SecondRescan(s, slots, calls);
      SecondLeftover(u.infos, s.queue, u.saved);
    }
  }

  /** When they did: every word and record is as before, and the address space underneath is the same,
      off the library's own regions. Only a record of those can be gone, with its region. */
  lemma UnhookRestores(s: State, slots: Slots, calls: seq<Call>, undoing: seq<Call>)
    requires Invariant(s) && CanCommit(s, slots, calls) && FreshBatch(s, slots, calls)
    requires CanCommit(ReadyToUndo(s, slots, calls), slots, undoing) && Restorable(Rescan(s), PatchesOf(calls))
    ensures var r, v := Rescan(s), Commit(ReadyToUndo(s, slots, calls), slots, undoing);
            ReadsAlike(r, v) && RecordsAlike(r, v) && SameUnderneath(r.infos, s, v)
  {
    UnhookRestoresExactly(s, slots, calls, undoing);
    SameUnderBoth(s, slots, calls, undoing);
    HookThenUnhook(View(Rescan(s)), PatchesOf(calls));
    var v := Commit(ReadyToUndo(s, slots, calls), slots, undoing);
    forall a: nat | a in Hooks(v)
      ensures a in Hooks(Rescan(s)) && Hooks(v)[a] == Hooks(Rescan(s))[a]
    {
      RecordAfterBoth(s, slots, calls, undoing, a);
    }
    forall a: nat | a in Hooks(Rescan(s))
      ensures a in Hooks(v) <==> Owner(v.infos, a).Some?
      ensures a !in Hooks(v) ==> OwnCell(Rescan(s).infos, a)
    {
      RecordBefore(s, slots, calls, undoing, a);
    }
  }

  lemma RecordBefore(s: State, slots: Slots, calls: seq<Call>, undoing: seq<Call>, a: nat)
    requires Invariant(s) && CanCommit(s, slots, calls) && FreshBatch(s, slots, calls)
    requires CanCommit(ReadyToUndo(s, slots, calls), slots, undoing)
    requires a in Hooks(Rescan(s)) && a in Outcome(s, slots, calls).hooks
    ensures var v := Commit(ReadyToUndo(s, slots, calls), slots, undoing);
            && (a in Hooks(v) <==> Owner(v.infos, a).Some?)
            && (a !in Hooks(v) ==> OwnCell(Rescan(s).infos, a))
  {
    var v := Commit(ReadyToUndo(s, slots, calls), slots, undoing);
    if Owner(v.infos, a).Some? {
      RecordStays(s, slots, calls, undoing, a);
    }
    if !OwnCell(Rescan(s).infos, a) {
      RecordedStaysTracked(s, slots, calls, undoing, a);
    }
  }

  // Two processes are alike off the library's own regions.
  ghost predicate AlikeProcesses(infos: Regions, p: Process, q: Process) {
    && (forall v: nat {:trigger OwnRegion(infos, v)} :: AlikeMapping(OwnRegion(infos, v), MappingAt(p, v), MappingAt(q, v)))
    && (forall a: nat {:trigger OwnCell(infos, a)} :: AlikeCell(OwnCell(infos, a), CellAt(p, a), CellAt(q, a)))
  }

  ghost function MappingAt(p: Process, v: nat): Option<MapInfo> {
    if v in p.vmas then Some(p.vmas[v]) else None
  }

  ghost function CellAt(p: Process, a: nat): Option<Cell> {
    if a in p.mem then Some(p.mem[a]) else None
  }

  lemma UnderIsActual(infos: Regions, s: State, t: State)
    requires SameUnderneath(infos, s, t) && Pristine(s) == s.process && Pristine(t) == t.process
    ensures AlikeProcesses(infos, s.process, t.process)
  {
    forall v: nat
      ensures AlikeMapping(OwnRegion(infos, v), MappingAt(s.process, v), MappingAt(t.process, v))
    {
      PristineAt(s, v);
      PristineAt(t, v);
      assert AlikeMapping(OwnRegion(infos, v), MappingUnder(s, v), MappingUnder(t, v));
    }
    forall a: nat
      ensures AlikeCell(OwnCell(infos, a), CellAt(s.process, a), CellAt(t.process, a))
    {
      PristineAt(s, a);
      PristineAt(t, a);
      assert AlikeCell(OwnCell(infos, a), CellUnder(s, a), CellUnder(t, a));
    }
  }

  /** Starting with no hooks, no hook and no backup is left: every word is back, and so is every mapping
      and cell that is not the library's own, dirty bits included. */
  lemma UnhookRestoresProcess(s: State, slots: Slots, calls: seq<Call>, undoing: seq<Call>)
    requires Invariant(s) && CanCommit(s, slots, calls) && FreshBatch(s, slots, calls)
    requires CanCommit(ReadyToUndo(s, slots, calls), slots, undoing) && Restorable(Rescan(s), PatchesOf(calls))
    requires Hooks(s) == map[]
    ensures var r, v := Rescan(s), Commit(ReadyToUndo(s, slots, calls), slots, undoing);
            && Hooks(v) == map[]
            && ReadsAlike(r, v) && AlikeProcesses(r.infos, s.process, v.process)
            && (NoneSelf(r.infos) ==> v.process == s.process)
  {
    var r, v := Rescan(s), Commit(ReadyToUndo(s, slots, calls), slots, undoing);
    UnhookRestores(s, slots, calls, undoing);
    RescanNoRecords(s);
    NoNewRecords(r, v);
    NoRecordsNoBackups(s);
    NoRecordsNoBackups(v);
    UnderIsActual(r.infos, s, v);
    if NoneSelf(r.infos) {
      SameIsPristine(r.infos, s, v);
    }
  }

  lemma NoNewRecords(r: State, v: State)
    requires RecordsAlike(r, v) && Hooks(r) == map[]
    ensures Hooks(v) == map[]
  {
    assert forall a: nat :: a !in Hooks(v);
  }

  lemma SameProcessReadsAlike(r: State, v: State)
    requires v.process == r.process
    ensures ReadsAlike(r, v)
  {
  }

  /** Off the library's own file: the process is back if and only if the slots behind each backup pointer
      started alike, and none of them null. */
  lemma ProcessRestoredExactly(s: State, slots: Slots, calls: seq<Call>, undoing: seq<Call>)
    requires Invariant(s) && CanCommit(s, slots, calls) && FreshBatch(s, slots, calls)
    requires CanCommit(ReadyToUndo(s, slots, calls), slots, undoing)
    requires Hooks(s) == map[] && NoneSelf(Rescan(s).infos)
    ensures Commit(ReadyToUndo(s, slots, calls), slots, undoing).process == s.process <==>
            Restorable(Rescan(s), PatchesOf(calls))
  {
    var r, v := Rescan(s), Commit(ReadyToUndo(s, slots, calls), slots, undoing);
    UnhookRestoresExactly(s, slots, calls, undoing);
    if Restorable(r, PatchesOf(calls)) {
      UnhookRestoresProcess(s, slots, calls, undoing);
    }
    if v.process == s.process {
      SameProcessReadsAlike(r, v);
    }
  }
}
