/**
 CommitHook: rescan the mappings, drop the regions nobody asked for, merge with the regions that
 are live, and patch the slots of every request that a region takes.
 */
module HookCommit {
  import opened Options
  import opened AddressSpace
  import opened HookState
  import opened HookStep
  import opened HookOverlay

  // ----- rescan, filter, merge -----

  // Private, readable, backed by a file.
  predicate IsCandidate(m: MapInfo) {
    m.isPrivate && Read in m.perms && m.path != "" && m.path[0] != '['
  }

  function NewInfo(m: MapInfo, me: FileId): HookInfo {
    HookInfo(m, map[], 0, m.inode == me.inode && m.dev == me.dev)
  }

  function Scanned(vmas: map<nat, MapInfo>, me: FileId): Regions {
    map k | k in vmas && IsCandidate(vmas[k]) :: NewInfo(vmas[k], me)
  }

  predicate IsWanted(info: HookInfo, queue: seq<RegisterInfo>) {
    exists i :: 0 <= i < |queue| && info.Match(queue[i])
  }

  function Filtered(infos: Regions, queue: seq<RegisterInfo>): Regions {
    map k | k in infos && IsWanted(infos[k], queue) :: infos[k]
  }

  function Backups(infos: Regions): set<nat> {
    set k | k in infos && infos[k].backup != 0 :: infos[k].backup
  }

  function Live(infos: Regions): set<nat> {
    set k | k in infos && infos[k].backup != 0
  }

  // What merging with the old regions comes to, whatever order they are visited in.
  function Merged(scan: Regions, former: Regions): Regions {
    map k | k in (scan.Keys - Backups(former)) + Live(former) :: if k in former then former[k] else scan[k]
  }

  ghost function Rescan(s: State): State {
    s.(infos := Merged(Filtered(Scanned(s.process.vmas, s.me), s.queue), s.infos))
  }

  lemma RescanRegion(s: State, k: nat)
    requires Sound(s) && k in Rescan(s).infos
    ensures RegionSound(s.process, Rescan(s).infos[k])
    ensures Rescan(s).infos[k].area.start == k && WellFormedMapping(Rescan(s).infos[k].area)
    ensures k in s.infos ==> Rescan(s).infos[k] == s.infos[k]
    ensures k !in s.infos ==> Rescan(s).infos[k] == NewInfo(s.process.vmas[k], s.me) && k !in Backups(s.infos)
  {
    assert k in s.infos ==> RegionSound(s.process, s.infos[k]);
  }

  lemma RescanBacked(s: State, k: nat)
    requires Sound(s)
    ensures Backed(Rescan(s).infos, k) <==> Backed(s.infos, k)
    ensures Backed(s.infos, k) ==> Rescan(s).infos[k] == s.infos[k]
  {
  }

  /** A backup image is never tracked as a region to hook, and the invariant survives a rescan. */
  lemma RescanInvariant(s: State)
    requires Invariant(s)
    ensures Invariant(Rescan(s))
  {
    var t := Rescan(s);
    forall k {:trigger k in t.infos} | k in t.infos
      ensures t.infos[k].area.start == k && WellFormedMapping(t.infos[k].area)
      ensures RegionSound(t.process, t.infos[k]) && TidyRegion(t.infos[k])
    {
      RescanRegion(s, k);
    }
    RescanApart(s);
  }

  lemma RescanApart(s: State)
    requires Sound(s)
    ensures BackupsApart(Rescan(s).infos)
  {
    var t := Rescan(s);
    forall j, k {:trigger j in t.infos, Backed(t.infos, k)} | j in t.infos && Backed(t.infos, k)
      ensures t.infos[k].backup != j
    {
      RescanBacked(s, k);
      RescanRegion(s, j);
      assert s.infos[k].backup in Backups(s.infos);
    }
    forall j, k {:trigger Backed(t.infos, j), Backed(t.infos, k)} | Backed(t.infos, j) && Backed(t.infos, k) && j != k
      ensures t.infos[j].backup != t.infos[k].backup
    {
      RescanBacked(s, j);
      RescanBacked(s, k);
    }
  }

  lemma RescanNames(s: State, x: nat)
    requires Sound(s)
    ensures IsBackup(Rescan(s).infos, x) <==> IsBackup(s.infos, x)
    ensures InBackup(Rescan(s).infos, x) <==> InBackup(s.infos, x)
  {
    forall k
      ensures SameBacked(s.infos, Rescan(s).infos, k)
    {
      RescanBacked(s, k);
    }
    SameBackedNames(s.infos, Rescan(s).infos, x);
  }

  // Region k has a backup in both tables or in neither, and with one it is the same region.
  ghost predicate SameBacked(a: Regions, b: Regions, k: nat) {
    (Backed(b, k) <==> Backed(a, k)) && (Backed(a, k) ==> b[k] == a[k])
  }

  lemma SameBackedNames(a: Regions, b: Regions, x: nat)
    requires forall k {:trigger SameBacked(a, b, k)} :: SameBacked(a, b, k)
    ensures IsBackup(b, x) <==> IsBackup(a, x)
    ensures InBackup(b, x) <==> InBackup(a, x)
  {
    forall k: nat
      ensures Backed(a, k) ==> Backed(b, k) && b[k] == a[k]
      ensures Backed(b, k) ==> Backed(a, k) && a[k] == b[k]
    {
      assert SameBacked(a, b, k);
    }
    BackupsFromOther(a, b, x);
    BackupsFromOther(b, a, x);
  }

  lemma BackupsFromOther(a: Regions, b: Regions, x: nat)
    requires forall k {:trigger Backed(a, k)} :: Backed(a, k) ==> Backed(b, k) && b[k] == a[k]
    ensures IsBackup(a, x) ==> IsBackup(b, x)
    ensures InBackup(a, x) ==> InBackup(b, x)
  {
    if IsBackup(a, x) {
      var k :| k in a && a[k].backup == x;
      assert Backed(a, k) && Backed(b, k);
    }
    if k :| Backed(a, k) && a[k].backup <= x < a[k].backup + (a[k].area.end - k) {
      assert Backed(b, k);
    }
  }

  ghost predicate Holds(infos: Regions, k: nat, a: nat) {
    Backed(infos, k) && k <= a < infos[k].area.end
  }

  lemma CellOfBacked(infos: Regions, mem: map<nat, Cell>, k: nat, a: nat)
    requires WellFormedRegions(infos) && Disjoint(infos) && Holds(infos, k, a)
    ensures Owner(infos, a) == Some(k)
  {
    OwnerIsContainer(infos, k, a);
  }

  lemma CellOfUnbacked(infos: Regions, mem: map<nat, Cell>, a: nat)
    requires WellFormedRegions(infos) && Disjoint(infos) && forall k :: !Holds(infos, k, a)
    ensures PristineCell(infos, mem, a) == if a in mem && !InBackup(infos, a) then Some(mem[a]) else None
  {
    var owner := Owner(infos, a);
    if owner.Some? {
      OwnerIsContainer(infos, owner.value, a);
      assert !Holds(infos, owner.value, a);
    }
  }

  // The region that holds an address matters to the pristine image only if it is backed.
  lemma SameBackedSameCell(infos: Regions, infos': Regions, mem: map<nat, Cell>, a: nat)
    requires WellFormedRegions(infos) && Disjoint(infos) && WellFormedRegions(infos') && Disjoint(infos')
    requires forall k {:trigger Backed(infos, k)} {:trigger Backed(infos', k)} ::
               (Backed(infos', k) <==> Backed(infos, k)) && (Backed(infos, k) ==> infos'[k] == infos[k])
    requires InBackup(infos, a) <==> InBackup(infos', a)
    ensures PristineCell(infos', mem, a) == PristineCell(infos, mem, a)
  {
    if k :| Holds(infos, k, a) {
      CellOfBacked(infos, mem, k, a);
      CellOfBacked(infos', mem, k, a);
    } else {
      assert forall k :: Holds(infos', k, a) ==> Holds(infos, k, a);
      CellOfUnbacked(infos, mem, a);
      CellOfUnbacked(infos', mem, a);
    }
  }

  lemma RescanCell(s: State, a: nat)
    requires Invariant(s) && Invariant(Rescan(s))
    ensures PristineCell(Rescan(s).infos, s.process.mem, a) == PristineCell(s.infos, s.process.mem, a)
  {
    var t := Rescan(s);
    RescanNames(s, a);
    RegionsDisjoint(s);
    RegionsDisjoint(t);
    forall k
      ensures Backed(t.infos, k) <==> Backed(s.infos, k)
      ensures Backed(s.infos, k) ==> t.infos[k] == s.infos[k]
    {
      RescanBacked(s, k);
    }
    SameBackedSameCell(s.infos, t.infos, s.process.mem, a);
  }

  /** Rescanning touches no memory and leaves the image underneath as it was. */
  lemma RescanPristine(s: State)
    requires Invariant(s)
    ensures Pristine(Rescan(s)) == Pristine(s)
  {
    var t := Rescan(s);
    RescanInvariant(s);
    forall v: nat
      ensures PristineMapping(t.infos, t.process.vmas, v) == PristineMapping(s.infos, s.process.vmas, v)
    {
      RescanNames(s, v);
      RescanBacked(s, v);
    }
    forall a: nat
      ensures PristineCell(t.infos, t.process.mem, a) == PristineCell(s.infos, s.process.mem, a)
    {
      RescanCell(s, a);
    }
    SamePristine(s, t);
  }

  // ----- a run of patches -----

  datatype Call = Call(patch: Patch, place: nat)

  function PatchesOf(calls: seq<Call>): (ws: seq<Patch>)
    ensures |ws| == |calls| && forall i :: 0 <= i < |calls| ==> ws[i] == calls[i].patch
  {
    seq(|calls|, i requires 0 <= i < |calls| => calls[i].patch)
  }

  function Front<T>(s: seq<T>): seq<T>
    requires s != []
  {
    s[..|s| - 1]
  }

  function Last<T>(s: seq<T>): T
    requires s != []
  {
    s[|s| - 1]
  }

  // The kernel finds a fresh place whenever a backup is taken.
  ghost predicate Runnable(s: State, calls: seq<Call>)
    requires Invariant(s)
    decreases |calls|, 0
  {
    calls == [] ||
    (Runnable(s, Front(calls)) && CanHook(HookAll(s, Front(calls)), Last(calls).patch, Last(calls).place))
  }

  ghost function HookAll(s: State, calls: seq<Call>): (t: State)
    requires Invariant(s) && Runnable(s, calls)
    ensures Invariant(t)
    decreases |calls|, 1
  {
    if calls == [] then s
    else
      var before := HookAll(s, Front(calls));
      HookInvariant(before, Last(calls).patch, Last(calls).place);
      Hook(before, Last(calls).patch, Last(calls).place)
  }

  lemma {:induction false} ApplyAllLast(o: Overlay, ws: seq<Patch>, w: Patch)
    ensures ApplyAll(o, ws + [w]) == Apply(ApplyAll(o, ws), w)
    decreases |ws|
  {
    if ws == [] {
      assert ([w])[1..] == [];
    } else {
      assert (ws + [w])[1..] == ws[1..] + [w];
      ApplyAllLast(Apply(o, ws[0]), ws[1..], w);
    }
  }

  // What a region is, apart from its protection, its hooks and its backup.
  function Identity(info: HookInfo): HookInfo {
    info.(area := info.area.(perms := {}), hooks := map[], backup := 0)
  }

  ghost predicate SameIdentities(a: Regions, b: Regions) {
    a.Keys == b.Keys && forall k {:trigger k in a} :: k in a ==> Identity(a[k]) == Identity(b[k])
  }

  lemma SameIdentitiesChain(a: Regions, b: Regions, c: Regions)
    requires SameIdentities(a, b) && SameIdentities(b, c)
    ensures SameIdentities(a, c)
  {
  }

  // Parts of a patched slot change one region, and keep its identity, the queue and the library.
  ghost predicate SamePart(s: State, t: State, k: nat) {
    && k in s.infos && k in t.infos
    && t.infos == s.infos[k := t.infos[k]]
    && Identity(t.infos[k]) == Identity(s.infos[k])
    && t.queue == s.queue && t.me == s.me
  }

  lemma PreparePart(s: State, k: nat, place: nat)
    requires Sound(s) && k in s.infos
    ensures SamePart(s, Prepare(s, k, place), k)
  {
    if s.infos[k].isSelf {
      assert SamePart(s, MakeWritable(s, k), k);
    } else if s.infos[k].backup == 0 {
      assert SamePart(s, TakeBackup(s, k, place), k);
    }
  }

  lemma FinishPart(s: State, k: nat)
    requires Sound(s) && k in s.infos && (!s.infos[k].isSelf ==> Backed(s.infos, k))
    ensures SamePart(s, Finish(s, k), k)
  {
  }

  lemma WritePart(s: State, k: nat, w: Patch)
    requires k in s.infos && w.addr in s.process.mem
    ensures SamePart(s, WriteSlot(s, k, w), k)
  {
  }

  lemma ChainParts(s: State, p: State, t: State, u: State, k: nat)
    requires SamePart(s, p, k) && SamePart(p, t, k) && SamePart(t, u, k)
    ensures SameIdentities(s.infos, u.infos) && u.queue == s.queue && u.me == s.me
  {
  }

  lemma HookIdentities(s: State, w: Patch, place: nat)
    requires Invariant(s) && CanHook(s, w, place)
    ensures SameIdentities(s.infos, Hook(s, w, place).infos)
    ensures Hook(s, w, place).queue == s.queue && Hook(s, w, place).me == s.me
  {
    var owner := Owner(s.infos, w.addr);
    if owner.Some? {
      var k := owner.value;
      PrepareSound(s, k, place);
      PreparePart(s, k, place);
      var p := Prepare(s, k, place);
      PreparedReady(s, k, w.addr, place);
      WriteSound(p, k, w);
      WritePart(p, k, w);
      var t := WriteSlot(p, k, w);
      FinishPart(t, k);
      ChainParts(s, p, t, Finish(t, k), k);
    }
  }

  lemma {:induction false} HookAllIdentities(s: State, calls: seq<Call>)
    requires Invariant(s) && Runnable(s, calls)
    ensures SameIdentities(s.infos, HookAll(s, calls).infos)
    ensures HookAll(s, calls).queue == s.queue && HookAll(s, calls).me == s.me
    decreases |calls|
  {
    if calls != [] {
      HookAllIdentities(s, Front(calls));
      HookIdentities(HookAll(s, Front(calls)), Last(calls).patch, Last(calls).place);
    }
  }

  // No tracked region belongs to the library itself.
  ghost predicate NoneSelf(infos: Regions) {
    forall k {:trigger k in infos} :: k in infos ==> !infos[k].isSelf
  }

  lemma SameIdentitiesNoneSelf(a: Regions, b: Regions)
    requires SameIdentities(a, b) && NoneSelf(a)
    ensures NoneSelf(b)
  {
    forall k {:trigger k in b} | k in b
      ensures !b[k].isSelf
    {
      assert k in a && Identity(a[k]) == Identity(b[k]);
    }
  }

  lemma LastPatch(calls: seq<Call>)
    requires calls != []
    ensures PatchesOf(calls) == PatchesOf(Front(calls)) + [Last(calls).patch]
  {
  }

  /** A run of patches is the same run on the overlay, and never reaches the image underneath. */
  lemma {:induction false} HookAllRefines(s: State, calls: seq<Call>)
    requires Invariant(s) && Runnable(s, calls)
    ensures View(HookAll(s, calls)) == ApplyAll(View(s), PatchesOf(calls))
    ensures NoneSelf(s.infos) ==> Pristine(HookAll(s, calls)) == Pristine(s)
    decreases |calls|
  {
    if calls != [] {
      var front, last := Front(calls), Last(calls);
      HookAllRefines(s, front);
      HookRefines(HookAll(s, front), last.patch, last.place);
      LastPatch(calls);
      ApplyAllLast(View(s), PatchesOf(front), last.patch);
      if NoneSelf(s.infos) {
        HookAllIdentities(s, front);
        SameIdentitiesNoneSelf(s.infos, HookAll(s, front).infos);
        HookUntouched(HookAll(s, front), last.patch, last.place);
      }
    }
  }

  // With no region of the library's own, a patch does not reach the image underneath.
  lemma HookUntouched(s: State, w: Patch, place: nat)
    requires Invariant(s) && CanHook(s, w, place) && NoneSelf(s.infos)
    ensures Pristine(Hook(s, w, place)) == Pristine(s)
  {
    HookRefines(s, w, place);
  }
}
