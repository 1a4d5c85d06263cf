/**
 What patches leave of the address space underneath when some regions belong to the library itself:
 those are written in place, every other mapping and cell stays as it is.
 */
module HookUnderneath {
  import opened Options
  import opened AddressSpace
  import opened HookState
  import opened HookStep
  import opened HookEffect
  import opened HookOverlay
  import opened HookCommit

  ghost predicate OwnRegion(infos: Regions, v: nat) {
    v in infos && infos[v].isSelf
  }

  ghost predicate OwnCell(infos: Regions, a: nat) {
    Owner(infos, a).Some? && OwnRegion(infos, Owner(infos, a).value)
  }

  // The same mapping; one of the library's own may have become writable.
  ghost predicate AlikeMapping(own: bool, m: Option<MapInfo>, n: Option<MapInfo>) {
    if own then
      && m.Some? && n.Some?
      && Origin(m.value) == Origin(n.value) && m.value.start == n.value.start && m.value.end == n.value.end
      && (Read in m.value.perms ==> Read in n.value.perms)
    else m == n
  }

  // The same cell; one of the library's own may have been written.
  ghost predicate AlikeCell(own: bool, c: Option<Cell>, d: Option<Cell>) {
    if own then c.Some? && d.Some? else c == d
  }

  ghost function MappingUnder(s: State, v: nat): Option<MapInfo> {
    PristineMapping(s.infos, s.process.vmas, v)
  }

  ghost function CellUnder(s: State, a: nat): Option<Cell> {
    PristineCell(s.infos, s.process.mem, a)
  }

  // Off the library's own regions among infos, s and t are the same underneath.
  ghost predicate SameUnderneath(infos: Regions, s: State, t: State) {
    && (forall v: nat {:trigger OwnRegion(infos, v)} :: AlikeMapping(OwnRegion(infos, v), MappingUnder(s, v), MappingUnder(t, v)))
    && (forall a: nat {:trigger OwnCell(infos, a)} :: AlikeCell(OwnCell(infos, a), CellUnder(s, a), CellUnder(t, a)))
  }

  lemma OwnIsUnder(s: State, v: nat)
    requires Sound(s) && OwnRegion(s.infos, v)
    ensures v in s.process.vmas && MappingUnder(s, v) == Some(s.process.vmas[v])
  {
    assert RegionSound(s.process, s.infos[v]);
    if k :| k in s.infos && s.infos[k].backup == v {
      assert v != 0 && Backed(s.infos, k);
    }
  }

  lemma OwnCellUnder(s: State, a: nat)
    requires Sound(s) && OwnCell(s.infos, a)
    ensures a in s.process.mem && CellUnder(s, a) == Some(s.process.mem[a])
  {
    var k := Owner(s.infos, a).value;
    OwnedIsMapped(s, k, a);
    assert RegionSound(s.process, s.infos[k]);
    if j :| Backed(s.infos, j) && s.infos[j].backup <= a < s.infos[j].backup + (s.infos[j].area.end - j) {
      RegionsAndBackupsDisjoint(s, k, j);
    }
  }

  lemma PristineIsSame(s: State, t: State)
    requires Sound(s) && Pristine(s) == Pristine(t)
    ensures SameUnderneath(s.infos, s, t) && SameUnderneath(s.infos, t, s)
  {
    forall v: nat
      ensures AlikeMapping(OwnRegion(s.infos, v), MappingUnder(s, v), MappingUnder(t, v))
      ensures AlikeMapping(OwnRegion(s.infos, v), MappingUnder(t, v), MappingUnder(s, v))
    {
      PristineAt(s, v);
      PristineAt(t, v);
      if OwnRegion(s.infos, v) {
        OwnIsUnder(s, v);
      }
    }
    forall a: nat
      ensures AlikeCell(OwnCell(s.infos, a), CellUnder(s, a), CellUnder(t, a))
      ensures AlikeCell(OwnCell(s.infos, a), CellUnder(t, a), CellUnder(s, a))
    {
      PristineAt(s, a);
      PristineAt(t, a);
      if OwnCell(s.infos, a) {
        OwnCellUnder(s, a);
      }
    }
  }

  /** With no region of the library's own, that is the same address space underneath. */
  lemma SameIsPristine(infos: Regions, s: State, t: State)
    requires SameUnderneath(infos, s, t) && NoneSelf(infos)
    ensures Pristine(s) == Pristine(t)
  {
    forall v: nat
      ensures PristineMapping(s.infos, s.process.vmas, v) == PristineMapping(t.infos, t.process.vmas, v)
    {
      assert AlikeMapping(OwnRegion(infos, v), MappingUnder(s, v), MappingUnder(t, v)) && !OwnRegion(infos, v);
    }
    forall a: nat
      ensures PristineCell(s.infos, s.process.mem, a) == PristineCell(t.infos, t.process.mem, a)
    {
      assert AlikeCell(OwnCell(infos, a), CellUnder(s, a), CellUnder(t, a)) && !OwnCell(infos, a);
    }
    SamePristine(s, t);
  }

  lemma ChainUnderneath(a: Regions, b: Regions, s: State, t: State, u: State)
    requires SameUnderneath(a, s, t) && SameUnderneath(b, t, u)
    requires forall v: nat :: OwnRegion(b, v) ==> OwnRegion(a, v)
    requires forall x: nat :: OwnCell(b, x) ==> OwnCell(a, x)
    ensures SameUnderneath(a, s, u)
  {
    forall v: nat
      ensures AlikeMapping(OwnRegion(a, v), MappingUnder(s, v), MappingUnder(u, v))
    {
      assert AlikeMapping(OwnRegion(b, v), MappingUnder(t, v), MappingUnder(u, v));
    }
    forall x: nat
      ensures AlikeCell(OwnCell(a, x), CellUnder(s, x), CellUnder(u, x))
    {
      assert AlikeCell(OwnCell(b, x), CellUnder(t, x), CellUnder(u, x));
    }
  }

  lemma SameButQueue(infos: Regions, s: State, t: State, u: State)
    requires SameUnderneath(infos, s, t) && u.infos == t.infos && u.process == t.process
    ensures SameUnderneath(infos, s, u)
  {
    forall v: nat
      ensures AlikeMapping(OwnRegion(infos, v), MappingUnder(s, v), MappingUnder(u, v))
    {
      assert MappingUnder(u, v) == MappingUnder(t, v);
    }
    forall a: nat
      ensures AlikeCell(OwnCell(infos, a), CellUnder(s, a), CellUnder(u, a))
    {
      assert CellUnder(u, a) == CellUnder(t, a);
    }
  }

  lemma SameOwnRegions(a: Regions, b: Regions)
    requires SameIdentities(a, b)
    ensures forall v: nat :: OwnRegion(a, v) <==> OwnRegion(b, v)
    ensures forall x: nat :: OwnCell(a, x) <==> OwnCell(b, x)
  {
    forall v: nat
      ensures OwnRegion(a, v) <==> OwnRegion(b, v)
    {
      assert v in a ==> Identity(a[v]) == Identity(b[v]);
    }
    SameEndsOf(a, b);
    SameOwners(a, b);
  }

  lemma SameEndsOf(a: Regions, b: Regions)
    requires SameIdentities(a, b)
    ensures a.Keys == b.Keys && forall k :: k in a ==> a[k].area.end == b[k].area.end
  {
    forall k | k in a
      ensures a[k].area.end == b[k].area.end
    {
      assert Identity(a[k]) == Identity(b[k]);
    }
  }

  // ----- a slot in the library's own region -----

  lemma SameBackupsSameCell(a: Regions, b: Regions, mem: map<nat, Cell>, x: nat)
    requires SameBackups(a, b)
    ensures PristineCell(a, mem, x) == PristineCell(b, mem, x)
  {
    SameBackupNames(a, b, x);
    SameOwners(a, b);
  }

  lemma StoredElsewhere(a: Regions, b: Regions, mem: map<nat, Cell>, addr: nat, cell: Cell, x: nat)
    requires SameBackups(a, b) && addr in mem && x != addr
    requires Owner(a, x).Some? && Backed(a, Owner(a, x).value) ==> Twin(a[Owner(a, x).value], x) != addr
    ensures PristineCell(a, mem, x) == PristineCell(b, mem[addr := cell], x)
  {
    SameBackupsSameCell(a, b, mem, x);
    SameBackupNames(a, b, x);
    SameOwners(a, b);
  }

  lemma ProtectedElsewhere(a: Regions, b: Regions, vmas: map<nat, MapInfo>, k: nat, m: MapInfo, v: nat)
    requires SameBackups(a, b) && k in vmas && v != k && (Backed(a, v) ==> a[v].backup != k)
    ensures PristineMapping(a, vmas, v) == PristineMapping(b, vmas[k := m], v)
  {
    SameBackupNames(a, b, v);
  }

  lemma SameBackupsBut(infos: Regions, k: nat, info: HookInfo)
    requires k in infos && info.backup == infos[k].backup
    requires info.area.start == infos[k].area.start && info.area.end == infos[k].area.end
    ensures SameBackups(infos, infos[k := info])
  {
  }

  lemma WritableBackups(s: State, k: nat)
    requires Sound(s) && k in s.infos
    ensures SameBackups(s.infos, MakeWritable(s, k).infos)
  {
    SameBackupsBut(s.infos, k, MakeWritable(s, k).infos[k]);
  }

  // Making the library's own region writable touches no mapping but its own.
  lemma OtherMapping(s: State, k: nat, v: nat)
    requires Sound(s) && OwnRegion(s.infos, k) && v != k
    ensures MappingUnder(MakeWritable(s, k), v) == MappingUnder(s, v)
  {
    var t := MakeWritable(s, k);
    assert RegionSound(s.process, s.infos[k]);
    WritableBackups(s, k);
    ProtectedElsewhere(s.infos, t.infos, s.process.vmas, k, t.process.vmas[k], v);
  }

  lemma OwnMapping(s: State, k: nat)
    requires Sound(s) && OwnRegion(s.infos, k)
    ensures AlikeMapping(true, MappingUnder(s, k), MappingUnder(MakeWritable(s, k), k))
  {
    OwnIsUnder(s, k);
    WritableIsUnder(s, k);
  }

  lemma WritableIsUnder(s: State, k: nat)
    requires Sound(s) && OwnRegion(s.infos, k)
    ensures k in s.process.vmas && k in MakeWritable(s, k).process.vmas
    ensures MappingUnder(MakeWritable(s, k), k) == Some(MakeWritable(s, k).process.vmas[k])
    ensures var m, n := s.process.vmas[k], MakeWritable(s, k).process.vmas[k];
            AlikeMapping(true, Some(m), Some(n))
  {
    OwnIsUnder(s, k);
    MakeWritableSound(s, k);
    OwnIsUnder(MakeWritable(s, k), k);
    OwnPermissions(s, k);
  }

  // The library's own region is backed up by nothing, so it is mapped as it was recorded.
  lemma OwnPermissions(s: State, k: nat)
    requires Sound(s) && OwnRegion(s.infos, k)
    ensures k in s.process.vmas && Read in s.infos[k].area.perms
  {
    assert RegionSound(s.process, s.infos[k]);
  }

  lemma WritableCell(s: State, k: nat, a: nat)
    requires Sound(s) && OwnRegion(s.infos, k)
    ensures CellUnder(s, a) == CellUnder(MakeWritable(s, k), a)
  {
    WritableBackups(s, k);
    SameBackupsSameCell(s.infos, MakeWritable(s, k).infos, s.process.mem, a);
  }

  lemma OwnWritable(s: State, k: nat)
    requires Sound(s) && OwnRegion(s.infos, k)
    ensures SameUnderneath(s.infos, s, MakeWritable(s, k))
  {
    var t := MakeWritable(s, k);
    forall v: nat
      ensures AlikeMapping(OwnRegion(s.infos, v), MappingUnder(s, v), MappingUnder(t, v))
    {
      if v == k {
        OwnMapping(s, k);
      } else {
        OtherMapping(s, k, v);
        if OwnRegion(s.infos, v) {
          OwnIsUnder(s, v);
        }
      }
    }
    forall a: nat
      ensures AlikeCell(OwnCell(s.infos, a), CellUnder(s, a), CellUnder(t, a))
    {
      WritableCell(s, k, a);
      if OwnCell(s.infos, a) {
        OwnCellUnder(s, a);
      }
    }
  }

  lemma OwnStore(s: State, k: nat, w: Patch)
    requires Sound(s) && OwnRegion(s.infos, k) && Owner(s.infos, w.addr) == Some(k) && w.addr in s.process.mem
    ensures SameUnderneath(s.infos, s, WriteSlot(s, k, w))
  {
    var t := WriteSlot(s, k, w);
    assert SameBackups(s.infos, t.infos);
    SameOwners(s.infos, t.infos);
    forall v: nat
      ensures AlikeMapping(OwnRegion(s.infos, v), MappingUnder(s, v), MappingUnder(t, v))
    {
      WriteMapping(s.infos, t.infos, s.process.vmas, v);
      if OwnRegion(s.infos, v) {
        OwnIsUnder(s, v);
      }
    }
    forall a: nat
      ensures AlikeCell(OwnCell(s.infos, a), CellUnder(s, a), CellUnder(t, a))
    {
      OwnStoreCell(s, k, w, a);
    }
  }

  lemma OwnStoreCell(s: State, k: nat, w: Patch, a: nat)
    requires Sound(s) && OwnRegion(s.infos, k) && Owner(s.infos, w.addr) == Some(k) && w.addr in s.process.mem
    ensures AlikeCell(OwnCell(s.infos, a), CellUnder(s, a), CellUnder(WriteSlot(s, k, w), a))
  {
    if OwnCell(s.infos, a) {
      OwnCellStored(s, k, w, a);
    } else {
      OtherCellStored(s, k, w, a);
    }
  }

  lemma OwnCellStored(s: State, k: nat, w: Patch, a: nat)
    requires Sound(s) && k in s.infos && OwnCell(s.infos, a) && w.addr in s.process.mem
    ensures CellUnder(s, a).Some? && CellUnder(WriteSlot(s, k, w), a).Some?
  {
    StoredBackups(s, k, w);
    SameBackupNames(s.infos, WriteSlot(s, k, w).infos, a);
    SameOwners(s.infos, WriteSlot(s, k, w).infos);
    OwnCellUnder(s, a);
    OwnedIsMapped(s, Owner(s.infos, a).value, a);
    assert RegionSound(s.process, s.infos[Owner(s.infos, a).value]);
  }

  lemma StoredBackups(s: State, k: nat, w: Patch)
    requires k in s.infos && w.addr in s.process.mem
    ensures SameBackups(s.infos, WriteSlot(s, k, w).infos)
  {
  }

  lemma OtherCellStored(s: State, k: nat, w: Patch, a: nat)
    requires Sound(s) && OwnRegion(s.infos, k) && Owner(s.infos, w.addr) == Some(k) && w.addr in s.process.mem
    requires !OwnCell(s.infos, a)
    ensures CellUnder(s, a) == CellUnder(WriteSlot(s, k, w), a)
  {
    OwnedIsMapped(s, k, w.addr);
    var owner := Owner(s.infos, a);
    if owner.Some? && Backed(s.infos, owner.value) {
      OwnedIsMapped(s, owner.value, a);
      TwinsApart(s, k, owner.value, a);
    }
    StoredBackups(s, k, w);
    StoredElsewhere(s.infos, WriteSlot(s, k, w).infos, s.process.mem, w.addr, Cell(w.callback, true), a);
    SameBackupsSameCell(s.infos, WriteSlot(s, k, w).infos, s.process.mem, a);
  }

  /** One patched slot, in the library's own region or elsewhere. */
  lemma HookUnder(s: State, w: Patch, place: nat)
    requires Invariant(s) && CanHook(s, w, place)
    ensures SameUnderneath(s.infos, s, Hook(s, w, place))
  {
    HookRefines(s, w, place);
    var owner := Owner(s.infos, w.addr);
    if owner.Some? {
      OwnedIsMapped(s, owner.value, w.addr);
    }
    if owner.Some? && s.infos[owner.value].isSelf {
      OwnHookUnder(s, w, place, owner.value);
    } else {
      PristineIsSame(s, Hook(s, w, place));
    }
  }

  lemma OwnHookUnder(s: State, w: Patch, place: nat, k: nat)
    requires Invariant(s) && CanHook(s, w, place) && Owner(s.infos, w.addr) == Some(k) && OwnRegion(s.infos, k)
    ensures SameUnderneath(s.infos, s, Hook(s, w, place))
  {
    var p := MakeWritable(s, k);
    MakeWritableSound(s, k);
    PrepareSound(s, k, place);
    PreparedReady(s, k, w.addr, place);
    PreparePart(s, k, place);
    PartIdentities(s, p, k);
    SameOwnRegions(s.infos, p.infos);
    OwnWritable(s, k);
    SameEndsOf(s.infos, p.infos);
    SameOwners(s.infos, p.infos);
    OwnStore(p, k, w);
    ChainUnderneath(s.infos, p.infos, s, p, WriteSlot(p, k, w));
    assert Hook(s, w, place) == WriteSlot(p, k, w);
  }

  lemma PartIdentities(s: State, t: State, k: nat)
    requires SamePart(s, t, k)
    ensures SameIdentities(s.infos, t.infos)
  {
  }

  /** A run of patches. */
  lemma {:induction false} HookAllUnder(s: State, calls: seq<Call>)
    requires Invariant(s) && Runnable(s, calls)
    ensures SameUnderneath(s.infos, s, HookAll(s, calls))
    decreases |calls|
  {
    if calls == [] {
      PristineIsSame(s, s);
    } else {
      var t := HookAll(s, Front(calls));
      HookAllUnder(s, Front(calls));
      HookAllIdentities(s, Front(calls));
      SameOwnRegions(s.infos, t.infos);
      HookUnder(t, Last(calls).patch, Last(calls).place);
      ChainUnderneath(s.infos, t.infos, s, t, HookAll(s, calls));
    }
  }
}
