/**
 The state of the hook manager: the process it runs in, the regions it tracks, the queue of
 requests, and the words behind the callers' backup pointers.
 */
module HookState {
  import opened Options
  import opened AddressSpace

  type Name = seq<bv8>

  datatype FileId = FileId(dev: nat, inode: nat)

  datatype RegisterInfo = RegisterInfo(dev: nat, inode: nat, lo: nat, hi: nat, symbol: Name,
                                       callback: nat, backup: nat)

  // backup == 0 means that the region has no backup image
  datatype HookInfo = HookInfo(area: MapInfo, hooks: map<nat, nat>, backup: nat, isSelf: bool) {
    predicate Match(reg: RegisterInfo) {
      reg.dev == area.dev && reg.inode == area.inode && reg.lo <= area.offset < reg.hi
    }

    function Length(): nat
      requires WellFormedMapping(area)
    {
      area.end - area.start
    }
  }

  type Regions = map<nat, HookInfo>

  datatype State = State(process: Process, infos: Regions, queue: seq<RegisterInfo>,
                         saved: map<nat, nat>, me: FileId)

  // One slot to patch: the word at addr becomes callback, and the old word goes behind saveTo.
  datatype Patch = Patch(addr: nat, callback: nat, saveTo: nat)

  // ----- which region holds an address -----

  predicate IsFloor(keys: set<nat>, addr: nat, k: nat) {
    k in keys && k <= addr && forall j :: j in keys && j <= addr ==> j <= k
  }

  lemma FloorExists(keys: set<nat>, addr: nat, k: nat)
    requires k in keys && k <= addr
    ensures exists f :: IsFloor(keys, addr, f)
    decreases addr - k
  {
    if j :| j in keys && k < j <= addr {
      FloorExists(keys, addr, j);
    } else {
      assert IsFloor(keys, addr, k);
    }
  }

  function Floor(keys: set<nat>, addr: nat): (f: nat)
    requires exists j :: j in keys && j <= addr
    ensures IsFloor(keys, addr, f)
  {
    var j: nat :| j in keys && j <= addr;
    FloorExists(keys, addr, j);
    var f: nat :| f in keys && IsFloor(keys, addr, f);
    f
  }

  // std::map::lower_bound under std::greater: the first key, going down, that is not above addr.
  function LowerBound(keys: set<nat>, addr: nat): (r: Option<nat>)
    ensures r.None? ==> forall j :: j in keys ==> addr < j
    ensures r.Some? ==> IsFloor(keys, addr, r.value)
  {
    if exists j :: j in keys && j <= addr then Some(Floor(keys, addr)) else None
  }

  predicate WellFormedRegions(infos: Regions) {
    forall k :: k in infos ==> infos[k].area.start == k && WellFormedMapping(infos[k].area)
  }

  // The region whose slots an address belongs to, as DoHook finds it.
  function Owner(infos: Regions, addr: nat): Option<nat> {
    match LowerBound(infos.Keys, addr)
    case Some(k) => if addr < infos[k].area.end then Some(k) else None
    case None => None
  }

  ghost predicate Disjoint(infos: Regions) {
    forall j, k :: j in infos && k in infos && j < k ==> infos[j].area.end <= k
  }

  /** With disjoint regions the floor key is the one region that contains the address. */
  lemma OwnerIsContainer(infos: Regions, k: nat, addr: nat)
    requires WellFormedRegions(infos) && Disjoint(infos)
    ensures Owner(infos, addr) == Some(k) <==> k in infos && k <= addr < infos[k].area.end
  {
    if k in infos && k <= addr < infos[k].area.end {
      var r := LowerBound(infos.Keys, addr);
      assert r.Some? && k <= r.value;
    }
  }

  // ----- the invariant -----

  ghost predicate Backed(infos: Regions, k: nat) {
    k in infos && infos[k].backup != 0
  }

  ghost predicate IsBackup(infos: Regions, b: nat) {
    b != 0 && exists k :: k in infos && infos[k].backup == b
  }

  // What a mapping maps, apart from where it lies and how it is protected.
  function Origin(m: MapInfo): MapInfo {
    m.(start := 0, end := 0, perms := {})
  }

  // A tracked region is one mapping, and so is its backup image; the original pages, wherever they
  // are, map what the region recorded.
  ghost predicate AnchoredRegion(vmas: map<nat, MapInfo>, info: HookInfo) {
    var k := info.area.start;
    && k in vmas
    && vmas[k].end == info.area.end
    && Read in info.area.perms
    && (info.backup == 0 ==> Origin(vmas[k]) == Origin(info.area))
    && (info.backup != 0 ==>
          && !info.isSelf
          && info.backup in vmas
          && vmas[info.backup].end == info.backup + (info.area.end - k)
          && Origin(vmas[info.backup]) == Origin(info.area)
          && vmas[k].path == "")
  }

  ghost predicate HooksInside(info: HookInfo) {
    forall a :: a in info.hooks ==> info.area.start <= a < info.area.end
  }

  // Where the backup image of a region holds the word of address a.
  ghost function Twin(info: HookInfo, a: nat): int {
    info.backup + (a - info.area.start)
  }

  // The backup image of a region is its current image with each recorded word put back.
  ghost predicate ImageOf(mem: map<nat, Cell>, info: HookInfo) {
    forall a: nat {:trigger Twin(info, a)} :: info.area.start <= a < info.area.end ==>
      && a in mem
      && Twin(info, a) in mem
      && mem[Twin(info, a)].word == if a in info.hooks then info.hooks[a] else mem[a].word
  }

  ghost predicate RegionSound(p: Process, info: HookInfo) {
    && AnchoredRegion(p.vmas, info)
    && HooksInside(info)
    && (info.backup != 0 ==> ImageOf(p.mem, info))
  }

  // No backup image is itself tracked, and no two regions share one.
  ghost predicate BackupsApart(infos: Regions) {
    && (forall j, k {:trigger j in infos, Backed(infos, k)} ::
          j in infos && Backed(infos, k) ==> infos[k].backup != j)
    && (forall j, k {:trigger Backed(infos, j), Backed(infos, k)} ::
          Backed(infos, j) && Backed(infos, k) && j != k ==> infos[j].backup != infos[k].backup)
  }

  ghost predicate Sound(s: State) {
    && WellFormedRegions(s.infos)
    && WellFormed(s.process)
    && (forall k {:trigger k in s.infos} :: k in s.infos ==> RegionSound(s.process, s.infos[k]))
    && BackupsApart(s.infos)
  }

  ghost predicate TidyRegion(info: HookInfo) {
    !info.isSelf ==> (info.backup != 0 <==> info.hooks != map[])
  }

  ghost predicate Tidy(infos: Regions) {
    forall k :: k in infos ==> TidyRegion(infos[k])
  }

  ghost predicate Invariant(s: State) {
    Sound(s) && Tidy(s.infos)
  }

  lemma RegionsDisjoint(s: State)
    requires Sound(s)
    ensures Disjoint(s.infos)
  {
    forall j, k | j in s.infos && k in s.infos && j < k
      ensures s.infos[j].area.end <= k
    {
      assert RegionSound(s.process, s.infos[j]) && RegionSound(s.process, s.infos[k]);
    }
  }

  // [at, at + len) and [at2, at2 + len2) share no address.
  predicate Clear(at: nat, end: int, at2: nat, end2: int) {
    end <= at2 || end2 <= at
  }

  ghost function BackupEnd(info: HookInfo): int {
    info.backup + (info.area.end - info.area.start)
  }

  /** Tracked regions and backup images are pairwise disjoint. */
  lemma RegionsAndBackupsDisjoint(s: State, j: nat, k: nat)
    requires Sound(s) && j in s.infos && k in s.infos
    ensures j != k ==> Clear(j, s.infos[j].area.end, k, s.infos[k].area.end)
    ensures Backed(s.infos, k) ==> Clear(s.infos[k].backup, BackupEnd(s.infos[k]), j, s.infos[j].area.end)
    ensures Backed(s.infos, k) && Backed(s.infos, j) && j != k ==>
              Clear(s.infos[k].backup, BackupEnd(s.infos[k]), s.infos[j].backup, BackupEnd(s.infos[j]))
  {
    assert RegionSound(s.process, s.infos[j]) && RegionSound(s.process, s.infos[k]);
  }

  // ----- what a reader sees, what is recorded, and the image underneath -----

  ghost function WordsOf(infos: Regions, mem: map<nat, Cell>): map<nat, nat> {
    map a | a in mem && Owner(infos, a).Some? :: mem[a].word
  }

  // The record of a slot, if its region holds one.
  ghost function RecordAt(infos: Regions, a: nat): Option<nat> {
    match Owner(infos, a)
    case None => None
    case Some(k) => if a in infos[k].hooks then Some(infos[k].hooks[a]) else None
  }

  ghost function HooksOf(infos: Regions, mem: map<nat, Cell>): map<nat, nat> {
    map a | a in mem && RecordAt(infos, a).Some? :: RecordAt(infos, a).value
  }

  ghost function Words(s: State): map<nat, nat> {
    WordsOf(s.infos, s.process.mem)
  }

  ghost function Hooks(s: State): map<nat, nat> {
    HooksOf(s.infos, s.process.mem)
  }

  ghost predicate InBackup(infos: Regions, a: nat) {
    exists k :: Backed(infos, k) && infos[k].backup <= a < infos[k].backup + (infos[k].area.end - k)
  }

  // The cell an address would hold, and the mapping that would start there, with every backup
  // image moved back home.
  ghost function PristineCell(infos: Regions, mem: map<nat, Cell>, a: nat): Option<Cell> {
    if a !in mem || InBackup(infos, a) then None
    else match Owner(infos, a)
      case Some(k) =>
        if infos[k].backup == 0 then Some(mem[a])
        else if Twin(infos[k], a) in mem then Some(mem[Twin(infos[k], a)])
        else None
      case None => Some(mem[a])
  }

  ghost function PristineMapping(infos: Regions, vmas: map<nat, MapInfo>, v: nat): Option<MapInfo> {
    if v !in vmas || IsBackup(infos, v) then None
    else if Backed(infos, v) && infos[v].backup in vmas && v <= infos[v].area.end then
      Some(At(vmas[infos[v].backup], v, infos[v].area.end - v))
    else
      Some(vmas[v])
  }

  ghost function PristineMappings(infos: Regions, vmas: map<nat, MapInfo>): map<nat, MapInfo> {
    map v | v in vmas && PristineMapping(infos, vmas, v).Some? :: PristineMapping(infos, vmas, v).value
  }

  ghost function PristineCells(infos: Regions, mem: map<nat, Cell>): map<nat, Cell> {
    map a | a in mem && PristineCell(infos, mem, a).Some? :: PristineCell(infos, mem, a).value
  }

  ghost function Pristine(s: State): Process {
    Process(PristineMappings(s.infos, s.process.vmas), PristineCells(s.infos, s.process.mem))
  }

  lemma PristineAt(s: State, v: nat)
    ensures PristineMapping(s.infos, s.process.vmas, v) ==
            if v in Pristine(s).vmas then Some(Pristine(s).vmas[v]) else None
    ensures PristineCell(s.infos, s.process.mem, v) ==
            if v in Pristine(s).mem then Some(Pristine(s).mem[v]) else None
  {
  }

  lemma SamePristine(s: State, t: State)
    requires forall v: nat :: PristineMapping(s.infos, s.process.vmas, v) == PristineMapping(t.infos, t.process.vmas, v)
    requires forall a: nat :: PristineCell(s.infos, s.process.mem, a) == PristineCell(t.infos, t.process.mem, a)
    ensures Pristine(s) == Pristine(t)
  {
    SameMappings(s, t);
    SameUnderlyingCells(s, t);
  }

  lemma SameMappings(s: State, t: State)
    requires forall v: nat :: PristineMapping(s.infos, s.process.vmas, v) == PristineMapping(t.infos, t.process.vmas, v)
    ensures PristineMappings(s.infos, s.process.vmas) == PristineMappings(t.infos, t.process.vmas)
  {
    assert PristineMappings(s.infos, s.process.vmas).Keys == PristineMappings(t.infos, t.process.vmas).Keys;
  }

  lemma SameUnderlyingCells(s: State, t: State)
    requires forall a: nat :: PristineCell(s.infos, s.process.mem, a) == PristineCell(t.infos, t.process.mem, a)
    ensures PristineCells(s.infos, s.process.mem) == PristineCells(t.infos, t.process.mem)
  {
    assert PristineCells(s.infos, s.process.mem).Keys == PristineCells(t.infos, t.process.mem).Keys;
  }

  /** Nothing backed up: the pristine address space is the actual one. */
  lemma PristineIsActual(s: State)
    requires forall k {:trigger k in s.infos} :: k in s.infos ==> s.infos[k].backup == 0
    ensures Pristine(s) == s.process
  {
    var p := Pristine(s);
    forall a: nat | a in s.process.mem
      ensures PristineCell(s.infos, s.process.mem, a) == Some(s.process.mem[a])
    {
      assert !InBackup(s.infos, a);
    }
    assert p.vmas == s.process.vmas;
    assert p.mem == s.process.mem;
  }
}
