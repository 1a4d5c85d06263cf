/**
 One slot patched: HookInfos::DoHook(addr, callback, backup) when every system call succeeds,
 cut into its four parts, and what each part keeps.
 */
module HookStep {
  import opened Options
  import opened AddressSpace
  import opened HookState

  // ----- the four parts -----

  // The image of region k moved to place, and a copy of its words left where it was.
  ghost function BackedUp(p: Process, k: nat, place: nat, len: nat, perms: set<Protection>): Process
    requires k in p.vmas && forall a :: k <= a < k + len ==> a in p.mem
  {
    Process(p.vmas[place := At(p.vmas[k], place, len)][k := AnonymousMapping(k, len, perms)],
            map a | a in p.mem.Keys + AddressRange(place, len) ::
              if place <= a < place + len then p.mem[k + (a - place)]
              else if k <= a < k + len then Cell(p.mem[a].word, true)
              else p.mem[a])
  }

  ghost function TakeBackup(s: State, k: nat, place: nat): State
    requires Sound(s) && k in s.infos
  {
    var info := s.infos[k];
    s.(process := BackedUp(s.process, k, place, info.Length(), {Read, Write} + info.area.perms),
       infos := s.infos[k := info.(backup := place)])
  }

  ghost function MakeWritable(s: State, k: nat): State
    requires Sound(s) && k in s.infos
  {
    var info := s.infos[k];
    if Write in info.area.perms then s
    else
      var perms := info.area.perms + {Write};
      s.(process := Protect(s.process, k, perms),
         infos := s.infos[k := info.(area := info.area.(perms := perms))])
  }

  // A slot gets a record when it has none, and loses it when the recorded word comes back.
  function Toggle(hooks: map<nat, nat>, addr: nat, word: nat, callback: nat): map<nat, nat> {
    if addr in hooks then
      if hooks[addr] == callback then hooks - {addr} else hooks
    else
      hooks[addr := word]
  }

  function Save(saved: map<nat, nat>, w: Patch, word: nat): map<nat, nat> {
    if word != w.callback && w.saveTo != 0 then saved[w.saveTo := word] else saved
  }

  ghost function WriteSlot(s: State, k: nat, w: Patch): State
    requires k in s.infos && w.addr in s.process.mem
  {
    var word := s.process.mem[w.addr].word;
    s.(process := if word != w.callback then Store(s.process, w.addr, w.callback) else s.process,
       saved := Save(s.saved, w, word),
       infos := s.infos[k := s.infos[k].(hooks := Toggle(s.infos[k].hooks, w.addr, word, w.callback))])
  }

  ghost function MovedHome(s: State, k: nat): State
    requires k in s.infos && WellFormedMapping(s.infos[k].area)
    requires CanMove(s.process, s.infos[k].backup, k, s.infos[k].Length())
  {
    var info := s.infos[k];
    s.(process := Move(s.process, info.backup, k, info.Length()),
       infos := s.infos[k := info.(backup := 0)])
  }

  lemma BackupMovesHome(s: State, k: nat)
    requires Sound(s) && Backed(s.infos, k)
    ensures WellFormedMapping(s.infos[k].area)
    ensures CanMove(s.process, s.infos[k].backup, k, s.infos[k].Length())
  {
    assert RegionSound(s.process, s.infos[k]);
    RegionsAndBackupsDisjoint(s, k, k);
  }

  ghost function DropBackup(s: State, k: nat): State
    requires Sound(s) && Backed(s.infos, k)
  {
    BackupMovesHome(s, k);
    MovedHome(s, k)
  }

  // ----- their composition -----

  ghost predicate CanHook(s: State, w: Patch, place: nat)
    requires Sound(s)
  {
    var owner := Owner(s.infos, w.addr);
    owner.Some? && !s.infos[owner.value].isSelf && s.infos[owner.value].backup == 0 ==>
      Fresh(s.process, place, s.infos[owner.value].Length())
  }

  ghost function Prepare(s: State, k: nat, place: nat): State
    requires Sound(s) && k in s.infos
  {
    if s.infos[k].isSelf then MakeWritable(s, k)
    else if s.infos[k].backup == 0 then TakeBackup(s, k, place)
    else s
  }

  ghost function Finish(s: State, k: nat): State
    requires Sound(s) && k in s.infos && (!s.infos[k].isSelf ==> Backed(s.infos, k))
  {
    if s.infos[k].hooks == map[] && !s.infos[k].isSelf then DropBackup(s, k) else s
  }

  ghost function Hook(s: State, w: Patch, place: nat): State
    requires Invariant(s) && CanHook(s, w, place)
  {
    match Owner(s.infos, w.addr)
    case None => s
    case Some(k) =>
      PrepareSound(s, k, place);
      var prepared := Prepare(s, k, place);
      PreparedReady(s, k, w.addr, place);
      WriteSound(prepared, k, w);
      Finish(WriteSlot(prepared, k, w), k)
  }

  // ----- what each part keeps -----

  // The mappings and cells of a region and of its backup image are the same in both processes.
  ghost predicate SameAround(p: Process, q: Process, info: HookInfo) {
    var k, b, len := info.area.start, info.backup, info.area.end - info.area.start;
    && SameRange(p, q, k, len)
    && (b != 0 ==> SameRange(p, q, b, len))
  }

  ghost predicate SameRange(p: Process, q: Process, at: nat, len: int) {
    && (at in p.vmas ==> at in q.vmas && q.vmas[at] == p.vmas[at])
    && (forall a: nat :: at <= a < at + len && a in p.mem ==> a in q.mem && q.mem[a] == p.mem[a])
  }

  lemma RegionFrame(p: Process, q: Process, info: HookInfo)
    requires RegionSound(p, info) && SameAround(p, q, info)
    ensures RegionSound(q, info)
  {
    if info.backup != 0 {
      forall a: nat | info.area.start <= a < info.area.end
        ensures a in q.mem && Twin(info, a) in q.mem
        ensures q.mem[Twin(info, a)].word == if a in info.hooks then info.hooks[a] else q.mem[a].word
      {
        var t: nat := Twin(info, a);
      }
    }
  }

  lemma SameOwners(a: Regions, b: Regions)
    requires a.Keys == b.Keys && forall k :: k in a ==> a[k].area.end == b[k].area.end
    ensures forall addr: nat :: Owner(a, addr) == Owner(b, addr)
  {
  }

  // Only region k changed, and it is sound again.
  lemma SoundAgain(s: State, t: State, k: nat)
    requires Sound(s) && k in s.infos
    requires k in t.infos && t.infos == s.infos[k := t.infos[k]]
    requires t.infos[k].area.start == k && WellFormedMapping(t.infos[k].area)
    requires WellFormed(t.process) && RegionSound(t.process, t.infos[k])
    requires forall j {:trigger j in s.infos} :: j in s.infos && j != k ==>
               SameAround(s.process, t.process, s.infos[j])
    requires BackupsApart(t.infos)
    ensures Sound(t)
  {
    forall j {:trigger j in t.infos} | j in t.infos
      ensures RegionSound(t.process, t.infos[j])
    {
      if j != k {
        assert j in s.infos;
        RegionFrame(s.process, t.process, s.infos[j]);
      }
    }
  }

  ghost predicate GoodMapping(p: Process, v: nat) {
    v in p.vmas && p.vmas[v].start == v && WellFormedMapping(p.vmas[v]) && Populated(p.mem, p.vmas[v])
  }

  lemma BackedUpApart(p: Process, k: nat, place: nat, len: nat, perms: set<Protection>)
    requires WellFormed(p) && k in p.vmas && p.vmas[k].end == k + len && Fresh(p, place, len)
    ensures Apart(BackedUp(p, k, place, len, perms).vmas)
  {
  }

  lemma BackedUpMapping(p: Process, k: nat, place: nat, len: nat, perms: set<Protection>, v: nat)
    requires WellFormed(p) && k in p.vmas && p.vmas[k].end == k + len && Fresh(p, place, len)
    requires v == place || v in p.vmas
    ensures GoodMapping(BackedUp(p, k, place, len, perms), v)
  {
    var q := BackedUp(p, k, place, len, perms);
    assert WellFormedMapping(p.vmas[k]);
    forall a | v <= a < q.vmas[v].end
      ensures a in q.mem
    {
      assert v in p.vmas ==> Populated(p.mem, p.vmas[v]);
    }
  }

  lemma BackedUpWellFormed(p: Process, k: nat, place: nat, len: nat, perms: set<Protection>)
    requires WellFormed(p) && k in p.vmas && p.vmas[k].end == k + len && Fresh(p, place, len)
    ensures WellFormed(BackedUp(p, k, place, len, perms))
  {
    var q := BackedUp(p, k, place, len, perms);
    BackedUpApart(p, k, place, len, perms);
    forall v {:trigger v in q.vmas} | v in q.vmas
      ensures GoodMapping(q, v)
    {
      BackedUpMapping(p, k, place, len, perms, v);
    }
  }

  lemma BackedUpImage(p: Process, info: HookInfo, place: nat, perms: set<Protection>)
    requires WellFormed(p) && RegionSound(p, info) && info.hooks == map[]
    requires WellFormedMapping(info.area) && Fresh(p, place, info.Length())
    ensures ImageOf(BackedUp(p, info.area.start, place, info.Length(), perms).mem, info.(backup := place))
  {
    var k, new_ := info.area.start, info.(backup := place);
    var q := BackedUp(p, k, place, info.Length(), perms);
    forall a: nat | k <= a < new_.area.end
      ensures a in q.mem && Twin(new_, a) in q.mem && q.mem[Twin(new_, a)].word == q.mem[a].word
    {
      assert a in p.mem;
      assert Twin(new_, a) == place + (a - k);
    }
  }

  lemma BackedUpRange(p: Process, k: nat, place: nat, len: nat, perms: set<Protection>, at: nat, end: int)
    requires k in p.vmas && forall a :: k <= a < k + len ==> a in p.mem
    requires Fresh(p, place, len) && Clear(at, end, k, k + len) && at != k && at in p.vmas && at < p.vmas[at].end && 0 < len
    ensures SameRange(p, BackedUp(p, k, place, len, perms), at, end - at)
  {
  }

  lemma BackedUpAround(s: State, k: nat, j: nat, place: nat)
    requires Sound(s) && k in s.infos && s.infos[k].backup == 0 && j in s.infos && j != k
    requires Fresh(s.process, place, s.infos[k].Length())
    ensures SameAround(s.process, TakeBackup(s, k, place).process, s.infos[j])
  {
    var p, info, other := s.process, s.infos[k], s.infos[j];
    var perms := {Read, Write} + info.area.perms;
    assert RegionSound(p, other) && RegionSound(p, info);
    RegionsAndBackupsDisjoint(s, j, k);
    RegionsAndBackupsDisjoint(s, k, j);
    BackedUpRange(p, k, place, info.Length(), perms, j, other.area.end);
    if Backed(s.infos, j) {
      BackedUpRange(p, k, place, info.Length(), perms, other.backup, BackupEnd(other));
    }
  }

  lemma FreshPlaceApart(s: State, k: nat, place: nat)
    requires Sound(s) && k in s.infos && Fresh(s.process, place, s.infos[k].Length())
    ensures BackupsApart(s.infos[k := s.infos[k].(backup := place)])
  {
    forall j {:trigger j in s.infos} | j in s.infos
      ensures j != place && s.infos[j].backup != place
    {
      FreshPlaceFrom(s, k, place, j);
    }
    NewBackupApart(s.infos, k, place);
  }

  lemma FreshPlaceFrom(s: State, k: nat, place: nat, j: nat)
    requires Sound(s) && k in s.infos && Fresh(s.process, place, s.infos[k].Length()) && j in s.infos
    ensures j != place && s.infos[j].backup != place
  {
    assert RegionSound(s.process, s.infos[j]);
  }

  lemma NewBackupApart(infos: Regions, k: nat, place: nat)
    requires BackupsApart(infos) && k in infos
    requires forall j {:trigger j in infos} :: j in infos ==> j != place && infos[j].backup != place
    ensures BackupsApart(infos[k := infos[k].(backup := place)])
  {
    var infos' := infos[k := infos[k].(backup := place)];
    assert forall j :: Backed(infos', j) ==> Backed(infos, j) || j == k;
  }

  lemma TakeBackupSound(s: State, k: nat, place: nat)
    requires Invariant(s) && k in s.infos && !s.infos[k].isSelf && s.infos[k].backup == 0
    requires Fresh(s.process, place, s.infos[k].Length())
    ensures Sound(TakeBackup(s, k, place))
  {
    var t := TakeBackup(s, k, place);
    var p, q, info, new_ := s.process, t.process, s.infos[k], t.infos[k];
    var perms := {Read, Write} + info.area.perms;
    assert RegionSound(p, info);
    BackedUpWellFormed(p, k, place, info.Length(), perms);
    BackedUpImage(p, info, place, perms);
    forall j {:trigger j in s.infos} | j in s.infos && j != k
      ensures SameAround(p, q, s.infos[j])
    {
      BackedUpAround(s, k, j, place);
    }
    FreshPlaceApart(s, k, place);
    SoundAgain(s, t, k);
  }

  lemma ProtectWellFormed(p: Process, k: nat, perms: set<Protection>)
    requires WellFormed(p) && k in p.vmas
    ensures WellFormed(Protect(p, k, perms))
  {
    var q := Protect(p, k, perms);
    forall v {:trigger v in q.vmas} | v in q.vmas
      ensures q.vmas[v].start == v && WellFormedMapping(q.vmas[v]) && Populated(q.mem, q.vmas[v])
    {
      assert v in p.vmas;
    }
  }

  lemma ProtectAround(s: State, k: nat, j: nat, perms: set<Protection>)
    requires Sound(s) && k in s.infos && j in s.infos && j != k
    requires RegionSound(s.process, s.infos[k])
    ensures SameAround(s.process, Protect(s.process, k, perms), s.infos[j])
  {
    assert Backed(s.infos, j) ==> s.infos[j].backup != k;
  }

  lemma SameBackupsApart(a: Regions, b: Regions)
    requires BackupsApart(a) && a.Keys == b.Keys
    requires forall k {:trigger k in b} :: k in b ==> b[k].backup == 0 || b[k].backup == a[k].backup
    ensures BackupsApart(b)
  {
    assert forall k :: Backed(b, k) ==> Backed(a, k);
  }

  lemma MakeWritableRegion(s: State, k: nat)
    requires Sound(s) && k in s.infos && s.infos[k].isSelf
    ensures RegionSound(MakeWritable(s, k).process, MakeWritable(s, k).infos[k])
  {
    assert RegionSound(s.process, s.infos[k]);
  }

  lemma MakeWritableSound(s: State, k: nat)
    requires Sound(s) && k in s.infos && s.infos[k].isSelf
    ensures Sound(MakeWritable(s, k))
  {
    var t := MakeWritable(s, k);
    assert RegionSound(s.process, s.infos[k]);
    if t != s {
      var perms := s.infos[k].area.perms + {Write};
      ProtectWellFormed(s.process, k, perms);
      forall j {:trigger j in s.infos} | j in s.infos && j != k
        ensures SameAround(s.process, t.process, s.infos[j])
      {
        ProtectAround(s, k, j, perms);
      }
      SameBackupsApart(s.infos, t.infos);
      MakeWritableRegion(s, k);
      SoundAgain(s, t, k);
    }
  }

  lemma PrepareSound(s: State, k: nat, place: nat)
    requires Invariant(s) && k in s.infos
    requires !s.infos[k].isSelf && s.infos[k].backup == 0 ==> Fresh(s.process, place, s.infos[k].Length())
    ensures Sound(Prepare(s, k, place))
  {
    if s.infos[k].isSelf {
      MakeWritableSound(s, k);
    } else if s.infos[k].backup == 0 {
      TakeBackupSound(s, k, place);
    }
  }

  // A region is ready for a store: it is the library's own, or it has its backup.
  ghost predicate Ready(s: State, k: nat) {
    k in s.infos && (s.infos[k].isSelf || s.infos[k].backup != 0)
  }

  lemma StoreWellFormed(p: Process, addr: nat, word: nat)
    requires WellFormed(p)
    ensures WellFormed(Store(p, addr, word))
  {
    var q := Store(p, addr, word);
    forall v {:trigger v in q.vmas} | v in q.vmas
      ensures Populated(q.mem, q.vmas[v])
    {
      assert Populated(p.mem, p.vmas[v]);
    }
  }

  lemma WriteAround(s: State, k: nat, j: nat, w: Patch)
    requires Sound(s) && k in s.infos && j in s.infos && j != k
    requires k <= w.addr < s.infos[k].area.end
    ensures SameAround(s.process, Store(s.process, w.addr, w.callback), s.infos[j])
  {
    RegionsAndBackupsDisjoint(s, j, k);
    RegionsAndBackupsDisjoint(s, k, j);
  }

  lemma WriteImage(mem: map<nat, Cell>, info: HookInfo, w: Patch)
    requires ImageOf(mem, info) && info.area.start <= w.addr < info.area.end
    requires Clear(info.backup, BackupEnd(info), info.area.start, info.area.end)
    requires w.addr in mem
    ensures ImageOf(mem[w.addr := Cell(w.callback, true)],
                    info.(hooks := Toggle(info.hooks, w.addr, mem[w.addr].word, w.callback)))
  {
    var new_ := info.(hooks := Toggle(info.hooks, w.addr, mem[w.addr].word, w.callback));
    var mem' := mem[w.addr := Cell(w.callback, true)];
    forall a: nat | info.area.start <= a < info.area.end
      ensures a in mem' && Twin(new_, a) in mem'
      ensures mem'[Twin(new_, a)].word == if a in new_.hooks then new_.hooks[a] else mem'[a].word
    {
      assert Twin(new_, a) == Twin(info, a);
    }
  }

  lemma WriteRegion(s: State, k: nat, w: Patch)
    requires Sound(s) && Ready(s, k) && k <= w.addr < s.infos[k].area.end && w.addr in s.process.mem
    ensures RegionSound(WriteSlot(s, k, w).process, WriteSlot(s, k, w).infos[k])
  {
    assert RegionSound(s.process, s.infos[k]);
    if Backed(s.infos, k) {
      WrittenImage(s, k, w);
    }
  }

  lemma WrittenImage(s: State, k: nat, w: Patch)
    requires Sound(s) && Backed(s.infos, k) && k <= w.addr < s.infos[k].area.end && w.addr in s.process.mem
    ensures ImageOf(WriteSlot(s, k, w).process.mem, WriteSlot(s, k, w).infos[k])
  {
    var info, word := s.infos[k], s.process.mem[w.addr].word;
    assert RegionSound(s.process, info);
    RegionsAndBackupsDisjoint(s, k, k);
    WriteImage(s.process.mem, info, w);
    if word == w.callback {
      var new_ := info.(hooks := Toggle(info.hooks, w.addr, word, w.callback));
      SameWordsImage(Store(s.process, w.addr, w.callback).mem, s.process.mem, new_);
    }
  }

  lemma SameWordsImage(m: map<nat, Cell>, n: map<nat, Cell>, info: HookInfo)
    requires ImageOf(m, info) && m.Keys == n.Keys
    requires forall a {:trigger a in m} :: a in m ==> m[a].word == n[a].word
    ensures ImageOf(n, info)
  {
    forall a: nat | info.area.start <= a < info.area.end
      ensures a in n && Twin(info, a) in n
      ensures n[Twin(info, a)].word == if a in info.hooks then info.hooks[a] else n[a].word
    {
      var twin: nat := Twin(info, a);
      assert a in m && twin in m;
    }
  }

  lemma WrittenWellFormed(s: State, k: nat, w: Patch)
    requires Sound(s) && k in s.infos && w.addr in s.process.mem
    ensures WellFormed(WriteSlot(s, k, w).process)
  {
    StoreWellFormed(s.process, w.addr, w.callback);
  }

  lemma WrittenAround(s: State, k: nat, j: nat, w: Patch)
    requires Sound(s) && k in s.infos && j in s.infos && j != k
    requires k <= w.addr < s.infos[k].area.end && w.addr in s.process.mem
    ensures SameAround(s.process, WriteSlot(s, k, w).process, s.infos[j])
  {
    if s.process.mem[w.addr].word == w.callback {
      SameProcess(s, j);
    } else {
      WriteAround(s, k, j, w);
    }
  }

  lemma SameProcess(s: State, j: nat)
    requires Sound(s) && j in s.infos
    ensures SameAround(s.process, s.process, s.infos[j])
  {
    assert RegionSound(s.process, s.infos[j]);
  }

  lemma WriteSound(s: State, k: nat, w: Patch)
    requires Sound(s) && Ready(s, k) && k <= w.addr < s.infos[k].area.end && w.addr in s.process.mem
    ensures Sound(WriteSlot(s, k, w))
  {
    var t := WriteSlot(s, k, w);
    WrittenWellFormed(s, k, w);
    WriteRegion(s, k, w);
    forall j {:trigger j in s.infos} | j in s.infos && j != k
      ensures SameAround(s.process, t.process, s.infos[j])
    {
      WrittenAround(s, k, j, w);
    }
    SameBackupsApart(s.infos, t.infos);
    SoundAgain(s, t, k);
  }

  lemma MovedMapping(p: Process, from: nat, to: nat, len: nat, v: nat)
    requires WellFormed(p) && CanMove(p, from, to, len) && v in p.vmas && v != from
    requires to in p.vmas && p.vmas[to].end == to + len
    ensures GoodMapping(Move(p, from, to, len), v)
  {
    var q := Move(p, from, to, len);
    assert WellFormedMapping(p.vmas[v]) && WellFormedMapping(p.vmas[to]);
    if v != to {
      MoveKeepsOthers(p, from, to, len, v);
    }
    forall a | v <= a < q.vmas[v].end
      ensures a in q.mem
    {
      assert Populated(p.mem, p.vmas[v]);
    }
  }

  lemma MoveWellFormed(p: Process, from: nat, to: nat, len: nat)
    requires WellFormed(p) && CanMove(p, from, to, len)
    requires to in p.vmas && p.vmas[to].end == to + len
    ensures WellFormed(Move(p, from, to, len))
  {
    var q := Move(p, from, to, len);
    forall v {:trigger v in q.vmas} | v in q.vmas
      ensures GoodMapping(q, v)
    {
      MovedMapping(p, from, to, len, v);
    }
    MoveApart(p, from, to, len);
  }

  lemma MoveApart(p: Process, from: nat, to: nat, len: nat)
    requires WellFormed(p) && CanMove(p, from, to, len)
    requires to in p.vmas && p.vmas[to].end == to + len
    ensures Apart(Move(p, from, to, len).vmas)
  {
  }

  lemma MoveKeepsOthers(p: Process, from: nat, to: nat, len: nat, v: nat)
    requires WellFormed(p) && CanMove(p, from, to, len) && v in p.vmas
    requires to in p.vmas && p.vmas[to].end == to + len
    ensures v != from && v != to ==> SameRange(p, Move(p, from, to, len), v, p.vmas[v].end - v)
  {
  }

  lemma DropAround(s: State, k: nat, j: nat)
    requires Sound(s) && Backed(s.infos, k) && j in s.infos && j != k
    ensures SameAround(s.process, DropBackup(s, k).process, s.infos[j])
  {
    var b := s.infos[k].backup;
    assert RegionSound(s.process, s.infos[j]) && RegionSound(s.process, s.infos[k]);
    RegionsAndBackupsDisjoint(s, j, k);
    RegionsAndBackupsDisjoint(s, k, j);
    RegionsAndBackupsDisjoint(s, k, k);
    MoveKeepsOthers(s.process, b, k, s.infos[k].Length(), j);
    if Backed(s.infos, j) {
      MoveKeepsOthers(s.process, b, k, s.infos[k].Length(), s.infos[j].backup);
    }
  }

  lemma DroppedRegion(s: State, k: nat)
    requires Sound(s) && Backed(s.infos, k)
    ensures RegionSound(DropBackup(s, k).process, DropBackup(s, k).infos[k])
    ensures WellFormed(DropBackup(s, k).process)
  {
    assert RegionSound(s.process, s.infos[k]);
    RegionsAndBackupsDisjoint(s, k, k);
    MoveWellFormed(s.process, s.infos[k].backup, k, s.infos[k].Length());
  }

  lemma DropSound(s: State, k: nat)
    requires Sound(s) && Backed(s.infos, k)
    ensures Sound(DropBackup(s, k))
  {
    DroppedRegion(s, k);
    forall j {:trigger j in s.infos} | j in s.infos && j != k
      ensures SameAround(s.process, DropBackup(s, k).process, s.infos[j])
    {
      DropAround(s, k, j);
    }
    SameBackupsApart(s.infos, DropBackup(s, k).infos);
    SoundAgain(s, DropBackup(s, k), k);
  }

  lemma OwnedIsMapped(s: State, k: nat, addr: nat)
    requires Sound(s) && Owner(s.infos, addr) == Some(k)
    ensures k in s.infos && k <= addr < s.infos[k].area.end && addr in s.process.mem
  {
    RegionsDisjoint(s);
    OwnerIsContainer(s.infos, k, addr);
    assert RegionSound(s.process, s.infos[k]);
    assert k in s.process.vmas;
  }

  lemma PreparedReady(s: State, k: nat, addr: nat, place: nat)
    requires Invariant(s) && Owner(s.infos, addr) == Some(k) && CanHook(s, Patch(addr, 0, 0), place)
    requires Sound(Prepare(s, k, place))
    ensures var t := Prepare(s, k, place);
            Ready(t, k) && k <= addr < t.infos[k].area.end && addr in t.process.mem
  {
    OwnedIsMapped(s, k, addr);
  }

  lemma FinishInvariant(s: State, k: nat)
    requires Sound(s) && Ready(s, k)
    requires forall j {:trigger j in s.infos} :: j in s.infos && j != k ==> TidyRegion(s.infos[j])
    requires s.infos[k].isSelf ==> s.infos[k].backup == 0
    ensures Invariant(Finish(s, k))
  {
    if s.infos[k].hooks == map[] && !s.infos[k].isSelf {
      DropSound(s, k);
    }
  }

  lemma PrepareOthers(s: State, k: nat, place: nat)
    requires Sound(s) && k in s.infos
    ensures var t := Prepare(s, k, place); t.infos.Keys == s.infos.Keys && t.infos == s.infos[k := t.infos[k]]
  {
    UpdatedOnce(s.infos, k, Prepare(s, k, place).infos[k]);
    UpdatedOnce(s.infos, k, s.infos[k]);
  }

  lemma UpdatedOnce(infos: Regions, k: nat, info: HookInfo)
    requires k in infos
    ensures infos[k := info].Keys == infos.Keys && infos[k := infos[k]] == infos
  {
  }

  /** A patched slot leaves the invariant standing. */
  lemma HookInvariant(s: State, w: Patch, place: nat)
    requires Invariant(s) && CanHook(s, w, place)
    ensures Invariant(Hook(s, w, place))
  {
    var owner := Owner(s.infos, w.addr);
    if owner.Some? {
      var k := owner.value;
      assert RegionSound(s.process, s.infos[k]);
      PrepareSound(s, k, place);
      PreparedReady(s, k, w.addr, place);
      PrepareOthers(s, k, place);
      var p := Prepare(s, k, place);
      WriteSound(p, k, w);
      FinishInvariant(WriteSlot(p, k, w), k);
    }
  }
}
