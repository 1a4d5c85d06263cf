/**
 What the parts of a patched slot do to a reader of memory, to the records, and to the image
 that lies underneath.
 */
module HookEffect {
  import opened Options
  import opened AddressSpace
  import opened HookState
  import opened HookStep

  ghost predicate SameShape(a: Regions, b: Regions) {
    && a.Keys == b.Keys
    && forall k {:trigger k in a} :: k in a ==> b[k].area.end == a[k].area.end && b[k].hooks == a[k].hooks
  }

  // Every tracked word is there in both memories, and reads the same.
  ghost predicate SameTracked(infos: Regions, m: map<nat, Cell>, n: map<nat, Cell>) {
    forall a: nat {:trigger Owner(infos, a)} :: Owner(infos, a).Some? ==>
      a in m && a in n && n[a].word == m[a].word
  }

  lemma SameWords(a: Regions, b: Regions, m: map<nat, Cell>, n: map<nat, Cell>)
    requires SameShape(a, b) && SameTracked(a, m, n)
    ensures WordsOf(b, n) == WordsOf(a, m)
  {
    SameOwners(a, b);
    assert WordsOf(b, n).Keys == WordsOf(a, m).Keys;
  }

  lemma SameHooks(a: Regions, b: Regions, m: map<nat, Cell>, n: map<nat, Cell>)
    requires SameShape(a, b) && SameTracked(a, m, n)
    ensures HooksOf(b, n) == HooksOf(a, m)
  {
    SameOwners(a, b);
    forall x: nat {:trigger RecordAt(b, x)}
      ensures RecordAt(b, x) == RecordAt(a, x)
      ensures RecordAt(a, x).Some? ==> x in m && x in n
    {
      assert Owner(b, x) == Owner(a, x);
    }
    assert HooksOf(b, n).Keys == HooksOf(a, m).Keys;
  }

  lemma SameView(a: Regions, b: Regions, m: map<nat, Cell>, n: map<nat, Cell>)
    requires SameShape(a, b) && SameTracked(a, m, n)
    ensures WordsOf(b, n) == WordsOf(a, m) && HooksOf(b, n) == HooksOf(a, m)
  {
    SameWords(a, b, m, n);
    SameHooks(a, b, m, n);
  }

  lemma TrackedIsMapped(s: State)
    requires Sound(s)
    ensures forall a: nat {:trigger Owner(s.infos, a)} :: Owner(s.infos, a).Some? ==> a in s.process.mem
  {
    forall a: nat | Owner(s.infos, a).Some?
      ensures a in s.process.mem
    {
      OwnedIsMapped(s, Owner(s.infos, a).value, a);
    }
  }

  // m' holds the image of region k at the given place, and the words of the region where they were.
  ghost predicate Copied(m: map<nat, Cell>, m': map<nat, Cell>, k: nat, place: nat, len: int) {
    && (forall a: nat {:trigger a in m'} :: a in m' <==> a in m || place <= a < place + len)
    && (forall a: nat {:trigger a in m} :: k <= a < k + len && a in m ==>
          place + (a - k) in m' && m'[place + (a - k)] == m[a])
    && (forall a: nat {:trigger a in m} :: a in m && !(k <= a < k + len) && !(place <= a < place + len) ==> m'[a] == m[a])
  }

  lemma BackedUpReads(p: Process, k: nat, place: nat, len: nat, perms: set<Protection>)
    requires k in p.vmas && forall a :: k <= a < k + len ==> a in p.mem
    requires Fresh(p, place, len)
    ensures var m := BackedUp(p, k, place, len, perms).mem;
            forall a {:trigger a in p.mem} :: a in p.mem ==> a in m && m[a].word == p.mem[a].word
  {
  }

  lemma BackedUpCopied(p: Process, k: nat, place: nat, len: nat, perms: set<Protection>)
    requires k in p.vmas && forall a :: k <= a < k + len ==> a in p.mem
    requires Fresh(p, place, len)
    ensures Copied(p.mem, BackedUp(p, k, place, len, perms).mem, k, place, len)
  {
  }

  lemma TrackedAlike(infos: Regions, m: map<nat, Cell>, n: map<nat, Cell>)
    requires forall a: nat {:trigger Owner(infos, a)} :: Owner(infos, a).Some? ==> a in m
    requires forall a {:trigger a in m} :: a in m ==> a in n && n[a].word == m[a].word
    ensures SameTracked(infos, m, n)
  {
  }

  lemma UpdatedShape(infos: Regions, k: nat, info: HookInfo)
    requires k in infos && info.area.end == infos[k].area.end && info.hooks == infos[k].hooks
    ensures SameShape(infos, infos[k := info])
  {
  }

  lemma TakeBackupReads(s: State, k: nat, place: nat)
    requires Sound(s) && k in s.infos && Fresh(s.process, place, s.infos[k].Length())
    ensures SameTracked(s.infos, s.process.mem, TakeBackup(s, k, place).process.mem)
    ensures SameShape(s.infos, TakeBackup(s, k, place).infos)
  {
    var t := TakeBackup(s, k, place);
    RegionPopulated(s, k);
    BackedUpReads(s.process, k, place, s.infos[k].Length(), {Read, Write} + s.infos[k].area.perms);
    TrackedIsMapped(s);
    TrackedAlike(s.infos, s.process.mem, t.process.mem);
    UpdatedShape(s.infos, k, t.infos[k]);
  }

  lemma RegionPopulated(s: State, k: nat)
    requires Sound(s) && k in s.infos
    ensures k in s.process.vmas && s.process.vmas[k].end == s.infos[k].area.end
    ensures forall a :: k <= a < s.infos[k].area.end ==> a in s.process.mem
  {
    assert RegionSound(s.process, s.infos[k]) && Populated(s.process.mem, s.process.vmas[k]);
  }

  lemma TakeBackupView(s: State, k: nat, place: nat)
    requires Sound(s) && k in s.infos && Fresh(s.process, place, s.infos[k].Length())
    ensures Words(TakeBackup(s, k, place)) == Words(s) && Hooks(TakeBackup(s, k, place)) == Hooks(s)
  {
    var t := TakeBackup(s, k, place);
    TakeBackupReads(s, k, place);
    SameView(s.infos, t.infos, s.process.mem, t.process.mem);
  }

  lemma MakeWritableShape(s: State, k: nat)
    requires Sound(s) && k in s.infos
    ensures MakeWritable(s, k).process.mem == s.process.mem
    ensures SameShape(s.infos, MakeWritable(s, k).infos)
  {
    if Write !in s.infos[k].area.perms {
      UpdatedShape(s.infos, k, MakeWritable(s, k).infos[k]);
    }
  }

  lemma MakeWritableView(s: State, k: nat)
    requires Sound(s) && k in s.infos
    ensures Words(MakeWritable(s, k)) == Words(s) && Hooks(MakeWritable(s, k)) == Hooks(s)
  {
    TrackedIsMapped(s);
    TrackedAlike(s.infos, s.process.mem, s.process.mem);
    MakeWritableShape(s, k);
    SameView(s.infos, MakeWritable(s, k).infos, s.process.mem, s.process.mem);
  }

  lemma DropWords(s: State, k: nat, j: nat, a: nat)
    requires Sound(s) && Backed(s.infos, k) && s.infos[k].hooks == map[]
    requires j in s.infos && j <= a < s.infos[j].area.end && a in s.process.mem
    ensures a in DropBackup(s, k).process.mem
    ensures DropBackup(s, k).process.mem[a].word == s.process.mem[a].word
  {
    if j == k {
      assert RegionSound(s.process, s.infos[k]);
      var twin: nat := Twin(s.infos[k], a);
    } else {
      DropAround(s, k, j);
    }
  }

  lemma DropReads(s: State, k: nat)
    requires Sound(s) && Backed(s.infos, k) && s.infos[k].hooks == map[]
    ensures SameTracked(s.infos, s.process.mem, DropBackup(s, k).process.mem)
    ensures SameShape(s.infos, DropBackup(s, k).infos)
  {
    var m := DropBackup(s, k).process.mem;
    forall a: nat | Owner(s.infos, a).Some?
      ensures a in s.process.mem && a in m && m[a].word == s.process.mem[a].word
    {
      var j := Owner(s.infos, a).value;
      OwnedIsMapped(s, j, a);
      DropWords(s, k, j, a);
    }
    UpdatedShape(s.infos, k, DropBackup(s, k).infos[k]);
  }

  lemma DropView(s: State, k: nat)
    requires Sound(s) && Backed(s.infos, k) && s.infos[k].hooks == map[]
    ensures Words(DropBackup(s, k)) == Words(s) && Hooks(DropBackup(s, k)) == Hooks(s)
  {
    var t := DropBackup(s, k);
    DropReads(s, k);
    SameView(s.infos, t.infos, s.process.mem, t.process.mem);
  }

  lemma WriteRecord(infos: Regions, k: nat, addr: nat, word: nat, callback: nat, a: nat)
    requires Owner(infos, addr) == Some(k) && k in infos
    ensures RecordAt(infos[k := infos[k].(hooks := Toggle(infos[k].hooks, addr, word, callback))], a) ==
            if a != addr then RecordAt(infos, a)
            else
              var hooks := Toggle(infos[k].hooks, a, word, callback);
              if a in hooks then Some(hooks[a]) else None
  {
    SameOwners(infos, infos[k := infos[k].(hooks := Toggle(infos[k].hooks, addr, word, callback))]);
  }

  lemma ToggleOf(h: map<nat, nat>, h': map<nat, nat>, addr: nat, word: nat, callback: nat)
    requires forall a {:trigger a in h'} :: a != addr ==> (a in h <==> a in h') && (a in h ==> h[a] == h'[a])
    requires var u := Toggle(h, addr, word, callback);
             (addr in h' <==> addr in u) && (addr in h' ==> h'[addr] == u[addr])
    ensures h' == Toggle(h, addr, word, callback)
  {
  }

  lemma WriteHooks(infos: Regions, m: map<nat, Cell>, n: map<nat, Cell>, k: nat, addr: nat, word: nat, callback: nat)
    requires Owner(infos, addr) == Some(k) && k in infos && addr in m && m.Keys == n.Keys
    ensures HooksOf(infos[k := infos[k].(hooks := Toggle(infos[k].hooks, addr, word, callback))], n) ==
            Toggle(HooksOf(infos, m), addr, word, callback)
  {
    var infos' := infos[k := infos[k].(hooks := Toggle(infos[k].hooks, addr, word, callback))];
    var h, h' := HooksOf(infos, m), HooksOf(infos', n);
    forall a {:trigger a in h'} | a != addr
      ensures (a in h <==> a in h') && (a in h ==> h[a] == h'[a])
    {
      WriteRecord(infos, k, addr, word, callback, a);
    }
    WriteRecord(infos, k, addr, word, callback, addr);
    ToggleOf(h, h', addr, word, callback);
  }

  lemma WriteWords(infos: Regions, infos': Regions, m: map<nat, Cell>, n: map<nat, Cell>, addr: nat, word: nat)
    requires infos.Keys == infos'.Keys && forall k {:trigger k in infos} :: k in infos ==> infos'[k].area.end == infos[k].area.end
    requires Owner(infos, addr).Some? && addr in m && m.Keys == n.Keys
    requires forall a {:trigger a in m} :: a in m ==> n[a].word == if a == addr then word else m[a].word
    ensures WordsOf(infos', n) == WordsOf(infos, m)[addr := word]
  {
    SameOwners(infos, infos');
    assert WordsOf(infos', n).Keys == WordsOf(infos, m).Keys + {addr};
  }

  /** The store changes one tracked word and toggles its record. */
  lemma WriteView(s: State, k: nat, w: Patch)
    requires k in s.infos && Owner(s.infos, w.addr) == Some(k) && w.addr in s.process.mem
    ensures Words(WriteSlot(s, k, w)) == Words(s)[w.addr := w.callback]
    ensures w.addr in Words(s)
    ensures Hooks(WriteSlot(s, k, w)) == Toggle(Hooks(s), w.addr, Words(s)[w.addr], w.callback)
  {
    var t, word := WriteSlot(s, k, w), s.process.mem[w.addr].word;
    assert t.process.mem.Keys == s.process.mem.Keys;
    WriteWords(s.infos, t.infos, s.process.mem, t.process.mem, w.addr, w.callback);
    WriteHooks(s.infos, s.process.mem, t.process.mem, k, w.addr, word, w.callback);
  }

  // ----- the image underneath -----

  lemma TakeBackupMapping(infos: Regions, vmas: map<nat, MapInfo>, k: nat, place: nat, copy: MapInfo, v: nat)
    requires k in infos && infos[k].backup == 0 && WellFormedMapping(infos[k].area)
    requires k in vmas && vmas[k].start == k && vmas[k].end == infos[k].area.end && infos[k].area.start == k
    requires place !in vmas && place != 0 && BackupsApart(infos)
    requires forall j {:trigger j in infos} :: j in infos ==> j != place && infos[j].backup != place
    requires forall j {:trigger Backed(infos, j)} :: Backed(infos, j) ==> infos[j].backup in vmas
    ensures var infos' := infos[k := infos[k].(backup := place)];
            var vmas' := vmas[place := At(vmas[k], place, infos[k].Length())][k := copy];
            PristineMapping(infos', vmas', v) == PristineMapping(infos, vmas, v)
  {
    var infos' := infos[k := infos[k].(backup := place)];
    assert infos'[k].backup == place;
    assert IsBackup(infos', v) <==> IsBackup(infos, v) || v == place by {
      if j :| j in infos && infos[j].backup == v && v != 0 {
        assert infos'[j].backup == v;
      }
    }
    if v != k && Backed(infos, v) {
      assert infos[v].backup != k;
    }
  }

  lemma InBackupBy(infos: Regions, infos': Regions, k: nat, a: nat)
    requires k in infos && k in infos' && infos' == infos[k := infos'[k]] && infos'[k].area == infos[k].area
    requires infos[k].backup == 0 && infos'[k].backup != 0
    ensures InBackup(infos', a) <==>
            InBackup(infos, a) || infos'[k].backup <= a < infos'[k].backup + (infos[k].area.end - k)
  {
    if j :| Backed(infos, j) && infos[j].backup <= a < infos[j].backup + (infos[j].area.end - j) {
      assert Backed(infos', j) && infos'[j] == infos[j];
    }
    if infos'[k].backup <= a < infos'[k].backup + (infos[k].area.end - k) {
      assert Backed(infos', k);
    }
    if j :| Backed(infos', j) && infos'[j].backup <= a < infos'[j].backup + (infos'[j].area.end - j) {
      if j != k {
        assert Backed(infos, j) && infos'[j] == infos[j];
      }
    }
  }

  lemma TakeBackupCell(infos: Regions, m: map<nat, Cell>, m': map<nat, Cell>, k: nat, place: nat, a: nat)
    requires k in infos && infos[k].backup == 0 && infos[k].area.start == k && place != 0
    requires WellFormedRegions(infos) && Disjoint(infos)
    requires Copied(m, m', k, place, infos[k].area.end - k)
    requires forall b: nat {:trigger b in m} :: place <= b < place + (infos[k].area.end - k) ==> b !in m
    requires forall j: nat {:trigger Backed(infos, j)} :: Backed(infos, j) && j <= a < infos[j].area.end ==>
               Twin(infos[j], a) in m && !(k <= Twin(infos[j], a) < infos[k].area.end)
    ensures PristineCell(infos[k := infos[k].(backup := place)], m', a) == PristineCell(infos, m, a)
  {
    var infos' := infos[k := infos[k].(backup := place)];
    InBackupBy(infos, infos', k, a);
    SameOwners(infos, infos');
    OwnerIsContainer(infos, k, a);
    var owner := Owner(infos, a);
    if owner.Some? && owner.value != k && Backed(infos, owner.value) {
      OwnerIsContainer(infos, owner.value, a);
    }
  }

  lemma TwinsApart(s: State, k: nat, j: nat, a: nat)
    requires Sound(s) && k in s.infos && Backed(s.infos, j) && j <= a < s.infos[j].area.end
    ensures Twin(s.infos[j], a) in s.process.mem
    ensures !(k <= Twin(s.infos[j], a) < s.infos[k].area.end)
    ensures s.infos[j].backup in s.process.vmas
  {
    RegionsAndBackupsDisjoint(s, k, j);
    assert RegionSound(s.process, s.infos[j]);
  }

  /** Taking a backup leaves the image underneath as it was. */
  lemma TakeBackupPristine(s: State, k: nat, place: nat)
    requires Sound(s) && k in s.infos && s.infos[k].backup == 0
    requires Fresh(s.process, place, s.infos[k].Length())
    ensures Pristine(TakeBackup(s, k, place)) == Pristine(s)
  {
    var t, info := TakeBackup(s, k, place), s.infos[k];
    assert RegionSound(s.process, info);
    BackedUpCopied(s.process, k, place, info.Length(), {Read, Write} + info.area.perms);
    RegionsDisjoint(s);
    forall v: nat
      ensures PristineMapping(t.infos, t.process.vmas, v) == PristineMapping(s.infos, s.process.vmas, v)
    {
      FreshPlaceNames(s, k, place);
      TakeBackupMapping(s.infos, s.process.vmas, k, place, t.process.vmas[k], v);
    }
    forall a: nat
      ensures PristineCell(t.infos, t.process.mem, a) == PristineCell(s.infos, s.process.mem, a)
    {
      forall j: nat | Backed(s.infos, j) && j <= a < s.infos[j].area.end
        ensures Twin(s.infos[j], a) in s.process.mem && !(k <= Twin(s.infos[j], a) < info.area.end)
      {
        TwinsApart(s, k, j, a);
      }
      TakeBackupCell(s.infos, s.process.mem, t.process.mem, k, place, a);
    }
    SamePristine(s, t);
  }

  lemma FreshPlaceNames(s: State, k: nat, place: nat)
    requires Sound(s) && k in s.infos && Fresh(s.process, place, s.infos[k].Length())
    ensures place !in s.process.vmas
    ensures forall j {:trigger j in s.infos} :: j in s.infos ==> j != place && s.infos[j].backup != place
    ensures forall j {:trigger Backed(s.infos, j)} :: Backed(s.infos, j) ==> s.infos[j].backup in s.process.vmas
  {
    forall j | j in s.infos
      ensures j != place && s.infos[j].backup != place
      ensures Backed(s.infos, j) ==> s.infos[j].backup in s.process.vmas
    {
      assert RegionSound(s.process, s.infos[j]);
    }
  }

  lemma DropMapping(infos: Regions, vmas: map<nat, MapInfo>, k: nat, v: nat)
    requires Backed(infos, k) && infos[k].area.start == k && WellFormedMapping(infos[k].area)
    requires infos[k].backup in vmas && k in vmas && infos[k].backup != k && BackupsApart(infos)
    requires forall j {:trigger Backed(infos, j)} :: Backed(infos, j) ==> infos[j].backup in vmas
    ensures var infos' := infos[k := infos[k].(backup := 0)];
            var b, len := infos[k].backup, infos[k].Length();
            var vmas' := (vmas - {b})[k := At(vmas[b], k, len)];
            PristineMapping(infos', vmas', v) == PristineMapping(infos, vmas, v)
  {
    var infos' := infos[k := infos[k].(backup := 0)];
    var b := infos[k].backup;
    assert IsBackup(infos, v) <==> IsBackup(infos', v) || v == b by {
      if j :| j in infos && infos[j].backup == v && v != 0 {
        assert j != k ==> infos'[j].backup == v;
      }
      if j :| j in infos' && infos'[j].backup == v && v != 0 {
        assert infos[j].backup == v;
      }
    }
    assert !IsBackup(infos', b) by {
      if j :| j in infos' && infos'[j].backup == b {
        assert Backed(infos, j);
      }
    }
    assert !IsBackup(infos, k) by {
      if j :| j in infos && infos[j].backup == k && k != 0 {
        assert Backed(infos, j);
      }
    }
    if v != k && Backed(infos, v) {
      assert infos[v].backup != b && infos[v].backup != k && Backed(infos', v);
    }
  }

  lemma WithoutBackup(infos: Regions, k: nat)
    requires WellFormedRegions(infos) && Disjoint(infos) && k in infos
    ensures var infos' := infos[k := infos[k].(backup := 0)];
            && WellFormedRegions(infos') && Disjoint(infos')
            && infos == infos'[k := infos'[k].(backup := infos[k].backup)]
  {
  }

  lemma DropCell(infos: Regions, m: map<nat, Cell>, m': map<nat, Cell>, k: nat, a: nat)
    requires Backed(infos, k) && infos[k].area.start == k && WellFormedRegions(infos) && Disjoint(infos)
    requires Copied(m', m, k, infos[k].backup, infos[k].area.end - k)
    requires forall b: nat {:trigger b in m'} :: infos[k].backup <= b < BackupEnd(infos[k]) ==> b !in m'
    requires forall j: nat {:trigger Backed(infos, j)} :: Backed(infos, j) && j != k && j <= a < infos[j].area.end ==>
               Twin(infos[j], a) in m' && !(k <= Twin(infos[j], a) < infos[k].area.end)
    ensures PristineCell(infos[k := infos[k].(backup := 0)], m', a) == PristineCell(infos, m, a)
  {
    var infos' := infos[k := infos[k].(backup := 0)];
    WithoutBackup(infos, k);
    forall j: nat | Backed(infos', j) && j <= a < infos'[j].area.end
      ensures Twin(infos'[j], a) in m' && !(k <= Twin(infos'[j], a) < infos'[k].area.end)
    {
      assert Backed(infos, j);
    }
    TakeBackupCell(infos', m', m, k, infos[k].backup, a);
  }

  /** Moving a backup home leaves the image underneath as it was. */
  lemma DropPristine(s: State, k: nat)
    requires Sound(s) && Backed(s.infos, k)
    ensures Pristine(DropBackup(s, k)) == Pristine(s)
  {
    var t := DropBackup(s, k);
    assert RegionSound(s.process, s.infos[k]);
    RegionsAndBackupsDisjoint(s, k, k);
    forall j {:trigger Backed(s.infos, j)} | Backed(s.infos, j)
      ensures s.infos[j].backup in s.process.vmas
    {
      assert RegionSound(s.process, s.infos[j]);
    }
    forall v: nat
      ensures PristineMapping(t.infos, t.process.vmas, v) == PristineMapping(s.infos, s.process.vmas, v)
    {
      DropMapping(s.infos, s.process.vmas, k, v);
    }
    forall a: nat
      ensures PristineCell(t.infos, t.process.mem, a) == PristineCell(s.infos, s.process.mem, a)
    {
      DroppedCell(s, k, a);
    }
    SamePristine(s, t);
  }

  lemma DropTwins(s: State, k: nat, a: nat)
    requires Sound(s) && Backed(s.infos, k)
    ensures forall j: nat {:trigger Backed(s.infos, j)} :: Backed(s.infos, j) && j != k && j <= a < s.infos[j].area.end ==>
              Twin(s.infos[j], a) in DropBackup(s, k).process.mem && !(k <= Twin(s.infos[j], a) < s.infos[k].area.end)
  {
    forall j: nat | Backed(s.infos, j) && j != k && j <= a < s.infos[j].area.end
      ensures Twin(s.infos[j], a) in DropBackup(s, k).process.mem && !(k <= Twin(s.infos[j], a) < s.infos[k].area.end)
    {
      DropTwin(s, k, j, a);
    }
  }

  lemma DroppedCell(s: State, k: nat, a: nat)
    requires Sound(s) && Backed(s.infos, k)
    ensures PristineCell(DropBackup(s, k).infos, DropBackup(s, k).process.mem, a) == PristineCell(s.infos, s.process.mem, a)
  {
    RegionsDisjoint(s);
    DropCopied(s, k);
    DropTwins(s, k, a);
    DropCell(s.infos, s.process.mem, DropBackup(s, k).process.mem, k, a);
  }

  lemma DropTwin(s: State, k: nat, j: nat, a: nat)
    requires Sound(s) && Backed(s.infos, k) && Backed(s.infos, j) && j != k && j <= a < s.infos[j].area.end
    ensures Twin(s.infos[j], a) in DropBackup(s, k).process.mem
    ensures !(k <= Twin(s.infos[j], a) < s.infos[k].area.end)
  {
    TwinsApart(s, k, j, a);
    RegionsAndBackupsDisjoint(s, j, k);
  }

  lemma MoveCopied(p: Process, b: nat, k: nat, len: nat)
    requires WellFormed(p) && CanMove(p, b, k, len) && forall a: nat :: k <= a < k + len ==> a in p.mem
    ensures Copied(Move(p, b, k, len).mem, p.mem, k, b, len)
    ensures var m := Move(p, b, k, len).mem;
            forall a: nat {:trigger a in m} :: b <= a < b + len ==> a !in m
  {
  }

  lemma DropCopied(s: State, k: nat)
    requires Sound(s) && Backed(s.infos, k)
    ensures Copied(DropBackup(s, k).process.mem, s.process.mem, k, s.infos[k].backup, s.infos[k].area.end - k)
    ensures var m := DropBackup(s, k).process.mem;
            forall b: nat {:trigger b in m} :: s.infos[k].backup <= b < BackupEnd(s.infos[k]) ==> b !in m
  {
    assert RegionSound(s.process, s.infos[k]);
    RegionsAndBackupsDisjoint(s, k, k);
    forall a: nat | k <= a < s.infos[k].area.end
      ensures a in s.process.mem
    {
      var twin := Twin(s.infos[k], a);
    }
    MoveCopied(s.process, s.infos[k].backup, k, s.infos[k].Length());
  }

  ghost predicate SameBackups(a: Regions, b: Regions) {
    && a.Keys == b.Keys
    && forall k {:trigger k in a} :: k in a ==>
         b[k].backup == a[k].backup && b[k].area.start == a[k].area.start && b[k].area.end == a[k].area.end
  }

  lemma SameBackupNames(a: Regions, b: Regions, x: nat)
    requires SameBackups(a, b)
    ensures IsBackup(a, x) <==> IsBackup(b, x)
    ensures InBackup(a, x) <==> InBackup(b, x)
    ensures Backed(a, x) <==> Backed(b, x)
  {
    assert forall j :: Backed(a, j) <==> Backed(b, j);
  }

  lemma WriteMapping(a: Regions, b: Regions, vmas: map<nat, MapInfo>, v: nat)
    requires SameBackups(a, b)
    ensures PristineMapping(b, vmas, v) == PristineMapping(a, vmas, v)
  {
    SameBackupNames(a, b, v);
  }

  lemma WriteCell(infos: Regions, infos': Regions, m: map<nat, Cell>, addr: nat, cell: Cell, a: nat)
    requires SameBackups(infos, infos') && Owner(infos, addr).Some? && infos[Owner(infos, addr).value].backup != 0
    requires Twin(infos[Owner(infos, addr).value], addr) in m && Twin(infos[Owner(infos, addr).value], addr) != addr
    requires Owner(infos, a).Some? && Backed(infos, Owner(infos, a).value) ==>
               Twin(infos[Owner(infos, a).value], a) in m && Twin(infos[Owner(infos, a).value], a) != addr
    requires addr in m
    ensures PristineCell(infos', m[addr := cell], a) == PristineCell(infos, m, a)
  {
    SameOwners(infos, infos');
    SameBackupNames(infos, infos', a);
  }

  /** A store into a backed region does not reach the image underneath. */
  lemma WritePristine(s: State, k: nat, w: Patch)
    requires Sound(s) && Backed(s.infos, k) && Owner(s.infos, w.addr) == Some(k) && w.addr in s.process.mem
    ensures Pristine(WriteSlot(s, k, w)) == Pristine(s)
  {
    var t := WriteSlot(s, k, w);
    assert SameBackups(s.infos, t.infos);
    OwnedIsMapped(s, k, w.addr);
    TwinsApart(s, k, k, w.addr);
    var cell := Cell(w.callback, true);
    forall v: nat
      ensures PristineMapping(t.infos, t.process.vmas, v) == PristineMapping(s.infos, s.process.vmas, v)
    {
      WriteMapping(s.infos, t.infos, s.process.vmas, v);
    }
    forall a: nat
      ensures PristineCell(t.infos, t.process.mem, a) == PristineCell(s.infos, s.process.mem, a)
    {
      WriteTwin(s, k, w.addr, a);
      var word := s.process.mem[w.addr];
      assert s.process.mem[w.addr := word] == s.process.mem;
      WriteCell(s.infos, t.infos, s.process.mem, w.addr, if word.word == w.callback then word else cell, a);
    }
    SamePristine(s, t);
  }

  lemma WriteTwin(s: State, k: nat, addr: nat, a: nat)
    requires Sound(s) && Backed(s.infos, k) && k <= addr < s.infos[k].area.end
    ensures var owner := Owner(s.infos, a);
            owner.Some? && Backed(s.infos, owner.value) ==>
              Twin(s.infos[owner.value], a) in s.process.mem && Twin(s.infos[owner.value], a) != addr
  {
    var owner := Owner(s.infos, a);
    if owner.Some? && Backed(s.infos, owner.value) {
      OwnedIsMapped(s, owner.value, a);
      TwinsApart(s, k, owner.value, a);
    }
  }
}
