/**
 Where the pages of a region are once a slot has been patched: moved aside with the first hook, home
 again with the last one, and in place in the library's own file.
 */
module HookPages {
  import opened Options
  import opened AddressSpace
  import opened HookState
  import opened HookStep

  // The word that was at the slot goes behind the caller's pointer, unless it is the callback already.
  ghost predicate OriginalSaved(s: State, t: State, w: Patch)
    requires w.addr in s.process.mem
  {
    var word := s.process.mem[w.addr].word;
    if w.saveTo == 0 || word == w.callback then t.saved == s.saved else t.saved == s.saved[w.saveTo := word]
  }

  // The mapping of the file is at place; where it was lies a private copy that can be written.
  ghost predicate MovedAway(m: map<nat, MapInfo>, n: map<nat, MapInfo>, area: MapInfo, place: nat) {
    && area.start <= area.end && area.start in m
    && n == m[place := m[area.start].(start := place, end := place + (area.end - area.start))]
             [area.start := MapInfo(area.start, area.end, area.perms + {Read, Write}, true, 0, 0, 0, "")]
  }

  // The word of the file at address a is at place, as it was; the copy differs from it at the slot only.
  predicate CellCopied(m: map<nat, Cell>, n: map<nat, Cell>, k: nat, place: nat, w: Patch, a: nat) {
    k <= a ==>
      && a in m && a in n && place + (a - k) in n
      && n[place + (a - k)] == m[a]
      && n[a] == Cell(if a == w.addr then w.callback else m[a].word, true)
  }

  ghost predicate CopiedAway(m: map<nat, Cell>, n: map<nat, Cell>, area: MapInfo, place: nat, w: Patch) {
    forall a: nat {:trigger CellCopied(m, n, area.start, place, w, a)} ::
      area.start <= a < area.end ==> CellCopied(m, n, area.start, place, w, a)
  }

  // A region that is about to get its first hook.
  ghost predicate Unhooked(s: State, k: nat) {
    k in s.infos && !s.infos[k].isSelf && s.infos[k].backup == 0
  }

  // What Hook makes of an address that region k holds.
  lemma HookOfRegion(s: State, w: Patch, place: nat, k: nat)
    requires Invariant(s) && CanHook(s, w, place) && Owner(s.infos, w.addr) == Some(k)
    ensures k in s.infos && k <= w.addr < s.infos[k].area.end && w.addr in s.process.mem
    ensures var p := Prepare(s, k, place);
            && Sound(p) && Ready(p, k) && w.addr in p.process.mem && Sound(WriteSlot(p, k, w))
            && Hook(s, w, place) == Finish(WriteSlot(p, k, w), k)
  {
    OwnedIsMapped(s, k, w.addr);
    PrepareSound(s, k, place);
    PreparedReady(s, k, w.addr, place);
    WriteSound(Prepare(s, k, place), k, w);
  }

  function Stored(m: map<nat, Cell>, w: Patch): map<nat, Cell>
    requires w.addr in m
  {
    if m[w.addr].word == w.callback then m else m[w.addr := Cell(w.callback, true)]
  }

  lemma StoredCell(p: Process, area: MapInfo, place: nat, len: nat, perms: set<Protection>, w: Patch, a: nat)
    requires Fresh(p, place, len) && area.start in p.vmas && len == area.end - area.start
    requires forall x :: area.start <= x < area.start + len ==> x in p.mem
    requires area.start <= w.addr < area.end && area.start <= a < area.end
    ensures var q := BackedUp(p, area.start, place, len, perms);
            w.addr in q.mem && CellCopied(p.mem, Stored(q.mem, w), area.start, place, w, a)
  {
  }

  lemma StoredCells(p: Process, area: MapInfo, place: nat, len: nat, perms: set<Protection>, w: Patch)
    requires Fresh(p, place, len) && area.start in p.vmas && len == area.end - area.start
    requires forall x :: area.start <= x < area.start + len ==> x in p.mem
    requires area.start <= w.addr < area.end
    ensures var q := BackedUp(p, area.start, place, len, perms);
            w.addr in q.mem && CopiedAway(p.mem, Stored(q.mem, w), area, place, w)
  {
    StoredCell(p, area, place, len, perms, w, w.addr);
    forall a: nat {:trigger CellCopied(p.mem, Stored(BackedUp(p, area.start, place, len, perms).mem, w), area.start, place, w, a)}
      | area.start <= a < area.end
      ensures CellCopied(p.mem, Stored(BackedUp(p, area.start, place, len, perms).mem, w), area.start, place, w, a)
    {
      StoredCell(p, area, place, len, perms, w, a);
    }
  }

  // The parts of the state after the write, in terms of the backed-up process.
  lemma WrittenParts(s: State, k: nat, w: Patch)
    requires k in s.infos && w.addr in s.process.mem
    ensures var t := WriteSlot(s, k, w);
            && t.process == Process(s.process.vmas, Stored(s.process.mem, w))
            && t.infos == s.infos[k := s.infos[k].(hooks := Toggle(s.infos[k].hooks, w.addr, s.process.mem[w.addr].word, w.callback))]
            && OriginalSaved(s, t, w)
  {
  }

  lemma UnhookedRegion(s: State, k: nat)
    requires Invariant(s) && Unhooked(s, k)
    ensures k in s.process.vmas && s.infos[k].hooks == map[] && s.infos[k].area.start == k && k < s.infos[k].area.end
    ensures forall x :: k <= x < s.infos[k].area.end ==> x in s.process.mem
  {
    assert RegionSound(s.process, s.infos[k]);
    assert Populated(s.process.mem, s.process.vmas[k]);
  }

  lemma TakenParts(s: State, k: nat, w: Patch, place: nat)
    requires Invariant(s) && Unhooked(s, k) && k <= w.addr < s.infos[k].area.end
    requires Fresh(s.process, place, s.infos[k].Length())
    ensures w.addr in s.process.mem && w.addr in TakeBackup(s, k, place).process.mem
    ensures var t, area := TakeBackup(s, k, place), s.infos[k].area;
            && t.process.mem[w.addr].word == s.process.mem[w.addr].word
            && t.infos == s.infos[k := s.infos[k].(backup := place)] && t.saved == s.saved
            && MovedAway(s.process.vmas, t.process.vmas, area, place)
            && CopiedAway(s.process.mem, Stored(t.process.mem, w), area, place, w)
  {
    UnhookedRegion(s, k);
    var area := s.infos[k].area;
    StoredCells(s.process, area, place, s.infos[k].Length(), {Read, Write} + area.perms, w);
    assert {Read, Write} + area.perms == area.perms + {Read, Write};
  }

  // The table, the mappings and the pages after the first hook of a region.
  ghost predicate FirstHooked(s: State, t: State, w: Patch, place: nat, k: nat)
    requires k in s.infos && w.addr in s.process.mem
  {
    && t.infos == s.infos[k := s.infos[k].(backup := place, hooks := map[w.addr := s.process.mem[w.addr].word])]
    && MovedAway(s.process.vmas, t.process.vmas, s.infos[k].area, place)
    && CopiedAway(s.process.mem, t.process.mem, s.infos[k].area, place, w)
    && OriginalSaved(s, t, w)
  }

  lemma PartsAreFirst(s: State, p: State, t: State, w: Patch, place: nat, k: nat)
    requires k in s.infos && s.infos[k].hooks == map[] && w.addr in s.process.mem && w.addr in p.process.mem
    requires p.infos == s.infos[k := s.infos[k].(backup := place)] && p.saved == s.saved
    requires p.process.mem[w.addr].word == s.process.mem[w.addr].word
    requires MovedAway(s.process.vmas, p.process.vmas, s.infos[k].area, place)
    requires CopiedAway(s.process.mem, Stored(p.process.mem, w), s.infos[k].area, place, w)
    requires t.process == Process(p.process.vmas, Stored(p.process.mem, w)) && OriginalSaved(p, t, w)
    requires t.infos == p.infos[k := p.infos[k].(hooks := map[w.addr := s.process.mem[w.addr].word])]
    ensures FirstHooked(s, t, w, place, k)
  {
  }

  lemma FirstIsWritten(s: State, w: Patch, place: nat, k: nat)
    requires Invariant(s) && Unhooked(s, k) && k <= w.addr < s.infos[k].area.end
    requires Fresh(s.process, place, s.infos[k].Length())
    ensures w.addr in s.process.mem && w.addr in TakeBackup(s, k, place).process.mem
    ensures FirstHooked(s, WriteSlot(TakeBackup(s, k, place), k, w), w, place, k)
  {
    UnhookedRegion(s, k);
    TakenParts(s, k, w, place);
    var p := TakeBackup(s, k, place);
    WrittenParts(p, k, w);
    PartsAreFirst(s, p, WriteSlot(p, k, w), w, place, k);
  }

  /** The first hook of a region moves the file's mapping and pages aside, unchanged, and leaves a private copy
      with one word changed; the original word is recorded, and saved for the caller. */
  lemma FirstHook(s: State, w: Patch, place: nat, k: nat)
    requires Invariant(s) && CanHook(s, w, place) && Owner(s.infos, w.addr) == Some(k) && Unhooked(s, k)
    ensures w.addr in s.process.mem && FirstHooked(s, Hook(s, w, place), w, place, k)
  {
    HookOfRegion(s, w, place, k);
    FirstIsWritten(s, w, place, k);
  }

  // The one hook that region k has left is on the slot, and its record says callback.
  ghost predicate OnlyHook(s: State, k: nat, w: Patch) {
    Backed(s.infos, k) && s.infos[k].hooks == map[w.addr := w.callback]
  }

  // The word of the file at address a is home again, as it was in the backup.
  predicate CellBack(m: map<nat, Cell>, n: map<nat, Cell>, k: nat, b: nat, a: nat) {
    k <= a ==> b + (a - k) in m && a in n && n[a] == m[b + (a - k)]
  }

  ghost predicate LastUnhooked(s: State, t: State, w: Patch, k: nat)
    requires k in s.infos && w.addr in s.process.mem
  {
    var info := s.infos[k];
    && t.infos == s.infos[k := info.(backup := 0, hooks := map[])]
    && info.backup in s.process.vmas
    && t.process.vmas == (s.process.vmas - {info.backup})[k := s.process.vmas[info.backup].(start := k, end := info.area.end)]
    && (forall a: nat {:trigger CellBack(s.process.mem, t.process.mem, k, info.backup, a)} ::
          k <= a < info.area.end ==> CellBack(s.process.mem, t.process.mem, k, info.backup, a))
    && OriginalSaved(s, t, w)
  }

  lemma MovedBack(p: Process, k: nat, b: nat, len: nat, w: Patch, a: nat)
    requires w.addr in p.mem && k <= w.addr < k + len && k <= a < k + len && (b + len <= k || k + len <= b)
    requires CanMove(Process(p.vmas, Stored(p.mem, w)), b, k, len)
    ensures CellBack(p.mem, Move(Process(p.vmas, Stored(p.mem, w)), b, k, len).mem, k, b, a)
  {
  }

  lemma AllMovedBack(p: Process, info: HookInfo, w: Patch)
    requires WellFormedMapping(info.area) && w.addr in p.mem && info.area.start <= w.addr < info.area.end
    requires Clear(info.backup, BackupEnd(info), info.area.start, info.area.end)
    requires CanMove(Process(p.vmas, Stored(p.mem, w)), info.backup, info.area.start, info.Length())
    ensures var k, q := info.area.start, Move(Process(p.vmas, Stored(p.mem, w)), info.backup, info.area.start, info.Length());
            && info.backup in p.vmas
            && q.vmas == (p.vmas - {info.backup})[k := p.vmas[info.backup].(start := k, end := info.area.end)]
            && forall a: nat {:trigger CellBack(p.mem, q.mem, k, info.backup, a)} ::
                 k <= a < info.area.end ==> CellBack(p.mem, q.mem, k, info.backup, a)
  {
    var k, q := info.area.start, Move(Process(p.vmas, Stored(p.mem, w)), info.backup, info.area.start, info.Length());
    forall a: nat {:trigger CellBack(p.mem, q.mem, k, info.backup, a)} | k <= a < info.area.end
      ensures CellBack(p.mem, q.mem, k, info.backup, a)
    {
      MovedBack(p, k, info.backup, info.Length(), w, a);
    }
  }

  // What a backup moves home from, once the last word has been put back.
  lemma LastWritten(s: State, k: nat, w: Patch)
    requires Sound(s) && Backed(s.infos, k) && k <= w.addr < s.infos[k].area.end && w.addr in s.process.mem
    requires s.infos[k].hooks == map[w.addr := w.callback]
    ensures var t := WriteSlot(s, k, w);
            && t.process == Process(s.process.vmas, Stored(s.process.mem, w)) && OriginalSaved(s, t, w)
            && t.infos == s.infos[k := s.infos[k].(hooks := map[])]
  {
    WrittenParts(s, k, w);
    assert s.infos[k].hooks - {w.addr} == map[];
  }

  lemma HomeParts(u: State, k: nat)
    requires Sound(u) && Backed(u.infos, k)
    ensures WellFormedMapping(u.infos[k].area) && u.infos[k].area.start == k
    ensures Clear(u.infos[k].backup, BackupEnd(u.infos[k]), k, u.infos[k].area.end)
    ensures CanMove(u.process, u.infos[k].backup, k, u.infos[k].Length())
    ensures var t := DropBackup(u, k);
            && t.process == Move(u.process, u.infos[k].backup, k, u.infos[k].Length())
            && t.infos == u.infos[k := u.infos[k].(backup := 0)] && t.saved == u.saved
  {
    RegionsAndBackupsDisjoint(u, k, k);
    BackupMovesHome(u, k);
  }

  lemma PartsAreLast(s: State, u: State, t: State, w: Patch, k: nat)
    requires k in s.infos && w.addr in s.process.mem && k <= w.addr < s.infos[k].area.end
    requires u.process == Process(s.process.vmas, Stored(s.process.mem, w)) && OriginalSaved(s, u, w)
    requires u.infos == s.infos[k := s.infos[k].(hooks := map[])]
    requires WellFormedMapping(u.infos[k].area) && u.infos[k].area.start == k
    requires Clear(u.infos[k].backup, BackupEnd(u.infos[k]), k, u.infos[k].area.end)
    requires CanMove(u.process, u.infos[k].backup, k, u.infos[k].Length())
    requires t.process == Move(u.process, u.infos[k].backup, k, u.infos[k].Length())
    requires t.infos == u.infos[k := u.infos[k].(backup := 0)] && t.saved == u.saved
    ensures LastUnhooked(s, t, w, k)
  {
    assert u.infos[k].area == s.infos[k].area && u.infos[k].backup == s.infos[k].backup;
    AllMovedBack(s.process, s.infos[k], w);
  }

  lemma DroppedParts(s: State, k: nat, w: Patch)
    requires Sound(s) && Backed(s.infos, k) && k <= w.addr < s.infos[k].area.end && w.addr in s.process.mem
    requires s.infos[k].hooks == map[w.addr := w.callback]
    requires Sound(WriteSlot(s, k, w)) && Backed(WriteSlot(s, k, w).infos, k)
    ensures LastUnhooked(s, DropBackup(WriteSlot(s, k, w), k), w, k)
  {
    var u := WriteSlot(s, k, w);
    LastWritten(s, k, w);
    HomeParts(u, k);
    PartsAreLast(s, u, DropBackup(u, k), w, k);
  }

  /** Putting back the last recorded word brings the file's own mapping and pages home, unchanged. */
  lemma LastUnhook(s: State, w: Patch, place: nat, k: nat)
    requires Invariant(s) && CanHook(s, w, place) && Owner(s.infos, w.addr) == Some(k) && OnlyHook(s, k, w)
    ensures w.addr in s.process.mem && LastUnhooked(s, Hook(s, w, place), w, k)
  {
    HookOfRegion(s, w, place, k);
    OwnIsNotBacked(s, k);
    WrittenParts(s, k, w);
    assert s.infos[k].hooks - {w.addr} == map[];
    DroppedParts(s, k, w);
  }

  lemma OwnIsNotBacked(s: State, k: nat)
    requires Sound(s) && k in s.infos
    ensures s.infos[k].isSelf ==> s.infos[k].backup == 0
  {
    assert RegionSound(s.process, s.infos[k]);
  }

  /** In the library's own file the word is written where it is, on pages that can be written from then on. */
  lemma OwnHook(s: State, w: Patch, place: nat, k: nat)
    requires Invariant(s) && CanHook(s, w, place) && Owner(s.infos, w.addr) == Some(k) && k in s.infos && s.infos[k].isSelf
    ensures k in s.process.vmas && w.addr in s.process.mem
    ensures var t, area := Hook(s, w, place), s.infos[k].area;
            && t.process.vmas == (if Write in area.perms then s.process.vmas
                                  else s.process.vmas[k := s.process.vmas[k].(perms := area.perms + {Write})])
            && t.process.mem == (if s.process.mem[w.addr].word == w.callback then s.process.mem
                                 else s.process.mem[w.addr := Cell(w.callback, true)])
            && t.infos[k].backup == s.infos[k].backup && t.infos[k].area == area.(perms := area.perms + {Write})
            && OriginalSaved(s, t, w)
  {
    assert RegionSound(s.process, s.infos[k]);
    HookOfRegion(s, w, place, k);
    assert Write in s.infos[k].area.perms ==> s.infos[k].area.perms + {Write} == s.infos[k].area.perms;
  }
}
