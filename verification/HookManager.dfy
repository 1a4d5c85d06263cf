/**
 lsplt.cc itself: the registrations, the tracked regions, and the methods that change them. Each
 method is proved against the functions of HookStep, HookPlan, HookRoundTrip and HookInvalidate on
 the runs in which no system call fails, and InvalidateBackup also on those in which mprotect is
 refused; under other failures the weaker Valid() is kept.
 */
module HookManager {
  import opened Options
  import opened AddressSpace
  import opened HookState
  import opened HookStep
  import opened HookCommit
  import opened HookPlan
  import opened HookRoundTrip
  import opened HookedSlots
  import opened HookInvalidate
  import opened HookTables
  import opened HookRuns
  import opened Kernel
  import opened LoadedImages

  const UINTPTR_MAX: nat := 0xffff_ffff_ffff_ffff

  // ----- the copy made of the parts of a backup -----

  // Words of the image at place, copied to dirty cells from k up to done.
  ghost predicate CopiedUpTo(p: Process, q: Process, k: nat, place: nat, done: nat) {
    && q.vmas == p.vmas
    && q.mem.Keys == p.mem.Keys
    && forall a: nat {:trigger a in q.mem} :: a in q.mem ==> CopiedAt(p, q, k, place, done, a)
  }

  ghost predicate CopiedAt(p: Process, q: Process, k: nat, place: nat, done: nat, a: nat)
    requires a in q.mem && p.mem.Keys == q.mem.Keys
  {
    if k <= a < done then place + (a - k) in p.mem && q.mem[a] == Cell(p.mem[place + (a - k)].word, true)
    else q.mem[a] == p.mem[a]
  }

  lemma PageCopied(p: Process, q: Process, q': Process, k: nat, place: nat, done: nat, src: nat, len: nat)
    requires CopiedUpTo(p, q, k, place, done) && k <= done && done + PAGE_SIZE <= k + len && src == place + (done - k)
    requires place + len <= k || k + len <= place
    requires forall a :: place <= a < place + len ==> a in p.mem
    requires forall a :: k <= a < k + len ==> a in p.mem
    requires q'.vmas == q.vmas && q'.mem.Keys == q.mem.Keys + AddressRange(done, PAGE_SIZE)
    requires forall a {:trigger q'.mem[a]} :: a in q'.mem ==>
               q'.mem[a] == if done <= a < done + PAGE_SIZE
                            then Cell(q.mem[src + (a - done)].word, true)
                            else q.mem[a]
    ensures CopiedUpTo(p, q', k, place, done + PAGE_SIZE)
  {
    AddressesKnown(q.mem.Keys, done, PAGE_SIZE);
    forall a: nat | a in q'.mem
      ensures CopiedAt(p, q', k, place, done + PAGE_SIZE, a)
    {
      assert a in q.mem;
      if done <= a < done + PAGE_SIZE {
        SourceUntouched(p, q, k, place, done, len, place + (a - k));
      }
    }
  }

  lemma OnePage(n: nat) returns (rest: nat)
    requires Paged(n) && 0 < n
    ensures n == rest + PAGE_SIZE && Paged(rest)
  {
    rest := n - PAGE_SIZE;
  }

  // The next page to copy is still what it was.
  lemma PageThere(p: Process, q: Process, k: nat, place: nat, done: nat, len: nat)
    requires CopiedUpTo(p, q, k, place, done) && k <= done && done + PAGE_SIZE <= k + len
    requires forall a :: place <= a < place + len ==> a in p.mem
    ensures forall a :: place + (done - k) <= a < place + (done - k) + PAGE_SIZE ==> a in q.mem
  {
  }

  lemma AddressesKnown(keys: set<nat>, at: nat, len: nat)
    requires forall a :: at <= a < at + len ==> a in keys
    ensures keys + AddressRange(at, len) == keys
  {
  }

  lemma SourceUntouched(p: Process, q: Process, k: nat, place: nat, done: nat, len: nat, src: nat)
    requires CopiedUpTo(p, q, k, place, done) && done <= k + len && (place + len <= k || k + len <= place)
    requires place <= src < place + len && src in p.mem
    ensures src in q.mem && q.mem[src] == p.mem[src]
  {
  }

  // The address space once the pages are at place and an empty mapping is at k.
  ghost function Emptied(p: Process, k: nat, place: nat, len: nat, perms: set<Protection>): Process
    requires CanMove(MapAnonymous(p, place, len, {}), k, place, len)
  {
    MapAnonymous(Move(MapAnonymous(p, place, len, {}), k, place, len), k, len, perms)
  }

  // The cell of one address once region k is emptied: at place the old image, at k nothing yet.
  ghost predicate EmptiedAt(p: Process, e: Process, k: nat, place: nat, len: nat, a: nat) {
    && (a in e.mem <==> a in p.mem || place <= a < place + len)
    && (place <= a < place + len ==> k + (a - place) in p.mem && e.mem[a] == p.mem[k + (a - place)])
    && (a in p.mem && !(place <= a < place + len) && !(k <= a < k + len) ==> e.mem[a] == p.mem[a])
  }

  lemma EmptiedCell(p: Process, k: nat, place: nat, len: nat, perms: set<Protection>, a: nat)
    requires Fresh(p, place, len) && 0 < len && forall a :: k <= a < k + len ==> a in p.mem
    requires CanMove(MapAnonymous(p, place, len, {}), k, place, len)
    ensures EmptiedAt(p, Emptied(p, k, place, len, perms), k, place, len, a)
  {
  }

  lemma EmptiedMappings(p: Process, k: nat, place: nat, len: nat, perms: set<Protection>)
    requires Fresh(p, place, len) && k in p.vmas && p.vmas[k].end == k + len && 0 < len
    requires forall a :: k <= a < k + len ==> a in p.mem
    requires CanMove(MapAnonymous(p, place, len, {}), k, place, len)
    ensures Emptied(p, k, place, len, perms).vmas == BackedUp(p, k, place, len, perms).vmas
    ensures place + len <= k || k + len <= place
  {
  }

  ghost predicate SameCell(m: map<nat, Cell>, n: map<nat, Cell>, a: nat) {
    (a in m <==> a in n) && (a in m ==> m[a] == n[a])
  }

  lemma SameCells(m: map<nat, Cell>, n: map<nat, Cell>)
    requires forall a: nat :: SameCell(m, n, a)
    ensures m == n
  {
    assert forall a: nat {:trigger a in m} {:trigger a in n} :: SameCell(m, n, a);
  }

  lemma CopiedOverEmptied(p: Process, e: Process, q: Process, k: nat, place: nat, len: nat, perms: set<Protection>, a: nat)
    requires (place + len <= k || k + len <= place) && k in p.vmas && forall a :: k <= a < k + len ==> a in p.mem
    requires EmptiedAt(p, e, k, place, len, a)
    requires k <= a < k + len ==> EmptiedAt(p, e, k, place, len, place + (a - k))
    requires CopiedUpTo(e, q, k, place, k + len)
    ensures SameCell(q.mem, BackedUp(p, k, place, len, perms).mem, a)
  {
  }

  lemma CopiedCell(p: Process, q: Process, k: nat, place: nat, len: nat, perms: set<Protection>, a: nat)
    requires Fresh(p, place, len) && k in p.vmas && p.vmas[k].end == k + len && 0 < len
    requires forall a :: k <= a < k + len ==> a in p.mem
    requires CanMove(MapAnonymous(p, place, len, {}), k, place, len)
    requires CopiedUpTo(Emptied(p, k, place, len, perms), q, k, place, k + len)
    ensures SameCell(q.mem, BackedUp(p, k, place, len, perms).mem, a)
  {
    MovedApart(p, k, place, len);
    forall x: nat
      ensures EmptiedAt(p, Emptied(p, k, place, len, perms), k, place, len, x)
    {
      EmptiedCell(p, k, place, len, perms, x);
    }
    CopiedOverAll(p, Emptied(p, k, place, len, perms), q, k, place, len, perms, a);
  }

  lemma MovedApart(p: Process, k: nat, place: nat, len: nat)
    requires CanMove(MapAnonymous(p, place, len, {}), k, place, len)
    ensures place + len <= k || k + len <= place
  {
  }

  lemma CopiedOverAll(p: Process, e: Process, q: Process, k: nat, place: nat, len: nat, perms: set<Protection>, a: nat)
    requires (place + len <= k || k + len <= place) && k in p.vmas && forall a :: k <= a < k + len ==> a in p.mem
    requires forall x: nat {:trigger EmptiedAt(p, e, k, place, len, x)} :: EmptiedAt(p, e, k, place, len, x)
    requires CopiedUpTo(e, q, k, place, k + len)
    ensures SameCell(q.mem, BackedUp(p, k, place, len, perms).mem, a)
  {
    assert EmptiedAt(p, e, k, place, len, a);
    if k <= a < k + len {
      assert EmptiedAt(p, e, k, place, len, place + (a - k));
    }
    CopiedOverEmptied(p, e, q, k, place, len, perms, a);
  }

  lemma CopyIsBackedUp(p: Process, q: Process, k: nat, place: nat, len: nat, perms: set<Protection>)
    requires Fresh(p, place, len) && k in p.vmas && p.vmas[k].end == k + len && 0 < len
    requires forall a :: k <= a < k + len ==> a in p.mem
    requires CanMove(MapAnonymous(p, place, len, {}), k, place, len)
    requires CopiedUpTo(Emptied(p, k, place, len, perms), q, k, place, k + len)
    ensures q == BackedUp(p, k, place, len, perms)
  {
    EmptiedMappings(p, k, place, len, perms);
    forall a: nat
      ensures SameCell(q.mem, BackedUp(p, k, place, len, perms).mem, a)
    {
      CopiedCell(p, q, k, place, len, perms, a);
    }
    SameCells(q.mem, BackedUp(p, k, place, len, perms).mem);
  }

  // Whether or not MREMAP_DONTUNMAP left a mapping behind, the fixed mapping replaces it.
  lemma EmptiedEitherWay(p: Process, q: Process, k: nat, place: nat, len: nat, perms: set<Protection>)
    requires CanMove(MapAnonymous(p, place, len, {}), k, place, len)
    requires var m := Move(MapAnonymous(p, place, len, {}), k, place, len);
             q == m || exists other :: q == MapAnonymous(m, k, len, other)
    ensures MapAnonymous(q, k, len, perms) == Emptied(p, k, place, len, perms)
    ensures var e := Emptied(p, k, place, len, perms);
            && (forall a :: place <= a < place + len ==> a in e.mem)
            && (forall a :: k <= a < k + len ==> a in e.mem)
  {
    var m := Move(MapAnonymous(p, place, len, {}), k, place, len);
    if q != m {
      var other :| q == MapAnonymous(m, k, len, other);
      RemapTwice(m, k, len, other, perms);
    }
  }

  lemma RemapTwice(p: Process, at: nat, len: nat, perms: set<Protection>, perms': set<Protection>)
    ensures MapAnonymous(MapAnonymous(p, at, len, perms), at, len, perms') == MapAnonymous(p, at, len, perms')
  {
    var q, r := MapAnonymous(MapAnonymous(p, at, len, perms), at, len, perms'), MapAnonymous(p, at, len, perms');
    assert q.vmas == r.vmas;
    assert q.mem.Keys == r.mem.Keys;
    assert q.mem == r.mem;
  }

  // What the first half of DoHook does to the state when nothing fails, call by call.
  ghost predicate MovedAside(p: Process, q: Process, k: nat, place: nat, len: nat, perms: set<Protection>) {
    && Fresh(p, place, len)
    && CanMove(MapAnonymous(p, place, len, {}), k, place, len)
    && CopiedUpTo(Emptied(p, k, place, len, perms), q, k, place, k + len)
  }

  ghost predicate PreparedBy(s: State, t: State, k: nat, place: nat)
    requires k in s.infos && WellFormedMapping(s.infos[k].area)
  {
    var info := s.infos[k];
    if info.isSelf then
      if Write in info.area.perms then t == s
      else
        var perms := info.area.perms + {Write};
        && k in s.process.vmas
        && t == s.(process := Protect(s.process, k, perms),
                   infos := s.infos[k := info.(area := info.area.(perms := perms))])
    else if info.backup == 0 then
      && MovedAside(s.process, t.process, k, place, info.Length(), {Read, Write} + info.area.perms)
      && t == s.(process := t.process, infos := s.infos[k := info.(backup := place)])
    else t == s
  }

  lemma AsideIsTakeBackup(s: State, t: State, k: nat, place: nat)
    requires Sound(s) && k in s.infos && !s.infos[k].isSelf && s.infos[k].backup == 0
    requires PreparedBy(s, t, k, place)
    ensures t == TakeBackup(s, k, place)
  {
    assert RegionSound(s.process, s.infos[k]);
    CopyIsBackedUp(s.process, t.process, k, place, s.infos[k].Length(), {Read, Write} + s.infos[k].area.perms);
  }

  lemma PreparedIsPrepare(s: State, t: State, k: nat, w: Patch, place: nat)
    requires Invariant(s) && Owner(s.infos, w.addr) == Some(k) && k in s.infos && PreparedBy(s, t, k, place)
    ensures CanHook(s, w, place) && t == Prepare(s, k, place)
  {
    if !s.infos[k].isSelf && s.infos[k].backup == 0 {
      AsideIsTakeBackup(s, t, k, place);
    }
  }

  ghost predicate WrittenBy(s: State, t: State, k: nat, w: Patch) {
    k in s.infos && w.addr in s.process.mem && t == WriteSlot(s, k, w)
  }

  ghost predicate FinishedBy(s: State, t: State, k: nat) {
    && k in s.infos
    && if s.infos[k].hooks == map[] && !s.infos[k].isSelf then
         && WellFormedMapping(s.infos[k].area)
         && CanMove(s.process, s.infos[k].backup, k, s.infos[k].Length())
         && t == MovedHome(s, k)
       else t == s
  }

  // DoHook meets its specification, and succeeds exactly when a region holds the address.
  ghost predicate HookedBy(s: State, t: State, w: Patch, place: nat, ok: bool) {
    Invariant(s) ==>
      && CanHook(s, w, place)
      && t == Hook(s, w, place)
      && (ok <==> Owner(s.infos, w.addr).Some?)
  }

  lemma PartsHook(s: State, p: State, t: State, u: State, k: nat, w: Patch, place: nat)
    requires Owner(s.infos, w.addr) == Some(k) && k in s.infos && WellFormedMapping(s.infos[k].area)
    requires PreparedBy(s, p, k, place) && WrittenBy(p, t, k, w) && FinishedBy(t, u, k)
    ensures HookedBy(s, u, w, place, true)
  {
    if Invariant(s) {
      PreparedIsPrepare(s, p, k, w, place);
      PrepareSound(s, k, place);
      PreparedReady(s, k, w.addr, place);
      WriteSound(p, k, w);
      PartsFinish(t, u, k);
    }
  }

  // What DoHook does when none of its calls fails, part by part, in whatever state it finds things.
  ghost predicate DoneBy(s: State, u: State, w: Patch, place: nat, ok: bool) {
    match Owner(s.infos, w.addr)
    case None => u == s && !ok
    case Some(k) =>
      && ok && k in s.infos && WellFormedMapping(s.infos[k].area)
      && exists p, t :: PartsOf(s, p, t, u, k, w, place)
  }

  ghost predicate PartsOf(s: State, p: State, t: State, u: State, k: nat, w: Patch, place: nat)
    requires k in s.infos && WellFormedMapping(s.infos[k].area)
  {
    PreparedBy(s, p, k, place) && WrittenBy(p, t, k, w) && FinishedBy(t, u, k)
  }

  lemma DoneIsHooked(s: State, u: State, w: Patch, place: nat, ok: bool)
    requires DoneBy(s, u, w, place, ok)
    ensures HookedBy(s, u, w, place, ok)
  {
    var owner := Owner(s.infos, w.addr);
    if owner.Some? {
      var p, t :| PartsOf(s, p, t, u, owner.value, w, place);
      PartsHook(s, p, t, u, owner.value, w, place);
    }
  }

  // What is left of it when one of them fails: nothing but the slot's own region and the caller's
  // pointer has been touched, and DoHook returns true only for the library's own pages.
  ghost predicate FailedBy(s: State, u: State, w: Patch, ok: bool) {
    match Owner(s.infos, w.addr)
    case None => false
    case Some(k) => SamePart(s, u, k) && SavedAt(s.saved, u.saved, w.saveTo) && (ok ==> s.infos[k].isSelf)
  }

  ghost predicate SavedAt(m: map<nat, nat>, n: map<nat, nat>, p: nat) {
    n == m || (p != 0 && p in n && n == m[p := n[p]])
  }

  lemma SameFinish(s: State, k: nat)
    requires k in s.infos
    ensures SamePart(s, s, k) && SameIdentities(s.infos, s.infos)
    ensures s.infos[k].hooks != map[] || s.infos[k].isSelf ==> FinishedBy(s, s, k)
  {
  }

  lemma MovedPart(s: State, k: nat)
    requires k in s.infos && WellFormedMapping(s.infos[k].area) && s.infos[k].hooks == map[] && !s.infos[k].isSelf
    requires CanMove(s.process, s.infos[k].backup, k, s.infos[k].Length())
    ensures SamePart(s, MovedHome(s, k), k) && FinishedBy(s, MovedHome(s, k), k)
  {
  }

  lemma SamePartChain(s: State, t: State, u: State, k: nat)
    requires SamePart(s, t, k) && SamePart(t, u, k)
    ensures SamePart(s, u, k)
  {
  }

  lemma PartsFinish(t: State, u: State, k: nat)
    requires Sound(t) && Ready(t, k) && FinishedBy(t, u, k)
    ensures u == Finish(t, k)
  {
    if t.infos[k].hooks == map[] && !t.infos[k].isSelf {
      FinishedDrops(t, u, k);
    }
  }

  lemma FinishedDrops(t: State, u: State, k: nat)
    requires Sound(t) && Backed(t.infos, k) && FinishedBy(t, u, k)
    requires t.infos[k].hooks == map[] && !t.infos[k].isSelf
    ensures u == DropBackup(t, k)
  {
    BackupMovesHome(t, k);
  }

  // ----- the manager -----

  // What holds of the regions even when system calls fail: without a backup, no records.
  ghost predicate GoodRegions(infos: Regions) {
    && WellFormedRegions(infos)
    && forall k {:trigger k in infos} :: k in infos && infos[k].backup == 0 && !infos[k].isSelf ==>
         infos[k].hooks == map[]
  }

  lemma GoodWithBackup(infos: Regions, k: nat, place: nat)
    requires GoodRegions(infos) && k in infos && infos[k].hooks == map[]
    ensures GoodRegions(infos[k := infos[k].(backup := place)])
  {
  }

  lemma RecordsKeep(infos: Regions, k: nat, hooks: map<nat, nat>)
    requires GoodRegions(infos) && k in infos && (infos[k].isSelf || infos[k].backup != 0)
    ensures GoodRegions(infos[k := infos[k].(hooks := hooks)])
    ensures SameIdentities(infos, infos[k := infos[k].(hooks := hooks)])
  {
  }

  lemma BackupGone(infos: Regions, k: nat)
    requires GoodRegions(infos) && k in infos && infos[k].hooks == map[]
    ensures GoodRegions(infos[k := infos[k].(backup := 0)])
    ensures SameIdentities(infos, infos[k := infos[k].(backup := 0)])
  {
  }

  class Manager {
    const os: Memory
    const images: Images
    const me: FileId
    var infos: Regions
    var queue: seq<RegisterInfo>
    var saved: map<nat, nat>

    ghost predicate Valid()
      reads this
    {
      GoodRegions(infos) && AllUsable(images)
    }

    ghost function Abstract(): State
      reads this, os
    {
      State(os.process, infos, queue, saved, me)
    }

    ghost function TheSlots(): Slots {
      (k, name) => SlotsAt(images, k, name)
    }

    constructor (os: Memory, images: Images, me: FileId)
      requires AllUsable(images)
      ensures Valid() && this.os == os && this.images == images && this.me == me
      ensures infos == map[] && queue == [] && saved == map[]
    {
      this.os, this.images, this.me := os, images, me;
      infos, queue, saved := map[], [], map[];
    }

    // The page by page loop of DoHook.
    method CopyImage(k: nat, place: nat, len: nat)
      requires Paged(len)
      requires place + len <= k || k + len <= place
      requires forall a :: place <= a < place + len ==> a in os.process.mem
      requires forall a :: k <= a < k + len ==> a in os.process.mem
      modifies os
      ensures os.failures == old(os.failures)
      ensures CopiedUpTo(old(os.process), os.process, k, place, k + len)
    {
      var src, dest := place, k;
      ghost var rest := len;
      while dest < k + len
        invariant k <= dest <= k + len && src == place + (dest - k)
        invariant rest == k + len - dest && Paged(rest)
        invariant os.failures == old(os.failures)
        invariant CopiedUpTo(old(os.process), os.process, k, place, dest)
      {
        ghost var before := os.process;
        rest := OnePage(rest);
        PageThere(old(os.process), before, k, place, dest, len);
        os.CopyPage(dest, src);
        PageCopied(old(os.process), before, os.process, k, place, dest, src, len);
        src, dest := src + PAGE_SIZE, dest + PAGE_SIZE;
      }
    }

    // The system calls that move the pages of [k, k + len) aside and leave a copy.
    method MoveAside(k: nat, len: nat, perms: set<Protection>) returns (r: Option<nat>)
      requires Paged(len)
      modifies os
      ensures r.None? ==> os.failures > old(os.failures)
      ensures r.Some? ==> os.failures == old(os.failures)
      ensures r.Some? ==> MovedAside(old(os.process), os.process, k, r.value, len, perms)
    {
      ghost var p := os.process;
      var backupAddr := os.MapSomewhere(len, {});
      if backupAddr.None? {
        return None;
      }
      var place := backupAddr.value;
      var moved := os.RemapKeeping(k, place, len);
      if !moved {
        moved := os.Remap(k, place, len);
        if !moved {
          return None;
        }
      }
      ghost var q := os.process;
      var mapped := os.MapFixed(k, len, perms);
      if !mapped {
        return None;
      }
      EmptiedEitherWay(p, q, k, place, len, perms);
      CopyImage(k, place, len);
      return backupAddr;
    }

    // A region gets its backup.
    method BackUp(k: nat) returns (ok: bool, ghost place: nat)
      requires Valid() && k in infos && infos[k].backup == 0 && !infos[k].isSelf
      modifies this, os
      ensures Valid() && queue == old(queue) && saved == old(saved)
      ensures !ok ==> infos == old(infos) && os.failures > old(os.failures)
      ensures ok ==> os.failures == old(os.failures) && place != 0
      ensures ok ==> infos == old(infos)[k := old(infos)[k].(backup := place)]
      ensures ok ==> MovedAside(old(os.process), os.process, k, place, old(infos)[k].Length(),
                                {Read, Write} + old(infos)[k].area.perms)
    {
      var info := infos[k];
      var backupAddr := MoveAside(k, info.Length(), {Read, Write} + info.area.perms);
      if backupAddr.None? {
        return false, 0;
      }
      place := backupAddr.value;
      GoodWithBackup(infos, k, place);
      infos := infos[k := info.(backup := backupAddr.value)];
      ok := true;
    }

    // The library's own pages are always dirty: they only have to be writable. A refusal is ignored.
    method MakeOwnWritable(k: nat)
      requires Valid() && k in infos && infos[k].isSelf && Write !in infos[k].area.perms
      modifies this, os
      ensures Valid() && queue == old(queue) && saved == old(saved)
      ensures var info := old(infos)[k];
              infos == old(infos)[k := info.(area := info.area.(perms := info.area.perms + {Write}))]
      ensures os.failures >= old(os.failures)
      ensures os.failures == old(os.failures) ==> k in old(os.process).vmas
      ensures os.failures == old(os.failures) ==>
                os.process == Protect(old(os.process), k, old(infos)[k].area.perms + {Write})
    {
      var info := infos[k];
      var perms := info.area.perms + {Write};
      infos := infos[k := info.(area := info.area.(perms := perms))];
      var _ := os.Mprotect(k, perms);
    }

    // The first half of DoHook: what a region needs before the store.
    method PrepareRegion(k: nat) returns (ok: bool, ghost place: nat)
      requires Valid() && k in infos
      modifies this, os
      ensures Valid() && queue == old(queue) && saved == old(saved)
      ensures SameIdentities(old(infos), infos)
      ensures ok ==> infos[k].isSelf || infos[k].backup != 0
      ensures os.failures >= old(os.failures) && (!ok ==> os.failures > old(os.failures))
      ensures SamePart(old(Abstract()), Abstract(), k)
      ensures os.failures == old(os.failures) ==> ok && PreparedBy(old(Abstract()), Abstract(), k, place)
      ensures ok && os.failures > old(os.failures) ==> old(infos)[k].isSelf
    {
      ok, place := true, 0;
      if infos[k].backup == 0 && !infos[k].isSelf {
        ok, place := BackUp(k);
        if !ok {
          return;
        }
      }
      if infos[k].isSelf && Write !in infos[k].area.perms {
        MakeOwnWritable(k);
      }
    }

    // The record of a slot: new, gone, or as it was.
    method Record(hooks: map<nat, nat>, addr: nat, callback: nat, theBackup: nat) returns (r: map<nat, nat>)
      ensures r == Toggle(hooks, addr, theBackup, callback)
    {
      r := hooks;
      if addr in hooks {
        if hooks[addr] == callback {
          r := hooks - {addr};
        }
      } else {
        r := hooks[addr := theBackup];
      }
    }

    // The store, the caller's backup pointer and the record.
    method WriteRegion(k: nat, addr: nat, callback: nat, backup: nat) returns (ok: bool)
      requires Valid() && k in infos && (infos[k].isSelf || infos[k].backup != 0)
      modifies this, os
      ensures Valid() && queue == old(queue)
      ensures SameIdentities(old(infos), infos)
      ensures os.failures >= old(os.failures) && (!ok ==> os.failures > old(os.failures))
      ensures ok ==> infos[k].isSelf || infos[k].backup != 0
      ensures SamePart(old(Abstract()), Abstract(), k) && SavedAt(old(saved), saved, backup)
      ensures ok ==> os.failures == old(os.failures)
      ensures os.failures == old(os.failures) ==>
                ok && WrittenBy(old(Abstract()), Abstract(), k, Patch(addr, callback, backup))
    {
      var info := infos[k];
      var word := os.Load(addr);
      if word.None? {
        return false;
      }
      var theBackup := word.value;
      if theBackup != callback {
        os.Put(addr, callback);
        if backup != 0 {
          saved := saved[backup := theBackup];
        }
      }
      var hooks := Record(info.hooks, addr, callback, theBackup);
      RecordsKeep(infos, k, hooks);
      infos := infos[k := info.(hooks := hooks)];
      ok := true;
    }

    // The last part of DoHook: with the last record gone, the original pages come back.
    method FinishRegion(k: nat) returns (ok: bool)
      requires Valid() && k in infos
      modifies this, os
      ensures Valid() && queue == old(queue) && saved == old(saved)
      ensures SameIdentities(old(infos), infos)
      ensures os.failures >= old(os.failures) && (ok <==> os.failures == old(os.failures))
      ensures SamePart(old(Abstract()), Abstract(), k)
      ensures os.failures == old(os.failures) ==> ok && FinishedBy(old(Abstract()), Abstract(), k)
    {
      ghost var s := Abstract();
      var info := infos[k];
      if info.hooks == map[] && !info.isSelf {
        var moved := os.Remap(info.backup, k, info.Length());
        if !moved {
          SameFinish(s, k);
          return false;
        }
        BackupGone(infos, k);
        infos := infos[k := info.(backup := 0)];
        MovedPart(s, k);
      } else {
        SameFinish(s, k);
      }
      ok := true;
    }

    /** Patch the slot at addr. When no call fails, exactly the word at addr changes for readers; when one
        does, nothing but the slot's own region and the caller's pointer is touched. */
    method DoHook(addr: nat, callback: nat, backup: nat) returns (ok: bool, ghost place: nat)
      requires Valid()
      modifies this, os
      ensures Valid() && queue == old(queue)
      ensures SameIdentities(old(infos), infos)
      ensures os.failures >= old(os.failures)
      ensures os.failures == old(os.failures) ==>
                && DoneBy(old(Abstract()), Abstract(), Patch(addr, callback, backup), place, ok)
                && HookedBy(old(Abstract()), Abstract(), Patch(addr, callback, backup), place, ok)
      ensures os.failures > old(os.failures) ==> FailedBy(old(Abstract()), Abstract(), Patch(addr, callback, backup), ok)
    {
      ghost var s, w := Abstract(), Patch(addr, callback, backup);
      place := 0;
      var floor := LowerBound(infos.Keys, addr);
      if floor.None? || infos[floor.value].area.end <= addr {
        DoneIsHooked(s, s, w, place, false);
        return false, 0;
      }
      var k := floor.value;
      ok, place := PrepareRegion(k);
      if !ok {
        return;
      }
      ghost var p := Abstract();
      ok := WriteRegion(k, addr, callback, backup);
      ghost var t := Abstract();
      SamePartChain(s, p, t, k);
      if !ok {
        return;
      }
      ok := FinishRegion(k);
      SamePartChain(s, t, Abstract(), k);
      if os.failures == old(os.failures) {
        assert PartsOf(s, p, t, Abstract(), k, w, place);
        DoneIsHooked(s, Abstract(), w, place, ok);
      }
    }

    /** Patch what the requests ask for, region by region, and return the requests nobody took. */
    method DoHookList(requests: seq<RegisterInfo>) returns (res: bool, left: seq<RegisterInfo>, ghost steps: seq<Patched>)
      requires Valid()
      modifies this, os
      ensures Valid() && queue == old(queue)
      ensures left == CommitLeftover(old(infos), requests)
      ensures os.failures == old(os.failures) + Failed(steps)
      ensures Leads(old(Abstract()), Abstract(), steps, CommitPlan(old(infos), requests, TheSlots()), res)
    {
      ghost var s := Abstract();
      var ks := Ascending(infos.Keys);
      ghost var lefts, plans := Schedule(infos, ks, requests, TheSlots());
      res, left, steps := true, requests, [];
      var i := 0;
      LeadsNowhere(s);
      while i < |ks|
        invariant 0 <= i <= |ks|
        invariant Valid() && queue == old(queue) && SameIdentities(s.infos, infos)
        invariant left == lefts[i]
        invariant os.failures == old(os.failures) + Failed(steps)
        invariant Leads(s, Abstract(), steps, plans[i], res)
      {
        assert RegionTurn(s.infos, ks, TheSlots(), lefts, plans, i);
        res, left, steps := HookRegion(ks[i], left, s, steps, plans[i], res);
        i := i + 1;
      }
    }

    // The inner loops of DoHook over the requests: region k takes its own and leaves the others.
    method HookRegion(k: nat, requests: seq<RegisterInfo>, ghost s: State, ghost before: seq<Patched>,
                      ghost ws: seq<Patch>, resBefore: bool)
      returns (res: bool, left: seq<RegisterInfo>, ghost steps: seq<Patched>)
      requires Valid() && k in infos && k in s.infos && SameIdentities(s.infos, infos)
      requires Leads(s, Abstract(), before, ws, resBefore)
      modifies this, os
      ensures Valid() && queue == old(queue) && SameIdentities(s.infos, infos)
      ensures left == LeftBy(s.infos[k], requests)
      ensures os.failures + Failed(before) == old(os.failures) + Failed(steps)
      ensures Leads(s, Abstract(), steps, ws + RegionPatches(k, TakenFrom(s.infos[k], requests), TheSlots()), res)
    {
      ghost var info := s.infos[k];
      ghost var lefts, plans := RegionSchedule(k, info, requests, TheSlots(), ws);
      res, left, steps := resBefore, requests, before;
      var j := 0;
      ghost var n := 0;
      while j < |left|
        invariant n <= |requests| && 0 <= j <= |left|
        invariant Valid() && queue == old(queue) && SameIdentities(s.infos, infos)
        invariant Passed(left, j, lefts[n], requests, n)
        invariant os.failures + Failed(before) == old(os.failures) + Failed(steps)
        invariant Leads(s, Abstract(), steps, plans[n], res)
        decreases |requests| - n
      {
        PassNext(left, j, lefts[n], requests, n);
        TakeTurn(k, info, requests, TheSlots(), lefts, plans, n);
        PassOn(info, left, j, lefts, requests, n);
        res, left, j, steps := OfferRequest(k, left, j, s, steps, plans[n], plans[n + 1], res);
        n := n + 1;
      }
      PassedAll(left, j, lefts[n], requests, n);
    }

    // The body of that loop: request j is patched and erased from the list, or passed over.
    method OfferRequest(k: nat, requests: seq<RegisterInfo>, j: nat, ghost s: State, ghost before: seq<Patched>,
                        ghost ws: seq<Patch>, ghost more: seq<Patch>, resBefore: bool)
      returns (res: bool, left: seq<RegisterInfo>, next: nat, ghost steps: seq<Patched>)
      requires Valid() && k in infos && k in s.infos && SameIdentities(s.infos, infos) && j < |requests|
      requires Leads(s, Abstract(), before, ws, resBefore)
      requires more == if Takes(s.infos[k], requests[j])
                       then ws + PatchesFor(SlotsAt(images, k, requests[j].symbol), requests[j]) else ws
      modifies this, os
      ensures Valid() && queue == old(queue) && SameIdentities(s.infos, infos)
      ensures (left, next) == Offered(s.infos[k], requests, j)
      ensures os.failures + Failed(before) == old(os.failures) + Failed(steps)
      ensures Leads(s, Abstract(), steps, more, res)
    {
      var reg := requests[j];
      SameIdentityTakes(s.infos[k], infos[k], reg);
      if Takes(infos[k], reg) {
        res, steps := HookSymbol(k, reg, s, before, ws, more, resBefore);
        left, next := requests[..j] + requests[j + 1..], j;
      } else {
        res, steps := resBefore, before;
        left, next := requests, j + 1;
      }
    }

    // Every slot of one symbol, none skipped after a failure.
    method HookSymbol(k: nat, reg: RegisterInfo, ghost s: State, ghost before: seq<Patched>,
                      ghost ws: seq<Patch>, ghost more: seq<Patch>, resBefore: bool)
      returns (res: bool, ghost steps: seq<Patched>)
      requires Valid() && SameIdentities(s.infos, infos) && Leads(s, Abstract(), before, ws, resBefore)
      requires more == ws + PatchesFor(SlotsAt(images, k, reg.symbol), reg)
      modifies this, os
      ensures Valid() && queue == old(queue) && SameIdentities(s.infos, infos)
      ensures os.failures + Failed(before) == old(os.failures) + Failed(steps)
      ensures Leads(s, Abstract(), steps, more, res)
    {
      var addrs := FindSlots(images, k, reg.symbol);
      res, steps := HookSlots(addrs, reg, s, before, ws, resBefore);
    }

    method HookSlots(addrs: seq<nat>, reg: RegisterInfo, ghost s: State, ghost before: seq<Patched>, ghost ws: seq<Patch>, resBefore: bool)
      returns (res: bool, ghost steps: seq<Patched>)
      requires Valid() && SameIdentities(s.infos, infos) && Leads(s, Abstract(), before, ws, resBefore)
      modifies this, os
      ensures Valid() && queue == old(queue) && SameIdentities(s.infos, infos)
      ensures os.failures + Failed(before) == old(os.failures) + Failed(steps)
      ensures Leads(s, Abstract(), steps, ws + PatchesFor(addrs, reg), res)
    {
      ghost var all := PatchesFor(addrs, reg);
      res, steps := resBefore, before;
      var m := 0;
      assert ws + all[..0] == ws;
      while m < |addrs|
        invariant 0 <= m <= |addrs|
        invariant Valid() && queue == old(queue) && SameIdentities(s.infos, infos)
        invariant os.failures + Failed(before) == old(os.failures) + Failed(steps)
        invariant Leads(s, Abstract(), steps, ws + all[..m], res)
      {
        res, steps := HookSlot(addrs[m], reg, s, steps, ws, all, m, res);
        m := m + 1;
      }
      assert all[..|addrs|] == all;
    }

    // The body of that loop: the result is false from the first failure on.
    method HookSlot(addr: nat, reg: RegisterInfo, ghost s: State, ghost before: seq<Patched>, ghost ws: seq<Patch>,
                    ghost all: seq<Patch>, ghost m: nat, resBefore: bool)
      returns (res: bool, ghost steps: seq<Patched>)
      requires Valid() && SameIdentities(s.infos, infos)
      requires m < |all| && all[m] == Patch(addr, reg.callback, reg.backup)
      requires Leads(s, Abstract(), before, ws + all[..m], resBefore)
      modifies this, os
      ensures Valid() && queue == old(queue) && SameIdentities(s.infos, infos)
      ensures os.failures + Failed(before) == old(os.failures) + Failed(steps)
      ensures Leads(s, Abstract(), steps, ws + all[..m + 1], res)
    {
      ghost var t := Abstract();
      var ok, place := DoHook(addr, reg.callback, reg.backup);
      SameIdentitiesChain(s.infos, t.infos, infos);
      ghost var step := Patched(t, Abstract(), all[m], place, ok, os.failures - old(os.failures));
      SlotPatched(s, before, ws, all, m, resBefore, step);
      steps := before + [step];
      res := ok && resBefore;
    }

    // RegisterHook(dev, inode, symbol, callback, backup): any offset.
    method RegisterHook(dev: nat, inode: nat, symbol: Name, callback: nat, backup: nat) returns (ok: bool)
      requires Valid()
      modifies this
      ensures Valid() && infos == old(infos) && saved == old(saved)
      ensures ok <==> dev != 0 && inode != 0 && symbol != [] && callback != 0
      ensures ok <==> Acceptable(RegisterInfo(dev, inode, 0, UINTPTR_MAX, symbol, callback, backup))
      ensures queue == if ok then old(queue) + [RegisterInfo(dev, inode, 0, 0xffff_ffff_ffff_ffff, symbol, callback, backup)]
                       else old(queue)
    {
      if dev == 0 || inode == 0 || symbol == [] || callback == 0 {
        return false;
      }
      queue := queue + [RegisterInfo(dev, inode, 0, UINTPTR_MAX, symbol, callback, backup)];
      return true;
    }

    // RegisterHook with the offset range of a library inside an archive; the end wraps around.
    method RegisterHookInRange(dev: nat, inode: nat, offset: nat, size: nat, symbol: Name, callback: nat, backup: nat)
      returns (ok: bool)
      requires Valid()
      modifies this
      ensures Valid() && infos == old(infos) && saved == old(saved)
      ensures ok <==> dev != 0 && inode != 0 && symbol != [] && callback != 0
      ensures var reg := RegisterInfo(dev, inode, offset, (offset + size) % 0x1_0000_0000_0000_0000, symbol, callback, backup);
              (ok <==> Acceptable(reg)) && queue == if ok then old(queue) + [reg] else old(queue)
    {
      if dev == 0 || inode == 0 || symbol == [] || callback == 0 {
        return false;
      }
      queue := queue + [RegisterInfo(dev, inode, offset, (offset + size) % (UINTPTR_MAX + 1), symbol, callback, backup)];
      return true;
    }

    // The first half of CommitHook: scan, filter, merge. Returns whether there was anything to scan.
    method Refresh(maps: seq<MapInfo>) returns (found: bool)
      requires Valid() && DistinctStarts(maps) && forall i :: 0 <= i < |maps| ==> WellFormedMapping(maps[i])
      modifies this
      ensures Valid() && queue == old(queue) && saved == old(saved)
      ensures !found ==> infos == old(infos)
      ensures found <==> AnyCandidate(maps)
      ensures RefreshedBy(old(Abstract()), Abstract(), maps, found)
    {
      ghost var s := Abstract();
      var newInfos := ScanHookInfo(maps, me);
      ScanFinds(newInfos, maps, me);
      if newInfos == map[] {
        ScanRefreshes(s, newInfos, maps, infos, false);
        return false;
      }
      var kept := Filter(newInfos, queue);
      var merged := Merge(kept, infos);
      ScanRefreshes(s, newInfos, maps, merged, true);
      ScannedAreWellFormed(newInfos, maps, me);
      MergedAreGood(merged, newInfos, kept, queue, infos);
      infos := merged;
      return true;
    }

    /** Commit the queued requests, given a listing of the mappings: r is the state after the scan, and
        steps are the slots patched then, whether or not their calls failed. */
    method CommitHook(maps: seq<MapInfo>) returns (ok: bool, ghost calls: seq<Call>, ghost r: State, ghost steps: seq<Patched>)
      requires Valid() && DistinctStarts(maps) && forall i :: 0 <= i < |maps| ==> WellFormedMapping(maps[i])
      modifies this, os
      ensures Valid()
      ensures os.failures == old(os.failures) + Failed(steps)
      ensures TriedBy(old(Abstract()), r, Abstract(), steps, maps, TheSlots(), ok)
      ensures os.failures == old(os.failures) && Lists(maps, old(os.process).vmas) ==>
                && CommittedBy(old(Abstract()), Abstract(), TheSlots(), calls, ok)
                && CommitSeen(old(Abstract()), Abstract(), images, ok)
    {
      ghost var s := Abstract();
      calls, r, steps := [], s, [];
      if queue == [] {
        SkippedCommit(s, TheSlots(), true);
        CommittedIsSeen(s, s, TheSlots(), images, [], true);
        ok := true;
        return;
      }
      var found := Refresh(maps);
      if !found {
        if Lists(maps, s.process.vmas) {
          SkippedScan(s, maps, TheSlots());
          CommittedIsSeen(s, s, TheSlots(), images, [], false);
        }
        ok := false;
        return;
      }
      r := Abstract();
      ok, steps := HookQueued();
      calls := CallsOf(steps);
      if os.failures == old(os.failures) && Lists(maps, s.process.vmas) {
        HookedCommit(s, r, Abstract(), maps, TheSlots(), steps, ok);
        CommittedIsSeen(s, Abstract(), TheSlots(), images, calls, ok);
      }
    }

    // The second half: the queue keeps what nobody takes.
    method HookQueued() returns (ok: bool, ghost steps: seq<Patched>)
      requires Valid()
      modifies this, os
      ensures Valid()
      ensures os.failures == old(os.failures) + Failed(steps)
      ensures QueueHooked(old(Abstract()), Abstract(), steps, TheSlots(), ok)
    {
      var left;
      ok, left, steps := DoHookList(queue);
      queue := left;
    }

    /** Move the backups home and write the hooks onto the original pages. The result is true exactly
        when no mremap failed; a refused mprotect does not show, though its hooks are gone. */
    method InvalidateBackup() returns (ok: bool, ghost turns: seq<Turn>)
      requires Valid()
      modifies this, os
      ensures Valid() && queue == old(queue) && saved == old(saved) && infos.Keys == old(infos).Keys
      ensures EveryRegion(old(infos), turns)
      ensures ok <==> os.lostMoves == old(os.lostMoves)
      ensures os.failures == old(os.failures) ==> ok && AllGranted(turns)
      ensures InvalidatedBy(old(Abstract()), Abstract(), turns, ok)
      ensures os.failures == old(os.failures) && Invariant(old(Abstract())) ==> BroughtBack(old(Abstract()), Abstract())
    {
      ghost var s := Abstract();
      ok, turns := true, [];
      var todo := infos.Keys;
      NothingInvalidated(s);
      while todo != {}
        invariant todo <= infos.Keys == s.infos.Keys
        invariant Valid() && queue == old(queue) && saved == old(saved)
        invariant InTurn(s.infos, turns, todo)
        invariant os.failures >= old(os.failures) && os.lostMoves >= old(os.lostMoves)
        invariant ok <==> os.lostMoves == old(os.lostMoves)
        invariant os.failures == old(os.failures) ==> ok && AllGranted(turns)
        invariant InvalidatedBy(s, Abstract(), turns, ok)
        decreases todo
      {
        var k :| k in todo;
        ghost var t := Abstract();
        var moved, answer := InvalidateRegion(k);
        OneMoreInvalidated(s, t, Abstract(), turns, k, answer, ok, moved);
        NextInTurn(s.infos, turns, todo, k, answer);
        GrantedOneMore(turns, Turn(k, answer));
        ok := ok && moved;
        turns := turns + [Turn(k, answer)];
        todo := todo - {k};
      }
      AllInTurn(s.infos, turns);
      if os.failures == old(os.failures) && Invariant(s) {
        GrantedIsBroughtBack(s, turns);
      }
    }

    // The body of InvalidateBackup's loop.
    method InvalidateRegion(k: nat) returns (moved: bool, ghost answer: Answer)
      requires Valid() && k in infos
      modifies this, os
      ensures Valid() && queue == old(queue) && saved == old(saved)
      ensures infos.Keys == old(infos).Keys
      ensures os.failures >= old(os.failures) && os.lostMoves >= old(os.lostMoves)
      ensures moved <==> os.lostMoves == old(os.lostMoves)
      ensures os.failures == old(os.failures) ==> moved && answer == Granted(true)
      ensures moved ==> RegionInvalidatedBy(old(Abstract()), Abstract(), k, answer)
    {
      var info := infos[k];
      if info.backup == 0 {
        return true, Granted(true);
      }
      moved, answer := BringHome(info);
      if moved {
        infos := infos[k := info.(hooks := map[], backup := 0)];
      } else {
        infos := infos[k := info.(hooks := map[])];
      }
    }

    // A backup goes home and gets the words that its hooked slots have now. When the pages cannot be
    // made writable the words are not written, and nothing tells the caller.
    method BringHome(info: HookInfo) returns (moved: bool, ghost answer: Answer)
      requires WellFormedMapping(info.area)
      modifies os
      ensures os.failures >= old(os.failures) && os.lostMoves >= old(os.lostMoves)
      ensures moved <==> os.lostMoves == old(os.lostMoves)
      ensures os.failures == old(os.failures) ==> moved && answer == Granted(true)
      ensures moved && HooksMapped(old(os.process), info) ==> BroughtHome(old(os.process), os.process, info, answer)
    {
      answer := Refused;
      var words := ReadWords(info.hooks);
      moved := os.Remap(info.backup, info.area.start, info.area.end - info.area.start);
      if !moved {
        return;
      }
      var writable := os.Mprotect(info.area.start, {Write});
      if writable {
        WriteWords(words);
        var restored := os.Mprotect(info.area.start, info.area.perms);
        answer := Granted(restored);
      }
    }

    // The current words of the hooked slots, in place of the recorded ones.
    method ReadWords(hooks: map<nat, nat>) returns (words: map<nat, nat>)
      modifies os
      ensures os.process == old(os.process) && os.lostMoves == old(os.lostMoves)
      ensures os.failures >= old(os.failures)
      ensures (forall a :: a in hooks ==> a in os.process.mem) ==>
                IsReading(words, hooks, os.process.mem)
    {
      words := map[];
      var todo := hooks.Keys;
      while todo != {}
        invariant todo <= hooks.Keys
        invariant os.process == old(os.process) && os.lostMoves == old(os.lostMoves)
        invariant os.failures >= old(os.failures)
        invariant forall a :: a in words ==> a in os.process.mem && words[a] == os.process.mem[a].word
        invariant (forall a :: a in hooks ==> a in os.process.mem) ==> words.Keys == hooks.Keys - todo
        decreases todo
      {
        var a :| a in todo;
        var word := os.Load(a);
        if word.Some? {
          words := words[a := word.value];
        }
        todo := todo - {a};
      }
    }

    method WriteWords(words: map<nat, nat>)
      modifies os
      ensures os.failures == old(os.failures) && os.lostMoves == old(os.lostMoves)
      ensures os.process == old(os.process).(mem := Poked(old(os.process).mem, words))
    {
      var todo := words.Keys;
      ghost var done: map<nat, nat> := map[];
      PokedNothing(os.process.mem);
      while todo != {}
        invariant todo <= words.Keys && done.Keys == words.Keys - todo
        invariant forall a :: a in done ==> done[a] == words[a]
        invariant os.failures == old(os.failures) && os.lostMoves == old(os.lostMoves)
        invariant os.process == old(os.process).(mem := Poked(old(os.process).mem, done))
        decreases todo
      {
        var a :| a in todo;
        os.Put(a, words[a]);
        PokedOneMore(old(os.process).mem, done, a, words[a]);
        done := done[a := words[a]];
        todo := todo - {a};
      }
      assert done == words;
    }
  }

  // ----- the words written by InvalidateBackup -----

  function Poked(mem: map<nat, Cell>, words: map<nat, nat>): map<nat, Cell> {
    map a | a in mem.Keys + words.Keys :: if a in words then Cell(words[a], true) else mem[a]
  }

  lemma PokedNothing(mem: map<nat, Cell>)
    ensures Poked(mem, map[]) == mem
  {
  }

  lemma PokedOneMore(mem: map<nat, Cell>, words: map<nat, nat>, a: nat, word: nat)
    ensures Poked(mem, words)[a := Cell(word, true)] == Poked(mem, words[a := word])
  {
  }

  ghost predicate IsReading(words: map<nat, nat>, hooks: map<nat, nat>, mem: map<nat, Cell>) {
    words.Keys == hooks.Keys && forall a :: a in hooks ==> a in mem && words[a] == mem[a].word
  }

  ghost predicate HooksMapped(p: Process, info: HookInfo) {
    forall a :: a in info.hooks ==> a in p.mem
  }

  // One backup brought home, call by call.
  ghost predicate BroughtHome(p: Process, q: Process, info: HookInfo, answer: Answer)
    requires WellFormedMapping(info.area)
  {
    var k, len := info.area.start, info.Length();
    && CanMove(p, info.backup, k, len)
    && match answer
       case Refused => q == Move(p, info.backup, k, len)
       case Granted(restored) =>
         exists words {:trigger Poked(Move(p, info.backup, k, len).mem, words)} ::
           IsReading(words, info.hooks, p.mem) &&
           Rewrites(Move(p, info.backup, k, len), q, k, if restored then info.area.perms else {Write}, words)
  }

  ghost predicate Rewrites(home: Process, q: Process, k: nat, perms: set<Protection>, words: map<nat, nat>) {
    && k in home.vmas
    && q.vmas == home.vmas[k := home.vmas[k].(perms := perms)]
    && q.mem == Poked(home.mem, words)
  }

  // ----- from single slots to a whole commit -----

  ghost predicate AllOwned(infos: Regions, ws: seq<Patch>) {
    forall i :: 0 <= i < |ws| ==> Owner(infos, ws[i].addr).Some?
  }

  // One patched slot of a run: the states around it, what DoHook returned, and how many of its calls
  // failed.
  datatype Patched = Patched(before: State, after: State, patch: Patch, place: nat, ok: bool, failed: nat)

  ghost predicate GoodStep(p: Patched) {
    if p.failed == 0 then DoneBy(p.before, p.after, p.patch, p.place, p.ok)
    else FailedBy(p.before, p.after, p.patch, p.ok)
  }

  ghost predicate AllOk(steps: seq<Patched>) {
    forall i :: 0 <= i < |steps| ==> steps[i].ok
  }

  // How many calls failed in all.
  ghost function Failed(steps: seq<Patched>): nat
    decreases |steps|
  {
    if steps == [] then 0 else Failed(Front(steps)) + Last(steps).failed
  }

  // Step i patches ws[i], and starts where the step before it ended.
  ghost predicate StepAt(s: State, steps: seq<Patched>, ws: seq<Patch>, i: nat) {
    && i < |steps| && i < |ws|
    && GoodStep(steps[i])
    && steps[i].patch == ws[i]
    && steps[i].before == EndOf(s, steps[..i])
  }

  ghost function EndOf(s: State, steps: seq<Patched>): State {
    if steps == [] then s else Last(steps).after
  }

  // The steps patch ws in order, lead from s to t, and res tells whether all of them succeeded.
  ghost predicate Leads(s: State, t: State, steps: seq<Patched>, ws: seq<Patch>, res: bool) {
    && |steps| == |ws|
    && t == EndOf(s, steps)
    && (forall i: nat {:trigger StepAt(s, steps, ws, i)} :: i < |steps| ==> StepAt(s, steps, ws, i))
    && (res <==> AllOk(steps))
  }

  lemma LeadsNowhere(s: State)
    ensures Leads(s, s, [], [], true)
  {
  }

  lemma LeadsOneMore(s: State, steps: seq<Patched>, ws: seq<Patch>, res: bool, step: Patched)
    requires Leads(s, step.before, steps, ws, res) && GoodStep(step)
    ensures Leads(s, step.after, steps + [step], ws + [step.patch], step.ok && res)
    ensures Failed(steps + [step]) == Failed(steps) + step.failed
  {
    var more := steps + [step];
    assert Front(more) == steps && Last(more) == step;
    forall i: nat | i < |more|
      ensures StepAt(s, more, ws + [step.patch], i)
    {
      StepKept(s, steps, ws, step, i);
    }
    OkOneMore(steps, step);
  }

  lemma StepKept(s: State, steps: seq<Patched>, ws: seq<Patch>, step: Patched, i: nat)
    requires |steps| == |ws| && i <= |steps|
    requires if i < |steps| then StepAt(s, steps, ws, i) else GoodStep(step) && step.before == EndOf(s, steps)
    ensures StepAt(s, steps + [step], ws + [step.patch], i)
  {
    assert (steps + [step])[..i] == steps[..i] && steps[..|steps|] == steps;
  }

  lemma SlotPatched(s: State, steps: seq<Patched>, ws: seq<Patch>, all: seq<Patch>, m: nat, res: bool, step: Patched)
    requires m < |all| && step.patch == all[m]
    requires Leads(s, step.before, steps, ws + all[..m], res) && GoodStep(step)
    ensures Leads(s, step.after, steps + [step], ws + all[..m + 1], step.ok && res)
    ensures Failed(steps + [step]) == Failed(steps) + step.failed
  {
    LeadsOneMore(s, steps, ws + all[..m], res, step);
    assert ws + all[..m + 1] == ws + all[..m] + [all[m]];
  }

  lemma OkOneMore(steps: seq<Patched>, step: Patched)
    ensures AllOk(steps + [step]) <==> AllOk(steps) && step.ok
  {
    var more := steps + [step];
    assert more[|steps|] == step && forall i :: 0 <= i < |steps| ==> more[i] == steps[i];
  }

  function CallsOf(steps: seq<Patched>): (calls: seq<Call>)
    ensures |calls| == |steps| && forall i :: 0 <= i < |steps| ==> calls[i] == Call(steps[i].patch, steps[i].place)
  {
    seq(|steps|, i requires 0 <= i < |steps| => Call(steps[i].patch, steps[i].place))
  }

  lemma {:induction false} LeadsByCalls(s: State, t: State, steps: seq<Patched>, ws: seq<Patch>, res: bool)
    requires Leads(s, t, steps, ws, res) && Failed(steps) == 0
    ensures RanAs(s, t, CallsOf(steps), ws, res)
    decreases |steps|
  {
    if steps == [] {
      RanNothing(s);
    } else {
      var step, before := Last(steps), AllOk(Front(steps));
      LeadsButLast(s, t, steps, ws, res);
      LeadsByCalls(s, step.before, Front(steps), Front(ws), before);
      DoneIsHooked(step.before, t, step.patch, step.place, step.ok);
      RanOneMore(s, step.before, t, CallsOf(Front(steps)), Front(ws), before, step.patch, step.place, step.ok);
      assert CallsOf(steps) == CallsOf(Front(steps)) + [Call(step.patch, step.place)];
      assert ws == Front(ws) + [Last(ws)];
    }
  }

  lemma LeadsButLast(s: State, t: State, steps: seq<Patched>, ws: seq<Patch>, res: bool)
    requires Leads(s, t, steps, ws, res) && steps != []
    ensures Leads(s, Last(steps).before, Front(steps), Front(ws), AllOk(Front(steps)))
    ensures GoodStep(Last(steps)) && Last(steps).after == t && Last(steps).patch == Last(ws)
    ensures res <==> AllOk(Front(steps)) && Last(steps).ok
  {
    var front, n := Front(steps), |steps| - 1;
    assert steps == front + [Last(steps)];
    OkOneMore(front, Last(steps));
    assert StepAt(s, steps, ws, n) && steps[..n] == front;
    forall i: nat | i < n
      ensures StepAt(s, front, Front(ws), i)
    {
      assert StepAt(s, steps, ws, i) && front[..i] == steps[..i];
    }
  }

  // The calls made patch ws in order, lead from s to t, and res tells whether every slot was tracked.
  ghost predicate RanAs(s: State, t: State, calls: seq<Call>, ws: seq<Patch>, res: bool) {
    Invariant(s) ==>
      && Runnable(s, calls)
      && PatchesOf(calls) == ws
      && t == HookAll(s, calls)
      && (res <==> AllOwned(s.infos, ws))
  }

  lemma RanNothing(s: State)
    ensures RanAs(s, s, [], [], true)
  {
  }

  lemma RanOneMore(s: State, t: State, u: State, calls: seq<Call>, ws: seq<Patch>, res: bool, w: Patch, place: nat, ok: bool)
    requires RanAs(s, t, calls, ws, res) && HookedBy(t, u, w, place, ok)
    ensures RanAs(s, u, calls + [Call(w, place)], ws + [w], ok && res)
  {
    if Invariant(s) {
      var more := calls + [Call(w, place)];
      assert Front(more) == calls && Last(more) == Call(w, place);
      LastPatch(more);
      HookAllIdentities(s, calls);
      SameEnds(s.infos, t.infos);
      SameOwners(s.infos, t.infos);
      OwnedOneMore(s.infos, ws, w);
    }
  }

  lemma OwnedOneMore(infos: Regions, ws: seq<Patch>, w: Patch)
    ensures AllOwned(infos, ws + [w]) <==> AllOwned(infos, ws) && Owner(infos, w.addr).Some?
  {
    if AllOwned(infos, ws + [w]) {
      forall i | 0 <= i < |ws|
        ensures Owner(infos, ws[i].addr).Some?
      {
        assert (ws + [w])[i] == ws[i];
      }
      assert (ws + [w])[|ws|] == w;
    }
  }

  lemma {:induction false} LeftoverOfNobody(infos: Regions, queue: seq<RegisterInfo>)
    ensures Leftover(infos, [], queue) == queue
    decreases |queue|
  {
    if queue != [] {
      LeftoverOfNobody(infos, queue[1..]);
    }
  }

  lemma SameIdentityTakes(a: HookInfo, b: HookInfo, reg: RegisterInfo)
    requires Identity(a) == Identity(b)
    ensures Takes(a, reg) <==> Takes(b, reg)
  {
  }

  lemma {:induction false} TakenSplit(info: HookInfo, q: seq<RegisterInfo>, reg: RegisterInfo)
    ensures TakenFrom(info, q + [reg]) == TakenFrom(info, q) + (if Takes(info, reg) then [reg] else [])
    ensures LeftBy(info, q + [reg]) == LeftBy(info, q) + (if Takes(info, reg) then [] else [reg])
    decreases |q|
  {
    if q == [] {
      assert [reg][1..] == [] && q + [reg] == [reg];
    } else {
      assert (q + [reg])[1..] == q[1..] + [reg];
      TakenSplit(info, q[1..], reg);
    }
  }

  lemma {:induction false} PatchesSplit(k: nat, regs: seq<RegisterInfo>, reg: RegisterInfo, slots: Slots)
    ensures RegionPatches(k, regs + [reg], slots) == RegionPatches(k, regs, slots) + PatchesFor(slots(k, reg.symbol), reg)
    decreases |regs|
  {
    if regs == [] {
      assert regs + [reg] == [reg] && [reg][1..] == [];
    } else {
      assert (regs + [reg])[1..] == regs[1..] + [reg];
      PatchesSplit(k, regs[1..], reg, slots);
    }
  }

  // After n requests, those a region left are in front of the others.
  ghost predicate Passed(left: seq<RegisterInfo>, j: nat, skipped: seq<RegisterInfo>, requests: seq<RegisterInfo>, n: nat) {
    n <= |requests| && j == |skipped| && left == skipped + requests[n..]
  }

  lemma PassNext(left: seq<RegisterInfo>, j: nat, skipped: seq<RegisterInfo>, requests: seq<RegisterInfo>, n: nat)
    requires Passed(left, j, skipped, requests, n) && j < |left|
    ensures n < |requests| && left[j] == requests[n]
  {
  }

  // What is left of the list after request j, and where the loop goes on.
  function Offered(info: HookInfo, left: seq<RegisterInfo>, j: nat): (seq<RegisterInfo>, nat)
    requires j < |left|
  {
    if Takes(info, left[j]) then (left[..j] + left[j + 1..], j) else (left, j + 1)
  }

  lemma PassOn(info: HookInfo, left: seq<RegisterInfo>, j: nat, lefts: seq<seq<RegisterInfo>>, requests: seq<RegisterInfo>, n: nat)
    requires n < |requests| && |lefts| == |requests| + 1 && Passed(left, j, lefts[n], requests, n) && j < |left|
    requires lefts[n + 1] == if Takes(info, requests[n]) then lefts[n] else lefts[n] + [requests[n]]
    ensures var (left', j') := Offered(info, left, j); Passed(left', j', lefts[n + 1], requests, n + 1)
  {
    PassNext(left, j, lefts[n], requests, n);
  }

  lemma PassedAll(left: seq<RegisterInfo>, j: nat, skipped: seq<RegisterInfo>, requests: seq<RegisterInfo>, n: nat)
    requires Passed(left, j, skipped, requests, n) && j >= |left|
    ensures n == |requests| && left == skipped
  {
  }

  // One request: taken and patched, or left for the regions above.
  ghost predicate RequestStep(k: nat, info: HookInfo, reg: RegisterInfo, slots: Slots,
                              left: seq<RegisterInfo>, plan: seq<Patch>, left': seq<RegisterInfo>, plan': seq<Patch>)
  {
    if Takes(info, reg) then left' == left && plan' == plan + PatchesFor(slots(k, reg.symbol), reg)
    else left' == left + [reg] && plan' == plan
  }

  // Request n turns the n-th entries of the schedule into the next ones.
  ghost predicate RequestTurn(k: nat, info: HookInfo, requests: seq<RegisterInfo>, slots: Slots,
                              lefts: seq<seq<RegisterInfo>>, plans: seq<seq<Patch>>, n: nat)
  {
    && n < |requests| && |lefts| == |plans| == |requests| + 1
    && RequestStep(k, info, requests[n], slots, lefts[n], plans[n], lefts[n + 1], plans[n + 1])
  }

  lemma TakeTurn(k: nat, info: HookInfo, requests: seq<RegisterInfo>, slots: Slots,
                 lefts: seq<seq<RegisterInfo>>, plans: seq<seq<Patch>>, n: nat)
    requires RequestTurn(k, info, requests, slots, lefts, plans, n)
    ensures lefts[n + 1] == if Takes(info, requests[n]) then lefts[n] else lefts[n] + [requests[n]]
    ensures plans[n + 1] ==
            if Takes(info, requests[n]) then plans[n] + PatchesFor(slots(k, requests[n].symbol), requests[n]) else plans[n]
  {
  }

  // What is left, and what has been patched, after each request of the queue: one region's loop.
  lemma RegionSchedule(k: nat, info: HookInfo, requests: seq<RegisterInfo>, slots: Slots, ws: seq<Patch>)
    returns (lefts: seq<seq<RegisterInfo>>, plans: seq<seq<Patch>>)
    ensures |lefts| == |plans| == |requests| + 1
    ensures lefts[0] == [] && plans[0] == ws
    ensures lefts[|requests|] == LeftBy(info, requests)
    ensures plans[|requests|] == ws + RegionPatches(k, TakenFrom(info, requests), slots)
    ensures forall n: nat :: n < |requests| ==> RequestTurn(k, info, requests, slots, lefts, plans, n)
  {
    lefts := seq(|requests| + 1, n requires 0 <= n <= |requests| => LeftBy(info, requests[..n]));
    plans := seq(|requests| + 1, n requires 0 <= n <= |requests| =>
      ws + RegionPatches(k, TakenFrom(info, requests[..n]), slots));
    assert requests[..0] == [] && requests[..|requests|] == requests && ws + [] == ws;
    forall n: nat | n < |requests|
      ensures RequestTurn(k, info, requests, slots, lefts, plans, n)
    {
      ConsumeNext(k, info, requests, n, slots, ws);
    }
  }

  lemma ConsumeNext(k: nat, info: HookInfo, requests: seq<RegisterInfo>, n: nat, slots: Slots, ws: seq<Patch>)
    requires n < |requests|
    ensures var q, q' := requests[..n], requests[..n + 1];
            RequestStep(k, info, requests[n], slots,
                        LeftBy(info, q), ws + RegionPatches(k, TakenFrom(info, q), slots),
                        LeftBy(info, q'), ws + RegionPatches(k, TakenFrom(info, q'), slots))
  {
    var reg, q := requests[n], requests[..n];
    assert requests[..n + 1] == q + [reg];
    TakenSplit(info, q, reg);
    if Takes(info, reg) {
      PatchesSplit(k, TakenFrom(info, q), reg, slots);
      assert LeftBy(info, q) + [] == LeftBy(info, q);
    } else {
      assert TakenFrom(info, q) + [] == TakenFrom(info, q);
    }
  }

  // One region: it takes its requests from what is left, and patches their slots.
  ghost predicate RegionStep(infos: Regions, k: nat, slots: Slots, left: seq<RegisterInfo>, plan: seq<Patch>,
                             left': seq<RegisterInfo>, plan': seq<Patch>)
  {
    && k in infos
    && left' == LeftBy(infos[k], left)
    && plan' == plan + RegionPatches(k, TakenFrom(infos[k], left), slots)
  }

  // The i-th region turns the i-th entries of the schedule into the next ones.
  ghost predicate RegionTurn(infos: Regions, ks: seq<nat>, slots: Slots,
                             lefts: seq<seq<RegisterInfo>>, plans: seq<seq<Patch>>, i: nat)
  {
    && i < |ks| && |lefts| == |plans| == |ks| + 1
    && RegionStep(infos, ks[i], slots, lefts[i], plans[i], lefts[i + 1], plans[i + 1])
  }

  ghost predicate IsOrdered(infos: Regions, ks: seq<nat>) {
    (forall k :: k in ks ==> k in infos) && forall i, j :: 0 <= i < j < |ks| ==> ks[i] < ks[j]
  }

  // What the regions below ks[i] leave.
  function LeftAfter(infos: Regions, ks: seq<nat>, requests: seq<RegisterInfo>, i: nat): seq<RegisterInfo>
    requires (forall k :: k in ks ==> k in infos) && i <= |ks|
  {
    Leftover(infos, ks[..i], requests)
  }

  lemma LeftAfterAll(infos: Regions, ks: seq<nat>, requests: seq<RegisterInfo>)
    requires forall k :: k in ks ==> k in infos
    ensures LeftAfter(infos, ks, requests, 0) == requests
    ensures LeftAfter(infos, ks, requests, |ks|) == Leftover(infos, ks, requests)
  {
    LeftoverOfNobody(infos, requests);
    assert ks[..0] == [] && ks[..|ks|] == ks;
  }

  lemma ScheduleStep(infos: Regions, ks: seq<nat>, requests: seq<RegisterInfo>, slots: Slots, i: nat)
    requires IsOrdered(infos, ks) && i < |ks|
    ensures RegionStep(infos, ks[i], slots, LeftAfter(infos, ks, requests, i), Plan(infos, ks, requests, slots, i),
                       LeftAfter(infos, ks, requests, i + 1), Plan(infos, ks, requests, slots, i + 1))
  {
    LoopConsumes(infos, ks, requests, i);
    PlanLast(infos, ks, requests, slots, i + 1);
  }

  // What is left, and what has been patched, after each region: the outer loop.
  lemma Schedule(infos: Regions, ks: seq<nat>, requests: seq<RegisterInfo>, slots: Slots)
    returns (lefts: seq<seq<RegisterInfo>>, plans: seq<seq<Patch>>)
    requires IsOrdered(infos, ks)
    ensures |lefts| == |plans| == |ks| + 1
    ensures lefts[0] == requests && plans[0] == []
    ensures lefts[|ks|] == Leftover(infos, ks, requests)
    ensures plans[|ks|] == Plan(infos, ks, requests, slots, |ks|)
    ensures forall i: nat :: i < |ks| ==> RegionTurn(infos, ks, slots, lefts, plans, i)
  {
    lefts := seq(|ks| + 1, i requires 0 <= i <= |ks| => LeftAfter(infos, ks, requests, i));
    plans := seq(|ks| + 1, i requires 0 <= i <= |ks| => Plan(infos, ks, requests, slots, i));
    LeftAfterAll(infos, ks, requests);
    forall i: nat | i < |ks|
      ensures RegionTurn(infos, ks, slots, lefts, plans, i)
    {
      assert lefts[i] == LeftAfter(infos, ks, requests, i) && lefts[i + 1] == LeftAfter(infos, ks, requests, i + 1);
      assert plans[i] == Plan(infos, ks, requests, slots, i) && plans[i + 1] == Plan(infos, ks, requests, slots, i + 1);
      ScheduleStep(infos, ks, requests, slots, i);
    }
  }

  // ----- CommitHook and InvalidateBackup as steps of a run -----

  ghost predicate RefreshedBy(s: State, t: State, maps: seq<MapInfo>, found: bool) {
    Invariant(s) && Lists(maps, s.process.vmas) ==>
      && (found <==> Scanned(s.process.vmas, s.me) != map[])
      && t == if found then Rescan(s) else s
  }

  // Something in the listing can be hooked.
  ghost predicate AnyCandidate(maps: seq<MapInfo>) {
    exists i :: 0 <= i < |maps| && IsCandidate(maps[i])
  }

  lemma ScanFinds(scan: Regions, maps: seq<MapInfo>, me: FileId)
    requires ScannedSoFar(scan, maps, |maps|, me)
    ensures scan != map[] <==> AnyCandidate(maps)
  {
    if AnyCandidate(maps) {
      var i :| 0 <= i < |maps| && IsCandidate(maps[i]);
      assert maps[i].start in scan;
    } else if k :| k in scan {
      assert false;
    } else {
      assert scan == map[];
    }
  }

  // Whatever fails, CommitHook returns at once with nothing queued or nothing to hook, and else tries
  // every planned slot, one after another, keeps the requests that nobody takes, and returns whether all
  // the slots succeeded.
  ghost predicate TriedBy(s: State, r: State, u: State, steps: seq<Patched>, maps: seq<MapInfo>, slots: Slots, ok: bool) {
    if s.queue == [] || !AnyCandidate(maps) then
      u == s && steps == [] && (ok <==> s.queue == [])
    else
      r == s.(infos := r.infos) && QueueHooked(r, u, steps, slots, ok)
  }

  ghost predicate QueueHooked(r: State, u: State, steps: seq<Patched>, slots: Slots, ok: bool) {
    && Leads(r, u.(queue := r.queue), steps, CommitPlan(r.infos, r.queue, slots), ok)
    && u.queue == CommitLeftover(r.infos, r.queue)
  }

  lemma ScanRefreshes(s: State, scan: Regions, maps: seq<MapInfo>, infos: Regions, found: bool)
    requires ScannedSoFar(scan, maps, |maps|, s.me) && (found <==> scan != map[])
    requires !found ==> infos == s.infos
    requires found && BackupsAreNotKeys(s.infos) ==> infos == Merged(Filtered(scan, s.queue), s.infos)
    ensures RefreshedBy(s, s.(infos := infos), maps, found)
  {
    if Invariant(s) && Lists(maps, s.process.vmas) {
      ScanOfListing(scan, maps, s.me, s.process.vmas);
    }
  }

  lemma ScannedAreWellFormed(scan: Regions, maps: seq<MapInfo>, me: FileId)
    requires ScannedSoFar(scan, maps, |maps|, me) && DistinctStarts(maps)
    requires forall i :: 0 <= i < |maps| ==> WellFormedMapping(maps[i])
    ensures WellFormedRegions(scan)
    ensures forall k {:trigger k in scan} :: k in scan ==> scan[k].hooks == map[]
  {
  }

  lemma MergedAreGood(merged: Regions, scan: Regions, kept: Regions, queue: seq<RegisterInfo>, former: Regions)
    requires GoodRegions(former) && WellFormedRegions(scan) && kept == Filtered(scan, queue)
    requires forall k {:trigger k in scan} :: k in scan ==> scan[k].hooks == map[]
    requires forall k {:trigger k in merged} :: k in merged ==>
               (k in former && merged[k] == former[k]) || (k in kept && merged[k] == kept[k])
    ensures GoodRegions(merged)
  {
    forall k | k in merged
      ensures merged[k].area.start == k && WellFormedMapping(merged[k].area)
      ensures merged[k].backup == 0 && !merged[k].isSelf ==> merged[k].hooks == map[]
    {
      assert k in former || k in scan;
    }
  }

  // CommitHook meets its specification, and succeeds exactly when every planned slot is tracked.
  ghost predicate CommittedBy(s: State, t: State, slots: Slots, calls: seq<Call>, ok: bool) {
    Invariant(s) ==>
      && CanCommit(s, slots, calls)
      && t == Commit(s, slots, calls)
      && (ok <==> s.queue == [] || (!CommitSkips(s) && AllOwned(Rescan(s).infos, PatchesOf(calls))))
  }

  // The same by the mappings of the process and the relocations of its images alone.
  ghost predicate CommitSeen(s: State, t: State, images: Images, ok: bool) {
    Invariant(s) ==> CommitDone(s, t, images, ok)
  }

  lemma CommittedIsSeen(s: State, t: State, slots: Slots, images: Images, calls: seq<Call>, ok: bool)
    requires CommittedBy(s, t, slots, calls, ok) && SlotsOf(slots, images)
    ensures CommitSeen(s, t, images, ok)
  {
    if Invariant(s) {
      if !CommitSkips(s) {
        OwnedByMember(Rescan(s).infos, PatchesOf(calls));
      }
      CommitIsDone(s, slots, images, calls, ok);
    }
  }

  lemma OwnedByMember(infos: Regions, ws: seq<Patch>)
    ensures AllOwned(infos, ws) <==> AllSlotsOwned(infos, ws)
  {
    if AllSlotsOwned(infos, ws) {
      assert forall i :: 0 <= i < |ws| ==> ws[i] in ws;
    }
  }

  lemma SkippedCommit(s: State, slots: Slots, ok: bool)
    requires CommitSkips(s) && (ok <==> s.queue == [])
    ensures CommittedBy(s, s, slots, [], ok)
  {
  }

  lemma SkippedScan(s: State, maps: seq<MapInfo>, slots: Slots)
    requires RefreshedBy(s, s, maps, false) && Lists(maps, s.process.vmas) && s.queue != []
    ensures CommittedBy(s, s, slots, [], false)
  {
  }

  lemma HookedCommit(s: State, r: State, u: State, maps: seq<MapInfo>, slots: Slots, steps: seq<Patched>, ok: bool)
    requires s.queue != [] && r.queue == s.queue && Lists(maps, s.process.vmas) && RefreshedBy(s, r, maps, true)
    requires QueueHooked(r, u, steps, slots, ok) && Failed(steps) == 0
    ensures CommittedBy(s, u, slots, CallsOf(steps), ok)
  {
    LeadsByCalls(r, u.(queue := r.queue), steps, CommitPlan(r.infos, r.queue, slots), ok);
    if Invariant(s) {
      RescanInvariant(s);
    }
  }

  // When no mremap failed, the run is the invalidation of the specification, with the answers it got.
  ghost predicate InvalidatedBy(s: State, t: State, turns: seq<Turn>, ok: bool) {
    Invariant(s) && ok ==> InTable(s.infos, turns) && t == InvalidateAll(s, turns)
  }

  lemma NothingInvalidated(s: State)
    ensures InvalidatedBy(s, s, [], true)
  {
  }

  // Every region but those in todo has had its turn.
  ghost predicate InTurn(infos: Regions, turns: seq<Turn>, todo: set<nat>) {
    && InTable(infos, turns) && OnceEach(turns)
    && forall k {:trigger Visited(turns, k)} :: Visited(turns, k) <==> k in infos && k !in todo
  }

  lemma NextInTurn(infos: Regions, turns: seq<Turn>, todo: set<nat>, k: nat, answer: Answer)
    requires InTurn(infos, turns, todo) && k in todo && k in infos
    ensures InTurn(infos, turns + [Turn(k, answer)], todo - {k})
  {
    var more := turns + [Turn(k, answer)];
    assert !Visited(turns, k);
    assert Front(more) == turns && Last(more).k == k;
    forall j
      ensures Visited(more, j) <==> Visited(turns, j) || j == k
    {
      VisitedFront(more, j);
    }
    forall i, j | 0 <= i < j < |more|
      ensures more[i].k != more[j].k
    {
      assert more[i] == turns[i];
    }
  }

  lemma GrantedOneMore(turns: seq<Turn>, turn: Turn)
    ensures AllGranted(turns + [turn]) <==> AllGranted(turns) && turn.answer == Granted(true)
  {
    if AllGranted(turns + [turn]) {
      assert (turns + [turn])[|turns|] == turn;
      assert forall i :: 0 <= i < |turns| ==> (turns + [turn])[i] == turns[i];
    }
  }

  lemma AllInTurn(infos: Regions, turns: seq<Turn>)
    requires InTurn(infos, turns, {})
    ensures EveryRegion(infos, turns)
  {
  }

  lemma InvalidateLast(s: State, turns: seq<Turn>, turn: Turn)
    requires Invariant(s) && turn.k in s.infos && InTable(s.infos, turns)
    ensures InTable(s.infos, turns + [turn])
    ensures InvalidateAll(s, turns + [turn]) == InvalidateOne(InvalidateAll(s, turns), turn.k, turn.answer)
  {
    assert Front(turns + [turn]) == turns && Last(turns + [turn]) == turn;
  }

  ghost predicate RegionInvalidatedBy(s: State, t: State, k: nat, answer: Answer) {
    && k in s.infos && WellFormedMapping(s.infos[k].area) && s.infos[k].area.start == k
    && var info := s.infos[k];
       if info.backup == 0 then t == s
       else
         && (HooksMapped(s.process, info) ==> BroughtHome(s.process, t.process, info, answer))
         && t == s.(process := t.process, infos := s.infos[k := info.(hooks := map[], backup := 0)])
  }

  lemma RewritingHooks(home: map<nat, Cell>, copy: map<nat, Cell>, hooks: map<nat, nat>, words: map<nat, nat>)
    requires IsReading(words, hooks, copy) && forall a :: a in hooks ==> a in home
    ensures Poked(home, words) == Rewritten(home, copy, hooks)
  {
  }

  lemma HooksAreHome(s: State, k: nat)
    requires Sound(s) && Backed(s.infos, k)
    ensures HooksMapped(s.process, s.infos[k]) && HooksMapped(DropBackup(s, k).process, s.infos[k])
  {
    assert RegionSound(s.process, s.infos[k]);
    forall a | a in s.infos[k].hooks
      ensures a in s.process.mem && a in DropBackup(s, k).process.mem
    {
      HomeCell(s, k, a);
    }
  }

  lemma BroughtHomeIsRehooked(p: Process, q: Process, info: HookInfo, answer: Answer)
    requires WellFormedMapping(info.area) && BroughtHome(p, q, info, answer)
    requires HooksMapped(Move(p, info.backup, info.area.start, info.Length()), info)
    ensures var home := Move(p, info.backup, info.area.start, info.Length());
            info.area.start in home.vmas && q == Rehooked(home, p.mem, info.area.start, info, answer)
  {
    var k := info.area.start;
    var home := Move(p, info.backup, k, info.Length());
    match answer {
      case Refused =>
      case Granted(restored) =>
        var words :| IsReading(words, info.hooks, p.mem) &&
                     Rewrites(home, q, k, if restored then info.area.perms else {Write}, words);
        RewritingHooks(home.mem, p.mem, info.hooks, words);
    }
  }

  lemma RegionIsInvalidated(s: State, t: State, k: nat, answer: Answer)
    requires Invariant(s) && RegionInvalidatedBy(s, t, k, answer)
    ensures t == InvalidateOne(s, k, answer)
  {
    if s.infos[k].backup != 0 {
      HooksAreHome(s, k);
      BroughtHomeIsRehooked(s.process, t.process, s.infos[k], answer);
    }
  }

  lemma OneMoreInvalidated(s: State, t: State, u: State, turns: seq<Turn>, k: nat, answer: Answer, ok: bool, moved: bool)
    requires InvalidatedBy(s, t, turns, ok) && (moved ==> RegionInvalidatedBy(t, u, k, answer)) && k in s.infos
    ensures InvalidatedBy(s, u, turns + [Turn(k, answer)], ok && moved)
  {
    if Invariant(s) && ok && moved {
      RegionIsInvalidated(t, u, k, answer);
      InvalidateLast(s, turns, Turn(k, answer));
    }
  }
}
