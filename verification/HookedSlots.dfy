/**
 What one commit does, said of the mappings of the process and the relocations of its images: which
 requests are taken, which words become which callback, and what stays.
 */
module HookedSlots {
  import opened Options
  import opened AddressSpace
  import opened HookState
  import opened HookStep
  import opened HookEffect
  import opened HookOverlay
  import opened HookCommit
  import opened HookPlan
  import opened HookReplan
  import opened HookRoundTrip
  import opened LoadedImages

  // ----- what is tracked, by the mappings alone -----

  // A private, readable mapping of a file.
  predicate FromFile(m: MapInfo) {
    m.isPrivate && Read in m.perms && m.path != "" && m.path[0] != '['
  }

  // The image that starts at v can be hooked: it is a mapping of a file, or has been moved aside before.
  ghost predicate CanBeHooked(s: State, v: nat) {
    && v in s.process.vmas
    && (Backed(s.infos, v) ||
        (FromFile(s.process.vmas[v]) && forall j :: j in s.infos ==> s.infos[j].backup != v))
  }

  // The mapping of the file, wherever its pages are now.
  ghost function FileMapping(s: State, v: nat): MapInfo
    requires v in s.process.vmas
  {
    if Backed(s.infos, v) then s.infos[v].area else s.process.vmas[v]
  }

  predicate IsFor(reg: RegisterInfo, m: MapInfo) {
    reg.dev == m.dev && reg.inode == m.inode && reg.lo <= m.offset < reg.hi
  }

  // The request is for the file that starts at v, in a range of offsets that covers it.
  ghost predicate AsksFor(s: State, v: nat, reg: RegisterInfo) {
    CanBeHooked(s, v) && IsFor(reg, FileMapping(s, v))
  }

  // The range starts there.
  ghost predicate StartsAt(s: State, v: nat, reg: RegisterInfo) {
    AsksFor(s, v, reg) && FileMapping(s, v).offset == reg.lo
  }

  // The lowest mapping at which the request starts.
  ghost predicate GoesTo(s: State, k: nat, reg: RegisterInfo) {
    StartsAt(s, k, reg) && forall j: nat :: j < k ==> !StartsAt(s, j, reg)
  }

  // Address a lies in a mapping that some request asks for, or that has been moved aside before.
  ghost predicate IsTracked(s: State, a: nat) {
    exists v: nat :: TracksFrom(s, v, a)
  }

  ghost predicate TracksFrom(s: State, v: nat, a: nat) {
    && CanBeHooked(s, v) && v <= a < s.process.vmas[v].end
    && (Backed(s.infos, v) || exists i :: 0 <= i < |s.queue| && AsksFor(s, v, s.queue[i]))
  }

  // Request i goes to the image at k, and a is a slot of its symbol there.
  ghost predicate Wants(s: State, images: Images, i: nat, k: nat, a: nat) {
    i < |s.queue| && GoesTo(s, k, s.queue[i]) && IsSlotAt(images, k, s.queue[i].symbol, a)
  }

  // The requests that want slot a, if any, want this callback.
  ghost predicate AllWant(s: State, images: Images, a: nat, callback: nat) {
    forall j: nat, l: nat {:trigger Wants(s, images, j, l, a)} :: Wants(s, images, j, l, a) ==> s.queue[j].callback == callback
  }

  ghost predicate AnyFromFile(s: State) {
    exists v :: v in s.process.vmas && FromFile(s.process.vmas[v])
  }

  // A tracked slot reads the callback that is wanted there.
  ghost predicate SlotsHooked(s: State, t: State, images: Images) {
    forall i: nat, k: nat, a: nat {:trigger Wants(s, images, i, k, a)} ::
      Wants(s, images, i, k, a) && IsTracked(s, a) && AllWant(s, images, a, s.queue[i].callback) ==>
        a in t.process.mem && t.process.mem[a].word == s.queue[i].callback
  }

  // A tracked word that nobody wants stays.
  ghost predicate OthersKept(s: State, t: State, images: Images) {
    forall a: nat {:trigger IsTracked(s, a)} ::
      IsTracked(s, a) && (forall i: nat, k: nat :: !Wants(s, images, i, k, a)) ==>
        && a in s.process.mem && a in t.process.mem
        && t.process.mem[a].word == s.process.mem[a].word
  }

  // A pointer stays when every slot wanted for it holds the callback already.
  ghost predicate PointersKept(s: State, t: State, images: Images) {
    forall p: nat {:trigger p in t.saved} :: p == 0 || AlreadyHooked(s, images, p) ==>
      && (p in t.saved <==> p in s.saved)
      && (p in s.saved ==> t.saved[p] == s.saved[p])
  }

  ghost predicate AlreadyHooked(s: State, images: Images, p: nat) {
    forall i: nat, k: nat, a: nat {:trigger Wants(s, images, i, k, a)} ::
      Wants(s, images, i, k, a) && s.queue[i].backup == p && IsTracked(s, a) ==>
        && a in s.process.mem && s.process.mem[a].word == s.queue[i].callback
        && AllWant(s, images, a, s.queue[i].callback)
  }

  // What stays queued is what starts nowhere.
  ghost predicate RestQueued(s: State, t: State) {
    forall reg {:trigger reg in t.queue} :: reg in t.queue <==> reg in s.queue && forall k: nat :: !StartsAt(s, k, reg)
  }

  ghost predicate AllTaken(s: State, images: Images) {
    forall i: nat, k: nat, a: nat {:trigger Wants(s, images, i, k, a)} :: Wants(s, images, i, k, a) ==> IsTracked(s, a)
  }

  // The effect of a commit. It does nothing without a request or without a file to hook.
  ghost predicate CommitDone(s: State, t: State, images: Images, ok: bool) {
    if s.queue == [] || !AnyFromFile(s) then t == s && (ok <==> s.queue == [])
    else
      && SlotsHooked(s, t, images) && OthersKept(s, t, images) && PointersKept(s, t, images) && RestQueued(s, t)
      && (ok <==> AllTaken(s, images))
  }

  // ----- what the rescan finds -----

  lemma ScanKeeps(s: State, v: nat)
    ensures v in Filtered(Scanned(s.process.vmas, s.me), s.queue) <==>
            && v in s.process.vmas && FromFile(s.process.vmas[v])
            && exists i :: 0 <= i < |s.queue| && IsFor(s.queue[i], s.process.vmas[v])
    ensures v in Filtered(Scanned(s.process.vmas, s.me), s.queue) ==>
              Filtered(Scanned(s.process.vmas, s.me), s.queue)[v].area == s.process.vmas[v]
  {
    if v in s.process.vmas && FromFile(s.process.vmas[v]) {
      var info := Scanned(s.process.vmas, s.me)[v];
      assert forall i :: 0 <= i < |s.queue| ==> (info.Match(s.queue[i]) <==> IsFor(s.queue[i], s.process.vmas[v]));
    }
  }

  lemma MergeKeeps(scan: Regions, former: Regions, v: nat)
    requires 0 < v && !Backed(former, v)
    ensures v in Merged(scan, former) <==> v in scan && forall j :: j in former ==> former[j].backup != v
    ensures v in Merged(scan, former) ==> Merged(scan, former)[v] == if v in former then former[v] else scan[v]
  {
  }

  predicate SameFile(m: MapInfo, n: MapInfo) {
    m.dev == n.dev && m.inode == n.inode && m.offset == n.offset && m.end == n.end
  }

  lemma UnbackedIsMapped(s: State, v: nat)
    requires Sound(s) && v in s.infos && !Backed(s.infos, v)
    ensures v in s.process.vmas && SameFile(s.infos[v].area, s.process.vmas[v])
  {
    assert RegionSound(s.process, s.infos[v]);
    var m, n := s.process.vmas[v], s.infos[v].area;
    assert Origin(m).dev == Origin(n).dev && Origin(m).inode == Origin(n).inode && Origin(m).offset == Origin(n).offset;
  }

  // The region of a file mapping that has not been moved aside.
  lemma RescanFile(s: State, v: nat)
    requires Invariant(s) && !Backed(s.infos, v) && v in s.process.vmas
    ensures v in Rescan(s).infos <==> CanBeHooked(s, v) && exists i :: 0 <= i < |s.queue| && IsFor(s.queue[i], s.process.vmas[v])
    ensures v in Rescan(s).infos ==> SameFile(Rescan(s).infos[v].area, s.process.vmas[v])
  {
    assert s.process.vmas[v].start == v && WellFormedMapping(s.process.vmas[v]);
    ScanKeeps(s, v);
    MergeKeeps(Filtered(Scanned(s.process.vmas, s.me), s.queue), s.infos, v);
    if v in s.infos {
      UnbackedIsMapped(s, v);
    }
  }

  lemma BackedIsMapped(s: State, v: nat)
    requires Sound(s) && Backed(s.infos, v)
    ensures v in s.process.vmas && s.infos[v].area.end == s.process.vmas[v].end
  {
    assert RegionSound(s.process, s.infos[v]);
  }

  lemma RescanIsMapped(s: State, v: nat)
    requires Invariant(s) && v in Rescan(s).infos
    ensures v in s.process.vmas && Rescan(s).infos[v].area.end == s.process.vmas[v].end
  {
    RescanRegion(s, v);
  }

  lemma BackedAsks(s: State, v: nat, reg: RegisterInfo)
    requires Invariant(s) && Backed(s.infos, v)
    ensures v in Rescan(s).infos && Rescan(s).infos[v] == s.infos[v] && CanBeHooked(s, v)
    ensures AsksFor(s, v, reg) <==> s.infos[v].Match(reg)
  {
    RescanBacked(s, v);
    BackedIsMapped(s, v);
  }

  lemma FileAsks(s: State, v: nat, reg: RegisterInfo)
    requires Invariant(s) && !Backed(s.infos, v) && v in s.process.vmas && reg in s.queue
    ensures AsksFor(s, v, reg) ==> v in Rescan(s).infos
    ensures v in Rescan(s).infos ==> CanBeHooked(s, v) && SameFile(Rescan(s).infos[v].area, FileMapping(s, v))
  {
    var i :| 0 <= i < |s.queue| && s.queue[i] == reg;
    RescanFile(s, v);
  }

  lemma RescanAsks(s: State, v: nat, reg: RegisterInfo)
    requires Invariant(s) && reg in s.queue
    ensures v in Rescan(s).infos && Rescan(s).infos[v].Match(reg) <==> AsksFor(s, v, reg)
    ensures AsksFor(s, v, reg) ==> v in Rescan(s).infos && Rescan(s).infos[v].area.offset == FileMapping(s, v).offset
  {
    var r := Rescan(s).infos;
    if Backed(s.infos, v) {
      BackedAsks(s, v, reg);
    } else if v in s.process.vmas {
      FileAsks(s, v, reg);
    } else if v in r {
      RescanIsMapped(s, v);
    }
  }

  lemma RescanStarts(s: State, v: nat, reg: RegisterInfo)
    requires Invariant(s) && reg in s.queue
    ensures v in Rescan(s).infos && Takes(Rescan(s).infos[v], reg) <==> StartsAt(s, v, reg)
  {
    RescanAsks(s, v, reg);
  }

  lemma RescanEnds(s: State, v: nat)
    requires Invariant(s)
    ensures v in Rescan(s).infos <==>
            CanBeHooked(s, v) && (Backed(s.infos, v) || exists i :: 0 <= i < |s.queue| && AsksFor(s, v, s.queue[i]))
  {
    if Backed(s.infos, v) {
      RescanBacked(s, v);
      BackedIsMapped(s, v);
    } else if v in s.process.vmas {
      RescanFile(s, v);
      assert forall reg :: IsFor(reg, s.process.vmas[v]) && CanBeHooked(s, v) <==> AsksFor(s, v, reg);
    } else if v in Rescan(s).infos {
      RescanIsMapped(s, v);
    }
  }

  /** A mapping tracked for the first time is the library's own when it has the library's device and inode. */
  lemma NewRegion(s: State, v: nat)
    requires Invariant(s) && v in Rescan(s).infos && v !in s.infos
    ensures v in s.process.vmas
    ensures var info, m := Rescan(s).infos[v], s.process.vmas[v];
            && info.area == m && info.hooks == map[] && info.backup == 0
            && (info.isSelf <==> m.dev == s.me.dev && m.inode == s.me.inode)
  {
    RescanIsMapped(s, v);
    RescanRegion(s, v);
  }

  lemma RescanTracks(s: State, a: nat)
    requires Invariant(s)
    ensures Owner(Rescan(s).infos, a).Some? <==> IsTracked(s, a)
  {
    var r := Rescan(s);
    RescanInvariant(s);
    RegionsDisjoint(r);
    var owner := Owner(r.infos, a);
    if owner.Some? {
      OwnerIsContainer(r.infos, owner.value, a);
      RescanEnds(s, owner.value);
      RescanIsMapped(s, owner.value);
      assert TracksFrom(s, owner.value, a);
    }
    if v: nat :| TracksFrom(s, v, a) {
      RescanEnds(s, v);
      RescanIsMapped(s, v);
      OwnerIsContainer(r.infos, v, a);
    }
  }

  lemma SkipsWithoutFile(s: State)
    requires WellFormed(s.process)
    ensures Scanned(s.process.vmas, s.me) != map[] <==> AnyFromFile(s)
  {
    if v :| v in s.process.vmas && FromFile(s.process.vmas[v]) {
      assert v in Scanned(s.process.vmas, s.me);
    }
    if Scanned(s.process.vmas, s.me) != map[] {
      var v :| v in Scanned(s.process.vmas, s.me);
    }
  }

  // ----- the plan, request by request -----

  lemma {:induction false} LeftoverExactly(infos: Regions, ks: seq<nat>, queue: seq<RegisterInfo>, reg: RegisterInfo)
    requires forall k :: k in ks ==> k in infos
    ensures reg in Leftover(infos, ks, queue) <==> reg in queue && FirstTaker(infos, ks, reg) == None
    decreases |queue|
  {
    if queue != [] {
      LeftoverExactly(infos, ks, queue[1..], reg);
    }
  }

  // ----- who wants a slot -----

  // The slots that the plan is made with are those of the images.
  ghost predicate SlotsOf(slots: Slots, images: Images) {
    forall k, name {:trigger slots(k, name)} :: slots(k, name) == SlotsAt(images, k, name)
  }

  lemma GoesToFirst(s: State, k: nat, reg: RegisterInfo)
    requires Invariant(s) && reg in s.queue
    ensures var r := Rescan(s).infos; FirstTaker(r, Ascending(r.Keys), reg) == Some(k) <==> GoesTo(s, k, reg)
  {
    var r := Rescan(s).infos;
    FirstTakerIsLowest(r, Ascending(r.Keys), reg, k);
    forall j: nat
      ensures j in r && Takes(r[j], reg) <==> StartsAt(s, j, reg)
    {
      RescanStarts(s, j, reg);
    }
  }

  lemma StartsNowhere(s: State, reg: RegisterInfo)
    requires Invariant(s) && reg in s.queue
    ensures var r := Rescan(s).infos; FirstTaker(r, Ascending(r.Keys), reg) == None <==> forall k: nat :: !StartsAt(s, k, reg)
  {
    var r := Rescan(s).infos;
    var first := FirstTaker(r, Ascending(r.Keys), reg);
    if first.None? {
      forall k: nat
        ensures !StartsAt(s, k, reg)
      {
        RescanStarts(s, k, reg);
      }
    } else {
      RescanStarts(s, first.value, reg);
    }
  }

  ghost function ThePlan(s: State, slots: Slots): seq<Patch> {
    CommitPlan(Rescan(s).infos, s.queue, slots)
  }

  lemma WantedIsPlanned(s: State, slots: Slots, images: Images, i: nat, k: nat, a: nat)
    requires Invariant(s) && SlotsOf(slots, images) && Wants(s, images, i, k, a)
    ensures Patch(a, s.queue[i].callback, s.queue[i].backup) in ThePlan(s, slots)
  {
    GoesToFirst(s, k, s.queue[i]);
    SlotsAtExactly(images, k, s.queue[i].symbol, a);
    SlotIsPlanned(Rescan(s).infos, s.queue, slots, k, s.queue[i], a);
  }

  lemma PlannedIsWanted(s: State, slots: Slots, images: Images, w: Patch) returns (i: nat, k: nat)
    requires Invariant(s) && SlotsOf(slots, images) && w in ThePlan(s, slots)
    ensures Wants(s, images, i, k, w.addr)
    ensures w.callback == s.queue[i].callback && w.saveTo == s.queue[i].backup
  {
    var reg;
    k, reg := PlannedPatch(Rescan(s).infos, s.queue, slots, w);
    i :| i < |s.queue| && s.queue[i] == reg;
    GoesToFirst(s, k, reg);
    SlotsAtExactly(images, k, reg.symbol, w.addr);
  }

  // ----- a list of patches, seen from one slot or pointer -----

  predicate AllTo(ws: seq<Patch>, a: nat, callback: nat) {
    forall w :: w in ws && w.addr == a ==> w.callback == callback
  }

  lemma {:induction false} ReadsCallback(o: Overlay, ws: seq<Patch>, a: nat, callback: nat)
    requires a in o.words && AllTo(ws, a, callback)
    requires o.words[a] == callback || exists w :: w in ws && w.addr == a
    ensures a in ApplyAll(o, ws).words && ApplyAll(o, ws).words[a] == callback
    decreases |ws|
  {
    if ws != [] {
      var o' := Apply(o, ws[0]);
      assert ws[0].addr != a ==> o'.words[a] == o.words[a];
      assert forall w :: w in ws && w.addr == a ==> w == ws[0] || w in ws[1..];
      ReadsCallback(o', ws[1..], a, callback);
    }
  }

  lemma {:induction false} ReadsSame(o: Overlay, ws: seq<Patch>, a: nat)
    requires a in o.words && forall w :: w in ws ==> w.addr != a
    ensures a in ApplyAll(o, ws).words && ApplyAll(o, ws).words[a] == o.words[a]
    decreases |ws|
  {
    if ws != [] {
      ReadsSame(Apply(o, ws[0]), ws[1..], a);
    }
  }

  // Every slot that is patched for p holds its callback already, and no patch changes it.
  predicate AlreadyThere(o: Overlay, ws: seq<Patch>, p: nat) {
    forall w :: w in ws && w.saveTo == p && w.addr in o.words ==>
      o.words[w.addr] == w.callback && AllTo(ws, w.addr, w.callback)
  }

  lemma {:induction false} PointerKept(o: Overlay, ws: seq<Patch>, p: nat)
    requires p == 0 || AlreadyThere(o, ws, p)
    ensures p in ApplyAll(o, ws).saved <==> p in o.saved
    ensures p in o.saved ==> ApplyAll(o, ws).saved[p] == o.saved[p]
    decreases |ws|
  {
    if ws != [] {
      var o' := Apply(o, ws[0]);
      assert ws[0] in ws;
      if p != 0 {
        forall w | w in ws[1..] && w.saveTo == p && w.addr in o'.words
          ensures o'.words[w.addr] == w.callback && AllTo(ws[1..], w.addr, w.callback)
        {
          assert w in ws && w.addr in o.words;
        }
      }
      PointerKept(o', ws[1..], p);
    }
  }

  // ----- the commit -----

  // t reads as r does after the patches ws.
  ghost predicate PatchedFrom(r: State, t: State, ws: seq<Patch>) {
    Sound(r) && View(t) == ApplyAll(View(r), ws)
  }

  lemma TrackedIsRead(s: State, a: nat)
    requires Invariant(s)
    ensures a in View(Rescan(s)).words <==> IsTracked(s, a)
    ensures IsTracked(s, a) ==> a in s.process.mem && View(Rescan(s)).words[a] == s.process.mem[a].word
  {
    RescanInvariant(s);
    RescanTracks(s, a);
    OwnedIsRead(Rescan(s), a);
  }

  lemma AllWantIsAllTo(s: State, slots: Slots, images: Images, a: nat, callback: nat)
    requires Invariant(s) && SlotsOf(slots, images) && AllWant(s, images, a, callback)
    ensures AllTo(ThePlan(s, slots), a, callback)
  {
    forall w | w in ThePlan(s, slots) && w.addr == a
      ensures w.callback == callback
    {
      var j, l := PlannedIsWanted(s, slots, images, w);
    }
  }

  lemma SlotIsHooked(s: State, slots: Slots, images: Images, t: State, i: nat, k: nat, a: nat)
    requires Invariant(s) && SlotsOf(slots, images) && PatchedFrom(Rescan(s), t, ThePlan(s, slots))
    requires Wants(s, images, i, k, a) && IsTracked(s, a) && AllWant(s, images, a, s.queue[i].callback)
    ensures a in t.process.mem && t.process.mem[a].word == s.queue[i].callback
  {
    TrackedIsRead(s, a);
    AllWantIsAllTo(s, slots, images, a, s.queue[i].callback);
    WantedIsPlanned(s, slots, images, i, k, a);
    ReadsCallback(View(Rescan(s)), ThePlan(s, slots), a, s.queue[i].callback);
    assert a in View(t).words;
  }

  lemma OtherIsKept(s: State, slots: Slots, images: Images, t: State, a: nat)
    requires Invariant(s) && SlotsOf(slots, images) && PatchedFrom(Rescan(s), t, ThePlan(s, slots))
    requires IsTracked(s, a) && forall i: nat, k: nat :: !Wants(s, images, i, k, a)
    ensures a in s.process.mem && a in t.process.mem && t.process.mem[a].word == s.process.mem[a].word
  {
    TrackedIsRead(s, a);
    forall w | w in ThePlan(s, slots)
      ensures w.addr != a
    {
      var i, k := PlannedIsWanted(s, slots, images, w);
    }
    ReadsSame(View(Rescan(s)), ThePlan(s, slots), a);
    assert a in View(t).words;
  }

  lemma HookedIsThere(s: State, slots: Slots, images: Images, w: Patch)
    requires Invariant(s) && SlotsOf(slots, images) && AlreadyHooked(s, images, w.saveTo)
    requires w in ThePlan(s, slots) && w.addr in View(Rescan(s)).words
    ensures View(Rescan(s)).words[w.addr] == w.callback && AllTo(ThePlan(s, slots), w.addr, w.callback)
  {
    var i, k := PlannedIsWanted(s, slots, images, w);
    TrackedIsRead(s, w.addr);
    AllWantIsAllTo(s, slots, images, w.addr, w.callback);
  }

  lemma HookedAreThere(s: State, slots: Slots, images: Images, o: Overlay, ws: seq<Patch>, p: nat)
    requires Invariant(s) && SlotsOf(slots, images) && AlreadyHooked(s, images, p)
    requires o == View(Rescan(s)) && ws == ThePlan(s, slots)
    ensures AlreadyThere(o, ws, p)
  {
    forall w | w in ws && w.saveTo == p && w.addr in o.words
      ensures o.words[w.addr] == w.callback && AllTo(ws, w.addr, w.callback)
    {
      HookedIsThere(s, slots, images, w);
    }
  }

  lemma PointerIsKept(s: State, slots: Slots, images: Images, t: State, p: nat)
    requires Invariant(s) && SlotsOf(slots, images) && PatchedFrom(Rescan(s), t, ThePlan(s, slots))
    requires p == 0 || AlreadyHooked(s, images, p)
    ensures p in t.saved <==> p in s.saved
    ensures p in s.saved ==> t.saved[p] == s.saved[p]
  {
    var o, ws := View(Rescan(s)), ThePlan(s, slots);
    if p != 0 {
      HookedAreThere(s, slots, images, o, ws, p);
    }
    PointerKept(o, ws, p);
    assert o.saved == s.saved && View(t).saved == t.saved;
  }

  lemma RestIsQueued(s: State, t: State)
    requires Invariant(s) && t.queue == CommitLeftover(Rescan(s).infos, s.queue)
    ensures RestQueued(s, t)
  {
    var r := Rescan(s).infos;
    forall reg
      ensures reg in t.queue <==> reg in s.queue && forall k: nat :: !StartsAt(s, k, reg)
    {
      LeftoverExactly(r, Ascending(r.Keys), s.queue, reg);
      if reg in s.queue {
        StartsNowhere(s, reg);
      }
    }
  }

  ghost predicate AllSlotsOwned(infos: Regions, ws: seq<Patch>) {
    forall w :: w in ws ==> Owner(infos, w.addr).Some?
  }

  lemma OwnedIsTaken(s: State, slots: Slots, images: Images)
    requires Invariant(s) && SlotsOf(slots, images)
    ensures AllSlotsOwned(Rescan(s).infos, ThePlan(s, slots)) <==> AllTaken(s, images)
  {
    if AllSlotsOwned(Rescan(s).infos, ThePlan(s, slots)) {
      forall i: nat, k: nat, a: nat | Wants(s, images, i, k, a)
        ensures IsTracked(s, a)
      {
        WantedIsPlanned(s, slots, images, i, k, a);
        RescanTracks(s, a);
        assert Patch(a, s.queue[i].callback, s.queue[i].backup).addr == a;
      }
    } else {
      var w :| w in ThePlan(s, slots) && Owner(Rescan(s).infos, w.addr).None?;
      var i, k := PlannedIsWanted(s, slots, images, w);
      RescanTracks(s, w.addr);
    }
  }

  lemma PatchesAreDone(s: State, slots: Slots, images: Images, t: State)
    requires Invariant(s) && SlotsOf(slots, images) && PatchedFrom(Rescan(s), t, ThePlan(s, slots))
    ensures SlotsHooked(s, t, images) && OthersKept(s, t, images) && PointersKept(s, t, images)
  {
    forall i: nat, k: nat, a: nat | Wants(s, images, i, k, a) && IsTracked(s, a) && AllWant(s, images, a, s.queue[i].callback)
      ensures a in t.process.mem && t.process.mem[a].word == s.queue[i].callback
    {
      SlotIsHooked(s, slots, images, t, i, k, a);
    }
    forall a: nat | IsTracked(s, a) && forall i: nat, k: nat :: !Wants(s, images, i, k, a)
      ensures a in s.process.mem && a in t.process.mem && t.process.mem[a].word == s.process.mem[a].word
    {
      OtherIsKept(s, slots, images, t, a);
    }
    forall p: nat | p == 0 || AlreadyHooked(s, images, p)
      ensures p in t.saved <==> p in s.saved
      ensures p in s.saved ==> t.saved[p] == s.saved[p]
    {
      PointerIsKept(s, slots, images, t, p);
    }
  }

  /** After a commit whose calls all succeed, each tracked slot of a request reads its callback, and no other
      tracked word has changed; a caller's pointer whose slots held the callback already is left alone; and
      the requests that start nowhere stay queued. */
  lemma CommitIsDone(s: State, slots: Slots, images: Images, calls: seq<Call>, ok: bool)
    requires Invariant(s) && SlotsOf(slots, images) && CanCommit(s, slots, calls)
    requires ok <==> s.queue == [] || (!CommitSkips(s) && AllSlotsOwned(Rescan(s).infos, ThePlan(s, slots)))
    ensures CommitDone(s, Commit(s, slots, calls), images, ok)
  {
    SkipsWithoutFile(s);
    if !CommitSkips(s) {
      var t := Commit(s, slots, calls);
      RescanInvariant(s);
      HookAllRefines(Rescan(s), calls);
      assert View(t) == View(HookAll(Rescan(s), calls));
      PatchesAreDone(s, slots, images, t);
      RestIsQueued(s, t);
      OwnedIsTaken(s, slots, images);
    }
  }
}
