/**
 The library's own client: hook_plt registers and commits a batch of PLT hooks and keeps those that
 took; restore_plt_hook registers each of them again with the original function and commits.
 */
module PltHooks {
  import opened AddressSpace
  import opened HookState
  import opened HookOverlay
  import opened HookCommit
  import opened HookPlan
  import opened HookReplan
  import opened HookUnderneath
  import opened HookRoundTrip
  import opened HookRuns
  import opened HookTables
  import opened HookManager

  // A hook that was registered; oldFunc is the address of the variable that gets the original.
  datatype PltHook = PltHook(dev: nat, inode: nat, symbol: Name, oldFunc: nat)

  // A hook to install in one of the libraries found in the listing.
  datatype Wanted = Wanted(suffix: string, symbol: Name, newFunc: nat, oldFunc: nat)

  predicate EndsWith(path: string, suffix: string) {
    |suffix| <= |path| && path[|path| - |suffix|..] == suffix
  }

  // The file of the last mapping whose path ends so; a library that is not mapped has no file.
  function FileOf(maps: seq<MapInfo>, suffix: string): (f: FileId)
    ensures f != FileId(0, 0) ==> exists i :: 0 <= i < |maps| && EndsWith(maps[i].path, suffix) && f == FileId(maps[i].dev, maps[i].inode)
  {
    if maps == [] then FileId(0, 0)
    else if EndsWith(Last(maps).path, suffix) then FileId(Last(maps).dev, Last(maps).inode)
    else FileOf(Front(maps), suffix)
  }

  // Mapping i is the last one whose path ends so.
  ghost predicate IsLastOf(maps: seq<MapInfo>, suffix: string, i: nat) {
    && i < |maps| && HasEnd(maps[i].path, suffix)
    && forall j :: i < j < |maps| ==> !HasEnd(maps[j].path, suffix)
  }

  ghost predicate HasEnd(path: string, suffix: string) {
    exists start :: path == start + suffix
  }

  // f is the file of the last mapping whose path ends so; 0 and 0 without one.
  ghost predicate IsFileOf(maps: seq<MapInfo>, suffix: string, f: FileId) {
    && (forall i: nat :: IsLastOf(maps, suffix, i) ==> f.dev == maps[i].dev && f.inode == maps[i].inode)
    && ((forall i :: 0 <= i < |maps| ==> !HasEnd(maps[i].path, suffix)) ==> f.dev == 0 && f.inode == 0)
  }

  lemma EndsWithExactly(path: string, suffix: string)
    ensures EndsWith(path, suffix) <==> HasEnd(path, suffix)
  {
    if EndsWith(path, suffix) {
      assert path == path[..|path| - |suffix|] + suffix;
    }
  }

  /** The last mapping decides, and a library that is not mapped has the file 0, 0. */
  lemma {:induction false} FileOfExactly(maps: seq<MapInfo>, suffix: string)
    ensures IsFileOf(maps, suffix, FileOf(maps, suffix))
    decreases |maps|
  {
    if maps != [] {
      var n := |maps| - 1;
      EndsWithExactly(maps[n].path, suffix);
      if EndsWith(maps[n].path, suffix) {
        assert forall i: nat :: IsLastOf(maps, suffix, i) ==> i == n;
      } else {
        var front := Front(maps);
        FileOfExactly(front, suffix);
        forall i: nat | IsLastOf(maps, suffix, i)
          ensures IsLastOf(front, suffix, i) && front[i] == maps[i]
        {
          assert forall j :: 0 <= j < n ==> front[j] == maps[j];
        }
        if forall i :: 0 <= i < |maps| ==> !HasEnd(maps[i].path, suffix) {
          assert forall i :: 0 <= i < n ==> front[i] == maps[i];
        }
      }
    }
  }

  function Request(dev: nat, inode: nat, symbol: Name, callback: nat, backup: nat): RegisterInfo {
    RegisterInfo(dev, inode, 0, UINTPTR_MAX, symbol, callback, backup)
  }

  function RequestFor(maps: seq<MapInfo>, w: Wanted): RegisterInfo {
    var f := FileOf(maps, w.suffix);
    Request(f.dev, f.inode, w.symbol, w.newFunc, w.oldFunc)
  }

  // The requests that RegisterHook accepts, in order.
  function Requests(maps: seq<MapInfo>, ws: seq<Wanted>): (q: seq<RegisterInfo>)
    ensures forall reg :: reg in q ==> Acceptable(reg) && reg == Request(reg.dev, reg.inode, reg.symbol, reg.callback, reg.backup)
  {
    if ws == [] then []
    else Requests(maps, Front(ws)) + (if Acceptable(RequestFor(maps, Last(ws))) then [RequestFor(maps, Last(ws))] else [])
  }

  // The library of w is mapped from a file with a device and an inode, and w names a symbol and a function.
  ghost predicate CanAsk(maps: seq<MapInfo>, w: Wanted, f: FileId) {
    IsFileOf(maps, w.suffix, f) && f.dev != 0 && f.inode != 0 && w.symbol != [] && w.newFunc != 0
  }

  // reg asks for w in the file f, at any offset.
  predicate Asks(reg: RegisterInfo, w: Wanted, f: FileId) {
    reg == RegisterInfo(f.dev, f.inode, 0, 0xffff_ffff_ffff_ffff, w.symbol, w.newFunc, w.oldFunc)
  }

  // q asks, in order, for each symbol wanted in a library that is mapped, and for nothing else: request j is
  // for the wanted symbol at[j].
  ghost predicate AsksFor(maps: seq<MapInfo>, ws: seq<Wanted>, q: seq<RegisterInfo>, at: seq<nat>) {
    && |at| == |q|
    && (forall i, j :: 0 <= i < j < |at| ==> at[i] < at[j])
    && (forall j :: 0 <= j < |at| ==> AsksAt(maps, ws, q[j], at[j]))
    && (forall i :: 0 <= i < |ws| && IsMapped(maps, ws[i]) ==> i in at)
  }

  ghost predicate IsMapped(maps: seq<MapInfo>, w: Wanted) {
    exists f :: CanAsk(maps, w, f)
  }

  ghost predicate AsksAt(maps: seq<MapInfo>, ws: seq<Wanted>, reg: RegisterInfo, i: nat) {
    i < |ws| && CanAsk(maps, ws[i], FileId(reg.dev, reg.inode)) && Asks(reg, ws[i], FileId(reg.dev, reg.inode))
  }

  lemma FileIsOne(maps: seq<MapInfo>, suffix: string, f: FileId)
    requires IsFileOf(maps, suffix, f)
    ensures f == FileOf(maps, suffix)
  {
    FileOfExactly(maps, suffix);
    if i :| 0 <= i < |maps| && HasEnd(maps[i].path, suffix) {
      var last := LastWith(maps, suffix, i);
    }
  }

  lemma {:induction false} LastWith(maps: seq<MapInfo>, suffix: string, i: nat) returns (last: nat)
    requires i < |maps| && HasEnd(maps[i].path, suffix)
    ensures IsLastOf(maps, suffix, last)
    decreases |maps| - i
  {
    if j: nat :| i < j < |maps| && HasEnd(maps[j].path, suffix) {
      last := LastWith(maps, suffix, j);
    } else {
      last := i;
    }
  }

  lemma AcceptedAsks(maps: seq<MapInfo>, w: Wanted)
    ensures Acceptable(RequestFor(maps, w)) ==> CanAsk(maps, w, FileOf(maps, w.suffix))
    ensures Asks(RequestFor(maps, w), w, FileOf(maps, w.suffix))
  {
    FileOfExactly(maps, w.suffix);
  }

  lemma MappedIsAccepted(maps: seq<MapInfo>, w: Wanted)
    requires IsMapped(maps, w)
    ensures Acceptable(RequestFor(maps, w))
  {
    var f :| CanAsk(maps, w, f);
    FileIsOne(maps, w.suffix, f);
  }

  /** hook_plt queues each symbol that is wanted in a mapped library, with the file of its last mapping. */
  lemma {:induction false} RequestsInOrder(maps: seq<MapInfo>, ws: seq<Wanted>) returns (at: seq<nat>)
    ensures AsksFor(maps, ws, Requests(maps, ws), at)
    decreases |ws|
  {
    at := [];
    if ws != [] {
      var w := Last(ws);
      at := RequestsInOrder(maps, Front(ws));
      AcceptedAsks(maps, w);
      if Acceptable(RequestFor(maps, w)) {
        AskedOneMore(maps, ws, Requests(maps, Front(ws)), at, RequestFor(maps, w));
        at := at + [|ws| - 1];
      } else {
        if IsMapped(maps, w) {
          MappedIsAccepted(maps, w);
        }
        AskedNoMore(maps, ws, Requests(maps, Front(ws)), at);
      }
    }
  }

  lemma AskedOneMore(maps: seq<MapInfo>, ws: seq<Wanted>, q: seq<RegisterInfo>, at: seq<nat>, reg: RegisterInfo)
    requires ws != [] && AsksFor(maps, Front(ws), q, at) && AsksAt(maps, ws, reg, |ws| - 1)
    ensures AsksFor(maps, ws, q + [reg], at + [|ws| - 1])
  {
    var at', q' := at + [|ws| - 1], q + [reg];
    forall j | 0 <= j < |at'|
      ensures AsksAt(maps, ws, q'[j], at'[j])
    {
      assert j < |at| ==> AsksAt(maps, Front(ws), q[j], at[j]);
    }
    forall i | 0 <= i < |ws| && IsMapped(maps, ws[i])
      ensures i in at'
    {
      assert i < |ws| - 1 ==> Front(ws)[i] == ws[i];
    }
    forall i, j | 0 <= i < j < |at'|
      ensures at'[i] < at'[j]
    {
      assert AsksAt(maps, Front(ws), q[i], at[i]);
    }
  }

  lemma AskedNoMore(maps: seq<MapInfo>, ws: seq<Wanted>, q: seq<RegisterInfo>, at: seq<nat>)
    requires ws != [] && AsksFor(maps, Front(ws), q, at) && !IsMapped(maps, Last(ws))
    ensures AsksFor(maps, ws, q + [], at)
  {
    assert q + [] == q;
    forall j | 0 <= j < |at|
      ensures AsksAt(maps, ws, q[j], at[j])
    {
      assert AsksAt(maps, Front(ws), q[j], at[j]);
    }
    forall i | 0 <= i < |ws| && IsMapped(maps, ws[i])
      ensures i in at
    {
      assert i < |ws| - 1 && Front(ws)[i] == ws[i];
    }
  }

  function Kept(q: seq<RegisterInfo>): (hs: seq<PltHook>)
    ensures |hs| == |q| && forall i :: 0 <= i < |q| ==> hs[i] == PltHook(q[i].dev, q[i].inode, q[i].symbol, q[i].backup)
  {
    seq(|q|, i requires 0 <= i < |q| => PltHook(q[i].dev, q[i].inode, q[i].symbol, q[i].backup))
  }

  // One more symbol, after what was queued and kept before.
  lemma RequestsNext(maps: seq<MapInfo>, ws: seq<Wanted>, i: nat, queue: seq<RegisterInfo>, hooks: seq<PltHook>)
    requires i < |ws|
    ensures var reg, q, q' := RequestFor(maps, ws[i]), Requests(maps, ws[..i]), Requests(maps, ws[..i + 1]);
            if Acceptable(reg) then
              && queue + q' == queue + q + [reg]
              && hooks + Kept(q') == hooks + Kept(q) + [PltHook(reg.dev, reg.inode, reg.symbol, reg.backup)]
            else q' == q
  {
    assert Front(ws[..i + 1]) == ws[..i] && Last(ws[..i + 1]) == ws[i];
    var reg, q := RequestFor(maps, ws[i]), Requests(maps, ws[..i]);
    if Acceptable(reg) {
      assert queue + (q + [reg]) == queue + q + [reg];
      assert Kept(q + [reg]) == Kept(q) + Kept([reg]);
      assert hooks + (Kept(q) + Kept([reg])) == hooks + Kept(q) + Kept([reg]);
      assert Kept([reg]) == [PltHook(reg.dev, reg.inode, reg.symbol, reg.backup)];
    } else {
      assert q + [] == q;
    }
  }

  // Without the hooks that got no original function.
  function Took(hs: seq<PltHook>, saved: map<nat, nat>): seq<PltHook> {
    if hs == [] then []
    else Took(Front(hs), saved) + (if Behind(saved, Last(hs).oldFunc) == 0 then [] else [Last(hs)])
  }

  function RestoreRequest(h: PltHook, saved: map<nat, nat>): RegisterInfo {
    Request(h.dev, h.inode, h.symbol, Behind(saved, h.oldFunc), 0)
  }

  // The requests that put the originals back, as far as RegisterHook accepts them.
  function Restoring(hs: seq<PltHook>, saved: map<nat, nat>): seq<RegisterInfo> {
    if hs == [] then []
    else
      Restoring(Front(hs), saved) +
      (if Acceptable(RestoreRequest(Last(hs), saved)) then [RestoreRequest(Last(hs), saved)] else [])
  }

  predicate AllAccepted(hs: seq<PltHook>, saved: map<nat, nat>) {
    forall i :: 0 <= i < |hs| ==> Acceptable(RestoreRequest(hs[i], saved))
  }

  class HookContext {
    const manager: Manager
    var pltBackup: seq<PltHook>
    var shouldUnmap: bool

    constructor (manager: Manager)
      ensures this.manager == manager && pltBackup == [] && !shouldUnmap
    {
      this.manager := manager;
      pltBackup, shouldUnmap := [], false;
    }

    method FindFile(maps: seq<MapInfo>, suffix: string) returns (f: FileId)
      ensures f == FileOf(maps, suffix) && IsFileOf(maps, suffix, f)
    {
      FileOfExactly(maps, suffix);
      f := FileId(0, 0);
      var i := 0;
      while i < |maps|
        invariant 0 <= i <= |maps| && f == FileOf(maps[..i], suffix)
      {
        assert Front(maps[..i + 1]) == maps[..i] && Last(maps[..i + 1]) == maps[i];
        if EndsWith(maps[i].path, suffix) {
          f := FileId(maps[i].dev, maps[i].inode);
        }
        i := i + 1;
      }
      assert maps[..i] == maps;
    }

    method RegisterHook(dev: nat, inode: nat, symbol: Name, newFunc: nat, oldFunc: nat)
      requires manager.Valid()
      modifies this`pltBackup, manager
      ensures manager.Valid() && manager.infos == old(manager.infos) && manager.saved == old(manager.saved)
      ensures dev != 0 && inode != 0 && symbol != [] && newFunc != 0 <==> Acceptable(Request(dev, inode, symbol, newFunc, oldFunc))
      ensures var reg := RegisterInfo(dev, inode, 0, 0xffff_ffff_ffff_ffff, symbol, newFunc, oldFunc);
              if dev != 0 && inode != 0 && symbol != [] && newFunc != 0 then
                && manager.queue == old(manager.queue) + [reg]
                && pltBackup == old(pltBackup) + [PltHook(dev, inode, symbol, oldFunc)]
              else
                manager.queue == old(manager.queue) && pltBackup == old(pltBackup)
    {
      var ok := manager.RegisterHook(dev, inode, symbol, newFunc, oldFunc);
      if !ok {
        return;
      }
      pltBackup := pltBackup + [PltHook(dev, inode, symbol, oldFunc)];
    }

    // std::erase_if on plt_backup.
    method EraseUntaken()
      modifies this`pltBackup
      ensures pltBackup == Took(old(pltBackup), manager.saved)
    {
      var all := pltBackup;
      pltBackup := [];
      var i := 0;
      while i < |all|
        invariant 0 <= i <= |all| && pltBackup == Took(all[..i], manager.saved)
      {
        assert Front(all[..i + 1]) == all[..i] && Last(all[..i + 1]) == all[i];
        if Behind(manager.saved, all[i].oldFunc) != 0 {
          pltBackup := pltBackup + [all[i]];
        }
        i := i + 1;
      }
      assert all[..i] == all;
    }

    method RegisterAll(found: seq<MapInfo>, ws: seq<Wanted>)
      requires manager.Valid()
      modifies this`pltBackup, manager
      ensures manager.Valid() && manager.infos == old(manager.infos) && manager.saved == old(manager.saved)
      ensures manager.queue == old(manager.queue) + Requests(found, ws)
      ensures pltBackup == old(pltBackup) + Kept(Requests(found, ws))
    {
      var i := 0;
      while i < |ws|
        invariant 0 <= i <= |ws|
        invariant manager.Valid() && manager.infos == old(manager.infos) && manager.saved == old(manager.saved)
        invariant manager.queue == old(manager.queue) + Requests(found, ws[..i])
        invariant pltBackup == old(pltBackup) + Kept(Requests(found, ws[..i]))
      {
        RequestsNext(found, ws, i, old(manager.queue), old(pltBackup));
        var f := FindFile(found, ws[i].suffix);
        RegisterHook(f.dev, f.inode, ws[i].symbol, ws[i].newFunc, ws[i].oldFunc);
        i := i + 1;
      }
      assert ws[..i] == ws;
    }

    /** hook_plt: found is its own listing, maps the one that CommitHook makes; at lists the wanted symbols
        whose library is mapped. */
    method HookPlt(found: seq<MapInfo>, maps: seq<MapInfo>, ws: seq<Wanted>)
      returns (ghost ok: bool, ghost calls: seq<Call>, ghost at: seq<nat>)
      requires manager.Valid() && DistinctStarts(maps) && forall i :: 0 <= i < |maps| ==> WellFormedMapping(maps[i])
      modifies this`pltBackup, manager, manager.os
      ensures manager.Valid()
      ensures pltBackup == Took(old(pltBackup) + Kept(Requests(found, ws)), manager.saved)
      ensures manager.os.failures >= old(manager.os.failures)
      ensures manager.os.failures == old(manager.os.failures) && Lists(maps, old(manager.os.process).vmas) ==>
                && CommittedBy(Queued(old(manager.Abstract()), Requests(found, ws)), manager.Abstract(), manager.TheSlots(), calls, ok)
                && CommitSeen(Queued(old(manager.Abstract()), Requests(found, ws)), manager.Abstract(), manager.images, ok)
      ensures AsksFor(found, ws, Requests(found, ws), at)
    {
      at := RequestsInOrder(found, ws);
      RegisterAll(found, ws);
      ghost var r, steps;
      ok, calls, r, steps := manager.CommitHook(maps);
      EraseUntaken();
    }

    method RegisterOriginals()
      requires manager.Valid()
      modifies this`shouldUnmap, manager
      ensures manager.Valid() && manager.infos == old(manager.infos) && manager.saved == old(manager.saved)
      ensures manager.queue == old(manager.queue) + Restoring(pltBackup, manager.saved)
      ensures shouldUnmap <==> old(shouldUnmap) && AllAccepted(pltBackup, manager.saved)
    {
      var i := 0;
      while i < |pltBackup|
        invariant 0 <= i <= |pltBackup|
        invariant manager.Valid() && manager.infos == old(manager.infos) && manager.saved == old(manager.saved)
        invariant manager.queue == old(manager.queue) + Restoring(pltBackup[..i], manager.saved)
        invariant shouldUnmap <==> old(shouldUnmap) && AllAccepted(pltBackup[..i], manager.saved)
      {
        var h := pltBackup[i];
        AcceptedOneMore(pltBackup, manager.saved, i);
        var ok := manager.RegisterHook(h.dev, h.inode, h.symbol, Behind(manager.saved, h.oldFunc), 0);
        if !ok {
          shouldUnmap := false;
        }
        i := i + 1;
      }
      assert pltBackup[..i] == pltBackup;
    }

    /** restore_plt_hook: the library stays loaded if an original could not be put back. */
    method RestorePltHook(maps: seq<MapInfo>) returns (ghost ok: bool, ghost calls: seq<Call>)
      requires manager.Valid() && DistinctStarts(maps) && forall i :: 0 <= i < |maps| ==> WellFormedMapping(maps[i])
      modifies this`shouldUnmap, manager, manager.os
      ensures manager.Valid()
      ensures shouldUnmap <==> old(shouldUnmap) && AllAccepted(pltBackup, old(manager.saved)) && ok
      ensures manager.os.failures >= old(manager.os.failures)
      ensures manager.os.failures == old(manager.os.failures) && Lists(maps, old(manager.os.process).vmas) ==>
                && CommittedBy(Queued(old(manager.Abstract()), Restoring(pltBackup, old(manager.saved))),
                               manager.Abstract(), manager.TheSlots(), calls, ok)
                && CommitSeen(Queued(old(manager.Abstract()), Restoring(pltBackup, old(manager.saved))),
                              manager.Abstract(), manager.images, ok)
    {
      RegisterOriginals();
      var done;
      ghost var r, steps;
      done, calls, r, steps := manager.CommitHook(maps);
      ok := done;
      if !done {
        shouldUnmap := false;
      }
    }
  }

  ghost function Queued(s: State, more: seq<RegisterInfo>): State {
    s.(queue := s.queue + more)
  }

  lemma AcceptedOneMore(hs: seq<PltHook>, saved: map<nat, nat>, i: nat)
    requires i < |hs|
    ensures Restoring(hs[..i + 1], saved) ==
            Restoring(hs[..i], saved) + (if Acceptable(RestoreRequest(hs[i], saved)) then [RestoreRequest(hs[i], saved)] else [])
    ensures AllAccepted(hs[..i + 1], saved) <==> AllAccepted(hs[..i], saved) && Acceptable(RestoreRequest(hs[i], saved))
  {
    assert Front(hs[..i + 1]) == hs[..i] && Last(hs[..i + 1]) == hs[i];
    if AllAccepted(hs[..i + 1], saved) {
      forall j | 0 <= j < i
        ensures Acceptable(RestoreRequest(hs[..i][j], saved))
      {
        assert hs[..i][j] == hs[..i + 1][j];
      }
      assert hs[..i + 1][i] == hs[i];
    }
  }

  /** std::erase_if keeps exactly the hooks whose variable holds an original. */
  lemma {:induction false} TookExactly(hs: seq<PltHook>, saved: map<nat, nat>, h: PltHook)
    ensures h in Took(hs, saved) <==> h in hs && h.oldFunc in saved && saved[h.oldFunc] != 0
    decreases |hs|
  {
    if hs != [] {
      assert hs == Front(hs) + [Last(hs)];
      TookExactly(Front(hs), saved, h);
    }
  }

  // reg puts the original of h back, and asks for no original in turn.
  predicate Restores(reg: RegisterInfo, h: PltHook, saved: map<nat, nat>) {
    && h.dev != 0 && h.inode != 0 && h.symbol != [] && h.oldFunc in saved && saved[h.oldFunc] != 0
    && reg == RegisterInfo(h.dev, h.inode, 0, 0xffff_ffff_ffff_ffff, h.symbol, saved[h.oldFunc], 0)
  }

  lemma RestoresOne(reg: RegisterInfo, h: PltHook, saved: map<nat, nat>)
    ensures Restores(reg, h, saved) <==> reg == RestoreRequest(h, saved) && Acceptable(reg)
  {
  }

  ghost predicate RestoresAny(reg: RegisterInfo, hs: seq<PltHook>, saved: map<nat, nat>) {
    exists h :: h in hs && Restores(reg, h, saved)
  }

  /** restore_plt_hook queues just those requests. */
  lemma {:induction false} RestoringExactly(hs: seq<PltHook>, saved: map<nat, nat>, reg: RegisterInfo)
    ensures reg in Restoring(hs, saved) <==> RestoresAny(reg, hs, saved)
    decreases |hs|
  {
    if hs != [] {
      assert hs == Front(hs) + [Last(hs)];
      RestoringExactly(Front(hs), saved, reg);
      RestoresOne(reg, Last(hs), saved);
      RestoresLast(reg, hs, saved);
      RestoringLast(hs, saved, reg);
    }
  }

  lemma RestoringLast(hs: seq<PltHook>, saved: map<nat, nat>, reg: RegisterInfo)
    requires hs != []
    ensures reg in Restoring(hs, saved) <==>
            reg in Restoring(Front(hs), saved) || (reg == RestoreRequest(Last(hs), saved) && Acceptable(reg))
  {
  }

  lemma RestoresLast(reg: RegisterInfo, hs: seq<PltHook>, saved: map<nat, nat>)
    requires hs != []
    ensures RestoresAny(reg, hs, saved) <==> RestoresAny(reg, Front(hs), saved) || Restores(reg, Last(hs), saved)
  {
    assert hs == Front(hs) + [Last(hs)];
    if h :| h in Front(hs) && Restores(reg, h, saved) {
      assert h in hs;
    }
    if h :| h in hs && Restores(reg, h, saved) {
      assert h in Front(hs) || h == Last(hs);
    }
  }

  // ----- hook_plt, then restore_plt_hook -----

  // What hook_plt queues.
  predicate PltRequests(q: seq<RegisterInfo>) {
    forall reg :: reg in q ==> Acceptable(reg) && reg == Request(reg.dev, reg.inode, reg.symbol, reg.callback, reg.backup)
  }

  /** The hooks that are kept are those of the requests that got an original. */
  lemma {:induction false} TookAnswered(q: seq<RegisterInfo>, saved: map<nat, nat>)
    ensures Took(Kept(q), saved) == Kept(AnsweredRequests(q, saved))
    decreases |q|
  {
    if q != [] {
      TookAnswered(Front(q), saved);
      TookLast(q, saved);
      AnsweredLast(Front(q), Last(q), saved);
      assert q == Front(q) + [Last(q)];
      KeptSum(AnsweredRequests(Front(q), saved), Last(q));
    }
  }

  lemma KeptSum(q: seq<RegisterInfo>, reg: RegisterInfo)
    ensures Kept(q + [reg]) == Kept(q) + Kept([reg])
    ensures Kept(q) + [] == Kept(q) && q + [] == q
  {
  }

  lemma TookLast(q: seq<RegisterInfo>, saved: map<nat, nat>)
    requires q != []
    ensures Took(Kept(q), saved) ==
            Took(Kept(Front(q)), saved) + (if Behind(saved, Last(q).backup) == 0 then [] else Kept([Last(q)]))
  {
    assert Front(Kept(q)) == Kept(Front(q)) && Kept([Last(q)]) == [Last(Kept(q))];
  }

  lemma {:induction false} RestoringAll(q: seq<RegisterInfo>, saved: map<nat, nat>)
    requires PltRequests(q) && forall reg :: reg in q ==> Behind(saved, reg.backup) != 0
    ensures Restoring(Kept(q), saved) == UndoQueue(q, saved) && AllAccepted(Kept(q), saved)
    decreases |q|
  {
    forall i | 0 <= i < |q|
      ensures RestoreRequest(Kept(q)[i], saved) == UndoRequest(q[i], saved)
      ensures Acceptable(UndoRequest(q[i], saved))
    {
      assert q[i] in q;
    }
    if q != [] {
      assert Front(Kept(q)) == Kept(Front(q)) && q == Front(q) + [Last(q)];
      RestoringAll(Front(q), saved);
      assert UndoQueue(q, saved) == UndoQueue(Front(q), saved) + [UndoRequest(Last(q), saved)];
    }
  }

  /** Registering each kept hook with its original is undoing each request that got one. */
  lemma RestoringIsUndoing(q: seq<RegisterInfo>, saved: map<nat, nat>)
    requires PltRequests(q)
    ensures var hooks := Took(Kept(q), saved);
            Restoring(hooks, saved) == UndoQueue(AnsweredRequests(q, saved), saved) && AllAccepted(hooks, saved)
  {
    TookAnswered(q, saved);
    AnsweredMembers(q, saved);
    RestoringAll(AnsweredRequests(q, saved), saved);
  }

  // Every slot that the second commit patches is tracked.
  lemma UndoingOwned(s: State, slots: Slots, calls: seq<Call>)
    requires Invariant(s) && CanCommit(s, slots, calls) && FreshBatch(s, slots, calls)
    requires Invariant(Rescan(ReadyToUndo(s, slots, calls)))
    ensures AllOwned(Rescan(ReadyToUndo(s, slots, calls)).infos, UndoingPatches(s, slots, calls))
  {
    var t, us := Rescan(ReadyToUndo(s, slots, calls)), UndoingPatches(s, slots, calls);
    UndoingSlots(s, slots, calls);
    forall i | 0 <= i < |us|
      ensures Owner(t.infos, us[i].addr).Some?
    {
      OwnedIsRead(t, us[i].addr);
    }
  }

  lemma RestoreSucceeds(s: State, slots: Slots, calls: seq<Call>, u: State, undoing: seq<Call>, ok: bool)
    requires Invariant(s) && CanCommit(s, slots, calls) && FreshBatch(s, slots, calls)
    requires CommittedBy(ReadyToUndo(s, slots, calls), u, slots, undoing, ok)
    ensures ok
  {
    SecondScanFinds(s, slots, calls);
    if !CommitSkips(ReadyToUndo(s, slots, calls)) {
      RescanInvariant(ReadyToUndo(s, slots, calls));
      UndoingNeedsNoPlace(s, slots, calls, undoing);
      UndoingOwned(s, slots, calls);
    }
  }

  /** hook_plt and then restore_plt_hook: each original is accepted and the restore succeeds, so the
      library may be unloaded; and each word reads as it did if and only if the slots behind each
      pointer started alike, and none of them null. A hook over a null slot is erased from plt_backup
      and stays. */
  lemma PltRoundTrip(s: State, q: seq<RegisterInfo>, slots: Slots, calls: seq<Call>, t: State, ok: bool,
                     hooks: seq<PltHook>, undoing: seq<Call>, u: State, ok': bool)
    requires Invariant(s) && s.queue == [] && PltRequests(q)
    requires CommittedBy(Queued(s, q), t, slots, calls, ok) && FreshBatch(Queued(s, q), slots, calls)
    requires hooks == Took(Kept(q), t.saved)
    requires CommittedBy(Queued(t, Restoring(hooks, t.saved)), u, slots, undoing, ok')
    ensures AllAccepted(hooks, t.saved) && ok'
    ensures var r := Rescan(Queued(s, q));
            && (ReadsAlike(r, u) <==> Restorable(r, PatchesOf(calls)))
            && SameUnderneath(r.infos, s, u)
            && (Hooks(s) == map[] && NoneSelf(r.infos) ==> (u.process == s.process <==> Restorable(r, PatchesOf(calls))))
  {
    var s1 := Queued(s, q);
    assert s1.queue == q && Invariant(s1);
    RestoringIsUndoing(q, t.saved);
    assert Queued(t, Restoring(hooks, t.saved)) == ReadyToUndo(s1, slots, calls);
    RestoreSucceeds(s1, slots, calls, u, undoing, ok');
    UnhookRestoresExactly(s1, slots, calls, undoing);
    SameUnderBoth(s1, slots, calls, undoing);
    SameStart(Rescan(s1).infos, s1, s, u);
    if Hooks(s) == map[] && NoneSelf(Rescan(s1).infos) {
      ProcessRestoredExactly(s1, slots, calls, undoing);
    }
  }

  lemma SameStart(infos: Regions, s1: State, s: State, u: State)
    requires SameUnderneath(infos, s1, u) && s.infos == s1.infos && s.process == s1.process
    ensures SameUnderneath(infos, s, u)
  {
    forall v: nat
      ensures AlikeMapping(OwnRegion(infos, v), MappingUnder(s, v), MappingUnder(u, v))
    {
      assert MappingUnder(s, v) == MappingUnder(s1, v);
    }
    forall a: nat
      ensures AlikeCell(OwnCell(infos, a), CellUnder(s, a), CellUnder(u, a))
    {
      assert CellUnder(s, a) == CellUnder(s1, a);
    }
  }

  /** With nothing to register or nothing to scan, both commits leave the process alone. */
  lemma PltSkipped(s: State, q: seq<RegisterInfo>, slots: Slots, calls: seq<Call>, t: State, ok: bool,
                   hooks: seq<PltHook>, undoing: seq<Call>, u: State, ok': bool)
    requires Invariant(s) && s.queue == [] && CommitSkips(Queued(s, q))
    requires CommittedBy(Queued(s, q), t, slots, calls, ok)
    requires hooks == Took(Kept(q), t.saved)
    requires CommittedBy(Queued(t, Restoring(hooks, t.saved)), u, slots, undoing, ok')
    ensures u.process == s.process && u.infos == s.infos
    ensures ok' <==> q == []
  {
    assert Invariant(Queued(s, q)) && Queued(s, q).queue == q;
    if q == [] {
      assert hooks == [];
    }
  }
}
