/**
 Which requests a commit consumes, and the patches they turn into: the nested loop over regions
 and requests, and its closed form.
 */
module HookPlan {
  import opened Options
  import opened HookState
  import opened HookOverlay
  import opened HookCommit

  // The slots that the image loaded at a region's start has for a symbol.
  type Slots = (nat, Name) -> seq<nat>

  // The request is for a library whose first mapping is this region.
  predicate Takes(info: HookInfo, reg: RegisterInfo) {
    info.area.offset == reg.lo && info.Match(reg)
  }

  // ----- the regions in ascending order -----

  ghost predicate IsAscending(ks: seq<nat>, keys: set<nat>) {
    && (forall i, j :: 0 <= i < j < |ks| ==> ks[i] < ks[j])
    && (forall k :: k in ks <==> k in keys)
  }

  lemma LeastExists(keys: set<nat>, k: nat)
    requires k in keys
    ensures exists m :: m in keys && forall j :: j in keys ==> m <= j
    decreases k
  {
    if j :| j in keys && j < k {
      LeastExists(keys, j);
    }
  }

  function Least(keys: set<nat>): (m: nat)
    requires keys != {}
    ensures m in keys && forall j :: j in keys ==> m <= j
  {
    var some: nat :| some in keys;
    LeastExists(keys, some);
    var m: nat :| m in keys && forall j :: j in keys ==> m <= j;
    m
  }

  function Ascending(keys: set<nat>): (ks: seq<nat>)
    ensures IsAscending(ks, keys)
    decreases |keys|
  {
    if keys == {} then []
    else
      var m := Least(keys);
      var rest := Ascending(keys - {m});
      AscendingFrom(m, rest, keys);
      [m] + rest
  }

  lemma AscendingFrom(m: nat, rest: seq<nat>, keys: set<nat>)
    requires m in keys && (forall j :: j in keys ==> m <= j) && IsAscending(rest, keys - {m})
    ensures IsAscending([m] + rest, keys)
  {
    assert forall i :: 0 <= i < |rest| ==> rest[i] in keys - {m};
  }

  // ----- who takes a request -----

  function FirstTaker(infos: Regions, ks: seq<nat>, reg: RegisterInfo): (r: Option<nat>)
    requires forall k :: k in ks ==> k in infos
    ensures r.Some? ==> r.value in ks && Takes(infos[r.value], reg)
    ensures r.None? ==> forall k :: k in ks ==> !Takes(infos[k], reg)
    decreases |ks|
  {
    if ks == [] then None
    else if Takes(infos[ks[0]], reg) then Some(ks[0])
    else FirstTaker(infos, ks[1..], reg)
  }

  /** Going up the regions, a request goes to the lowest region that takes it. */
  lemma {:induction false} FirstTakerIsLowest(infos: Regions, ks: seq<nat>, reg: RegisterInfo, k: nat)
    requires IsAscending(ks, infos.Keys)
    ensures FirstTaker(infos, ks, reg) == Some(k) <==>
            k in infos && Takes(infos[k], reg) && forall j :: j in infos && j < k ==> !Takes(infos[j], reg)
  {
    if k in infos && Takes(infos[k], reg) && forall j :: j in infos && j < k ==> !Takes(infos[j], reg) {
      var i :| 0 <= i < |ks| && ks[i] == k;
      TakerAt(infos, ks, reg, i);
    } else if FirstTaker(infos, ks, reg) == Some(k) {
      var j :| j in infos && j < k && Takes(infos[j], reg);
      LowerTakerWins(infos, ks, reg, j);
    }
  }

  lemma {:induction false} TakerAt(infos: Regions, ks: seq<nat>, reg: RegisterInfo, i: nat)
    requires (forall k :: k in ks ==> k in infos) && i < |ks| && Takes(infos[ks[i]], reg)
    requires forall j :: 0 <= j < i ==> !Takes(infos[ks[j]], reg)
    ensures FirstTaker(infos, ks, reg) == Some(ks[i])
    decreases |ks|
  {
    if i > 0 {
      TakerAt(infos, ks[1..], reg, i - 1);
    }
  }

  lemma {:induction false} LowerTakerWins(infos: Regions, ks: seq<nat>, reg: RegisterInfo, k: nat)
    requires (forall k :: k in ks ==> k in infos) && (forall i, j :: 0 <= i < j < |ks| ==> ks[i] < ks[j])
    requires k in ks && Takes(infos[k], reg)
    ensures FirstTaker(infos, ks, reg).Some? && FirstTaker(infos, ks, reg).value <= k
    decreases |ks|
  {
    if !Takes(infos[ks[0]], reg) {
      LowerTakerWins(infos, ks[1..], reg, k);
    } else {
      var i :| 0 <= i < |ks| && ks[i] == k;
    }
  }

  lemma {:induction false} TakerOfPrefix(infos: Regions, ks: seq<nat>, reg: RegisterInfo, i: nat)
    requires (forall k :: k in ks ==> k in infos) && i < |ks|
    ensures forall k :: k in ks[..i] ==> k in infos
    ensures forall k :: k in ks[..i + 1] ==> k in infos
    ensures FirstTaker(infos, ks[..i + 1], reg) ==
            if FirstTaker(infos, ks[..i], reg).Some? then FirstTaker(infos, ks[..i], reg)
            else if Takes(infos[ks[i]], reg) then Some(ks[i]) else None
    decreases i
  {
    if i > 0 {
      assert ks[1..][..i - 1] == ks[..i][1..] && ks[1..][..i] == ks[..i + 1][1..];
      TakerOfPrefix(infos, ks[1..], reg, i - 1);
    }
  }

  // ----- consuming the queue, region by region -----

  // Requests that region k takes from a queue, and those it leaves: the inner loop.
  function TakenFrom(info: HookInfo, queue: seq<RegisterInfo>): seq<RegisterInfo>
    decreases |queue|
  {
    if queue == [] then []
    else (if Takes(info, queue[0]) then [queue[0]] else []) + TakenFrom(info, queue[1..])
  }

  function LeftBy(info: HookInfo, queue: seq<RegisterInfo>): seq<RegisterInfo>
    decreases |queue|
  {
    if queue == [] then []
    else (if Takes(info, queue[0]) then [] else [queue[0]]) + LeftBy(info, queue[1..])
  }

  // Requests of the whole queue that go to region k, and those that go to none.
  function ClaimedBy(infos: Regions, ks: seq<nat>, queue: seq<RegisterInfo>, k: nat): seq<RegisterInfo>
    requires forall k :: k in ks ==> k in infos
    decreases |queue|
  {
    if queue == [] then []
    else (if FirstTaker(infos, ks, queue[0]) == Some(k) then [queue[0]] else []) + ClaimedBy(infos, ks, queue[1..], k)
  }

  function Leftover(infos: Regions, ks: seq<nat>, queue: seq<RegisterInfo>): seq<RegisterInfo>
    requires forall k :: k in ks ==> k in infos
    decreases |queue|
  {
    if queue == [] then []
    else (if FirstTaker(infos, ks, queue[0]).None? then [queue[0]] else []) + Leftover(infos, ks, queue[1..])
  }

  lemma TakeHead(info: HookInfo, reg: RegisterInfo, rest: seq<RegisterInfo>)
    ensures TakenFrom(info, [reg] + rest) == (if Takes(info, reg) then [reg] else []) + TakenFrom(info, rest)
    ensures LeftBy(info, [reg] + rest) == (if Takes(info, reg) then [] else [reg]) + LeftBy(info, rest)
  {
    assert ([reg] + rest)[1..] == rest;
  }

  /** Region after region, the loop takes from what is left exactly the requests that go to each region. */
  lemma {:induction false} LoopConsumes(infos: Regions, ks: seq<nat>, queue: seq<RegisterInfo>, i: nat)
    requires (forall k :: k in ks ==> k in infos) && (forall i, j :: 0 <= i < j < |ks| ==> ks[i] < ks[j]) && i < |ks|
    ensures var left := Leftover(infos, ks[..i], queue);
            && TakenFrom(infos[ks[i]], left) == ClaimedBy(infos, ks, queue, ks[i])
            && LeftBy(infos[ks[i]], left) == Leftover(infos, ks[..i + 1], queue)
    decreases |queue|
  {
    if queue != [] {
      var reg, rest := queue[0], Leftover(infos, ks[..i], queue[1..]);
      LoopConsumes(infos, ks, queue[1..], i);
      TakerOfPrefix(infos, ks, reg, i);
      LaterTakers(infos, ks, reg, i);
      if FirstTaker(infos, ks[..i], reg).None? {
        assert Leftover(infos, ks[..i], queue) == [reg] + rest;
        TakeHead(infos[ks[i]], reg, rest);
      } else {
        assert Leftover(infos, ks[..i], queue) == rest;
      }
    }
  }

  lemma {:induction false} LaterTakers(infos: Regions, ks: seq<nat>, reg: RegisterInfo, i: nat)
    requires (forall k :: k in ks ==> k in infos) && (forall i, j :: 0 <= i < j < |ks| ==> ks[i] < ks[j]) && i < |ks|
    ensures FirstTaker(infos, ks, reg) == Some(ks[i]) <==>
            FirstTaker(infos, ks[..i], reg).None? && Takes(infos[ks[i]], reg)
  {
    if FirstTaker(infos, ks[..i], reg).None? && Takes(infos[ks[i]], reg) {
      assert forall j :: 0 <= j < i ==> ks[..i][j] == ks[j];
      TakerAt(infos, ks, reg, i);
    } else if FirstTaker(infos, ks[..i], reg).Some? {
      LowerTakerWins(infos, ks, reg, FirstTaker(infos, ks[..i], reg).value);
    }
  }

  // ----- the patches -----

  function PatchesFor(addrs: seq<nat>, reg: RegisterInfo): (ws: seq<Patch>)
    ensures |ws| == |addrs|
    ensures forall i :: 0 <= i < |addrs| ==> ws[i] == Patch(addrs[i], reg.callback, reg.backup)
  {
    seq(|addrs|, i requires 0 <= i < |addrs| => Patch(addrs[i], reg.callback, reg.backup))
  }

  function RegionPatches(k: nat, regs: seq<RegisterInfo>, slots: Slots): seq<Patch>
    decreases |regs|
  {
    if regs == [] then []
    else PatchesFor(slots(k, regs[0].symbol), regs[0]) + RegionPatches(k, regs[1..], slots)
  }

  // The patches of the first n regions, in the order they are made.
  function Plan(infos: Regions, ks: seq<nat>, queue: seq<RegisterInfo>, slots: Slots, n: nat): seq<Patch>
    requires (forall k :: k in ks ==> k in infos) && n <= |ks|
  {
    if n == 0 then []
    else Plan(infos, ks, queue, slots, n - 1) + RegionPatches(ks[n - 1], ClaimedBy(infos, ks, queue, ks[n - 1]), slots)
  }

  function CommitPlan(infos: Regions, queue: seq<RegisterInfo>, slots: Slots): seq<Patch> {
    var ks := Ascending(infos.Keys);
    Plan(infos, ks, queue, slots, |ks|)
  }

  function CommitLeftover(infos: Regions, queue: seq<RegisterInfo>): seq<RegisterInfo> {
    Leftover(infos, Ascending(infos.Keys), queue)
  }

  // ----- both depend only on what the regions are -----

  lemma {:induction false} SameTakers(a: Regions, b: Regions, ks: seq<nat>, reg: RegisterInfo)
    requires SameIdentities(a, b) && forall k :: k in ks ==> k in a
    ensures FirstTaker(a, ks, reg) == FirstTaker(b, ks, reg)
    decreases |ks|
  {
    if ks != [] {
      assert ks[0] in ks && ks[0] in a;
      assert Identity(a[ks[0]]) == Identity(b[ks[0]]);
      SameTakers(a, b, ks[1..], reg);
    }
  }

  lemma {:induction false} SameClaims(a: Regions, b: Regions, ks: seq<nat>, queue: seq<RegisterInfo>, k: nat)
    requires SameIdentities(a, b) && forall k :: k in ks ==> k in a
    ensures ClaimedBy(a, ks, queue, k) == ClaimedBy(b, ks, queue, k)
    decreases |queue|
  {
    if queue != [] {
      SameTakers(a, b, ks, queue[0]);
      SameClaims(a, b, ks, queue[1..], k);
    }
  }

  // ----- the plan of the requests that undo a queue -----

  function UndoRequest(reg: RegisterInfo, saved: map<nat, nat>): RegisterInfo {
    reg.(callback := Behind(saved, reg.backup), backup := 0)
  }

  function UndoQueue(queue: seq<RegisterInfo>, saved: map<nat, nat>): (q: seq<RegisterInfo>)
    ensures |q| == |queue| && forall i :: 0 <= i < |q| ==> q[i] == UndoRequest(queue[i], saved)
  {
    seq(|queue|, i requires 0 <= i < |queue| => UndoRequest(queue[i], saved))
  }

  lemma {:induction false} UndoneTaker(infos: Regions, ks: seq<nat>, reg: RegisterInfo, saved: map<nat, nat>)
    requires forall k :: k in ks ==> k in infos
    ensures FirstTaker(infos, ks, UndoRequest(reg, saved)) == FirstTaker(infos, ks, reg)
    decreases |ks|
  {
    if ks != [] {
      UndoneTaker(infos, ks[1..], reg, saved);
    }
  }

  lemma UndoneHead(queue: seq<RegisterInfo>, saved: map<nat, nat>)
    requires queue != []
    ensures UndoQueue(queue, saved)[0] == UndoRequest(queue[0], saved)
    ensures UndoQueue(queue, saved)[1..] == UndoQueue(queue[1..], saved)
  {
  }

  lemma {:induction false} UndoneClaims(infos: Regions, ks: seq<nat>, queue: seq<RegisterInfo>, saved: map<nat, nat>, k: nat)
    requires forall k :: k in ks ==> k in infos
    ensures ClaimedBy(infos, ks, UndoQueue(queue, saved), k) == UndoQueue(ClaimedBy(infos, ks, queue, k), saved)
    decreases |queue|
  {
    if queue != [] {
      UndoneHead(queue, saved);
      UndoneTaker(infos, ks, queue[0], saved);
      UndoneClaims(infos, ks, queue[1..], saved, k);
    }
  }

  lemma UndoSum(us: seq<Patch>, ws: seq<Patch>, saved: map<nat, nat>)
    ensures Undo(us + ws, saved) == Undo(us, saved) + Undo(ws, saved)
  {
  }

  lemma {:induction false} UndoneRegion(k: nat, regs: seq<RegisterInfo>, slots: Slots, saved: map<nat, nat>)
    ensures RegionPatches(k, UndoQueue(regs, saved), slots) == Undo(RegionPatches(k, regs, slots), saved)
    decreases |regs|
  {
    if regs != [] {
      UndoneHead(regs, saved);
      UndoneRegion(k, regs[1..], slots, saved);
      var addrs := slots(k, regs[0].symbol);
      assert PatchesFor(addrs, UndoRequest(regs[0], saved)) == Undo(PatchesFor(addrs, regs[0]), saved);
      UndoSum(PatchesFor(addrs, regs[0]), RegionPatches(k, regs[1..], slots), saved);
    }
  }

  lemma PlanLast(infos: Regions, ks: seq<nat>, queue: seq<RegisterInfo>, slots: Slots, n: nat)
    requires (forall k :: k in ks ==> k in infos) && 0 < n <= |ks|
    ensures Plan(infos, ks, queue, slots, n) ==
            Plan(infos, ks, queue, slots, n - 1) + RegionPatches(ks[n - 1], ClaimedBy(infos, ks, queue, ks[n - 1]), slots)
  {
  }
}
