/**
 The plan of the second commit: the requests whose hooks came back with an original, registered once
 more, over the regions that somebody still wants. It undoes the first plan, patch by patch.
 */
module HookReplan {
  import opened Options
  import opened HookState
  import opened HookOverlay
  import opened HookCommit
  import opened HookPlan

  // ----- the regions still tracked -----

  // Regions with a backup stay, and others as long as a request matches them.
  ghost function Shrunk(infos: Regions, queue: seq<RegisterInfo>): Regions {
    map k | k in infos && (infos[k].backup != 0 || IsWanted(infos[k], queue)) :: infos[k]
  }

  lemma {:induction false} AscendingSize(ks: seq<nat>, keys: set<nat>)
    requires IsAscending(ks, keys)
    ensures |ks| == |keys|
    decreases |ks|
  {
    if ks == [] {
      assert forall k :: k !in keys;
      assert keys == {};
    } else {
      AscendingFront(ks, keys);
      AscendingSize(Front(ks), keys - {Last(ks)});
    }
  }

  lemma {:induction false} AscendingUnique(ks: seq<nat>, ls: seq<nat>, keys: set<nat>)
    requires IsAscending(ks, keys) && IsAscending(ls, keys)
    ensures ks == ls
    decreases |ks|
  {
    AscendingSize(ks, keys);
    AscendingSize(ls, keys);
    if ks != [] {
      AscendingFront(ks, keys);
      AscendingFront(ls, keys);
      AscendingUnique(Front(ks), Front(ls), keys - {Last(ks)});
      assert ks == Front(ks) + [Last(ks)] && ls == Front(ls) + [Last(ls)];
    }
  }

  // The last of an ascending sequence is the greatest.
  lemma AscendingFront(ks: seq<nat>, keys: set<nat>)
    requires IsAscending(ks, keys) && ks != []
    ensures IsAscending(Front(ks), keys - {Last(ks)})
    ensures Last(ks) in keys && forall k :: k in keys ==> k <= Last(ks)
  {
    assert ks == Front(ks) + [Last(ks)];
    forall k | k in keys
      ensures k <= Last(ks)
    {
      var i :| 0 <= i < |ks| && ks[i] == k;
    }
    assert Last(ks) in ks;
  }

  function Keep(ks: seq<nat>, keys: set<nat>): (ls: seq<nat>)
    ensures forall k :: k in ls <==> k in ks && k in keys
  {
    if ks == [] then [] else Keep(Front(ks), keys) + (if Last(ks) in keys then [Last(ks)] else [])
  }

  lemma {:induction false} KeepAscends(ks: seq<nat>, keys: set<nat>)
    requires forall i, j :: 0 <= i < j < |ks| ==> ks[i] < ks[j]
    ensures forall i, j :: 0 <= i < j < |Keep(ks, keys)| ==> Keep(ks, keys)[i] < Keep(ks, keys)[j]
    decreases |ks|
  {
    if ks != [] {
      var ls := Keep(Front(ks), keys);
      KeepAscends(Front(ks), keys);
      forall i | 0 <= i < |ls|
        ensures ls[i] < Last(ks)
      {
        assert ls[i] in ls && ls[i] in Front(ks);
      }
    }
  }

  lemma KeptRegions(a: Regions, b: Regions)
    requires b.Keys <= a.Keys
    ensures Ascending(b.Keys) == Keep(Ascending(a.Keys), b.Keys)
  {
    var ks := Ascending(a.Keys);
    KeepAscends(ks, b.Keys);
    AscendingUnique(Ascending(b.Keys), Keep(ks, b.Keys), b.Keys);
  }

  // ----- the same requests over fewer regions -----

  // Every region of a that takes one of the requests is still in b.
  ghost predicate KeepsTakers(a: Regions, b: Regions, queue: seq<RegisterInfo>) {
    && b.Keys <= a.Keys
    && (forall k {:trigger k in b} :: k in b ==> b[k] == a[k])
    && forall k, i {:trigger Takes(a[k], queue[i])} :: k in a && 0 <= i < |queue| && Takes(a[k], queue[i]) ==> k in b
  }

  lemma SameFirstTaker(a: Regions, b: Regions, queue: seq<RegisterInfo>, i: nat)
    requires KeepsTakers(a, b, queue) && i < |queue|
    ensures FirstTaker(b, Ascending(b.Keys), queue[i]) == FirstTaker(a, Ascending(a.Keys), queue[i])
  {
    var reg, ta, tb := queue[i], FirstTaker(a, Ascending(a.Keys), queue[i]), FirstTaker(b, Ascending(b.Keys), queue[i]);
    if ta.Some? {
      FirstTakerIsLowest(a, Ascending(a.Keys), reg, ta.value);
      FirstTakerIsLowest(b, Ascending(b.Keys), reg, ta.value);
    } else if tb.Some? {
      FirstTakerIsLowest(b, Ascending(b.Keys), reg, tb.value);
      FirstTakerIsLowest(a, Ascending(a.Keys), reg, tb.value);
    }
  }

  lemma KeepsTakersTail(a: Regions, b: Regions, queue: seq<RegisterInfo>)
    requires KeepsTakers(a, b, queue) && queue != []
    ensures KeepsTakers(a, b, queue[1..])
  {
    forall k, i | k in a && 0 <= i < |queue[1..]| && Takes(a[k], queue[1..][i])
      ensures k in b
    {
      assert Takes(a[k], queue[i + 1]);
    }
  }

  lemma {:induction false} FewerClaims(a: Regions, b: Regions, queue: seq<RegisterInfo>, k: nat)
    requires KeepsTakers(a, b, queue)
    ensures ClaimedBy(b, Ascending(b.Keys), queue, k) == ClaimedBy(a, Ascending(a.Keys), queue, k)
    ensures k !in b ==> ClaimedBy(a, Ascending(a.Keys), queue, k) == []
    decreases |queue|
  {
    if queue != [] {
      SameFirstTaker(a, b, queue, 0);
      KeepsTakersTail(a, b, queue);
      FewerClaims(a, b, queue[1..], k);
    }
  }

  lemma {:induction false} FewerLeftover(a: Regions, b: Regions, queue: seq<RegisterInfo>)
    requires KeepsTakers(a, b, queue)
    ensures CommitLeftover(b, queue) == CommitLeftover(a, queue)
    decreases |queue|
  {
    if queue != [] {
      SameFirstTaker(a, b, queue, 0);
      KeepsTakersTail(a, b, queue);
      FewerLeftover(a, b, queue[1..]);
    }
  }

  // The patches of the regions ks, with the claims they have among all the regions.
  function PlanOver(infos: Regions, all: seq<nat>, ks: seq<nat>, queue: seq<RegisterInfo>, slots: Slots): seq<Patch>
    requires forall k :: k in all ==> k in infos
  {
    if ks == [] then []
    else
      PlanOver(infos, all, Front(ks), queue, slots) +
      RegionPatches(Last(ks), ClaimedBy(infos, all, queue, Last(ks)), slots)
  }

  lemma {:induction false} PlanIsOver(infos: Regions, ks: seq<nat>, queue: seq<RegisterInfo>, slots: Slots, n: nat)
    requires (forall k :: k in ks ==> k in infos) && n <= |ks|
    ensures Plan(infos, ks, queue, slots, n) == PlanOver(infos, ks, ks[..n], queue, slots)
    decreases n
  {
    if n > 0 {
      assert Front(ks[..n]) == ks[..n - 1] && Last(ks[..n]) == ks[n - 1];
      PlanIsOver(infos, ks, queue, slots, n - 1);
    }
  }

  lemma CommitPlanIsOver(infos: Regions, queue: seq<RegisterInfo>, slots: Slots)
    ensures CommitPlan(infos, queue, slots) ==
            PlanOver(infos, Ascending(infos.Keys), Ascending(infos.Keys), queue, slots)
  {
    var ks := Ascending(infos.Keys);
    PlanIsOver(infos, ks, queue, slots, |ks|);
    assert ks[..|ks|] == ks;
  }

  lemma PlanOverLast(infos: Regions, all: seq<nat>, ks: seq<nat>, k: nat, queue: seq<RegisterInfo>, slots: Slots)
    requires forall j :: j in all ==> j in infos
    ensures PlanOver(infos, all, ks + [k], queue, slots) ==
            PlanOver(infos, all, ks, queue, slots) + RegionPatches(k, ClaimedBy(infos, all, queue, k), slots)
  {
    assert Front(ks + [k]) == ks && Last(ks + [k]) == k;
  }

  lemma {:induction false} FewerPatches(a: Regions, b: Regions, ks: seq<nat>, queue: seq<RegisterInfo>, slots: Slots)
    requires KeepsTakers(a, b, queue)
    ensures PlanOver(b, Ascending(b.Keys), Keep(ks, b.Keys), queue, slots) ==
            PlanOver(a, Ascending(a.Keys), ks, queue, slots)
    decreases |ks|
  {
    if ks != [] {
      var k, ls := Last(ks), Keep(Front(ks), b.Keys);
      FewerPatches(a, b, Front(ks), queue, slots);
      FewerClaims(a, b, queue, k);
      if k in b {
        assert Keep(ks, b.Keys) == ls + [k];
        PlanOverLast(b, Ascending(b.Keys), ls, k, queue, slots);
      } else {
        assert Keep(ks, b.Keys) == ls;
      }
    }
  }

  /** Over the regions that still take them, the requests plan the same patches. */
  lemma SamePlanOverFewer(a: Regions, b: Regions, queue: seq<RegisterInfo>, slots: Slots)
    requires KeepsTakers(a, b, queue)
    ensures CommitPlan(b, queue, slots) == CommitPlan(a, queue, slots)
  {
    CommitPlanIsOver(a, queue, slots);
    CommitPlanIsOver(b, queue, slots);
    KeptRegions(a, b);
    FewerPatches(a, b, Ascending(a.Keys), queue, slots);
  }

  lemma ShrunkKeepsTakers(infos: Regions, queue: seq<RegisterInfo>)
    ensures KeepsTakers(infos, Shrunk(infos, queue), queue)
  {
    var b := Shrunk(infos, queue);
    forall k, i | k in infos && 0 <= i < |queue| && Takes(infos[k], queue[i])
      ensures k in b
    {
      assert infos[k].Match(queue[i]);
    }
  }

  // ----- requests that nobody takes -----

  lemma ClaimsOfFirst(infos: Regions, ks: seq<nat>, reg: RegisterInfo, rest: seq<RegisterInfo>, k: nat)
    requires forall k :: k in ks ==> k in infos
    ensures ClaimedBy(infos, ks, [reg] + rest, k) ==
            (if FirstTaker(infos, ks, reg) == Some(k) then [reg] else []) + ClaimedBy(infos, ks, rest, k)
  {
    assert ([reg] + rest)[1..] == rest;
  }

  lemma {:induction false} ClaimsOfSum(infos: Regions, ks: seq<nat>, p: seq<RegisterInfo>, q: seq<RegisterInfo>, k: nat)
    requires forall k :: k in ks ==> k in infos
    ensures ClaimedBy(infos, ks, p + q, k) == ClaimedBy(infos, ks, p, k) + ClaimedBy(infos, ks, q, k)
    decreases |p|
  {
    if p == [] {
      assert p + q == q;
    } else {
      assert p == [p[0]] + p[1..] && p + q == [p[0]] + (p[1..] + q);
      ClaimsOfFirst(infos, ks, p[0], p[1..], k);
      ClaimsOfFirst(infos, ks, p[0], p[1..] + q, k);
      ClaimsOfSum(infos, ks, p[1..], q, k);
    }
  }

  lemma {:induction false} LeftoverUnclaimed(infos: Regions, ks: seq<nat>, queue: seq<RegisterInfo>, k: nat)
    requires forall k :: k in ks ==> k in infos
    ensures ClaimedBy(infos, ks, Leftover(infos, ks, queue), k) == []
    decreases |queue|
  {
    if queue != [] {
      var rest := Leftover(infos, ks, queue[1..]);
      LeftoverUnclaimed(infos, ks, queue[1..], k);
      if FirstTaker(infos, ks, queue[0]).None? {
        assert Leftover(infos, ks, queue) == [queue[0]] + rest && ([queue[0]] + rest)[1..] == rest;
      } else {
        assert Leftover(infos, ks, queue) == rest;
      }
    }
  }

  lemma {:induction false} SameClaimsSamePatches(infos: Regions, all: seq<nat>, ks: seq<nat>, p: seq<RegisterInfo>, q: seq<RegisterInfo>, slots: Slots)
    requires forall k :: k in all ==> k in infos
    requires forall k :: k in ks ==> ClaimedBy(infos, all, p, k) == ClaimedBy(infos, all, q, k)
    ensures PlanOver(infos, all, ks, p, slots) == PlanOver(infos, all, ks, q, slots)
    decreases |ks|
  {
    if ks != [] {
      assert Last(ks) in ks;
      SameClaimsSamePatches(infos, all, Front(ks), p, q, slots);
    }
  }

  /** Requests left over from before plan nothing. */
  lemma LeftoverPlansNothing(infos: Regions, queue: seq<RegisterInfo>, q: seq<RegisterInfo>, slots: Slots)
    ensures CommitPlan(infos, CommitLeftover(infos, queue) + q, slots) == CommitPlan(infos, q, slots)
  {
    var ks, left := Ascending(infos.Keys), CommitLeftover(infos, queue);
    forall k | k in ks
      ensures ClaimedBy(infos, ks, left + q, k) == ClaimedBy(infos, ks, q, k)
    {
      ClaimsOfSum(infos, ks, left, q, k);
      LeftoverUnclaimed(infos, ks, queue, k);
    }
    CommitPlanIsOver(infos, left + q, slots);
    CommitPlanIsOver(infos, q, slots);
    SameClaimsSamePatches(infos, ks, ks, left + q, q, slots);
  }

  // ----- the same regions -----

  lemma {:induction false} SameOver(a: Regions, b: Regions, all: seq<nat>, ks: seq<nat>, queue: seq<RegisterInfo>, slots: Slots)
    requires SameIdentities(a, b) && forall k :: k in all ==> k in a
    ensures PlanOver(a, all, ks, queue, slots) == PlanOver(b, all, ks, queue, slots)
    decreases |ks|
  {
    if ks != [] {
      SameOver(a, b, all, Front(ks), queue, slots);
      SameClaims(a, b, all, queue, Last(ks));
    }
  }

  lemma SamePlan(a: Regions, b: Regions, queue: seq<RegisterInfo>, slots: Slots)
    requires SameIdentities(a, b)
    ensures CommitPlan(a, queue, slots) == CommitPlan(b, queue, slots)
  {
    CommitPlanIsOver(a, queue, slots);
    CommitPlanIsOver(b, queue, slots);
    SameOver(a, b, Ascending(a.Keys), Ascending(a.Keys), queue, slots);
  }

  // ----- requests that got no original -----

  function AnsweredRequests(queue: seq<RegisterInfo>, saved: map<nat, nat>): (r: seq<RegisterInfo>)
    decreases |queue|
  {
    if queue == [] then []
    else
      (if Behind(saved, queue[0].backup) != 0 then [queue[0]] else []) + AnsweredRequests(queue[1..], saved)
  }

  lemma {:induction false} AnsweredMembers(queue: seq<RegisterInfo>, saved: map<nat, nat>)
    ensures forall reg :: reg in AnsweredRequests(queue, saved) <==> reg in queue && Behind(saved, reg.backup) != 0
    decreases |queue|
  {
    if queue != [] {
      AnsweredMembers(queue[1..], saved);
    }
  }

  lemma AnsweredFirst(reg: RegisterInfo, rest: seq<RegisterInfo>, saved: map<nat, nat>)
    ensures AnsweredRequests([reg] + rest, saved) ==
            (if Behind(saved, reg.backup) != 0 then [reg] else []) + AnsweredRequests(rest, saved)
  {
    assert ([reg] + rest)[1..] == rest;
  }

  lemma {:induction false} AnsweredLast(queue: seq<RegisterInfo>, reg: RegisterInfo, saved: map<nat, nat>)
    ensures AnsweredRequests(queue + [reg], saved) ==
            AnsweredRequests(queue, saved) + (if Behind(saved, reg.backup) != 0 then [reg] else [])
    decreases |queue|
  {
    if queue == [] {
      assert queue + [reg] == [reg] && [reg][1..] == [];
    } else {
      assert queue == [queue[0]] + queue[1..];
      assert queue + [reg] == [queue[0]] + (queue[1..] + [reg]);
      AnsweredFirst(queue[0], queue[1..], saved);
      AnsweredFirst(queue[0], queue[1..] + [reg], saved);
      AnsweredLast(queue[1..], reg, saved);
    }
  }

  lemma {:induction false} AnsweredClaims(infos: Regions, ks: seq<nat>, queue: seq<RegisterInfo>, saved: map<nat, nat>, k: nat)
    requires forall k :: k in ks ==> k in infos
    ensures ClaimedBy(infos, ks, AnsweredRequests(queue, saved), k) == AnsweredRequests(ClaimedBy(infos, ks, queue, k), saved)
    decreases |queue|
  {
    if queue != [] {
      var reg := queue[0];
      AnsweredClaims(infos, ks, queue[1..], saved, k);
      if Behind(saved, reg.backup) != 0 {
        ClaimsOfFirst(infos, ks, reg, AnsweredRequests(queue[1..], saved), k);
      } else {
        assert AnsweredRequests(queue, saved) == AnsweredRequests(queue[1..], saved);
      }
      if FirstTaker(infos, ks, reg) == Some(k) {
        AnsweredFirst(reg, ClaimedBy(infos, ks, queue[1..], k), saved);
      } else {
        assert ClaimedBy(infos, ks, queue, k) == ClaimedBy(infos, ks, queue[1..], k);
      }
    }
  }

  lemma AnsweredHead(w: Patch, rest: seq<Patch>, saved: map<nat, nat>)
    ensures Answered([w] + rest, saved) == (if Behind(saved, w.saveTo) != 0 then [w] else []) + Answered(rest, saved)
  {
    assert ([w] + rest)[1..] == rest;
  }

  lemma {:induction false} AnsweredSum(us: seq<Patch>, ws: seq<Patch>, saved: map<nat, nat>)
    ensures Answered(us + ws, saved) == Answered(us, saved) + Answered(ws, saved)
    decreases |us|
  {
    if us == [] {
      assert us + ws == ws;
    } else {
      assert us == [us[0]] + us[1..] && us + ws == [us[0]] + (us[1..] + ws);
      AnsweredHead(us[0], us[1..], saved);
      AnsweredHead(us[0], us[1..] + ws, saved);
      AnsweredSum(us[1..], ws, saved);
    }
  }

  // The patches of one request all have its backup pointer.
  lemma {:induction false} AnsweredUniform(ws: seq<Patch>, p: nat, saved: map<nat, nat>)
    requires forall i :: 0 <= i < |ws| ==> ws[i].saveTo == p
    ensures Answered(ws, saved) == if Behind(saved, p) != 0 then ws else []
    decreases |ws|
  {
    if ws != [] {
      AnsweredUniform(ws[1..], p, saved);
      assert ws == [ws[0]] + ws[1..];
    }
  }

  lemma {:induction false} AnsweredRegion(k: nat, regs: seq<RegisterInfo>, slots: Slots, saved: map<nat, nat>)
    ensures RegionPatches(k, AnsweredRequests(regs, saved), slots) == Answered(RegionPatches(k, regs, slots), saved)
    decreases |regs|
  {
    if regs != [] {
      var ws, rest := PatchesFor(slots(k, regs[0].symbol), regs[0]), AnsweredRequests(regs[1..], saved);
      AnsweredRegion(k, regs[1..], slots, saved);
      AnsweredUniform(ws, regs[0].backup, saved);
      AnsweredSum(ws, RegionPatches(k, regs[1..], slots), saved);
      assert ([regs[0]] + rest)[1..] == rest && [] + rest == rest;
    }
  }

  lemma {:induction false} AnsweredOver(infos: Regions, all: seq<nat>, ks: seq<nat>, queue: seq<RegisterInfo>, slots: Slots, saved: map<nat, nat>)
    requires forall k :: k in all ==> k in infos
    ensures PlanOver(infos, all, ks, AnsweredRequests(queue, saved), slots) ==
            Answered(PlanOver(infos, all, ks, queue, slots), saved)
    decreases |ks|
  {
    if ks != [] {
      var k := Last(ks);
      AnsweredOver(infos, all, Front(ks), queue, slots, saved);
      AnsweredClaims(infos, all, queue, saved, k);
      AnsweredRegion(k, ClaimedBy(infos, all, queue, k), slots, saved);
      AnsweredSum(PlanOver(infos, all, Front(ks), queue, slots), RegionPatches(k, ClaimedBy(infos, all, queue, k), slots), saved);
    }
  }

  lemma {:induction false} UndoneOver(infos: Regions, all: seq<nat>, ks: seq<nat>, queue: seq<RegisterInfo>, slots: Slots, saved: map<nat, nat>)
    requires forall k :: k in all ==> k in infos
    ensures PlanOver(infos, all, ks, UndoQueue(queue, saved), slots) == Undo(PlanOver(infos, all, ks, queue, slots), saved)
    decreases |ks|
  {
    if ks != [] {
      var k := Last(ks);
      UndoneOver(infos, all, Front(ks), queue, slots, saved);
      UndoneClaims(infos, all, queue, saved, k);
      UndoneRegion(k, ClaimedBy(infos, all, queue, k), slots, saved);
      UndoSum(PlanOver(infos, all, Front(ks), queue, slots), RegionPatches(k, ClaimedBy(infos, all, queue, k), slots), saved);
    }
  }

  /** Registering every symbol again with its saved word plans the undoing of every patch. */
  lemma UndonePlan(infos: Regions, queue: seq<RegisterInfo>, slots: Slots, saved: map<nat, nat>)
    ensures CommitPlan(infos, UndoQueue(queue, saved), slots) == Undo(CommitPlan(infos, queue, slots), saved)
  {
    var ks := Ascending(infos.Keys);
    CommitPlanIsOver(infos, UndoQueue(queue, saved), slots);
    CommitPlanIsOver(infos, queue, slots);
    UndoneOver(infos, ks, ks, queue, slots, saved);
  }

  // ----- the second plan -----

  /** The second commit plans to undo exactly the patches whose backup pointers got an original. */
  lemma SecondPlanUndoes(infos: Regions, queue: seq<RegisterInfo>, slots: Slots, saved: map<nat, nat>)
    ensures var again := CommitLeftover(infos, queue) + UndoQueue(AnsweredRequests(queue, saved), saved);
            CommitPlan(Shrunk(infos, again), again, slots) == Undoing(CommitPlan(infos, queue, slots), saved)
  {
    var ks, back := Ascending(infos.Keys), AnsweredRequests(queue, saved);
    var undo := UndoQueue(back, saved);
    var again := CommitLeftover(infos, queue) + undo;
    ShrunkKeepsTakers(infos, again);
    SamePlanOverFewer(infos, Shrunk(infos, again), again, slots);
    LeftoverPlansNothing(infos, queue, undo, slots);
    UndonePlan(infos, back, slots, saved);
    CommitPlanIsOver(infos, back, slots);
    CommitPlanIsOver(infos, queue, slots);
    AnsweredOver(infos, ks, ks, queue, slots, saved);
  }

  // ----- what the second commit leaves -----

  lemma {:induction false} LeftoverOfSum(infos: Regions, ks: seq<nat>, p: seq<RegisterInfo>, q: seq<RegisterInfo>)
    requires forall k :: k in ks ==> k in infos
    ensures Leftover(infos, ks, p + q) == Leftover(infos, ks, p) + Leftover(infos, ks, q)
    decreases |p|
  {
    if p == [] {
      assert p + q == q;
    } else {
      assert p == [p[0]] + p[1..] && p + q == [p[0]] + (p[1..] + q);
      LeftoverOfFirst(infos, ks, p[0], p[1..]);
      LeftoverOfFirst(infos, ks, p[0], p[1..] + q);
      LeftoverOfSum(infos, ks, p[1..], q);
    }
  }

  lemma LeftoverOfFirst(infos: Regions, ks: seq<nat>, reg: RegisterInfo, rest: seq<RegisterInfo>)
    requires forall k :: k in ks ==> k in infos
    ensures Leftover(infos, ks, [reg] + rest) ==
            (if FirstTaker(infos, ks, reg).None? then [reg] else []) + Leftover(infos, ks, rest)
  {
    assert ([reg] + rest)[1..] == rest;
  }

  lemma {:induction false} LeftoverTwice(infos: Regions, ks: seq<nat>, queue: seq<RegisterInfo>)
    requires forall k :: k in ks ==> k in infos
    ensures Leftover(infos, ks, Leftover(infos, ks, queue)) == Leftover(infos, ks, queue)
    decreases |queue|
  {
    if queue != [] {
      var reg, rest := queue[0], Leftover(infos, ks, queue[1..]);
      LeftoverTwice(infos, ks, queue[1..]);
      if FirstTaker(infos, ks, reg).None? {
        assert Leftover(infos, ks, queue) == [reg] + rest;
        LeftoverOfFirst(infos, ks, reg, rest);
      } else {
        assert Leftover(infos, ks, queue) == rest;
      }
    }
  }

  lemma {:induction false} LeftoverUndone(infos: Regions, ks: seq<nat>, queue: seq<RegisterInfo>, saved: map<nat, nat>)
    requires forall k :: k in ks ==> k in infos
    ensures Leftover(infos, ks, UndoQueue(queue, saved)) == UndoQueue(Leftover(infos, ks, queue), saved)
    decreases |queue|
  {
    if queue != [] {
      UndoneHead(queue, saved);
      UndoneTaker(infos, ks, queue[0], saved);
      LeftoverUndone(infos, ks, queue[1..], saved);
    }
  }

  lemma {:induction false} LeftoverAnswered(infos: Regions, ks: seq<nat>, queue: seq<RegisterInfo>, saved: map<nat, nat>)
    requires forall k :: k in ks ==> k in infos
    ensures Leftover(infos, ks, AnsweredRequests(queue, saved)) == AnsweredRequests(Leftover(infos, ks, queue), saved)
    decreases |queue|
  {
    if queue != [] {
      var reg, rest := queue[0], queue[1..];
      LeftoverAnswered(infos, ks, rest, saved);
      if Behind(saved, reg.backup) != 0 {
        assert AnsweredRequests(queue, saved) == [reg] + AnsweredRequests(rest, saved);
        LeftoverOfFirst(infos, ks, reg, AnsweredRequests(rest, saved));
      } else {
        assert AnsweredRequests(queue, saved) == AnsweredRequests(rest, saved);
      }
      if FirstTaker(infos, ks, reg).None? {
        assert Leftover(infos, ks, queue) == [reg] + Leftover(infos, ks, rest);
        AnsweredFirst(reg, Leftover(infos, ks, rest), saved);
      } else {
        assert Leftover(infos, ks, queue) == Leftover(infos, ks, rest);
      }
    }
  }

  /** What a second commit leaves in the queue: what the first one left, and then the undoing of those
      among them whose backup pointers held something already. */
  lemma SecondLeftover(infos: Regions, queue: seq<RegisterInfo>, saved: map<nat, nat>)
    ensures var left := CommitLeftover(infos, queue);
            var again := left + UndoQueue(AnsweredRequests(queue, saved), saved);
            CommitLeftover(Shrunk(infos, again), again) == left + UndoQueue(AnsweredRequests(left, saved), saved)
  {
    var ks, left, back := Ascending(infos.Keys), CommitLeftover(infos, queue), AnsweredRequests(queue, saved);
    var again := left + UndoQueue(back, saved);
    ShrunkKeepsTakers(infos, again);
    FewerLeftover(infos, Shrunk(infos, again), again);
    LeftoverOfSum(infos, ks, left, UndoQueue(back, saved));
    LeftoverTwice(infos, ks, queue);
    LeftoverUndone(infos, ks, back, saved);
    LeftoverAnswered(infos, ks, queue, saved);
  }

  // ----- where a patch comes from -----

  lemma {:induction false} RegionPatchOrigin(k: nat, regs: seq<RegisterInfo>, slots: Slots, w: Patch) returns (reg: RegisterInfo)
    requires w in RegionPatches(k, regs, slots)
    ensures reg in regs && w in PatchesFor(slots(k, reg.symbol), reg)
    decreases |regs|
  {
    if w in PatchesFor(slots(k, regs[0].symbol), regs[0]) {
      reg := regs[0];
    } else {
      reg := RegionPatchOrigin(k, regs[1..], slots, w);
    }
  }

  lemma {:induction false} ClaimedIsTaken(infos: Regions, ks: seq<nat>, queue: seq<RegisterInfo>, k: nat)
    requires forall k :: k in ks ==> k in infos
    ensures forall reg :: reg in ClaimedBy(infos, ks, queue, k) ==>
              reg in queue && k in infos && FirstTaker(infos, ks, reg) == Some(k)
    ensures forall reg :: reg in queue && FirstTaker(infos, ks, reg) == Some(k) ==> reg in ClaimedBy(infos, ks, queue, k)
    decreases |queue|
  {
    if queue != [] {
      ClaimedIsTaken(infos, ks, queue[1..], k);
    }
  }

  lemma {:induction false} PatchOrigin(infos: Regions, all: seq<nat>, ks: seq<nat>, queue: seq<RegisterInfo>, slots: Slots, w: Patch)
    returns (k: nat, reg: RegisterInfo)
    requires (forall k :: k in all ==> k in infos) && w in PlanOver(infos, all, ks, queue, slots)
    ensures reg in queue && FirstTaker(infos, all, reg) == Some(k) && w in PatchesFor(slots(k, reg.symbol), reg)
    decreases |ks|
  {
    var claims := ClaimedBy(infos, all, queue, Last(ks));
    if w in RegionPatches(Last(ks), claims, slots) {
      k := Last(ks);
      reg := RegionPatchOrigin(k, claims, slots, w);
      ClaimedIsTaken(infos, all, queue, k);
    } else {
      k, reg := PatchOrigin(infos, all, Front(ks), queue, slots, w);
    }
  }

  /** Every patch of a plan is for a slot of a request, in the image of the region that the request goes to. */
  lemma PlannedPatch(infos: Regions, queue: seq<RegisterInfo>, slots: Slots, w: Patch) returns (k: nat, reg: RegisterInfo)
    requires w in CommitPlan(infos, queue, slots)
    ensures reg in queue && k in infos && Takes(infos[k], reg) && FirstTaker(infos, Ascending(infos.Keys), reg) == Some(k)
    ensures w.addr in slots(k, reg.symbol) && w.saveTo == reg.backup && w.callback == reg.callback
  {
    CommitPlanIsOver(infos, queue, slots);
    k, reg := PatchOrigin(infos, Ascending(infos.Keys), Ascending(infos.Keys), queue, slots, w);
    var i :| 0 <= i < |slots(k, reg.symbol)| && PatchesFor(slots(k, reg.symbol), reg)[i] == w;
    assert slots(k, reg.symbol)[i] in slots(k, reg.symbol);
  }

  lemma {:induction false} RegionPatchIn(k: nat, regs: seq<RegisterInfo>, slots: Slots, reg: RegisterInfo, w: Patch)
    requires reg in regs && w in PatchesFor(slots(k, reg.symbol), reg)
    ensures w in RegionPatches(k, regs, slots)
    decreases |regs|
  {
    if reg != regs[0] {
      RegionPatchIn(k, regs[1..], slots, reg, w);
    }
  }

  lemma {:induction false} PatchIn(infos: Regions, all: seq<nat>, ks: seq<nat>, queue: seq<RegisterInfo>, slots: Slots,
                                   k: nat, reg: RegisterInfo, w: Patch)
    requires (forall k :: k in all ==> k in infos) && k in ks && reg in ClaimedBy(infos, all, queue, k)
    requires w in PatchesFor(slots(k, reg.symbol), reg)
    ensures w in PlanOver(infos, all, ks, queue, slots)
    decreases |ks|
  {
    if k == Last(ks) {
      RegionPatchIn(k, ClaimedBy(infos, all, queue, k), slots, reg, w);
    } else {
      assert k in Front(ks);
      PatchIn(infos, all, Front(ks), queue, slots, k, reg, w);
    }
  }

  /** Every slot of a request, in the image of the region that it goes to, is planned. */
  lemma SlotIsPlanned(infos: Regions, queue: seq<RegisterInfo>, slots: Slots, k: nat, reg: RegisterInfo, a: nat)
    requires reg in queue && FirstTaker(infos, Ascending(infos.Keys), reg) == Some(k) && a in slots(k, reg.symbol)
    ensures Patch(a, reg.callback, reg.backup) in CommitPlan(infos, queue, slots)
  {
    var ks, addrs := Ascending(infos.Keys), slots(k, reg.symbol);
    CommitPlanIsOver(infos, queue, slots);
    ClaimedIsTaken(infos, ks, queue, k);
    var i :| 0 <= i < |addrs| && addrs[i] == a;
    assert PatchesFor(addrs, reg)[i] == Patch(a, reg.callback, reg.backup);
    PatchIn(infos, ks, ks, queue, slots, k, reg, Patch(a, reg.callback, reg.backup));
  }
}
