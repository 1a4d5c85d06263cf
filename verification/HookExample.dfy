/**
 One process for which everything the round trip asks for is true, and what comes of it: a library of
 two pages, one request, and a symbol with two slots. First and second are the words that the slots
 start with.
 */
module HookExample {
  import opened Options
  import opened AddressSpace
  import opened HookState
  import opened HookStep
  import opened HookOverlay
  import opened HookCommit
  import opened HookPlan
  import opened HookReplan
  import opened HookRoundTrip
  import opened HookInvalidate
  import opened HookManager

  const LENGTH: nat := PAGE_SIZE + PAGE_SIZE
  const LIBRARY := MapInfo(1, 1 + LENGTH, {Read}, true, 0, 7, 7, "/lib")
  const CALLBACK: nat := 50
  const SAVED_AT: nat := 60
  const REQUEST := RegisterInfo(7, 7, 0, 100, [1], CALLBACK, SAVED_AT)
  const ELSEWHERE: FileId := FileId(9, 9)

  function Patches(): seq<Patch> {
    [Patch(1, CALLBACK, SAVED_AT), Patch(2, CALLBACK, SAVED_AT)]
  }

  // The second slot finds the region with its backup and needs no place.
  function Hooking(): seq<Call> {
    [Call(Patches()[0], 1 + LENGTH), Call(Patches()[1], 0)]
  }

  ghost function Start(first: nat, second: nat): State {
    State(Process(map[1 := LIBRARY],
                  map a | a in AddressRange(1, LENGTH) :: Cell(if a == 1 then first else second, false)),
          map[], [REQUEST], map[], ELSEWHERE)
  }

  ghost function TwoSlots(): Slots {
    (k, name) => [1, 2]
  }

  ghost function Tracking(): Regions {
    map[1 := NewInfo(LIBRARY, ELSEWHERE)]
  }

  lemma StartIsSound(first: nat, second: nat)
    ensures Invariant(Start(first, second)) && Hooks(Start(first, second)) == map[]
  {
    assert Paged(0) && Paged(PAGE_SIZE) && Paged(LENGTH) && WellFormedMapping(LIBRARY);
    assert WellFormed(Start(first, second).process);
  }

  lemma StartScans(first: nat, second: nat)
    ensures Rescan(Start(first, second)) == Start(first, second).(infos := Tracking())
    ensures !CommitSkips(Start(first, second)) && NoneSelf(Rescan(Start(first, second)).infos)
  {
    var s := Start(first, second);
    assert LIBRARY.path[0] != '[';
    assert 1 in Scanned(s.process.vmas, ELSEWHERE);
    assert NewInfo(LIBRARY, ELSEWHERE).Match(s.queue[0]);
    assert Rescan(s).infos == Tracking();
  }

  lemma StartPlan()
    ensures CommitPlan(Tracking(), [REQUEST], TwoSlots()) == Patches() == PatchesOf(Hooking())
    ensures CommitLeftover(Tracking(), [REQUEST]) == []
  {
    var ks: seq<nat> := [1];
    AscendingUnique(Ascending(Tracking().Keys), ks, Tracking().Keys);
    assert Takes(Tracking()[1], REQUEST) && FirstTaker(Tracking(), ks, REQUEST) == Some(1);
    assert [REQUEST][1..] == [];
    assert ClaimedBy(Tracking(), ks, [REQUEST], 1) == [REQUEST];
    assert TwoSlots()(1, REQUEST.symbol) == [1, 2];
    assert PatchesFor([1, 2], REQUEST) == Patches();
    assert RegionPatches(1, [REQUEST], TwoSlots()) == Patches() + [];
    PlanLast(Tracking(), ks, [REQUEST], TwoSlots(), 1);
    assert Plan(Tracking(), ks, [REQUEST], TwoSlots(), 0) == [];
    assert ks[0] == 1 && Plan(Tracking(), ks, [REQUEST], TwoSlots(), 1) == Patches();
    assert Leftover(Tracking(), ks, [REQUEST]) == [];
  }

  lemma OnlyOwner(a: nat)
    ensures Owner(Tracking(), a) == if 1 <= a < 1 + LENGTH then Some(1) else None
  {
    assert Paged(0) && Paged(PAGE_SIZE) && Paged(LENGTH);
    OwnerIsContainer(Tracking(), 1, a);
  }

  lemma StartReads(first: nat, second: nat)
    ensures Invariant(Rescan(Start(first, second)))
    ensures var o := View(Rescan(Start(first, second)));
            1 in o.words && o.words[1] == first && 2 in o.words && o.words[2] == second && o.hooks == map[] && o.saved == map[]
  {
    StartIsSound(first, second);
    StartScans(first, second);
    RescanInvariant(Start(first, second));
    StartWord(first, second, 1);
    StartWord(first, second, 2);
    StartRecords(first, second);
  }

  lemma StartWord(first: nat, second: nat, a: nat)
    requires 1 <= a <= 2
    ensures var words := WordsOf(Tracking(), Start(first, second).process.mem);
            a in words && words[a] == if a == 1 then first else second
  {
    OnlyOwner(a);
  }

  lemma StartRecords(first: nat, second: nat)
    ensures HooksOf(Tracking(), Start(first, second).process.mem) == map[]
  {
    forall a: nat
      ensures RecordAt(Tracking(), a) == None
    {
      OnlyOwner(a);
    }
  }

  // The overlay of this batch, step by step.
  lemma OverlaySteps(o: Overlay)
    requires 1 in o.words && 2 in o.words && o.hooks == map[] && o.saved == map[]
    requires o.words[1] != CALLBACK && o.words[2] != CALLBACK
    ensures FreshHooks(o, Patches())
    ensures ApplyAll(o, Patches()).saved == map[SAVED_AT := o.words[2]]
    ensures ApplyAll(o, Patches()).hooks == map[1 := o.words[1], 2 := o.words[2]]
    ensures ApplyAll(o, Patches()[..1]).hooks == map[1 := o.words[1]]
  {
    var ws := Patches();
    assert ws[1..] == [ws[1]] && ws[..1] == [ws[0]] && [ws[0]][1..] == [] && [ws[1]][1..] == [];
    assert ApplyAll(o, ws) == ApplyAll(Apply(o, ws[0]), [ws[1]]) == Apply(Apply(o, ws[0]), ws[1]);
    assert ApplyAll(o, [ws[0]]) == Apply(o, ws[0]);
  }

  lemma PlaceIsFresh(first: nat, second: nat)
    ensures Fresh(Start(first, second).process, 1 + LENGTH, LENGTH)
  {
  }

  lemma OneCall(r: State, h: Call)
    requires Invariant(r) && CanHook(r, h.patch, h.place)
    ensures Runnable(r, [h])
    ensures View(HookAll(r, [h])) == Apply(View(r), h.patch)
  {
    assert Front([h]) == [] && Last([h]) == h;
    HookRefines(r, h.patch, h.place);
  }

  lemma FirstHookRuns(first: nat, second: nat)
    requires first != CALLBACK
    ensures Invariant(Rescan(Start(first, second))) && Runnable(Rescan(Start(first, second)), [Hooking()[0]])
    ensures 1 in Hooks(HookAll(Rescan(Start(first, second)), [Hooking()[0]]))
  {
    StartScans(first, second);
    StartReads(first, second);
    PlaceIsFresh(first, second);
    OnlyOwner(1);
    OneCall(Rescan(Start(first, second)), Hooking()[0]);
  }

  lemma StartHooks(first: nat, second: nat)
    requires first != CALLBACK
    ensures Invariant(Start(first, second)) && CanCommit(Start(first, second), TwoSlots(), Hooking())
  {
    var r := Rescan(Start(first, second));
    StartIsSound(first, second);
    StartScans(first, second);
    StartPlan();
    FirstHookRuns(first, second);
    assert Front(Hooking()) == [Hooking()[0]] && Last(Hooking()) == Hooking()[1];
    SecondHookRuns(HookAll(r, [Hooking()[0]]), r);
  }

  lemma SecondHookRuns(v: State, r: State)
    requires Invariant(v) && 1 in Hooks(v) && r.infos == Tracking() && v == HookAllOf(r)
    ensures CanHook(v, Patches()[1], 0)
  {
    var k := RecordMeansBacked(v, 1);
    HookAllIdentities(r, [Hooking()[0]]);
    SameEnds(r.infos, v.infos);
    SameOwners(r.infos, v.infos);
    OnlyOwner(1);
    OnlyOwner(2);
  }

  ghost function HookAllOf(r: State): State {
    if Invariant(r) && Runnable(r, [Hooking()[0]]) then HookAll(r, [Hooking()[0]]) else r
  }

  lemma StartIsFresh(first: nat, second: nat)
    requires first != CALLBACK && second != CALLBACK
    ensures Invariant(Start(first, second)) && CanCommit(Start(first, second), TwoSlots(), Hooking())
    ensures FreshBatch(Start(first, second), TwoSlots(), Hooking())
    ensures Restorable(Rescan(Start(first, second)), PatchesOf(Hooking())) <==> first == second && first != 0
  {
    StartScans(first, second);
    StartReads(first, second);
    StartHooks(first, second);
    StartPlan();
    var o := View(Rescan(Start(first, second)));
    OverlaySteps(o);
    RestorableExactly(o, first, second);
  }

  lemma RestorableExactly(o: Overlay, first: nat, second: nat)
    requires 1 in o.words && 2 in o.words && o.words[1] == first && o.words[2] == second
    ensures AllTracked(o, Patches())
    ensures SharedStart(o, Patches()) && BoundStart(o, Patches()) <==> first == second && first != 0
  {
    assert Patches()[0].saveTo == Patches()[1].saveTo;
  }

  // Calls that patch us, wherever a backup would go.
  function CallsFor(us: seq<Patch>): (calls: seq<Call>)
    ensures PatchesOf(calls) == us
  {
    seq(|us|, i requires 0 <= i < |us| => Call(us[i], 0))
  }

  lemma SomeUndoing(s: State, slots: Slots, calls: seq<Call>) returns (undoing: seq<Call>)
    requires Invariant(s) && CanCommit(s, slots, calls) && FreshBatch(s, slots, calls)
    ensures CanCommit(ReadyToUndo(s, slots, calls), slots, undoing)
  {
    undoing := CallsFor(UndoingPatches(s, slots, calls));
    UndoingNeedsNoPlace(s, slots, calls, undoing);
  }

  /** Whatever the two words, there is a second commit, and the process is back after it if and only if
      they were one word, not null. */
  lemma RoundTripHappens(first: nat, second: nat) returns (undoing: seq<Call>)
    requires first != CALLBACK && second != CALLBACK
    ensures Invariant(Start(first, second)) && CanCommit(Start(first, second), TwoSlots(), Hooking())
    ensures var u := ReadyToUndo(Start(first, second), TwoSlots(), Hooking());
            && CanCommit(u, TwoSlots(), undoing)
            && (Commit(u, TwoSlots(), undoing).process == Start(first, second).process <==> first == second && first != 0)
  {
    StartIsFresh(first, second);
    undoing := SomeUndoing(Start(first, second), TwoSlots(), Hooking());
    StartIsSound(first, second);
    StartScans(first, second);
    ProcessRestoredExactly(Start(first, second), TwoSlots(), Hooking(), undoing);
  }

  // What the first slot reads after both commits: the word that the second one had.
  lemma FirstSlotAfter(first: nat, second: nat, undoing: seq<Call>)
    requires first != CALLBACK && second != CALLBACK
    requires Invariant(Start(first, second)) && CanCommit(Start(first, second), TwoSlots(), Hooking())
    requires CanCommit(ReadyToUndo(Start(first, second), TwoSlots(), Hooking()), TwoSlots(), undoing)
    ensures var v := Commit(ReadyToUndo(Start(first, second), TwoSlots(), Hooking()), TwoSlots(), undoing);
            1 in v.process.mem && v.process.mem[1].word == if second != 0 then second else CALLBACK
  {
    var s := Start(first, second);
    StartReads(first, second);
    StartIsFresh(first, second);
    StartPlan();
    StartScans(first, second);
    OverlaySteps(View(Rescan(s)));
    WordAfterBoth(s, TwoSlots(), Hooking(), undoing, 1);
    UndoneSlot(View(Rescan(s)), Patches(), 0);
  }

  /** Two slots of one symbol that start with different words: the first one is not restored, and gets
      the word of the second. */
  lemma SlotsThatDiffer(undoing: seq<Call>)
    requires Invariant(Start(40, 41)) && CanCommit(Start(40, 41), TwoSlots(), Hooking())
    requires CanCommit(ReadyToUndo(Start(40, 41), TwoSlots(), Hooking()), TwoSlots(), undoing)
    ensures var v := Commit(ReadyToUndo(Start(40, 41), TwoSlots(), Hooking()), TwoSlots(), undoing);
            1 in v.process.mem && v.process.mem[1].word == 41
  {
    FirstSlotAfter(40, 41, undoing);
  }

  /** Slots that start out null: nothing comes back for them, and the hooks stay. */
  lemma SlotsThatAreNull(undoing: seq<Call>)
    requires Invariant(Start(0, 0)) && CanCommit(Start(0, 0), TwoSlots(), Hooking())
    requires CanCommit(ReadyToUndo(Start(0, 0), TwoSlots(), Hooking()), TwoSlots(), undoing)
    ensures var v := Commit(ReadyToUndo(Start(0, 0), TwoSlots(), Hooking()), TwoSlots(), undoing);
            1 in v.process.mem && v.process.mem[1].word == CALLBACK
  {
    FirstSlotAfter(0, 0, undoing);
  }

  // ----- a hook that InvalidateBackup loses -----

  ghost function Hooked(): State
    requires Invariant(Start(40, 40)) && CanCommit(Start(40, 40), TwoSlots(), Hooking())
  {
    Commit(Start(40, 40), TwoSlots(), Hooking())
  }

  lemma HookedReads()
    ensures Invariant(Start(40, 40)) && CanCommit(Start(40, 40), TwoSlots(), Hooking())
    ensures 1 in Hooked().infos && Backed(Hooked().infos, 1) && 1 in Hooked().infos[1].hooks && Hooked().infos[1].hooks[1] == 40
    ensures 1 in Words(Hooked()) && Words(Hooked())[1] == CALLBACK
  {
    StartIsFresh(40, 40);
    StartReads(40, 40);
    StartScans(40, 40);
    StartPlan();
    var r := Rescan(Start(40, 40));
    OverlaySteps(View(r));
    HookAllRefines(r, Hooking());
    HookAllIdentities(r, Hooking());
    PatchedByAll(View(r), Patches(), 0);
    SameEnds(r.infos, Hooked().infos);
    SameOwners(r.infos, Hooked().infos);
    OnlyOwner(1);
    assert 1 in Hooks(HookAll(r, Hooking()));
    var k := RecordMeansBacked(HookAll(r, Hooking()), 1);
    SameIdentitiesNoneSelf(r.infos, Hooked().infos);
  }

  lemma RefusedTurn(s: State, a: nat)
    requires Invariant(s) && Backed(s.infos, 1) && a in s.infos[1].hooks
    ensures var turns := [Turn(1, Refused)];
            && InTable(s.infos, turns)
            && a in Words(InvalidateAll(s, turns)) && Words(InvalidateAll(s, turns))[a] == s.infos[1].hooks[a]
  {
    var turns := [Turn(1, Refused)];
    assert turns[0].k == 1 && Turn(1, Refused) in turns;
    LostWord(s, turns, 1, a);
  }

  /** One region whose first mprotect is refused: the slot that was hooked reads the original again. */
  lemma HookThatIsLost()
    ensures Invariant(Start(40, 40)) && CanCommit(Start(40, 40), TwoSlots(), Hooking())
    ensures var s, turns := Hooked(), [Turn(1, Refused)];
            && InTable(s.infos, turns)
            && 1 in Words(s) && Words(s)[1] == CALLBACK
            && 1 in Words(InvalidateAll(s, turns)) && Words(InvalidateAll(s, turns))[1] == 40
  {
    HookedReads();
    RefusedTurn(Hooked(), 1);
  }

  /** The same through InvalidateBackup itself, on a manager that has hooked the library: when no mremap
      fails it returns true, and if the first mprotect was refused the hook is gone nevertheless. */
  method LoseHook(m: Manager) returns (ok: bool, ghost turns: seq<Turn>)
    requires Invariant(Start(40, 40)) && CanCommit(Start(40, 40), TwoSlots(), Hooking())
    requires m.Valid() && m.Abstract() == Hooked()
    modifies m, m.os
    ensures 1 in old(Words(m.Abstract())) && old(Words(m.Abstract()))[1] == CALLBACK
    ensures m.os.lostMoves == old(m.os.lostMoves) ==> ok
    ensures ok && Turn(1, Refused) in turns ==> 1 in Words(m.Abstract()) && Words(m.Abstract())[1] == 40
    ensures ok && Turn(1, Refused) !in turns ==> Words(m.Abstract()) == old(Words(m.Abstract()))
  {
    HookedReads();
    ok, turns := m.InvalidateBackup();
    if ok {
      OneRegionLost(turns);
    }
  }

  // Whether readers of the hooked library see the invalidation.
  lemma OneRegionLost(turns: seq<Turn>)
    requires Invariant(Start(40, 40)) && CanCommit(Start(40, 40), TwoSlots(), Hooking())
    requires EveryRegion(Hooked().infos, turns)
    ensures var t := InvalidateAll(Hooked(), turns);
            if Turn(1, Refused) in turns then 1 in Words(t) && Words(t)[1] == 40 else Words(t) == Words(Hooked())
  {
    HookedReads();
    if Turn(1, Refused) in turns {
      LostWord(Hooked(), turns, 1, 1);
    } else {
      NothingLost(turns);
      InvisibleExactly(Hooked(), turns);
    }
  }

  lemma NothingLost(turns: seq<Turn>)
    requires Invariant(Start(40, 40)) && CanCommit(Start(40, 40), TwoSlots(), Hooking())
    requires Turn(1, Refused) !in turns
    ensures NoWordLost(Hooked(), turns)
  {
    OnlyRegion();
    NobodyRefused(Hooked().infos, turns);
  }

  lemma NobodyRefused(infos: Regions, turns: seq<Turn>)
    requires infos.Keys == {1} && Turn(1, Refused) !in turns
    ensures forall k, a :: !LosesHook(infos, turns, k, a)
  {
    assert forall k :: k in infos ==> k == 1;
  }

  // The hooked library is one region.
  lemma OnlyRegion()
    requires Invariant(Start(40, 40)) && CanCommit(Start(40, 40), TwoSlots(), Hooking())
    ensures Hooked().infos.Keys == {1}
  {
    StartScans(40, 40);
    StartReads(40, 40);
    HookAllIdentities(Rescan(Start(40, 40)), Hooking());
  }
}
