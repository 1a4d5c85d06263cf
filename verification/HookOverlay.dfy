/**
 The manager as its callers see it: words that read as they read, and a record of the words that
 were replaced. Patching a slot through backups, copies and remapped pages refines one step of
 this machine, and hooking followed by unhooking is the identity on it.
 */
module HookOverlay {
  import opened Options
  import opened AddressSpace
  import opened HookState
  import opened HookStep
  import opened HookEffect

  datatype Overlay = Overlay(words: map<nat, nat>, hooks: map<nat, nat>, saved: map<nat, nat>)

  ghost function View(s: State): Overlay {
    Overlay(Words(s), Hooks(s), s.saved)
  }

  function Apply(o: Overlay, w: Patch): Overlay {
    if w.addr in o.words then
      Overlay(o.words[w.addr := w.callback],
              Toggle(o.hooks, w.addr, o.words[w.addr], w.callback),
              Save(o.saved, w, o.words[w.addr]))
    else
      o
  }

  function ApplyAll(o: Overlay, ws: seq<Patch>): Overlay
    decreases |ws|
  {
    if ws == [] then o else ApplyAll(Apply(o, ws[0]), ws[1..])
  }

  // ----- one patched slot is one step -----

  lemma OwnedIsRead(s: State, addr: nat)
    requires Sound(s)
    ensures addr in Words(s) <==> Owner(s.infos, addr).Some?
  {
    TrackedIsMapped(s);
  }

  lemma PrepareView(s: State, k: nat, place: nat)
    requires Invariant(s) && k in s.infos
    requires !s.infos[k].isSelf && s.infos[k].backup == 0 ==> Fresh(s.process, place, s.infos[k].Length())
    ensures View(Prepare(s, k, place)) == View(s)
    ensures !s.infos[k].isSelf ==> Pristine(Prepare(s, k, place)) == Pristine(s)
  {
    if s.infos[k].isSelf {
      MakeWritableView(s, k);
    } else if s.infos[k].backup == 0 {
      TakeBackupView(s, k, place);
      TakeBackupPristine(s, k, place);
    }
  }

  lemma FinishView(s: State, k: nat)
    requires Sound(s) && k in s.infos && (!s.infos[k].isSelf ==> Backed(s.infos, k))
    ensures View(Finish(s, k)) == View(s)
    ensures Pristine(Finish(s, k)) == Pristine(s)
  {
    if s.infos[k].hooks == map[] && !s.infos[k].isSelf {
      DropView(s, k);
      DropPristine(s, k);
    }
  }

  lemma PrepareOwner(s: State, k: nat, addr: nat, place: nat)
    requires Sound(s) && Owner(s.infos, addr) == Some(k) && k in s.infos
    ensures Owner(Prepare(s, k, place).infos, addr) == Some(k)
  {
    PrepareOthers(s, k, place);
    SameOwners(s.infos, Prepare(s, k, place).infos);
  }

  /** Patching a slot changes one readable word, to the callback, and no other. */
  lemma HookRefines(s: State, w: Patch, place: nat)
    requires Invariant(s) && CanHook(s, w, place)
    ensures View(Hook(s, w, place)) == Apply(View(s), w)
    ensures var owner := Owner(s.infos, w.addr);
            owner.Some? && !s.infos[owner.value].isSelf ==> Pristine(Hook(s, w, place)) == Pristine(s)
  {
    OwnedIsRead(s, w.addr);
    var owner := Owner(s.infos, w.addr);
    if owner.Some? {
      var k := owner.value;
      PrepareView(s, k, place);
      PrepareSound(s, k, place);
      PreparedReady(s, k, w.addr, place);
      PrepareOwner(s, k, w.addr, place);
      var p := Prepare(s, k, place);
      WriteView(p, k, w);
      if Backed(p.infos, k) {
        WritePristine(p, k, w);
      }
      WriteSound(p, k, w);
      FinishView(WriteSlot(p, k, w), k);
    }
  }

  // ----- a list of patches, slot by slot -----

  predicate DistinctSlots(ws: seq<Patch>) {
    forall i, j :: 0 <= i < j < |ws| ==> ws[i].addr != ws[j].addr
  }

  predicate AllTracked(o: Overlay, ws: seq<Patch>) {
    forall i :: 0 <= i < |ws| ==> ws[i].addr in o.words
  }

  // u is what the slot a of o becomes under w alone.
  predicate SlotAfter(o: Overlay, u: Overlay, w: Patch)
    requires w.addr in o.words
  {
    var hooks := Toggle(o.hooks, w.addr, o.words[w.addr], w.callback);
    && w.addr in u.words
    && u.words[w.addr] == w.callback
    && (w.addr in u.hooks <==> w.addr in hooks)
    && (w.addr in hooks ==> u.hooks[w.addr] == hooks[w.addr])
  }

  predicate SlotKept(o: Overlay, u: Overlay, a: nat) {
    && (a in u.words <==> a in o.words)
    && (a in o.words ==> u.words[a] == o.words[a])
    && (a in u.hooks <==> a in o.hooks)
    && (a in o.hooks ==> u.hooks[a] == o.hooks[a])
  }

  lemma {:induction false} KeptByAll(o: Overlay, ws: seq<Patch>, a: nat)
    requires AllTracked(o, ws) && forall i :: 0 <= i < |ws| ==> ws[i].addr != a
    ensures SlotKept(o, ApplyAll(o, ws), a)
    decreases |ws|
  {
    if ws != [] {
      var o' := Apply(o, ws[0]);
      assert SlotKept(o, o', a);
      KeptByAll(o', ws[1..], a);
    }
  }

  lemma {:induction false} PatchedByAll(o: Overlay, ws: seq<Patch>, i: nat)
    requires DistinctSlots(ws) && AllTracked(o, ws) && i < |ws|
    ensures SlotAfter(o, ApplyAll(o, ws), ws[i])
    decreases |ws|
  {
    var o' := Apply(o, ws[0]);
    if i == 0 {
      KeptByAll(o', ws[1..], ws[0].addr);
    } else {
      assert SlotKept(o, o', ws[i].addr);
      PatchedByAll(o', ws[1..], i - 1);
    }
  }

  // ----- hooking, then unhooking -----

  // The word behind a backup pointer; the pointers start out null.
  function Behind(saved: map<nat, nat>, p: nat): nat {
    if p in saved then saved[p] else 0
  }

  // The patches whose backup pointers got something: a null callback is refused.
  function Answered(ws: seq<Patch>, saved: map<nat, nat>): (r: seq<Patch>)
    decreases |ws|
  {
    if ws == [] then []
    else
      (if Behind(saved, ws[0].saveTo) != 0 then [ws[0]] else []) + Answered(ws[1..], saved)
  }

  lemma {:induction false} AnsweredPatches(ws: seq<Patch>, saved: map<nat, nat>)
    ensures forall w :: w in Answered(ws, saved) <==> w in ws && Behind(saved, w.saveTo) != 0
    decreases |ws|
  {
    if ws != [] {
      AnsweredPatches(ws[1..], saved);
    }
  }

  // The requests that undo ws: each slot gets the word that went behind its backup pointer.
  function Undo(ws: seq<Patch>, saved: map<nat, nat>): (us: seq<Patch>)
    ensures |us| == |ws|
    ensures forall i :: 0 <= i < |ws| ==> us[i] == Patch(ws[i].addr, Behind(saved, ws[i].saveTo), 0)
  {
    seq(|ws|, i requires 0 <= i < |ws| => Patch(ws[i].addr, Behind(saved, ws[i].saveTo), 0))
  }

  // The second round: what is undone of ws.
  function Undoing(ws: seq<Patch>, saved: map<nat, nat>): (us: seq<Patch>) {
    Undo(Answered(ws, saved), saved)
  }

  // Fresh hooks: distinct slots, none hooked yet, each about to change, each with a backup pointer.
  predicate FreshHooks(o: Overlay, ws: seq<Patch>) {
    && DistinctSlots(ws)
    && AllTracked(o, ws)
    && forall i :: 0 <= i < |ws| ==>
         && ws[i].addr !in o.hooks
         && ws[i].saveTo != 0
         && o.words[ws[i].addr] != ws[i].callback
  }

  // Slots that share a backup pointer start with the same word.
  predicate SharedStart(o: Overlay, ws: seq<Patch>)
    requires AllTracked(o, ws)
  {
    forall i, j :: 0 <= i < |ws| && 0 <= j < |ws| && ws[i].saveTo == ws[j].saveTo ==>
      o.words[ws[i].addr] == o.words[ws[j].addr]
  }

  // No slot starts out null.
  predicate BoundStart(o: Overlay, ws: seq<Patch>)
    requires AllTracked(o, ws)
  {
    forall i :: 0 <= i < |ws| ==> o.words[ws[i].addr] != 0
  }

  lemma {:induction false} SavedKept(o: Overlay, ws: seq<Patch>, p: nat)
    requires forall i :: 0 <= i < |ws| ==> ws[i].saveTo != p
    ensures p in ApplyAll(o, ws).saved <==> p in o.saved
    ensures p in o.saved ==> ApplyAll(o, ws).saved[p] == o.saved[p]
    decreases |ws|
  {
    if ws != [] {
      SavedKept(Apply(o, ws[0]), ws[1..], p);
    }
  }

  // A backup pointer ends up with the first word of one of the slots that share it.
  lemma {:induction false} SavedWord(o: Overlay, ws: seq<Patch>, i: nat) returns (j: nat)
    requires FreshHooks(o, ws) && i < |ws|
    ensures j < |ws| && ws[j].saveTo == ws[i].saveTo
    ensures Behind(ApplyAll(o, ws).saved, ws[i].saveTo) == o.words[ws[j].addr]
    decreases |ws|
  {
    var o', rest := Apply(o, ws[0]), ws[1..];
    assert FreshHooks(o', rest);
    if i > 0 {
      j := SavedWord(o', rest, i - 1);
      assert rest[j] == ws[j + 1];
      j := j + 1;
    } else if m :| 0 <= m < |rest| && rest[m].saveTo == ws[0].saveTo {
      j := SavedWord(o', rest, m);
      assert rest[j] == ws[j + 1];
      j := j + 1;
    } else {
      j := 0;
      SavedKept(o', rest, ws[0].saveTo);
    }
  }

  lemma {:induction false} AnsweredDistinct(ws: seq<Patch>, saved: map<nat, nat>)
    requires DistinctSlots(ws)
    ensures DistinctSlots(Answered(ws, saved))
    decreases |ws|
  {
    if ws != [] {
      var rest := Answered(ws[1..], saved);
      AnsweredPatches(ws[1..], saved);
      AnsweredDistinct(ws[1..], saved);
      forall i | 0 <= i < |rest|
        ensures rest[i].addr != ws[0].addr
      {
        assert rest[i] in ws[1..];
      }
    }
  }

  lemma UndoingIndex(ws: seq<Patch>, saved: map<nat, nat>, w: Patch) returns (j: nat)
    requires w in ws && Behind(saved, w.saveTo) != 0
    ensures j < |Undoing(ws, saved)| && Undoing(ws, saved)[j] == Patch(w.addr, Behind(saved, w.saveTo), 0)
  {
    AnsweredPatches(ws, saved);
    j :| 0 <= j < |Answered(ws, saved)| && Answered(ws, saved)[j] == w;
  }

  // A patch of the second round comes from one of the first.
  lemma UndoingOrigin(ws: seq<Patch>, saved: map<nat, nat>, j: nat) returns (i: nat)
    requires j < |Undoing(ws, saved)|
    ensures i < |ws| && Undoing(ws, saved)[j] == Patch(ws[i].addr, Behind(saved, ws[i].saveTo), 0)
    ensures Behind(saved, ws[i].saveTo) != 0
  {
    var w := Answered(ws, saved)[j];
    AnsweredPatches(ws, saved);
    i :| 0 <= i < |ws| && ws[i] == w;
  }

  ghost function HookedThenUnhooked(o: Overlay, ws: seq<Patch>): Overlay {
    ApplyAll(ApplyAll(o, ws), Undoing(ws, ApplyAll(o, ws).saved))
  }

  // Slots with a record in o, each of them patched once.
  predicate RecordedSlots(o: Overlay, us: seq<Patch>) {
    && DistinctSlots(us)
    && AllTracked(o, us)
    && forall i :: 0 <= i < |us| ==> us[i].addr in o.hooks
  }

  lemma UndoingRecorded(o: Overlay, ws: seq<Patch>)
    requires FreshHooks(o, ws)
    ensures RecordedSlots(ApplyAll(o, ws), Undoing(ws, ApplyAll(o, ws).saved))
  {
    var r := ApplyAll(o, ws);
    var us := Undoing(ws, r.saved);
    AnsweredDistinct(ws, r.saved);
    forall j: nat | j < |us|
      ensures us[j].addr in r.words && us[j].addr in r.hooks
    {
      var i := UndoingOrigin(ws, r.saved, j);
      PatchedByAll(o, ws, i);
    }
  }

  // The word a slot ends with: what is behind its pointer, or the callback when that is null.
  lemma UndoneSlot(o: Overlay, ws: seq<Patch>, i: nat)
    requires FreshHooks(o, ws) && i < |ws|
    ensures var saved, u := ApplyAll(o, ws).saved, HookedThenUnhooked(o, ws);
            var back := Behind(saved, ws[i].saveTo);
            && ws[i].addr in u.words
            && u.words[ws[i].addr] == (if back != 0 then back else ws[i].callback)
            && (back != 0 && back == o.words[ws[i].addr] ==> ws[i].addr !in u.hooks)
  {
    var r := ApplyAll(o, ws);
    var us := Undoing(ws, r.saved);
    PatchedByAll(o, ws, i);
    UndoingRecorded(o, ws);
    if Behind(r.saved, ws[i].saveTo) != 0 {
      var j := UndoingIndex(ws, r.saved, ws[i]);
      PatchedByAll(r, us, j);
    } else {
      forall j: nat | j < |us|
        ensures us[j].addr != ws[i].addr
      {
        var k := UndoingOrigin(ws, r.saved, j);
      }
      KeptByAll(r, us, ws[i].addr);
    }
  }

  lemma UntouchedSlot(o: Overlay, ws: seq<Patch>, a: nat)
    requires FreshHooks(o, ws) && forall i :: 0 <= i < |ws| ==> ws[i].addr != a
    ensures SlotKept(o, HookedThenUnhooked(o, ws), a)
  {
    var r := ApplyAll(o, ws);
    var us := Undoing(ws, r.saved);
    UndoingRecorded(o, ws);
    KeptByAll(o, ws, a);
    forall j: nat | j < |us|
      ensures us[j].addr != a
    {
      var i := UndoingOrigin(ws, r.saved, j);
    }
    KeptByAll(r, us, a);
  }

  /** Hooking fresh slots and then unhooking them restores every word and every record. */
  lemma HookThenUnhook(o: Overlay, ws: seq<Patch>)
    requires FreshHooks(o, ws) && SharedStart(o, ws) && BoundStart(o, ws)
    ensures HookedThenUnhooked(o, ws).words == o.words
    ensures HookedThenUnhooked(o, ws).hooks == o.hooks
  {
    var u := HookedThenUnhooked(o, ws);
    forall a: nat {:trigger a in u.words} {:trigger a in u.hooks}
      ensures SlotKept(o, u, a)
    {
      if i :| 0 <= i < |ws| && ws[i].addr == a {
        UndoneSlot(o, ws, i);
        var j := SavedWord(o, ws, i);
      } else {
        UntouchedSlot(o, ws, a);
      }
    }
    assert u.words.Keys == o.words.Keys && u.hooks.Keys == o.hooks.Keys;
  }

  /** It restores the words exactly when the slots behind each backup pointer started alike, and none
      of them null. */
  lemma HookThenUnhookExactly(o: Overlay, ws: seq<Patch>)
    requires FreshHooks(o, ws)
    ensures HookedThenUnhooked(o, ws).words == o.words <==> SharedStart(o, ws) && BoundStart(o, ws)
  {
    if SharedStart(o, ws) && BoundStart(o, ws) {
      HookThenUnhook(o, ws);
    }
    if HookedThenUnhooked(o, ws).words == o.words {
      forall i: nat | i < |ws|
        ensures Behind(ApplyAll(o, ws).saved, ws[i].saveTo) == o.words[ws[i].addr] != 0
      {
        UndoneSlot(o, ws, i);
      }
    }
  }
}
