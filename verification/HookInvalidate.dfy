/**
 InvalidateBackup: every backup image goes home and the hooks are written onto it, if the kernel lets
 them be written.
 */
module HookInvalidate {
  import opened Options
  import opened AddressSpace
  import opened HookState
  import opened HookStep
  import opened HookEffect
  import opened HookCommit

  // What the two mprotect calls on the pages that came home did: the first one was refused, or it was
  // granted, and then the second one put the protection back or not.
  datatype Answer = Refused | Granted(restored: bool)

  // The recorded slots of a region, written with the words they have in the copy.
  function Rewritten(home: map<nat, Cell>, copy: map<nat, Cell>, hooks: map<nat, nat>): map<nat, Cell> {
    map a | a in home :: if a in hooks && a in copy then Cell(copy[a].word, true) else home[a]
  }

  // The address space once the image at home has, or has not, its hooks.
  function Rehooked(home: Process, copy: map<nat, Cell>, k: nat, info: HookInfo, answer: Answer): Process
    requires k in home.vmas
  {
    match answer
    case Refused => home
    case Granted(restored) =>
      Protect(home.(mem := Rewritten(home.mem, copy, info.hooks)), k, if restored then info.area.perms else {Write})
  }

  function ClearedInfo(info: HookInfo): HookInfo {
    if info.backup == 0 then info else info.(hooks := map[], backup := 0)
  }

  ghost function InvalidateOne(s: State, k: nat, answer: Answer): State
    requires Sound(s) && k in s.infos
  {
    if s.infos[k].backup == 0 then s
    else
      s.(process := Rehooked(DropBackup(s, k).process, s.process.mem, k, s.infos[k], answer),
         infos := s.infos[k := ClearedInfo(s.infos[k])])
  }

  // ----- the invariant -----

  // The same table of regions, by way of the one in which only the backup is gone.
  lemma ClearedTwice(infos: Regions, k: nat)
    requires k in infos && infos[k].backup != 0
    ensures var d := infos[k := infos[k].(backup := 0)];
            d[k := d[k].(hooks := map[])] == infos[k := ClearedInfo(infos[k])]
  {
  }

  ghost function Forgetting(d: State, k: nat, p: Process): State
    requires k in d.infos
  {
    d.(process := p, infos := d.infos[k := d.infos[k].(hooks := map[])])
  }

  lemma ForgottenSound(d: State, k: nat)
    requires Sound(d) && k in d.infos && d.infos[k].backup == 0
    ensures Sound(Forgetting(d, k, d.process))
  {
    var t := Forgetting(d, k, d.process);
    assert RegionSound(d.process, d.infos[k]);
    SameBackupsApart(d.infos, t.infos);
    SoundAgain(d, t, k);
  }

  lemma RewrittenSound(d: State, k: nat, copy: map<nat, Cell>, perms: set<Protection>)
    requires Sound(d) && k in d.infos && d.infos[k].backup == 0
    ensures k in d.process.vmas
    ensures var p := d.process.(mem := Rewritten(d.process.mem, copy, d.infos[k].hooks));
            Sound(Forgetting(d, k, Protect(p, k, perms)))
  {
    assert RegionSound(d.process, d.infos[k]);
    var p := d.process.(mem := Rewritten(d.process.mem, copy, d.infos[k].hooks));
    var t := Forgetting(d, k, Protect(p, k, perms));
    RewrittenWellFormed(d.process, copy, d.infos[k].hooks);
    ProtectWellFormed(p, k, perms);
    forall j {:trigger j in d.infos} | j in d.infos && j != k
      ensures SameAround(d.process, t.process, d.infos[j])
    {
      RewrittenAround(d, k, j, copy, perms);
    }
    SameBackupsApart(d.infos, t.infos);
    SoundAgain(d, t, k);
  }

  lemma RewrittenWellFormed(p: Process, copy: map<nat, Cell>, hooks: map<nat, nat>)
    requires WellFormed(p)
    ensures WellFormed(p.(mem := Rewritten(p.mem, copy, hooks)))
  {
    var q := p.(mem := Rewritten(p.mem, copy, hooks));
    forall v {:trigger v in q.vmas} | v in q.vmas
      ensures Populated(q.mem, q.vmas[v])
    {
      assert Populated(p.mem, p.vmas[v]);
    }
  }

  lemma RewrittenAround(d: State, k: nat, j: nat, copy: map<nat, Cell>, perms: set<Protection>)
    requires Sound(d) && k in d.infos && j in d.infos && j != k && k in d.process.vmas
    ensures var p := d.process.(mem := Rewritten(d.process.mem, copy, d.infos[k].hooks));
            SameAround(d.process, Protect(p, k, perms), d.infos[j])
  {
    assert RegionSound(d.process, d.infos[k]);
    assert Backed(d.infos, j) ==> d.infos[j].backup != k;
    RegionsAndBackupsDisjoint(d, j, k);
    RegionsAndBackupsDisjoint(d, k, j);
  }

  lemma RehookedTidy(s: State, k: nat)
    requires Tidy(s.infos) && k in s.infos
    ensures Tidy(s.infos[k := ClearedInfo(s.infos[k])])
  {
  }

  /** Whatever the kernel answers, the invariant survives. */
  lemma InvalidateOneInvariant(s: State, k: nat, answer: Answer)
    requires Invariant(s) && k in s.infos
    ensures Invariant(InvalidateOne(s, k, answer))
  {
    if s.infos[k].backup != 0 {
      DropSound(s, k);
      ClearedTwice(s.infos, k);
      match answer {
        case Refused => ForgottenSound(DropBackup(s, k), k);
        case Granted(restored) =>
          RewrittenSound(DropBackup(s, k), k, s.process.mem, if restored then s.infos[k].area.perms else {Write});
      }
      RehookedTidy(s, k);
    }
  }

  lemma InvalidateOneInfos(s: State, k: nat, answer: Answer)
    requires Sound(s) && k in s.infos
    ensures InvalidateOne(s, k, answer).infos == s.infos[k := ClearedInfo(s.infos[k])]
    ensures var t := InvalidateOne(s, k, answer); t.saved == s.saved && t.queue == s.queue && t.me == s.me
  {
  }

  // ----- what readers see -----

  // The word that a slot of region k reads once the region is invalidated: a hook that could not be
  // written is lost.
  ghost function WordKept(s: State, k: nat, answer: Answer, a: nat): nat
    requires k in s.infos && a in s.process.mem
  {
    if Backed(s.infos, k) && answer.Refused? && a in s.infos[k].hooks then s.infos[k].hooks[a] else s.process.mem[a].word
  }

  lemma HomeCell(s: State, k: nat, a: nat)
    requires Sound(s) && Backed(s.infos, k) && k <= a < s.infos[k].area.end
    ensures a in s.process.mem && Twin(s.infos[k], a) in s.process.mem && a in DropBackup(s, k).process.mem
    ensures DropBackup(s, k).process.mem[a] == s.process.mem[Twin(s.infos[k], a)]
    ensures DropBackup(s, k).process.mem[a].word ==
            if a in s.infos[k].hooks then s.infos[k].hooks[a] else s.process.mem[a].word
  {
    assert RegionSound(s.process, s.infos[k]);
    var twin: nat := Twin(s.infos[k], a);
  }

  lemma RehookedWord(s: State, k: nat, answer: Answer, a: nat)
    requires Sound(s) && Backed(s.infos, k) && k <= a < s.infos[k].area.end
    ensures a in s.process.mem && a in InvalidateOne(s, k, answer).process.mem
    ensures InvalidateOne(s, k, answer).process.mem[a].word == WordKept(s, k, answer, a)
  {
    HomeCell(s, k, a);
  }

  lemma OtherWord(s: State, k: nat, answer: Answer, j: nat, a: nat)
    requires Sound(s) && Backed(s.infos, k) && j in s.infos && j != k
    requires j <= a < s.infos[j].area.end && a in s.process.mem
    ensures a in InvalidateOne(s, k, answer).process.mem
    ensures InvalidateOne(s, k, answer).process.mem[a].word == s.process.mem[a].word
  {
    assert RegionSound(s.process, s.infos[k]);
    DropAround(s, k, j);
    RegionsAndBackupsDisjoint(s, j, k);
  }

  lemma InvalidatedWord(s: State, k: nat, answer: Answer, j: nat, a: nat)
    requires Sound(s) && k in s.infos && Owner(s.infos, a) == Some(j)
    ensures a in s.process.mem && a in InvalidateOne(s, k, answer).process.mem
    ensures InvalidateOne(s, k, answer).process.mem[a].word ==
            if j == k then WordKept(s, k, answer, a) else s.process.mem[a].word
  {
    OwnedIsMapped(s, j, a);
    if Backed(s.infos, k) {
      if j == k {
        RehookedWord(s, k, answer, a);
      } else {
        OtherWord(s, k, answer, j, a);
      }
    }
  }

  // ----- the image underneath -----

  lemma RewrittenCell(infos: Regions, m: map<nat, Cell>, copy: map<nat, Cell>, k: nat, a: nat)
    requires k in infos && infos[k].backup == 0 && WellFormedRegions(infos) && Disjoint(infos)
    requires HooksInside(infos[k]) && forall b :: b in infos[k].hooks ==> b in copy && b in m && !InBackup(infos, b)
    requires forall j: nat {:trigger Backed(infos, j)} :: Backed(infos, j) && j <= a < infos[j].area.end ==>
               !(k <= Twin(infos[j], a) < infos[k].area.end)
    ensures PristineCell(infos[k := infos[k].(hooks := map[])], Rewritten(m, copy, infos[k].hooks), a) ==
            if a in infos[k].hooks then Some(Cell(copy[a].word, true)) else PristineCell(infos, m, a)
  {
    ForgottenCell(infos, m, k, a);
    var infos' := infos[k := infos[k].(hooks := map[])];
    OwnerIsContainer(infos, k, a);
    var owner := Owner(infos, a);
    if owner.Some? && Backed(infos, owner.value) {
      OwnerIsContainer(infos, owner.value, a);
    }
  }

  // Records do not matter to the image underneath.
  lemma ForgottenCell(infos: Regions, m: map<nat, Cell>, k: nat, a: nat)
    requires k in infos
    ensures var infos' := infos[k := infos[k].(hooks := map[])];
            && Owner(infos', a) == Owner(infos, a)
            && (InBackup(infos', a) <==> InBackup(infos, a))
            && PristineCell(infos', m, a) == PristineCell(infos, m, a)
  {
    var infos' := infos[k := infos[k].(hooks := map[])];
    assert SameBackups(infos, infos');
    SameBackupNames(infos, infos', a);
    SameOwners(infos, infos');
  }

  lemma HooksNotInBackup(s: State, k: nat, a: nat)
    requires Sound(s) && k in s.infos && k <= a < s.infos[k].area.end
    ensures !InBackup(s.infos, a)
  {
    if j :| Backed(s.infos, j) && s.infos[j].backup <= a < s.infos[j].backup + (s.infos[j].area.end - j) {
      RegionsAndBackupsDisjoint(s, k, j);
    }
  }

  lemma RehookedCell(s: State, k: nat, d: State, a: nat)
    requires Sound(s) && Backed(s.infos, k) && Sound(d) && d == DropBackup(s, k)
    ensures var infos := d.infos[k := d.infos[k].(hooks := map[])];
            PristineCell(infos, Rewritten(d.process.mem, s.process.mem, s.infos[k].hooks), a) ==
            if a in s.infos[k].hooks && a in s.process.mem then Some(Cell(s.process.mem[a].word, true))
            else PristineCell(d.infos, d.process.mem, a)
  {
    assert RegionSound(s.process, s.infos[k]) && RegionSound(d.process, d.infos[k]);
    RegionsDisjoint(d);
    forall b | b in d.infos[k].hooks
      ensures b in s.process.mem && b in d.process.mem && !InBackup(d.infos, b)
    {
      HooksNotInBackup(d, k, b);
      var twin: nat := Twin(s.infos[k], b);
    }
    forall j: nat | Backed(d.infos, j) && j <= a < d.infos[j].area.end
      ensures !(k <= Twin(d.infos[j], a) < d.infos[k].area.end)
    {
      TwinsApart(d, k, j, a);
    }
    RewrittenCell(d.infos, d.process.mem, s.process.mem, k, a);
  }

  /** A backup goes home as it is, and only its hooked slots are written, if any. */
  lemma InvalidateOneCell(s: State, k: nat, answer: Answer, a: nat)
    requires Sound(s) && Backed(s.infos, k) && Sound(DropBackup(s, k))
    ensures var t := InvalidateOne(s, k, answer);
            PristineCell(t.infos, t.process.mem, a) ==
            if answer.Granted? && a in s.infos[k].hooks && a in s.process.mem then Some(Cell(s.process.mem[a].word, true))
            else PristineCell(s.infos, s.process.mem, a)
  {
    var d := DropBackup(s, k);
    ClearedTwice(s.infos, k);
    if answer.Granted? {
      RehookedCell(s, k, d, a);
    } else {
      ForgottenCell(d.infos, d.process.mem, k, a);
    }
    DropPristine(s, k);
    PristineAt(s, a);
    PristineAt(d, a);
  }

  // ----- every region -----

  // One turn of the loop: a region, and what the kernel answers if it has a backup to bring home.
  datatype Turn = Turn(k: nat, answer: Answer)

  ghost predicate InTable(infos: Regions, vs: seq<Turn>) {
    forall i :: 0 <= i < |vs| ==> vs[i].k in infos
  }

  predicate Visited(vs: seq<Turn>, k: nat) {
    exists i :: 0 <= i < |vs| && vs[i].k == k
  }

  predicate OnceEach(vs: seq<Turn>) {
    forall i, j :: 0 <= i < j < |vs| ==> vs[i].k != vs[j].k
  }

  // Each tracked region has one turn.
  ghost predicate EveryRegion(infos: Regions, vs: seq<Turn>) {
    InTable(infos, vs) && OnceEach(vs) && forall k :: k in infos ==> Visited(vs, k)
  }

  // The hooks of region k could not be written.
  predicate WasRefused(vs: seq<Turn>, k: nat) {
    Turn(k, Refused) in vs
  }

  // The regions are visited one after another.
  ghost function InvalidateAll(s: State, vs: seq<Turn>): (t: State)
    requires Invariant(s) && InTable(s.infos, vs)
    ensures Invariant(t) && t.infos.Keys == s.infos.Keys
    decreases |vs|
  {
    if vs == [] then s
    else
      var t := InvalidateAll(s, Front(vs));
      InvalidateOneInvariant(t, Last(vs).k, Last(vs).answer);
      InvalidateOne(t, Last(vs).k, Last(vs).answer)
  }

  lemma VisitedFront(vs: seq<Turn>, k: nat)
    requires vs != []
    ensures Visited(vs, k) <==> Visited(Front(vs), k) || k == Last(vs).k
  {
    if i :| 0 <= i < |Front(vs)| && Front(vs)[i].k == k {
      assert vs[i].k == k;
    }
    if i :| 0 <= i < |vs| && vs[i].k == k && i < |vs| - 1 {
      assert Front(vs)[i].k == k;
    }
  }

  // The table of regions once those in vs have had their turn.
  ghost predicate ClearedBy(infos: Regions, vs: seq<Turn>, cleared: Regions) {
    cleared.Keys == infos.Keys &&
    forall k {:trigger k in infos} :: k in infos ==>
      cleared[k] == if Visited(vs, k) then ClearedInfo(infos[k]) else infos[k]
  }

  lemma ClearedNext(infos: Regions, vs: seq<Turn>, cleared: Regions)
    requires vs != [] && Last(vs).k in infos && ClearedBy(infos, Front(vs), cleared)
    ensures ClearedBy(infos, vs, cleared[Last(vs).k := ClearedInfo(cleared[Last(vs).k])])
  {
    forall k | k in infos
      ensures Visited(vs, k) <==> Visited(Front(vs), k) || k == Last(vs).k
    {
      VisitedFront(vs, k);
    }
  }

  /** A region that had a backup loses it and its records, others keep theirs, whatever the kernel
      answered. */
  lemma {:induction false} InvalidateAllInfos(s: State, vs: seq<Turn>)
    requires Invariant(s) && InTable(s.infos, vs)
    ensures var t := InvalidateAll(s, vs);
            t.saved == s.saved && t.queue == s.queue && t.me == s.me && ClearedBy(s.infos, vs, t.infos)
    decreases |vs|
  {
    if vs != [] {
      var t := InvalidateAll(s, Front(vs));
      InvalidateAllInfos(s, Front(vs));
      InvalidateOneInfos(t, Last(vs).k, Last(vs).answer);
      ClearedNext(s.infos, vs, t.infos);
    }
  }

  lemma LastIsNew(vs: seq<Turn>)
    requires OnceEach(vs) && vs != []
    ensures OnceEach(Front(vs)) && !Visited(Front(vs), Last(vs).k)
    ensures forall k :: k != Last(vs).k ==> (WasRefused(vs, k) <==> WasRefused(Front(vs), k))
    ensures WasRefused(vs, Last(vs).k) <==> Last(vs).answer.Refused?
  {
    assert vs == Front(vs) + [Last(vs)];
    assert Last(vs) in vs;
    forall i | 0 <= i < |Front(vs)|
      ensures Front(vs)[i].k != Last(vs).k
    {
      assert Front(vs)[i] == vs[i];
    }
  }

  lemma NotVisitedNotRefused(vs: seq<Turn>, k: nat)
    ensures WasRefused(vs, k) ==> Visited(vs, k)
  {
  }

  ghost predicate LosesHook(infos: Regions, vs: seq<Turn>, k: nat, a: nat) {
    Backed(infos, k) && WasRefused(vs, k) && a in infos[k].hooks
  }

  ghost function WordAfter(s: State, vs: seq<Turn>, k: nat, a: nat): nat
    requires k in s.infos && a in s.process.mem
  {
    if LosesHook(s.infos, vs, k, a) then s.infos[k].hooks[a] else s.process.mem[a].word
  }

  // The last turn, when t is what the others left.
  lemma WordAfterTurn(s: State, t: State, vs: seq<Turn>, k: nat, a: nat)
    requires Sound(t) && vs != [] && OnceEach(vs) && Last(vs).k in t.infos
    requires k in s.infos && k in t.infos && a in s.process.mem && a in t.process.mem && Owner(t.infos, a) == Some(k)
    requires t.infos[k] == if Visited(Front(vs), k) then ClearedInfo(s.infos[k]) else s.infos[k]
    requires t.process.mem[a].word == WordAfter(s, Front(vs), k, a)
    ensures var u := InvalidateOne(t, Last(vs).k, Last(vs).answer);
            a in u.process.mem && u.process.mem[a].word == WordAfter(s, vs, k, a)
  {
    LastIsNew(vs);
    NotVisitedNotRefused(Front(vs), k);
    InvalidatedWord(t, Last(vs).k, Last(vs).answer, k, a);
  }

  lemma LastTurn(s: State, vs: seq<Turn>)
    requires Invariant(s) && InTable(s.infos, vs) && vs != []
    ensures InTable(s.infos, Front(vs)) && Last(vs).k in s.infos
    ensures InvalidateAll(s, vs) == InvalidateOne(InvalidateAll(s, Front(vs)), Last(vs).k, Last(vs).answer)
  {
  }

  lemma WordAfterLast(s: State, vs: seq<Turn>, k: nat, a: nat)
    requires Invariant(s) && InTable(s.infos, vs) && OnceEach(vs) && vs != [] && InTable(s.infos, Front(vs))
    requires k in s.infos && a in s.process.mem
    requires var t := InvalidateAll(s, Front(vs));
             a in t.process.mem && Owner(t.infos, a) == Some(k) && t.process.mem[a].word == WordAfter(s, Front(vs), k, a)
    ensures var u := InvalidateAll(s, vs);
            a in u.process.mem && Owner(u.infos, a) == Some(k) && u.process.mem[a].word == WordAfter(s, vs, k, a)
  {
    var t := InvalidateAll(s, Front(vs));
    LastTurn(s, vs);
    OwnerAfterTurn(t, Last(vs).k, Last(vs).answer, a);
    ClearedOrNot(s, Front(vs), k);
    WordAfterTurn(s, t, vs, k, a);
  }

  lemma OwnerAfterTurn(t: State, k: nat, answer: Answer, a: nat)
    requires Sound(t) && k in t.infos
    ensures Owner(InvalidateOne(t, k, answer).infos, a) == Owner(t.infos, a)
  {
    InvalidateOneInfos(t, k, answer);
    SameOwners(t.infos, t.infos[k := ClearedInfo(t.infos[k])]);
  }

  lemma ClearedOrNot(s: State, vs: seq<Turn>, k: nat)
    requires Invariant(s) && InTable(s.infos, vs) && k in s.infos
    ensures var t := InvalidateAll(s, vs);
            k in t.infos && t.infos[k] == if Visited(vs, k) then ClearedInfo(s.infos[k]) else s.infos[k]
  {
    InvalidateAllInfos(s, vs);
  }

  /** What each slot reads afterwards: the word it read, or the recorded one if its hook was lost. */
  lemma {:induction false} WordAfterAll(s: State, vs: seq<Turn>, k: nat, a: nat)
    requires Invariant(s) && InTable(s.infos, vs) && OnceEach(vs) && Owner(s.infos, a) == Some(k) && k in s.infos
    ensures var t := InvalidateAll(s, vs);
            && a in s.process.mem && a in t.process.mem && Owner(t.infos, a) == Some(k)
            && t.process.mem[a].word == WordAfter(s, vs, k, a)
    decreases |vs|
  {
    if vs == [] {
      OwnedIsMapped(s, k, a);
    } else {
      LastIsNew(vs);
      WordAfterAll(s, Front(vs), k, a);
      WordAfterLast(s, vs, k, a);
    }
  }

  // No hook that was lost made a difference.
  ghost predicate NoWordLost(s: State, vs: seq<Turn>) {
    forall k, a {:trigger LosesHook(s.infos, vs, k, a)} ::
      LosesHook(s.infos, vs, k, a) ==> a in s.process.mem && s.infos[k].hooks[a] == s.process.mem[a].word
  }

  lemma ReadsAfterAll(s: State, vs: seq<Turn>, a: nat)
    requires Invariant(s) && InTable(s.infos, vs) && OnceEach(vs)
    ensures var t := InvalidateAll(s, vs);
            && (a in Words(s) <==> a in Words(t))
            && (a in Words(s) ==>
                  var k := Owner(s.infos, a).value;
                  k in s.infos && a in s.process.mem && Words(t)[a] == WordAfter(s, vs, k, a))
  {
    SameOwnersAfterAll(s, vs);
    var owner := Owner(s.infos, a);
    if owner.Some? {
      OwnedIsMapped(s, owner.value, a);
      WordAfterAll(s, vs, owner.value, a);
    }
  }

  lemma EqualWords(m: map<nat, nat>, n: map<nat, nat>)
    requires forall a: nat {:trigger a in m} {:trigger a in n} :: (a in m <==> a in n) && (a in m ==> m[a] == n[a])
    ensures m == n
  {
  }

  /** Readers see nothing if and only if, in each region with a backup, the pages could be made
      writable or every recorded word was the current one already. */
  lemma InvisibleExactly(s: State, vs: seq<Turn>)
    requires Invariant(s) && InTable(s.infos, vs) && OnceEach(vs)
    ensures Words(InvalidateAll(s, vs)) == Words(s) <==> NoWordLost(s, vs)
  {
    if NoWordLost(s, vs) {
      forall a: nat
        ensures a in Words(s) <==> a in Words(InvalidateAll(s, vs))
        ensures a in Words(s) ==> Words(s)[a] == Words(InvalidateAll(s, vs))[a]
      {
        ReadsAfterAll(s, vs, a);
      }
      EqualWords(Words(s), Words(InvalidateAll(s, vs)));
    }
    if Words(InvalidateAll(s, vs)) == Words(s) {
      forall k, a | LosesHook(s.infos, vs, k, a)
        ensures a in s.process.mem && s.infos[k].hooks[a] == s.process.mem[a].word
      {
        LostWord(s, vs, k, a);
      }
    }
  }

  lemma LostWord(s: State, vs: seq<Turn>, k: nat, a: nat)
    requires Invariant(s) && InTable(s.infos, vs) && OnceEach(vs) && LosesHook(s.infos, vs, k, a)
    ensures a in Words(s) && a in Words(InvalidateAll(s, vs)) && a in s.process.mem
    ensures Words(s)[a] == s.process.mem[a].word && Words(InvalidateAll(s, vs))[a] == s.infos[k].hooks[a]
  {
    HookIsOwned(s, k, a);
    OwnedIsMapped(s, k, a);
    ReadsAfterAll(s, vs, a);
  }

  lemma HookIsOwned(s: State, k: nat, a: nat)
    requires Sound(s) && k in s.infos && a in s.infos[k].hooks
    ensures Owner(s.infos, a) == Some(k)
  {
    assert RegionSound(s.process, s.infos[k]);
    RegionsDisjoint(s);
    OwnerIsContainer(s.infos, k, a);
  }

  lemma SameOwnersAfterAll(s: State, vs: seq<Turn>)
    requires Invariant(s) && InTable(s.infos, vs)
    ensures forall a: nat :: Owner(InvalidateAll(s, vs).infos, a) == Owner(s.infos, a)
  {
    InvalidateAllInfos(s, vs);
    SameOwners(s.infos, InvalidateAll(s, vs).infos);
  }

  predicate AllGranted(vs: seq<Turn>) {
    forall i :: 0 <= i < |vs| ==> vs[i].answer == Granted(true)
  }

  /** With no mprotect refused, readers see nothing. */
  lemma GrantedIsInvisible(s: State, vs: seq<Turn>)
    requires Invariant(s) && InTable(s.infos, vs) && OnceEach(vs) && AllGranted(vs)
    ensures Words(InvalidateAll(s, vs)) == Words(s)
  {
    InvisibleExactly(s, vs);
  }

  /** Every region visited: no backup is left, so the hooked image is the actual address space. */
  lemma InvalidateAllDropsBackups(s: State, vs: seq<Turn>)
    requires Invariant(s) && InTable(s.infos, vs) && (forall k :: k in s.infos ==> Visited(vs, k))
    ensures var t := InvalidateAll(s, vs);
            && (forall k {:trigger k in t.infos} :: k in t.infos ==> t.infos[k].backup == 0)
            && Pristine(t) == t.process
  {
    InvalidateAllInfos(s, vs);
    NoBackupLeft(s.infos, InvalidateAll(s, vs).infos, vs);
    PristineIsActual(InvalidateAll(s, vs));
  }

  lemma NoBackupLeft(infos: Regions, cleared: Regions, vs: seq<Turn>)
    requires ClearedBy(infos, vs, cleared) && forall k :: k in infos ==> Visited(vs, k)
    ensures forall k {:trigger k in cleared} :: k in cleared ==> cleared[k].backup == 0
  {
  }

  // The hook of slot a was written to the pages underneath.
  ghost predicate WrittenBack(infos: Regions, vs: seq<Turn>, a: nat) {
    exists i :: 0 <= i < |vs| && WritesBack(infos, vs[i], a)
  }

  ghost predicate WritesBack(infos: Regions, turn: Turn, a: nat) {
    turn.answer.Granted? && Backed(infos, turn.k) && a in infos[turn.k].hooks
  }

  lemma WrittenLast(infos: Regions, cleared: Regions, vs: seq<Turn>, a: nat)
    requires vs != [] && OnceEach(vs) && Last(vs).k in infos && Last(vs).k in cleared
    requires cleared[Last(vs).k] == infos[Last(vs).k]
    ensures WrittenBack(infos, vs, a) <==> WrittenBack(infos, Front(vs), a) || WritesBack(cleared, Last(vs), a)
  {
    if i :| 0 <= i < |vs| && WritesBack(infos, vs[i], a) && i < |vs| - 1 {
      assert WritesBack(infos, Front(vs)[i], a);
    }
    if i :| 0 <= i < |Front(vs)| && WritesBack(infos, Front(vs)[i], a) {
      assert WritesBack(infos, vs[i], a);
    }
    assert WritesBack(cleared, Last(vs), a) ==> WritesBack(infos, vs[|vs| - 1], a);
  }

  // One cell after one region: written if the region recorded it and could be written, else the pristine one.
  lemma InvalidateOneAny(s: State, turn: Turn, a: nat)
    requires Invariant(s) && turn.k in s.infos
    ensures var t := InvalidateOne(s, turn.k, turn.answer);
            if WritesBack(s.infos, turn, a) then
              a in s.process.mem && PristineCell(t.infos, t.process.mem, a) == Some(Cell(s.process.mem[a].word, true))
            else
              PristineCell(t.infos, t.process.mem, a) == PristineCell(s.infos, s.process.mem, a)
  {
    if Backed(s.infos, turn.k) {
      if a in s.infos[turn.k].hooks {
        HookIsOwned(s, turn.k, a);
        OwnedIsMapped(s, turn.k, a);
      }
      DropSound(s, turn.k);
      InvalidateOneCell(s, turn.k, turn.answer, a);
    }
  }

  /** The hooks that can be written end up on the original pages, and no other cell of those pages is
      written. */
  lemma {:induction false} InvalidateAllWritesHooks(s: State, vs: seq<Turn>, a: nat)
    requires Invariant(s) && InTable(s.infos, vs) && OnceEach(vs)
    ensures var t := InvalidateAll(s, vs);
            if WrittenBack(s.infos, vs, a) then
              a in s.process.mem && PristineCell(t.infos, t.process.mem, a) == Some(Cell(s.process.mem[a].word, true))
            else
              PristineCell(t.infos, t.process.mem, a) == PristineCell(s.infos, s.process.mem, a)
    decreases |vs|
  {
    if vs != [] {
      var t, turn := InvalidateAll(s, Front(vs)), Last(vs);
      LastIsNew(vs);
      InvalidateAllWritesHooks(s, Front(vs), a);
      InvalidateAllInfos(s, Front(vs));
      WrittenLast(s.infos, t.infos, vs, a);
      InvalidateOneAny(t, turn, a);
      if WritesBack(t.infos, turn, a) {
        HookIsOwned(s, turn.k, a);
        WordAfterAll(s, Front(vs), turn.k, a);
        NotVisitedNotRefused(Front(vs), turn.k);
      }
    }
  }

  // ----- the mappings -----

  // The mapping of the file, back in its region, protected as the two mprotect calls left it.
  function HomeMapping(m: map<nat, MapInfo>, info: HookInfo, answer: Answer): MapInfo
    requires info.backup in m
  {
    var home := m[info.backup].(start := info.area.start, end := info.area.end);
    match answer
    case Refused => home
    case Granted(restored) => home.(perms := if restored then info.area.perms else {Write})
  }

  // One turn takes the mapping from where the backup was.
  ghost predicate BringsHome(m: map<nat, MapInfo>, n: map<nat, MapInfo>, info: HookInfo, answer: Answer) {
    if info.backup == 0 then n == m
    else info.backup in m && n == (m - {info.backup})[info.area.start := HomeMapping(m, info, answer)]
  }

  lemma RehookedMappings(home: Process, copy: map<nat, Cell>, k: nat, info: HookInfo, answer: Answer, m: map<nat, MapInfo>)
    requires info.backup in m && info.backup != 0 && info.area.start == k && k <= info.area.end
    requires k in home.vmas && home.vmas == (m - {info.backup})[k := At(m[info.backup], k, info.area.end - k)]
    ensures BringsHome(m, Rehooked(home, copy, k, info, answer).vmas, info, answer)
  {
  }

  lemma DroppedMappings(s: State, k: nat)
    requires Sound(s) && Backed(s.infos, k)
    ensures s.infos[k].backup in s.process.vmas && k in DropBackup(s, k).process.vmas
    ensures s.infos[k].area.start == k && k <= s.infos[k].area.end
    ensures DropBackup(s, k).process.vmas ==
            (s.process.vmas - {s.infos[k].backup})[k := At(s.process.vmas[s.infos[k].backup], k, s.infos[k].area.end - k)]
  {
    BackupMovesHome(s, k);
  }

  lemma InvalidateOneMappings(s: State, k: nat, answer: Answer)
    requires Sound(s) && k in s.infos
    ensures BringsHome(s.process.vmas, InvalidateOne(s, k, answer).process.vmas, s.infos[k], answer)
  {
    if Backed(s.infos, k) {
      DroppedMappings(s, k);
      RehookedMappings(DropBackup(s, k).process, s.process.mem, k, s.infos[k], answer, s.process.vmas);
    }
  }

  lemma LastUnchanged(s: State, vs: seq<Turn>)
    requires Invariant(s) && InTable(s.infos, vs) && OnceEach(vs) && vs != []
    ensures InTable(s.infos, Front(vs)) && Last(vs).k in s.infos
    ensures InvalidateAll(s, Front(vs)).infos.Keys == s.infos.Keys
    ensures InvalidateAll(s, Front(vs)).infos[Last(vs).k] == s.infos[Last(vs).k]
  {
    LastIsNew(vs);
    InvalidateAllInfos(s, Front(vs));
  }

  lemma LastTurnMappings(s: State, vs: seq<Turn>)
    requires Invariant(s) && InTable(s.infos, vs) && OnceEach(vs) && vs != []
    ensures InTable(s.infos, Front(vs)) && Last(vs).k in s.infos
    ensures BringsHome(InvalidateAll(s, Front(vs)).process.vmas, InvalidateAll(s, vs).process.vmas,
                       s.infos[Last(vs).k], Last(vs).answer)
  {
    LastUnchanged(s, vs);
    LastTurn(s, vs);
    var t := InvalidateAll(s, Front(vs));
    InvalidateOneMappings(t, Last(vs).k, Last(vs).answer);
  }

  ghost predicate SameMapping(m: map<nat, MapInfo>, n: map<nat, MapInfo>, v: nat) {
    (v in m <==> v in n) && (v in m ==> m[v] == n[v])
  }

  // The turns neither bring a mapping home to v nor take one from there.
  ghost predicate Untouched(infos: Regions, vs: seq<Turn>, v: nat) {
    forall i :: 0 <= i < |vs| && Backed(infos, vs[i].k) ==> infos[vs[i].k].area.start != v && infos[vs[i].k].backup != v
  }

  lemma UntouchedFront(infos: Regions, vs: seq<Turn>, v: nat)
    requires vs != [] && Untouched(infos, vs, v)
    ensures Untouched(infos, Front(vs), v)
    ensures Backed(infos, Last(vs).k) ==> infos[Last(vs).k].area.start != v && infos[Last(vs).k].backup != v
  {
    assert forall i :: 0 <= i < |vs| - 1 ==> Front(vs)[i] == vs[i];
  }

  lemma OtherStays(m: map<nat, MapInfo>, n: map<nat, MapInfo>, info: HookInfo, answer: Answer, v: nat)
    requires BringsHome(m, n, info, answer) && (info.backup != 0 ==> info.area.start != v && info.backup != v)
    ensures SameMapping(m, n, v)
  {
  }

  lemma SameMappingChain(l: map<nat, MapInfo>, m: map<nat, MapInfo>, n: map<nat, MapInfo>, v: nat)
    requires SameMapping(l, m, v) && SameMapping(m, n, v)
    ensures SameMapping(l, n, v)
  {
  }

  /** A mapping that no turn is about stays as it was. */
  lemma {:induction false} OtherMapping(s: State, vs: seq<Turn>, v: nat)
    requires Invariant(s) && InTable(s.infos, vs) && OnceEach(vs) && Untouched(s.infos, vs, v)
    ensures SameMapping(s.process.vmas, InvalidateAll(s, vs).process.vmas, v)
    decreases |vs|
  {
    if vs != [] {
      LastIsNew(vs);
      UntouchedFront(s.infos, vs, v);
      OtherMapping(s, Front(vs), v);
      LastTurnMappings(s, vs);
      var m, n := InvalidateAll(s, Front(vs)).process.vmas, InvalidateAll(s, vs).process.vmas;
      OtherStays(m, n, s.infos[Last(vs).k], Last(vs).answer, v);
      SameMappingChain(s.process.vmas, m, n, v);
    }
  }

  // Nothing touches the backup of a region before its turn, nor its mapping afterwards.
  lemma BackupUntouched(s: State, vs: seq<Turn>, k: nat)
    requires Sound(s) && InTable(s.infos, vs) && Backed(s.infos, k) && !Visited(vs, k)
    ensures Untouched(s.infos, vs, s.infos[k].backup) && Untouched(s.infos, vs, k)
  {
    forall i | 0 <= i < |vs| && Backed(s.infos, vs[i].k)
      ensures vs[i].k != k && s.infos[vs[i].k].backup != k
      ensures vs[i].k != s.infos[k].backup && s.infos[vs[i].k].backup != s.infos[k].backup
    {
      assert Visited(vs, vs[i].k);
    }
  }

  // What the table says of region k is where its mapping is after its turn.
  ghost predicate IsHome(s: State, n: map<nat, MapInfo>, turn: Turn) {
    && Backed(s.infos, turn.k) && s.infos[turn.k].backup in s.process.vmas && turn.k in n
    && n[turn.k] == HomeMapping(s.process.vmas, s.infos[turn.k], turn.answer)
  }

  lemma LastIsHome(s: State, vs: seq<Turn>)
    requires Invariant(s) && InTable(s.infos, vs) && OnceEach(vs) && vs != [] && Backed(s.infos, Last(vs).k)
    ensures IsHome(s, InvalidateAll(s, vs).process.vmas, Last(vs))
  {
    var k := Last(vs).k;
    LastIsNew(vs);
    BackupUntouched(s, Front(vs), k);
    OtherMapping(s, Front(vs), s.infos[k].backup);
    LastTurnMappings(s, vs);
    assert s.infos[k].area.start == k;
  }

  // The turn of another region leaves it there.
  lemma HomeStays(s: State, m: map<nat, MapInfo>, n: map<nat, MapInfo>, turn: Turn, last: Turn)
    requires Sound(s) && IsHome(s, m, turn) && last.k in s.infos && last.k != turn.k
    requires BringsHome(m, n, s.infos[last.k], last.answer)
    ensures IsHome(s, n, turn)
  {
    BackupUntouched(s, [last], turn.k);
    assert [last][0] == last && s.infos[last.k].area.start == last.k;
    OtherStays(m, n, s.infos[last.k], last.answer, turn.k);
  }

  /** Whatever the order of the turns, the mapping of each region visited comes home, with the protection that
      was recorded if both calls on it were granted. */
  lemma {:induction false} InvalidateAllMappings(s: State, vs: seq<Turn>, i: nat)
    requires Invariant(s) && InTable(s.infos, vs) && OnceEach(vs) && i < |vs| && Backed(s.infos, vs[i].k)
    ensures IsHome(s, InvalidateAll(s, vs).process.vmas, vs[i])
    decreases |vs|
  {
    if i == |vs| - 1 {
      LastIsHome(s, vs);
    } else {
      LastIsNew(vs);
      LastTurnMappings(s, vs);
      InvalidateAllMappings(s, Front(vs), i);
      HomeStays(s, InvalidateAll(s, Front(vs)).process.vmas, InvalidateAll(s, vs).process.vmas, vs[i], Last(vs));
    }
  }

  // Every mapping of a file is back in its region, protected as recorded, and no word reads otherwise.
  ghost predicate BroughtBack(s: State, t: State) {
    && Words(t) == Words(s)
    && t.infos.Keys == s.infos.Keys
    && forall k {:trigger k in t.infos} :: k in t.infos ==> t.infos[k].backup == 0 && IsBack(s, t, k)
  }

  ghost predicate IsBack(s: State, t: State, k: nat)
    requires k in s.infos && k in t.infos
  {
    var info := s.infos[k];
    if info.backup == 0 then t.infos[k] == info
    else
      && t.infos[k].hooks == map[]
      && info.backup in s.process.vmas && k in t.process.vmas
      && t.process.vmas[k] == s.process.vmas[info.backup].(start := k, end := info.area.end, perms := info.area.perms)
  }

  lemma TurnOf(infos: Regions, vs: seq<Turn>, k: nat) returns (i: nat)
    requires EveryRegion(infos, vs) && AllGranted(vs) && k in infos
    ensures i < |vs| && vs[i] == Turn(k, Granted(true))
  {
    assert Visited(vs, k);
    i :| i < |vs| && vs[i].k == k;
  }

  lemma HomeIsBack(s: State, t: State, k: nat)
    requires k in s.infos && s.infos[k].area.start == k && IsHome(s, t.process.vmas, Turn(k, Granted(true)))
    requires k in t.infos && t.infos[k] == ClearedInfo(s.infos[k])
    ensures IsBack(s, t, k)
  {
  }

  lemma IsBackNow(s: State, vs: seq<Turn>, k: nat)
    requires Invariant(s) && EveryRegion(s.infos, vs) && AllGranted(vs) && k in s.infos
    ensures k in InvalidateAll(s, vs).infos && IsBack(s, InvalidateAll(s, vs), k)
  {
    var i := TurnOf(s.infos, vs, k);
    InvalidateAllInfos(s, vs);
    assert InvalidateAll(s, vs).infos[k] == ClearedInfo(s.infos[k]);
    if Backed(s.infos, k) {
      InvalidateAllMappings(s, vs, i);
      HomeIsBack(s, InvalidateAll(s, vs), k);
    }
  }

  /** With every call granted, InvalidateBackup brings every file back, hooks and protection included. */
  lemma GrantedIsBroughtBack(s: State, vs: seq<Turn>)
    requires Invariant(s) && EveryRegion(s.infos, vs) && AllGranted(vs)
    ensures BroughtBack(s, InvalidateAll(s, vs))
  {
    var t := InvalidateAll(s, vs);
    GrantedIsInvisible(s, vs);
    InvalidateAllDropsBackups(s, vs);
    forall k | k in t.infos
      ensures IsBack(s, t, k)
    {
      IsBackNow(s, vs, k);
    }
  }
}
