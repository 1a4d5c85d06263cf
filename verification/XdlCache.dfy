/**
 xdl_addr4 and its cache: a list of ELFs met so far, searched before the loaded ELFs are.
 */
module XdlCache {
  import opened Options

  datatype Segment = Segment(isLoad: bool, vaddr: nat, memsz: nat)

  datatype Loaded = Loaded(bias: nat, name: Option<string>, phdrs: seq<Segment>)

  datatype SymbolInfo = SymbolInfo(name: string, addr: nat, size: nat)

  // The symbol that holds an address of an ELF: .dynsym first, then .symtab.
  type SymbolSearch = (Loaded, nat) -> Option<SymbolInfo>

  datatype Info = Info(base: nat, name: string, phdrs: seq<Segment>, sym: Option<SymbolInfo>)

  predicate Holds(seg: Segment, vaddr: int) {
    seg.isLoad && seg.vaddr <= vaddr < seg.vaddr + seg.memsz
  }

  predicate Matches(e: Loaded, addr: nat) {
    addr >= e.bias && exists i :: 0 <= i < |e.phdrs| && Holds(e.phdrs[i], addr - e.bias)
  }

  // Some loaded segment of the ELF, moved by its bias, holds the address.
  predicate LoadsAddress(e: Loaded, addr: nat) {
    addr >= e.bias &&
    exists i :: 0 <= i < |e.phdrs| && e.phdrs[i].isLoad && e.phdrs[i].vaddr <= addr - e.bias < e.phdrs[i].vaddr + e.phdrs[i].memsz
  }

  lemma MatchesExactly(e: Loaded, addr: nat)
    ensures Matches(e, addr) <==> LoadsAddress(e, addr)
  {
    if Matches(e, addr) {
      var i :| 0 <= i < |e.phdrs| && Holds(e.phdrs[i], addr - e.bias);
      assert e.phdrs[i].isLoad;
    }
    if LoadsAddress(e, addr) {
      var i :| 0 <= i < |e.phdrs| && e.phdrs[i].isLoad && e.phdrs[i].vaddr <= addr - e.bias < e.phdrs[i].vaddr + e.phdrs[i].memsz;
      assert Holds(e.phdrs[i], addr - e.bias);
    }
  }

  method ElfIsMatch(e: Loaded, addr: nat) returns (r: bool)
    ensures r <==> Matches(e, addr)
    ensures r <==> LoadsAddress(e, addr)
  {
    MatchesExactly(e, addr);
    if addr < e.bias {
      return false;
    }
    var vaddr := addr - e.bias;
    var i := 0;
    while i < |e.phdrs|
      invariant 0 <= i <= |e.phdrs|
      invariant forall j :: 0 <= j < i ==> !Holds(e.phdrs[j], vaddr)
    {
      var phdr := e.phdrs[i];
      i := i + 1;
      if !phdr.isLoad {
        continue;
      }
      if phdr.vaddr <= vaddr < phdr.vaddr + phdr.memsz {
        assert Holds(e.phdrs[i - 1], vaddr);
        return true;
      }
    }
    r := false;
  }

  // An ELF without a bias or a name is passed over.
  predicate Eligible(e: Loaded) {
    e.bias != 0 && e.name.Some?
  }

  // What a call without a cache finds: the first eligible ELF that holds the address.
  function FirstMatch(elves: seq<Loaded>, addr: nat): (r: Option<Loaded>)
    ensures r.Some? ==> r.value in elves && Eligible(r.value) && Matches(r.value, addr)
    ensures r.None? ==> forall e :: e in elves && Eligible(e) ==> !Matches(e, addr)
    decreases |elves|
  {
    if elves == [] then None
    else if Eligible(elves[0]) && Matches(elves[0], addr) then Some(elves[0])
    else FirstMatch(elves[1..], addr)
  }

  function FindCached(cache: seq<Loaded>, addr: nat): (r: Option<Loaded>)
    ensures r.Some? ==> r.value in cache && Matches(r.value, addr)
    ensures r.None? ==> forall e :: e in cache ==> !Matches(e, addr)
    decreases |cache|
  {
    if cache == [] then None
    else if Matches(cache[0], addr) then Some(cache[0])
    else FindCached(cache[1..], addr)
  }

  function Chosen(cache: seq<Loaded>, elves: seq<Loaded>, addr: nat): Option<Loaded> {
    if addr == 0 then None
    else
      var cached := FindCached(cache, addr);
      if cached.Some? then cached else FirstMatch(elves, addr)
  }

  function CacheAfter(cache: seq<Loaded>, elves: seq<Loaded>, addr: nat): seq<Loaded> {
    if addr == 0 || FindCached(cache, addr).Some? || FirstMatch(elves, addr).None? then cache
    else [FirstMatch(elves, addr).value] + cache
  }

  // The answer is the first handle of the cache that loads the address; without one, the first ELF of the
  // list that has a bias and a name and does.
  ghost predicate IsAnswer(cache: seq<Loaded>, elves: seq<Loaded>, addr: nat, e: Loaded) {
    && addr != 0
    && if IsCached(cache, addr) then
         exists i :: 0 <= i < |cache| && cache[i] == e && LoadsAddress(e, addr) &&
           forall j :: 0 <= j < i ==> !LoadsAddress(cache[j], addr)
       else
         exists i :: 0 <= i < |elves| && elves[i] == e && CanAnswer(e, addr) && forall j :: 0 <= j < i ==> !CanAnswer(elves[j], addr)
  }

  predicate IsCached(cache: seq<Loaded>, addr: nat) {
    exists i :: 0 <= i < |cache| && LoadsAddress(cache[i], addr)
  }

  predicate CanAnswer(e: Loaded, addr: nat) {
    e.bias != 0 && e.name.Some? && LoadsAddress(e, addr)
  }

  lemma {:induction false} CachedAt(cache: seq<Loaded>, addr: nat) returns (i: nat)
    ensures i <= |cache| && forall j :: 0 <= j < i ==> !LoadsAddress(cache[j], addr)
    ensures i < |cache| ==> LoadsAddress(cache[i], addr) && FindCached(cache, addr) == Some(cache[i])
    ensures i == |cache| ==> FindCached(cache, addr) == None
    decreases |cache|
  {
    i := 0;
    if cache != [] {
      MatchesExactly(cache[0], addr);
      if !LoadsAddress(cache[0], addr) {
        i := CachedAt(cache[1..], addr);
        i := i + 1;
      }
    }
  }

  lemma {:induction false} ListedAt(elves: seq<Loaded>, addr: nat) returns (i: nat)
    ensures i <= |elves| && forall j :: 0 <= j < i ==> !CanAnswer(elves[j], addr)
    ensures i < |elves| ==> CanAnswer(elves[i], addr) && FirstMatch(elves, addr) == Some(elves[i])
    ensures i == |elves| ==> FirstMatch(elves, addr) == None
    decreases |elves|
  {
    i := 0;
    if elves != [] {
      MatchesExactly(elves[0], addr);
      if !CanAnswer(elves[0], addr) {
        i := ListedAt(elves[1..], addr);
        i := i + 1;
      }
    }
  }

  /** xdl_addr4 chooses that ELF, and none if there is none. */
  lemma ChosenExactly(cache: seq<Loaded>, elves: seq<Loaded>, addr: nat, e: Loaded)
    ensures Chosen(cache, elves, addr) == Some(e) <==> IsAnswer(cache, elves, addr, e)
  {
    var i := CachedAt(cache, addr);
    var k := ListedAt(elves, addr);
  }

  /** It is put in front of the cache unless it comes from there. */
  lemma CacheAfterExactly(cache: seq<Loaded>, elves: seq<Loaded>, addr: nat)
    ensures forall e :: IsAnswer(cache, elves, addr, e) ==>
              CacheAfter(cache, elves, addr) == if IsCached(cache, addr) then cache else [e] + cache
    ensures (forall e :: !IsAnswer(cache, elves, addr, e)) ==> CacheAfter(cache, elves, addr) == cache
  {
    var i := CachedAt(cache, addr);
    var k := ListedAt(elves, addr);
    AnswerIsChosen(cache, elves, addr);
  }

  lemma AnswerIsChosen(cache: seq<Loaded>, elves: seq<Loaded>, addr: nat)
    ensures Chosen(cache, elves, addr).Some? <==> exists e :: IsAnswer(cache, elves, addr, e)
    ensures forall e :: IsAnswer(cache, elves, addr, e) ==> Chosen(cache, elves, addr) == Some(e)
  {
    forall e
      ensures Chosen(cache, elves, addr) == Some(e) <==> IsAnswer(cache, elves, addr, e)
    {
      ChosenExactly(cache, elves, addr, e);
    }
    if Chosen(cache, elves, addr).Some? {
      assert IsAnswer(cache, elves, addr, Chosen(cache, elves, addr).value);
    }
  }

  function Describe(e: Loaded, addr: nat, nonSym: bool, search: SymbolSearch): Info
    requires e.name.Some?
  {
    Info(e.bias, e.name.value, e.phdrs, if nonSym then None else search(e, addr))
  }

  method OpenByAddr(elves: seq<Loaded>, addr: nat) returns (r: Option<Loaded>)
    ensures addr == 0 ==> r == None
    ensures addr != 0 ==> r == FirstMatch(elves, addr)
  {
    if addr == 0 {
      return None;
    }
    var i := 0;
    while i < |elves|
      invariant 0 <= i <= |elves|
      invariant FirstMatch(elves, addr) == FirstMatch(elves[i..], addr)
    {
      assert elves[i..][1..] == elves[i + 1..];
      if elves[i].bias != 0 && elves[i].name.Some? {
        var found := ElfIsMatch(elves[i], addr);
        if found {
          return Some(elves[i]);
        }
      }
      i := i + 1;
    }
    r := None;
  }

  method SearchCache(cache: seq<Loaded>, addr: nat) returns (r: Option<Loaded>)
    ensures r == FindCached(cache, addr)
  {
    var i := 0;
    while i < |cache|
      invariant 0 <= i <= |cache|
      invariant FindCached(cache, addr) == FindCached(cache[i..], addr)
    {
      assert cache[i..][1..] == cache[i + 1..];
      var found := ElfIsMatch(cache[i], addr);
      if found {
        return Some(cache[i]);
      }
      i := i + 1;
    }
    r := None;
  }

  // ----- the cache as the caller's state -----

  class AddressCache {
    var handles: seq<Loaded>
    var closed: seq<Loaded>   // what was given to xdl_close
    const elves: seq<Loaded>
    const search: SymbolSearch

    constructor (elves: seq<Loaded>, search: SymbolSearch)
      ensures handles == [] && closed == [] && this.elves == elves && this.search == search
    {
      this.elves, this.search := elves, search;
      handles, closed := [], [];
    }

    // Every handle was opened by a call on some address.
    ghost predicate Valid()
      reads this
    {
      AllOpened(handles, elves)
    }

    /** The answer of xdl_addr4, and the cache it leaves. */
    method Addr4(addr: nat, nonSym: bool) returns (r: Option<Info>)
      requires Valid()
      modifies this`handles
      ensures Valid()
      ensures handles == CacheAfter(old(handles), elves, addr)
      ensures var chosen := Chosen(old(handles), elves, addr);
              match chosen
              case None => r == None
              case Some(e) => e.name.Some? && r == Some(Describe(e, addr, nonSym, search))
      ensures r.Some? <==> exists e :: IsAnswer(old(handles), elves, addr, e)
      ensures forall e :: IsAnswer(old(handles), elves, addr, e) ==>
                && e.name.Some? && r == Some(Info(e.bias, e.name.value, e.phdrs, if nonSym then None else search(e, addr)))
                && handles == if IsCached(old(handles), addr) then old(handles) else [e] + old(handles)
      ensures r.None? ==> handles == old(handles)
    {
      AnswerIsChosen(handles, elves, addr);
      CacheAfterExactly(handles, elves, addr);
      if addr == 0 {
        return None;
      }
      var cached := SearchCache(handles, addr);
      var handle;
      if cached.Some? {
        handle := cached.value;
      } else {
        var fromList := OpenByAddr(elves, addr);
        if fromList.None? {
          return None;
        }
        handle := fromList.value;
        OpenedPrepend(handles, elves, addr);
        handles := [handle] + handles;
      }
      OpenedMember(handles, elves, handle);
      r := Some(Describe(handle, addr, nonSym, search));
    }

    // Every handle is closed, once, and the cache is empty.
    method AddrClean()
      modifies this
      ensures handles == [] && Valid()
      ensures closed == old(closed) + old(handles)
    {
      while handles != []
        invariant closed + handles == old(closed) + old(handles)
        decreases |handles|
      {
        var tmp := handles[0];
        handles := handles[1..];
        closed := closed + [tmp];
      }
    }
  }

  ghost predicate Opened(e: Loaded, elves: seq<Loaded>)
    ensures Opened(e, elves) ==> Eligible(e) && e in elves
  {
    exists b :: b != 0 && FirstMatch(elves, b) == Some(e)
  }

  ghost predicate AllOpened(cache: seq<Loaded>, elves: seq<Loaded>) {
    forall i :: 0 <= i < |cache| ==> Opened(cache[i], elves)
  }

  lemma OpenedMember(cache: seq<Loaded>, elves: seq<Loaded>, e: Loaded)
    requires AllOpened(cache, elves) && e in cache
    ensures Eligible(e)
  {
    var i :| 0 <= i < |cache| && cache[i] == e;
    assert Opened(cache[i], elves);
  }

  lemma OpenedPrepend(cache: seq<Loaded>, elves: seq<Loaded>, addr: nat)
    requires AllOpened(cache, elves) && addr != 0 && FirstMatch(elves, addr).Some?
    ensures AllOpened([FirstMatch(elves, addr).value] + cache, elves)
  {
    assert Opened(FirstMatch(elves, addr).value, elves);
  }

  // ----- over any sequence of calls -----

  function CacheOf(elves: seq<Loaded>, history: seq<nat>): seq<Loaded>
    decreases |history|
  {
    if history == [] then []
    else CacheAfter(CacheOf(elves, history[..|history| - 1]), elves, history[|history| - 1])
  }

  // After any calls, a call is answered as with an empty cache.
  ghost predicate Transparent(elves: seq<Loaded>) {
    forall history: seq<nat>, addr: nat :: Chosen(CacheOf(elves, history), elves, addr) == Chosen([], elves, addr)
  }

  // Some address lies in ELF j and in no eligible one before it.
  ghost predicate Openable(elves: seq<Loaded>, j: nat)
    requires j < |elves|
  {
    exists b: nat :: b != 0 && IsFirst(elves, j, b)
  }

  predicate IsFirst(elves: seq<Loaded>, j: nat, addr: nat)
    requires j < |elves|
  {
    && Eligible(elves[j]) && Matches(elves[j], addr)
    && forall i :: 0 <= i < j && Eligible(elves[i]) ==> !Matches(elves[i], addr)
  }

  // An ELF that can be opened shares no address with an eligible one before it.
  ghost predicate NoShadowing(elves: seq<Loaded>) {
    forall i: nat, j: nat, a: nat {:trigger Matches(elves[i], a), Matches(elves[j], a)} ::
      i < j < |elves| && a != 0 && Eligible(elves[i]) && Openable(elves, j) ==>
        !(Matches(elves[i], a) && Matches(elves[j], a))
  }

  lemma {:induction false} FirstIsMatch(elves: seq<Loaded>, j: nat, addr: nat)
    requires j < |elves| && IsFirst(elves, j, addr)
    ensures FirstMatch(elves, addr) == Some(elves[j])
    decreases j
  {
    if j > 0 {
      FirstIsMatch(elves[1..], j - 1, addr);
    }
  }

  lemma {:induction false} MatchIsFirst(elves: seq<Loaded>, addr: nat) returns (j: nat)
    requires FirstMatch(elves, addr).Some?
    ensures j < |elves| && IsFirst(elves, j, addr) && elves[j] == FirstMatch(elves, addr).value
    decreases |elves|
  {
    if Eligible(elves[0]) && Matches(elves[0], addr) {
      j := 0;
    } else {
      j := MatchIsFirst(elves[1..], addr);
      j := j + 1;
    }
  }

  // No address lies in loaded segments of two different eligible ELFs.
  ghost predicate DisjointSegments(elves: seq<Loaded>) {
    forall d, e, a: nat :: d in elves && e in elves && Eligible(d) && Eligible(e) && Matches(d, a) && Matches(e, a) ==> d == e
  }

  lemma {:induction false} CacheIsOpened(elves: seq<Loaded>, history: seq<nat>)
    ensures AllOpened(CacheOf(elves, history), elves)
    decreases |history|
  {
    if history != [] {
      var front, addr := history[..|history| - 1], history[|history| - 1];
      CacheIsOpened(elves, front);
      if addr != 0 && FirstMatch(elves, addr).Some? {
        OpenedPrepend(CacheOf(elves, front), elves, addr);
      }
    }
  }

  // An address in an opened ELF opens that very ELF.
  lemma OpensItself(elves: seq<Loaded>, a: nat, b: nat)
    requires NoShadowing(elves) && a != 0 && b != 0 && FirstMatch(elves, b).Some?
    requires Matches(FirstMatch(elves, b).value, a)
    ensures FirstMatch(elves, a) == FirstMatch(elves, b)
  {
    var j := MatchIsFirst(elves, b);
    assert Openable(elves, j);
    FirstIsMatch(elves, j, a);
  }

  lemma CachedIsFirst(elves: seq<Loaded>, history: seq<nat>, addr: nat)
    requires NoShadowing(elves)
    ensures Chosen(CacheOf(elves, history), elves, addr) == Chosen([], elves, addr)
  {
    var cache := CacheOf(elves, history);
    CacheIsOpened(elves, history);
    var cached := FindCached(cache, addr);
    if addr != 0 && cached.Some? {
      var e := cached.value;
      var i :| 0 <= i < |cache| && cache[i] == e;
      assert Opened(cache[i], elves);
      var b :| b != 0 && FirstMatch(elves, b) == Some(e);
      OpensItself(elves, addr, b);
    }
  }

  /** The cache is transparent exactly when no ELF that can be opened shares an address with an eligible
      one before it. */
  lemma TransparentExactly(elves: seq<Loaded>)
    ensures Transparent(elves) <==> NoShadowing(elves)
  {
    if NoShadowing(elves) {
      forall history: seq<nat>, addr: nat
        ensures Chosen(CacheOf(elves, history), elves, addr) == Chosen([], elves, addr)
      {
        CachedIsFirst(elves, history, addr);
      }
    }
    if Transparent(elves) {
      forall i: nat, j: nat, a: nat | i < j < |elves| && a != 0 && Eligible(elves[i]) && Openable(elves, j)
        ensures !(Matches(elves[i], a) && Matches(elves[j], a))
      {
        NotShadowed(elves, i, j, a);
      }
    }
  }

  lemma NotShadowed(elves: seq<Loaded>, i: nat, j: nat, a: nat)
    requires Transparent(elves) && i < j < |elves| && a != 0 && Eligible(elves[i]) && Openable(elves, j)
    ensures !(Matches(elves[i], a) && Matches(elves[j], a))
  {
    if Matches(elves[j], a) {
      var b: nat :| b != 0 && IsFirst(elves, j, b);
      FirstIsMatch(elves, j, b);
      OneCall(elves, a, b);
      var k := MatchIsFirst(elves, a);
      FirstIsDifferent(elves, k, j, b);
    }
  }

  lemma FirstIsDifferent(elves: seq<Loaded>, k: nat, j: nat, b: nat)
    requires k < |elves| && j < |elves| && IsFirst(elves, j, b)
    ensures k < j && Eligible(elves[k]) ==> elves[k] != elves[j]
  {
  }

  lemma OneCall(elves: seq<Loaded>, a: nat, b: nat)
    requires Transparent(elves) && a != 0 && b != 0 && FirstMatch(elves, b).Some?
    requires Matches(FirstMatch(elves, b).value, a)
    ensures FirstMatch(elves, a) == FirstMatch(elves, b)
  {
    var cache := CacheOf(elves, [b]);
    assert [b][..0] == [];
    assert CacheOf(elves, []) == [];
    assert cache == [FirstMatch(elves, b).value] + [];
    assert Chosen(cache, elves, a) == Chosen([], elves, a);
  }

  const LOWER := Loaded(16, Some("a"), [Segment(true, 0, 8)])
  const UPPER := Loaded(20, Some("b"), [Segment(true, 0, 8)])

  /** Two ELFs that overlap: once the second is cached, it answers for the first. */
  lemma ShadowedCall()
    ensures Chosen([], [LOWER, UPPER], 21) == Some(LOWER)
    ensures Chosen(CacheOf([LOWER, UPPER], [25]), [LOWER, UPPER], 21) == Some(UPPER)
  {
    assert Holds(LOWER.phdrs[0], 5) && Holds(UPPER.phdrs[0], 1) && Holds(UPPER.phdrs[0], 5);
    assert Matches(LOWER, 21) && Matches(UPPER, 21) && Matches(UPPER, 25) && !Matches(LOWER, 25);
    assert [LOWER, UPPER][1..] == [UPPER] && [25][..0] == [];
    assert CacheOf([LOWER, UPPER], []) == [];
    assert CacheOf([LOWER, UPPER], [25]) == [UPPER] + [];
  }

  /** ELFs with disjoint loaded segments: every call answers as if the cache were empty. */
  lemma DisjointIsTransparent(elves: seq<Loaded>)
    requires DisjointSegments(elves)
    ensures Transparent(elves)
  {
    TransparentExactly(elves);
  }

  ghost predicate NoRepeats(cache: seq<Loaded>) {
    forall i, j :: 0 <= i < j < |cache| ==> cache[i] != cache[j]
  }

  lemma {:induction false} NoElfTwice(elves: seq<Loaded>, history: seq<nat>)
    ensures NoRepeats(CacheOf(elves, history))
    decreases |history|
  {
    if history != [] {
      NoElfTwice(elves, history[..|history| - 1]);
    }
  }

  ghost function Members(s: seq<Loaded>): set<Loaded> {
    set e | e in s
  }

  lemma {:induction false} RepeatFreeSize(s: seq<Loaded>)
    requires NoRepeats(s)
    ensures |Members(s)| == |s|
    decreases |s|
  {
    if s != [] {
      RepeatFreeSize(s[1..]);
      assert Members(s) == {s[0]} + Members(s[1..]);
    }
  }

  lemma {:induction false} MembersBound(s: seq<Loaded>)
    ensures |Members(s)| <= |s|
    decreases |s|
  {
    if s != [] {
      MembersBound(s[1..]);
      assert Members(s) == {s[0]} + Members(s[1..]);
    }
  }

  lemma SubsetSize(a: set<Loaded>, b: set<Loaded>)
    requires a <= b
    ensures |a| <= |b|
  {
    if a != {} {
      var x :| x in a;
      SubsetSize(a - {x}, b - {x});
    }
  }

  /** No ELF is cached twice, and the cache is never longer than the list of ELFs. */
  lemma CacheIsBounded(elves: seq<Loaded>, history: seq<nat>)
    ensures NoRepeats(CacheOf(elves, history))
    ensures |CacheOf(elves, history)| <= |elves|
  {
    var cache := CacheOf(elves, history);
    NoElfTwice(elves, history);
    CacheIsOpened(elves, history);
    RepeatFreeSize(cache);
    MembersBound(elves);
    forall e | e in Members(cache)
      ensures e in Members(elves)
    {
      var i :| 0 <= i < |cache| && cache[i] == e;
      assert Opened(cache[i], elves);
    }
    SubsetSize(Members(cache), Members(elves));
  }
}
