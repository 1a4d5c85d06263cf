/**
 lsplt's view of an image: find the dynamic symbol, then the slots the relocations give it.
 */
module ElfUtil {
  import opened Options
  import opened WordBits
  import opened ElfTables

  // The relocation types the look-up tells apart: R_*_JUMP_SLOT, R_*_GLOB_DAT, R_*_ABS.
  datatype RelocationType = JumpSlot | GlobDat | Absolute | OtherType

  datatype Relocation = Relocation(sym: nat, kind: RelocationType, offset: nat)

  // At most one of the two hash tables is kept: DT_GNU_HASH wins. relAndroid holds the entries that the
  // loop reads behind DT_ANDROID_REL or DT_ANDROID_RELA.
  datatype Elf = Elf(valid: bool, base: nat, bias: nat, symbols: seq<Symbol>,
                     gnu: Option<GnuTable>, sysv: Option<SysvTable>,
                     relPlt: seq<Relocation>, relDyn: seq<Relocation>, relAndroid: seq<Relocation>)

  // Whichever hash table is kept is a correct index.
  ghost predicate Indexed(e: Elf) {
    && (e.gnu.Some? ==> WellFormedGnu(e.gnu.value, e.symbols))
    && (e.gnu.None? && e.sysv.Some? ==> WellFormedSysv(e.sysv.value, e.symbols))
  }

  function OrZero(r: Option<nat>): nat {
    match r
    case None => 0
    case Some(i) => i
  }

  // Index 0 is the reserved, nameless symbol.
  ghost predicate WellFormedElf(e: Elf) {
    && |e.symbols| > 0
    && e.symbols[0].name == []
    && Indexed(e)
    && (e.gnu.Some? || e.sysv.Some?)
  }

  // ----- the three look-ups -----

  method HashGnu(name: Name) returns (hash: bv32)
    ensures hash == GnuHash(name)
  {
    hash := GNU_SEED;
    var i := 0;
    while i < |name|
      invariant 0 <= i <= |name|
      invariant GnuHashFrom(hash, name[i..]) == GnuHash(name)
    {
      assert name[i..][1..] == name[i + 1..];
      hash := GnuStep(hash, name[i]);
      i := i + 1;
    }
  }

  // hash = (hash << 4) + chr, then the top nibble moved down and cleared, by exclusive or alone.
  function FoldByXor(h: bv32, c: bv8): (r: bv32)
    ensures r == SysvStep(h, c)
  {
    TopFoldedByXor((h << 4) + (c as bv32))
  }

  method HashSysv(name: Name) returns (hash: bv32)
    ensures hash == SysvHash(name)
  {
    hash := 0;
    var i := 0;
    while i < |name|
      invariant 0 <= i <= |name|
      invariant SysvHashFrom(hash, name[i..]) == SysvHash(name)
    {
      assert name[i..][1..] == name[i + 1..];
      hash := FoldByXor(hash, name[i]);
      i := i + 1;
    }
  }

  /** The Bloom-filtered chain walk returns what a linear search of the hashed symbols returns. */
  method GnuLookup(e: Elf, name: Name) returns (idx: nat)
    requires e.gnu.Some? ==> WellFormedGnu(e.gnu.value, e.symbols)
    ensures e.gnu.None? ==> idx == 0
    ensures e.gnu.Some? ==> idx == OrZero(FindFrom(e.symbols, name, e.gnu.value.symOffset))
  {
    if e.gnu.None? {
      return 0;
    }
    var t := e.gnu.value;
    var hash := HashGnu(name);
    if BloomPasses(t, hash) {
      idx := t.buckets[BucketOf(hash, |t.buckets|)];
      if idx >= t.symOffset {
        idx := WalkChain(t, e.symbols, name, hash, idx);
        return;
      }
      EmptyBucket(t, e.symbols, name);
    } else {
      BloomHasNoFalseNegative(t, e.symbols, name);
    }
    idx := 0;
  }

  method WalkChain(t: GnuTable, symbols: seq<Symbol>, name: Name, hash: bv32, first: nat) returns (idx: nat)
    requires GnuShape(t, symbols) && Grouped(t, symbols) && ChainsHold(t, symbols) && BucketsHold(t, symbols)
    requires hash == GnuHash(name)
    requires t.symOffset <= first == t.buckets[BucketOf(hash, |t.buckets|)]
    ensures idx == OrZero(FindFrom(symbols, name, t.symOffset))
  {
    idx := first;
    while true
      invariant first <= idx < |symbols|
      invariant GnuBucket(t, symbols, idx) == BucketOf(hash, |t.buckets|)
      invariant forall i :: first <= i < idx ==> symbols[i].name != name
      decreases |symbols| - idx
    {
      if SameHashBits(ChainAt(t, idx), hash) && symbols[idx].name == name {
        WalkFindsFirst(t, symbols, name, first, idx);
        return;
      }
      MismatchIsReal(t, symbols, name, idx);
      ChainEnd(t, symbols, idx);
      if EndsChain(ChainAt(t, idx)) {
        WalkFindsNone(t, symbols, name, first, idx);
        return 0;
      }
      idx := idx + 1;
    }
  }

  lemma ChainEnd(t: GnuTable, symbols: seq<Symbol>, i: nat)
    requires GnuShape(t, symbols) && ChainsHold(t, symbols) && t.symOffset <= i < |symbols|
    ensures EndsChain(ChainAt(t, i)) <==> LastOfBucket(t, symbols, i)
  {
  }

  lemma MismatchIsReal(t: GnuTable, symbols: seq<Symbol>, name: Name, i: nat)
    requires GnuShape(t, symbols) && ChainsHold(t, symbols) && t.symOffset <= i < |symbols|
    requires !(SameHashBits(ChainAt(t, i), GnuHash(name)) && symbols[i].name == name)
    ensures symbols[i].name != name
  {
  }

  lemma BeforeBucket(t: GnuTable, symbols: seq<Symbol>, name: Name, i: nat)
    requires GnuShape(t, symbols) && BucketsHold(t, symbols) && t.symOffset <= i < |symbols|
    requires i < t.buckets[BucketOf(GnuHash(name), |t.buckets|)]
    ensures symbols[i].name != name
  {
    if symbols[i].name == name {
      SameNameSameBucket(t, symbols, name, i);
    }
  }

  lemma WalkFindsFirst(t: GnuTable, symbols: seq<Symbol>, name: Name, first: nat, i: nat)
    requires GnuShape(t, symbols) && BucketsHold(t, symbols)
    requires t.symOffset <= first == t.buckets[BucketOf(GnuHash(name), |t.buckets|)] <= i < |symbols|
    requires symbols[i].name == name && forall j :: first <= j < i ==> symbols[j].name != name
    ensures FindFrom(symbols, name, t.symOffset) == Some(i)
  {
    forall j | t.symOffset <= j < first
      ensures symbols[j].name != name
    {
      BeforeBucket(t, symbols, name, j);
    }
  }

  lemma WalkFindsNone(t: GnuTable, symbols: seq<Symbol>, name: Name, first: nat, last: nat)
    requires GnuShape(t, symbols) && BucketsHold(t, symbols) && Grouped(t, symbols)
    requires t.symOffset <= first == t.buckets[BucketOf(GnuHash(name), |t.buckets|)] <= last < |symbols|
    requires GnuBucket(t, symbols, last) == BucketOf(GnuHash(name), |t.buckets|) && LastOfBucket(t, symbols, last)
    requires forall j :: first <= j <= last ==> symbols[j].name != name
    ensures FindFrom(symbols, name, t.symOffset) == None
  {
    forall j | t.symOffset <= j < |symbols|
      ensures symbols[j].name != name
    {
      if j < first {
        BeforeBucket(t, symbols, name, j);
      } else if last < j && symbols[j].name == name {
        SameNameSameBucket(t, symbols, name, j);
      }
    }
  }

  lemma EmptyBucket(t: GnuTable, symbols: seq<Symbol>, name: Name)
    requires GnuShape(t, symbols) && BucketsHold(t, symbols)
    requires t.buckets[BucketOf(GnuHash(name), |t.buckets|)] < t.symOffset
    ensures FindFrom(symbols, name, t.symOffset) == None
  {
    var r := FindFrom(symbols, name, t.symOffset);
    if r.Some? {
      SameNameSameBucket(t, symbols, name, r.value);
    }
  }

  /** The System V chain walk returns the first symbol of that name in its bucket's chain. */
  method ElfLookup(e: Elf, name: Name) returns (idx: nat)
    requires e.gnu.None? && e.sysv.Some? ==> WellFormedSysv(e.sysv.value, e.symbols)
    ensures e.gnu.Some? || e.sysv.None? ==> idx == 0
    ensures e.gnu.None? && e.sysv.Some? ==>
              idx == OrZero(FirstOnPath(e.symbols, SysvPath(e.sysv.value, BucketOf(SysvHash(name), |e.sysv.value.buckets|)), name))
  {
    if e.gnu.Some? || e.sysv.None? {
      return 0;
    }
    var t := e.sysv.value;
    var hash := HashSysv(name);
    var b := BucketOf(hash, |t.buckets|);
    ghost var path := SysvPath(t, b);
    ghost var k := 0;
    idx := t.buckets[b];
    while idx != 0
      invariant 0 <= k <= |path|
      invariant idx == if k < |path| then path[k] else 0
      invariant FirstOnPath(e.symbols, path, name) == FirstOnPath(e.symbols, path[k..], name)
      decreases |path| - k
    {
      if e.symbols[idx].name == name {
        return;
      }
      assert path[k..][1..] == path[k + 1..];
      idx := t.chains[idx];
      k := k + 1;
    }
  }

  /** The linear part covers the symbols below symOffset, which the GNU table does not hash. */
  method LinearLookup(e: Elf, name: Name) returns (idx: nat)
    requires e.gnu.Some? ==> e.gnu.value.symOffset <= |e.symbols|
    ensures e.gnu.None? ==> idx == 0
    ensures e.gnu.Some? ==> idx == OrZero(FindFrom(e.symbols[..e.gnu.value.symOffset], name, 0))
  {
    if e.gnu.None? || e.gnu.value.symOffset == 0 {
      return 0;
    }
    idx := 0;
    while idx < e.gnu.value.symOffset
      invariant idx <= e.gnu.value.symOffset
      invariant forall i :: 0 <= i < idx ==> e.symbols[i].name != name
    {
      if e.symbols[idx].name == name {
        return;
      }
      idx := idx + 1;
    }
    idx := 0;
  }

  // ----- the look-up chain -----

  // The symbol that the chain GnuLookup, ElfLookup, LinearLookup settles on; 0 for none.
  function SymbolIndex(e: Elf, name: Name): nat
    requires e.gnu.Some? ==> e.gnu.value.symOffset <= |e.symbols|
    requires e.gnu.None? && e.sysv.Some? ==> WellFormedSysv(e.sysv.value, e.symbols)
  {
    if e.gnu.Some? then
      var hashed := OrZero(FindFrom(e.symbols, name, e.gnu.value.symOffset));
      if hashed != 0 then hashed else OrZero(FindFrom(e.symbols[..e.gnu.value.symOffset], name, 0))
    else if e.sysv.Some? then
      OrZero(FirstOnPath(e.symbols, SysvPath(e.sysv.value, BucketOf(SysvHash(name), |e.sysv.value.buckets|)), name))
    else 0
  }

  /** An index is found exactly when the name occurs anywhere in the symbol table. */
  lemma SymbolIndexFound(e: Elf, name: Name)
    requires WellFormedElf(e) && name != []
    ensures var idx := SymbolIndex(e, name);
            && (idx != 0 <==> exists i :: 0 <= i < |e.symbols| && e.symbols[i].name == name)
            && (idx != 0 ==> idx < |e.symbols| && e.symbols[idx].name == name)
  {
    var idx := SymbolIndex(e, name);
    if idx == 0 {
      forall i | 0 <= i < |e.symbols|
        ensures e.symbols[i].name != name
      {
        if e.gnu.Some? && i < e.gnu.value.symOffset {
          assert e.symbols[i] == e.symbols[..e.gnu.value.symOffset][i];
        }
      }
    }
  }

  // ----- the slots -----

  function SlotOf(e: Elf, rel: Relocation): seq<nat> {
    if e.bias + rel.offset > e.base then [e.bias + rel.offset] else []
  }

  // The first jump slot of the symbol counts, and only that one.
  function JumpSlots(e: Elf, rels: seq<Relocation>, idx: nat): seq<nat>
    decreases |rels|
  {
    if rels == [] then []
    else if rels[0].sym == idx && rels[0].kind == JumpSlot then SlotOf(e, rels[0])
    else JumpSlots(e, rels[1..], idx)
  }

  predicate IsDataSlot(rel: Relocation, idx: nat) {
    rel.sym == idx && (rel.kind == Absolute || rel.kind == GlobDat)
  }

  function DataSlots(e: Elf, rels: seq<Relocation>, idx: nat): seq<nat>
    decreases |rels|
  {
    if rels == [] then []
    else (if IsDataSlot(rels[0], idx) then SlotOf(e, rels[0]) else []) + DataSlots(e, rels[1..], idx)
  }

  function PltSlots(e: Elf, name: Name): seq<nat>
    requires e.gnu.Some? ==> e.gnu.value.symOffset <= |e.symbols|
    requires e.gnu.None? && e.sysv.Some? ==> WellFormedSysv(e.sysv.value, e.symbols)
  {
    var idx := SymbolIndex(e, name);
    if idx == 0 then []
    else JumpSlots(e, e.relPlt, idx) + DataSlots(e, e.relDyn, idx) + DataSlots(e, e.relAndroid, idx)
  }

  /** Every slot found belongs to a relocation of the symbol, lies above the base, and no data slot is missed. */
  lemma {:induction false} DataSlotsExact(e: Elf, rels: seq<Relocation>, idx: nat, a: nat)
    ensures a in DataSlots(e, rels, idx) <==>
            exists i :: 0 <= i < |rels| && IsDataSlot(rels[i], idx) && a == e.bias + rels[i].offset && a > e.base
    decreases |rels|
  {
    if rels != [] {
      DataSlotsExact(e, rels[1..], idx, a);
      if a in DataSlots(e, rels[1..], idx) {
        var i :| 0 <= i < |rels[1..]| && IsDataSlot(rels[1..][i], idx) && a == e.bias + rels[1..][i].offset;
        assert rels[1..][i] == rels[i + 1];
      }
      if i :| 0 <= i < |rels| && IsDataSlot(rels[i], idx) && a == e.bias + rels[i].offset && a > e.base {
        assert i > 0 ==> rels[1..][i - 1] == rels[i];
      }
    }
  }

  // Relocation i gives the symbol a data slot above the base.
  predicate GivesDataSlot(e: Elf, rels: seq<Relocation>, idx: nat, i: nat) {
    && i < |rels|
    && rels[i].sym == idx && (rels[i].kind == Absolute || rels[i].kind == GlobDat)
    && e.bias + rels[i].offset > e.base
  }

  lemma {:induction false} DataSlotsLast(e: Elf, rels: seq<Relocation>, rel: Relocation, idx: nat)
    ensures DataSlots(e, rels + [rel], idx) ==
            DataSlots(e, rels, idx) + (if IsDataSlot(rel, idx) then SlotOf(e, rel) else [])
    decreases |rels|
  {
    if rels == [] {
      assert rels + [rel] == [rel] && [rel][1..] == [];
    } else {
      assert (rels + [rel])[1..] == rels[1..] + [rel] && (rels + [rel])[0] == rels[0];
      DataSlotsLast(e, rels[1..], rel, idx);
    }
  }

  /** The data slots follow the order of the relocations, one for each that gives one: at lists them. */
  lemma {:induction false} DataSlotsInOrder(e: Elf, rels: seq<Relocation>, idx: nat) returns (at: seq<nat>)
    ensures |at| == |DataSlots(e, rels, idx)|
    ensures forall i, j :: 0 <= i < j < |at| ==> at[i] < at[j]
    ensures forall j :: 0 <= j < |at| ==>
              GivesDataSlot(e, rels, idx, at[j]) && DataSlots(e, rels, idx)[j] == e.bias + rels[at[j]].offset
    ensures forall i: nat :: GivesDataSlot(e, rels, idx, i) ==> i in at
    decreases |rels|
  {
    at := [];
    if rels != [] {
      var n := |rels| - 1;
      var front, rel := rels[..n], rels[n];
      assert rels == front + [rel];
      at := DataSlotsInOrder(e, front, idx);
      DataSlotsLast(e, front, rel, idx);
      forall i: nat | i < n
        ensures GivesDataSlot(e, rels, idx, i) <==> GivesDataSlot(e, front, idx, i)
      {
        assert front[i] == rels[i];
      }
      if GivesDataSlot(e, rels, idx, n) {
        at := at + [n];
      }
    }
  }

  /** The jump slot is that of the first jump-slot relocation of the symbol, if that lies above the base. */
  lemma {:induction false} FirstJumpSlot(e: Elf, rels: seq<Relocation>, idx: nat, i: nat)
    requires i < |rels| && rels[i].sym == idx && rels[i].kind == JumpSlot
    requires forall j :: 0 <= j < i ==> !(rels[j].sym == idx && rels[j].kind == JumpSlot)
    ensures JumpSlots(e, rels, idx) == if e.bias + rels[i].offset > e.base then [e.bias + rels[i].offset] else []
    decreases i
  {
    if i > 0 {
      FirstJumpSlot(e, rels[1..], idx, i - 1);
    }
  }

  lemma {:induction false} NoJumpSlot(e: Elf, rels: seq<Relocation>, idx: nat)
    requires forall j :: 0 <= j < |rels| ==> !(rels[j].sym == idx && rels[j].kind == JumpSlot)
    ensures JumpSlots(e, rels, idx) == []
    decreases |rels|
  {
    if rels != [] {
      NoJumpSlot(e, rels[1..], idx);
    }
  }

  // ----- what the slots of a name are -----

  // i is the symbol that the look-ups settle on: the first hashed one of that name, or else the first one that
  // is not hashed; with a System V table alone, the first of that name on its chain.
  ghost predicate IsIndexOf(e: Elf, name: Name, i: nat)
    requires Indexed(e)
  {
    && 0 < i < |e.symbols| && e.symbols[i].name == name
    && match e.gnu
       case Some(t) =>
         if t.symOffset <= i then forall j :: t.symOffset <= j < i ==> e.symbols[j].name != name
         else forall j :: 0 <= j < i || t.symOffset <= j < |e.symbols| ==> e.symbols[j].name != name
       case None => e.sysv.Some? && FirstOnChain(e.sysv.value, e.symbols, name, i)
  }

  ghost predicate FirstOnChain(t: SysvTable, symbols: seq<Symbol>, name: Name, i: nat)
    requires WellFormedSysv(t, symbols)
  {
    var path := SysvPath(t, BucketOf(SysvHash(name), |t.buckets|));
    exists k :: 0 <= k < |path| && path[k] == i && forall j :: 0 <= j < k ==> symbols[path[j]].name != name
  }

  lemma {:induction false} FirstOnPathAt(symbols: seq<Symbol>, path: seq<nat>, name: Name, k: nat)
    requires forall i {:trigger path[i]} :: 0 <= i < |path| ==> path[i] < |symbols|
    requires k < |path| && symbols[path[k]].name == name && forall j :: 0 <= j < k ==> symbols[path[j]].name != name
    ensures FirstOnPath(symbols, path, name) == Some(path[k])
    decreases k
  {
    if k > 0 {
      FirstOnPathAt(symbols, path[1..], name, k - 1);
    }
  }

  lemma {:induction false} FirstOnPathIs(symbols: seq<Symbol>, path: seq<nat>, name: Name) returns (k: nat)
    requires forall i {:trigger path[i]} :: 0 <= i < |path| ==> path[i] < |symbols|
    requires FirstOnPath(symbols, path, name).Some?
    ensures k < |path| && FirstOnPath(symbols, path, name) == Some(path[k])
    ensures forall j :: 0 <= j < k ==> symbols[path[j]].name != name
    decreases |path|
  {
    if symbols[path[0]].name == name {
      k := 0;
    } else {
      k := FirstOnPathIs(symbols, path[1..], name);
      k := k + 1;
    }
  }

  lemma GnuIndexExactly(e: Elf, name: Name, i: nat)
    requires Indexed(e) && e.gnu.Some?
    ensures i != 0 && SymbolIndex(e, name) == i <==> IsIndexOf(e, name, i)
  {
    var offset := e.gnu.value.symOffset;
    var hashed, rest := FindFrom(e.symbols, name, offset), FindFrom(e.symbols[..offset], name, 0);
    assert forall j :: 0 <= j < offset ==> e.symbols[..offset][j] == e.symbols[j];
  }

  lemma SysvIndexExactly(e: Elf, name: Name, i: nat)
    requires Indexed(e) && e.gnu.None? && e.sysv.Some?
    ensures i != 0 && SymbolIndex(e, name) == i <==> IsIndexOf(e, name, i)
  {
    var t := e.sysv.value;
    var path := SysvPath(t, BucketOf(SysvHash(name), |t.buckets|));
    assert ChainVisits(t, BucketOf(SysvHash(name), |t.buckets|), path);
    if IsIndexOf(e, name, i) {
      var k :| 0 <= k < |path| && path[k] == i && forall j :: 0 <= j < k ==> e.symbols[path[j]].name != name;
      FirstOnPathAt(e.symbols, path, name, k);
    } else if i != 0 && SymbolIndex(e, name) == i {
      var k := FirstOnPathIs(e.symbols, path, name);
    }
  }

  /** The look-up chain settles on that symbol and on no other. */
  lemma SymbolIndexExactly(e: Elf, name: Name, i: nat)
    requires Indexed(e)
    ensures i != 0 && SymbolIndex(e, name) == i <==> IsIndexOf(e, name, i)
  {
    if e.gnu.Some? {
      GnuIndexExactly(e, name, i);
    } else if e.sysv.Some? {
      SysvIndexExactly(e, name, i);
    }
  }

  // Relocation j is the first jump slot of symbol i, and lies above the base.
  predicate GivesJumpSlot(e: Elf, rels: seq<Relocation>, i: nat, j: nat) {
    && j < |rels|
    && rels[j].sym == i && rels[j].kind == JumpSlot
    && (forall k :: 0 <= k < j ==> rels[k].sym != i || rels[k].kind != JumpSlot)
    && e.bias + rels[j].offset > e.base
  }

  // Address a is a slot of symbol i.
  ghost predicate IsSlotOf(e: Elf, i: nat, a: nat) {
    || (exists j: nat :: GivesJumpSlot(e, e.relPlt, i, j) && a == e.bias + e.relPlt[j].offset)
    || (exists j: nat :: GivesDataSlot(e, e.relDyn, i, j) && a == e.bias + e.relDyn[j].offset)
    || (exists j: nat :: GivesDataSlot(e, e.relAndroid, i, j) && a == e.bias + e.relAndroid[j].offset)
  }

  ghost predicate IsSlotOfName(e: Elf, name: Name, a: nat)
    requires Indexed(e)
  {
    exists i :: IsIndexOf(e, name, i) && IsSlotOf(e, i, a)
  }

  predicate AreIndexes(rels: seq<Relocation>, at: seq<nat>) {
    forall j :: 0 <= j < |at| ==> at[j] < |rels|
  }

  // The slots that the relocations in at give.
  function Addresses(e: Elf, rels: seq<Relocation>, at: seq<nat>): (r: seq<nat>)
    requires AreIndexes(rels, at)
    ensures |r| == |at| && forall j :: 0 <= j < |at| ==> r[j] == e.bias + rels[at[j]].offset
  {
    seq(|at|, j requires 0 <= j < |at| => e.bias + rels[at[j]].offset)
  }

  lemma JumpSlotsExactly(e: Elf, rels: seq<Relocation>, i: nat) returns (at: seq<nat>)
    ensures IsTheJump(e, rels, i, at) && JumpSlots(e, rels, i) == Addresses(e, rels, at)
  {
    var n := FirstJump(rels, i);
    at := [];
    if n < |rels| {
      FirstJumpSlot(e, rels, i, n);
      if e.bias + rels[n].offset > e.base {
        at := [n];
      }
    } else {
      NoJumpSlot(e, rels, i);
    }
  }

  // at lists the one relocation that gives symbol i a jump slot, if there is one.
  ghost predicate IsTheJump(e: Elf, rels: seq<Relocation>, i: nat, at: seq<nat>) {
    && |at| <= 1 && AreIndexes(rels, at)
    && forall j: nat :: j in at <==> GivesJumpSlot(e, rels, i, j)
  }

  // at lists, in ascending order, each relocation that gives symbol i a data slot.
  ghost predicate IsEachInOrder(e: Elf, rels: seq<Relocation>, i: nat, at: seq<nat>) {
    && (forall j, k :: 0 <= j < k < |at| ==> at[j] < at[k]) && AreIndexes(rels, at)
    && (forall j: nat :: j in at <==> GivesDataSlot(e, rels, i, j))
  }

  // The first jump-slot relocation of symbol i, or the length.
  lemma {:induction false} FirstJump(rels: seq<Relocation>, i: nat) returns (n: nat)
    ensures n <= |rels| && (n < |rels| ==> rels[n].sym == i && rels[n].kind == JumpSlot)
    ensures forall j :: 0 <= j < n ==> !(rels[j].sym == i && rels[j].kind == JumpSlot)
    decreases |rels|
  {
    if rels == [] || (rels[0].sym == i && rels[0].kind == JumpSlot) {
      n := 0;
    } else {
      n := FirstJump(rels[1..], i);
      n := n + 1;
    }
  }

  lemma DataSlotsExactly(e: Elf, rels: seq<Relocation>, i: nat) returns (at: seq<nat>)
    ensures IsEachInOrder(e, rels, i, at) && DataSlots(e, rels, i) == Addresses(e, rels, at)
  {
    at := DataSlotsInOrder(e, rels, i);
  }

  /** The result for the symbol of that name: the slot of its first jump-slot relocation, then those of its
      data relocations, first of relDyn and then of relAndroid, each in its order, all above the base. */
  lemma PltSlotsInOrder(e: Elf, name: Name, i: nat) returns (jump: seq<nat>, dyn: seq<nat>, android: seq<nat>)
    requires Indexed(e) && IsIndexOf(e, name, i)
    ensures IsTheJump(e, e.relPlt, i, jump)
    ensures IsEachInOrder(e, e.relDyn, i, dyn) && IsEachInOrder(e, e.relAndroid, i, android)
    ensures PltSlots(e, name) ==
            Addresses(e, e.relPlt, jump) + Addresses(e, e.relDyn, dyn) + Addresses(e, e.relAndroid, android)
  {
    SymbolIndexExactly(e, name, i);
    jump := JumpSlotsExactly(e, e.relPlt, i);
    dyn := DataSlotsExactly(e, e.relDyn, i);
    android := DataSlotsExactly(e, e.relAndroid, i);
  }

  /** An address is found exactly when it is a slot of the symbol of that name. */
  lemma PltSlotsExactly(e: Elf, name: Name, a: nat)
    requires Indexed(e)
    ensures a in PltSlots(e, name) <==> IsSlotOfName(e, name, a)
  {
    var i := SymbolIndex(e, name);
    if i != 0 {
      SymbolIndexExactly(e, name, i);
      SlotsExactly(e, i, a);
    }
    if IsSlotOfName(e, name, a) {
      var k :| IsIndexOf(e, name, k) && IsSlotOf(e, k, a);
      SymbolIndexExactly(e, name, k);
    }
  }

  lemma SlotsExactly(e: Elf, i: nat, a: nat)
    ensures a in JumpSlots(e, e.relPlt, i) + DataSlots(e, e.relDyn, i) + DataSlots(e, e.relAndroid, i) <==> IsSlotOf(e, i, a)
  {
    JumpSlotExactly(e, e.relPlt, i, a);
    DataSlotExactly(e, e.relDyn, i, a);
    DataSlotExactly(e, e.relAndroid, i, a);
  }

  lemma JumpSlotExactly(e: Elf, rels: seq<Relocation>, i: nat, a: nat)
    ensures a in JumpSlots(e, rels, i) <==> exists j: nat :: GivesJumpSlot(e, rels, i, j) && a == e.bias + rels[j].offset
  {
    var at := JumpSlotsExactly(e, rels, i);
    if j: nat :| GivesJumpSlot(e, rels, i, j) && a == e.bias + rels[j].offset {
      var k :| 0 <= k < |at| && at[k] == j;
    }
    if a in JumpSlots(e, rels, i) {
      assert at[0] in at;
    }
  }

  lemma DataSlotExactly(e: Elf, rels: seq<Relocation>, i: nat, a: nat)
    ensures a in DataSlots(e, rels, i) <==> exists j: nat :: GivesDataSlot(e, rels, i, j) && a == e.bias + rels[j].offset
  {
    var at := DataSlotsExactly(e, rels, i);
    if j: nat :| GivesDataSlot(e, rels, i, j) && a == e.bias + rels[j].offset {
      var k :| 0 <= k < |at| && at[k] == j;
    }
    if a in DataSlots(e, rels, i) {
      var k :| 0 <= k < |at| && Addresses(e, rels, at)[k] == a;
      assert at[k] in at;
    }
  }

  method Collect(e: Elf, rels: seq<Relocation>, idx: nat, isPlt: bool, res: seq<nat>) returns (res': seq<nat>)
    ensures isPlt ==> res' == res + JumpSlots(e, rels, idx)
    ensures !isPlt ==> res' == res + DataSlots(e, rels, idx)
  {
    res' := res;
    var i := 0;
    while i < |rels|
      invariant 0 <= i <= |rels|
      invariant isPlt ==> res' == res && JumpSlots(e, rels, idx) == JumpSlots(e, rels[i..], idx)
      invariant !isPlt ==> res + DataSlots(e, rels, idx) == res' + DataSlots(e, rels[i..], idx)
    {
      var rel := rels[i];
      assert rels[i..][1..] == rels[i + 1..];
      i := i + 1;
      if rel.sym != idx {
        continue;
      }
      if isPlt && rel.kind != JumpSlot {
        continue;
      }
      if !isPlt && rel.kind != Absolute && rel.kind != GlobDat {
        continue;
      }
      var addr := e.bias + rel.offset;
      if addr > e.base {
        res' := res' + [addr];
      }
      if isPlt {
        break;
      }
    }
  }

  method FindSymbol(e: Elf, name: Name) returns (idx: nat)
    requires Indexed(e)
    ensures idx == SymbolIndex(e, name)
  {
    idx := GnuLookup(e, name);
    if idx == 0 {
      idx := ElfLookup(e, name);
    }
    if idx == 0 {
      idx := LinearLookup(e, name);
    }
  }

  lemma NoSuchName(e: Elf, name: Name)
    requires Indexed(e) && forall i :: 0 < i < |e.symbols| ==> e.symbols[i].name != name
    ensures PltSlots(e, name) == []
  {
    SymbolIndexExactly(e, name, SymbolIndex(e, name));
  }

  /** An image of one symbol, whose one data relocation gives it one slot. */
  lemma OneDataSlot(s: Symbol)
    requires s.name != []
    ensures var e := Elf(true, 100, 100, [Nameless(), s], Some(SingleGnu(s.name)), None, [], [Relocation(1, GlobDat, 8)], []);
            WellFormedElf(e) && PltSlots(e, s.name) == [108]
  {
    SingleGnuIsIndex(s);
    var rel := Relocation(1, GlobDat, 8);
    var e := Elf(true, 100, 100, [Nameless(), s], Some(SingleGnu(s.name)), None, [], [rel], []);
    SymbolIndexExactly(e, s.name, 1);
    DataSlotsLast(e, [], rel, 1);
    assert [] + [rel] == [rel];
  }

  // res holds each slot of the symbol of that name, and nothing else.
  ghost predicate SlotsFound(e: Elf, name: Name, res: seq<nat>)
    requires Indexed(e)
  {
    && (forall a: nat :: a in res <==> IsSlotOfName(e, name, a))
    && ((forall i :: 0 < i < |e.symbols| ==> e.symbols[i].name != name) ==> res == [])
  }

  lemma PltSlotsFound(e: Elf, name: Name)
    requires Indexed(e)
    ensures SlotsFound(e, name, PltSlots(e, name))
  {
    forall a: nat
      ensures a in PltSlots(e, name) <==> IsSlotOfName(e, name, a)
    {
      PltSlotsExactly(e, name, a);
    }
    if forall i :: 0 < i < |e.symbols| ==> e.symbols[i].name != name {
      NoSuchName(e, name);
    }
  }

  /** Each slot of the symbol of that name, and nothing else. */
  method FindPltAddr(e: Elf, name: Name) returns (res: seq<nat>)
    requires Indexed(e)
    ensures res == PltSlots(e, name) && SlotsFound(e, name, res)
  {
    PltSlotsFound(e, name);
    var idx := FindSymbol(e, name);
    if idx == 0 {
      return [];
    }
    res := CollectAll(e, idx);
  }

  // The three relocation sections in turn.
  method CollectAll(e: Elf, idx: nat) returns (res: seq<nat>)
    ensures res == JumpSlots(e, e.relPlt, idx) + DataSlots(e, e.relDyn, idx) + DataSlots(e, e.relAndroid, idx)
  {
    res := Collect(e, e.relPlt, idx, true, []);
    res := Collect(e, e.relDyn, idx, false, res);
    res := Collect(e, e.relAndroid, idx, false, res);
  }
}
