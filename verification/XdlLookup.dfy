/**
 xDL's view of the same tables: look-up by name, written independently of lsplt's, and look-up by
 address through the buckets of the GNU table.
 */
module XdlLookup {
  import opened Options
  import opened WordBits
  import opened ElfTables
  import ElfUtil

  // Both indexes may be present; dynsym is null when neither has a bucket.
  datatype Handle = Handle(symbols: seq<Symbol>, gnu: Option<GnuTable>, sysv: Option<SysvTable>)

  ghost predicate WellFormedHandle(h: Handle) {
    && |h.symbols| > 0
    && h.symbols[0].name == []
    && (h.gnu.Some? ==> WellFormedGnu(h.gnu.value, h.symbols))
    && (h.sysv.Some? ==> WellFormedSysv(h.sysv.value, h.symbols))
  }

  // The bytes of a C string: a name without zeros, and the terminator.
  predicate IsCString(s: seq<bv8>, name: Name) {
    s == name + [0] && 0 !in name
  }

  method HashGnu(s: seq<bv8>, ghost name: Name) returns (h: bv32)
    requires IsCString(s, name)
    ensures h == GnuHash(name)
  {
    h := GNU_SEED;
    var i := 0;
    while s[i] != 0
      invariant 0 <= i <= |name|
      invariant GnuHashFrom(h, name[i..]) == GnuHash(name)
      decreases |name| - i
    {
      assert name[i..][1..] == name[i + 1..];
      h := GnuStep(h, s[i]);
      i := i + 1;
    }
  }

  method HashSysv(s: seq<bv8>, ghost name: Name) returns (h: bv32)
    requires IsCString(s, name)
    ensures h == SysvHash(name)
  {
    h := 0;
    var i := 0;
    while s[i] != 0
      invariant 0 <= i <= |name|
      invariant SysvHashFrom(h, name[i..]) == SysvHash(name)
      decreases |name| - i
    {
      assert name[i..][1..] == name[i + 1..];
      h := ElfUtil.FoldByXor(h, s[i]);
      i := i + 1;
    }
  }

  method FindUseSysvHash(t: SysvTable, symbols: seq<Symbol>, s: seq<bv8>, ghost name: Name)
    returns (r: Option<nat>)
    requires WellFormedSysv(t, symbols) && IsCString(s, name)
    ensures r == FirstOnPath(symbols, SysvPath(t, BucketOf(SysvHash(name), |t.buckets|)), name)
  {
    var hash := HashSysv(s, name);
    var b := BucketOf(hash, |t.buckets|);
    ghost var path, k := SysvPath(t, b), 0;
    var i := t.buckets[b];
    while i != 0
      invariant 0 <= k <= |path|
      invariant i == if k < |path| then path[k] else 0
      invariant FirstOnPath(symbols, path, name) == FirstOnPath(symbols, path[k..], name)
      decreases |path| - k
    {
      if symbols[i].name + [0] == s {
        SameCString(symbols[i].name, name);
        return Some(i);
      }
      assert path[k..][1..] == path[k + 1..];
      i := t.chains[i];
      k := k + 1;
    }
    r := None;
  }

  lemma SameCString(a: Name, b: Name)
    requires a + [0] == b + [0]
    ensures a == b
  {
    assert (a + [0])[..|a|] == a && (b + [0])[..|b|] == b;
  }

  method FindUseGnuHash(t: GnuTable, symbols: seq<Symbol>, s: seq<bv8>, ghost name: Name) returns (r: Option<nat>)
    requires WellFormedGnu(t, symbols) && IsCString(s, name)
    ensures r == FindFrom(symbols, name, t.symOffset)
  {
    var hash := HashGnu(s, name);
    if !BloomPasses(t, hash) {
      BloomHasNoFalseNegative(t, symbols, name);
      return None;
    }
    var i := t.buckets[BucketOf(hash, |t.buckets|)];
    if i < t.symOffset {
      ElfUtil.EmptyBucket(t, symbols, name);
      return None;
    }
    r := LoopThroughChain(t, symbols, s, name, hash, i);
  }

  method LoopThroughChain(t: GnuTable, symbols: seq<Symbol>, s: seq<bv8>, ghost name: Name, hash: bv32, first: nat)
    returns (r: Option<nat>)
    requires GnuShape(t, symbols) && Grouped(t, symbols) && ChainsHold(t, symbols) && BucketsHold(t, symbols)
    requires IsCString(s, name) && hash == GnuHash(name)
    requires t.symOffset <= first == t.buckets[BucketOf(hash, |t.buckets|)]
    ensures r == FindFrom(symbols, name, t.symOffset)
  {
    var i := first;
    while true
      invariant first <= i < |symbols|
      invariant GnuBucket(t, symbols, i) == BucketOf(hash, |t.buckets|)
      invariant forall j :: first <= j < i ==> symbols[j].name != name
      decreases |symbols| - i
    {
      SameHashEitherWay(ChainAt(t, i), hash);
      if SameForcedHash(t.chains[i - t.symOffset], hash) && symbols[i].name + [0] == s {
        SameCString(symbols[i].name, name);
        ElfUtil.WalkFindsFirst(t, symbols, name, first, i);
        return Some(i);
      }
      ElfUtil.MismatchIsReal(t, symbols, name, i);
      ElfUtil.ChainEnd(t, symbols, i);
      if EndsChain(t.chains[i - t.symOffset]) {
        ElfUtil.WalkFindsNone(t, symbols, name, first, i);
        return None;
      }
      i := i + 1;
    }
  }

  // The dynamic symbol xdl_sym settles on: GNU hash first, then System V.
  function DynamicSymbol(h: Handle, name: Name): Option<nat>
    requires h.sysv.Some? ==> WellFormedSysv(h.sysv.value, h.symbols)
  {
    var hashed := if h.gnu.Some? then FindFrom(h.symbols, name, h.gnu.value.symOffset) else None;
    if hashed.None? && h.sysv.Some? then
      FirstOnPath(h.symbols, SysvPath(h.sysv.value, BucketOf(SysvHash(name), |h.sysv.value.buckets|)), name)
    else hashed
  }

  // xdl_sym up to the choice of symbol: an undefined symbol is not exported.
  method Sym(h: Handle, s: seq<bv8>, ghost name: Name) returns (r: Option<nat>)
    requires WellFormedHandle(h) && IsCString(s, name)
    ensures var i := DynamicSymbol(h, name);
            r == if i.Some? && i.value < |h.symbols| && h.symbols[i.value].isDefined then i else None
  {
    r := None;
    if h.gnu.Some? {
      r := FindUseGnuHash(h.gnu.value, h.symbols, s, name);
    }
    if r.None? && h.sysv.Some? {
      r := FindUseSysvHash(h.sysv.value, h.symbols, s, name);
    }
    if r.Some? && !h.symbols[r.value].isDefined {
      r := None;
    }
  }

  /** Over the same GNU table both libraries settle on the same hashed symbol. */
  lemma LookupsAgree(h: Handle, e: ElfUtil.Elf, name: Name)
    requires WellFormedHandle(h) && h.gnu.Some?
    requires e.symbols == h.symbols && e.gnu == h.gnu
    requires exists i :: h.gnu.value.symOffset <= i < |h.symbols| && h.symbols[i].name == name
    ensures DynamicSymbol(h, name) == Some(ElfUtil.SymbolIndex(e, name))
  {
  }

  /** With a System V table, xdl_sym's search finds a name exactly when the table holds it. */
  lemma DynamicSymbolFound(h: Handle, name: Name)
    requires WellFormedHandle(h) && h.sysv.Some? && name != []
    ensures var r := DynamicSymbol(h, name);
            && (r.Some? <==> exists i :: 0 <= i < |h.symbols| && h.symbols[i].name == name)
            && (r.Some? ==> r.value < |h.symbols| && h.symbols[r.value].name == name)
  {
  }

  // ----- look-up by address -----

  // Symbols that export code or data: defined, and not thread-local.
  predicate Covers(sym: Symbol, offset: int) {
    sym.isDefined && !sym.isTls && sym.value <= offset < sym.value + sym.size
  }

  function CoverFrom(symbols: seq<Symbol>, offset: int, lo: nat): (r: Option<nat>)
    ensures r.Some? ==> lo <= r.value < |symbols| && Covers(symbols[r.value], offset)
    ensures r.Some? ==> forall i :: lo <= i < r.value ==> !Covers(symbols[i], offset)
    ensures r.None? ==> forall i :: lo <= i < |symbols| ==> !Covers(symbols[i], offset)
    decreases |symbols| - lo
  {
    if lo >= |symbols| then None
    else if Covers(symbols[lo], offset) then Some(lo)
    else CoverFrom(symbols, offset, lo + 1)
  }

  // r is the first symbol from lo on that is defined, not thread-local, and has the offset in its range.
  predicate IsFirstAt(symbols: seq<Symbol>, offset: int, lo: nat, r: Option<nat>) {
    match r
    case Some(i) => lo <= i < |symbols| && HasOffset(symbols[i], offset) && forall j :: lo <= j < i ==> !HasOffset(symbols[j], offset)
    case None => forall j :: lo <= j < |symbols| ==> !HasOffset(symbols[j], offset)
  }

  predicate HasOffset(sym: Symbol, offset: int) {
    sym.isDefined && !sym.isTls && offset >= sym.value && offset < sym.value + sym.size
  }

  lemma CoverIsFirst(symbols: seq<Symbol>, offset: int, lo: nat)
    ensures IsFirstAt(symbols, offset, lo, CoverFrom(symbols, offset, lo))
  {
    assert forall sym: Symbol :: Covers(sym, offset) <==> HasOffset(sym, offset);
  }

  // next is where the symbols of bucket b and later ones begin.
  predicate StartsBucket(t: GnuTable, symbols: seq<Symbol>, b: nat, next: nat)
    requires GnuShape(t, symbols)
  {
    && t.symOffset <= next <= |symbols|
    && (forall i :: t.symOffset <= i < next ==> GnuBucket(t, symbols, i) < b)
    && (forall i :: next <= i < |symbols| ==> b <= GnuBucket(t, symbols, i))
  }

  lemma BucketStart(t: GnuTable, symbols: seq<Symbol>, b: nat, next: nat)
    requires GnuShape(t, symbols) && Grouped(t, symbols) && BucketsHold(t, symbols)
    requires b < |t.buckets| && StartsBucket(t, symbols, b, next)
    ensures t.buckets[b] < t.symOffset ==> StartsBucket(t, symbols, b + 1, next)
    ensures t.buckets[b] >= t.symOffset ==> t.buckets[b] == next < |symbols|
  {
    var n := t.buckets[b];
    if n >= t.symOffset {
      assert GnuBucket(t, symbols, n) == b;
      assert next < |symbols| && b <= GnuBucket(t, symbols, next);
    }
  }

  lemma BucketEnd(t: GnuTable, symbols: seq<Symbol>, b: nat, n: nat)
    requires GnuShape(t, symbols) && Grouped(t, symbols)
    requires t.symOffset <= n < |symbols| && GnuBucket(t, symbols, n) == b && LastOfBucket(t, symbols, n)
    requires forall i :: t.symOffset <= i < n ==> GnuBucket(t, symbols, i) <= b
    ensures StartsBucket(t, symbols, b + 1, n + 1)
  {
    forall i | n + 1 <= i < |symbols|
      ensures b + 1 <= GnuBucket(t, symbols, i)
    {
      assert GnuBucket(t, symbols, n) <= GnuBucket(t, symbols, n + 1) <= GnuBucket(t, symbols, i);
    }
  }

  // The hashed symbols of a GNU table are searched, or else all of a System V one.
  predicate IsSymbolAt(h: Handle, offset: int, r: Option<nat>) {
    if h.gnu.Some? then IsFirstAt(h.symbols, offset, h.gnu.value.symOffset, r)
    else if h.sysv.Some? then IsFirstAt(h.symbols, offset, 0, r)
    else r == None
  }

  lemma CoverIsSymbolAt(h: Handle, offset: int)
    ensures IsSymbolAt(h, offset, if h.gnu.Some? then CoverFrom(h.symbols, offset, h.gnu.value.symOffset)
                                  else if h.sysv.Some? then CoverFrom(h.symbols, offset, 0)
                                  else None)
  {
    CoverIsFirst(h.symbols, offset, if h.gnu.Some? then h.gnu.value.symOffset else 0);
  }

  // The symbol whose range holds an offset: through the GNU buckets if there are any, else by the
  // length of the System V chains.
  method SymByAddr(h: Handle, offset: int) returns (r: Option<nat>)
    requires WellFormedHandle(h)
    ensures r == if h.gnu.Some? then CoverFrom(h.symbols, offset, h.gnu.value.symOffset)
                 else if h.sysv.Some? then CoverFrom(h.symbols, offset, 0)
                 else None
    ensures IsSymbolAt(h, offset, r)
  {
    CoverIsSymbolAt(h, offset);
    r := None;
    if h.gnu.Some? {
      r := WalkBuckets(h.gnu.value, h.symbols, offset);
    } else if h.sysv.Some? {
      var i := 0;
      while i < |h.sysv.value.chains|
        invariant 0 <= i <= |h.sysv.value.chains| == |h.symbols|
        invariant CoverFrom(h.symbols, offset, 0) == CoverFrom(h.symbols, offset, i)
      {
        if Covers(h.symbols[i], offset) {
          return Some(i);
        }
        i := i + 1;
      }
    }
  }

  /** The bucket walk visits the hashed symbols once each, in order: it is a linear scan. */
  method WalkBuckets(t: GnuTable, symbols: seq<Symbol>, offset: int) returns (r: Option<nat>)
    requires WellFormedGnu(t, symbols)
    ensures r == CoverFrom(symbols, offset, t.symOffset)
  {
    var i := 0;
    ghost var next := t.symOffset;
    while i < |t.buckets|
      invariant 0 <= i <= |t.buckets|
      invariant StartsBucket(t, symbols, i, next)
      invariant forall j :: t.symOffset <= j < next ==> !Covers(symbols[j], offset)
    {
      var n := t.buckets[i];
      BucketStart(t, symbols, i, next);
      if n >= t.symOffset {
        r, next := WalkBucket(t, symbols, offset, i, n);
        if r.Some? {
          return;
        }
      }
      i := i + 1;
    }
    AllVisited(t, symbols, next);
    r := None;
  }

  lemma BucketBound(t: GnuTable, symbols: seq<Symbol>, i: nat)
    requires |t.buckets| > 0
    ensures i < |symbols| ==> GnuBucket(t, symbols, i) < |t.buckets|
  {
  }

  lemma AllVisited(t: GnuTable, symbols: seq<Symbol>, next: nat)
    requires GnuShape(t, symbols) && StartsBucket(t, symbols, |t.buckets|, next)
    ensures next == |symbols|
  {
    BucketBound(t, symbols, next);
  }

  method WalkBucket(t: GnuTable, symbols: seq<Symbol>, offset: int, b: nat, first: nat)
    returns (r: Option<nat>, ghost next: nat)
    requires GnuShape(t, symbols) && Grouped(t, symbols) && ChainsHold(t, symbols)
    requires b < |t.buckets| && first < |symbols| && StartsBucket(t, symbols, b, first)
    requires GnuBucket(t, symbols, first) == b
    requires forall j :: t.symOffset <= j < first ==> !Covers(symbols[j], offset)
    ensures r.Some? ==> r == CoverFrom(symbols, offset, t.symOffset)
    ensures r.None? ==> first < next && StartsBucket(t, symbols, b + 1, next)
    ensures r.None? ==> forall j :: t.symOffset <= j < next ==> !Covers(symbols[j], offset)
  {
    var n := first;
    next := first;
    while true
      invariant first <= n < |symbols| && next == n
      invariant GnuBucket(t, symbols, n) == b
      invariant forall j :: t.symOffset <= j < n ==> !Covers(symbols[j], offset)
      decreases |symbols| - n
    {
      if Covers(symbols[n], offset) {
        return Some(n), next;
      }
      ElfUtil.ChainEnd(t, symbols, n);
      n, next := n + 1, n + 1;
      if EndsChain(ChainAt(t, n - 1)) {
        BucketEnd(t, symbols, b, n - 1);
        return None, n;
      }
    }
  }

  /** Unhashed symbols are the undefined ones: then the walk agrees with a scan of the whole table. */
  lemma WalkCoversTable(t: GnuTable, symbols: seq<Symbol>, offset: int)
    requires t.symOffset <= |symbols|
    requires forall i :: 0 <= i < t.symOffset ==> !symbols[i].isDefined
    ensures CoverFrom(symbols, offset, t.symOffset) == CoverFrom(symbols, offset, 0)
  {
    var r := CoverFrom(symbols, offset, 0);
  }
}
