/**
 The dynamic symbol table of an ELF image, its two hash indexes, and what makes each of them a
 correct index: GNU (DT_GNU_HASH) and System V (DT_HASH).
 */
module ElfTables {
  import opened Options
  import opened WordBits

  type Name = seq<bv8>

  datatype Symbol = Symbol(name: Name, isDefined: bool, isTls: bool, value: nat, size: nat)

  datatype GnuTable = GnuTable(symOffset: nat, bloom: seq<bv64>, shift: bv32,
                               buckets: seq<nat>, chains: seq<bv32>)

  datatype SysvTable = SysvTable(buckets: seq<nat>, chains: seq<nat>)

  // ----- linear search, the reference for every index -----

  function FindFrom(symbols: seq<Symbol>, name: Name, lo: nat): (r: Option<nat>)
    ensures r.Some? ==> lo <= r.value < |symbols| && symbols[r.value].name == name
    ensures r.Some? ==> forall i :: lo <= i < r.value ==> symbols[i].name != name
    ensures r.None? ==> forall i :: lo <= i < |symbols| ==> symbols[i].name != name
    decreases |symbols| - lo
  {
    if lo >= |symbols| then None
    else if symbols[lo].name == name then Some(lo)
    else FindFrom(symbols, name, lo + 1)
  }

  // ----- the two hash functions -----

  const GNU_SEED: bv32 := 5381

  function GnuStep(h: bv32, c: bv8): bv32 {
    Sum(h, h << 5, c as bv32)
  }

  function GnuHashFrom(h: bv32, name: Name): bv32
    decreases |name|
  {
    if name == [] then h else GnuHashFrom(GnuStep(h, name[0]), name[1..])
  }

  function GnuHash(name: Name): bv32 {
    GnuHashFrom(GNU_SEED, name)
  }

  // One step as the System V ABI writes it: fold the top nibble in (a zero nibble changes
  // nothing), then clear it.
  function SysvStep(h: bv32, c: bv8): bv32 {
    TopFolded((h << 4) + (c as bv32))
  }

  function SysvHashFrom(h: bv32, name: Name): bv32
    decreases |name|
  {
    if name == [] then h else SysvHashFrom(SysvStep(h, name[0]), name[1..])
  }

  function SysvHash(name: Name): bv32 {
    SysvHashFrom(0, name)
  }

  // From the back: 33 times the hash of what comes before, plus the byte; the hash of nothing is 5381.
  function TimesThirtyThree(name: Name): bv32
    decreases |name|
  {
    if name == [] then 5381 else Times33(TimesThirtyThree(name[..|name| - 1]), name[|name| - 1] as bv32)
  }

  /** The GNU hash is the polynomial in 33 modulo 2 to the 32, starting from 5381. */
  lemma {:induction false} GnuHashIsPolynomial(name: Name)
    ensures GnuHash(name) == TimesThirtyThree(name)
    decreases |name|
  {
    if name != [] {
      var front, c := name[..|name| - 1], name[|name| - 1];
      GnuHashIsPolynomial(front);
      GnuHashLast(GNU_SEED, front, c);
      assert name == front + [c];
      GnuStepTimes(GnuHash(front), c);
    }
  }

  lemma GnuStepTimes(h: bv32, c: bv8)
    ensures GnuStep(h, c) == Times33(h, c as bv32)
  {
    ShiftIsTimes(h, c as bv32);
  }

  lemma {:induction false} GnuHashLast(h: bv32, name: Name, c: bv8)
    ensures GnuHashFrom(h, name + [c]) == GnuStep(GnuHashFrom(h, name), c)
    decreases |name|
  {
    if name == [] {
      assert name + [c] == [c] && [c][1..] == [];
    } else {
      assert (name + [c])[1..] == name[1..] + [c];
      GnuHashLast(GnuStep(h, name[0]), name[1..], c);
    }
  }

  // From the back: 16 times the hash of what comes before, plus the byte, and then the top four bits are
  // taken off and 16 times their number is xor-ed in; the hash of nothing is 0.
  function TimesSixteen(name: Name): bv32
    decreases |name|
  {
    if name == [] then 0 else Times16Folded(TimesSixteen(name[..|name| - 1]), name[|name| - 1] as bv32)
  }

  /** The System V hash, by numbers. */
  lemma {:induction false} SysvHashIsFolded(name: Name)
    ensures SysvHash(name) == TimesSixteen(name)
    decreases |name|
  {
    if name != [] {
      var front, c := name[..|name| - 1], name[|name| - 1];
      SysvHashIsFolded(front);
      SysvHashLast(0, front, c);
      assert name == front + [c];
      SysvStepTimes(SysvHash(front), c);
    }
  }

  lemma SysvStepTimes(h: bv32, c: bv8)
    ensures SysvStep(h, c) == Times16Folded(h, c as bv32)
  {
    StepByNumbers(h, c as bv32);
  }

  lemma {:induction false} SysvHashLast(h: bv32, name: Name, c: bv8)
    ensures SysvHashFrom(h, name + [c]) == SysvStep(SysvHashFrom(h, name), c)
    decreases |name|
  {
    if name == [] {
      assert name + [c] == [c] && [c][1..] == [];
    } else {
      assert (name + [c])[1..] == name[1..] + [c];
      SysvHashLast(SysvStep(h, name[0]), name[1..], c);
    }
  }

  // ----- where a hash lands -----

  function Bit(i: bv32): bv64 {
    (1 as bv64) << ((i % 64) as int)
  }

  function BloomMask(h: bv32, shift: bv32): bv64
    requires shift < 32
  {
    Bit(h) | Bit(h >> (shift as int))
  }

  /** A hash picks the bucket whose number is its remainder, and the filter word that the remainder of its
      64th part numbers. */
  lemma HashLands(name: Name, n: nat)
    requires 0 < n
    ensures BucketOf(GnuHash(name), n) == (TimesThirtyThree(name) as nat) % n
    ensures BloomIndex(GnuHash(name), n) == ((TimesThirtyThree(name) / 64) as nat) % n
    ensures BucketOf(SysvHash(name), n) == (TimesSixteen(name) as nat) % n
  {
    GnuHashIsPolynomial(name);
    SysvHashIsFolded(name);
  }

  // ----- well-formed GNU index -----

  predicate EndsChain(chain: bv32) {
    chain & 1 != 0
  }

  function GnuBucket(t: GnuTable, symbols: seq<Symbol>, i: nat): nat
    requires |t.buckets| > 0 && i < |symbols|
  {
    BucketOf(GnuHash(symbols[i].name), |t.buckets|)
  }

  predicate GnuShape(t: GnuTable, symbols: seq<Symbol>) {
    && 0 < t.symOffset <= |symbols|
    && |t.chains| == |symbols| - t.symOffset
    && |t.buckets| > 0
    && |t.bloom| > 0
    && t.shift < 32
  }

  // Both bits of the hash are set in its filter word.
  predicate BloomPasses(t: GnuTable, h: bv32)
    requires |t.bloom| > 0 && t.shift < 32
  {
    var mask := BloomMask(h, t.shift);
    mask & t.bloom[BloomIndex(h, |t.bloom|)] == mask
  }

  // Every hashed symbol has set its bits.
  predicate BloomHolds(t: GnuTable, symbols: seq<Symbol>)
    requires GnuShape(t, symbols)
  {
    forall i {:trigger symbols[i]} :: t.symOffset <= i < |symbols| ==>
      BloomPasses(t, GnuHash(symbols[i].name))
  }

  // Hashed symbols are grouped by bucket, in bucket order.
  predicate Grouped(t: GnuTable, symbols: seq<Symbol>)
    requires GnuShape(t, symbols)
  {
    forall i, j :: t.symOffset <= i <= j < |symbols| ==> GnuBucket(t, symbols, i) <= GnuBucket(t, symbols, j)
  }

  predicate LastOfBucket(t: GnuTable, symbols: seq<Symbol>, i: nat)
    requires GnuShape(t, symbols) && i < |symbols|
  {
    i + 1 == |symbols| || GnuBucket(t, symbols, i + 1) != GnuBucket(t, symbols, i)
  }

  // The chain word of a symbol. lsplt biases the chain pointer by symOffset and indexes it with the
  // symbol; xDL subtracts symOffset at every access.
  function ChainAt(t: GnuTable, i: nat): bv32
    requires t.symOffset <= i < t.symOffset + |t.chains|
  {
    t.chains[i - t.symOffset]
  }

  // A chain word is the hash of its symbol with the last bit marking the end of the bucket.
  predicate ChainsHold(t: GnuTable, symbols: seq<Symbol>)
    requires GnuShape(t, symbols)
  {
    forall i {:trigger ChainAt(t, i)} :: t.symOffset <= i < |symbols| ==>
      && SameHashBits(ChainAt(t, i), GnuHash(symbols[i].name))
      && (EndsChain(ChainAt(t, i)) <==> LastOfBucket(t, symbols, i))
  }

  // A bucket names its first symbol, or an index below symOffset when it is empty.
  predicate BucketsHold(t: GnuTable, symbols: seq<Symbol>)
    requires GnuShape(t, symbols)
  {
    forall b {:trigger t.buckets[b]} :: 0 <= b < |t.buckets| ==>
      if t.buckets[b] < t.symOffset then
        forall i :: t.symOffset <= i < |symbols| ==> GnuBucket(t, symbols, i) != b
      else
        && t.buckets[b] < |symbols|
        && GnuBucket(t, symbols, t.buckets[b]) == b
        && forall i :: t.symOffset <= i < t.buckets[b] ==> GnuBucket(t, symbols, i) != b
  }

  predicate WellFormedGnu(t: GnuTable, symbols: seq<Symbol>) {
    && GnuShape(t, symbols)
    && BloomHolds(t, symbols)
    && Grouped(t, symbols)
    && ChainsHold(t, symbols)
    && BucketsHold(t, symbols)
  }

  /** By numbers: chain words with equal halves agree, and an odd one ends its chain. */
  lemma ChainWordByNumbers(chain: bv32, h: bv32)
    ensures SameHashBits(chain, h) <==> chain / 2 == h / 2
    ensures EndsChain(chain) <==> chain % 2 == 1
  {
    SameHashBitsAreHalves(chain, h);
    OddByRemainder(chain);
  }

  lemma SameNameSameBucket(t: GnuTable, symbols: seq<Symbol>, name: Name, i: nat)
    requires GnuShape(t, symbols) && t.symOffset <= i < |symbols| && symbols[i].name == name
    ensures GnuBucket(t, symbols, i) == BucketOf(GnuHash(name), |t.buckets|)
  {
  }

  /** The Bloom filter has no false negative. */
  lemma BloomHasNoFalseNegative(t: GnuTable, symbols: seq<Symbol>, name: Name)
    requires GnuShape(t, symbols) && BloomHolds(t, symbols) && !BloomPasses(t, GnuHash(name))
    ensures FindFrom(symbols, name, t.symOffset) == None
  {
  }

  // The index of a table with one hashed symbol: one bucket, and a filter that lets everything pass.
  function SingleGnu(name: Name): GnuTable {
    GnuTable(1, [0xffff_ffff_ffff_ffff], 0, [1], [Odd(GnuHash(name))])
  }

  function Nameless(): Symbol {
    Symbol([], false, false, 0, 0)
  }

  /** That index is correct. */
  lemma SingleGnuIsIndex(s: Symbol)
    ensures WellFormedGnu(SingleGnu(s.name), [Nameless(), s])
  {
    var t := SingleGnu(s.name);
    OddKeepsHash(GnuHash(s.name));
    FullPasses(BloomMask(GnuHash(s.name), 0));
    assert ChainAt(t, 1) == Odd(GnuHash(s.name));
  }

  // ----- well-formed System V index -----

  // The symbols a chain visits from index i on, for at most fuel steps; index 0 ends a chain.
  function Follow(chains: seq<nat>, i: nat, fuel: nat): seq<nat>
    decreases fuel
  {
    if i == 0 || i >= |chains| || fuel == 0 then [] else [i] + Follow(chains, chains[i], fuel - 1)
  }

  // No chain is longer than the table.
  function SysvPath(t: SysvTable, b: nat): seq<nat>
    requires b < |t.buckets|
  {
    Follow(t.chains, t.buckets[b], |t.chains|)
  }

  // From bucket b, the chain visits the symbols of path, in order, and stops.
  predicate ChainVisits(t: SysvTable, b: nat, path: seq<nat>)
    requires b < |t.buckets|
  {
    && t.buckets[b] == (if path == [] then 0 else path[0])
    && forall i {:trigger path[i]} :: 0 <= i < |path| ==>
         && 0 < path[i] < |t.chains|
         && t.chains[path[i]] == (if i + 1 < |path| then path[i + 1] else 0)
  }

  // Every chain stops, and every symbol but the reserved first is on the chain of its bucket.
  predicate WellFormedSysv(t: SysvTable, symbols: seq<Symbol>) {
    && |t.buckets| > 0
    && |t.chains| == |symbols|
    && (forall b {:trigger SysvPath(t, b)} :: 0 <= b < |t.buckets| ==> ChainVisits(t, b, SysvPath(t, b)))
    && (forall i {:trigger symbols[i]} :: 0 < i < |symbols| ==>
          i in SysvPath(t, BucketOf(SysvHash(symbols[i].name), |t.buckets|)))
  }

  // The first symbol called name along a path.
  function FirstOnPath(symbols: seq<Symbol>, path: seq<nat>, name: Name): (r: Option<nat>)
    requires forall i {:trigger path[i]} :: 0 <= i < |path| ==> path[i] < |symbols|
    ensures r.Some? ==> r.value in path && symbols[r.value].name == name
    ensures r.None? ==> forall i :: i in path ==> symbols[i].name != name
    decreases |path|
  {
    if path == [] then None
    else if symbols[path[0]].name == name then Some(path[0])
    else FirstOnPath(symbols, path[1..], name)
  }
}
