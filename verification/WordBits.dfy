/**
 Facts about 32-bit words that need only the words themselves.
 */
module WordBits {
  function BucketOf(h: bv32, n: nat): (b: nat)
    requires 0 < n
    ensures b < n
  {
    var x := h as nat;
    x % n
  }

  function BloomIndex(h: bv32, n: nat): (b: nat)
    requires 0 < n
    ensures b < n
  {
    var x := (h / 64) as nat;
    x % n
  }

  // The top 31 bits agree, written with an exclusive or and with the last bit forced.
  predicate SameHashBits(chain: bv32, h: bv32) {
    (chain ^ h) >> 1 == 0
  }

  predicate SameForcedHash(chain: bv32, h: bv32) {
    h | 1 == chain | 1
  }

  lemma ShiftOrForce(chain: bv32, h: bv32)
    ensures (chain ^ h) >> 1 == 0 <==> h | 1 == chain | 1
  {
  }

  /** The two ways of comparing a hash with a chain word agree. */
  lemma SameHashEitherWay(chain: bv32, h: bv32)
    ensures SameHashBits(chain, h) <==> SameForcedHash(chain, h)
  {
    ShiftOrForce(chain, h);
  }

  // The top nibble moved down and then cleared.
  function TopFolded(t: bv32): bv32 {
    var g := t & 0xf000_0000;
    (t ^ (g >> 24)) & !g
  }

  // The same by exclusive or alone.
  function TopFoldedByXor(t: bv32): (r: bv32)
    ensures r == TopFolded(t)
  {
    ClearByXor(t);
    var g := t & 0xf000_0000;
    (t ^ g) ^ (g >> 24)
  }

  /** Folding the top nibble in and then clearing it can be done by exclusive or alone. */
  lemma ClearByXor(t: bv32)
    ensures var g := t & 0xf000_0000; (t ^ (g >> 24)) & !g == (t ^ g) ^ (g >> 24)
  {
  }

  function Sum(h: bv32, x: bv32, c: bv32): bv32 {
    h + (x + c)
  }

  // 33 times h, plus c.
  function Times33(h: bv32, c: bv32): bv32 {
    Sum(h, 32 * h, c)
  }

  lemma Times33IsProduct(h: bv32, c: bv32)
    ensures Times33(h, c) == 33 * h + c
  {
  }

  lemma ShiftByFive(h: bv32)
    ensures h << 5 == 32 * h
  {
  }

  lemma ShiftIsTimes(h: bv32, c: bv32)
    ensures Sum(h, h << 5, c) == Times33(h, c)
  {
    ShiftByFive(h);
  }

  lemma ShiftByFour(h: bv32, c: bv32)
    ensures (h << 4) + c == 16 * h + c
  {
  }

  // The same fold with numbers: the top four bits are t / 2^28, the others t % 2^28.
  function FoldedNumber(t: bv32): bv32 {
    (t % 0x1000_0000) ^ (t / 0x1000_0000 * 16)
  }

  lemma FoldIsArithmetic(t: bv32)
    ensures TopFolded(t) == FoldedNumber(t)
  {
  }

  lemma HalvesAgree(chain: bv32, h: bv32)
    ensures (chain ^ h) >> 1 == 0 <==> chain >> 1 == h >> 1
  {
  }

  lemma HalfIsShift(x: bv32)
    ensures x >> 1 == x / 2
  {
  }

  // 16 times h, plus c, folded.
  function Times16Folded(h: bv32, c: bv32): bv32 {
    FoldedNumber(16 * h + c)
  }

  lemma StepByNumbers(h: bv32, c: bv32)
    ensures TopFolded((h << 4) + c) == Times16Folded(h, c)
  {
    ShiftByFour(h, c);
    FoldIsArithmetic((h << 4) + c);
  }

  /** Two words have the same hash bits when their halves are equal: only the last bit may differ. */
  lemma SameHashBitsAreHalves(chain: bv32, h: bv32)
    ensures SameHashBits(chain, h) <==> chain / 2 == h / 2
  {
    HalvesAgree(chain, h);
    HalfIsShift(chain);
    HalfIsShift(h);
  }

  lemma OddByRemainder(x: bv32)
    ensures x & 1 != 0 <==> x % 2 == 1
  {
  }

  function Odd(h: bv32): bv32 {
    h | 1
  }

  lemma OddKeepsHash(h: bv32)
    ensures SameHashBits(Odd(h), h) && Odd(h) & 1 != 0
  {
  }

  lemma FullPasses(mask: bv64)
    ensures mask & 0xffff_ffff_ffff_ffff == mask
  {
  }
}
