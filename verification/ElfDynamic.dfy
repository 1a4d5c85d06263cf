/**
 The dynamic-section loop of Elf's constructor, and why the order of the entries does not matter.
 */
module ElfDynamic {
  import opened Options

  // The tags the loop looks at; DT_REL and DT_RELA set the same field, and so do the sizes.
  datatype Tag =
    | Null | StrTab | SymTab | PltRel | JmpRel | PltRelSz | Rel | Rela | RelSz | RelaSz
    | AndroidRel | AndroidRela | AndroidRelSz | AndroidRelaSz | Hash | GnuHash | OtherTag

  datatype Entry = Entry(tag: Tag, val: nat)

  // The hash part of the fields. Pointers are addresses; 0 is null.
  datatype HashFields = HashFields(bucketCount: nat, bucket: int, chain: int, symOffset: nat,
                                   bloom: nat, bloomSize: nat, bloomShift: nat)

  datatype Fields = Fields(dynStr: nat, dynSym: nat, relPlt: nat, relPltSize: nat, relDyn: nat, relDynSize: nat,
                           relAndroid: nat, relAndroidSize: nat, useRela: bool, hash: HashFields)

  const NO_HASH := HashFields(0, 0, 0, 0, 0, 0, 0)
  const EMPTY := Fields(0, 0, 0, 0, 0, 0, 0, 0, false, NO_HASH)

  const DT_RELA: nat := 7
  const WORD_SIZE := 4
  const ADDRESS_SIZE := 8

  // Load address, load bias, and the 32-bit words of memory.
  datatype Place = Place(base: nat, bias: nat, words: map<nat, nat>)

  function WordAt(p: Place, addr: nat): nat {
    if addr in p.words then p.words[addr] else 0
  }

  function SysvFields(p: Place, ptr: nat, before: HashFields): HashFields {
    var raw := p.bias + ptr;
    var count := WordAt(p, raw);
    before.(bucketCount := count, bucket := raw + 2 * WORD_SIZE, chain := raw + 2 * WORD_SIZE + WORD_SIZE * count)
  }

  function GnuFields(p: Place, ptr: nat): HashFields {
    var raw := p.bias + ptr;
    var count, offset, size := WordAt(p, raw), WordAt(p, raw + WORD_SIZE), WordAt(p, raw + 2 * WORD_SIZE);
    var bloom := raw + 4 * WORD_SIZE;
    var bucket := bloom + ADDRESS_SIZE * size;
    HashFields(count, bucket, bucket + WORD_SIZE * count - WORD_SIZE * offset,
               offset, bloom, size, WordAt(p, raw + 3 * WORD_SIZE))
  }

  // Tags whose value is an address that must lie above the base.
  predicate IsPointer(tag: Tag) {
    tag in {StrTab, SymTab, JmpRel, Rel, Rela, AndroidRel, AndroidRela}
  }

  predicate Accepted(p: Place, e: Entry) {
    IsPointer(e.tag) ==> p.bias + e.val > p.base
  }

  // One turn of the loop for an entry that is accepted.
  function Apply(p: Place, f: Fields, e: Entry): Fields {
    var addr := p.bias + e.val;
    match e.tag
    case StrTab => f.(dynStr := addr)
    case SymTab => f.(dynSym := addr)
    case PltRel => f.(useRela := e.val == DT_RELA)
    case JmpRel => f.(relPlt := addr)
    case PltRelSz => f.(relPltSize := e.val)
    case Rel => f.(relDyn := addr)
    case Rela => f.(relDyn := addr)
    case RelSz => f.(relDynSize := e.val)
    case RelaSz => f.(relDynSize := e.val)
    case AndroidRel => f.(relAndroid := addr)
    case AndroidRela => f.(relAndroid := addr)
    case AndroidRelSz => f.(relAndroidSize := e.val)
    case AndroidRelaSz => f.(relAndroidSize := e.val)
    case Hash => if f.hash.bloom != 0 then f else f.(hash := SysvFields(p, e.val, f.hash))
    case GnuHash => f.(hash := GnuFields(p, e.val))
    case Null => f
    case OtherTag => f
  }

  // The loop: up to DT_NULL, giving up at the first pointer that is not above the base.
  function Parse(p: Place, f: Fields, es: seq<Entry>): Option<Fields>
    decreases |es|
  {
    if es == [] || es[0].tag == Null then Some(f)
    else if !Accepted(p, es[0]) then None
    else Parse(p, Apply(p, f, es[0]), es[1..])
  }

  // ----- what the fields hold -----

  // Entry i is read: no DT_NULL comes before it.
  predicate IsRead(es: seq<Entry>, i: nat) {
    i < |es| && forall j :: 0 <= j <= i ==> es[j].tag != Null
  }

  // Entry i is the last one read with one of these tags.
  ghost predicate IsLastOf(es: seq<Entry>, tags: set<Tag>, i: nat) {
    && IsRead(es, i) && es[i].tag in tags
    && forall j: nat :: i < j && IsRead(es, j) ==> es[j].tag !in tags
  }

  ghost predicate HasNone(es: seq<Entry>, tags: set<Tag>) {
    forall i: nat :: IsRead(es, i) ==> es[i].tag !in tags
  }

  ghost predicate HoldsAddress(p: Place, es: seq<Entry>, tags: set<Tag>, v: nat) {
    && (forall i: nat :: IsLastOf(es, tags, i) ==> v == p.bias + es[i].val)
    && (HasNone(es, tags) ==> v == 0)
  }

  ghost predicate HoldsValue(es: seq<Entry>, tags: set<Tag>, v: nat) {
    && (forall i: nat :: IsLastOf(es, tags, i) ==> v == es[i].val)
    && (HasNone(es, tags) ==> v == 0)
  }

  // The header words are bucket count, symbol offset, filter size and shift; the filter follows, then
  // the buckets, then the chains, whose pointer is set back by the symbol offset.
  ghost predicate IsGnuTable(p: Place, raw: nat, h: HashFields) {
    && h.bucketCount == WordAt(p, raw)
    && h.symOffset == WordAt(p, raw + 4)
    && h.bloomSize == WordAt(p, raw + 8)
    && h.bloomShift == WordAt(p, raw + 12)
    && h.bloom == raw + 16
    && h.bucket == raw + 16 + 8 * h.bloomSize
    && h.chain == raw + 16 + 8 * h.bloomSize + 4 * h.bucketCount - 4 * h.symOffset
  }

  ghost predicate IsSysvTable(p: Place, raw: nat, h: HashFields) {
    && h.bucketCount == WordAt(p, raw)
    && h.bucket == raw + 8
    && h.chain == raw + 8 + 4 * h.bucketCount
    && h.symOffset == h.bloom == h.bloomSize == h.bloomShift == 0
  }

  // The last DT_GNU_HASH describes the hash table; without one, the last DT_HASH does.
  ghost predicate HoldsHash(p: Place, es: seq<Entry>, h: HashFields) {
    && (forall i: nat :: IsLastOf(es, {GnuHash}, i) ==> IsGnuTable(p, p.bias + es[i].val, h))
    && (HasNone(es, {GnuHash}) ==> forall i: nat :: IsLastOf(es, {Hash}, i) ==> IsSysvTable(p, p.bias + es[i].val, h))
    && (HasNone(es, {GnuHash, Hash}) ==> h == HashFields(0, 0, 0, 0, 0, 0, 0))
  }

  ghost predicate AddressesRead(p: Place, es: seq<Entry>, f: Fields) {
    && HoldsAddress(p, es, {StrTab}, f.dynStr)
    && HoldsAddress(p, es, {SymTab}, f.dynSym)
    && HoldsAddress(p, es, {JmpRel}, f.relPlt)
    && HoldsAddress(p, es, {Rel, Rela}, f.relDyn)
    && HoldsAddress(p, es, {AndroidRel, AndroidRela}, f.relAndroid)
  }

  ghost predicate ValuesRead(es: seq<Entry>, f: Fields) {
    && HoldsValue(es, {PltRelSz}, f.relPltSize)
    && HoldsValue(es, {RelSz, RelaSz}, f.relDynSize)
    && HoldsValue(es, {AndroidRelSz, AndroidRelaSz}, f.relAndroidSize)
    && (f.useRela <==> exists i: nat :: IsLastOf(es, {PltRel}, i) && es[i].val == 7)
  }

  // Each field holds what the last entry for it says, and is null without one.
  ghost predicate FieldsRead(p: Place, es: seq<Entry>, f: Fields) {
    AddressesRead(p, es, f) && ValuesRead(es, f) && HoldsHash(p, es, f.hash)
  }

  // Some pointer that is read does not lie above the base.
  ghost predicate HasBadPointer(p: Place, es: seq<Entry>) {
    exists i: nat :: IsRead(es, i) && p.bias + es[i].val <= p.base &&
      es[i].tag in {StrTab, SymTab, JmpRel, Rel, Rela, AndroidRel, AndroidRela}
  }

  /** The loop gives up exactly at a bad pointer; else every field is that of the last entry for it. */
  method ParseDynamic(p: Place, es: seq<Entry>) returns (r: Option<Fields>)
    ensures r == Parse(p, EMPTY, es)
    ensures DynamicRead(p, es, r)
  {
    ParseReads(p, es);
    var f := EMPTY;
    var i := 0;
    while i < |es|
      invariant 0 <= i <= |es|
      invariant Parse(p, EMPTY, es) == Parse(p, f, es[i..])
    {
      var e := es[i];
      assert es[i..][1..] == es[i + 1..];
      if e.tag == Null {
        break;
      }
      if IsPointer(e.tag) && p.bias + e.val <= p.base {
        return None;
      }
      f := Apply(p, f, e);
      i := i + 1;
    }
    r := Some(f);
  }

  lemma {:induction false} ParseRejects(p: Place, f: Fields, es: seq<Entry>)
    ensures Parse(p, f, es).None? <==> HasBadPointer(p, es)
    decreases |es|
  {
    if es != [] && es[0].tag != Null {
      if !Accepted(p, es[0]) {
        assert IsRead(es, 0);
      } else {
        ParseRejects(p, Apply(p, f, es[0]), es[1..]);
        ReadLater(es);
        if i: nat :| IsRead(es, i) && p.bias + es[i].val <= p.base && IsPointer(es[i].tag) {
          assert i > 0 && IsRead(es[1..], i - 1);
        }
      }
    }
  }

  // The entries read of a list are its first and those read of the rest.
  lemma ReadLater(es: seq<Entry>)
    requires es != [] && es[0].tag != Null
    ensures IsRead(es, 0)
    ensures forall i: nat {:trigger IsRead(es[1..], i)} :: IsRead(es[1..], i) <==> IsRead(es, i + 1)
    ensures forall i: nat {:trigger IsRead(es, i)} :: 0 < i ==> (IsRead(es, i) <==> IsRead(es[1..], i - 1))
  {
    forall i: nat | i + 1 < |es|
      ensures IsRead(es[1..], i) <==> IsRead(es, i + 1)
    {
      assert forall j :: 0 <= j <= i ==> es[1..][j] == es[j + 1];
      assert forall j :: 0 < j <= i + 1 ==> es[1..][j - 1] == es[j];
    }
  }

  // The fields that hold one number, the tags that set each, and what an entry sets it to.
  datatype Slot = DynStr | DynSym | RelPlt | RelPltSize | RelDyn | RelDynSize | RelAndroid | RelAndroidSize | UseRela

  function Get(f: Fields, s: Slot): nat {
    match s
    case DynStr => f.dynStr
    case DynSym => f.dynSym
    case RelPlt => f.relPlt
    case RelPltSize => f.relPltSize
    case RelDyn => f.relDyn
    case RelDynSize => f.relDynSize
    case RelAndroid => f.relAndroid
    case RelAndroidSize => f.relAndroidSize
    case UseRela => if f.useRela then 1 else 0
  }

  function SetBy(s: Slot): set<Tag> {
    match s
    case DynStr => {StrTab}
    case DynSym => {SymTab}
    case RelPlt => {JmpRel}
    case RelPltSize => {PltRelSz}
    case RelDyn => {Rel, Rela}
    case RelDynSize => {RelSz, RelaSz}
    case RelAndroid => {AndroidRel, AndroidRela}
    case RelAndroidSize => {AndroidRelSz, AndroidRelaSz}
    case UseRela => {PltRel}
  }

  function SetTo(p: Place, s: Slot, e: Entry): nat {
    match s
    case UseRela => if e.val == 7 then 1 else 0
    case RelPltSize => e.val
    case RelDynSize => e.val
    case RelAndroidSize => e.val
    case _ => p.bias + e.val
  }

  lemma SlotApplied(p: Place, f: Fields, e: Entry, s: Slot)
    ensures Get(Apply(p, f, e), s) == if e.tag in SetBy(s) then SetTo(p, s, e) else Get(f, s)
  {
  }

  lemma {:induction false} SlotParsed(p: Place, f: Fields, es: seq<Entry>, s: Slot, i: nat)
    requires Parse(p, f, es).Some?
    ensures IsLastOf(es, SetBy(s), i) ==> Get(Parse(p, f, es).value, s) == SetTo(p, s, es[i])
    ensures HasNone(es, SetBy(s)) ==> Get(Parse(p, f, es).value, s) == Get(f, s)
    decreases |es|
  {
    if es != [] && es[0].tag != Null {
      var f', rest := Apply(p, f, es[0]), es[1..];
      ReadLater(es);
      SlotApplied(p, f, es[0], s);
      if IsLastOf(es, SetBy(s), i) {
        assert i == 0 ==> HasNone(rest, SetBy(s));
        assert i > 0 ==> IsLastOf(rest, SetBy(s), i - 1);
        SlotParsed(p, f', rest, s, if i > 0 then i - 1 else 0);
      } else if HasNone(es, SetBy(s)) {
        assert HasNone(rest, SetBy(s));
        SlotParsed(p, f', rest, s, 0);
      }
    }
  }

  lemma ParsedAddress(p: Place, es: seq<Entry>, f: Fields, s: Slot, tags: set<Tag>, v: nat)
    requires Parse(p, EMPTY, es) == Some(f) && tags == SetBy(s) && v == Get(f, s)
    requires s.DynStr? || s.DynSym? || s.RelPlt? || s.RelDyn? || s.RelAndroid?
    ensures HoldsAddress(p, es, tags, v)
  {
    forall i: nat
      ensures IsLastOf(es, tags, i) ==> v == p.bias + es[i].val
    {
      SlotParsed(p, EMPTY, es, s, i);
    }
    SlotParsed(p, EMPTY, es, s, 0);
  }

  lemma ParsedValue(p: Place, es: seq<Entry>, f: Fields, s: Slot, tags: set<Tag>, v: nat)
    requires Parse(p, EMPTY, es) == Some(f) && tags == SetBy(s) && v == Get(f, s)
    requires s.RelPltSize? || s.RelDynSize? || s.RelAndroidSize?
    ensures HoldsValue(es, tags, v)
  {
    forall i: nat
      ensures IsLastOf(es, tags, i) ==> v == es[i].val
    {
      SlotParsed(p, EMPTY, es, s, i);
    }
    SlotParsed(p, EMPTY, es, s, 0);
  }

  // One of the tags occurs last among the first n entries, or not at all.
  lemma {:induction false} LastAmong(es: seq<Entry>, tags: set<Tag>, n: nat) returns (i: nat)
    requires n <= |es|
    ensures i <= n && (i < n ==> IsRead(es, i) && es[i].tag in tags)
    ensures forall j: nat :: (i < n ==> i < j) && j < n && IsRead(es, j) ==> es[j].tag !in tags
    decreases n
  {
    if n == 0 {
      i := 0;
    } else if IsRead(es, n - 1) && es[n - 1].tag in tags {
      i := n - 1;
    } else {
      i := LastAmong(es, tags, n - 1);
      i := if i == n - 1 then n else i;
    }
  }

  lemma LastOrNone(es: seq<Entry>, tags: set<Tag>) returns (i: nat)
    ensures i < |es| ==> IsLastOf(es, tags, i)
    ensures i >= |es| ==> HasNone(es, tags)
  {
    i := LastAmong(es, tags, |es|);
  }

  lemma ParsedUseRela(p: Place, es: seq<Entry>)
    requires Parse(p, EMPTY, es).Some?
    ensures Parse(p, EMPTY, es).value.useRela <==> exists i: nat :: IsLastOf(es, {PltRel}, i) && es[i].val == 7
  {
    var i := LastOrNone(es, {PltRel});
    SlotParsed(p, EMPTY, es, UseRela, i);
    if j: nat :| IsLastOf(es, {PltRel}, j) && es[j].val == 7 {
      assert IsRead(es, j);
      SlotParsed(p, EMPTY, es, UseRela, j);
    }
  }

  lemma GnuFieldsAre(p: Place, ptr: nat)
    ensures IsGnuTable(p, p.bias + ptr, GnuFields(p, ptr)) && GnuFields(p, ptr).bloom != 0
  {
  }

  lemma SysvFieldsAre(p: Place, ptr: nat, before: HashFields)
    requires before.symOffset == before.bloom == before.bloomSize == before.bloomShift == 0
    ensures IsSysvTable(p, p.bias + ptr, SysvFields(p, ptr, before))
  {
  }

  // Once a DT_GNU_HASH has been read, only another one changes the hash fields.
  lemma {:induction false} GnuParsed(p: Place, f: Fields, es: seq<Entry>, i: nat)
    requires Parse(p, f, es).Some?
    ensures IsLastOf(es, {GnuHash}, i) ==> Parse(p, f, es).value.hash == GnuFields(p, es[i].val)
    ensures HasNone(es, {GnuHash}) && f.hash.bloom != 0 ==> Parse(p, f, es).value.hash == f.hash
    decreases |es|
  {
    if es != [] && es[0].tag != Null {
      var f', rest := Apply(p, f, es[0]), es[1..];
      ReadLater(es);
      GnuFieldsAre(p, es[0].val);
      if IsLastOf(es, {GnuHash}, i) {
        assert i == 0 ==> HasNone(rest, {GnuHash});
        assert i > 0 ==> IsLastOf(rest, {GnuHash}, i - 1);
        GnuParsed(p, f', rest, if i > 0 then i - 1 else 0);
      } else if HasNone(es, {GnuHash}) {
        assert HasNone(rest, {GnuHash});
        GnuParsed(p, f', rest, 0);
      }
    }
  }

  predicate NoFilter(h: HashFields) {
    h.symOffset == h.bloom == h.bloomSize == h.bloomShift == 0
  }

  // Without a DT_GNU_HASH, the last DT_HASH decides.
  lemma {:induction false} SysvParsed(p: Place, f: Fields, es: seq<Entry>, i: nat)
    requires Parse(p, f, es).Some? && NoFilter(f.hash) && HasNone(es, {GnuHash})
    ensures IsLastOf(es, {Hash}, i) ==> IsSysvTable(p, p.bias + es[i].val, Parse(p, f, es).value.hash)
    ensures HasNone(es, {Hash}) ==> Parse(p, f, es).value.hash == f.hash
    decreases |es|
  {
    if es != [] && es[0].tag != Null {
      var f', rest := Apply(p, f, es[0]), es[1..];
      ReadLater(es);
      assert es[0].tag != GnuHash && HasNone(rest, {GnuHash});
      SysvFieldsAre(p, es[0].val, f.hash);
      if IsLastOf(es, {Hash}, i) {
        assert i == 0 ==> HasNone(rest, {Hash});
        assert i > 0 ==> IsLastOf(rest, {Hash}, i - 1);
        SysvParsed(p, f', rest, if i > 0 then i - 1 else 0);
      } else if HasNone(es, {Hash}) {
        assert HasNone(rest, {Hash});
        SysvParsed(p, f', rest, 0);
      }
    }
  }

  lemma ParsedHash(p: Place, es: seq<Entry>)
    requires Parse(p, EMPTY, es).Some?
    ensures HoldsHash(p, es, Parse(p, EMPTY, es).value.hash)
  {
    forall i: nat | IsLastOf(es, {GnuHash}, i)
      ensures IsGnuTable(p, p.bias + es[i].val, Parse(p, EMPTY, es).value.hash)
    {
      GnuParsed(p, EMPTY, es, i);
      GnuFieldsAre(p, es[i].val);
    }
    if HasNone(es, {GnuHash}) {
      forall i: nat
        ensures IsLastOf(es, {Hash}, i) ==> IsSysvTable(p, p.bias + es[i].val, Parse(p, EMPTY, es).value.hash)
      {
        SysvParsed(p, EMPTY, es, i);
      }
      SysvParsed(p, EMPTY, es, 0);
    }
    if HasNone(es, {GnuHash, Hash}) {
      assert HasNone(es, {GnuHash}) && HasNone(es, {Hash});
    }
  }

  lemma ParsedAddresses(p: Place, es: seq<Entry>, f: Fields)
    requires Parse(p, EMPTY, es) == Some(f)
    ensures AddressesRead(p, es, f)
  {
    ParsedAddress(p, es, f, DynStr, {StrTab}, f.dynStr);
    ParsedAddress(p, es, f, DynSym, {SymTab}, f.dynSym);
    ParsedAddress(p, es, f, RelPlt, {JmpRel}, f.relPlt);
    ParsedAddress(p, es, f, RelDyn, {Rel, Rela}, f.relDyn);
    ParsedAddress(p, es, f, RelAndroid, {AndroidRel, AndroidRela}, f.relAndroid);
  }

  lemma ParsedValues(p: Place, es: seq<Entry>, f: Fields)
    requires Parse(p, EMPTY, es) == Some(f)
    ensures ValuesRead(es, f)
  {
    ParsedValue(p, es, f, RelPltSize, {PltRelSz}, f.relPltSize);
    ParsedValue(p, es, f, RelDynSize, {RelSz, RelaSz}, f.relDynSize);
    ParsedValue(p, es, f, RelAndroidSize, {AndroidRelSz, AndroidRelaSz}, f.relAndroidSize);
    ParsedUseRela(p, es);
  }

  // What the loop returns: nothing at a bad pointer, and else the fields that the entries give.
  ghost predicate DynamicRead(p: Place, es: seq<Entry>, r: Option<Fields>) {
    && (r.None? <==> HasBadPointer(p, es))
    && (r.Some? ==> FieldsRead(p, es, r.value))
  }

  lemma ParseReads(p: Place, es: seq<Entry>)
    ensures DynamicRead(p, es, Parse(p, EMPTY, es))
  {
    var r := Parse(p, EMPTY, es);
    ParseRejects(p, EMPTY, es);
    if r.Some? {
      ParsedAddresses(p, es, r.value);
      ParsedValues(p, es, r.value);
      ParsedHash(p, es);
    }
  }

  // ----- order -----

  // Which field a tag sets; two tags of one kind must not both occur.
  function Kind(tag: Tag): Tag {
    match tag
    case Rela => Rel
    case RelaSz => RelSz
    case AndroidRela => AndroidRel
    case AndroidRelaSz => AndroidRelSz
    case _ => tag
  }

  predicate SetsField(tag: Tag) {
    tag != OtherTag && tag != Null
  }

  // Each field is set by at most one entry, and no entry ends the section.
  predicate OncePerField(es: seq<Entry>) {
    && (forall i :: 0 <= i < |es| ==> es[i].tag != Null)
    && forall i, j :: 0 <= i < j < |es| && SetsField(es[i].tag) ==> Kind(es[i].tag) != Kind(es[j].tag)
  }

  predicate IsHash(tag: Tag) {
    tag == Hash || tag == GnuHash
  }

  // An entry that is not about hashing reads and writes no hash field.
  lemma ApplyKeepsHash(p: Place, f: Fields, e: Entry, h: HashFields)
    requires !IsHash(e.tag)
    ensures Apply(p, f.(hash := h), e) == Apply(p, f, e).(hash := h)
    ensures Apply(p, f, e).hash == f.hash
  {
  }

  function HashAfter(p: Place, h: HashFields, e: Entry): HashFields {
    if e.tag == GnuHash then GnuFields(p, e.val)
    else if e.tag == Hash && h.bloom == 0 then SysvFields(p, e.val, h)
    else h
  }

  lemma ApplyHash(p: Place, f: Fields, e: Entry)
    requires IsHash(e.tag)
    ensures Apply(p, f, e) == f.(hash := HashAfter(p, f.hash, e))
  {
  }

  lemma PointersCommute(p: Place, f: Fields, a: Entry, b: Entry)
    requires Kind(a.tag) != Kind(b.tag) && IsPointer(a.tag) && IsPointer(b.tag)
    ensures Apply(p, Apply(p, f, a), b) == Apply(p, Apply(p, f, b), a)
  {
  }

  lemma PointerAndOther(p: Place, f: Fields, a: Entry, b: Entry)
    requires IsPointer(a.tag) && !IsPointer(b.tag) && !IsHash(b.tag)
    ensures Apply(p, Apply(p, f, a), b) == Apply(p, Apply(p, f, b), a)
  {
  }

  lemma OthersCommute(p: Place, f: Fields, a: Entry, b: Entry)
    requires Kind(a.tag) != Kind(b.tag) || !SetsField(a.tag)
    requires !IsPointer(a.tag) && !IsPointer(b.tag) && !IsHash(a.tag) && !IsHash(b.tag)
    ensures Apply(p, Apply(p, f, a), b) == Apply(p, Apply(p, f, b), a)
  {
  }

  lemma PlainCommutes(p: Place, f: Fields, a: Entry, b: Entry)
    requires (Kind(a.tag) != Kind(b.tag) || !SetsField(a.tag)) && !IsHash(a.tag) && !IsHash(b.tag)
    ensures Apply(p, Apply(p, f, a), b) == Apply(p, Apply(p, f, b), a)
  {
    if IsPointer(a.tag) && IsPointer(b.tag) {
      PointersCommute(p, f, a, b);
    } else if IsPointer(a.tag) {
      PointerAndOther(p, f, a, b);
    } else if IsPointer(b.tag) {
      PointerAndOther(p, f, b, a);
    } else {
      OthersCommute(p, f, a, b);
    }
  }

  lemma HashCommutes(p: Place, h: HashFields, a: Entry, b: Entry)
    requires IsHash(a.tag) && IsHash(b.tag) && a.tag != b.tag
    ensures HashAfter(p, HashAfter(p, h, a), b) == HashAfter(p, HashAfter(p, h, b), a)
  {
    assert GnuFields(p, a.val).bloom != 0 && GnuFields(p, b.val).bloom != 0;
  }

  /** Two entries that set different fields can change places. */
  lemma ApplyCommutes(p: Place, f: Fields, a: Entry, b: Entry)
    requires Kind(a.tag) != Kind(b.tag) || !SetsField(a.tag)
    ensures Apply(p, Apply(p, f, a), b) == Apply(p, Apply(p, f, b), a)
  {
    if IsHash(a.tag) {
      ApplyHash(p, f, a);
      ApplyHash(p, Apply(p, f, b), a);
      if IsHash(b.tag) {
        ApplyHash(p, f, b);
        ApplyHash(p, Apply(p, f, a), b);
        HashCommutes(p, f.hash, a, b);
      } else {
        ApplyKeepsHash(p, f, b, HashAfter(p, f.hash, a));
      }
    } else if IsHash(b.tag) {
      ApplyHash(p, f, b);
      ApplyHash(p, Apply(p, f, a), b);
      ApplyKeepsHash(p, f, a, HashAfter(p, f.hash, b));
    } else {
      PlainCommutes(p, f, a, b);
    }
  }

  function Moved(es: seq<Entry>, i: nat): seq<Entry>
    requires i < |es|
  {
    [es[i]] + es[..i] + es[i + 1..]
  }

  /** Bringing one entry to the front changes nothing. */
  lemma {:induction false} MoveToFront(p: Place, f: Fields, es: seq<Entry>, i: nat)
    requires OncePerField(es) && i < |es|
    ensures Parse(p, f, Moved(es, i)) == Parse(p, f, es)
    decreases |es|
  {
    if i == 0 {
      assert Moved(es, 0) == es;
    } else {
      var a, e, rest := es[0], es[i], es[1..];
      var others := rest[..i - 1] + rest[i..];
      assert Moved(rest, i - 1) == [e] + others;
      assert Moved(es, i) == [e] + ([a] + others);
      MoveToFront(p, Apply(p, f, a), rest, i - 1);
      Front(p, f, e, [a] + others);
      Front(p, Apply(p, f, e), a, others);
      Front(p, Apply(p, f, a), e, others);
      ApplyCommutes(p, f, a, e);
      if Accepted(p, a) && !Accepted(p, e) {
        RejectedAnywhere(p, Apply(p, f, a), rest, i - 1);
      }
    }
  }

  lemma Front(p: Place, f: Fields, e: Entry, es: seq<Entry>)
    requires e.tag != Null
    ensures Parse(p, f, [e] + es) == if Accepted(p, e) then Parse(p, Apply(p, f, e), es) else None
  {
    assert ([e] + es)[1..] == es;
  }

  lemma {:induction false} RejectedAnywhere(p: Place, f: Fields, es: seq<Entry>, i: nat)
    requires i < |es| && !Accepted(p, es[i]) && forall j :: 0 <= j < |es| ==> es[j].tag != Null
    ensures Parse(p, f, es) == None
    decreases |es|
  {
    if i > 0 && Accepted(p, es[0]) {
      RejectedAnywhere(p, Apply(p, f, es[0]), es[1..], i - 1);
    }
  }

  lemma SameMembersOnce(es: seq<Entry>, ds: seq<Entry>)
    requires OncePerField(es) && multiset(es) == multiset(ds)
    ensures OncePerField(ds)
  {
    forall i | 0 <= i < |ds|
      ensures ds[i].tag != Null
    {
      assert ds[i] in multiset(es);
    }
    forall i, j | 0 <= i < j < |ds| && SetsField(ds[i].tag)
      ensures Kind(ds[i].tag) != Kind(ds[j].tag)
    {
      if Kind(ds[i].tag) == Kind(ds[j].tag) {
        assert ds[i] in multiset(es) && ds[j] in multiset(es);
        var k :| 0 <= k < |es| && es[k] == ds[i];
        var l :| 0 <= l < |es| && es[l] == ds[j];
        if k == l {
          TwiceThere(ds, i, j);
          OnceThere(es, k);
        }
      }
    }
  }

  lemma TwiceThere(ds: seq<Entry>, i: nat, j: nat)
    requires i < j < |ds| && ds[i] == ds[j]
    ensures multiset(ds)[ds[i]] >= 2
  {
    assert ds == ds[..j] + [ds[j]] + ds[j + 1..];
    assert ds[..j][i] == ds[j];
  }

  lemma OnceThere(es: seq<Entry>, k: nat)
    requires OncePerField(es) && k < |es| && SetsField(es[k].tag)
    ensures multiset(es)[es[k]] == 1
  {
    assert es == es[..k] + [es[k]] + es[k + 1..];
    assert es[k] !in es[..k] && es[k] !in es[k + 1..];
  }

  // The same entries, less one that both lists hold.
  lemma LessOne(es: seq<Entry>, ds: seq<Entry>, i: nat)
    requires multiset(es) == multiset(ds) && es != [] && i < |ds| && ds[i] == es[0]
    ensures multiset(es[1..]) == multiset(ds[..i] + ds[i + 1..])
  {
    assert es == [es[0]] + es[1..];
    assert ds == ds[..i] + [ds[i]] + ds[i + 1..];
    assert multiset(es[1..]) == multiset(es) - multiset{es[0]};
  }

  lemma OnceInTail(es: seq<Entry>)
    requires OncePerField(es) && es != []
    ensures OncePerField(es[1..])
  {
  }

  lemma SameHead(es: seq<Entry>, ds: seq<Entry>) returns (i: nat)
    requires multiset(es) == multiset(ds) && es != []
    ensures i < |ds| && ds[i] == es[0]
  {
    assert es[0] in multiset(ds);
    i :| 0 <= i < |ds| && ds[i] == es[0];
  }

  /** The constructor reads the same fields, or gives up, whatever the order of the entries. */
  lemma {:induction false} OrderDoesNotMatter(p: Place, f: Fields, es: seq<Entry>, ds: seq<Entry>)
    requires OncePerField(es) && multiset(es) == multiset(ds)
    ensures Parse(p, f, es) == Parse(p, f, ds)
    decreases |es|
  {
    if es == [] {
      assert |multiset(ds)| == 0;
    } else {
      var i := SameHead(es, ds);
      var e, others := es[0], ds[..i] + ds[i + 1..];
      assert es == [e] + es[1..] && Moved(ds, i) == [e] + others;
      SameMembersOnce(es, ds);
      MoveToFront(p, f, ds, i);
      LessOne(es, ds, i);
      OnceInTail(es);
      OrderDoesNotMatter(p, Apply(p, f, e), es[1..], others);
      Front(p, f, e, es[1..]);
      Front(p, f, e, others);
    }
  }

  /** DT_NULL ends the section: what follows it is not read. */
  lemma {:induction false} NullEnds(p: Place, f: Fields, es: seq<Entry>, end: Entry, junk: seq<Entry>)
    requires end.tag == Null && forall i :: 0 <= i < |es| ==> es[i].tag != Null
    ensures Parse(p, f, es + [end] + junk) == Parse(p, f, es)
    decreases |es|
  {
    if es == [] {
      assert (es + [end] + junk)[0] == end;
    } else {
      assert (es + [end] + junk)[1..] == es[1..] + [end] + junk;
      NullEnds(p, Apply(p, f, es[0]), es[1..], end, junk);
    }
  }

  /** With both hash tables present, the fields describe the GNU one. */
  lemma {:induction false} GnuHashWins(p: Place, f: Fields, es: seq<Entry>, i: nat)
    requires OncePerField(es) && i < |es| && es[i].tag == GnuHash
    ensures Parse(p, f, es).Some? ==> Parse(p, f, es).value.hash == GnuFields(p, es[i].val)
    decreases |es|
  {
    if Accepted(p, es[0]) {
      if i > 0 {
        GnuHashWins(p, Apply(p, f, es[0]), es[1..], i - 1);
      } else {
        HashKept(p, Apply(p, f, es[0]), es[1..]);
      }
    }
  }

  lemma {:induction false} HashKept(p: Place, f: Fields, es: seq<Entry>)
    requires f.hash.bloom != 0 && forall j :: 0 <= j < |es| ==> es[j].tag != GnuHash
    ensures Parse(p, f, es).Some? ==> Parse(p, f, es).value.hash == f.hash
    decreases |es|
  {
    if es != [] && es[0].tag != Null && Accepted(p, es[0]) {
      HashKept(p, Apply(p, f, es[0]), es[1..]);
    }
  }
}
