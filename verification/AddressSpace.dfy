/**
 The address space of one process: a table of mappings, as listed in /proc/self/maps, and the
 words they hold. Addresses count words, so a page is a whole number of words and a slot is one
 word. A cell also remembers whether its page has been written since it was mapped from a file.
 */
module AddressSpace {
  type Positive = n: nat | 0 < n witness 1

  const PAGE_SIZE: Positive  // getpagesize(), in words

  datatype Protection = Read | Write | Exec

  datatype MapInfo = MapInfo(start: nat, end: nat, perms: set<Protection>, isPrivate: bool,
                             offset: nat, dev: nat, inode: nat, path: string)

  datatype Cell = Cell(word: nat, dirty: bool)

  datatype Process = Process(vmas: map<nat, MapInfo>, mem: map<nat, Cell>)

  // A whole number of pages.
  predicate Paged(n: nat) {
    n == 0 || (PAGE_SIZE <= n && Paged(n - PAGE_SIZE))
  }

  predicate WellFormedMapping(m: MapInfo) {
    0 < m.start < m.end && Paged(m.end - m.start)
  }

  ghost predicate Populated(mem: map<nat, Cell>, m: MapInfo) {
    forall a :: m.start <= a < m.end ==> a in mem
  }

  ghost predicate Apart(vmas: map<nat, MapInfo>) {
    forall v, w {:trigger v in vmas, w in vmas} :: v in vmas && w in vmas && v < w ==> vmas[v].end <= w
  }

  // The mappings are keyed by their start, do not overlap, and every address in one holds a cell.
  ghost predicate WellFormed(p: Process) {
    && Apart(p.vmas)
    && forall v {:trigger v in p.vmas} :: v in p.vmas ==>
         p.vmas[v].start == v && WellFormedMapping(p.vmas[v]) && Populated(p.mem, p.vmas[v])
  }

  // What the kernel promises about an address it picks for a new mapping.
  predicate Fresh(p: Process, at: nat, len: nat) {
    && 0 < at
    && (forall a :: at <= a < at + len ==> a !in p.mem)
    && (forall v {:trigger v in p.vmas} :: v in p.vmas ==> p.vmas[v].end <= at || at + len <= v)
  }

  function AddressRange(at: nat, len: nat): (r: set<nat>)
    ensures forall a :: a in r <==> at <= a < at + len
    decreases len
  {
    if len == 0 then {} else AddressRange(at, len - 1) + {at + len - 1}
  }

  function AnonymousMapping(at: nat, len: nat, perms: set<Protection>): MapInfo {
    MapInfo(at, at + len, perms, true, 0, 0, 0, "")
  }

  // mmap with MAP_ANON: zeroed words over the range, replacing what was mapped there.
  function MapAnonymous(p: Process, at: nat, len: nat, perms: set<Protection>): Process {
    Process(p.vmas[at := AnonymousMapping(at, len, perms)],
            map a | a in p.mem.Keys + AddressRange(at, len) ::
              if at <= a < at + len then Cell(0, true) else p.mem[a])
  }

  predicate CanMove(p: Process, from: nat, to: nat, len: nat) {
    && from in p.vmas
    && p.vmas[from].end == from + len
    && (from + len <= to || to + len <= from)
    && forall a :: from <= a < from + len ==> a in p.mem
  }

  function At(m: MapInfo, start: nat, len: nat): MapInfo {
    m.(start := start, end := start + len)
  }

  // mremap with MREMAP_FIXED: the mapping, and its pages as they are, change address.
  function Move(p: Process, from: nat, to: nat, len: nat): Process
    requires CanMove(p, from, to, len)
  {
    Process((p.vmas - {from})[to := At(p.vmas[from], to, len)],
            map a | a in (p.mem.Keys - AddressRange(from, len)) + AddressRange(to, len) ::
              if to <= a < to + len then p.mem[from + (a - to)] else p.mem[a])
  }

  // A store. The page becomes a private, dirty one.
  function Store(p: Process, addr: nat, word: nat): Process {
    p.(mem := p.mem[addr := Cell(word, true)])
  }

  // mprotect over one whole mapping.
  function Protect(p: Process, start: nat, perms: set<Protection>): Process
    requires start in p.vmas
  {
    p.(vmas := p.vmas[start := p.vmas[start].(perms := perms)])
  }
}
