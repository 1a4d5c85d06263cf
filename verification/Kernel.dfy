/**
 The system calls the hook manager makes, as the kernel promises them. Any call may fail; a
 failure leaves the address space alone and is counted.
 */
module Kernel {
  import opened Options
  import opened AddressSpace

  class Memory {
    var process: Process
    var failures: nat       // calls and accesses that failed
    var lostMoves: nat      // mremap calls that failed without a second try

    constructor (process: Process)
      ensures this.process == process && failures == 0 && lostMoves == 0
    {
      this.process := process;
      failures, lostMoves := 0, 0;
    }

    // mmap(nullptr, len, perms, MAP_PRIVATE | MAP_ANON)
    method MapSomewhere(len: nat, perms: set<Protection>) returns (r: Option<nat>)
      modifies this
      ensures lostMoves == old(lostMoves)
      ensures r.None? ==> process == old(process) && failures == old(failures) + 1
      ensures r.Some? ==> failures == old(failures) && Fresh(old(process), r.value, len)
      ensures r.Some? ==> process == MapAnonymous(old(process), r.value, len, perms)
    {
      var at: nat := *;
      if Fresh(process, at, len) {
        process := MapAnonymous(process, at, len, perms);
        return Some(at);
      }
      failures := failures + 1;
      return None;
    }

    // mmap(at, len, perms, MAP_PRIVATE | MAP_FIXED | MAP_ANON)
    method MapFixed(at: nat, len: nat, perms: set<Protection>) returns (ok: bool)
      modifies this
      ensures lostMoves == old(lostMoves)
      ensures !ok ==> process == old(process) && failures == old(failures) + 1
      ensures ok ==> failures == old(failures) && process == MapAnonymous(old(process), at, len, perms)
    {
      ok := *;
      if ok {
        process := MapAnonymous(process, at, len, perms);
      } else {
        failures := failures + 1;
      }
    }

    // mremap(from, len, len, MREMAP_FIXED | MREMAP_MAYMOVE | MREMAP_DONTUNMAP, to): pages move, and
    // an empty mapping stays behind. A refusal is not counted: the caller tries again without it.
    method RemapKeeping(from: nat, to: nat, len: nat) returns (ok: bool)
      modifies this
      ensures failures == old(failures) && lostMoves == old(lostMoves)
      ensures !ok ==> process == old(process)
      ensures ok ==> CanMove(old(process), from, to, len)
      ensures ok ==> process == MapAnonymous(Move(old(process), from, to, len), from, len, old(process).vmas[from].perms)
    {
      ok := *;
      ok := ok && CanMove(process, from, to, len);
      if ok {
        process := MapAnonymous(Move(process, from, to, len), from, len, process.vmas[from].perms);
      }
    }

    // mremap(from, len, len, MREMAP_FIXED | MREMAP_MAYMOVE, to)
    method Remap(from: nat, to: nat, len: nat) returns (ok: bool)
      modifies this
      ensures !ok ==> process == old(process) && failures == old(failures) + 1 && lostMoves == old(lostMoves) + 1
      ensures ok ==> failures == old(failures) && lostMoves == old(lostMoves)
      ensures ok ==> CanMove(old(process), from, to, len) && process == Move(old(process), from, to, len)
    {
      ok := *;
      ok := ok && CanMove(process, from, to, len);
      if ok {
        process := Move(process, from, to, len);
      } else {
        failures, lostMoves := failures + 1, lostMoves + 1;
      }
    }

    // mprotect over one mapping
    method Mprotect(start: nat, perms: set<Protection>) returns (ok: bool)
      modifies this
      ensures lostMoves == old(lostMoves)
      ensures !ok ==> process == old(process) && failures == old(failures) + 1
      ensures ok ==> failures == old(failures) && start in old(process).vmas
      ensures ok ==> process == Protect(old(process), start, perms)
    {
      ok := *;
      ok := ok && start in process.vmas;
      if ok {
        process := Protect(process, start, perms);
      } else {
        failures := failures + 1;
      }
    }

    // A load; a fault is counted as a failure.
    method Load(addr: nat) returns (r: Option<nat>)
      modifies this
      ensures process == old(process) && lostMoves == old(lostMoves)
      ensures addr in process.mem ==> r == Some(process.mem[addr].word) && failures == old(failures)
      ensures addr !in process.mem ==> r == None && failures == old(failures) + 1
    {
      if addr in process.mem {
        return Some(process.mem[addr].word);
      }
      failures := failures + 1;
      return None;
    }

    method Put(addr: nat, word: nat)
      modifies this
      ensures process == Store(old(process), addr, word)
      ensures failures == old(failures) && lostMoves == old(lostMoves)
    {
      process := Store(process, addr, word);
    }

    // memcpy of one page; the words arrive, on dirty pages.
    method CopyPage(dest: nat, src: nat)
      requires forall a :: src <= a < src + PAGE_SIZE ==> a in process.mem
      modifies this
      ensures failures == old(failures) && lostMoves == old(lostMoves)
      ensures process.vmas == old(process).vmas
      ensures process.mem.Keys == old(process).mem.Keys + AddressRange(dest, PAGE_SIZE)
      ensures forall a {:trigger process.mem[a]} :: a in process.mem ==>
                process.mem[a] == if dest <= a < dest + PAGE_SIZE
                                  then Cell(old(process).mem[src + (a - dest)].word, true)
                                  else old(process).mem[a]
    {
      process := process.(mem := map a | a in process.mem.Keys + AddressRange(dest, PAGE_SIZE) ::
        if dest <= a < dest + PAGE_SIZE then Cell(process.mem[src + (a - dest)].word, true) else process.mem[a]);
    }
  }
}
