/**
 The images loaded in the process, by the address of their ELF header. Headers and symbol tables
 are read-only, so an image parsed once stays what it is.
 */
module LoadedImages {
  import opened ElfTables
  import opened ElfUtil

  datatype Images = Images(elves: map<nat, Elf>)

  // Valid images have well-formed hash tables.
  ghost predicate AllUsable(images: Images) {
    forall k :: k in images.elves && images.elves[k].valid ==> Indexed(images.elves[k])
  }

  // The slots of a symbol in the image loaded at base; none when the image is not valid.
  ghost function SlotsAt(images: Images, base: nat, name: Name): seq<nat> {
    if base in images.elves && images.elves[base].valid && Indexed(images.elves[base]) then
      PltSlots(images.elves[base], name)
    else []
  }

  // The image loaded at base is valid, and address a is a slot of its symbol of that name.
  ghost predicate IsSlotAt(images: Images, base: nat, name: Name, a: nat) {
    && base in images.elves && images.elves[base].valid && Indexed(images.elves[base])
    && IsSlotOfName(images.elves[base], name, a)
  }

  /** The slots found are those of the image, and no others. */
  lemma SlotsAtExactly(images: Images, base: nat, name: Name, a: nat)
    ensures a in SlotsAt(images, base, name) <==> IsSlotAt(images, base, name, a)
  {
    if base in images.elves && Indexed(images.elves[base]) {
      PltSlotsExactly(images.elves[base], name, a);
    }
  }

  method FindSlots(images: Images, base: nat, name: Name) returns (addrs: seq<nat>)
    requires AllUsable(images)
    ensures addrs == SlotsAt(images, base, name)
  {
    if base in images.elves && images.elves[base].valid {
      addrs := FindPltAddr(images.elves[base], name);
    } else {
      addrs := [];
    }
  }
}
