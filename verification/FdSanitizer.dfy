/**
 Descriptors across a fork: what was open at the fork may stay, what was opened since is closed
 unless it was exempted. fork_pre, exempt_fd and sanitize_fds.
 */
module FdSanitizer {
  import opened Options

  predicate InRange(fd: int, size: nat) {
    0 <= fd < size
  }

  // The entries of /proc/self/fd as parse_int reads them: the open descriptors, the directory's own,
  // and 0 for the entries "." and "..".
  ghost predicate ListsDescriptors(entries: seq<int>, open: set<int>, dfd: int) {
    && (forall fd :: fd in open ==> fd in entries)
    && (forall fd :: fd in entries ==> fd in open || fd == dfd || fd == 0)
    && 0 in entries && dfd in entries
  }

  // ----- as functions -----

  function AllowedAtFork(size: nat, entries: seq<int>, dfd: int): (r: seq<bool>)
    ensures |r| == size && forall fd :: 0 <= fd < size ==> (r[fd] <==> fd in entries && fd != dfd)
  {
    seq(size, fd => fd in entries && fd != dfd)
  }

  // What sanitize_fds adds to the allowed descriptors.
  predicate AllowedNow(allowed: seq<bool>, canExempt: bool, exempted: seq<int>, ignore: Option<seq<int>>,
                       arrayMade: bool, fd: int)
  {
    InRange(fd, |allowed|) &&
    (allowed[fd] ||
     (canExempt && exempted != [] &&
      ((ignore.Some? && fd in ignore.value) || (arrayMade && fd in exempted))))
  }

  function IgnoreNow(canExempt: bool, exempted: seq<int>, ignore: Option<seq<int>>, arrayMade: bool): Option<seq<int>> {
    if canExempt && exempted != [] && arrayMade then
      Some((if ignore.Some? then ignore.value else []) + exempted)
    else ignore
  }

  // ----- the context -----

  class Context {
    var open: set<int>               // the process's descriptors
    const allowed: array<bool>
    var exempted: seq<int>
    var ignore: Option<seq<int>>     // *fds_to_ignore; None is a null array
    const hasIgnore: bool            // the Java method has an fds_to_ignore argument
    var isChild: bool
    var appFork: bool                // APP_FORK_AND_SPECIALIZE
    var late: bool                   // POST_SPECIALIZE or SKIP_CLOSE_LOG_PIPE

    constructor (size: nat, open: set<int>, hasIgnore: bool, ignore: Option<seq<int>>)
      ensures fresh(allowed) && allowed.Length == size && forall fd :: 0 <= fd < size ==> !allowed[fd]
      ensures this.open == open && exempted == [] && this.ignore == ignore && this.hasIgnore == hasIgnore
      ensures !isChild && !appFork && !late
    {
      this.open, this.hasIgnore, this.ignore := open, hasIgnore, ignore;
      allowed := new bool[size](_ => false);
      exempted, isChild, appFork, late := [], false, false, false;
    }

    predicate CanExempt()
      reads this
    {
      appFork && hasIgnore
    }

    // The child's half of fork_pre: what is open now may stay open. The listing's own directory
    // descriptor is closed when the listing ends.
    method ForkPre(child: bool, entries: seq<int>, dfd: int)
      requires InRange(dfd, allowed.Length) && dfd !in open && ListsDescriptors(entries, open, dfd)
      requires forall fd :: 0 <= fd < allowed.Length ==> !allowed[fd]
      modifies this`open, this`isChild, allowed
      ensures isChild == child
      ensures child ==> allowed[..] == AllowedAtFork(allowed.Length, entries, dfd)
      ensures child ==> forall fd :: 0 <= fd < allowed.Length ==> (allowed[fd] <==> fd in entries && fd != dfd)
      ensures child ==> open == set fd | fd in old(open) && 0 <= fd < allowed.Length
      ensures !child ==> allowed[..] == old(allowed[..]) && open == old(open)
    {
      isChild := child;
      if !child {
        return;
      }
      var i := 0;
      while i < |entries|
        invariant 0 <= i <= |entries|
        invariant forall fd :: 0 <= fd < allowed.Length ==> (allowed[fd] <==> fd in entries[..i])
        invariant isChild == child
        invariant open == set fd | fd in old(open) && (fd !in entries[..i] || InRange(fd, allowed.Length))
      {
        var fd := entries[i];
        assert entries[..i + 1] == entries[..i] + [fd];
        i := i + 1;
        if fd < 0 || fd >= allowed.Length {
          open := open - {fd};
          continue;
        }
        allowed[fd] := true;
      }
      assert entries[..i] == entries;
      allowed[dfd] := false;
    }

    // Exempting is refused without an fds_to_ignore argument, and pointless once it is too late.
    method ExemptFd(fd: int) returns (ok: bool)
      modifies this`exempted
      ensures ok <==> late || CanExempt()
      ensures exempted == if !late && CanExempt() then old(exempted) + [fd] else old(exempted)
    {
      if late {
        return true;
      }
      if !CanExempt() {
        return false;
      }
      exempted := exempted + [fd];
      return true;
    }

    // Marks the descriptors of a list that are in range.
    method AllowAll(fds: seq<int>)
      modifies allowed
      ensures forall fd :: 0 <= fd < allowed.Length ==> (allowed[fd] <==> old(allowed[fd]) || fd in fds)
    {
      var i := 0;
      while i < |fds|
        invariant 0 <= i <= |fds|
        invariant forall fd :: 0 <= fd < allowed.Length ==> (allowed[fd] <==> old(allowed[fd]) || fd in fds[..i])
      {
        assert fds[..i + 1] == fds[..i] + [fds[i]];
        if fds[i] >= 0 && fds[i] < allowed.Length {
          allowed[fds[i]] := true;
        }
        i := i + 1;
      }
      assert fds[..i] == fds;
    }

    // The exemptions of sanitize_fds; arrayMade is whether NewIntArray returns an array.
    method TakeExemptions(arrayMade: bool)
      modifies this`ignore, allowed
      ensures ignore == IgnoreNow(CanExempt(), exempted, old(ignore), arrayMade)
      ensures forall fd :: 0 <= fd < allowed.Length ==>
                (allowed[fd] <==> AllowedNow(old(allowed[..]), CanExempt(), exempted, old(ignore), arrayMade, fd))
    {
      if CanExempt() && exempted != [] {
        var before := if ignore.Some? then ignore.value else [];
        if ignore.Some? {
          AllowAll(before);
        }
        if arrayMade {
          AllowAll(exempted);
          ignore := Some(before + exempted);
        }
      }
    }

    /** A descriptor survives in the child exactly when it is allowed, by the fork, by an exemption,
        or by the caller's own list once there is an exemption. */
    method SanitizeFds(entries: seq<int>, dfd: int, arrayMade: bool)
      requires dfd !in open && ListsDescriptors(entries, open, dfd)
      modifies this`ignore, this`open, allowed
      ensures !isChild ==> open == old(open) && ignore == old(ignore)
      ensures isChild ==> forall fd :: fd in open <==>
                fd in old(open) && AllowedNow(old(allowed[..]), CanExempt(), exempted, old(ignore), arrayMade, fd)
      ensures isChild ==> forall fd :: fd in open ==> 0 <= fd < allowed.Length
      ensures isChild && appFork && hasIgnore && exempted != [] && arrayMade ==>
                ignore == Some((match old(ignore) case None => [] case Some(fds) => fds) + exempted)
      ensures !(isChild && appFork && hasIgnore && exempted != [] && arrayMade) ==> ignore == old(ignore)
    {
      if !isChild {
        return;
      }
      TakeExemptions(arrayMade);
      ghost var keep := set fd | fd in open && AllowedNow(old(allowed[..]), CanExempt(), exempted, old(ignore), arrayMade, fd);
      var i := 0;
      while i < |entries|
        invariant 0 <= i <= |entries|
        invariant forall fd :: fd in open <==> fd in old(open) && (fd in keep || fd !in entries[..i])
        invariant forall fd :: 0 <= fd < allowed.Length ==>
                    (allowed[fd] <==> AllowedNow(old(allowed[..]), CanExempt(), exempted, old(ignore), arrayMade, fd))
        invariant ignore == IgnoreNow(CanExempt(), exempted, old(ignore), arrayMade)
      {
        var fd := entries[i];
        assert entries[..i + 1] == entries[..i] + [fd];
        i := i + 1;
        if (fd < 0 || fd >= allowed.Length || !allowed[fd]) && fd != dfd {
          open := open - {fd};
        }
      }
      assert entries[..i] == entries;
    }
  }

  // ----- from the fork to the sanitising -----

  // Between the two, the child opens and closes descriptors, and modules ask for exemptions.
  datatype Event = Open(fd: int) | Close(fd: int) | Exempt(fd: int, late: bool)

  datatype Child = Child(open: set<int>, exempted: seq<int>)

  function Happen(c: Child, canExempt: bool, e: Event): Child {
    match e
    case Open(fd) => c.(open := c.open + {fd})
    case Close(fd) => c.(open := c.open - {fd})
    case Exempt(fd, late) => if !late && canExempt then c.(exempted := c.exempted + [fd]) else c
  }

  function HappenAll(c: Child, canExempt: bool, es: seq<Event>): Child
    decreases |es|
  {
    if es == [] then c else HappenAll(Happen(c, canExempt, es[0]), canExempt, es[1..])
  }

  predicate WasExempted(canExempt: bool, es: seq<Event>, fd: int) {
    canExempt && exists i :: 0 <= i < |es| && es[i] == Exempt(fd, false)
  }

  lemma {:induction false} ExemptedExactly(c: Child, canExempt: bool, es: seq<Event>, fd: int)
    ensures fd in HappenAll(c, canExempt, es).exempted <==> fd in c.exempted || WasExempted(canExempt, es, fd)
    decreases |es|
  {
    if es != [] {
      ExemptedExactly(Happen(c, canExempt, es[0]), canExempt, es[1..], fd);
      if WasExempted(canExempt, es, fd) {
        var i :| 0 <= i < |es| && es[i] == Exempt(fd, false);
        assert i > 0 ==> es[1..][i - 1] == es[i];
      }
      if WasExempted(canExempt, es[1..], fd) {
        var i :| 0 <= i < |es[1..]| && es[1..][i] == Exempt(fd, false);
        assert es[i + 1] == es[1..][i];
      }
    }
  }

  /** An open in-range descriptor survives iff it was open at the fork, or is 0, or was exempted and the
      new array could be made, or is in the caller's list while there is some exemption. */
  lemma SurvivesExactly(size: nat, openAtFork: set<int>, entries: seq<int>, dfd: int, canExempt: bool,
                        es: seq<Event>, ignore: Option<seq<int>>, arrayMade: bool, fd: int)
    requires ListsDescriptors(entries, openAtFork, dfd) && dfd !in openAtFork
    requires 0 <= fd < size && fd in HappenAll(Child(openAtFork, []), canExempt, es).open
    ensures var c := HappenAll(Child(openAtFork, []), canExempt, es);
            AllowedNow(AllowedAtFork(size, entries, dfd), canExempt, c.exempted, ignore, arrayMade, fd) <==>
            ((fd in openAtFork || fd == 0) && fd != dfd) || (arrayMade && WasExempted(canExempt, es, fd)) ||
            (ignore.Some? && fd in ignore.value && exists x :: WasExempted(canExempt, es, x))
  {
    var c := HappenAll(Child(openAtFork, []), canExempt, es);
    ExemptedExactly(Child(openAtFork, []), canExempt, es, fd);
    if c.exempted != [] {
      ExemptedExactly(Child(openAtFork, []), canExempt, es, c.exempted[0]);
      assert WasExempted(canExempt, es, c.exempted[0]);
    }
    if x :| WasExempted(canExempt, es, x) {
      ExemptedExactly(Child(openAtFork, []), canExempt, es, x);
    }
  }
}
