/**
 Which loaded ELF stands in as the caller of a forced dlopen: one best match per rule list, found
 in one pass that may stop early.
 */
module LinkerCallers {
  import opened Options

  datatype Rule = Prefix(value: string) | Suffix(value: string)

  datatype Segment = Segment(isLoad: bool, vaddr: nat)

  datatype ElfName = ElfName(bias: nat, name: Option<string>, phdrs: seq<Segment>)

  // addr is None for NULL; cursor is the number of rules still worth trying.
  datatype Caller = Caller(addr: Option<nat>, rules: seq<Rule>, cursor: nat)

  predicate Applies(rule: Rule, name: string) {
    match rule
    case Prefix(v) => v <= name
    case Suffix(v) => |v| <= |name| && name[|name| - |v|..] == v
  }

  function FirstLoad(phdrs: seq<Segment>): Option<nat> {
    if phdrs == [] then None
    else if phdrs[0].isLoad then Some(phdrs[0].vaddr)
    else FirstLoad(phdrs[1..])
  }

  function CallerAddr(e: ElfName): Option<nat> {
    match FirstLoad(e.phdrs)
    case None => None
    case Some(vaddr) => Some(e.bias + vaddr)
  }

  // ELFs that can stand in: with a bias, a name and a loaded segment.
  predicate Usable(e: ElfName) {
    e.bias != 0 && e.name.Some? && CallerAddr(e).Some?
  }

  predicate WellFormedCaller(c: Caller) {
    c.cursor <= |c.rules|
  }

  // The lowest rule below the cursor that applies to a name.
  function LowestRule(rules: seq<Rule>, cursor: nat, name: string, j: nat): (r: Option<nat>)
    requires cursor <= |rules|
    ensures r.Some? ==> j <= r.value < cursor && Applies(rules[r.value], name)
    ensures r.Some? ==> forall k :: j <= k < r.value ==> !Applies(rules[k], name)
    ensures r.None? ==> forall k :: j <= k < cursor ==> !Applies(rules[k], name)
    decreases cursor - j
  {
    if j >= cursor then None
    else if Applies(rules[j], name) then Some(j)
    else LowestRule(rules, cursor, name, j + 1)
  }

  // One ELF shown to one caller.
  function Offer(c: Caller, e: ElfName): (c': Caller)
    requires WellFormedCaller(c)
    ensures WellFormedCaller(c') && c'.rules == c.rules && c'.cursor <= c.cursor
  {
    if !Usable(e) then c
    else
      match LowestRule(c.rules, c.cursor, e.name.value, 0)
      case None => c
      case Some(j) => c.(addr := CallerAddr(e), cursor := j)
  }

  predicate Settled(c: Caller) {
    c.addr.Some? && c.cursor == 0
  }

  // ----- the callback -----

  method StartsWith(str: string, start: string) returns (r: bool)
    ensures r <==> start <= str
  {
    var i := 0;
    while i < |str| && i < |start| && str[i] == start[i]
      invariant 0 <= i <= |str| && i <= |start|
      invariant str[..i] == start[..i]
    {
      i := i + 1;
    }
    r := i == |start|;
  }

  method GetCallerAddr(e: ElfName) returns (r: Option<nat>)
    ensures r == CallerAddr(e)
  {
    var i := 0;
    while i < |e.phdrs|
      invariant 0 <= i <= |e.phdrs|
      invariant FirstLoad(e.phdrs) == FirstLoad(e.phdrs[i..])
    {
      assert e.phdrs[i..][1..] == e.phdrs[i + 1..];
      if e.phdrs[i].isLoad {
        return Some(e.bias + e.phdrs[i].vaddr);
      }
      i := i + 1;
    }
    r := None;
  }

  // The inner loop: the cursor falls at the first rule that applies, which ends the loop.
  method ShowTo(c: Caller, e: ElfName) returns (c': Caller)
    requires WellFormedCaller(c) && e.bias != 0 && e.name.Some?
    ensures c' == Offer(c, e)
  {
    c' := c;
    var j := 0;
    while j < c'.cursor
      invariant c'.rules == c.rules && c'.cursor <= c.cursor
      invariant c' == c ==> LowestRule(c.rules, c.cursor, e.name.value, 0) == LowestRule(c.rules, c.cursor, e.name.value, j) || !Usable(e)
      invariant c' != c ==> j == c'.cursor + 1 && c' == Offer(c, e)
      decreases c'.cursor - j
    {
      var applies := false;
      match c.rules[j] {
        case Prefix(v) =>
          applies := StartsWith(e.name.value, v);
        case Suffix(v) =>
          applies := |v| <= |e.name.value| && e.name.value[|e.name.value| - |v|..] == v;
      }
      if applies {
        var addr := GetCallerAddr(e);
        if addr.Some? {
          c' := c'.(addr := addr, cursor := j);
        }
      }
      j := j + 1;
    }
  }

  // ----- all callers, all ELFs -----

  function OfferAll(cs: seq<Caller>, e: ElfName): (r: seq<Caller>)
    requires forall i :: 0 <= i < |cs| ==> WellFormedCaller(cs[i])
    ensures |r| == |cs| && forall i :: 0 <= i < |cs| ==> r[i] == Offer(cs[i], e)
  {
    seq(|cs|, i requires 0 <= i < |cs| => Offer(cs[i], e))
  }

  // The callback of the iteration over ELFs, on the table of callers; 1 means stop.
  method GetCallerAddrCallback(callers: array<Caller>, e: ElfName) returns (stop: bool)
    requires forall i :: 0 <= i < callers.Length ==> WellFormedCaller(callers[i])
    modifies callers
    ensures callers[..] == OfferAll(old(callers[..]), e)
    ensures stop <==> e.bias != 0 && e.name.Some? &&
                      forall i :: 0 <= i < callers.Length ==> callers[i].addr.Some? && callers[i].cursor == 0
  {
    ghost var before := callers[..];
    if e.bias == 0 || e.name.None? {
      assert callers[..] == OfferAll(before, e);
      return false;
    }
    stop := true;
    var i := 0;
    while i < callers.Length
      invariant 0 <= i <= callers.Length
      invariant forall k :: 0 <= k < i ==> callers[k] == Offer(before[k], e)
      invariant forall k :: i <= k < callers.Length ==> callers[k] == before[k]
      invariant stop <==> forall k :: 0 <= k < i ==> Settled(callers[k])
    {
      var caller := ShowTo(callers[i], e);
      callers[i] := caller;
      if caller.addr.None? || caller.cursor != 0 {
        stop := false;
      }
      i := i + 1;
    }
    assert callers[..] == OfferAll(before, e);
  }

  // Every ELF shown in turn.
  function OfferEach(c: Caller, es: seq<ElfName>): (c': Caller)
    requires WellFormedCaller(c)
    ensures WellFormedCaller(c') && c'.rules == c.rules && c'.cursor <= c.cursor
    decreases |es|
  {
    if es == [] then c else OfferEach(Offer(c, es[0]), es[1..])
  }

  lemma {:induction false} SettledStays(c: Caller, es: seq<ElfName>)
    requires WellFormedCaller(c) && c.cursor == 0
    ensures OfferEach(c, es) == c
    decreases |es|
  {
    if es != [] {
      SettledStays(c, es[1..]);
    }
  }

  /** Stopping when the callback says so leaves what visiting every ELF would leave. */
  method InitCallerAddr(callers: array<Caller>, es: seq<ElfName>)
    requires forall i :: 0 <= i < callers.Length ==> WellFormedCaller(callers[i])
    modifies callers
    ensures forall i :: 0 <= i < callers.Length ==> callers[i] == OfferEach(old(callers[i]), es)
    ensures forall i :: 0 <= i < callers.Length && old(callers[i]) == Caller(None, old(callers[i]).rules, |old(callers[i]).rules|) ==>
              HasBest(old(callers[i]).rules, es, callers[i])
  {
    forall i | 0 <= i < callers.Length
      ensures HasBest(callers[i].rules, es, OfferEach(Caller(None, callers[i].rules, |callers[i].rules|), es))
    {
      BestStandsIn(callers[i].rules, es);
    }
    var n := 0;
    while n < |es|
      invariant 0 <= n <= |es|
      invariant forall i :: 0 <= i < callers.Length ==> WellFormedCaller(callers[i])
      invariant forall i :: 0 <= i < callers.Length ==> OfferEach(old(callers[i]), es) == OfferEach(callers[i], es[n..])
    {
      assert es[n..][1..] == es[n + 1..];
      ghost var before := callers[..];
      var stop := GetCallerAddrCallback(callers, es[n]);
      forall i | 0 <= i < callers.Length
        ensures callers[i] == Offer(before[i], es[n])
      {
        assert callers[..][i] == callers[i];
      }
      n := n + 1;
      if stop {
        forall i | 0 <= i < callers.Length
          ensures OfferEach(callers[i], es[n..]) == callers[i]
        {
          assert Settled(callers[..][i]);
          SettledStays(callers[i], es[n..]);
        }
        return;
      }
    }
  }

  // ----- what the pass finds -----

  // ELF m is usable and rule j applies to it.
  predicate Fits(rules: seq<Rule>, es: seq<ElfName>, m: nat, j: nat)
    requires m < |es| && j < |rules|
  {
    Usable(es[m]) && Applies(rules[j], es[m].name.value)
  }

  // Rule j is the lowest that fits any ELF, and ELF m is the first it fits.
  ghost predicate Best(rules: seq<Rule>, es: seq<ElfName>, m: nat, j: nat)
    requires m < |es| && j < |rules|
  {
    && Fits(rules, es, m, j)
    && (forall k, i :: 0 <= k < |es| && 0 <= i < j ==> !Fits(rules, es, k, i))
    && (forall k :: 0 <= k < m ==> !Fits(rules, es, k, j))
  }

  ghost predicate Found(start: Caller, es: seq<ElfName>, c: Caller) {
    && WellFormedCaller(start) && c.rules == start.rules
    && if c.cursor == start.cursor then
         c == start && forall k, i :: 0 <= k < |es| && 0 <= i < start.cursor ==> !Fits(c.rules, es, k, i)
       else
         c.cursor < start.cursor && exists m :: 0 <= m < |es| && Best(c.rules, es, m, c.cursor) && c.addr == CallerAddr(es[m])
  }

  lemma FoundNext(start: Caller, es: seq<ElfName>, c: Caller, e: ElfName)
    requires Found(start, es, c) && WellFormedCaller(c)
    ensures Found(start, es + [e], Offer(c, e))
  {
    var all, c' := es + [e], Offer(c, e);
    assert forall k :: 0 <= k < |es| ==> all[k] == es[k];
    assert all[|es|] == e;
    if c' == c {
      if c.cursor != start.cursor {
        var m :| 0 <= m < |es| && Best(c.rules, es, m, c.cursor) && c.addr == CallerAddr(es[m]);
        OfferedNothing(c, e);
        StillBest(c.rules, es, e, m, c.cursor);
      } else {
        OfferedNothing(c, e);
        forall k, i | 0 <= k < |all| && 0 <= i < start.cursor
          ensures !Fits(c.rules, all, k, i)
        {
          assert k < |es| ==> !Fits(c.rules, es, k, i);
        }
      }
    } else {
      NewBest(start, es, c, e);
    }
  }

  lemma OfferedNothing(c: Caller, e: ElfName)
    requires WellFormedCaller(c) && Offer(c, e) == c
    ensures forall i :: 0 <= i < c.cursor ==> !(Usable(e) && Applies(c.rules[i], e.name.value))
  {
  }

  lemma StillBest(rules: seq<Rule>, es: seq<ElfName>, e: ElfName, m: nat, j: nat)
    requires m < |es| && j < |rules| && Best(rules, es, m, j)
    requires forall i :: 0 <= i < j ==> !(Usable(e) && Applies(rules[i], e.name.value))
    ensures Best(rules, es + [e], m, j)
  {
    var all := es + [e];
    forall k, i | 0 <= k < |all| && 0 <= i < j
      ensures !Fits(rules, all, k, i)
    {
      assert k < |es| ==> all[k] == es[k] && !Fits(rules, es, k, i);
    }
    forall k | 0 <= k < m
      ensures !Fits(rules, all, k, j)
    {
      assert all[k] == es[k] && !Fits(rules, es, k, j);
    }
  }

  lemma NewBest(start: Caller, es: seq<ElfName>, c: Caller, e: ElfName)
    requires Found(start, es, c) && WellFormedCaller(c) && Offer(c, e) != c
    ensures Found(start, es + [e], Offer(c, e))
  {
    var all, j := es + [e], Offer(c, e).cursor;
    forall k, i | 0 <= k < |es| && 0 <= i <= j
      ensures !Fits(c.rules, all, k, i)
    {
      assert all[k] == es[k] && !Fits(c.rules, es, k, i);
    }
    forall i | 0 <= i < j
      ensures !Fits(c.rules, all, |es|, i)
    {
    }
    assert Best(c.rules, all, |es|, j);
  }

  lemma {:induction false} PassFinds(start: Caller, es: seq<ElfName>, seen: seq<ElfName>, c: Caller)
    requires Found(start, seen, c) && WellFormedCaller(c)
    ensures Found(start, seen + es, OfferEach(c, es))
    decreases |es|
  {
    if es == [] {
      assert seen + es == seen;
    } else {
      FoundNext(start, seen, c, es[0]);
      PassFinds(start, es[1..], seen + [es[0]], Offer(c, es[0]));
      assert seen + [es[0]] + es[1..] == seen + es;
    }
  }

  // The ELF has a bias, a name that the rule matches, and a loaded segment.
  ghost predicate StandsIn(rule: Rule, e: ElfName) {
    && e.bias != 0 && e.name.Some?
    && (exists i :: 0 <= i < |e.phdrs| && e.phdrs[i].isLoad)
    && match rule
       case Prefix(v) => exists rest :: e.name.value == v + rest
       case Suffix(v) => exists start :: e.name.value == start + v
  }

  // Segment i is the first loaded one.
  predicate IsFirstLoad(phdrs: seq<Segment>, i: nat) {
    i < |phdrs| && phdrs[i].isLoad && forall j :: 0 <= j < i ==> !phdrs[j].isLoad
  }

  lemma {:induction false} FirstLoadAt(phdrs: seq<Segment>)
    ensures FirstLoad(phdrs).Some? <==> exists i :: 0 <= i < |phdrs| && phdrs[i].isLoad
    ensures forall i: nat :: IsFirstLoad(phdrs, i) ==> FirstLoad(phdrs) == Some(phdrs[i].vaddr)
    decreases |phdrs|
  {
    if phdrs != [] && !phdrs[0].isLoad {
      FirstLoadAt(phdrs[1..]);
      forall i: nat | IsFirstLoad(phdrs, i)
        ensures IsFirstLoad(phdrs[1..], i - 1) && phdrs[1..][i - 1] == phdrs[i]
      {
      }
      if i :| 0 <= i < |phdrs| && phdrs[i].isLoad {
        assert phdrs[1..][i - 1].isLoad;
      }
    }
  }

  lemma AppliesExactly(rule: Rule, name: string)
    ensures Applies(rule, name) <==>
            match rule
            case Prefix(v) => exists rest :: name == v + rest
            case Suffix(v) => exists start :: name == start + v
  {
    if Applies(rule, name) {
      match rule
      case Prefix(v) => assert name == v + name[|v|..];
      case Suffix(v) => assert name == name[..|name| - |v|] + v;
    }
  }

  lemma FitsExactly(rules: seq<Rule>, es: seq<ElfName>, m: nat, j: nat)
    requires m < |es| && j < |rules|
    ensures Fits(rules, es, m, j) <==> StandsIn(rules[j], es[m])
  {
    FirstLoadAt(es[m].phdrs);
    if es[m].name.Some? {
      AppliesExactly(rules[j], es[m].name.value);
    }
  }

  // The caller has the address of the first loaded segment of the first ELF that stands in under its lowest
  // rule; under that rule and the lower ones no earlier ELF does, and under the lower ones no ELF at all.
  ghost predicate HasBest(rules: seq<Rule>, es: seq<ElfName>, c: Caller) {
    if c.addr.None? then forall m, j :: 0 <= m < |es| && 0 <= j < |rules| ==> !StandsIn(rules[j], es[m])
    else
      && c.cursor < |rules|
      && exists m :: 0 <= m < |es| && IsBest(rules, es, c, m)
  }

  ghost predicate IsBest(rules: seq<Rule>, es: seq<ElfName>, c: Caller, m: nat)
    requires c.cursor < |rules| && m < |es|
  {
    && StandsIn(rules[c.cursor], es[m])
    && (forall k, j :: 0 <= k < |es| && 0 <= j < c.cursor ==> !StandsIn(rules[j], es[k]))
    && (forall k :: 0 <= k < m ==> !StandsIn(rules[c.cursor], es[k]))
    && forall i: nat :: IsFirstLoad(es[m].phdrs, i) ==> c.addr == Some(es[m].bias + es[m].phdrs[i].vaddr)
  }

  /** Starting from scratch, a caller ends with the address of the first ELF that attains its
      lowest matching rule, or with none when no rule matches any ELF. */
  lemma BestMatch(rules: seq<Rule>, es: seq<ElfName>)
    ensures var c := OfferEach(Caller(None, rules, |rules|), es);
            && (c.addr.None? <==> forall m, j :: 0 <= m < |es| && 0 <= j < |rules| ==> !Fits(rules, es, m, j))
            && (c.addr.Some? ==> c.cursor < |rules|)
            && (c.addr.Some? ==>
                  exists m :: 0 <= m < |es| && Best(rules, es, m, c.cursor) && c.addr == CallerAddr(es[m]))
  {
    var start := Caller(None, rules, |rules|);
    assert [] + es == es;
    PassFinds(start, es, [], start);
    var c := OfferEach(start, es);
    if c.cursor != start.cursor {
      var m :| 0 <= m < |es| && Best(rules, es, m, c.cursor) && c.addr == CallerAddr(es[m]);
      assert Fits(rules, es, m, c.cursor);
    }
  }

  lemma BestIsBest(rules: seq<Rule>, es: seq<ElfName>, c: Caller, m: nat)
    requires c.cursor < |rules| && m < |es| && Best(rules, es, m, c.cursor) && c.addr == CallerAddr(es[m])
    ensures IsBest(rules, es, c, m)
  {
    FitsExactly(rules, es, m, c.cursor);
    FirstLoadAt(es[m].phdrs);
    forall k, j | 0 <= k < |es| && 0 <= j < c.cursor
      ensures !StandsIn(rules[j], es[k])
    {
      FitsExactly(rules, es, k, j);
    }
    forall k | 0 <= k < m
      ensures !StandsIn(rules[c.cursor], es[k])
    {
      FitsExactly(rules, es, k, c.cursor);
    }
  }

  /** The same by prefixes, suffixes and segments alone. */
  lemma BestStandsIn(rules: seq<Rule>, es: seq<ElfName>)
    ensures HasBest(rules, es, OfferEach(Caller(None, rules, |rules|), es))
  {
    var c := OfferEach(Caller(None, rules, |rules|), es);
    BestMatch(rules, es);
    if c.addr.Some? {
      var m :| 0 <= m < |es| && Best(rules, es, m, c.cursor) && c.addr == CallerAddr(es[m]);
      BestIsBest(rules, es, c, m);
    } else {
      forall m, j | 0 <= m < |es| && 0 <= j < |rules|
        ensures !StandsIn(rules[j], es[m])
      {
        FitsExactly(rules, es, m, j);
      }
    }
  }
}
