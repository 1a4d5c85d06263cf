/**
 The three loops that build the new table of regions: ScanHookInfo, Filter and Merge.
 */
module HookTables {
  import opened AddressSpace
  import opened HookState
  import opened HookCommit

  // A listing of the mappings of a process, one entry each.
  ghost predicate Lists(maps: seq<MapInfo>, vmas: map<nat, MapInfo>) {
    && (forall i :: 0 <= i < |maps| ==> maps[i].start in vmas && vmas[maps[i].start] == maps[i])
    && (forall v {:trigger v in vmas} :: v in vmas ==> vmas[v] in maps)
  }

  predicate DistinctStarts(maps: seq<MapInfo>) {
    forall i, j :: 0 <= i < j < |maps| ==> maps[i].start != maps[j].start
  }

  // The candidates among the first n mappings listed.
  ghost predicate ScannedSoFar(infos: Regions, maps: seq<MapInfo>, n: nat, me: FileId)
    requires n <= |maps|
  {
    && (forall i :: 0 <= i < n && IsCandidate(maps[i]) ==>
          maps[i].start in infos && infos[maps[i].start] == NewInfo(maps[i], me))
    && (forall k {:trigger k in infos} :: k in infos ==>
          exists i :: 0 <= i < n && IsCandidate(maps[i]) && maps[i].start == k)
  }

  method ScanHookInfo(maps: seq<MapInfo>, me: FileId) returns (infos: Regions)
    requires DistinctStarts(maps)
    ensures ScannedSoFar(infos, maps, |maps|, me)
  {
    infos := map[];
    var i := 0;
    while i < |maps|
      invariant 0 <= i <= |maps|
      invariant ScannedSoFar(infos, maps, i, me)
    {
      var m := maps[i];
      if !m.isPrivate || Read !in m.perms || m.path == "" || m.path[0] == '[' {
        i := i + 1;
        continue;
      }
      if m.start !in infos {
        infos := infos[m.start := NewInfo(m, me)];
      }
      i := i + 1;
    }
  }

  /** Scanning a true listing yields the candidates among the mappings of the process. */
  lemma ScanOfListing(infos: Regions, maps: seq<MapInfo>, me: FileId, vmas: map<nat, MapInfo>)
    requires ScannedSoFar(infos, maps, |maps|, me) && Lists(maps, vmas)
    requires forall v {:trigger v in vmas} :: v in vmas ==> vmas[v].start == v
    ensures infos == Scanned(vmas, me)
  {
    var scan := Scanned(vmas, me);
    forall k: nat
      ensures k in infos <==> k in scan
      ensures k in infos ==> infos[k] == scan[k]
    {
      if k in infos {
        var i :| 0 <= i < |maps| && IsCandidate(maps[i]) && maps[i].start == k;
      }
      if k in scan {
        var i :| 0 <= i < |maps| && maps[i] == vmas[k];
      }
    }
  }

  method Filter(infos: Regions, queue: seq<RegisterInfo>) returns (kept: Regions)
    ensures kept == Filtered(infos, queue)
  {
    kept := infos;
    var todo := infos.Keys;
    while todo != {}
      invariant todo <= infos.Keys
      invariant forall k: nat {:trigger k in kept} :: k in kept <==> k in infos && (k in todo || IsWanted(infos[k], queue))
      invariant forall k {:trigger k in kept} :: k in kept ==> kept[k] == infos[k]
      decreases todo
    {
      var k :| k in todo;
      var matched := false;
      var i := 0;
      while i < |queue|
        invariant 0 <= i <= |queue|
        invariant !matched && forall j :: 0 <= j < i ==> !infos[k].Match(queue[j])
      {
        if infos[k].Match(queue[i]) {
          matched := true;
          break;
        }
        i := i + 1;
      }
      if !matched {
        kept := kept - {k};
      }
      todo := todo - {k};
    }
  }

  // No old region starts where another one's backup image lies.
  ghost predicate BackupsAreNotKeys(former: Regions) {
    forall j, k {:trigger j in former, Backed(former, k)} :: j in former && Backed(former, k) ==> former[k].backup != j
  }

  // The merged table once the old regions in visited have been merged.
  ghost predicate MergedSoFar(infos: Regions, scan: Regions, former: Regions, visited: set<nat>) {
    && (forall k: nat {:trigger k in infos} :: k in infos <==>
          (k in scan && k !in BackupsOf(former, visited)) || (k in visited && k in former && former[k].backup != 0))
    && (forall k {:trigger k in infos} :: k in infos ==>
          if k in visited && k in former then infos[k] == former[k] else k in scan && infos[k] == scan[k])
  }

  ghost function BackupsOf(former: Regions, visited: set<nat>): set<nat> {
    set k | k in visited && k in former && former[k].backup != 0 :: former[k].backup
  }

  /** Merging visits the old regions one by one; in any order the outcome is the same. */
  method Merge(scan: Regions, former: Regions) returns (infos: Regions)
    ensures BackupsAreNotKeys(former) ==> infos == Merged(scan, former)
    ensures FromEither(infos, scan, former)
  {
    infos := scan;
    var todo := former.Keys;
    while todo != {}
      invariant todo <= former.Keys
      invariant BackupsAreNotKeys(former) ==> MergedSoFar(infos, scan, former, former.Keys - todo)
      invariant FromEither(infos, scan, former)
      decreases todo
    {
      var k :| k in todo;
      ghost var before := infos;
      infos := MergeOne(infos, former, k);
      MergeOneFrom(before, scan, former, k);
      if BackupsAreNotKeys(former) {
        MergedOneMore(before, infos, scan, former, former.Keys - todo, k);
        assert former.Keys - (todo - {k}) == (former.Keys - todo) + {k};
      }
      todo := todo - {k};
    }
    if BackupsAreNotKeys(former) {
      assert former.Keys - {} == former.Keys;
      AllMerged(infos, scan, former);
    }
  }

  // The body of Merge's loop.
  function MergeOne(infos: Regions, former: Regions, k: nat): Regions
    requires k in former
  {
    var left := if former[k].backup != 0 then infos - {former[k].backup} else infos;
    if k in left || former[k].backup != 0 then left[k := former[k]] else left
  }

  // Whatever is tracked afterwards was tracked before or has just been found.
  ghost predicate FromEither(infos: Regions, scan: Regions, former: Regions) {
    forall k {:trigger k in infos} :: k in infos ==>
      (k in former && infos[k] == former[k]) || (k in scan && infos[k] == scan[k])
  }

  lemma MergeOneFrom(infos: Regions, scan: Regions, former: Regions, k: nat)
    requires k in former && FromEither(infos, scan, former)
    ensures FromEither(MergeOne(infos, former, k), scan, former)
  {
  }

  lemma MergedOneMore(infos: Regions, infos': Regions, scan: Regions, former: Regions, visited: set<nat>, k: nat)
    requires BackupsAreNotKeys(former) && k in former && k !in visited && visited <= former.Keys
    requires MergedSoFar(infos, scan, former, visited) && infos' == MergeOne(infos, former, k)
    ensures MergedSoFar(infos', scan, former, visited + {k})
  {
    var more := visited + {k};
    forall b: nat
      ensures b in BackupsOf(former, more) <==>
                b in BackupsOf(former, visited) || (former[k].backup != 0 && b == former[k].backup)
    {
    }
    forall j | j in former && former[k].backup != 0
      ensures former[k].backup != j
    {
      assert Backed(former, k);
    }
  }

  lemma AllMerged(infos: Regions, scan: Regions, former: Regions)
    requires MergedSoFar(infos, scan, former, former.Keys)
    ensures infos == Merged(scan, former)
  {
    assert BackupsOf(former, former.Keys) == Backups(former);
    var m := Merged(scan, former);
    assert forall k: nat :: k in infos <==> k in m;
  }
}
