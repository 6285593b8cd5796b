/**
 Rollup versions as half-open block ranges, and the block-range filter of the API.
 Addresses are compared in lower case; here they are numbers.
 */
module RollupRegistry {
  import opened Wrappers
  import opened EventLog

  /** A CanonicalRollupUpdated row: the address is the event's body. */
  type Update = Event<nat>

  datatype Version = Version(address: nat, startBlock: int, endBlock: Option<int>, deprecated: bool) {
    predicate Owns(block: int) {
      startBlock <= block && (endBlock.Some? ==> block < endBlock.value)
    }
  }

  datatype Registry = Registry(versions: seq<Version>, active: nat)

  datatype BlockRange = BlockRange(startBlock: int, endBlock: Option<int>) {
    /** The condition put into the SQL clause. */
    predicate Accepts(block: int) {
      match endBlock
      case None => block >= startBlock
      case Some(end) => block >= startBlock && block < end
    }
  }

  const CACHE_TTL_MS: int := 60000

  function OpenVersion(row: Update): Version {
    Version(row.body, row.key.block, None, false)
  }

  /** Each version ends where its successor starts. */
  function VersionAt(sorted: seq<Update>, i: nat): Version
    requires i < |sorted|
  {
    var next := i + 1;
    if next < |sorted| then Version(sorted[i].body, sorted[i].key.block, Some(sorted[next].key.block), true)
      else OpenVersion(sorted[i])
  }

  function VersionsOf(sorted: seq<Update>): seq<Version> {
    seq(|sorted|, i requires 0 <= i < |sorted| => VersionAt(sorted, i))
  }

  predicate Knows(versions: seq<Version>, address: nat) {
    exists v :: v in versions && v.address == address
  }

  /** A configured rollup that the table does not know is taken to be newer than all of it. */
  function RegistryOf(rows: seq<Update>, configured: nat): Registry {
    if rows == [] then Registry([Version(configured, 0, None, false)], configured)
    else
      var sorted := Sort(rows);
      var versions, k := VersionsOf(sorted), |sorted| - 1;
      assert |multiset(sorted)| == |sorted| && |multiset(rows)| == |rows|;
      if Knows(versions, configured) then Registry(versions, versions[k].address)
      else Registry(versions[k := versions[k].(deprecated := true)]
        + [Version(configured, versions[k].startBlock, None, false)], configured)
  }

  class RegistryCache {
    var cached: Option<Registry>
    var cacheTimestamp: int

    constructor ()
      ensures cached == None && cacheTimestamp == 0
    {
      cached, cacheTimestamp := None, 0;
    }

    /** Younger than a minute the cached registry is returned, otherwise it is rebuilt from the table. */
    method GetRollupRegistry(now: int, rows: seq<Update>, configured: nat) returns (r: Registry)
      modifies this
      ensures cached == Some(r)
      ensures old(cached).Some? && now - old(cacheTimestamp) < 60000 ==>
        r == old(cached).value && cacheTimestamp == old(cacheTimestamp)
      ensures old(cached).None? || now - old(cacheTimestamp) >= 60000 ==>
        r == RegistryOf(rows, configured) && cacheTimestamp == now
    {
      if cached.Some? && now - cacheTimestamp < CACHE_TTL_MS {
        return cached.value;
      }
      if |rows| > 0 {
        var sorted := Sort(rows);
        assert |sorted| > 0 by { assert |multiset(sorted)| == |multiset(rows)|; }
        var versions := BuildVersions(sorted);
        var active := |versions| - 1;
        if !Knows(versions, configured) {
          var start := versions[active].startBlock;
          versions := versions[active := versions[active].(deprecated := true)];
          versions := versions + [Version(configured, start, None, false)];
          r := Registry(versions, configured);
        } else {
          r := Registry(versions, versions[active].address);
        }
      } else {
        r := Registry([Version(configured, 0, None, false)], configured);
      }
      cached, cacheTimestamp := Some(r), now;
    }
  }

  /** Start with open ranges, then close each but the last at its successor's start. */
  method BuildVersions(sorted: seq<Update>) returns (versions: seq<Version>)
    ensures versions == VersionsOf(sorted)
  {
    versions := seq(|sorted|, i requires 0 <= i < |sorted| => OpenVersion(sorted[i]));
    var i := 0;
    while i < |versions| - 1
      invariant |versions| == |sorted| && 0 <= i && (i < |versions| || i == 0)
      invariant forall k :: 0 <= k < i ==> versions[k] == VersionAt(sorted, k)
      invariant forall k :: i <= k < |sorted| ==> versions[k] == OpenVersion(sorted[k])
    {
      var start := versions[i + 1].startBlock;
      versions := versions[i := versions[i].(deprecated := true, endBlock := Some(start))];
      i := i + 1;
    }
  }

  // ---- the range of a selection ----

  function Selected(versions: seq<Version>, addresses: set<nat>): seq<Version> {
    if versions == [] then []
    else
      var last := versions[|versions| - 1];
      Selected(versions[..|versions| - 1], addresses) + if last.address in addresses then [last] else []
  }

  function MinStart(versions: seq<Version>): int
    requires versions != []
  {
    if |versions| == 1 then versions[0].startBlock
    else var rest := MinStart(versions[1..]); if versions[0].startBlock < rest then versions[0].startBlock else rest
  }

  function MaxEnd(versions: seq<Version>): int
    requires versions != [] && forall v :: v in versions ==> v.endBlock.Some?
  {
    assert versions[0] in versions;
    if |versions| == 1 then versions[0].endBlock.value
    else
      assert forall v :: v in versions[1..] ==> v in versions;
      var rest := MaxEnd(versions[1..]);
      if versions[0].endBlock.value > rest then versions[0].endBlock.value else rest
  }

  function RollupBlockRange(versions: seq<Version>, addresses: set<nat>): BlockRange {
    var selected := Selected(versions, addresses);
    if selected == [] then BlockRange(0, None)
    else if exists v :: v in selected && v.endBlock == None then BlockRange(MinStart(selected), None)
    else BlockRange(MinStart(selected), Some(MaxEnd(selected)))
  }

  // ---- versions tile the chain ----

  ghost predicate ByBlock(sorted: seq<Update>) {
    forall i, j :: 0 <= i < j < |sorted| ==> sorted[i].key.block <= sorted[j].key.block
  }

  lemma SortedByBlock(rows: seq<Update>)
    ensures ByBlock(Sort(rows)) && |Sort(rows)| == |rows|
  {
    SortOrdered(rows);
    assert |multiset(Sort(rows))| == |multiset(rows)|;
  }

  /** In every branch exactly the last version is current, and it is the active one. */
  lemma OneCurrentVersion(rows: seq<Update>, configured: nat)
    ensures var r := RegistryOf(rows, configured);
      && r.versions != [] && r.active == r.versions[|r.versions| - 1].address
      && forall i :: 0 <= i < |r.versions| ==> (r.versions[i].deprecated <==> i < |r.versions| - 1)
  {
    hide Sort;
    if rows != [] {
      assert |multiset(Sort(rows))| == |multiset(rows)|;
    }
  }

  /** Starts in order, each range ending where the next begins, the last one open. */
  ghost predicate Tiled(versions: seq<Version>) {
    && (forall i, j :: 0 <= i < j < |versions| ==> versions[i].startBlock <= versions[j].startBlock)
    && (forall i, j ::
        0 <= i < |versions| && j == i + 1 && j < |versions| ==> versions[i].endBlock == Some(versions[j].startBlock))
    && (versions != [] ==> versions[|versions| - 1].endBlock == None)
  }

  lemma VersionsTiled(sorted: seq<Update>)
    requires ByBlock(sorted)
    ensures Tiled(VersionsOf(sorted)) && |VersionsOf(sorted)| == |sorted|
  {
  }

  /** The last version that has started by a block. */
  lemma {:induction false} OwnerAt(versions: seq<Version>, block: int) returns (i: nat)
    requires versions != [] && versions[0].startBlock <= block
    requires forall i, j :: 0 <= i < j < |versions| ==> versions[i].startBlock <= versions[j].startBlock
    ensures i < |versions| && versions[i].startBlock <= block && forall j ::
        i < j < |versions| ==> block < versions[j].startBlock
  {
    if versions[|versions| - 1].startBlock <= block {
      i := |versions| - 1;
    } else {
      i := OwnerAt(versions[..|versions| - 1], block);
    }
  }

  ghost predicate SoleOwner(versions: seq<Version>, i: nat, block: int) {
    i < |versions| && forall j :: 0 <= j < |versions| ==> (versions[j].Owns(block) <==> j == i)
  }

  /** Tiled ranges partition the blocks from the first start on. */
  lemma TilesPartition(versions: seq<Version>, block: int)
    requires versions != [] && Tiled(versions)
    ensures block >= versions[0].startBlock ==> exists i :: SoleOwner(versions, i, block)
    ensures block < versions[0].startBlock ==> forall v :: v in versions ==> !v.Owns(block)
  {
    if block >= versions[0].startBlock {
      var i := OwnerAt(versions, block);
      forall j | 0 <= j < |versions| ensures versions[j].Owns(block) <==> j == i {
        var next := j + 1;
        if j < i {
          assert versions[next].startBlock <= versions[i].startBlock;
        }
      }
      assert SoleOwner(versions, i, block);
    }
  }

  /**
   When the configured rollup is in the table, or the table is empty, the ranges tile
   the chain: each block from the first start on belongs to exactly one version.
   */
  lemma {:induction false} KnownRollupTiles(rows: seq<Update>, configured: nat, block: int)
    requires rows == [] || Knows(VersionsOf(Sort(rows)), configured)
    ensures var versions := RegistryOf(rows, configured).versions;
      && versions != [] && Tiled(versions)
      && (block >= versions[0].startBlock ==> exists i :: SoleOwner(versions, i, block))
      && (block < versions[0].startBlock ==> forall v :: v in versions ==> !v.Owns(block))
  {
    hide VersionsOf, Sort;
    if rows != [] {
      SortedByBlock(rows);
      VersionsTiled(Sort(rows));
    }
    TilesPartition(RegistryOf(rows, configured).versions, block);
  }

  /**
   A configured rollup the table does not know yet overlaps the last one it does know:
   the two share every block from the last known switch on, and only those.
   */
  lemma {:induction false} UnknownRollupOverlaps(rows: seq<Update>, configured: nat, block: int)
    requires rows != [] && !Knows(VersionsOf(Sort(rows)), configured)
    ensures var versions := RegistryOf(rows, configured).versions;
      var last := |versions| - 1;
      && last >= 1 && versions[last].address == configured
      && (versions[last].Owns(block) <==> versions[last - 1].Owns(block))
      && (block >= versions[0].startBlock ==> if versions[last].Owns(block)
            then forall j :: 0 <= j < last - 1 ==> !versions[j].Owns(block)
            else exists i :: SoleOwner(versions, i, block))
  {
    hide VersionsOf, Sort;
    SortedByBlock(rows);
    VersionsTiled(Sort(rows));
    AppendedOverlaps(VersionsOf(Sort(rows)), configured, block);
  }

  lemma AppendedOverlaps(known: seq<Version>, configured: nat, block: int)
    requires known != [] && Tiled(known)
    ensures var k := |known| - 1;
      var versions := known[k := known[k].(deprecated := true)]
        + [Version(configured, known[k].startBlock, None, false)];
      && (versions[k + 1].Owns(block) <==> versions[k].Owns(block))
      && (block >= versions[0].startBlock ==> if versions[k + 1].Owns(block)
            then forall j :: 0 <= j < k ==> !versions[j].Owns(block)
            else exists i :: SoleOwner(versions, i, block))
  {
    var k := |known| - 1;
    var versions := known[k := known[k].(deprecated := true)] + [Version(configured, known[k].startBlock, None, false)];
    assert forall j :: 0 <= j <= k ==> versions[j].Owns(block) == known[j].Owns(block);
    TilesPartition(known, block);
    if block >= known[0].startBlock {
      var i: nat :| SoleOwner(known, i, block);
      if !versions[k + 1].Owns(block) {
        assert SoleOwner(versions, i, block);
      }
    }
  }

  // ---- the filter ----

  lemma {:induction false} SelectedMembers(versions: seq<Version>, addresses: set<nat>)
    ensures forall v :: v in Selected(versions, addresses) <==> v in versions && v.address in addresses
  {
    if versions != [] {
      SelectedMembers(versions[..|versions| - 1], addresses);
      assert versions == versions[..|versions| - 1] + [versions[|versions| - 1]];
    }
  }

  lemma {:induction false} MinStartIsLeast(versions: seq<Version>)
    requires versions != []
    ensures forall v :: v in versions ==> MinStart(versions) <= v.startBlock
    ensures exists v :: v in versions && v.startBlock == MinStart(versions)
  {
    assert versions[0] in versions;
    if |versions| > 1 {
      MinStartIsLeast(versions[1..]);
      assert versions == [versions[0]] + versions[1..];
      assert forall v :: v in versions[1..] ==> v in versions;
    }
  }

  lemma {:induction false} MaxEndIsGreatest(versions: seq<Version>)
    requires versions != [] && forall v :: v in versions ==> v.endBlock.Some?
    ensures forall v :: v in versions ==> v.endBlock.value <= MaxEnd(versions)
    ensures exists v :: v in versions && v.endBlock.value == MaxEnd(versions)
  {
    assert versions[0] in versions;
    if |versions| > 1 {
      assert versions == [versions[0]] + versions[1..];
      assert forall v :: v in versions[1..] ==> v in versions;
      MaxEndIsGreatest(versions[1..]);
    }
  }

  predicate EndsAfter(v: Version, block: int) {
    v.endBlock.Some? ==> block < v.endBlock.value
  }

  /** A block passes the filter when some selected version starts by it and some selected version ends after it. */
  lemma AcceptsIff(versions: seq<Version>, addresses: set<nat>, block: int)
    requires exists v :: v in versions && v.address in addresses
    ensures RollupBlockRange(versions, addresses).Accepts(block) <==>
      && (exists v :: v in versions && v.address in addresses && v.startBlock <= block)
      && (exists v :: v in versions && v.address in addresses && EndsAfter(v, block))
  {
    var selected := Selected(versions, addresses);
    SelectedMembers(versions, addresses);
    MinStartIsLeast(selected);
    if forall v :: v in selected ==> v.endBlock.Some? {
      MaxEndIsGreatest(selected);
    }
    hide Selected, MinStart, MaxEnd;
  }

  /** Whatever is selected, no block of a selected version is filtered out. */
  lemma FilterKeepsOwned(versions: seq<Version>, addresses: set<nat>, v: Version, block: int)
    requires v in versions && v.address in addresses && v.Owns(block)
    ensures RollupBlockRange(versions, addresses).Accepts(block)
  {
    AcceptsIff(versions, addresses, block);
  }

  ghost predicate Chosen(versions: seq<Version>, addresses: set<nat>, i: int) {
    0 <= i < |versions| && versions[i].address in addresses
  }

  ghost predicate AnyChosen(versions: seq<Version>, addresses: set<nat>) {
    exists i :: Chosen(versions, addresses, i)
  }

  /** A version between two selected ones is selected, owns no block, or never ends. */
  ghost predicate Contiguous(versions: seq<Version>, addresses: set<nat>) {
    forall i, k, j :: Chosen(versions, addresses, i) && i < k < j && Chosen(versions, addresses, j)
      && !Chosen(versions, addresses, k)
      ==> versions[k].endBlock in {None, Some(versions[k].startBlock)}
  }

  ghost predicate FilterIsExact(versions: seq<Version>, addresses: set<nat>) {
    forall block: int :: AcceptsOnlyOwned(versions, addresses, block)
  }

  ghost predicate AcceptsOnlyOwned(versions: seq<Version>, addresses: set<nat>, block: int) {
    RollupBlockRange(versions, addresses).Accepts(block) <==>
      exists i :: Chosen(versions, addresses, i) && versions[i].Owns(block)
  }

  /** Tiled, or with two last versions that are both open and start together. */
  ghost predicate Stepped(versions: seq<Version>) {
    && (forall i, j :: 0 <= i < j < |versions| ==> versions[i].startBlock <= versions[j].startBlock)
    && (forall i, j :: 0 <= i < |versions| && j == i + 1 && j < |versions| ==>
          || versions[i].endBlock == Some(versions[j].startBlock)
          || (j == |versions| - 1 && versions[i].endBlock == None && versions[i].startBlock == versions[j].startBlock))
    && (versions != [] ==> versions[|versions| - 1].endBlock == None)
  }

  lemma AppendedStepped(known: seq<Version>, configured: nat)
    requires known != [] && Tiled(known)
    ensures var k := |known| - 1;
      Stepped(known[k := known[k].(deprecated := true)] + [Version(configured, known[k].startBlock, None, false)])
  {
  }

  /** In every branch the versions are stepped. */
  lemma RegistryStepped(rows: seq<Update>, configured: nat)
    ensures Stepped(RegistryOf(rows, configured).versions)
  {
    hide VersionsOf, Sort;
    if rows != [] {
      SortedByBlock(rows);
      VersionsTiled(Sort(rows));
      if !Knows(VersionsOf(Sort(rows)), configured) {
        AppendedStepped(VersionsOf(Sort(rows)), configured);
      }
    }
  }

  /**
   A version that ends does so before the later ones start; one that does not is followed at
   most by one that starts with it.
   */
  lemma EndsBefore(versions: seq<Version>, a: nat, b: nat)
    requires Stepped(versions) && a < b < |versions|
    ensures match versions[a].endBlock
      case Some(end) => versions[a].startBlock <= end <= versions[b].startBlock
      case None => b == a + 1 == |versions| - 1 && versions[a].startBlock == versions[b].startBlock
  {
    var next := a + 1;
    assert next == b || versions[next].startBlock <= versions[b].startBlock;
  }

  /** An accepted block belongs to a selected version, the last one started by it if that is selected. */
  lemma ContiguousIsExact(versions: seq<Version>, addresses: set<nat>, block: int, i: nat, j: nat)
    requires Stepped(versions) && Contiguous(versions, addresses) && Chosen(versions, addresses, i)
      && Chosen(versions, addresses, j)
    requires versions[i].startBlock <= block && EndsAfter(versions[j], block)
    ensures exists m :: Chosen(versions, addresses, m) && versions[m].Owns(block)
  {
    assert i == 0 || versions[0].startBlock <= versions[i].startBlock;
    var k := OwnerAt(versions, block);
    assert versions[k].Owns(block) by {
      if k + 1 < |versions| {
        EndsBefore(versions, k, k + 1);
      }
    }
    if !Chosen(versions, addresses, k) {
      if j < k {
        EndsBefore(versions, j, k);
        assert versions[j].Owns(block);
      } else {
        assert i < k < j;
        EndsBefore(versions, k, j);
      }
    }
  }

  /** The first block of a version that ends later and is not selected belongs to no selected version. */
  lemma GapIsSeen(versions: seq<Version>, addresses: set<nat>, i: nat, k: nat, j: nat)
    requires Stepped(versions) && i < k < j
    requires Chosen(versions, addresses, i) && Chosen(versions, addresses, j) && !Chosen(versions, addresses, k)
    requires versions[k].endBlock !in {None, Some(versions[k].startBlock)}
    ensures !AcceptsOnlyOwned(versions, addresses, versions[k].startBlock)
  {
    hide RollupBlockRange, Contiguous;
    var block := versions[k].startBlock;
    EndsBefore(versions, k, j);
    if j + 1 < |versions| {
      EndsBefore(versions, j, j + 1);
    }
    assert versions[i] in versions && versions[j] in versions;
    AcceptsIff(versions, addresses, block);
    forall m | Chosen(versions, addresses, m) ensures !versions[m].Owns(block) {
      if m < k {
        EndsBefore(versions, m, k);
      } else {
        EndsBefore(versions, k, m);
      }
    }
  }

  lemma ChosenMember(versions: seq<Version>, addresses: set<nat>, v: Version) returns (i: nat)
    requires v in versions && v.address in addresses
    ensures Chosen(versions, addresses, i) && versions[i] == v
  {
    i :| 0 <= i < |versions| && versions[i] == v;
  }

  /** A selection that names no version does not filter at all, from block zero on. */
  lemma NothingSelected(versions: seq<Version>, addresses: set<nat>, block: int)
    requires forall v :: v in versions ==> v.address !in addresses
    ensures RollupBlockRange(versions, addresses).Accepts(block) <==> block >= 0
  {
    SelectedMembers(versions, addresses);
    assert Selected(versions, addresses) == [] by {
      if Selected(versions, addresses) != [] {
        assert Selected(versions, addresses)[0] in Selected(versions, addresses);
      }
    }
  }

  lemma NoneIsInexact(versions: seq<Version>, addresses: set<nat>)
    requires !AnyChosen(versions, addresses)
    ensures !AcceptsOnlyOwned(versions, addresses, 0)
  {
    hide RollupBlockRange;
    forall v | v in versions ensures v.address !in addresses {
      var i :| 0 <= i < |versions| && versions[i] == v;
      assert !Chosen(versions, addresses, i);
    }
    NothingSelected(versions, addresses, 0);
  }

  lemma ExactBlock(versions: seq<Version>, addresses: set<nat>, block: int)
    requires Stepped(versions) && AnyChosen(versions, addresses) && Contiguous(versions, addresses)
    ensures AcceptsOnlyOwned(versions, addresses, block)
  {
    hide RollupBlockRange, Stepped, Contiguous;
    var c :| Chosen(versions, addresses, c);
    AcceptsIff(versions, addresses, block);
    if RollupBlockRange(versions, addresses).Accepts(block) {
      var v :| v in versions && v.address in addresses && v.startBlock <= block;
      var w :| w in versions && w.address in addresses && EndsAfter(w, block);
      var i := ChosenMember(versions, addresses, v);
      var j := ChosenMember(versions, addresses, w);
      ContiguousIsExact(versions, addresses, block, i, j);
    }
  }

  lemma SteppedExactIff(versions: seq<Version>, addresses: set<nat>)
    requires Stepped(versions)
    ensures FilterIsExact(versions, addresses) <==> AnyChosen(versions, addresses) && Contiguous(versions, addresses)
  {
    hide AcceptsOnlyOwned, Stepped, Chosen;
    if !AnyChosen(versions, addresses) {
      NoneIsInexact(versions, addresses);
    } else if Contiguous(versions, addresses) {
      forall block: int ensures AcceptsOnlyOwned(versions, addresses, block) {
        ExactBlock(versions, addresses, block);
      }
    } else {
      AnyGapIsSeen(versions, addresses);
    }
  }

  lemma AnyGapIsSeen(versions: seq<Version>, addresses: set<nat>)
    requires Stepped(versions) && !Contiguous(versions, addresses)
    ensures exists block: int :: !AcceptsOnlyOwned(versions, addresses, block)
  {
    hide AcceptsOnlyOwned, Stepped;
    var i, k, j :| Chosen(versions, addresses, i) && i < k < j && Chosen(versions, addresses, j)
      && !Chosen(versions, addresses, k)
      && versions[k].endBlock !in {None, Some(versions[k].startBlock)};
    GapIsSeen(versions, addresses, i, k, j);
  }

  /**
   For every table and every configured rollup: the filter accepts exactly the blocks of
   the selected versions if and only if a version is selected and the selection has no
   gap, a version in between that has blocks of its own.
   */
  lemma FilterExactIffContiguous(rows: seq<Update>, configured: nat, addresses: set<nat>)
    ensures var versions := RegistryOf(rows, configured).versions;
      FilterIsExact(versions, addresses) <==> AnyChosen(versions, addresses) && Contiguous(versions, addresses)
  {
    hide RegistryOf, Contiguous, FilterIsExact, AnyChosen;
    RegistryStepped(rows, configured);
    SteppedExactIff(RegistryOf(rows, configured).versions, addresses);
  }

  // ---- the versions against the updates ----

  /** The configured rollup has an update of its own. */
  ghost predicate Updated(rows: seq<Update>, configured: nat) {
    exists row :: row in rows && row.body == configured
  }

  lemma {:induction false} KnownIffUpdated(rows: seq<Update>, configured: nat)
    ensures Knows(VersionsOf(Sort(rows)), configured) <==> Updated(rows, configured)
  {
    var sorted := Sort(rows);
    hide Sort;
    Members(sorted, rows);
    var versions := VersionsOf(sorted);
    if Knows(versions, configured) {
      var v :| v in versions && v.address == configured;
      var i :| 0 <= i < |versions| && versions[i] == v;
      assert sorted[i] in sorted && sorted[i].body == configured;
    }
    if Updated(rows, configured) {
      var row :| row in rows && row.body == configured;
      var i :| 0 <= i < |sorted| && sorted[i] == row;
      assert versions[i] in versions && versions[i].address == configured;
    }
  }

  /**
   Each update is a version: it has the rollup that the update names, starts at the update's
   block and ends at the next update's.  A configured rollup without an update comes last,
   from the last update's block on, or from zero when there is none, and is the active one.
   */
  lemma {:induction false} VersionsAreUpdates(rows: seq<Update>, configured: nat)
    ensures var r, sorted := RegistryOf(rows, configured), Sort(rows);
      var n := |rows|;
      && |sorted| == n && (Updated(rows, configured) ==> |r.versions| == n)
      && (!Updated(rows, configured) ==>
            && |r.versions| == n + 1 && r.active == configured
            && r.versions[n] == Version(configured, if n == 0 then 0 else sorted[n - 1].key.block, None, false))
      && (forall i :: 0 <= i < n ==>
            r.versions[i].address == sorted[i].body && r.versions[i].startBlock == sorted[i].key.block)
      && (forall i, j :: 0 <= i < n && j == i + 1 && j < n ==> r.versions[i].endBlock == Some(sorted[j].key.block))
      && (n > 0 ==> r.versions[n - 1].endBlock == None)
      && (Updated(rows, configured) ==> n > 0 && r.active == sorted[n - 1].body)
  {
    hide Sort, Updated, VersionsOf, Knows, ByBlock;
    KnownIffUpdated(rows, configured);
    SortedByBlock(rows);
    VersionsMean(Sort(rows));
    NoUpdate(rows, configured);
  }

  lemma VersionsMean(sorted: seq<Update>)
    ensures var versions := VersionsOf(sorted);
      && |versions| == |sorted|
      && (forall i :: 0 <= i < |sorted| ==>
            versions[i].address == sorted[i].body && versions[i].startBlock == sorted[i].key.block)
      && (forall i, j :: 0 <= i < |sorted| && j == i + 1 && j < |sorted| ==>
            versions[i].endBlock == Some(sorted[j].key.block))
      && (sorted != [] ==> versions[|sorted| - 1].endBlock == None)
  {
  }

  lemma NoUpdate(rows: seq<Update>, configured: nat)
    ensures Updated(rows, configured) ==> |rows| > 0
  {
  }

  /** The last update by a block, in the order of block and log index. */
  ghost predicate LastUpdate(rows: seq<Update>, row: Update, block: int) {
    && row in rows && row.key.block <= block
    && forall other :: other in rows && other.key.block <= block && other != row ==>
        other.key.block < row.key.block || (other.key.block == row.key.block && other.key.log < row.key.log)
  }

  /** In sorted rows the last update by a block is the one after which no other starts by it. */
  lemma {:induction false} LastInSorted(rows: seq<Update>, sorted: seq<Update>, i: nat, block: int)
    requires Sorted(sorted) && i < |sorted| && forall row :: row in sorted <==> row in rows
    ensures LastUpdate(rows, sorted[i], block) <==>
      sorted[i].key.block <= block && (i + 1 < |sorted| ==> block < sorted[i + 1].key.block)
  {
    var row, next := sorted[i], i + 1;
    if row.key.block <= block && (next < |sorted| ==> block < sorted[next].key.block) {
      forall other | other in rows && other.key.block <= block && other != row ensures other.key.Before(row.key) {
        assert other in sorted;
        var j :| 0 <= j < |sorted| && sorted[j] == other;
        assert j > next ==> sorted[next].key.Before(sorted[j].key);
      }
    } else if next < |sorted| {
      assert sorted[next] in rows && row.key.Before(sorted[next].key);
    }
  }

  /** A version that is made from an update owns exactly the blocks by which that update is the last. */
  lemma {:induction false} OwnsIffLastUpdate(rows: seq<Update>, configured: nat, i: nat, block: int)
    requires DistinctKeys(rows) && i < |rows|
    ensures |Sort(rows)| == |rows| && |RegistryOf(rows, configured).versions| >= |rows|
    ensures RegistryOf(rows, configured).versions[i].Owns(block) <==> LastUpdate(rows, Sort(rows)[i], block)
  {
    hide Sort, RegistryOf, Updated, LastUpdate, DistinctKeys, Sorted;
    VersionsAreUpdates(rows, configured);
    SortSorted(rows);
    LastInSorted(rows, Sort(rows), i, block);
  }

  /** The blocks of a configured rollup that is selected and has no update: from the last update on, or from zero. */
  ghost predicate AwaitsUpdate(rows: seq<Update>, configured: nat, addresses: set<nat>, block: int) {
    && configured in addresses && !Updated(rows, configured)
    && (rows == [] ==> block >= 0)
    && forall row :: row in rows ==> row.key.block <= block
  }

  ghost predicate LastNames(rows: seq<Update>, addresses: set<nat>, block: int) {
    exists row :: LastUpdate(rows, row, block) && row.body in addresses
  }

  /**
   For a selection without gaps the filter accepts exactly the blocks whose last update names a
   selected rollup and, when the configured rollup is selected and has no update yet, the blocks
   from the last update on, or from zero when there is none.
   */
  lemma {:induction false} FilterFollowsUpdates(rows: seq<Update>, configured: nat, addresses: set<nat>, block: int)
    requires DistinctKeys(rows)
    requires var versions := RegistryOf(rows, configured).versions;
      AnyChosen(versions, addresses) && Contiguous(versions, addresses)
    ensures RollupBlockRange(RegistryOf(rows, configured).versions, addresses).Accepts(block) <==>
      LastNames(rows, addresses, block) || AwaitsUpdate(rows, configured, addresses, block)
  {
    hide Sort, RegistryOf, RollupBlockRange, AnyChosen, Contiguous, Stepped, Updated, LastUpdate, LastNames,
      AwaitsUpdate, AcceptsOnlyOwned;
    var versions := RegistryOf(rows, configured).versions;
    RegistryStepped(rows, configured);
    ExactBlock(versions, addresses, block);
    OwnedByUpdates(rows, configured, addresses, block);
    assert AcceptsOnlyOwned(versions, addresses, block) <==> (
      RollupBlockRange(versions, addresses).Accepts(block) <==> OwnedBySome(versions, addresses, block)) by {
      OnlyOwnedMeans(versions, addresses, block);
    }
  }

  ghost predicate OwnedBySome(versions: seq<Version>, addresses: set<nat>, block: int) {
    exists i :: Chosen(versions, addresses, i) && versions[i].Owns(block)
  }

  lemma OnlyOwnedMeans(versions: seq<Version>, addresses: set<nat>, block: int)
    ensures AcceptsOnlyOwned(versions, addresses, block) <==> (
      RollupBlockRange(versions, addresses).Accepts(block) <==> OwnedBySome(versions, addresses, block))
  {
  }

  /** The blocks of selected versions: their last update names one, or they belong to the rollup without an update. */
  lemma {:induction false} OwnedByUpdates(rows: seq<Update>, configured: nat, addresses: set<nat>, block: int)
    requires DistinctKeys(rows)
    ensures OwnedBySome(RegistryOf(rows, configured).versions, addresses, block) <==>
      LastNames(rows, addresses, block) || AwaitsUpdate(rows, configured, addresses, block)
  {
    hide Sort, RegistryOf, Updated, LastUpdate, DistinctKeys, Sorted, ByBlock;
    var sorted, versions, n := Sort(rows), RegistryOf(rows, configured).versions, |rows|;
    VersionsAreUpdates(rows, configured);
    SortSorted(rows);
    SortedByBlock(rows);
    forall i | 0 <= i < n ensures versions[i].Owns(block) <==> LastUpdate(rows, sorted[i], block) {
      OwnsIffLastUpdate(rows, configured, i, block);
    }
    LastUpdateIsRow(rows, sorted, block);
    if LastNames(rows, addresses, block) {
      var row :| LastUpdate(rows, row, block) && row.body in addresses;
      var i :| 0 <= i < |sorted| && sorted[i] == row;
      assert Chosen(versions, addresses, i) && versions[i].Owns(block);
    }
    LastStart(rows);
    if AwaitsUpdate(rows, configured, addresses, block) {
      assert Chosen(versions, addresses, n) && versions[n].Owns(block);
    }
    if OwnedBySome(versions, addresses, block) {
      var i :| Chosen(versions, addresses, i) && versions[i].Owns(block);
      if i < n {
        assert LastUpdate(rows, sorted[i], block) && sorted[i].body in addresses;
      }
    }
  }

  lemma LastStart(rows: seq<Update>)
    ensures |Sort(rows)| == |rows|
    ensures rows != [] ==> var last := Sort(rows)[|rows| - 1];
      last in rows && forall row :: row in rows ==> row.key.block <= last.key.block
  {
    hide Sort;
    SortedByBlock(rows);
    Members(Sort(rows), rows);
    if rows != [] {
      LastOf(rows, Sort(rows));
    }
  }

  lemma LastOf(rows: seq<Update>, sorted: seq<Update>)
    requires ByBlock(sorted) && sorted != [] && forall row :: row in sorted <==> row in rows
    ensures var last := sorted[|sorted| - 1];
      last in rows && forall row :: row in rows ==> row.key.block <= last.key.block
  {
    forall row | row in rows ensures row.key.block <= sorted[|sorted| - 1].key.block {
      var i :| 0 <= i < |sorted| && sorted[i] == row;
    }
  }

  lemma LastUpdateIsRow(rows: seq<Update>, sorted: seq<Update>, block: int)
    requires forall row :: row in sorted <==> row in rows
    ensures forall row :: LastUpdate(rows, row, block) ==> row in sorted
  {
  }

  /** Every block from the first update on has a last update. */
  lemma {:induction false} SomeLastUpdate(rows: seq<Update>, block: int)
    requires DistinctKeys(rows) && exists row :: row in rows && row.key.block <= block
    ensures exists row :: LastUpdate(rows, row, block)
  {
    SortSorted(rows);
    hide Sort, LastUpdate;
    var row :| row in rows && row.key.block <= block;
    LastFrom(rows, Sort(rows), block);
  }

  lemma {:induction false} LastFrom(rows: seq<Update>, sorted: seq<Update>, block: int) 
    requires Sorted(sorted) && forall row :: row in sorted <==> row in rows
    requires exists row :: row in sorted && row.key.block <= block
    ensures exists row :: LastUpdate(rows, row, block)
  {
    hide LastUpdate;
    var row :| row in sorted && row.key.block <= block;
    var i :| 0 <= i < |sorted| && sorted[i] == row;
    i := LastStarted(sorted, i, block);
    LastInSorted(rows, sorted, i, block);
  }

  lemma {:induction false} LastStarted(sorted: seq<Update>, i: nat, block: int) returns (k: nat)
    requires i < |sorted| && sorted[i].key.block <= block
    ensures k < |sorted| && sorted[k].key.block <= block && (k + 1 < |sorted| ==> block < sorted[k + 1].key.block)
    decreases |sorted| - i
  {
    k := i;
    if i + 1 < |sorted| && sorted[i + 1].key.block <= block {
      k := LastStarted(sorted, i + 1, block);
    }
  }
}
