/** Working out what chain a collection of block records represents. */
module Chain {
  import opened Bytes
  import BlockFile
  import ByteOrder
  import Hash256
  import Hex

  type BlockRecord = BlockFile.BlockRecord

  /** The bytes of the genesis block's hash in the order its display form shows them. */
  const GENESIS: seq<u8> :=
    [0x00, 0x00, 0x00, 0x00, 0x00, 0x19, 0xD6, 0x68]
    + [0x9C, 0x08, 0x5A, 0xE1, 0x65, 0x83, 0x1E, 0x93]
    + [0x4F, 0xF7, 0x63, 0xAE, 0x46, 0xA2, 0xA6, 0xC1]
    + [0x72, 0xB3, 0xF1, 0xB6, 0x0A, 0x8C, 0xE2, 0x6F]

  const GENESIS_HASH: Hash := Hash256.Reversed(GENESIS)

  datatype ChainSummary = ChainSummary(
    blocks: nat, hasGenesis: bool, connected: nat, tipHeight: Option<nat>, tipHash: Option<Hash>, orphanRoots: nat)

  function Present(records: seq<BlockRecord>): set<Hash> { set r | r in records :: r.hash }

  function Orphans(records: seq<BlockRecord>): set<nat> {
    set i: nat | i < |records| && records[i].hash != GENESIS_HASH && records[i].previous !in Present(records)
  }

  /** The hash of the first record that names `parent` as its parent. */
  function FirstChild(records: seq<BlockRecord>, parent: Hash): Option<Hash> {
    if records == [] then None
    else if records[0].previous == parent then Some(records[0].hash)
    else FirstChild(records[1..], parent)
  }

  function Lookup(children: map<Hash, Hash>, parent: Hash): Option<Hash> {
    if parent in children then Some(children[parent]) else None
  }

  // ---------------------------------------------------------------- walks

  /** Follows first children from genesis. */
  ghost predicate Walk(records: seq<BlockRecord>, path: seq<Hash>) {
    && path != [] && path[0] == GENESIS_HASH
    && forall k {:trigger FirstChild(records, path[k])} :: 0 <= k < |path| - 1 ==> FirstChild(records, path[k]) == Some(path[k + 1])
  }

  ghost predicate Completed(records: seq<BlockRecord>, path: seq<Hash>) {
    Walk(records, path) && FirstChild(records, path[|path| - 1]) == None
  }

  predicate Distinct(path: seq<Hash>) { forall i, j :: 0 <= i < j < |path| ==> path[i] != path[j] }

  /** The walk from genesis never comes back to a block it has passed. */
  ghost predicate NeverReturns(records: seq<BlockRecord>) {
    forall path :: Walk(records, path) ==> Distinct(path)
  }

  ghost predicate Links(records: seq<BlockRecord>, parent: Hash, child: Hash) {
    exists i :: 0 <= i < |records| && records[i].previous == parent && records[i].hash == child
  }

  ghost predicate Linked(records: seq<BlockRecord>, path: seq<Hash>) {
    path != [] && forall k :: 0 <= k < |path| - 1 ==> Links(records, path[k], path[k + 1])
  }

  ghost predicate Acyclic(records: seq<BlockRecord>) {
    forall path :: Linked(records, path) && |path| > 1 ==> path[0] != path[|path| - 1]
  }

  ghost predicate Reaches(records: seq<BlockRecord>, path: seq<Hash>, hash: Hash) {
    Linked(records, path) && path[0] == GENESIS_HASH && path[|path| - 1] == hash
  }

  ghost predicate Reachable(records: seq<BlockRecord>, hash: Hash) {
    exists path :: Reaches(records, path, hash)
  }

  ghost function ReachableBlocks(records: seq<BlockRecord>): set<Hash> {
    set hash | hash in Present(records) && Reachable(records, hash)
  }

  lemma FirstChildIsLinked(records: seq<BlockRecord>, parent: Hash)
    ensures var child := FirstChild(records, parent);
            if child.Some? then Links(records, parent, child.value)
            else forall i :: 0 <= i < |records| ==> records[i].previous != parent
  {
    if records != [] && records[0].previous != parent {
      FirstChildIsLinked(records[1..], parent);
      assert forall i :: 0 <= i < |records| - 1 ==> records[1..][i] == records[i + 1];
    }
  }

  lemma {:induction false} FirstChildAppend(records: seq<BlockRecord>, record: BlockRecord, parent: Hash)
    ensures FirstChild(records + [record], parent)
            == if FirstChild(records, parent).Some? then FirstChild(records, parent)
               else if record.previous == parent then Some(record.hash) else None
  {
    if records == [] {
      assert records + [record] == [record];
    } else {
      assert (records + [record])[1..] == records[1..] + [record];
      FirstChildAppend(records[1..], record, parent);
    }
  }

  function Elements(path: seq<Hash>): set<Hash> { set h | h in path }

  lemma {:induction false} DistinctSize(path: seq<Hash>)
    requires Distinct(path)
    ensures |Elements(path)| == |path|
  {
    if path != [] {
      var rest := path[1..];
      DistinctSize(rest);
      assert Elements(path) == Elements(rest) + {path[0]};
      assert path[0] !in rest;
    }
  }

  lemma WithinSize(path: seq<Hash>, all: set<Hash>)
    requires Distinct(path) && forall h :: h in path ==> h in all
    ensures |path| <= |all|
  {
    DistinctSize(path);
    SubsetSize(Elements(path), all);
  }

  lemma {:induction false} SubsetSize<T>(a: set<T>, b: set<T>)
    requires a <= b
    ensures |a| <= |b| && (|a| == |b| ==> a == b)
  {
    if a != {} {
      var x :| x in a;
      SubsetSize(a - {x}, b - {x});
    }
  }

  lemma WalkIsPresent(records: seq<BlockRecord>, path: seq<Hash>)
    requires Walk(records, path) && GENESIS_HASH in Present(records)
    ensures forall h :: h in path ==> h in Present(records)
  {
    forall k | 0 <= k < |path| ensures path[k] in Present(records) {
      if k > 0 {
        FirstChildIsLinked(records, path[k - 1]);
      }
    }
  }

  lemma WalkIsLinked(records: seq<BlockRecord>, path: seq<Hash>)
    requires Walk(records, path)
    ensures Linked(records, path)
  {
    forall k | 0 <= k < |path| - 1 ensures Links(records, path[k], path[k + 1]) {
      FirstChildIsLinked(records, path[k]);
    }
  }

  lemma LinkedSlice(records: seq<BlockRecord>, path: seq<Hash>, i: nat, j: nat)
    requires Linked(records, path) && i < j < |path|
    ensures Linked(records, path[i..j + 1])
  {
    hide Links;
    var part := path[i..j + 1];
    forall k | 0 <= k < |part| - 1 ensures Links(records, part[k], part[k + 1]) {
      assert part[k] == path[i + k] && part[k + 1] == path[i + k + 1];
    }
  }

  lemma AcyclicNeverReturns(records: seq<BlockRecord>)
    requires Acyclic(records)
    ensures NeverReturns(records)
  {
    hide Walk, Linked;
    forall path | Walk(records, path) ensures Distinct(path) {
      WalkIsLinked(records, path);
      forall i, j | 0 <= i < j < |path| ensures path[i] != path[j] {
        LinkedSlice(records, path, i, j);
      }
    }
  }

  /** A walk follows any completed one as far as it goes. */
  lemma {:induction false} WalkIsPrefix(records: seq<BlockRecord>, path: seq<Hash>, all: seq<Hash>)
    requires Walk(records, path) && Completed(records, all)
    ensures path <= all
  {
    if |path| > 1 {
      var k := |path| - 2;
      WalkIsPrefix(records, path[..k + 1], all);
      assert path[..k + 1][k] == path[k] == all[k];
      assert FirstChild(records, path[k]) == Some(path[k + 1]);
      assert path == path[..k + 1] + [path[k + 1]];
    }
  }

  lemma {:induction false} RepeatsForever(records: seq<BlockRecord>, path: seq<Hash>, i: nat, j: nat)
    requires Walk(records, path) && i < j < |path| && path[i] == path[j]
    ensures FirstChild(records, path[|path| - 1]).Some?
    decreases |path| - j
  {
    assert FirstChild(records, path[i]) == Some(path[i + 1]);
    if j + 1 < |path| {
      assert FirstChild(records, path[j]) == Some(path[j + 1]);
      RepeatsForever(records, path, i + 1, j + 1);
    }
  }

  lemma {:induction false} Extended(records: seq<BlockRecord>, path: seq<Hash>) returns (all: seq<Hash>)
    requires GENESIS_HASH in Present(records) && NeverReturns(records) && Walk(records, path)
    ensures Completed(records, all)
    decreases |Present(records)| - |path|
  {
    WalkIsPresent(records, path);
    WithinSize(path, Present(records));
    match FirstChild(records, path[|path| - 1])
    case None => all := path;
    case Some(next) =>
      assert Walk(records, path + [next]);
      WalkIsPresent(records, path + [next]);
      WithinSize(path + [next], Present(records));
      all := Extended(records, path + [next]);
  }

  /** With genesis present, the walk ends exactly when it never returns to a block. */
  lemma WalkEndsIff(records: seq<BlockRecord>)
    requires GENESIS_HASH in Present(records)
    ensures (exists path :: Completed(records, path)) <==> NeverReturns(records)
  {
    if NeverReturns(records) {
      var all := Extended(records, [GENESIS_HASH]);
    }
    forall all, path | Completed(records, all) && Walk(records, path) ensures Distinct(path) {
      WalkIsPrefix(records, path, all);
      forall i, j | 0 <= i < j < |path| ensures path[i] != path[j] {
        if path[i] == path[j] {
          RepeatsForever(records, all, i, j);
        }
      }
    }
  }

  // ---------------------------------------------------------------- the summary

  ghost predicate EndsWalk(records: seq<BlockRecord>, path: seq<Hash>, summary: ChainSummary) {
    && Completed(records, path) && summary.connected == |path|
    && summary.tipHeight == Some(|path| - 1) && summary.tipHash == Some(path[|path| - 1])
  }

  ghost predicate Summarises(records: seq<BlockRecord>, summary: ChainSummary) {
    && summary.blocks == |Present(records)| && summary.orphanRoots == |Orphans(records)|
    && summary.hasGenesis == (GENESIS_HASH in Present(records))
    && (!summary.hasGenesis ==> summary.connected == 0 && summary.tipHeight.None? && summary.tipHash.None?)
    && (summary.hasGenesis ==> exists path :: EndsWalk(records, path, summary))
  }

  /** Indexes first children, then walks forward from genesis for as far as the records allow. */
  method Summarise(records: seq<BlockRecord>) returns (summary: ChainSummary)
    requires GENESIS_HASH in Present(records) ==> NeverReturns(records)
    ensures Summarises(records, summary)
  {
    var present := Present(records);
    var children: map<Hash, Hash> := map[];
    for k := 0 to |records|
      invariant forall h :: Lookup(children, h) == FirstChild(records[..k], h)
    {
      ghost var before := children;
      if records[k].previous !in children {
        children := children[records[k].previous := records[k].hash];
      }
      assert records[..k + 1] == records[..k] + [records[k]];
      forall h ensures Lookup(children, h) == FirstChild(records[..k + 1], h) {
        FirstChildAppend(records[..k], records[k], h);
        assert Lookup(before, h) == FirstChild(records[..k], h);
      }
    }
    assert records[..|records|] == records;
    var orphanRoots := |Orphans(records)|;
    if GENESIS_HASH !in present {
      return ChainSummary(|present|, false, 0, None, None, orphanRoots);
    }
    var current, height := GENESIS_HASH, 0;
    ghost var path := [GENESIS_HASH];
    WalkBound(records, path);
    while current in children
      invariant Walk(records, path) && |path| == height + 1 && path[height] == current
      invariant |path| <= |Present(records)|
      decreases |Present(records)| - |path|
    {
      assert FirstChild(records, current) == Lookup(children, current);
      current := children[current];
      height := height + 1;
      path := path + [current];
      WalkBound(records, path);
    }
    assert FirstChild(records, current) == Lookup(children, current);
    summary := ChainSummary(|present|, true, height + 1, Some(height), Some(current), orphanRoots);
    assert EndsWalk(records, path, summary);
  }

  lemma WalkBound(records: seq<BlockRecord>, path: seq<Hash>)
    requires GENESIS_HASH in Present(records) && NeverReturns(records) && Walk(records, path)
    ensures |path| <= |Present(records)|
  {
    WalkIsPresent(records, path);
    WithinSize(path, Present(records));
  }

  /** A summary is determined by the records. */
  lemma SummaryIsUnique(records: seq<BlockRecord>, a: ChainSummary, b: ChainSummary)
    requires Summarises(records, a) && Summarises(records, b)
    ensures a == b
  {
    if a.hasGenesis {
      var p :| EndsWalk(records, p, a);
      var q :| EndsWalk(records, q, b);
      WalkIsPrefix(records, p, q);
      WalkIsPrefix(records, q, p);
    }
  }

  /** The connected blocks are distinct blocks that are present, and nothing present follows the tip. */
  lemma SummaryIsSound(records: seq<BlockRecord>, summary: ChainSummary)
    requires Summarises(records, summary)
    ensures summary.connected <= summary.blocks
    ensures summary.hasGenesis <==> summary.connected > 0
    ensures summary.tipHash.Some? <==> summary.hasGenesis
    ensures summary.hasGenesis ==> summary.tipHash.value in Present(records)
    ensures summary.hasGenesis ==> forall i :: 0 <= i < |records| ==> Some(records[i].previous) != summary.tipHash
  {
    if summary.hasGenesis {
      var path :| EndsWalk(records, path, summary);
      WalkEndsIff(records);
      WalkBound(records, path);
      WalkIsPresent(records, path);
      FirstChildIsLinked(records, path[|path| - 1]);
    }
  }

  // ---------------------------------------------------------------- what the walk counts

  /** No block reachable from genesis has two different children. */
  ghost predicate NoReachableFork(records: seq<BlockRecord>) {
    forall i, j :: (0 <= i < |records| && 0 <= j < |records| && records[i].previous == records[j].previous
                    && Reachable(records, records[i].previous)) ==> records[i].hash == records[j].hash
  }

  /** A hash names one header, so one parent. */
  predicate OneParent(records: seq<BlockRecord>) {
    forall i, j :: (0 <= i < |records| && 0 <= j < |records| && records[i].hash == records[j].hash)
                   ==> records[i].previous == records[j].previous
  }

  lemma WalkIsReachable(records: seq<BlockRecord>, path: seq<Hash>)
    requires Walk(records, path) && GENESIS_HASH in Present(records)
    ensures forall h :: h in path ==> h in ReachableBlocks(records)
  {
    WalkIsPresent(records, path);
    WalkIsLinked(records, path);
    forall k | 0 <= k < |path| ensures Reachable(records, path[k]) {
      assert Reaches(records, path[..k + 1], path[k]);
    }
  }

  /** Without forks, every way from genesis is the walk. */
  lemma {:induction false} OnlyOneWay(records: seq<BlockRecord>, path: seq<Hash>, way: seq<Hash>)
    requires Completed(records, path) && NoReachableFork(records)
    requires Linked(records, way) && way[0] == GENESIS_HASH
    ensures way <= path
    decreases |way|
  {
    if |way| > 1 {
      var k := |way| - 2;
      var before := way[..k + 1];
      OnlyOneWay(records, path, before);
      assert Reaches(records, before, way[k]);
      assert Links(records, way[k], way[k + 1]);
      assert path[k] == before[k] == way[k];
      FirstChildIsLinked(records, way[k]);
    }
  }

  /** The walk counts only reachable blocks, whatever the records are, and all of them when none of them forks. */
  lemma ConnectedIsReachable(records: seq<BlockRecord>, summary: ChainSummary)
    requires Summarises(records, summary) && summary.hasGenesis
    ensures summary.connected <= |ReachableBlocks(records)|
    ensures NoReachableFork(records) ==> summary.connected == |ReachableBlocks(records)|
  {
    var path :| EndsWalk(records, path, summary);
    var walked := Elements(path);
    WalkEndsIff(records);
    DistinctSize(path);
    WalkIsReachable(records, path);
    SubsetSize(walked, ReachableBlocks(records));
    if NoReachableFork(records) {
      forall h | h in ReachableBlocks(records) ensures h in walked {
        var way :| Reaches(records, way, h);
        OnlyOneWay(records, path, way);
      }
      assert walked == ReachableBlocks(records);
    }
  }

  /**
   * Without cycles, and with one parent to a hash, the count falls short of the reachable blocks exactly when
   * one of them has two different children.
   */
  lemma ConnectedIsReachableIff(records: seq<BlockRecord>, summary: ChainSummary)
    requires Summarises(records, summary) && summary.hasGenesis && Acyclic(records) && OneParent(records)
    ensures summary.connected == |ReachableBlocks(records)| <==> NoReachableFork(records)
  {
    hide NoReachableFork;
    ConnectedIsReachable(records, summary);
    if summary.connected == |ReachableBlocks(records)| {
      CompleteCountHasNoFork(records, summary);
    }
  }

  lemma CompleteCountHasNoFork(records: seq<BlockRecord>, summary: ChainSummary)
    requires Summarises(records, summary) && summary.hasGenesis && Acyclic(records) && OneParent(records)
    requires summary.connected == |ReachableBlocks(records)|
    ensures NoReachableFork(records)
  {
    var path :| EndsWalk(records, path, summary);
    var walked := Elements(path);
    WalkEndsIff(records);
    DistinctSize(path);
    WalkIsReachable(records, path);
    SubsetSize(walked, ReachableBlocks(records));
    hide Completed, OneParent, Acyclic, Linked;
    forall i, j | (0 <= i < |records| && 0 <= j < |records| && records[i].previous == records[j].previous
                   && Reachable(records, records[i].previous))
      ensures records[i].hash == records[j].hash
    {
      ReachableChildIsFirst(records, path, i);
      ReachableChildIsFirst(records, path, j);
    }
  }

  lemma ReachableChildIsFirst(records: seq<BlockRecord>, path: seq<Hash>, i: nat)
    requires Completed(records, path) && Acyclic(records) && OneParent(records)
    requires i < |records| && Reachable(records, records[i].previous) && Elements(path) == ReachableBlocks(records)
    ensures FirstChild(records, records[i].previous) == Some(records[i].hash)
  {
    hide Acyclic, OneParent, FirstChild, Reachable, ReachableBlocks, Walk;
    ReachableChild(records, i);
    assert records[i].hash in Elements(path);
    var m :| 0 <= m < |path| && path[m] == records[i].hash;
    GenesisFirst(records, path);
    WalkedChildIsFirst(records, path, m, i);
  }

  lemma GenesisFirst(records: seq<BlockRecord>, path: seq<Hash>)
    requires Walk(records, path)
    ensures path[0] == GENESIS_HASH
  {
  }

  lemma LinkedAppend(records: seq<BlockRecord>, way: seq<Hash>, child: Hash)
    requires Linked(records, way) && Links(records, way[|way| - 1], child)
    ensures Linked(records, way + [child])
    ensures Acyclic(records) ==> child != way[0]
  {
    hide Links;
    var longer := way + [child];
    forall k | 0 <= k < |longer| - 1 ensures Links(records, longer[k], longer[k + 1]) {
      assert k + 1 < |way| ==> Links(records, way[k], way[k + 1]);
    }
  }

  lemma ReachableChild(records: seq<BlockRecord>, i: nat)
    requires i < |records| && Acyclic(records) && Reachable(records, records[i].previous)
    ensures records[i].hash in ReachableBlocks(records) && records[i].hash != GENESIS_HASH
  {
    var parent, child := records[i].previous, records[i].hash;
    var way :| Reaches(records, way, parent);
    assert Links(records, parent, child);
    LinkedAppend(records, way, child);
    assert Reaches(records, way + [child], child);
  }

  lemma WalkedChildIsFirst(records: seq<BlockRecord>, path: seq<Hash>, m: nat, i: nat)
    requires Walk(records, path) && OneParent(records) && 0 < m < |path|
    requires i < |records| && records[i].hash == path[m]
    ensures FirstChild(records, records[i].previous) == Some(records[i].hash)
  {
    hide FirstChild, OneParent, Links;
    var parent := path[m - 1];
    assert FirstChild(records, parent) == Some(path[m - 1 + 1]);
    FirstChildIsLinked(records, parent);
    OnlyParent(records, parent, i);
  }

  lemma OnlyParent(records: seq<BlockRecord>, parent: Hash, i: nat)
    requires OneParent(records) && i < |records| && Links(records, parent, records[i].hash)
    ensures parent == records[i].previous
  {
  }

  // ---------------------------------------------------------------- the index and the orphans

  /** The child the walk follows is that of the first record naming the parent, and there is one exactly if a record does. */
  lemma {:induction false} FirstChildIsFirst(records: seq<BlockRecord>, parent: Hash)
    ensures FirstChild(records, parent).Some? <==> exists i :: 0 <= i < |records| && records[i].previous == parent
    ensures forall i :: 0 <= i < |records| && records[i].previous == parent
                        && (forall j :: 0 <= j < i ==> records[j].previous != parent)
                        ==> FirstChild(records, parent) == Some(records[i].hash)
  {
    if records != [] {
      var rest := records[1..];
      assert forall i :: 0 <= i < |rest| ==> rest[i] == records[i + 1];
      if records[0].previous != parent {
        FirstChildIsFirst(rest, parent);
        forall i | 0 <= i < |records| && records[i].previous == parent && (forall j :: 0 <= j < i ==> records[j].previous != parent)
          ensures FirstChild(records, parent) == Some(records[i].hash)
        {
          assert rest[i - 1] == records[i];
          assert forall j :: 0 <= j < i - 1 ==> rest[j].previous != parent;
        }
      }
    }
  }

  predicate IsOrphan(record: BlockRecord, present: set<Hash>) {
    record.hash != GENESIS_HASH && record.previous !in present
  }

  /** Counting record by record, as a filter does. */
  function CountOrphans(records: seq<BlockRecord>, present: set<Hash>): nat {
    if records == [] then 0
    else CountOrphans(records[..|records| - 1], present) + if IsOrphan(records[|records| - 1], present) then 1 else 0
  }

  /** The orphan count is that of the records other than genesis whose parent is not among the blocks present. */
  lemma OrphansCounted(records: seq<BlockRecord>)
    ensures |Orphans(records)| == CountOrphans(records, Present(records))
    ensures |Orphans(records)| == 0 <==>
            forall i :: 0 <= i < |records| ==> records[i].hash == GENESIS_HASH || records[i].previous in Present(records)
  {
    OrphansUpTo(records, Present(records), |records|);
    assert records[..|records|] == records;
    assert Orphans(records) == OrphansBelow(records, Present(records), |records|);
    if |Orphans(records)| == 0 {
      forall i | 0 <= i < |records| ensures records[i].hash == GENESIS_HASH || records[i].previous in Present(records) {
        assert i !in Orphans(records);
      }
    } else {
      var i :| i in Orphans(records);
    }
  }

  function OrphansBelow(records: seq<BlockRecord>, present: set<Hash>, n: nat): set<nat>
    requires n <= |records|
  {
    set i: nat | i < n && IsOrphan(records[i], present)
  }

  lemma {:induction false} OrphansUpTo(records: seq<BlockRecord>, present: set<Hash>, n: nat)
    requires n <= |records|
    ensures |OrphansBelow(records, present, n)| == CountOrphans(records[..n], present)
  {
    hide IsOrphan;
    if n > 0 {
      var k := n - 1;
      OrphansUpTo(records, present, k);
      assert records[..n][..k] == records[..k] && records[..n][k] == records[k];
      var below, all := OrphansBelow(records, present, k), OrphansBelow(records, present, n);
      if IsOrphan(records[k], present) {
        assert all == below + {k};
      } else {
        assert all == below;
      }
    } else {
      assert OrphansBelow(records, present, 0) == {};
    }
  }

  // ---------------------------------------------------------------- the genesis constant

  lemma FourBytesText(b0: u8, b1: u8, b2: u8, b3: u8, text: string)
    requires text == Hex.ByteText(b0) + Hex.ByteText(b1) + Hex.ByteText(b2) + Hex.ByteText(b3)
    ensures Hex.Encoded([b0, b1, b2, b3]) == text
  {
    hide Hex.Encoded, Hex.ByteText;
    Hex.FourByteText(b0, b1, b2, b3);
  }

  lemma GenesisRow0()
    ensures Hex.Encoded([0x00, 0x00, 0x00, 0x00]) == "00000000" && Hex.Encoded([0x00, 0x19, 0xD6, 0x68]) == "0019d668"
  {
    hide Hex.Encoded;
    FourBytesText(0x00, 0x00, 0x00, 0x00, "00000000");
    FourBytesText(0x00, 0x19, 0xD6, 0x68, "0019d668");
  }

  lemma GenesisRow1()
    ensures Hex.Encoded([0x9C, 0x08, 0x5A, 0xE1]) == "9c085ae1" && Hex.Encoded([0x65, 0x83, 0x1E, 0x93]) == "65831e93"
  {
    hide Hex.Encoded;
    FourBytesText(0x9C, 0x08, 0x5A, 0xE1, "9c085ae1");
    FourBytesText(0x65, 0x83, 0x1E, 0x93, "65831e93");
  }

  lemma GenesisRow2()
    ensures Hex.Encoded([0x4F, 0xF7, 0x63, 0xAE]) == "4ff763ae" && Hex.Encoded([0x46, 0xA2, 0xA6, 0xC1]) == "46a2a6c1"
  {
    hide Hex.Encoded;
    FourBytesText(0x4F, 0xF7, 0x63, 0xAE, "4ff763ae");
    FourBytesText(0x46, 0xA2, 0xA6, 0xC1, "46a2a6c1");
  }

  lemma GenesisRow3()
    ensures Hex.Encoded([0x72, 0xB3, 0xF1, 0xB6]) == "72b3f1b6" && Hex.Encoded([0x0A, 0x8C, 0xE2, 0x6F]) == "0a8ce26f"
  {
    hide Hex.Encoded;
    FourBytesText(0x72, 0xB3, 0xF1, 0xB6, "72b3f1b6");
    FourBytesText(0x0A, 0x8C, 0xE2, 0x6F, "0a8ce26f");
  }

  lemma TwoTexts(row: seq<u8>, front: seq<u8>, back: seq<u8>, frontText: string, backText: string)
    requires row == front + back && Hex.Encoded(front) == frontText && Hex.Encoded(back) == backText
    ensures Hex.Encoded(row) == frontText + backText
  {
    hide Hex.Encoded;
    Hex.EncodedConcat(front, back);
  }

  /** The genesis hash as it is displayed, in eight parts. */
  lemma GenesisDisplayed()
    ensures ByteOrder.Display(GENESIS_HASH) == ("00000000" + "0019d668") + ("9c085ae1" + "65831e93") + ("4ff763ae" + "46a2a6c1") + ("72b3f1b6" + "0a8ce26f")
  {
    hide Hex.Encoded;
    var a, b, c, d: seq<u8> := [0x00, 0x00, 0x00, 0x00, 0x00, 0x19, 0xD6, 0x68], [0x9C, 0x08, 0x5A, 0xE1, 0x65, 0x83, 0x1E, 0x93], [0x4F, 0xF7, 0x63, 0xAE, 0x46, 0xA2, 0xA6, 0xC1], [0x72, 0xB3, 0xF1, 0xB6, 0x0A, 0x8C, 0xE2, 0x6F];
    GenesisRow0();
    GenesisRow1();
    GenesisRow2();
    GenesisRow3();
    TwoTexts(a, [0x00, 0x00, 0x00, 0x00], [0x00, 0x19, 0xD6, 0x68], "00000000", "0019d668");
    TwoTexts(b, [0x9C, 0x08, 0x5A, 0xE1], [0x65, 0x83, 0x1E, 0x93], "9c085ae1", "65831e93");
    TwoTexts(c, [0x4F, 0xF7, 0x63, 0xAE], [0x46, 0xA2, 0xA6, 0xC1], "4ff763ae", "46a2a6c1");
    TwoTexts(d, [0x72, 0xB3, 0xF1, 0xB6], [0x0A, 0x8C, 0xE2, 0x6F], "72b3f1b6", "0a8ce26f");
    Hex.EncodedConcat(a, b);
    Hex.EncodedConcat(a + b, c);
    Hex.EncodedConcat(a + b + c, d);
    assert Hash256.Reversed(GENESIS_HASH) == a + b + c + d;
  }
}
