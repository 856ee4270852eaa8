/** The nonce search, and the batches in which a mining thread sweeps the nonce space. */
module Search {
  import opened Bytes
  import opened Hash256
  import opened Header
  import opened Target
  import Midstate

  datatype Solution = Solution(nonce: u32, hash: Hash)

  datatype SearchResult = SearchResult(solution: Option<Solution>, hashes: u64, best: Hash, bestNonce: u32)

  /** The hash a nonce produces. */
  function Attempt(header: BlockHeader, nonce: u32): Hash { HashOf(header.(nonce := nonce)) }

  /** The first nonce from `low` up to but not including `high` whose hash meets the target. */
  function FirstSolution(header: BlockHeader, target: Target, low: nat, high: nat): (found: Option<u32>)
    requires high <= 0x1_0000_0000
    decreases high - low
  {
    if low >= high then None
    else if Meets(target, Attempt(header, low)) then Some(low)
    else FirstSolution(header, target, low + 1, high)
  }

  lemma {:induction false} FirstSolutionIsFirst(header: BlockHeader, target: Target, low: nat, high: nat)
    requires high <= 0x1_0000_0000
    ensures var found := FirstSolution(header, target, low, high);
            && (found.Some? ==> low <= found.value < high && Meets(target, Attempt(header, found.value)))
            && (found.Some? ==> forall n: u32 :: low <= n < found.value ==> !Meets(target, Attempt(header, n)))
            && (found.None? ==> forall n: u32 :: low <= n < high ==> !Meets(target, Attempt(header, n)))
    decreases high - low
  {
    hide Attempt, Meets;
    if low < high && !Meets(target, Attempt(header, low)) {
      FirstSolutionIsFirst(header, target, low + 1, high);
    }
  }

  /** `best` is the numerically smallest of the hashes tried, and the all-ones hash if none was tried. */
  ghost predicate IsMinimum(header: BlockHeader, low: nat, high: nat, best: Hash) {
    && (forall n: u32 :: low <= n < high ==> Value(best) <= Value(Attempt(header, n)))
    && if low < high then exists n: u32 :: low <= n < high && best == Attempt(header, n) else best == ALL_ONES
  }

  /** How many nonces a search of `low..high` tries before it stops. */
  function Tried(found: Option<u32>, low: nat, high: nat): int {
    match found
    case Some(nonce) => nonce - low + 1
    case None => if low < high then high - low else 0
  }

  /** Tries every nonce from `first` to `last` inclusive, stopping at the first solution. */
  method Search(hardware: bool, header: BlockHeader, target: Target, first: u32, last: u32) returns (r: SearchResult)
    ensures var found := FirstSolution(header, target, first, last + 1);
            && r.hashes == Tried(found, first, last + 1)
            && r.solution == (match found case None => None case Some(n) => Some(Solution(n, Attempt(header, n))))
            && IsMinimum(header, first, first + r.hashes, r.best)
            && (found.Some? ==> r.best == r.solution.value.hash && r.bestNonce == found.value)
    ensures r.best != ALL_ONES ==> first <= r.bestNonce <= last && r.best == Attempt(header, r.bestNonce)
    ensures r.best == ALL_ONES && r.solution.None? ==> r.bestNonce == 0
  {
    hide Attempt, Midstate.Prepared, Midstate.Hashed, Serialized, Value, IsMinimum, Meets;
    var bytes := Serialize(header);
    var hasher := Midstate.New(hardware, bytes);
    var hashes: u64 := 0;
    var best := ALL_ONES;
    var bestNonce: u32 := 0;
    var nonce: nat := first;
    MinimumOfNone(header, first);
    while nonce <= last
      invariant first <= nonce && hashes == nonce - first && (nonce <= last + 1 || nonce == first)
      invariant FirstSolution(header, target, nonce, last + 1) == FirstSolution(header, target, first, last + 1)
      invariant IsMinimum(header, first, nonce, best)
      invariant best != ALL_ONES ==> first <= bestNonce < nonce && best == Attempt(header, bestNonce)
      invariant best == ALL_ONES ==> bestNonce == 0
      decreases last + 1 - nonce
    {
      var hash := Midstate.HashNonce(hardware, hasher, nonce);
      AttemptIsHashed(header, nonce);
      MinimumStep(header, first, nonce, best);
      hashes := hashes + 1;
      var below := IsBelow(hash, best);
      if below {
        NoneAbove(best);
        best := hash;
        bestNonce := nonce;
      }
      var met := IsMetBy(target, hash);
      if met {
        FirstSolutionIsFirst(header, target, first, last + 1);
        SolutionIsMinimum(header, target, first, nonce);
        return SearchResult(Some(Solution(nonce, hash)), hashes, hash, nonce);
      }
      nonce := nonce + 1;
    }
    r := SearchResult(None, hashes, best, bestNonce);
  }

  lemma AttemptIsHashed(header: BlockHeader, nonce: u32)
    ensures Midstate.Hashed(Midstate.Prepared(Serialized(header)), nonce) == Attempt(header, nonce)
  {
    hide HashOf;
    HasherGivesBlockHash(header, nonce);
  }

  lemma MinimumOfNone(header: BlockHeader, low: nat)
    ensures IsMinimum(header, low, low, ALL_ONES)
  {
  }

  lemma MinimumStep(header: BlockHeader, low: nat, nonce: u32, best: Hash)
    requires low <= nonce && IsMinimum(header, low, nonce, best)
    ensures var hash := Attempt(header, nonce);
            IsMinimum(header, low, nonce + 1, if Value(hash) < Value(best) then hash else best)
  {
    hide Attempt, Value;
    var hash := Attempt(header, nonce);
    if low == nonce {
      NoneAbove(hash);
    }
  }

  lemma NoneAbove(hash: Hash)
    ensures Value(hash) <= Value(ALL_ONES)
    ensures Value(hash) >= Value(ALL_ONES) ==> hash == ALL_ONES
  {
    AllOnesIsTop(hash);
    if Value(hash) >= Value(ALL_ONES) {
      ValueInjective(hash, ALL_ONES);
    }
  }

  /** The early-return path: the first hash to meet the target is below every hash before it. */
  lemma SolutionIsMinimum(header: BlockHeader, target: Target, low: nat, nonce: u32)
    requires low <= nonce && Meets(target, Attempt(header, nonce))
    requires forall n: u32 :: low <= n < nonce ==> !Meets(target, Attempt(header, n))
    ensures IsMinimum(header, low, nonce + 1, Attempt(header, nonce))
  {
    hide Attempt;
  }

  // ---------------------------------------------------------------- batches

  const BATCH: u32 := 0x10_0000

  /** The inclusive end of the batch beginning at `start`, saturating at the top. */
  function BatchEnd(start: u32): u32 {
    if start + (BATCH - 1) <= U32_MAX then start + (BATCH - 1) else U32_MAX
  }

  /** The batches walked from `start`, as (start, end) pairs. */
  function Batches(start: u32): seq<(u32, u32)>
    decreases U32_MAX - start
  {
    var end := BatchEnd(start);
    if end == U32_MAX then [(start, end)] else [(start, end)] + Batches(end + 1)
  }

  /** No batch is backwards. */
  predicate Forward(b: seq<(u32, u32)>) { forall i :: 0 <= i < |b| ==> b[i].0 <= b[i].1 }

  predicate FollowedAt(b: seq<(u32, u32)>, i: int) {
    0 <= i < |b| - 1 ==> b[i].1 < U32_MAX && b[i + 1].0 == b[i].1 + 1
  }

  /** Each batch starts right after the one before it ends: no gap, no overlap, no overflow. */
  ghost predicate Adjoining(b: seq<(u32, u32)>) { forall i :: FollowedAt(b, i) }

  ghost predicate Tiles(b: seq<(u32, u32)>, start: u32) {
    b != [] && b[0].0 == start && b[|b| - 1].1 == U32_MAX && Forward(b) && Adjoining(b)
  }

  lemma TilesPrepend(first: (u32, u32), rest: seq<(u32, u32)>)
    requires first.0 <= first.1 < U32_MAX && Tiles(rest, first.1 + 1)
    ensures Tiles([first] + rest, first.0)
  {
    AdjoiningPrepend(first, rest);
    hide Adjoining;
    var b := [first] + rest;
    assert b[0] == first && b[|b| - 1] == rest[|rest| - 1];
    forall i | 0 <= i < |b| ensures b[i].0 <= b[i].1 {
      assert b[i] == if i == 0 then first else rest[i - 1];
    }
  }

  lemma AdjoiningPrepend(first: (u32, u32), rest: seq<(u32, u32)>)
    requires rest != [] && first.1 < U32_MAX && rest[0].0 == first.1 + 1 && Adjoining(rest)
    ensures Adjoining([first] + rest)
  {
    var b := [first] + rest;
    forall i ensures FollowedAt(b, i) {
      assert FollowedAt(rest, i - 1);
      if 0 < i < |b| - 1 {
        assert b[i] == rest[i - 1] && b[i + 1] == rest[i];
      } else if i == 0 {
        assert b[1] == rest[0];
      }
    }
  }

  /** The batches tile the nonces from `start` to the top. */
  lemma {:induction false} BatchesTile(start: u32)
    ensures Tiles(Batches(start), start)
    decreases U32_MAX - start
  {
    hide Tiles;
    var end := BatchEnd(start);
    if end == U32_MAX {
      TilesAlone(start);
    } else {
      BatchesTile(end + 1);
      TilesPrepend((start, end), Batches(end + 1));
    }
  }

  lemma TilesAlone(start: u32)
    ensures Tiles([(start, U32_MAX)], start)
  {
  }

  /** Splitting a range does not change its first solution. */
  lemma {:induction false} FirstSolutionSplits(header: BlockHeader, target: Target, low: nat, middle: nat, high: nat)
    requires low <= middle <= high <= 0x1_0000_0000
    ensures FirstSolution(header, target, low, high)
            == var first := FirstSolution(header, target, low, middle);
               if first.Some? then first else FirstSolution(header, target, middle, high)
    decreases middle - low
  {
    hide Attempt;
    if low < middle && !Meets(target, Attempt(header, low)) {
      FirstSolutionSplits(header, target, low + 1, middle, high);
    }
  }

  /**
   * One sweep of the whole nonce space in batches, as a mining thread runs it while its work stays
   * current: the same solution and the same number of hashes as one search over every nonce.
   */
  method Sweep(hardware: bool, header: BlockHeader, target: Target) returns (solution: Option<Solution>, total: nat)
    ensures var found := FirstSolution(header, target, 0, 0x1_0000_0000);
            && total == Tried(found, 0, 0x1_0000_0000)
            && solution == (match found case None => None case Some(n) => Some(Solution(n, Attempt(header, n))))
  {
    hide Attempt;
    total := 0;
    var start: u32 := 0;
    while true
      invariant total == start
      invariant FirstSolution(header, target, start, 0x1_0000_0000) == FirstSolution(header, target, 0, 0x1_0000_0000)
      decreases U32_MAX - start
    {
      var end := BatchEnd(start);
      var next: nat := end as nat + 1;
      FirstSolutionSplits(header, target, start, next, 0x1_0000_0000);
      FirstSolutionIsFirst(header, target, start, next);
      var result := Search(hardware, header, target, start, end);
      total := total + result.hashes;
      if result.solution.Some? {
        return result.solution, total;
      }
      if end == U32_MAX {
        return None, total;
      }
      start := next;
    }
  }

  /** A batch is 2^20 nonces, and the last one ends at the top. */
  lemma BatchSize(start: u32)
    ensures start <= 0xFFF0_0000 ==> BatchEnd(start) == start + 0xF_FFFF
    ensures start > 0xFFF0_0000 ==> BatchEnd(start) == 0xFFFF_FFFF
  {
  }
}
