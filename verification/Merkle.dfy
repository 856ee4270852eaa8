/** Merkle trees: the level loops, the coinbase branch, and an independent definition of the tree. */
module Merkle {
  import opened Bytes
  import Sha256

  /** How two child nodes make their parent. Everything below holds for every such function. */
  type Combiner = (Hash, Hash) -> Hash

  /** The combiner of Bitcoin's trees. */
  function Combine(left: Hash, right: Hash): Hash { Sha256.Sha256d(left + right) }

  /** The next level up; an odd level pairs its last node with itself. */
  function NextLevel(h: Combiner, level: seq<Hash>): (up: seq<Hash>)
    ensures |up| == (|level| + 1) / 2
    decreases |level|
  {
    if level == [] then []
    else if |level| == 1 then [h(level[0], level[0])]
    else [h(level[0], level[1])] + NextLevel(h, level[2..])
  }

  function RootOf(h: Combiner, level: seq<Hash>): Hash
    requires level != []
    decreases |level|
  {
    if |level| == 1 then level[0] else RootOf(h, NextLevel(h, level))
  }

  /** The sibling of the leftmost node at each level below the root. */
  function BranchOf(h: Combiner, level: seq<Hash>): seq<Hash>
    decreases |level|
  {
    if |level| <= 1 then [] else [level[1]] + BranchOf(h, NextLevel(h, level))
  }

  function FoldBranch(h: Combiner, acc: Hash, branch: seq<Hash>): Hash
    decreases |branch|
  {
    if branch == [] then acc else FoldBranch(h, h(acc, branch[0]), branch[1..])
  }

  // ---------------------------------------------------------------- the loops

  /** One pass: duplicate the last node of an odd level, then combine the pairs. */
  method PairUp(h: Combiner, level: seq<Hash>) returns (up: seq<Hash>)
    requires |level| > 1
    ensures up == NextLevel(h, level)
  {
    var even := level;
    if |even| % 2 == 1 {
      even := even + [even[|even| - 1]];
      DuplicateLast(h, level);
    }
    up := [];
    var at := 0;
    while at < |even|
      invariant 0 <= at <= |even| && at % 2 == 0
      invariant up + NextLevel(h, even[at..]) == NextLevel(h, level)
    {
      PairStep(h, up, even, at);
      up := up + [h(even[at], even[at + 1])];
      at := at + 2;
    }
  }

  lemma PairStep(h: Combiner, up: seq<Hash>, level: seq<Hash>, at: nat)
    requires at + 1 < |level|
    ensures up + [h(level[at], level[at + 1])] + NextLevel(h, level[at + 2..]) == up + NextLevel(h, level[at..])
  {
    assert level[at..][2..] == level[at + 2..];
    Assoc(up, [h(level[at], level[at + 1])], NextLevel(h, level[at + 2..]));
  }

  method MerkleRoot(h: Combiner, leaves: seq<Hash>) returns (root: Option<Hash>)
    ensures root == if leaves == [] then None else Some(RootOf(h, leaves))
  {
    if leaves == [] {
      return None;
    }
    var level := leaves;
    while |level| > 1
      invariant level != [] && RootOf(h, level) == RootOf(h, leaves)
      decreases |level|
    {
      level := PairUp(h, level);
    }
    root := Some(level[0]);
  }

  method CoinbaseBranch(h: Combiner, leaves: seq<Hash>) returns (branch: seq<Hash>)
    ensures branch == BranchOf(h, leaves)
  {
    branch := [];
    var level := leaves;
    while |level| > 1
      invariant branch + BranchOf(h, level) == BranchOf(h, leaves)
      decreases |level|
    {
      Assoc(branch, [level[1]], BranchOf(h, NextLevel(h, level)));
      branch := branch + [level[1]];
      level := PairUp(h, level);
    }
  }

  method RootFromCoinbaseBranch(h: Combiner, coinbase: Hash, branch: seq<Hash>) returns (root: Hash)
    ensures root == FoldBranch(h, coinbase, branch)
  {
    root := coinbase;
    for i := 0 to |branch|
      invariant FoldBranch(h, root, branch[i..]) == FoldBranch(h, coinbase, branch)
    {
      root := h(root, branch[i]);
      assert branch[i..][1..] == branch[i + 1..];
    }
  }

  // ---------------------------------------------------------------- levels

  /** The duplication of the last node of an odd level changes nothing above it. */
  lemma {:induction false} DuplicateLast(h: Combiner, level: seq<Hash>)
    requires |level| % 2 == 1
    ensures NextLevel(h, level + [level[|level| - 1]]) == NextLevel(h, level)
  {
    var longer := level + [level[|level| - 1]];
    if |level| > 1 {
      assert longer[2..] == level[2..] + [level[2..][|level[2..]| - 1]];
      DuplicateLast(h, level[2..]);
    } else {
      assert longer[2..] == [];
    }
  }

  lemma {:induction false} NextLevelConcat(h: Combiner, a: seq<Hash>, b: seq<Hash>)
    requires |a| % 2 == 0
    ensures NextLevel(h, a + b) == NextLevel(h, a) + NextLevel(h, b)
  {
    if a == [] {
      assert a + b == b;
    } else {
      assert (a + b)[2..] == a[2..] + b;
      NextLevelConcat(h, a[2..], b);
    }
  }

  lemma {:induction false} NextLevelAt(h: Combiner, level: seq<Hash>, i: nat)
    requires 2 * i < |level|
    ensures NextLevel(h, level)[i] == h(level[2 * i], if 2 * i + 1 < |level| then level[2 * i + 1] else level[2 * i])
  {
    if i > 0 {
      NextLevelAt(h, level[2..], i - 1);
    }
  }

  // ---------------------------------------------------------------- an independent tree

  /** How many nodes a tree over `n` leaves has at `height`. */
  function Width(n: nat, height: nat): nat {
    if height == 0 then n else (Width(n, height - 1) + 1) / 2
  }

  /** Node `index` at `height`, computed top-down from the leaves alone. */
  function Node(h: Combiner, leaves: seq<Hash>, height: nat, index: nat): Hash
    requires index < Width(|leaves|, height)
    decreases height
  {
    if height == 0 then leaves[index] else
    var left := Node(h, leaves, height - 1, 2 * index);
    var right := if 2 * index + 1 < Width(|leaves|, height - 1) then Node(h, leaves, height - 1, 2 * index + 1) else left;
    h(left, right)
  }

  function Height(n: nat): nat
    requires n > 0
  {
    if n == 1 then 0 else 1 + Height((n + 1) / 2)
  }

  lemma {:induction false} WidthShift(n: nat, height: nat)
    ensures Width((n + 1) / 2, height) == Width(n, height + 1)
  {
    if height > 0 {
      WidthShift(n, height - 1);
    }
  }

  /** A tree over the next level is the tree over this level seen one step higher. */
  lemma {:induction false} NodeShift(h: Combiner, leaves: seq<Hash>, height: nat, index: nat)
    requires index < Width(|NextLevel(h, leaves)|, height)
    ensures index < Width(|leaves|, height + 1)
    ensures Node(h, NextLevel(h, leaves), height, index) == Node(h, leaves, height + 1, index)
    decreases height
  {
    hide NextLevel;
    WidthShift(|leaves|, height);
    if height == 0 {
      NextLevelAt(h, leaves, index);
    } else {
      WidthShift(|leaves|, height - 1);
      NodeShift(h, leaves, height - 1, 2 * index);
      if 2 * index + 1 < Width(|NextLevel(h, leaves)|, height - 1) {
        NodeShift(h, leaves, height - 1, 2 * index + 1);
      }
    }
  }

  lemma {:induction false} WidthAtTop(n: nat)
    requires n > 0
    ensures Width(n, Height(n)) == 1
  {
    if n > 1 {
      WidthAtTop((n + 1) / 2);
      WidthShift(n, Height((n + 1) / 2));
    }
  }

  /** The level loop computes the root of the independent tree. */
  lemma {:induction false} RootIsTopNode(h: Combiner, leaves: seq<Hash>)
    requires leaves != []
    ensures Width(|leaves|, Height(|leaves|)) == 1
    ensures RootOf(h, leaves) == Node(h, leaves, Height(|leaves|), 0)
    decreases |leaves|
  {
    hide NextLevel;
    WidthAtTop(|leaves|);
    if |leaves| > 1 {
      RootIsTopNode(h, NextLevel(h, leaves));
      NodeShift(h, leaves, Height(|NextLevel(h, leaves)|), 0);
    }
  }

  // ---------------------------------------------------------------- the branch

  /** Folding the branch from leaf 0 gives the root. */
  lemma {:induction false} BranchRebuildsRoot(h: Combiner, leaves: seq<Hash>)
    requires leaves != []
    ensures FoldBranch(h, leaves[0], BranchOf(h, leaves)) == RootOf(h, leaves)
    decreases |leaves|
  {
    hide NextLevel;
    if |leaves| > 1 {
      NextLevelAt(h, leaves, 0);
      BranchRebuildsRoot(h, NextLevel(h, leaves));
      assert BranchOf(h, leaves)[1..] == BranchOf(h, NextLevel(h, leaves));
    }
  }

  /** The branch does not depend on leaf 0, so any placeholder may stand for the coinbase. */
  lemma {:induction false} BranchIgnoresFirst(h: Combiner, a: seq<Hash>, b: seq<Hash>)
    requires a != [] && b != [] && a[1..] == b[1..]
    ensures BranchOf(h, a) == BranchOf(h, b)
    decreases |a|
  {
    hide NextLevel;
    assert |a| == |a[1..]| + 1 && |b| == |b[1..]| + 1;
    if |a| > 1 {
      forall i | 1 <= i < |NextLevel(h, a)| ensures NextLevel(h, a)[i] == NextLevel(h, b)[i] {
        NextLevelAt(h, a, i);
        NextLevelAt(h, b, i);
        assert a[2 * i] == a[1..][2 * i - 1] && b[2 * i] == b[1..][2 * i - 1];
        if 2 * i + 1 < |a| {
          assert a[2 * i + 1] == a[1..][2 * i] && b[2 * i + 1] == b[1..][2 * i];
        }
      }
      assert NextLevel(h, a)[1..] == NextLevel(h, b)[1..];
      BranchIgnoresFirst(h, NextLevel(h, a), NextLevel(h, b));
      assert a[1] == a[1..][0] && b[1] == b[1..][0];
    }
  }

  /** The branch has ceil(log2 n) entries. */
  lemma {:induction false} BranchLength(h: Combiner, leaves: seq<Hash>)
    requires leaves != []
    ensures |leaves| <= Pow2(|BranchOf(h, leaves)|)
    ensures |leaves| > 1 ==> Pow2(|BranchOf(h, leaves)| - 1) < |leaves|
    decreases |leaves|
  {
    if |leaves| > 1 {
      BranchLength(h, NextLevel(h, leaves));
    }
  }

  // ---------------------------------------------------------------- CVE-2012-2459

  /** The next level of a list whose back half is repeated repeats the back half's next level. */
  lemma NextLevelOfCopy(h: Combiner, front: seq<Hash>, back: seq<Hash>)
    requires |front| % 2 == 0 && |back| % 2 == 0
    ensures NextLevel(h, front + back) == NextLevel(h, front) + NextLevel(h, back)
    ensures NextLevel(h, front + back + back) == NextLevel(h, front) + NextLevel(h, back) + NextLevel(h, back)
  {
    hide NextLevel;
    NextLevelConcat(h, front, back);
    EvenSum(|front|, |back|);
    NextLevelConcat(h, front + back, back);
  }

  lemma EvenSum(a: nat, b: nat)
    requires a % 2 == 0 && b % 2 == 0
    ensures (a + b) % 2 == 0
  {
    assert a + b == 2 * (a / 2 + b / 2);
  }

  /** `front` holds an even number of groups the size of `back`. */
  lemma {:induction false} CopyCollides(h: Combiner, front: seq<Hash>, back: seq<Hash>, groups: nat, k: nat)
    requires groups % 2 == 0 && groups > 0 && |back| == Pow2(k) && |front| == groups * Pow2(k)
    ensures |front| > 0
    ensures RootOf(h, front + back + back) == RootOf(h, front + back)
    decreases k
  {
    hide NextLevel, RootOf;
    NotEmpty(groups, k);
    RootStep(h, front + back);
    RootStep(h, front + back + back);
    if k == 0 {
      CopyOfOne(h, front, back);
    } else {
      HalfCount(groups, k);
      HalfCount(1, k);
      NextLevelOfCopy(h, front, back);
      CopyCollides(h, NextLevel(h, front), NextLevel(h, back), groups, k - 1);
    }
  }

  lemma CopyOfOne(h: Combiner, front: seq<Hash>, back: seq<Hash>)
    requires |front| % 2 == 0 && |back| == 1
    ensures NextLevel(h, front + back + back) == NextLevel(h, front + back)
  {
    hide NextLevel;
    var all := front + back;
    assert all + back == all + [all[|all| - 1]];
    DuplicateLast(h, all);
  }

  lemma NotEmpty(groups: nat, k: nat)
    requires groups > 0
    ensures groups * Pow2(k) >= Pow2(k)
  {
    assert groups * Pow2(k) == (groups - 1) * Pow2(k) + Pow2(k);
  }

  lemma RootStep(h: Combiner, level: seq<Hash>)
    requires |level| > 1
    ensures RootOf(h, level) == RootOf(h, NextLevel(h, level))
  {
  }

  lemma HalfCount(m: nat, k: nat)
    requires k > 0
    ensures (m * Pow2(k)) % 2 == 0 && (m * Pow2(k) + 1) / 2 == m * Pow2(k - 1)
  {
    assert m * Pow2(k) == 2 * (m * Pow2(k - 1));
  }

  /**
   * The general collision: with n = m * 2^k leaves, m odd and above 1, appending a copy of the
   * last 2^k leaves leaves the root unchanged.
   */
  lemma DuplicationCollides(h: Combiner, leaves: seq<Hash>, m: nat, k: nat)
    requires m % 2 == 1 && m > 1 && |leaves| == m * Pow2(k)
    ensures Pow2(k) < |leaves|
    ensures RootOf(h, leaves + leaves[|leaves| - Pow2(k)..]) == RootOf(h, leaves)
  {
    hide NextLevel, RootOf;
    assert m * Pow2(k) == (m - 1) * Pow2(k) + Pow2(k);
    NotEmpty(m - 1, k);
    var front, back := leaves[..|leaves| - Pow2(k)], leaves[|leaves| - Pow2(k)..];
    assert leaves == front + back;
    CopyCollides(h, front, back, m - 1, k);
  }

  // ---------------------------------------------------------------- Bitcoin's combiner

  /** A parent is the double hash of its left child's 32 bytes followed by its right child's. */
  lemma LeftThenRight(message: seq<u8>)
    requires |message| == 64
    ensures Combine(message[..32], message[32..]) == Sha256.Sha256d(message)
  {
    hide Sha256.Sha256d;
    assert message[..32] + message[32..] == message;
  }
}
