/** The shared counters: every interleaving of `record` calls, one atomic or lock operation a step. */
module Stats {
  import opened Bytes
  import opened Hash256

  /** A batch to record: how many hashes it tried and the best of them. */
  datatype Batch = Batch(hashes: u64, best: Hash)

  /** How far a call of `record` has come. */
  datatype Call = Adding | Comparing | Locking | Storing | Unlocking | Done

  /** The counters, who holds the lock, and every call that will be made with its progress. */
  datatype Stats = Stats(hashes: u64, bestZeroBits: nat, best: Hash, lock: Option<nat>, calls: seq<Call>)

  function Init(batches: seq<Batch>): Stats {
    Stats(0, 0, ALL_ONES, None, seq(|batches|, _ => Adding))
  }

  predicate Enabled(s: Stats, i: nat) {
    i < |s.calls| && s.calls[i] != Done && (s.calls[i] == Locking ==> s.lock == None)
  }

  function At(s: Stats, i: nat, call: Call): Stats
    requires i < |s.calls|
  {
    s.(calls := s.calls[i := call])
  }

  /** The pending operation of call `i`. */
  function Next(s: Stats, batches: seq<Batch>, i: nat): Stats
    requires |s.calls| == |batches| && Enabled(s, i)
  {
    var b := batches[i];
    match s.calls[i]
    case Adding => At(s, i, Comparing).(hashes := (s.hashes + b.hashes) % 0x1_0000_0000_0000_0000)
    case Comparing => At(s, i, if ZeroBits(b.best) <= s.bestZeroBits then Done else Locking)
    case Locking =>
      if Value(b.best) < Value(s.best) then At(s, i, Storing).(lock := Some(i), best := b.best)
      else At(s, i, Unlocking).(lock := Some(i))
    case Storing => At(s, i, Unlocking).(bestZeroBits := ZeroBits(b.best))
    case Unlocking => At(s, i, Done).(lock := None)
  }

  predicate Runnable(s: Stats, batches: seq<Batch>, schedule: seq<nat>)
    requires |s.calls| == |batches|
    decreases |schedule|
  {
    schedule == [] || (Enabled(s, schedule[0]) && Runnable(Next(s, batches, schedule[0]), batches, schedule[1..]))
  }

  function Run(s: Stats, batches: seq<Batch>, schedule: seq<nat>): (t: Stats)
    requires |s.calls| == |batches| && Runnable(s, batches, schedule)
    ensures |t.calls| == |batches|
    decreases |schedule|
  {
    if schedule == [] then s else Run(Next(s, batches, schedule[0]), batches, schedule[1..])
  }

  // ---------------------------------------------------------------- the invariant

  /** The hashes of the calls that have added theirs. */
  function Added(calls: seq<Call>, batches: seq<Batch>): nat
    requires |calls| == |batches|
  {
    if calls == [] then 0
    else Added(calls[..|calls| - 1], batches[..|calls| - 1])
         + if calls[|calls| - 1] == Adding then 0 else batches[|calls| - 1].hashes
  }

  predicate Holding(call: Call) { call == Storing || call == Unlocking }

  /** The best zero count lags behind the best hash only while the lock holder is about to store it. */
  ghost predicate LockOk(s: Stats, batches: seq<Batch>)
    requires |s.calls| == |batches|
  {
    && (forall i :: 0 <= i < |s.calls| && Holding(s.calls[i]) ==> s.lock == Some(i))
    && (s.lock.Some? ==> s.lock.value < |s.calls| && Holding(s.calls[s.lock.value]))
    && (if s.lock.Some? && s.calls[s.lock.value] == Storing
        then s.bestZeroBits <= ZeroBits(s.best) && s.best == batches[s.lock.value].best
        else s.bestZeroBits == ZeroBits(s.best))
  }

  /** A call that has got past the comparison with the best hash has left nothing better behind. */
  ghost predicate Settled(s: Stats, batches: seq<Batch>)
    requires |s.calls| == |batches|
  {
    forall i :: 0 <= i < |s.calls| && (s.calls[i] == Done || Holding(s.calls[i])) ==> ZeroBits(batches[i].best) <= ZeroBits(s.best)
  }

  /** The best hash is the initial one, or one with leading zeros from some batch. */
  ghost predicate BestIsRecorded(s: Stats, batches: seq<Batch>) {
    s.best == ALL_ONES || exists i :: 0 <= i < |batches| && batches[i].best == s.best && ZeroBits(s.best) > 0
  }

  /** A call that got as far as the lock has leading zeros. */
  ghost predicate Promising(s: Stats, batches: seq<Batch>)
    requires |s.calls| == |batches|
  {
    forall i :: 0 <= i < |s.calls| && (s.calls[i] == Locking || Holding(s.calls[i])) ==> ZeroBits(batches[i].best) > 0
  }

  ghost predicate Inv(s: Stats, batches: seq<Batch>) {
    && |s.calls| == |batches|
    && s.hashes == Added(s.calls, batches) % 0x1_0000_0000_0000_0000
    && LockOk(s, batches) && Settled(s, batches) && BestIsRecorded(s, batches) && Promising(s, batches)
  }

  lemma {:induction false} AddedNothing(batches: seq<Batch>)
    ensures Added(seq(|batches|, _ => Adding), batches) == 0
  {
    if batches != [] {
      var calls := seq(|batches|, _ => Adding);
      assert calls[..|batches| - 1] == seq(|batches| - 1, _ => Adding);
      AddedNothing(batches[..|batches| - 1]);
    }
  }

  lemma {:induction false} AddedChange(calls: seq<Call>, batches: seq<Batch>, i: nat, call: Call)
    requires |calls| == |batches| && i < |calls| && call != Adding
    ensures Added(calls[i := call], batches)
            == Added(calls, batches) + if calls[i] == Adding then batches[i].hashes else 0
  {
    var n := |calls| - 1;
    if i < n {
      AddedChange(calls[..n], batches[..n], i, call);
      assert calls[i := call][..n] == calls[..n][i := call];
    } else {
      assert calls[i := call][..n] == calls[..n];
    }
  }

  lemma InitOk(batches: seq<Batch>)
    ensures Inv(Init(batches), batches)
  {
    AddedNothing(batches);
    AllOnesHasNoZeros();
  }

  lemma AllOnesHasNoZeros()
    ensures ZeroBits(ALL_ONES) == 0
  {
    assert Reversed(ALL_ONES)[0] == 0xFF;
  }

  lemma BestOnlyImproves(s: Stats, batches: seq<Batch>, i: nat)
    requires |s.calls| == |batches| && Enabled(s, i)
    ensures ZeroBits(Next(s, batches, i).best) >= ZeroBits(s.best)
  {
    hide ZeroBits, Value;
    if s.calls[i] == Locking && Value(batches[i].best) < Value(s.best) {
      SmallerHasNoFewerZeros(batches[i].best, s.best);
    }
  }

  lemma SettledKept(s: Stats, batches: seq<Batch>, i: nat)
    requires Inv(s, batches) && Enabled(s, i)
    ensures Settled(Next(s, batches, i), batches)
  {
    hide ZeroBits, Value, Added;
    var t := Next(s, batches, i);
    BestOnlyImproves(s, batches, i);
    if s.calls[i] == Locking && Value(batches[i].best) >= Value(s.best) {
      SmallerHasNoFewerZeros(s.best, batches[i].best);
    }
    forall k | 0 <= k < |t.calls| && (t.calls[k] == Done || Holding(t.calls[k]))
      ensures ZeroBits(batches[k].best) <= ZeroBits(t.best)
    {
      if k != i {
        assert t.calls[k] == s.calls[k];
      }
    }
  }

  lemma HashesKept(s: Stats, batches: seq<Batch>, i: nat)
    requires |s.calls| == |batches| && Enabled(s, i)
    requires s.hashes == Added(s.calls, batches) % 0x1_0000_0000_0000_0000
    ensures var t := Next(s, batches, i); t.hashes == Added(t.calls, batches) % 0x1_0000_0000_0000_0000
  {
    hide ZeroBits, Value, Added;
    var t := Next(s, batches, i);
    AddedChange(s.calls, batches, i, t.calls[i]);
    assert t.calls == s.calls[i := t.calls[i]];
  }

  lemma LockKept(s: Stats, batches: seq<Batch>, i: nat)
    requires |s.calls| == |batches| && Enabled(s, i) && LockOk(s, batches)
    ensures LockOk(Next(s, batches, i), batches)
  {
    hide ZeroBits, Value, Added;
    if s.calls[i] == Locking && Value(batches[i].best) < Value(s.best) {
      SmallerHasNoFewerZeros(batches[i].best, s.best);
    }
  }

  /** Every step keeps the invariant. */
  lemma StepKeepsInv(s: Stats, batches: seq<Batch>, i: nat)
    requires Inv(s, batches) && Enabled(s, i)
    ensures Inv(Next(s, batches, i), batches)
  {
    hide ZeroBits, Value, Added, LockOk, Settled;
    HashesKept(s, batches, i);
    LockKept(s, batches, i);
    SettledKept(s, batches, i);
  }

  lemma {:induction false} RunKeepsInv(s: Stats, batches: seq<Batch>, schedule: seq<nat>)
    requires Inv(s, batches) && Runnable(s, batches, schedule)
    ensures Inv(Run(s, batches, schedule), batches)
    decreases |schedule|
  {
    hide Inv, Next, Enabled;
    InvCount(s, batches);
    if schedule != [] {
      StepKeepsInv(s, batches, schedule[0]);
      RunKeepsInv(Next(s, batches, schedule[0]), batches, schedule[1..]);
    }
  }

  lemma InvCount(s: Stats, batches: seq<Batch>)
    requires Inv(s, batches)
    ensures |s.calls| == |batches|
  {
  }

  // ---------------------------------------------------------------- main results

  function Total(batches: seq<Batch>): nat {
    if batches == [] then 0 else Total(batches[..|batches| - 1]) + batches[|batches| - 1].hashes
  }

  predicate Quiet(s: Stats) { forall i :: 0 <= i < |s.calls| ==> s.calls[i] == Done }

  lemma {:induction false} AllAdded(calls: seq<Call>, batches: seq<Batch>)
    requires |calls| == |batches| && forall i :: 0 <= i < |calls| ==> calls[i] == Done
    ensures Added(calls, batches) == Total(batches)
  {
    if calls != [] {
      AllAdded(calls[..|calls| - 1], batches[..|calls| - 1]);
    }
  }

  /**
   * Once no call is in flight: the total is the sum of all the batches (as a 64-bit counter), the zero
   * count is that of the best hash, and it is the largest among everything recorded.
   */
  lemma QuietTotals(batches: seq<Batch>, schedule: seq<nat>)
    requires Runnable(Init(batches), batches, schedule)
    ensures var s := Run(Init(batches), batches, schedule);
            Quiet(s) ==>
              && s.hashes == Total(batches) % 0x1_0000_0000_0000_0000
              && s.bestZeroBits == ZeroBits(s.best)
              && (forall i :: 0 <= i < |batches| ==> ZeroBits(batches[i].best) <= s.bestZeroBits)
              && (s.best == ALL_ONES || exists i :: 0 <= i < |batches| && batches[i].best == s.best && s.bestZeroBits > 0)
  {
    hide ZeroBits;
    InitOk(batches);
    RunKeepsInv(Init(batches), batches, schedule);
    var s := Run(Init(batches), batches, schedule);
    if Quiet(s) {
      AllAdded(s.calls, batches);
    }
  }

  // ---------------------------------------------------------------- one call at a time

  /** The best hash and its zero count after a call of `record` that nothing interrupts. */
  function Recorded(best: Hash, zeroBits: nat, batch: Batch): (Hash, nat) {
    if ZeroBits(batch.best) <= zeroBits || Value(batch.best) >= Value(best) then (best, zeroBits)
    else (batch.best, ZeroBits(batch.best))
  }

  function AfterCall(s: Stats, batches: seq<Batch>, i: nat): Stats
    requires i < |s.calls| == |batches|
  {
    var (best, zeroBits) := Recorded(s.best, s.bestZeroBits, batches[i]);
    At(s, i, Done).(hashes := (s.hashes + batches[i].hashes) % 0x1_0000_0000_0000_0000, best := best, bestZeroBits := zeroBits)
  }

  lemma RunOne(s: Stats, batches: seq<Batch>, i: nat, rest: seq<nat>)
    requires |s.calls| == |batches| && Enabled(s, i) && Runnable(Next(s, batches, i), batches, rest)
    ensures Runnable(s, batches, [i] + rest) && Run(s, batches, [i] + rest) == Run(Next(s, batches, i), batches, rest)
  {
    hide Next, Enabled;
    assert ([i] + rest)[1..] == rest;
  }

  lemma NextCount(s: Stats, batches: seq<Batch>, i: nat)
    requires |s.calls| == |batches| && Enabled(s, i)
    ensures |Next(s, batches, i).calls| == |batches|
  {
  }

  /** A call that runs alone, while no other holds the lock, goes through the machine's own steps to this state. */
  lemma CallAlone(s: Stats, batches: seq<Batch>, i: nat) returns (schedule: seq<nat>)
    requires i < |s.calls| == |batches| && s.calls[i] == Adding && s.lock == None
    ensures forall k :: 0 <= k < |schedule| ==> schedule[k] == i
    ensures Runnable(s, batches, schedule) && Run(s, batches, schedule) == AfterCall(s, batches, i)
  {
    hide ZeroBits, Value, Run, Runnable;
    var s1 := Next(s, batches, i);
    var s2 := Next(s1, batches, i);
    schedule := FinishAlone(s2, batches, i);
    RunOne(s1, batches, i, schedule);
    RunOne(s, batches, i, [i] + schedule);
    schedule := [i] + ([i] + schedule);
  }

  lemma FinishAlone(s: Stats, batches: seq<Batch>, i: nat) returns (schedule: seq<nat>)
    requires i < |s.calls| == |batches| && s.lock == None && (s.calls[i] == Locking || s.calls[i] == Done)
    ensures forall k :: 0 <= k < |schedule| ==> schedule[k] == i
    ensures Runnable(s, batches, schedule)
    ensures var b := batches[i];
            Run(s, batches, schedule)
            == if s.calls[i] == Locking && Value(b.best) < Value(s.best)
               then At(s, i, Done).(best := b.best, bestZeroBits := ZeroBits(b.best)) else At(s, i, Done)
  {
    hide ZeroBits, Value, Run, Runnable;
    RunNothing(At(s, i, Done), batches);
    if s.calls[i] == Done {
      assert At(s, i, Done) == s;
      return [];
    }
    var s1 := Next(s, batches, i);
    var s2 := Next(s1, batches, i);
    if s1.calls[i] == Storing {
      var s3 := Next(s2, batches, i);
      assert s3 == At(s, i, Done).(best := batches[i].best, bestZeroBits := ZeroBits(batches[i].best));
      RunNothing(s3, batches);
      RunOne(s2, batches, i, []);
      RunOne(s1, batches, i, [i] + []);
      RunOne(s, batches, i, [i] + ([i] + []));
      schedule := [i] + ([i] + ([i] + []));
    } else {
      assert s2 == At(s, i, Done);
      RunOne(s1, batches, i, []);
      RunOne(s, batches, i, [i] + []);
      schedule := [i] + ([i] + []);
    }
  }

  lemma RunNothing(s: Stats, batches: seq<Batch>)
    requires |s.calls| == |batches|
    ensures Runnable(s, batches, []) && Run(s, batches, []) == s
  {
  }

  /** Calls with nothing better to offer finish one after another and leave the best hash alone. */
  lemma {:induction false} SkipRest(s: Stats, batches: seq<Batch>, k: nat) returns (schedule: seq<nat>)
    requires k <= |s.calls| == |batches| && s.lock == None
    requires forall i :: 0 <= i < |batches| ==> ZeroBits(batches[i].best) <= s.bestZeroBits
    requires forall i :: 0 <= i < |s.calls| ==> s.calls[i] == Done || (i >= k && s.calls[i] == Adding)
    ensures Runnable(s, batches, schedule)
    ensures Quiet(Run(s, batches, schedule)) && Run(s, batches, schedule).best == s.best
    decreases |batches| - k
  {
    hide ZeroBits, Value, Run, Runnable;
    if k == |batches| {
      RunNothing(s, batches);
      schedule := [];
    } else if s.calls[k] == Done {
      schedule := SkipRest(s, batches, k + 1);
    } else {
      var s1 := Next(s, batches, k);
      var s2 := Next(s1, batches, k);
      schedule := SkipRest(s2, batches, k + 1);
      RunOne(s1, batches, k, schedule);
      RunOne(s, batches, k, [k] + schedule);
      schedule := [k] + ([k] + schedule);
    }
  }

  lemma {:induction false} RunConcat(s: Stats, batches: seq<Batch>, a: seq<nat>, b: seq<nat>)
    requires |s.calls| == |batches| && Runnable(s, batches, a) && Runnable(Run(s, batches, a), batches, b)
    ensures Runnable(s, batches, a + b) && Run(s, batches, a + b) == Run(Run(s, batches, a), batches, b)
    decreases |a|
  {
    hide ZeroBits, Value;
    if a == [] {
      assert a + b == b;
    } else {
      assert (a + b)[1..] == a[1..] + b;
      NextCount(s, batches, a[0]);
      RunConcat(Next(s, batches, a[0]), batches, a[1..], b);
    }
  }

  // ---------------------------------------------------------------- which hash is kept

  /** Some interleaving of the calls ends, with none in flight, on this best hash. */
  ghost predicate EndsOn(batches: seq<Batch>, schedule: seq<nat>, best: Hash) {
    && Runnable(Init(batches), batches, schedule)
    && Quiet(Run(Init(batches), batches, schedule)) && Run(Init(batches), batches, schedule).best == best
  }

  /** No batch has more leading zeros, and it has some. */
  predicate Top(batches: seq<Batch>, j: nat) {
    && j < |batches| && ZeroBits(batches[j].best) > 0
    && forall i :: 0 <= i < |batches| ==> ZeroBits(batches[i].best) <= ZeroBits(batches[j].best)
  }

  predicate NoZeros(batches: seq<Batch>) { forall i :: 0 <= i < |batches| ==> ZeroBits(batches[i].best) == 0 }

  /** The initial best hash stays when no batch has a leading zero. */
  lemma InitialCanStay(batches: seq<Batch>) returns (schedule: seq<nat>)
    requires NoZeros(batches)
    ensures EndsOn(batches, schedule, ALL_ONES)
  {
    hide ZeroBits, Run, Runnable;
    schedule := SkipRest(Init(batches), batches, 0);
  }

  /** Every batch in the top bucket is kept by some interleaving: the one that records it first. */
  lemma TopCanWin(batches: seq<Batch>, j: nat) returns (schedule: seq<nat>)
    requires Top(batches, j)
    ensures EndsOn(batches, schedule, batches[j].best)
  {
    hide ZeroBits, Value, Run, Runnable;
    AllOnesHasNoZeros();
    MoreZerosIsSmaller(batches[j].best, ALL_ONES);
    var first := CallAlone(Init(batches), batches, j);
    var s := AfterCall(Init(batches), batches, j);
    var rest := SkipRest(s, batches, 0);
    RunConcat(Init(batches), batches, first, rest);
    schedule := first + rest;
  }

  lemma OnlyTopWins(batches: seq<Batch>, schedule: seq<nat>, best: Hash)
    requires EndsOn(batches, schedule, best)
    ensures (best == ALL_ONES && NoZeros(batches)) || exists j: nat :: Top(batches, j) && batches[j].best == best
  {
    hide ZeroBits, Run, Runnable;
    QuietTotals(batches, schedule);
    AllOnesHasNoZeros();
    if best != ALL_ONES {
      var j :| 0 <= j < |batches| && batches[j].best == best && ZeroBits(best) > 0;
      assert Top(batches, j);
    }
  }

  /**
   * Exactly which hashes the interleavings can end on: every one with the most leading zeros, in any order of
   * value; and the initial all-ones when no batch has a leading zero.
   */
  lemma PossibleBests(batches: seq<Batch>, best: Hash)
    ensures (exists schedule :: EndsOn(batches, schedule, best)) <==>
            (best == ALL_ONES && NoZeros(batches)) || exists j: nat :: Top(batches, j) && batches[j].best == best
  {
    hide NoZeros, EndsOn, ZeroBits;
    forall schedule | EndsOn(batches, schedule, best)
      ensures (best == ALL_ONES && NoZeros(batches)) || exists j: nat :: Top(batches, j) && batches[j].best == best
    {
      OnlyTopWins(batches, schedule, best);
    }
    if best == ALL_ONES && NoZeros(batches) {
      var schedule := InitialCanStay(batches);
    }
    forall j: nat | Top(batches, j) && batches[j].best == best ensures exists schedule :: EndsOn(batches, schedule, best) {
      var schedule := TopCanWin(batches, j);
    }
  }

  /** A batch whose hash is the numerically lowest of all. */
  predicate Lowest(batches: seq<Batch>, m: nat) {
    m < |batches| && forall i :: 0 <= i < |batches| ==> Value(batches[m].best) <= Value(batches[i].best)
  }

  /** The lowest hash has leading zeros, or is all ones, and every different hash has fewer of them. */
  predicate StandsAlone(batches: seq<Batch>, m: nat)
    requires m < |batches|
  {
    && (ZeroBits(batches[m].best) > 0 || batches[m].best == ALL_ONES)
    && forall i :: 0 <= i < |batches| && batches[i].best != batches[m].best ==> ZeroBits(batches[i].best) < ZeroBits(batches[m].best)
  }

  lemma LowestIsTop(batches: seq<Batch>, m: nat)
    requires Lowest(batches, m)
    ensures forall i :: 0 <= i < |batches| ==> ZeroBits(batches[i].best) <= ZeroBits(batches[m].best)
    ensures batches[m].best == ALL_ONES ==> forall i :: 0 <= i < |batches| ==> batches[i].best == ALL_ONES
  {
    hide ZeroBits, Value;
    forall i | 0 <= i < |batches| ensures ZeroBits(batches[i].best) <= ZeroBits(batches[m].best) {
      SmallerHasNoFewerZeros(batches[m].best, batches[i].best);
    }
    if batches[m].best == ALL_ONES {
      forall i | 0 <= i < |batches| ensures batches[i].best == ALL_ONES {
        AllOnesIsHighest(batches[i].best);
      }
    }
  }

  lemma AllOnesIsHighest(hash: Hash)
    ensures Value(ALL_ONES) <= Value(hash) ==> hash == ALL_ONES
  {
    AllOnesIsTop(hash);
    if Value(ALL_ONES) <= Value(hash) {
      ValueInjective(hash, ALL_ONES);
    }
  }

  /** Every interleaving ends on the lowest hash recorded exactly when that hash stands alone in its bucket. */
  lemma BestIsLowestIff(batches: seq<Batch>, m: nat)
    requires Lowest(batches, m)
    ensures (forall schedule, best :: EndsOn(batches, schedule, best) ==> best == batches[m].best) <==> StandsAlone(batches, m)
  {
    hide ZeroBits, Value, EndsOn;
    LowestIsTop(batches, m);
    AllOnesHasNoZeros();
    if StandsAlone(batches, m) {
      forall schedule, best | EndsOn(batches, schedule, best) ensures best == batches[m].best {
        OnlyTopWins(batches, schedule, best);
      }
    } else if ZeroBits(batches[m].best) == 0 && batches[m].best != ALL_ONES {
      var schedule := InitialCanStay(batches);
      assert EndsOn(batches, schedule, ALL_ONES);
    } else {
      var j :| 0 <= j < |batches| && batches[j].best != batches[m].best
               && ZeroBits(batches[j].best) >= ZeroBits(batches[m].best);
      var schedule := TopCanWin(batches, j);
      assert EndsOn(batches, schedule, batches[j].best);
    }
  }

  function TopByte(b: u8): Hash { seq(31, _ => 0) + [b] }

  /** Two batches that tie: one order of the same calls keeps the lower hash, the other keeps the higher. */
  lemma LowestCanBeMissed()
    ensures Value(TopByte(2)) < Value(TopByte(3))
    ensures exists kept :: EndsOn([Batch(1, TopByte(3)), Batch(1, TopByte(2))], kept, TopByte(2))
    ensures exists missed :: EndsOn([Batch(1, TopByte(3)), Batch(1, TopByte(2))], missed, TopByte(3))
  {
    hide ZeroBits, TopByte, EndsOn;
    TopByteZeros(2);
    TopByteZeros(3);
    TopBytes(2, 3);
    var kept := TopCanWin([Batch(1, TopByte(3)), Batch(1, TopByte(2))], 1);
    var missed := TopCanWin([Batch(1, TopByte(3)), Batch(1, TopByte(2))], 0);
  }

  lemma TopBytes(a: u8, b: u8)
    requires a < b
    ensures Value(TopByte(a)) < Value(TopByte(b))
  {
    HigherByteDecides(TopByte(a), TopByte(b), 31);
  }

  lemma TopByteZeros(b: u8)
    requires b > 0
    ensures ZeroBits(TopByte(b)) == ByteZeros(b)
  {
    assert Reversed(TopByte(b))[0] == b;
  }

  // ---------------------------------------------------------------- the counters as one thread uses them

  class Counters {
    var hashes: u64
    var bestZeroBits: nat
    var best: Hash

    /** The machine with these cells and one call still to make. */
    ghost function Before(): Stats
      reads this
    {
      Stats(hashes, bestZeroBits, best, None, [Adding])
    }

    constructor ()
      ensures Before() == Init([Batch(0, ALL_ONES)])
    {
      hashes, bestZeroBits, best := 0, 0, ALL_ONES;
    }

    /** One call: where the machine's own steps lead when nothing interrupts them. */
    method Record(batch: Batch)
      modifies this
      ensures exists schedule ::
                && Runnable(old(Before()), [batch], schedule)
                && Run(old(Before()), [batch], schedule) == Stats(hashes, bestZeroBits, best, None, [Done])
    {
      hide ZeroBits, Value, Run, Runnable;
      ghost var schedule := CallAlone(Before(), [batch], 0);
      hashes := (hashes + batch.hashes) % 0x1_0000_0000_0000_0000;
      var zeroBits := LeadingZeroBits(batch.best);
      if zeroBits <= bestZeroBits {
        return;
      }
      var below := IsBelow(batch.best, best);
      if below {
        best := batch.best;
        bestZeroBits := zeroBits;
      }
    }
  }
}
