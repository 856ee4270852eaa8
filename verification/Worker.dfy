/** The shared work cell and the mining threads, as a machine whose steps are single atomic operations. */
module Worker {
  import opened Bytes
  import opened Header
  import opened Target
  import Hash256
  import Search
  import Stratum

  datatype Work = Work(job: Stratum.Job, extranonce1: seq<u8>, extranonce2Size: nat, target: Target)

  /** What a thread holds after a snapshot: the work, how many works had been published with it, the generation read. */
  datatype Hold = Hold(work: Work, version: nat, gen: nat)

  /**
   * Where a mining thread stands; each constructor waits to perform one atomic operation. Within a sweep, `late`
   * counts the batches run since the thread's generation was superseded, and `stale` those run since its work was.
   */
  datatype Pc =
    | LoadWork
    | LoadGeneration(work: Work, version: nat)
    | FirstGenerationCheck(h: Hold)
    | FirstSolvedCheck(h: Hold)
    | ClaimCounter(h: Hold)
    | GenerationCheck(h: Hold, counter: nat, start: u32, late: nat, stale: nat)
    | SolvedCheck(h: Hold, counter: nat, start: u32, late: nat, stale: nat)
    | RunBatch(h: Hold, counter: nat, start: u32, late: nat, stale: nat)
    | MarkSolved(h: Hold, counter: nat, nonce: u32)
    | SendShare(h: Hold, counter: nat, nonce: u32)
    | AwaitWork(gen: nat)

  /** One extranonce counter handed out: to which thread, and for what. */
  datatype Claim = Claim(h: Hold, thread: nat)

  datatype Submission = Submission(h: Hold, counter: nat, share: Stratum.Share)

  /**
   * The shared cells, the network thread, the mining threads, and two histories: the works published so
   * far and the claims of extranonce counters, by counter.
   */
  datatype System = System(
    current: Option<Work>, generation: nat, solved: Option<nat>, counter: nat, setting: bool,
    threads: seq<Pc>, outbound: seq<Submission>, published: seq<Work>, claims: seq<Claim>)

  datatype Event =
    | StoreWork(work: Work)
    | BumpGeneration
    | ThreadStep(i: nat)
    | WaitTimeout(i: nat)

  function Init(threads: nat): System {
    System(None, 0, None, 0, false, seq(threads, _ => LoadWork), [], [], [])
  }

  /** The extranonce a claimed counter stands for: exactly `size` bytes, big-endian, truncated from the top. */
  function Extranonce2(counter: nat, size: nat): seq<u8> { BigEndian(counter, size) }

  function HeaderOf(work: Work, counter: nat): BlockHeader {
    Stratum.HeaderFor(work.job, work.extranonce1, Extranonce2(counter, work.extranonce2Size), work.job.time, 0)
  }

  function ShareOf(work: Work, counter: nat, nonce: u32): Stratum.Share {
    Stratum.Share("worker", work.job.jobId, Extranonce2(counter, work.extranonce2Size), work.job.time, nonce)
  }

  /** The next position of a thread and the shared cells after its pending operation. */
  function Stepped(s: System, i: nat): System
    requires i < |s.threads|
  {
    match s.threads[i]
    case LoadWork =>
      At(s, i, if s.current.None? then LoadWork else LoadGeneration(s.current.value, |s.published|))
    case LoadGeneration(work, version) =>
      At(s, i, FirstGenerationCheck(Hold(work, version, s.generation)))
    case FirstGenerationCheck(h) =>
      At(s, i, if s.generation == h.gen then FirstSolvedCheck(h) else AwaitWork(h.gen))
    case FirstSolvedCheck(h) =>
      At(s, i, if s.solved == Some(h.gen) then AwaitWork(h.gen) else ClaimCounter(h))
    case ClaimCounter(h) =>
      At(s, i, GenerationCheck(h, s.counter, 0, 0, 0)).(counter := s.counter + 1, claims := s.claims + [Claim(h, i)])
    case GenerationCheck(h, counter, start, late, stale) =>
      At(s, i, if s.generation == h.gen then SolvedCheck(h, counter, start, late, stale) else LoadWork)
    case SolvedCheck(h, counter, start, late, stale) =>
      At(s, i, if s.solved == Some(h.gen) then LoadWork else RunBatch(h, counter, start, late, stale))
    case RunBatch(h, counter, start, late, stale) =>
      At(s, i, AfterBatch(h, counter, start, late + (if s.generation == h.gen then 0 else 1),
                          stale + if s.generation > h.version then 1 else 0))
    case MarkSolved(h, counter, nonce) =>
      At(s, i, SendShare(h, counter, nonce)).(solved := Some(h.gen))
    case SendShare(h, counter, nonce) =>
      At(s, i, AwaitWork(h.gen)).(outbound := s.outbound + [Submission(h, counter, ShareOf(h.work, counter, nonce))])
    case AwaitWork(gen) =>
      At(s, i, if s.generation == gen then AwaitWork(gen) else LoadWork)
  }

  function At(s: System, i: nat, pc: Pc): System
    requires i < |s.threads|
  {
    s.(threads := s.threads[i := pc])
  }

  /** A batch ends in a solution, in the exhaustion of the nonces, or in the next batch. */
  function AfterBatch(h: Hold, counter: nat, start: u32, late: nat, stale: nat): Pc {
    var end := Search.BatchEnd(start);
    match Search.FirstSolution(HeaderOf(h.work, counter), h.work.target, start, end + 1)
    case Some(nonce) => MarkSolved(h, counter, nonce)
    case None => if end == U32_MAX then LoadWork else GenerationCheck(h, counter, end + 1, late, stale)
  }

  predicate Enabled(s: System, e: Event) {
    match e
    case StoreWork(_) => !s.setting
    case BumpGeneration => s.setting
    case ThreadStep(i) => i < |s.threads|
    case WaitTimeout(i) => i < |s.threads| && s.threads[i].AwaitWork?
  }

  function Next(s: System, e: Event): System
    requires Enabled(s, e)
  {
    match e
    case StoreWork(work) => s.(current := Some(work), setting := true, published := s.published + [work])
    case BumpGeneration => s.(generation := s.generation + 1, setting := false)
    case ThreadStep(i) => Stepped(s, i)
    case WaitTimeout(i) => At(s, i, LoadWork)
  }

  predicate Runnable(s: System, events: seq<Event>)
    decreases |events|
  {
    events == [] || (Enabled(s, events[0]) && Runnable(Next(s, events[0]), events[1..]))
  }

  /** The state after a whole interleaving. */
  function Run(s: System, events: seq<Event>): System
    requires Runnable(s, events)
    decreases |events|
  {
    if events == [] then s else Run(Next(s, events[0]), events[1..])
  }

  // ---------------------------------------------------------------- the invariant

  predicate HoldOk(s: System, h: Hold) {
    && 1 <= h.version <= |s.published| && h.work == s.published[h.version - 1]
    && h.version - 1 <= h.gen <= s.generation
  }

  /** `nonce` makes the header built for a claim meet the target of that claim's own job. */
  predicate Wins(h: Hold, counter: nat, nonce: u32) {
    Meets(h.work.target, Search.Attempt(HeaderOf(h.work, counter), nonce))
  }

  predicate Claimed(s: System, h: Hold, counter: nat) {
    counter < |s.claims| && s.claims[counter].h == h
  }

  /** All batches of a sweep run on superseded work if its snapshot paired old work with a newer generation; else only late ones. */
  predicate StaleOk(h: Hold, start: u32, late: nat, stale: nat) {
    if h.gen > h.version then stale * Search.BATCH == start else stale <= late
  }

  predicate PcOk(s: System, pc: Pc) {
    match pc
    case LoadWork => true
    case LoadGeneration(work, version) =>
      1 <= version <= |s.published| && work == s.published[version - 1] && version - 1 <= s.generation
    case FirstGenerationCheck(h) => HoldOk(s, h)
    case FirstSolvedCheck(h) => HoldOk(s, h)
    case ClaimCounter(h) => HoldOk(s, h)
    case GenerationCheck(h, counter, start, late, stale) =>
      HoldOk(s, h) && Claimed(s, h, counter) && late <= 1 && (late == 1 ==> s.generation > h.gen) && StaleOk(h, start, late, stale)
    case SolvedCheck(h, counter, start, late, stale) =>
      HoldOk(s, h) && Claimed(s, h, counter) && late == 0 && StaleOk(h, start, late, stale)
    case RunBatch(h, counter, start, late, stale) =>
      HoldOk(s, h) && Claimed(s, h, counter) && late == 0 && StaleOk(h, start, late, stale)
    case MarkSolved(h, counter, nonce) => HoldOk(s, h) && Claimed(s, h, counter) && Wins(h, counter, nonce)
    case SendShare(h, counter, nonce) => HoldOk(s, h) && Claimed(s, h, counter) && Wins(h, counter, nonce)
    case AwaitWork(gen) => gen <= s.generation
  }

  predicate SubmissionOk(s: System, sub: Submission) {
    && HoldOk(s, sub.h) && Claimed(s, sub.h, sub.counter)
    && sub.share == ShareOf(sub.h.work, sub.counter, sub.share.nonce)
    && Wins(sub.h, sub.counter, sub.share.nonce)
  }

  predicate CellsOk(s: System) {
    && s.generation == |s.published| - (if s.setting then 1 else 0)
    && s.current == (if s.published == [] then None else Some(s.published[|s.published| - 1]))
    && (s.solved.Some? ==> s.solved.value <= s.generation)
    && s.counter == |s.claims|
  }

  /** The counter a thread is sweeping, if it is in a sweep. */
  function SweptCounter(pc: Pc): Option<nat> {
    match pc
    case GenerationCheck(_, counter, _, _, _) => Some(counter)
    case SolvedCheck(_, counter, _, _, _) => Some(counter)
    case RunBatch(_, counter, _, _, _) => Some(counter)
    case MarkSolved(_, counter, _) => Some(counter)
    case SendShare(_, counter, _) => Some(counter)
    case _ => None
  }

  /** A thread sweeps only a counter that was handed to it. */
  predicate Owns(s: System, i: nat, pc: Pc) {
    SweptCounter(pc).Some? ==> SweptCounter(pc).value < |s.claims| && s.claims[SweptCounter(pc).value].thread == i
  }

  /** No counter was sent twice, and none that was sent is being swept. */
  predicate SentOnce(outbound: seq<Submission>, threads: seq<Pc>) {
    && (forall j, k :: 0 <= j < k < |outbound| ==> outbound[j].counter != outbound[k].counter)
    && (forall i, k :: 0 <= i < |threads| && 0 <= k < |outbound| ==> SweptCounter(threads[i]) != Some(outbound[k].counter))
  }

  ghost predicate Inv(s: System) {
    && CellsOk(s)
    && (forall i :: 0 <= i < |s.threads| ==> PcOk(s, s.threads[i]))
    && (forall i :: 0 <= i < |s.outbound| ==> SubmissionOk(s, s.outbound[i]))
    && (forall i :: 0 <= i < |s.threads| ==> Owns(s, i, s.threads[i]))
    && SentOnce(s.outbound, s.threads)
  }

  /** The shared cells only grow: nothing that was true of a hold can be undone. */
  predicate Grows(s: System, t: System) {
    s.generation <= t.generation && s.published <= t.published && s.claims <= t.claims
  }

  lemma OkGrows(s: System, t: System, pc: Pc)
    requires Grows(s, t) && PcOk(s, pc)
    ensures PcOk(t, pc)
  {
    hide Wins;
  }

  lemma SubmissionGrows(s: System, t: System, sub: Submission)
    requires Grows(s, t) && SubmissionOk(s, sub)
    ensures SubmissionOk(t, sub)
  {
    hide Wins, ShareOf;
  }

  lemma OwnsGrows(s: System, t: System, i: nat, pc: Pc)
    requires Grows(s, t) && Owns(s, i, pc)
    ensures Owns(t, i, pc)
  {
    hide SweptCounter;
  }

  /** A finished batch leaves the thread in a legal position; a batch run after supersession is the last one. */
  lemma BatchOk(s: System, h: Hold, counter: nat, start: u32, stale: nat)
    requires HoldOk(s, h) && Claimed(s, h, counter) && StaleOk(h, start, 0, stale)
    ensures var pc := AfterBatch(h, counter, start, if s.generation == h.gen then 0 else 1,
                                 stale + if s.generation > h.version then 1 else 0);
            PcOk(s, pc) && (SweptCounter(pc).Some? ==> SweptCounter(pc).value == counter)
  {
    hide HeaderOf, Search.Attempt, Meets, HoldOk, Claimed;
    var end := Search.BatchEnd(start);
    HoldGeneration(s, h);
    Search.FirstSolutionIsFirst(HeaderOf(h.work, counter), h.work.target, start, end as nat + 1);
  }

  lemma HoldGeneration(s: System, h: Hold)
    requires HoldOk(s, h)
    ensures h.gen <= s.generation
  {
  }

  lemma StepShape(s: System, i: nat)
    requires i < |s.threads| && CellsOk(s)
    requires s.threads[i].MarkSolved? ==> s.threads[i].h.gen <= s.generation
    ensures var t := Stepped(s, i);
            && CellsOk(t) && Grows(s, t) && |t.threads| == |s.threads|
            && t.threads == s.threads[i := t.threads[i]]
  {
    hide AfterBatch, ShareOf;
    match s.threads[i] {
      case ClaimCounter(_) =>
      case MarkSolved(_, _, _) =>
      case _ =>
    }
  }

  lemma HoldGrows(s: System, t: System, h: Hold, counter: nat)
    requires Grows(s, t)
    ensures HoldOk(s, h) ==> HoldOk(t, h) && h.gen <= t.generation
    ensures Claimed(s, h, counter) ==> Claimed(t, h, counter)
  {
  }

  lemma TakingWorkOk(s: System, i: nat)
    requires i < |s.threads| && CellsOk(s) && PcOk(s, s.threads[i]) && SweptCounter(s.threads[i]).None?
    requires var t := Stepped(s, i); CellsOk(t) && Grows(s, t) && i < |t.threads|
    ensures var t := Stepped(s, i);
            PcOk(t, t.threads[i]) && Owns(t, i, t.threads[i])
            && (SweptCounter(t.threads[i]).Some? ==> SweptCounter(t.threads[i]).value == |s.claims|)
  {
    hide AfterBatch, Wins, ShareOf;
    match s.threads[i]
    case FirstGenerationCheck(h) => HoldGrows(s, Stepped(s, i), h, 0);
    case FirstSolvedCheck(h) => HoldGrows(s, Stepped(s, i), h, 0);
    case ClaimCounter(h) =>
      HoldGrows(s, Stepped(s, i), h, 0);
      assert Stepped(s, i).claims[|s.claims|] == Claim(h, i);
    case _ =>
  }

  lemma SweepingOk(s: System, i: nat)
    requires i < |s.threads| && CellsOk(s) && PcOk(s, s.threads[i]) && SweptCounter(s.threads[i]).Some?
    requires var t := Stepped(s, i); CellsOk(t) && Grows(s, t) && i < |t.threads|
    ensures var t := Stepped(s, i);
            && PcOk(t, t.threads[i])
            && (SweptCounter(t.threads[i]).Some? ==> SweptCounter(t.threads[i]) == SweptCounter(s.threads[i]))
  {
    hide AfterBatch, Wins, ShareOf, HoldOk, Claimed, CellsOk;
    var t := Stepped(s, i);
    match s.threads[i]
    case GenerationCheck(h, counter, _, _, _) => HoldGrows(s, t, h, counter);
    case SolvedCheck(h, counter, _, _, _) => HoldGrows(s, t, h, counter);
    case RunBatch(h, counter, start, late, stale) =>
      BatchOk(s, h, counter, start, stale);
      OkGrows(s, t, t.threads[i]);
    case MarkSolved(h, counter, _) => HoldGrows(s, t, h, counter);
    case SendShare(h, counter, _) => HoldGrows(s, t, h, counter);
  }

  /** The pending operation of thread `i` leads to a legal position, in the same sweep or in a newly claimed one. */
  lemma OwnStepOk(s: System, i: nat)
    requires i < |s.threads| && CellsOk(s) && PcOk(s, s.threads[i]) && Owns(s, i, s.threads[i])
    ensures var t := Stepped(s, i);
            && CellsOk(t) && Grows(s, t) && |t.threads| == |s.threads| && PcOk(t, t.threads[i]) && Owns(t, i, t.threads[i])
            && t.threads == s.threads[i := t.threads[i]]
            && (SweptCounter(t.threads[i]).Some? ==>
                  SweptCounter(t.threads[i]) == SweptCounter(s.threads[i]) || SweptCounter(t.threads[i]).value == |s.claims|)
  {
    hide Stepped, Wins, Claimed, CellsOk, SweptCounter;
    StepShape(s, i);
    if SweptCounter(s.threads[i]).Some? {
      SweepingOk(s, i);
      OwnsGrows(s, Stepped(s, i), i, s.threads[i]);
    } else {
      TakingWorkOk(s, i);
    }
  }

  lemma OwnSubmissionOk(s: System, i: nat)
    requires i < |s.threads| && CellsOk(s) && PcOk(s, s.threads[i]) && Owns(s, i, s.threads[i])
    requires forall k :: 0 <= k < |s.outbound| ==> SubmissionOk(s, s.outbound[k])
    ensures var t := Stepped(s, i); forall k :: 0 <= k < |t.outbound| ==> SubmissionOk(t, t.outbound[k])
  {
    hide AfterBatch, Wins, PcOk, SubmissionOk;
    var t := Stepped(s, i);
    OwnStepOk(s, i);
    forall k | 0 <= k < |t.outbound| ensures SubmissionOk(t, t.outbound[k]) {
      if k < |s.outbound| {
        assert t.outbound[k] == s.outbound[k];
        SubmissionGrows(s, t, s.outbound[k]);
      } else {
        SentShareOk(s, t, s.threads[i]);
      }
    }
  }

  lemma SentShareOk(s: System, t: System, pc: Pc)
    requires Grows(s, t) && PcOk(s, pc) && pc.SendShare?
    ensures SubmissionOk(t, Submission(pc.h, pc.counter, ShareOf(pc.h.work, pc.counter, pc.nonce)))
  {
    hide Wins;
  }

  lemma OthersOk(s: System, t: System, i: nat)
    requires Inv(s) && Grows(s, t) && i < |s.threads| == |t.threads| && t.threads == s.threads[i := t.threads[i]]
    requires PcOk(t, t.threads[i]) && Owns(t, i, t.threads[i])
    ensures forall k :: 0 <= k < |t.threads| ==> PcOk(t, t.threads[k]) && Owns(t, k, t.threads[k])
  {
    hide PcOk, SubmissionOk, CellsOk, Owns, SentOnce;
    forall k | 0 <= k < |t.threads| ensures PcOk(t, t.threads[k]) && Owns(t, k, t.threads[k]) {
      if k != i {
        OkGrows(s, t, s.threads[k]);
        OwnsGrows(s, t, k, s.threads[k]);
      }
    }
  }

  lemma SubmittedIsClaimed(s: System, sub: Submission)
    requires SubmissionOk(s, sub)
    ensures sub.counter < |s.claims|
  {
  }

  /** A step sends nothing, or a share of the counter its own thread was sweeping and then stops sweeping. */
  predicate SendsOnly(s: System, t: System, before: Pc, after: Pc) {
    t.outbound == s.outbound
    || (|t.outbound| == |s.outbound| + 1 && t.outbound[..|s.outbound|] == s.outbound
        && SweptCounter(after).None? && SweptCounter(before) == Some(t.outbound[|s.outbound|].counter))
  }

  lemma SendShape(s: System, i: nat)
    requires i < |s.threads|
    requires |Stepped(s, i).threads| == |s.threads|
    ensures SendsOnly(s, Stepped(s, i), s.threads[i], Stepped(s, i).threads[i])
  {
    hide AfterBatch, ShareOf;
    if s.threads[i].SendShare? {
      var t := Stepped(s, i);
      assert t.outbound[..|s.outbound|] == s.outbound;
    }
  }

  /** A thread's step sends no counter a second time, and sweeps none that was sent. */
  lemma SentOnceKept(s: System, i: nat)
    requires Inv(s) && i < |s.threads|
    ensures SentOnce(Stepped(s, i).outbound, Stepped(s, i).threads)
  {
    hide PcOk, SubmissionOk, CellsOk, SweptCounter, Stepped;
    var t := Stepped(s, i);
    OwnStepOk(s, i);
    SendShape(s, i);
    forall k | 0 <= k < |s.outbound| ensures s.outbound[k].counter < |s.claims| {
      SubmittedIsClaimed(s, s.outbound[k]);
    }
    forall j, k | 0 <= j < |t.threads| && 0 <= k < |t.outbound| ensures SweptCounter(t.threads[j]) != Some(t.outbound[k].counter) {
      if j != i {
        assert t.threads[j] == s.threads[j];
        assert Owns(s, j, s.threads[j]) && Owns(s, i, s.threads[i]);
      }
    }
  }

  /** Every step keeps the invariant. */
  lemma StepKeepsInv(s: System, e: Event)
    requires Inv(s) && Enabled(s, e)
    ensures Inv(Next(s, e)) && Grows(s, Next(s, e))
  {
    hide PcOk, SubmissionOk, Stepped, Owns, SentOnce;
    var t := Next(s, e);
    match e
    case ThreadStep(i) =>
      OwnStepOk(s, i);
      OwnSubmissionOk(s, i);
      OthersOk(s, t, i);
      SentOnceKept(s, i);
    case WaitTimeout(i) =>
      WaitingIsFree(s, t);
      OthersOk(s, t, i);
      WaitingSendsNothing(s, i);
    case _ =>
      forall k | 0 <= k < |s.threads| ensures PcOk(t, s.threads[k]) && Owns(t, k, s.threads[k]) {
        OkGrows(s, t, s.threads[k]);
        OwnsGrows(s, t, k, s.threads[k]);
      }
      forall k | 0 <= k < |s.outbound| ensures SubmissionOk(t, s.outbound[k]) {
        SubmissionGrows(s, t, s.outbound[k]);
      }
  }

  lemma WaitingIsFree(s: System, t: System)
    requires s.outbound == t.outbound && Grows(s, t)
    requires forall k :: 0 <= k < |s.outbound| ==> SubmissionOk(s, s.outbound[k])
    ensures PcOk(t, LoadWork) && forall i :: Owns(t, i, LoadWork)
    ensures forall k :: 0 <= k < |t.outbound| ==> SubmissionOk(t, t.outbound[k])
  {
    hide SubmissionOk;
    forall k | 0 <= k < |t.outbound| ensures SubmissionOk(t, t.outbound[k]) {
      SubmissionGrows(s, t, s.outbound[k]);
    }
  }

  lemma WaitingSendsNothing(s: System, i: nat)
    requires i < |s.threads| && SentOnce(s.outbound, s.threads)
    ensures SentOnce(s.outbound, At(s, i, LoadWork).threads)
  {
  }

  lemma InitOk(threads: nat)
    ensures Inv(Init(threads))
  {
  }

  /** In every interleaving, every state satisfies the invariant. */
  lemma {:induction false} RunKeepsInv(s: System, events: seq<Event>)
    requires Inv(s) && Runnable(s, events)
    ensures Inv(Run(s, events)) && Grows(s, Run(s, events))
    decreases |events|
  {
    hide Inv, Enabled, Next;
    if events != [] {
      StepKeepsInv(s, events[0]);
      RunKeepsInv(Next(s, events[0]), events[1..]);
    }
  }

  // ---------------------------------------------------------------- what every interleaving guarantees

  predicate IsCurrent(s: System, gen: nat) { s.generation == gen && s.solved != Some(gen) }

  /** Generations only grow: once superseded, a generation is never current again. */
  lemma SupersededForGood(s: System, events: seq<Event>, gen: nat)
    requires Inv(s) && Runnable(s, events) && gen < s.generation
    ensures gen < Run(s, events).generation && !IsCurrent(Run(s, events), gen)
  {
    hide Inv;
    RunKeepsInv(s, events);
  }

  /**
   * A thread whose generation has been superseded runs at most one more batch: wherever it stands in its
   * sweep it has run at most one since, and if it has run one its next operation ends the sweep.
   */
  lemma AtMostOneLateBatch(threads: nat, events: seq<Event>, i: nat)
    requires Runnable(Init(threads), events)
    ensures var s := Run(Init(threads), events);
            i < |s.threads| ==>
              && (s.threads[i].GenerationCheck? ==>
                    && s.threads[i].late <= 1
                    && (s.threads[i].late == 1 || s.threads[i].h.gen < s.generation ==> Stepped(s, i).threads[i] == LoadWork))
              && (s.threads[i].SolvedCheck? || s.threads[i].RunBatch? ==> s.threads[i].late == 0)
  {
    hide Wins, AfterBatch;
    InitOk(threads);
    RunKeepsInv(Init(threads), events);
    var s := Run(Init(threads), events);
    if i < |s.threads| {
      assert PcOk(s, s.threads[i]);
    }
  }

  /**
   * Late batches are bounded by generation; batches on superseded work are bounded exactly when the snapshot did
   * not pair the work with a newer generation. Then at most one was run and none is left; otherwise every batch of
   * the sweep is one, and the next follows as long as the generation stands.
   */
  lemma StaleWorkIff(threads: nat, events: seq<Event>, i: nat)
    requires Runnable(Init(threads), events)
    ensures var s := Run(Init(threads), events);
            i < |s.threads| && s.threads[i].GenerationCheck? ==>
              var pc := s.threads[i];
              && (pc.stale <= 1 <==> pc.h.gen <= pc.h.version || pc.start <= Search.BATCH)
              && (pc.h.gen <= pc.h.version < s.generation ==> Stepped(s, i).threads[i] == LoadWork)
              && (pc.h.gen > pc.h.version ==>
                    pc.stale * Search.BATCH == pc.start && pc.h.version < s.generation
                    && (Stepped(s, i).threads[i].SolvedCheck? <==> s.generation == pc.h.gen))
  {
    hide Wins, AfterBatch;
    InitOk(threads);
    RunKeepsInv(Init(threads), events);
    var s := Run(Init(threads), events);
    if i < |s.threads| {
      assert PcOk(s, s.threads[i]);
    }
  }

  /** Every share ever sent meets the target of the very job it was built from, for that job's own header. */
  lemma SharesMeetTheirTarget(threads: nat, events: seq<Event>, k: nat)
    requires Runnable(Init(threads), events) && k < |Run(Init(threads), events).outbound|
    ensures var sub := Run(Init(threads), events).outbound[k];
            var work, share := sub.h.work, sub.share;
            && share.jobId == work.job.jobId && share.time == work.job.time
            && share.extranonce2 == Extranonce2(sub.counter, work.extranonce2Size)
            && Meets(work.target, HashOf(Stratum.HeaderFor(work.job, work.extranonce1, share.extranonce2, share.time, share.nonce)))
  {
    hide HashOf, Meets, Stratum.MerkleRoot;
    InitOk(threads);
    RunKeepsInv(Init(threads), events);
    var sub := Run(Init(threads), events).outbound[k];
    assert SubmissionOk(Run(Init(threads), events), sub);
  }

  /** The work behind every share is one that was published. */
  lemma SubmissionWasPublished(threads: nat, events: seq<Event>, n: nat)
    requires Runnable(Init(threads), events) && n < |Run(Init(threads), events).outbound|
    ensures var s := Run(Init(threads), events);
            var h := s.outbound[n].h;
            1 <= h.version <= |s.published| && h.work == s.published[h.version - 1]
  {
    hide Wins, PcOk, Owns, SentOnce;
    InitOk(threads);
    RunKeepsInv(Init(threads), events);
    assert SubmissionOk(Run(Init(threads), events), Run(Init(threads), events).outbound[n]);
  }

  /** No counter is ever submitted twice, in any interleaving. */
  lemma CountersAreSentOnce(threads: nat, events: seq<Event>, j: nat, k: nat)
    requires Runnable(Init(threads), events)
    ensures var sent := Run(Init(threads), events).outbound;
            j < k < |sent| ==> sent[j].counter != sent[k].counter
  {
    hide PcOk, SubmissionOk, Owns;
    InitOk(threads);
    RunKeepsInv(Init(threads), events);
  }

  lemma {:induction false} RunConcat(s: System, a: seq<Event>, b: seq<Event>)
    requires Runnable(s, a) && Runnable(Run(s, a), b)
    ensures Runnable(s, a + b) && Run(s, a + b) == Run(Run(s, a), b)
    decreases |a|
  {
    hide Next, Enabled;
    if a == [] {
      assert a + b == b;
    } else {
      assert (a + b)[1..] == a[1..] + b;
      RunConcat(Next(s, a[0]), a[1..], b);
    }
  }

  /**
   * A counter belongs to one thread for good: whoever sweeps it at one moment of a run, nobody else sweeps it at
   * any later moment; and once its share is sent, nobody sweeps it at all.
   */
  lemma SweepsNeverShareACounter(threads: nat, earlier: seq<Event>, later: seq<Event>, i: nat, j: nat)
    requires Runnable(Init(threads), earlier) && Runnable(Run(Init(threads), earlier), later)
    ensures var s := Run(Init(threads), earlier);
            var t := Run(s, later);
            && (i < |s.threads| && j < |t.threads| && i != j && SweptCounter(s.threads[i]).Some? ==>
                  SweptCounter(t.threads[j]) != SweptCounter(s.threads[i]))
            && (forall k :: 0 <= k < |s.outbound| && j < |t.threads| ==> SweptCounter(t.threads[j]) != Some(s.outbound[k].counter))
  {
    hide PcOk, SubmissionOk, SweptCounter;
    InitOk(threads);
    RunKeepsInv(Init(threads), earlier);
    var s := Run(Init(threads), earlier);
    RunKeepsInv(s, later);
    var t := Run(s, later);
    SentStaysSent(s, later);
    if i < |s.threads| && j < |t.threads| {
      assert Owns(s, i, s.threads[i]) && Owns(t, j, t.threads[j]);
    }
    forall k | 0 <= k < |s.outbound| && j < |t.threads| ensures SweptCounter(t.threads[j]) != Some(s.outbound[k].counter) {
      assert t.outbound[k] == s.outbound[k];
    }
  }

  lemma {:induction false} SentStaysSent(s: System, events: seq<Event>)
    requires Runnable(s, events)
    ensures s.outbound <= Run(s, events).outbound
    decreases |events|
  {
    if events != [] {
      StepOnlySends(s, events[0]);
      SentStaysSent(Next(s, events[0]), events[1..]);
    }
  }

  lemma StepOnlySends(s: System, e: Event)
    requires Enabled(s, e)
    ensures s.outbound <= Next(s, e).outbound
  {
    hide AfterBatch, ShareOf;
  }

  lemma {:induction false} BigEndianSame(a: nat, b: nat, size: nat)
    ensures BigEndian(a, size) == BigEndian(b, size) <==> a % Pow256(size) == b % Pow256(size)
  {
    if size > 0 {
      BigEndianSame(a / 256, b / 256, size - 1);
      var (x, y) := (BigEndian(a, size), BigEndian(b, size));
      assert x[..size - 1] == BigEndian(a / 256, size - 1) && y[..size - 1] == BigEndian(b / 256, size - 1);
      assert x[size - 1] == a % 256 && y[size - 1] == b % 256;
      ModSplit(a, Pow256(size - 1));
      ModSplit(b, Pow256(size - 1));
    }
  }

  /** The remainder by 256p, from the remainders of the two parts. */
  lemma ModSplit(a: nat, p: nat)
    requires p > 0
    ensures a % (256 * p) == 256 * (a / 256 % p) + a % 256
  {
    var q, r := a / 256 / p, a / 256 % p;
    assert a / 256 == q * p + r;
    var low := 256 * r + a % 256;
    assert a == q * (256 * p) + low by {
      assert a == 256 * (q * p + r) + a % 256;
      assert 256 * (q * p) == q * (256 * p);
    }
    assert low < 256 * p;
    RemainderUnique(a, 256 * p, q, low);
  }

  /** Claimed extranonces are equal exactly when their counters agree modulo 256^size: distinct below that. */
  lemma ClaimsDiffer(a: nat, b: nat, size: nat)
    ensures Extranonce2(a, size) == Extranonce2(b, size) <==> a % Pow256(size) == b % Pow256(size)
    ensures a < Pow256(size) && b < Pow256(size) && a != b ==> Extranonce2(a, size) != Extranonce2(b, size)
  {
    BigEndianSame(a, b, size);
    if a < Pow256(size) && b < Pow256(size) {
      RemainderUnique(a, Pow256(size), 0, a);
      RemainderUnique(b, Pow256(size), 0, b);
    }
  }

  /** So two claims on one job build different coinbases, whatever the hash function does. */
  lemma ClaimsBuildDifferentCoinbases(work: Work, a: nat, b: nat)
    requires a != b && a < Pow256(work.extranonce2Size) && b < Pow256(work.extranonce2Size)
    ensures Stratum.CoinbaseBytes(work.job, work.extranonce1, Extranonce2(a, work.extranonce2Size))
            != Stratum.CoinbaseBytes(work.job, work.extranonce1, Extranonce2(b, work.extranonce2Size))
  {
    hide Extranonce2;
    var x, y := Extranonce2(a, work.extranonce2Size), Extranonce2(b, work.extranonce2Size);
    ClaimsDiffer(a, b, work.extranonce2Size);
    ClaimWidth(a, work.extranonce2Size);
    ClaimWidth(b, work.extranonce2Size);
    var n := |work.job.coinbasePrefix + work.extranonce1|;
    var cx := Stratum.CoinbaseBytes(work.job, work.extranonce1, x);
    var cy := Stratum.CoinbaseBytes(work.job, work.extranonce1, y);
    assert cx[n..n + |x|] == x && cy[n..n + |y|] == y;
  }

  lemma ClaimWidth(counter: nat, size: nat)
    ensures |Extranonce2(counter, size)| == size
  {
  }

  /** With one setter, a snapshot pairs the v-th work with a generation of at least v - 1. */
  lemma SnapshotPairing(threads: nat, events: seq<Event>, i: nat)
    requires Runnable(Init(threads), events)
    ensures var s := Run(Init(threads), events);
            i < |s.threads| && s.threads[i].FirstGenerationCheck? ==>
              var h := s.threads[i].h;
              1 <= h.version <= |s.published| && h.work == s.published[h.version - 1] && h.version - 1 <= h.gen <= s.generation
  {
    hide Wins, AfterBatch;
    InitOk(threads);
    RunKeepsInv(Init(threads), events);
    var s := Run(Init(threads), events);
    if i < |s.threads| {
      assert PcOk(s, s.threads[i]);
    }
  }

  function Bumps(events: seq<Event>): nat
    decreases |events|
  {
    if events == [] then 0 else (if events[0] == BumpGeneration then 1 else 0) + Bumps(events[1..])
  }

  predicate Elsewhere(events: seq<Event>, i: nat) {
    forall k :: 0 <= k < |events| ==> events[k] != ThreadStep(i) && events[k] != WaitTimeout(i)
  }

  lemma {:induction false} WhileElsewhere(s: System, events: seq<Event>, i: nat)
    requires i < |s.threads| && Runnable(s, events) && Elsewhere(events, i)
    ensures var t := Run(s, events);
            i < |t.threads| && t.threads[i] == s.threads[i] && t.generation == s.generation + Bumps(events)
    decreases |events|
  {
    if events != [] {
      OneElsewhere(s, events[0], i);
      WhileElsewhere(Next(s, events[0]), events[1..], i);
    }
  }

  lemma OneElsewhere(s: System, e: Event, i: nat)
    requires i < |s.threads| && Enabled(s, e) && e != ThreadStep(i) && e != WaitTimeout(i)
    ensures var t := Next(s, e);
            && i < |t.threads| && t.threads[i] == s.threads[i]
            && t.generation == s.generation + if e == BumpGeneration then 1 else 0
  {
    hide AfterBatch, ShareOf;
  }

  /** Thread `i` read the work in `s`, and reads the generation in `t`. */
  predicate Takes(s: System, i: nat, t: System) {
    && s.current.Some? && i < |t.threads|
    && Stepped(t, i) == At(t, i, FirstGenerationCheck(Hold(s.current.value, |s.published|, t.generation)))
  }

  /**
   * Exactly when a snapshot is right. Whatever happens between a thread's two loads, the generation it reads is
   * that of the work it read if and only if the generation was bumped just as often as that work was still owed:
   * once if its setter was in the middle of publishing it, and otherwise never.
   */
  lemma SnapshotIsExactIff(s: System, i: nat, between: seq<Event>)
    requires i < |s.threads| && s.threads[i] == LoadWork && s.current.Some?
    requires Runnable(Stepped(s, i), between) && Elsewhere(between, i)
    requires Inv(s)
    ensures Takes(s, i, Run(Stepped(s, i), between))
    ensures Run(Stepped(s, i), between).generation == |s.published| <==> Bumps(between) == if s.setting then 1 else 0
    ensures Run(Stepped(s, i), between).generation <= |s.published| <==> Bumps(between) <= if s.setting then 1 else 0
  {
    hide Run, Runnable, Stepped, PcOk, SubmissionOk, Owns, SentOnce, Elsewhere, Bumps;
    Loads(s, i);
    WhileElsewhere(Stepped(s, i), between, i);
    Loads(Run(Stepped(s, i), between), i);
  }

  lemma Loads(s: System, i: nat)
    requires i < |s.threads|
    ensures s.threads[i] == LoadWork && s.current.Some? ==>
              Stepped(s, i) == At(s, i, LoadGeneration(s.current.value, |s.published|))
    ensures s.threads[i].LoadGeneration? ==>
              Stepped(s, i) == At(s, i, FirstGenerationCheck(Hold(s.threads[i].work, s.threads[i].version, s.generation)))
  {
    hide AfterBatch, ShareOf;
  }

  /** The bound is all there is: the lock is released before the generation is read, so old work can get a newer generation. */
  lemma SnapshotCanBeTorn(old_: Work, new_: Work)
    ensures var events := [StoreWork(old_), BumpGeneration, ThreadStep(0), StoreWork(new_), BumpGeneration, ThreadStep(0)];
            && Runnable(Init(1), events)
            && var s := Run(Init(1), events);
               && s.threads == [FirstGenerationCheck(Hold(old_, 1, 2))]
               && s.current == Some(new_) && IsCurrent(s, 2)
  {
    hide AfterBatch;
    var s0 := Init(1);
    var s1 := Next(s0, StoreWork(old_));
    var s2 := Next(s1, BumpGeneration);
    var s3 := Next(s2, ThreadStep(0));
    var s4 := Next(s3, StoreWork(new_));
    var s5 := Next(s4, BumpGeneration);
    var s6 := Next(s5, ThreadStep(0));
    RunOne(s5, ThreadStep(0), []);
    RunOne(s4, BumpGeneration, [ThreadStep(0)]);
    RunOne(s3, StoreWork(new_), [BumpGeneration, ThreadStep(0)]);
    RunOne(s2, ThreadStep(0), [StoreWork(new_), BumpGeneration, ThreadStep(0)]);
    RunOne(s1, BumpGeneration, [ThreadStep(0), StoreWork(new_), BumpGeneration, ThreadStep(0)]);
    RunOne(s0, StoreWork(old_), [BumpGeneration, ThreadStep(0), StoreWork(new_), BumpGeneration, ThreadStep(0)]);
    assert s6.threads == [FirstGenerationCheck(Hold(old_, 1, 2))];
  }

  lemma RunOne(s: System, e: Event, rest: seq<Event>)
    requires Enabled(s, e) && Runnable(Next(s, e), rest)
    ensures Runnable(s, [e] + rest) && Run(s, [e] + rest) == Run(Next(s, e), rest)
  {
    assert ([e] + rest)[1..] == rest;
  }

  /**
   * A solved generation becomes workable again exactly when a thread still holding an older generation
   * performs its own solved-mark: the cell remembers only the last mark.
   */
  lemma UnretiredOnlyByALateSolver(s: System, e: Event)
    requires Inv(s) && Enabled(s, e) && s.solved == Some(s.generation)
    ensures IsCurrent(Next(s, e), s.generation) <==>
            e.ThreadStep? && s.threads[e.i].MarkSolved? && s.threads[e.i].h.gen < s.generation
  {
    hide AfterBatch, Wins, SubmissionOk;
    if e.ThreadStep? {
      assert PcOk(s, s.threads[e.i]);
    }
  }

  /** The highest target, which every hash meets. */
  const EASY_TARGET: Target := Hash256.Ones(32)

  lemma EverythingMeets(hash: Hash)
    ensures Meets(EASY_TARGET, hash)
  {
    Hash256.AllOnesIsTop(hash);
    Hash256.ReversedValue(EASY_TARGET);
    assert Hash256.Reversed(EASY_TARGET) == EASY_TARGET;
  }

  function Steps(i: nat, n: nat): seq<Event>
    decreases n, i
  {
    if n == 0 then [] else [ThreadStep(i)] + Steps(i, n - 1)
  }

  /** What eight steps of a thread do from fresh work that every hash solves: it stands before its solved-mark. */
  function Solving(s: System, i: nat): System
    requires i < |s.threads| && s.current.Some?
  {
    var h := Hold(s.current.value, |s.published|, s.generation);
    At(s, i, MarkSolved(h, s.counter, 0)).(counter := s.counter + 1, claims := s.claims + [Claim(h, i)])
  }

  lemma EasySolution(h: Hold, counter: nat)
    requires h.work.target == EASY_TARGET
    ensures forall stale :: AfterBatch(h, counter, 0, 0, stale) == MarkSolved(h, counter, 0)
  {
    hide HeaderOf, Search.Attempt;
    EverythingMeets(Search.Attempt(HeaderOf(h.work, counter), 0));
  }

  /** From fresh unsolved work to the claim of a counter. */
  lemma StepsToClaim(s: System, i: nat)
    requires i < |s.threads| && s.threads[i] == LoadWork && s.current.Some? && s.solved != Some(s.generation)
    ensures var h := Hold(s.current.value, |s.published|, s.generation);
            && Runnable(s, Steps(i, 4)) && Run(s, Steps(i, 4)) == At(s, i, ClaimCounter(h))
  {
    hide AfterBatch, Run, Runnable;
    var h := Hold(s.current.value, |s.published|, s.generation);
    var s1 := At(s, i, LoadGeneration(h.work, h.version));
    var s2 := At(s, i, FirstGenerationCheck(h));
    var s3 := At(s, i, FirstSolvedCheck(h));
    assert Stepped(s, i) == s1 && Stepped(s1, i) == s2 && Stepped(s2, i) == s3 && Stepped(s3, i) == At(s, i, ClaimCounter(h));
    RunNothing(At(s, i, ClaimCounter(h)));
    StepThenRun(s3, i, 0);
    StepThenRun(s2, i, 1);
    StepThenRun(s1, i, 2);
    StepThenRun(s, i, 3);
  }

  /** From the claim of a counter through one batch. */
  lemma StepsToSolution(s: System, i: nat)
    requires i < |s.threads| && s.threads[i].ClaimCounter? && s.threads[i].h.gen == s.generation && s.solved != Some(s.generation)
    requires s.threads[i].h.work.target == EASY_TARGET
    ensures var h := s.threads[i].h;
            && Runnable(s, Steps(i, 4))
            && Run(s, Steps(i, 4)) == At(s, i, MarkSolved(h, s.counter, 0)).(counter := s.counter + 1, claims := s.claims + [Claim(h, i)])
  {
    hide AfterBatch, Run, Runnable;
    var h := s.threads[i].h;
    EasySolution(h, s.counter);
    var s1 := At(s, i, GenerationCheck(h, s.counter, 0, 0, 0)).(counter := s.counter + 1, claims := s.claims + [Claim(h, i)]);
    var s2 := At(s1, i, SolvedCheck(h, s.counter, 0, 0, 0));
    var s3 := At(s1, i, RunBatch(h, s.counter, 0, 0, 0));
    assert Stepped(s, i) == s1 && Stepped(s1, i) == s2 && Stepped(s2, i) == s3;
    RunNothing(Stepped(s3, i));
    StepThenRun(s3, i, 0);
    StepThenRun(s2, i, 1);
    StepThenRun(s1, i, 2);
    StepThenRun(s, i, 3);
  }

  lemma ThreadSolves(s: System, i: nat)
    requires i < |s.threads| && s.threads[i] == LoadWork && s.solved != Some(s.generation)
    requires s.current.Some? && s.current.value.target == EASY_TARGET
    ensures Runnable(s, Steps(i, 8)) && Run(s, Steps(i, 8)) == Solving(s, i)
  {
    hide Run, Runnable;
    StepsToClaim(s, i);
    StepsToSolution(Run(s, Steps(i, 4)), i);
    RunConcat(s, Steps(i, 4), Steps(i, 4));
    StepsAdd(i, 4, 4);
  }

  lemma {:induction false} StepsAdd(i: nat, m: nat, n: nat)
    ensures Steps(i, m) + Steps(i, n) == Steps(i, m + n)
  {
    if m == 0 {
      assert Steps(i, 0) + Steps(i, n) == Steps(i, n);
    } else {
      StepsAdd(i, m - 1, n);
      Assoc([ThreadStep(i)], Steps(i, m - 1), Steps(i, n));
    }
  }

  lemma RunNothing(s: System)
    ensures Runnable(s, []) && Run(s, []) == s
  {
  }

  lemma StepThenRun(s: System, i: nat, n: nat)
    requires i < |s.threads| && Runnable(Stepped(s, i), Steps(i, n))
    ensures Runnable(s, Steps(i, n + 1)) && Run(s, Steps(i, n + 1)) == Run(Stepped(s, i), Steps(i, n))
  {
    hide Stepped, Run, Runnable;
    RunOne(s, ThreadStep(i), Steps(i, n));
  }

  /** One more batch on superseded work: its generation stands, nobody solved it, and the batch finds nothing. */
  lemma StaleBatch(s: System, i: nat, h: Hold, counter: nat, start: u32, late: nat, stale: nat)
    requires i < |s.threads| && s.threads[i] == GenerationCheck(h, counter, start, late, stale)
    requires h.version < h.gen == s.generation && s.solved != Some(s.generation) && start + Search.BATCH <= U32_MAX
    requires Search.FirstSolution(HeaderOf(h.work, counter), h.work.target, start, start + Search.BATCH) == None
    ensures Runnable(s, Steps(i, 3))
    ensures Run(s, Steps(i, 3)) == At(s, i, GenerationCheck(h, counter, start + Search.BATCH, late, stale + 1))
  {
    hide HeaderOf, Search.FirstSolution, Run, Runnable;
    var s1 := At(s, i, SolvedCheck(h, counter, start, late, stale));
    var s2 := At(s, i, RunBatch(h, counter, start, late, stale));
    var s3 := At(s, i, GenerationCheck(h, counter, start + Search.BATCH, late, stale + 1));
    assert Stepped(s, i) == s1 && Stepped(s1, i) == s2 && Stepped(s2, i) == s3;
    RunNothing(s3);
    StepThenRun(s2, i, 0);
    StepThenRun(s1, i, 1);
    StepThenRun(s, i, 2);
  }

  /**
   * So a thread whose snapshot paired old work with the current generation runs any number of batches on that
   * work, up to the end of its sweep, while nothing new is published and they find nothing.
   */
  lemma {:induction false} StaleSweepGoesOn(
    s: System, i: nat, h: Hold, counter: nat, start: u32, late: nat, stale: nat, batches: nat)
    requires i < |s.threads| && s.threads[i] == GenerationCheck(h, counter, start, late, stale)
    requires h.version < h.gen == s.generation && s.solved != Some(s.generation) && start + batches * Search.BATCH <= U32_MAX
    requires Search.FirstSolution(HeaderOf(h.work, counter), h.work.target, start, start + batches * Search.BATCH) == None
    ensures Runnable(s, Steps(i, 3 * batches))
    ensures Run(s, Steps(i, 3 * batches))
            == At(s, i, GenerationCheck(h, counter, start + batches * Search.BATCH, late, stale + batches))
    decreases batches
  {
    hide HeaderOf, Search.FirstSolution, Run, Runnable, Steps;
    if batches == 0 {
      NoSteps(s, i);
      assert At(s, i, s.threads[i]) == s;
    } else {
      var next := start + Search.BATCH;
      Search.FirstSolutionSplits(HeaderOf(h.work, counter), h.work.target, start, next, start + batches * Search.BATCH);
      StaleBatch(s, i, h, counter, start, late, stale);
      var t := At(s, i, GenerationCheck(h, counter, next, late, stale + 1));
      StaleSweepGoesOn(t, i, h, counter, next, late, stale + 1, batches - 1);
      RunConcat(s, Steps(i, 3), Steps(i, 3 * (batches - 1)));
      StepsAdd(i, 3, 3 * (batches - 1));
    }
  }

  lemma NoSteps(s: System, i: nat)
    ensures Runnable(s, Steps(i, 0)) && Run(s, Steps(i, 0)) == s
  {
  }

  /** Publishing one work from an idle network thread. */
  lemma Publishes(s: System, work: Work)
    requires !s.setting
    ensures Runnable(s, [StoreWork(work), BumpGeneration])
    ensures Run(s, [StoreWork(work), BumpGeneration])
            == s.(current := Some(work), published := s.published + [work], generation := s.generation + 1)
  {
    hide Stepped;
    var stored := Next(s, StoreWork(work));
    RunNothing(Next(stored, BumpGeneration));
    RunOne(stored, BumpGeneration, []);
    RunOne(s, StoreWork(work), [BumpGeneration] + []);
    assert [StoreWork(work)] + ([BumpGeneration] + []) == [StoreWork(work), BumpGeneration];
  }

  /**
   * Thread 0 solves the first work and is about to mark it; the second work arrives; thread 1 solves that one and
   * marks it.
   */
  function RetiringRun(first: Work, second: Work): seq<Event> {
    [StoreWork(first), BumpGeneration] + Steps(0, 8) + [StoreWork(second), BumpGeneration] + Steps(1, 8) + [ThreadStep(1)]
  }

  /** In that run the second generation is solved and retired, until thread 0's late mark makes it workable again. */
  lemma SolvedCanBeUnretired(first: Work, second: Work)
    requires first.target == EASY_TARGET && second.target == EASY_TARGET
    ensures Runnable(Init(2), RetiringRun(first, second))
    ensures var s := Run(Init(2), RetiringRun(first, second));
            && s.generation == 2 && s.solved == Some(2) && !IsCurrent(s, 2)
            && Enabled(s, ThreadStep(0)) && IsCurrent(Next(s, ThreadStep(0)), 2)
  {
    hide AfterBatch, Run, Runnable, Steps;
    var s0 := Init(2);
    Publishes(s0, first);
    var s1 := Run(s0, [StoreWork(first), BumpGeneration]);
    ThreadSolves(s1, 0);
    RunConcat(s0, [StoreWork(first), BumpGeneration], Steps(0, 8));
    var s2 := Solving(s1, 0);
    Publishes(s2, second);
    RunConcat(s0, [StoreWork(first), BumpGeneration] + Steps(0, 8), [StoreWork(second), BumpGeneration]);
    var s3 := Run(s2, [StoreWork(second), BumpGeneration]);
    ThreadSolves(s3, 1);
    RunConcat(s0, [StoreWork(first), BumpGeneration] + Steps(0, 8) + [StoreWork(second), BumpGeneration], Steps(1, 8));
    var s4 := Solving(s3, 1);
    RunNothing(Next(s4, ThreadStep(1)));
    RunOne(s4, ThreadStep(1), []);
    RunConcat(s0, [StoreWork(first), BumpGeneration] + Steps(0, 8) + [StoreWork(second), BumpGeneration] + Steps(1, 8),
              [ThreadStep(1)] + []);
    assert [ThreadStep(1)] + [] == [ThreadStep(1)];
  }

  // ---------------------------------------------------------------- after a solution

  /** No thread performs a solved-mark for another generation than `g`. */
  predicate OnlyMarks(s: System, events: seq<Event>, g: nat)
    requires Runnable(s, events)
    decreases |events|
  {
    events == []
    || ((events[0].ThreadStep? && s.threads[events[0].i].MarkSolved? ==> s.threads[events[0].i].h.gen == g)
        && OnlyMarks(Next(s, events[0]), events[1..], g))
  }

  predicate RunsBatch(s: System, e: Event, i: nat, g: nat) {
    e == ThreadStep(i) && i < |s.threads| && s.threads[i].RunBatch? && s.threads[i].h.gen == g
  }

  predicate Claims(s: System, e: Event, i: nat, g: nat) {
    e == ThreadStep(i) && i < |s.threads| && s.threads[i].ClaimCounter? && s.threads[i].h.gen == g
  }

  /** How many batches thread `i` runs on holds of generation `g`. */
  function BatchesRun(s: System, events: seq<Event>, i: nat, g: nat): nat
    requires Runnable(s, events)
    decreases |events|
  {
    if events == [] then 0
    else (if RunsBatch(s, events[0], i, g) then 1 else 0) + BatchesRun(Next(s, events[0]), events[1..], i, g)
  }

  /** How many counters thread `i` claims for generation `g`. */
  function CountersClaimed(s: System, events: seq<Event>, i: nat, g: nat): nat
    requires Runnable(s, events)
    decreases |events|
  {
    if events == [] then 0
    else (if Claims(s, events[0], i, g) then 1 else 0) + CountersClaimed(Next(s, events[0]), events[1..], i, g)
  }

  /** The thread has passed both checks of its next batch. */
  predicate BeforeBatch(s: System, i: nat, g: nat) { i < |s.threads| && s.threads[i].RunBatch? && s.threads[i].h.gen == g }

  /** The thread has passed both checks of its next claim. */
  predicate BeforeClaim(s: System, i: nat, g: nat) { i < |s.threads| && s.threads[i].ClaimCounter? && s.threads[i].h.gen == g }

  /** With `g` solved, no step brings a thread before a batch or a claim for it. */
  lemma RetiredStep(s: System, e: Event, i: nat, g: nat)
    requires Enabled(s, e) && s.solved == Some(g)
    requires e.ThreadStep? && s.threads[e.i].MarkSolved? ==> s.threads[e.i].h.gen == g
    ensures var t := Next(s, e);
            && t.solved == Some(g)
            && (BeforeBatch(t, i, g) ==> BeforeBatch(s, i, g) && !RunsBatch(s, e, i, g))
            && (BeforeClaim(t, i, g) ==> BeforeClaim(s, i, g) && !Claims(s, e, i, g))
  {
    hide HeaderOf, ShareOf, Search.FirstSolution;
    if e.ThreadStep? {
      match s.threads[e.i] {
        case RunBatch(_, _, _, _, _) =>
        case SolvedCheck(_, _, _, _, _) =>
        case FirstSolvedCheck(_) =>
        case _ =>
      }
    }
  }

  /**
   * A solved generation is retired at once, in every interleaving, unless a holder of another generation overwrites
   * the mark: each thread runs at most the one batch it had already passed both checks for, and claims at most the
   * one counter it had already passed both checks for.
   */
  lemma {:induction false} SolvedIsRetired(s: System, events: seq<Event>, i: nat, g: nat)
    requires Runnable(s, events) && s.solved == Some(g) && OnlyMarks(s, events, g)
    ensures Run(s, events).solved == Some(g)
    ensures BatchesRun(s, events, i, g) <= if BeforeBatch(s, i, g) then 1 else 0
    ensures CountersClaimed(s, events, i, g) <= if BeforeClaim(s, i, g) then 1 else 0
    decreases |events|
  {
    hide Next, Enabled, RunsBatch, Claims, BeforeBatch, BeforeClaim;
    if events != [] {
      RetiredStep(s, events[0], i, g);
      OnlyWhenBefore(s, events[0], i, g);
      SolvedIsRetired(Next(s, events[0]), events[1..], i, g);
    }
  }

  lemma OnlyWhenBefore(s: System, e: Event, i: nat, g: nat)
    ensures RunsBatch(s, e, i, g) ==> BeforeBatch(s, i, g)
    ensures Claims(s, e, i, g) ==> BeforeClaim(s, i, g)
  {
  }

  // ---------------------------------------------------------------- one whole sweep, and the wait after it

  /** Thread `i` alone gets from `s` to `t`. */
  ghost predicate Alone(s: System, i: nat, t: System) { exists n :: AloneIn(s, i, t, n) }

  ghost predicate AloneIn(s: System, i: nat, t: System, n: nat) { Runnable(s, Steps(i, n)) && Run(s, Steps(i, n)) == t }

  lemma AloneStep(s: System, i: nat, t: System)
    requires i < |s.threads| && Alone(Stepped(s, i), i, t)
    ensures Alone(s, i, t)
  {
    hide Stepped, Run, Runnable, Steps;
    var n: nat :| AloneIn(Stepped(s, i), i, t, n);
    StepThenRun(s, i, n);
    assert AloneIn(s, i, t, n + 1);
  }

  lemma AloneHere(s: System, i: nat)
    ensures Alone(s, i, s)
  {
    NoSteps(s, i);
    assert AloneIn(s, i, s, 0);
  }

  /** Where a sweep ends that has tried every nonce from `start`. */
  function SweepEnd(h: Hold, counter: nat, start: u32): Pc {
    match Search.FirstSolution(HeaderOf(h.work, counter), h.work.target, start, 0x1_0000_0000)
    case Some(nonce) => MarkSolved(h, counter, nonce)
    case None => LoadWork
  }

  /**
   * A sweep that nothing interrupts tries every nonce that is left: it ends before the solved-mark of the first one
   * that solves, or, if none does, back where a new snapshot is taken.
   */
  lemma {:induction false} SweepTriesEveryNonce(s: System, i: nat, h: Hold, counter: nat, start: u32, late: nat, stale: nat)
    requires i < |s.threads| && s.threads[i] == GenerationCheck(h, counter, start, late, stale)
    requires h.gen == s.generation && s.solved != Some(s.generation)
    ensures Alone(s, i, At(s, i, SweepEnd(h, counter, start)))
    decreases U32_MAX - start
  {
    hide HeaderOf, Search.FirstSolution, Alone, AloneIn;
    var s1 := At(s, i, SolvedCheck(h, counter, start, late, stale));
    var s2 := At(s, i, RunBatch(h, counter, start, late, stale));
    var more := stale + if s.generation > h.version then 1 else 0;
    var end := Search.BatchEnd(start);
    Search.FirstSolutionSplits(HeaderOf(h.work, counter), h.work.target, start, end as nat + 1, 0x1_0000_0000);
    NoneLeft(h, counter);
    var s3 := At(s, i, AfterBatch(h, counter, start, late, more));
    assert Stepped(s, i) == s1 && Stepped(s1, i) == s2 && Stepped(s2, i) == s3;
    if s3.threads[i].GenerationCheck? {
      SweepTriesEveryNonce(s3, i, h, counter, end + 1, late, more);
    } else {
      AloneHere(s3, i);
    }
    assert At(s3, i, SweepEnd(h, counter, start)) == At(s, i, SweepEnd(h, counter, start));
    AloneStep(s2, i, At(s, i, SweepEnd(h, counter, start)));
    AloneStep(s1, i, At(s, i, SweepEnd(h, counter, start)));
    AloneStep(s, i, At(s, i, SweepEnd(h, counter, start)));
  }

  lemma NoneLeft(h: Hold, counter: nat)
    ensures Search.FirstSolution(HeaderOf(h.work, counter), h.work.target, 0x1_0000_0000, 0x1_0000_0000) == None
  {
    hide HeaderOf;
  }

  /** A waiting thread stays while its generation stands and its timeout does not fire, whatever else happens, and then leaves. */
  lemma {:induction false} WaitsForNewWork(s: System, events: seq<Event>, i: nat, g: nat)
    requires i < |s.threads| && s.threads[i] == AwaitWork(g) && s.generation == g && Runnable(s, events)
    requires Bumps(events) == 0 && forall k :: 0 <= k < |events| ==> events[k] != WaitTimeout(i)
    ensures var t := Run(s, events);
            && i < |t.threads| && t.threads[i] == AwaitWork(g) && t.generation == g
            && Stepped(t.(generation := g + 1), i).threads[i] == LoadWork
    decreases |events|
  {
    hide AfterBatch, ShareOf;
    if events != [] {
      StaysWaiting(s, events[0], i, g);
      WaitsForNewWork(Next(s, events[0]), events[1..], i, g);
    }
  }

  lemma StaysWaiting(s: System, e: Event, i: nat, g: nat)
    requires i < |s.threads| && s.threads[i] == AwaitWork(g) && s.generation == g && Enabled(s, e)
    requires e != BumpGeneration && e != WaitTimeout(i)
    ensures var t := Next(s, e); i < |t.threads| && t.threads[i] == AwaitWork(g) && t.generation == g
  {
    hide AfterBatch, ShareOf;
    if e != ThreadStep(i) {
      OneElsewhere(s, e, i);
    }
  }

  /**
   * A solution is marked, then sent once as a share of the held job, the claimed extranonce, the job's time and the
   * nonce found; and the thread waits for newer work.
   */
  lemma SolutionIsSent(s: System, i: nat, h: Hold, counter: nat, nonce: u32)
    requires i < |s.threads| && s.threads[i] == MarkSolved(h, counter, nonce)
    ensures var share := Stratum.Share("worker", h.work.job.jobId, Extranonce2(counter, h.work.extranonce2Size), h.work.job.time, nonce);
            Stepped(Stepped(s, i), i)
            == At(s, i, AwaitWork(h.gen)).(solved := Some(h.gen), outbound := s.outbound + [Submission(h, counter, share)])
  {
    hide AfterBatch;
    var t := Stepped(s, i);
    assert t.threads[i] == SendShare(h, counter, nonce);
  }

  /** A sweep whose work is no longer current, superseded or solved, goes back for a new snapshot and leaves nothing behind. */
  lemma SweepGivesUp(s: System, i: nat, h: Hold, counter: nat, start: u32, late: nat, stale: nat)
    requires i < |s.threads|
    ensures s.threads[i] == GenerationCheck(h, counter, start, late, stale) && s.generation != h.gen ==> Stepped(s, i) == At(s, i, LoadWork)
    ensures s.threads[i] == SolvedCheck(h, counter, start, late, stale) && s.solved == Some(h.gen) ==> Stepped(s, i) == At(s, i, LoadWork)
  {
    hide AfterBatch, ShareOf;
  }

  /** The claimed bytes are the counter's value modulo 256^size, most significant byte first. */
  lemma {:induction false} ExtranonceValue(counter: nat, size: nat)
    ensures |Extranonce2(counter, size)| == size && FromBigEndian(Extranonce2(counter, size)) == counter % Pow256(size)
  {
    if size > 0 {
      ExtranonceValue(counter / 256, size - 1);
      var x := BigEndian(counter, size);
      assert x[..size - 1] == BigEndian(counter / 256, size - 1);
      ModSplit(counter, Pow256(size - 1));
    }
  }

  // ---------------------------------------------------------------- the code's own small loops

  /** Fills a buffer of exactly `size` bytes with the counter's low bytes, from the end. */
  method EncodeExtranonce2(counter: u64, size: nat) returns (extranonce2: seq<u8>)
    ensures extranonce2 == Extranonce2(counter, size)
  {
    var bytes := BigEndian(counter, 8);
    var buffer := new u8[size](_ => 0);
    var copy := if size < 8 then size else 8;
    forall i | 0 <= i < copy {
      buffer[size - copy + i] := bytes[8 - copy + i];
    }
    forall i | 0 <= i < size ensures buffer[i] == BigEndian(counter, size)[i] {
      BigEndianAt(counter, size, i);
      if size - copy <= i {
        BigEndianAt(counter, 8, i + 8 - size);
      } else {
        HighBytesAreZero(counter, size - 1 - i);
      }
    }
    extranonce2 := buffer[..];
  }

  function Shifted(value: nat, n: nat): nat {
    if n == 0 then value else Shifted(value / 256, n - 1)
  }

  lemma {:induction false} BigEndianAt(value: nat, size: nat, i: nat)
    requires i < size
    ensures BigEndian(value, size)[i] == Shifted(value, size - 1 - i) % 256
  {
    if i < size - 1 {
      BigEndianAt(value / 256, size - 1, i);
    }
  }

  lemma {:induction false} ShiftedBound(value: nat, n: nat, k: nat)
    requires value < Pow256(k)
    ensures n >= k ==> Shifted(value, n) == 0
    decreases n
  {
    if n > 0 {
      if k > 0 {
        ShiftedBound(value / 256, n - 1, k - 1);
      } else {
        ShiftedBound(0, n - 1, 0);
      }
    }
  }

  lemma HighBytesAreZero(counter: u64, n: nat)
    ensures n >= 8 ==> Shifted(counter, n) == 0
  {
    Pow256Values();
    ShiftedBound(counter, n, 8);
  }

  // ---------------------------------------------------------------- the cell as an object

  /** The shared work cell; each method is what the machine's steps do when no other thread comes between them. */
  class WorkState {
    var current: Option<Work>
    var generation: nat
    var solved: Option<nat>

    /** The machine's cells are this object's, and its network thread is idle. */
    ghost predicate Shows(s: System)
      reads this
    {
      s.current == current && s.generation == generation && s.solved == solved && !s.setting
    }

    constructor ()
      ensures forall threads :: Shows(Init(threads))
    {
      current, generation, solved := None, 0, None;
    }

    method Set(work: Work)
      modifies this
      ensures forall s :: old(Shows(s)) ==> Shows(Next(Next(s, StoreWork(work)), BumpGeneration))
    {
      current := Some(work);
      generation := generation + 1;
    }

    /** A thread whose two loads nothing interrupts takes this pair; with no work it stays where it is. */
    method Snapshot() returns (r: Option<(Work, nat)>)
      ensures forall s, i: nat :: Shows(s) && i < |s.threads| && s.threads[i] == LoadWork ==>
                if r.None? then Stepped(s, i) == s
                else Stepped(Stepped(s, i), i) == At(s, i, FirstGenerationCheck(Hold(r.value.0, |s.published|, r.value.1)))
    {
      match current
      case None => r := None;
      case Some(work) => r := Some((work, generation));
    }

    method MarkSolved(gen: nat)
      modifies this
      ensures forall s, i: nat :: old(Shows(s)) && i < |s.threads| && s.threads[i].MarkSolved? && s.threads[i].h.gen == gen ==>
                Shows(Stepped(s, i))
    {
      solved := Some(gen);
    }

    /** A thread that makes both checks without interruption goes on exactly when the answer is yes. */
    method IsCurrent(gen: nat) returns (worth: bool)
      ensures forall s, i: nat :: Shows(s) && i < |s.threads| && s.threads[i].FirstGenerationCheck? && s.threads[i].h.gen == gen ==>
                if worth then Stepped(Stepped(s, i), i) == At(s, i, ClaimCounter(s.threads[i].h))
                else Stepped(s, i) == At(s, i, AwaitWork(gen)) || Stepped(Stepped(s, i), i) == At(s, i, AwaitWork(gen))
    {
      worth := generation == gen;
      if worth {
        worth := solved != Some(gen);
      }
    }
  }
}
