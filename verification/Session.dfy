/** Answering a submission: the job is looked up by its id, and the share is checked against it. */
module Session {
  import opened Bytes
  import opened EndToEnd
  import opened JobBuilder
  import opened Pool
  import opened Validate
  import Block
  import Header
  import Script
  import Stratum
  import Target
  import Worker

  datatype Answer =
    | Unauthorized
    | Unreadable(error: Stratum.ParamError)
    | JobNotFound
    | Panic
    | Judgement(verdict: Result<Verdict, ValidationError>)

  /** The session's answer to `mining.submit`; an extranonce too long to push panics. */
  function Answered(authorized: bool, jobs: seq<ActiveJob>, params: Stratum.Json, extranonce1: seq<u8>): Answer
    requires forall k :: 0 <= k < |jobs| ==> |jobs[k].transactions| < U64_MAX
  {
    if !authorized then Unauthorized else
    match Stratum.FromSubmitParams(params)
    case Err(error) => Unreadable(error)
    case Ok(share) =>
      FindFinds(jobs, share.jobId);
      match Find(jobs, share.jobId)
      case None => JobNotFound
      case Some(active) =>
        if |extranonce1| + |share.extranonce2| > Script.MAX_PUSH then Panic
        else Judgement(Checked(active, share, extranonce1))
  }

  lemma {:induction false} FindFinds(jobs: seq<ActiveJob>, jobId: string)
    ensures Find(jobs, jobId).Some? ==> Find(jobs, jobId).value in jobs
  {
    if jobs != [] {
      FindFinds(jobs[1..], jobId);
    }
  }

  /** The work a miner makes of an installed job's notification on a connection with this extranonce. */
  function WorkFrom(active: ActiveJob, extranonce1: seq<u8>): Option<Worker.Work> {
    match Received(Stratum.ToNotifyParams(active.job))
    case None => None
    case Some((job, target)) => Some(Worker.Work(job, extranonce1, EXTRANONCE2_SIZE, target))
  }

  /** The miner's network thread publishes only what came from the pool's installs. */
  predicate Notified(events: seq<Worker.Event>, log: seq<Install>, extranonce1: seq<u8>) {
    forall e :: 0 <= e < |events| && events[e].StoreWork? ==> InstalledWork(log, extranonce1, events[e].work)
  }

  predicate InstalledWork(log: seq<Install>, extranonce1: seq<u8>, work: Worker.Work) {
    exists k :: 0 <= k < |log| && WorkFrom(log[k].active, extranonce1) == Some(work)
  }

  lemma {:induction false} PublishedWasNotified(s: Worker.System, events: seq<Worker.Event>, log: seq<Install>, extranonce1: seq<u8>)
    requires Worker.Runnable(s, events) && Notified(events, log, extranonce1)
    requires forall v :: 0 <= v < |s.published| ==> InstalledWork(log, extranonce1, s.published[v])
    ensures var t := Worker.Run(s, events);
            forall v :: 0 <= v < |t.published| ==> InstalledWork(log, extranonce1, t.published[v])
    decreases |events|
  {
    hide InstalledWork;
    if events != [] {
      var t := Worker.Next(s, events[0]);
      StepPublishes(s, events[0]);
      assert Notified(events[1..], log, extranonce1) by {
        assert forall e :: 0 <= e < |events| - 1 ==> events[1..][e] == events[e + 1];
      }
      PublishedWasNotified(t, events[1..], log, extranonce1);
      assert Worker.Run(s, events) == Worker.Run(t, events[1..]);
    } else {
      assert Worker.Run(s, events) == s;
    }
  }

  lemma StepPublishes(s: Worker.System, e: Worker.Event)
    requires Worker.Enabled(s, e)
    ensures Worker.Next(s, e).published == s.published + if e.StoreWork? then [e.work] else []
  {
    hide Worker.AfterBatch, Worker.ShareOf;
  }

  /** The work behind every share that is ever sent was one of the pool's installs. */
  lemma ShareComesFromAnInstall(
    log: seq<Install>, extranonce1: seq<u8>, threads: nat, events: seq<Worker.Event>, n: nat)
    requires Worker.Runnable(Worker.Init(threads), events) && Notified(events, log, extranonce1)
    requires n < |Worker.Run(Worker.Init(threads), events).outbound|
    ensures InstalledWork(log, extranonce1, Worker.Run(Worker.Init(threads), events).outbound[n].h.work)
  {
    hide WorkFrom, Notified;
    PublishedWasNotified(Worker.Init(threads), events, log, extranonce1);
    var t := Worker.Run(Worker.Init(threads), events);
    Worker.SubmissionWasPublished(threads, events, n);
    var v := t.outbound[n].h.version;
    assert InstalledWork(log, extranonce1, t.published[v - 1]);
  }

  /** The answer is the block on the header that solved the share. */
  ghost predicate BlockAnswer(answer: Answer, active: ActiveJob, extranonce1: seq<u8>, share: Stratum.Share) {
    var solved := Stratum.HeaderFor(active.job, extranonce1, share.extranonce2, share.time, share.nonce);
    exists coinbase ::
      BecomesABlock(active, extranonce1, share, coinbase, solved)
      && answer == Judgement(Ok(SubmitBlock(
           Block.BlockBytes(solved, Block.BlockBuilder(coinbase, active.transactions, active.txids)), Header.HashOf(solved))))
  }

  /**
   * Install `k` is the one the share names and its work was made from; the answer is the block while fewer than
   * eight jobs came after that install, and "not found" from then on.
   */
  ghost predicate AnsweredFor(s: Poller, k: nat, extranonce1: seq<u8>, sub: Worker.Submission, answer: Answer) {
    && k < |s.log|
    && sub.share.jobId == s.log[k].active.job.jobId && WorkFrom(s.log[k].active, extranonce1) == Some(sub.h.work)
    && if |s.log| - 1 - k < JOB_HISTORY then BlockAnswer(answer, s.log[k].active, extranonce1, sub.share) else answer == JobNotFound
  }

  lemma FoundJobAnswers(jobs: seq<ActiveJob>, active: ActiveJob, share: Stratum.Share, extranonce1: seq<u8>)
    requires forall k :: 0 <= k < |jobs| ==> |jobs[k].transactions| < U64_MAX
    requires Find(jobs, share.jobId) == Some(active)
    requires ReachesTheNode(active, extranonce1, share,
                            Stratum.HeaderFor(active.job, extranonce1, share.extranonce2, share.time, share.nonce))
    ensures BlockAnswer(Answered(true, jobs, Stratum.ToSubmitParams(share), extranonce1), active, extranonce1, share)
  {
    hide Stratum.HeaderFor, Checked, Find, CoinbaseFor, RebuiltHeader, Block.BlockBytes, Header.HashOf,
         Stratum.FromSubmitParams, Stratum.ToSubmitParams;
    FindFinds(jobs, share.jobId);
    var solved := Stratum.HeaderFor(active.job, extranonce1, share.extranonce2, share.time, share.nonce);
    var coinbase :| BecomesABlock(active, extranonce1, share, coinbase, solved);
  }

  lemma LostJobAnswers(jobs: seq<ActiveJob>, share: Stratum.Share, extranonce1: seq<u8>)
    requires forall k :: 0 <= k < |jobs| ==> |jobs[k].transactions| < U64_MAX
    requires Find(jobs, share.jobId) == None
    ensures Answered(true, jobs, Stratum.ToSubmitParams(share), extranonce1) == JobNotFound
  {
    hide Checked, Find, Stratum.FromSubmitParams, Stratum.ToSubmitParams;
    Stratum.SubmitRoundTrip(share);
  }

  /**
   * Pool and miner together. Over every run of the poller and every interleaving of a miner whose work came from
   * that run's installs: any share the miner sends names the one install its work was made from, and the
   * session's answer is the block on the solved header until eight later jobs were installed, and that the job was
   * not found from then on.
   */
  lemma EveryShareIsAnswered(
    c: Config, subs: seq<Subscriber>, ticks: seq<Tick>, extranonce1: seq<u8>,
    threads: nat, events: seq<Worker.Event>, n: nat)
    requires |extranonce1| == EXTRANONCE1_SIZE
    requires Worker.Runnable(Worker.Init(threads), events) && n < |Worker.Run(Worker.Init(threads), events).outbound|
    requires var s := PolledAll(c, Start(subs), ticks);
             && Notified(events, s.log, extranonce1)
             && (forall i :: 0 <= i < |s.jobs| ==> |s.jobs[i].transactions| < U64_MAX)
    ensures var s := PolledAll(c, Start(subs), ticks);
            var sub := Worker.Run(Worker.Init(threads), events).outbound[n];
            exists k: nat :: AnsweredFor(s, k, extranonce1, sub, Answered(true, s.jobs, Stratum.ToSubmitParams(sub.share), extranonce1))
    ensures var s := PolledAll(c, Start(subs), ticks);
            var jobId := Worker.Run(Worker.Init(threads), events).outbound[n].share.jobId;
            forall j, k :: 0 <= j < k < |s.log| ==> s.log[j].active.job.jobId != jobId || s.log[k].active.job.jobId != jobId
  {
    hide Notified, WorkFrom, BlockAnswer, Answered, Issued, Coherent, PolledAll, Worker.Run, Worker.Runnable, Stratum.ToSubmitParams,
         Stratum.HeaderFor, ReachesTheNode, Find, Header.HashOf, Target.Meets;
    var s := PolledAll(c, Start(subs), ticks);
    var sub := Worker.Run(Worker.Init(threads), events).outbound[n];
    ShareComesFromAnInstall(s.log, extranonce1, threads, events, n);
    var k: nat :| k < |s.log| && WorkFrom(s.log[k].active, extranonce1) == Some(sub.h.work);
    var active := s.log[k].active;
    LogIsIssued(c, subs, ticks, k);
    IssuedIsCoherent(active);
    WorkIsTheJobs(active, extranonce1);
    Worker.SharesMeetTheirTarget(threads, events, n);
    JobFoundUntilEightLater(c, subs, ticks, k);
    if |s.log| - 1 - k < JOB_HISTORY {
      FindFinds(s.jobs, sub.share.jobId);
      EveryShareSentIsABlock(threads, events, n, active, extranonce1);
      FoundJobAnswers(s.jobs, active, sub.share, extranonce1);
    } else {
      LostJobAnswers(s.jobs, sub.share, extranonce1);
    }
    assert AnsweredFor(s, k, extranonce1, sub, Answered(true, s.jobs, Stratum.ToSubmitParams(sub.share), extranonce1));
    LogIdsDiffer(c, subs, ticks);
  }

  lemma WorkIsTheJobs(active: ActiveJob, extranonce1: seq<u8>)
    requires Coherent(active)
    ensures WorkFrom(active, extranonce1) == Some(Worker.Work(active.job, extranonce1, EXTRANONCE2_SIZE, active.networkTarget))
  {
    hide Coherent, Received, Stratum.ToNotifyParams;
    JobReachesTheMiner(active);
  }

  /** What a judged share means: an authorised session, a share that reads, a job still in the history, and its own check. */
  lemma JudgedIff(authorized: bool, jobs: seq<ActiveJob>, params: Stratum.Json, extranonce1: seq<u8>)
    requires forall k :: 0 <= k < |jobs| ==> |jobs[k].transactions| < U64_MAX
    ensures Answered(authorized, jobs, params, extranonce1).Judgement? <==>
            && authorized && Stratum.FromSubmitParams(params).Ok?
            && Find(jobs, Stratum.FromSubmitParams(params).value.jobId).Some?
            && |extranonce1| + |Stratum.FromSubmitParams(params).value.extranonce2| <= 520
    ensures !authorized ==> Answered(authorized, jobs, params, extranonce1) == Unauthorized
  {
    hide Checked, Find, Stratum.FromSubmitParams;
    if Stratum.FromSubmitParams(params).Ok? {
      FindFinds(jobs, Stratum.FromSubmitParams(params).value.jobId);
    }
  }
}
