/** The pool's shared state, and the template poller over every run of node replies. */
module Pool {
  import opened Bytes
  import opened EndToEnd
  import opened JobBuilder
  import Hex
  import Stratum
  import Target

  /** How many recent jobs stay valid for share submission. */
  const JOB_HISTORY := 8

  /** A number in lowercase hex without leading zeros. */
  function HexNumber(n: nat): (s: string)
    ensures |s| >= 1
  {
    if n < 16 then [Hex.DigitChar(n)] else HexNumber(n / 16) + [Hex.DigitChar(n % 16)]
  }

  lemma DigitCharInjective(a: nat, b: nat)
    requires a < 16 && b < 16 && Hex.DigitChar(a) == Hex.DigitChar(b)
    ensures a == b
  {
    Hex.DigitInverse(a);
    Hex.DigitInverse(b);
  }

  lemma {:induction false} HexNumberInjective(a: nat, b: nat)
    requires HexNumber(a) == HexNumber(b)
    ensures a == b
  {
    hide Hex.DigitChar;
    var s := HexNumber(a);
    LastDigit(a);
    LastDigit(b);
    DigitCharInjective(a % 16, b % 16);
    if a >= 16 && b >= 16 {
      assert HexNumber(a / 16) == s[..|s| - 1] == HexNumber(b / 16);
      HexNumberInjective(a / 16, b / 16);
    }
  }

  lemma LastDigit(n: nat)
    ensures HexNumber(n)[|HexNumber(n)| - 1] == Hex.DigitChar(n % 16)
    ensures |HexNumber(n)| > 1 <==> n >= 16
  {
    hide Hex.DigitChar;
  }

  lemma {:induction false} ParseAppend(s: string, c: char, acc: nat, limit: nat)
    requires Hex.ParseDigits(s, acc, limit).Some?
    ensures Hex.ParseDigits(s + [c], acc, limit) == Hex.ParseDigits([c], Hex.ParseDigits(s, acc, limit).value, limit)
    decreases |s|
  {
    if s == "" {
      assert "" + [c] == [c];
    } else {
      assert (s + [c])[1..] == s[1..] + [c];
      ParseAppend(s[1..], c, 16 * acc + Hex.DigitValue(s[0]).value, limit);
    }
  }

  /** The text reads back as the number, in base 16, and has no leading zero. */
  lemma {:induction false} HexNumberReadsBack(n: nat, limit: nat)
    requires n < limit
    ensures Hex.ParseDigits(HexNumber(n), 0, limit) == Some(n)
    ensures n > 0 ==> HexNumber(n)[0] != '0'
  {
    hide Hex.DigitChar, Hex.DigitValue;
    Hex.DigitInverse(n % 16);
    Hex.ParseNothing(n, limit);
    ZeroDigit(n % 16);
    if n < 16 {
      assert [Hex.DigitChar(n)][1..] == "";
    } else {
      HexNumberReadsBack(n / 16, limit);
      ParseAppend(HexNumber(n / 16), Hex.DigitChar(n % 16), 0, limit);
      assert [Hex.DigitChar(n % 16)][1..] == "";
    }
  }

  lemma ZeroDigit(d: nat)
    requires d < 16
    ensures Hex.DigitChar(d) == '0' <==> d == 0
  {
  }

  function Truncated<T>(s: seq<T>): seq<T> { if |s| <= JOB_HISTORY then s else s[..JOB_HISTORY] }

  /** The first job with this id. */
  function Find(jobs: seq<ActiveJob>, jobId: string): Option<ActiveJob> {
    if jobs == [] then None else if jobs[0].job.jobId == jobId then Some(jobs[0]) else Find(jobs[1..], jobId)
  }

  /** A miner's connection, and the notifications it has been sent. */
  datatype Subscriber = Subscriber(id: nat, delivered: seq<Stratum.Json>)

  /** The subscribers whose channel is still open, each with one more line. */
  function Delivered(subscribers: seq<Subscriber>, open: set<nat>, line: Stratum.Json): seq<Subscriber> {
    if subscribers == [] then []
    else if subscribers[0].id in open then
      [subscribers[0].(delivered := subscribers[0].delivered + [line])] + Delivered(subscribers[1..], open, line)
    else Delivered(subscribers[1..], open, line)
  }

  function Without(subscribers: seq<Subscriber>, id: nat): seq<Subscriber> {
    if subscribers == [] then []
    else if subscribers[0].id != id then [subscribers[0]] + Without(subscribers[1..], id)
    else Without(subscribers[1..], id)
  }

  /** Everything shared between the pool's threads. */
  class PoolState {
    var jobs: seq<ActiveJob>
    var subscribers: seq<Subscriber>
    var nextConnectionId: nat
    var nextJobId: nat

    constructor ()
      ensures jobs == [] && subscribers == [] && nextConnectionId == 1 && nextJobId == 1
    {
      jobs, subscribers, nextConnectionId, nextJobId := [], [], 1, 1;
    }

    method AllocateConnectionId() returns (id: nat)
      modifies this
      ensures id == old(nextConnectionId) && nextConnectionId == id + 1
      ensures jobs == old(jobs) && subscribers == old(subscribers) && nextJobId == old(nextJobId)
    {
      id := nextConnectionId;
      nextConnectionId := nextConnectionId + 1;
    }

    method AllocateJobId() returns (id: string)
      modifies this
      ensures id == HexNumber(old(nextJobId)) && nextJobId == old(nextJobId) + 1
      ensures jobs == old(jobs) && subscribers == old(subscribers) && nextConnectionId == old(nextConnectionId)
    {
      id := HexNumber(nextJobId);
      nextJobId := nextJobId + 1;
    }

    /** Installs a new job in front of the history. */
    method SetCurrentJob(job: ActiveJob)
      modifies this
      ensures jobs == Truncated([job] + old(jobs))
      ensures subscribers == old(subscribers)
      ensures nextJobId == old(nextJobId) && nextConnectionId == old(nextConnectionId)
    {
      jobs := [job] + jobs;
      if |jobs| > JOB_HISTORY {
        jobs := jobs[..JOB_HISTORY];
      }
    }

    method CurrentJob() returns (job: Option<ActiveJob>)
      ensures job == if jobs == [] then None else Some(jobs[0])
    {
      job := if jobs == [] then None else Some(jobs[0]);
    }

    method JobById(jobId: string) returns (job: Option<ActiveJob>)
      ensures job == Find(jobs, jobId)
    {
      for i := 0 to |jobs|
        invariant Find(jobs, jobId) == Find(jobs[i..], jobId)
      {
        if jobs[i].job.jobId == jobId {
          return Some(jobs[i]);
        }
        assert jobs[i..][1..] == jobs[i + 1..];
      }
      job := None;
    }

    method Subscribe(id: nat)
      modifies this
      ensures subscribers == old(subscribers) + [Subscriber(id, [])]
      ensures jobs == old(jobs) && nextJobId == old(nextJobId) && nextConnectionId == old(nextConnectionId)
    {
      subscribers := subscribers + [Subscriber(id, [])];
    }

    method Unsubscribe(id: nat)
      modifies this
      ensures subscribers == Without(old(subscribers), id)
      ensures jobs == old(jobs) && nextJobId == old(nextJobId) && nextConnectionId == old(nextConnectionId)
    {
      var kept: seq<Subscriber> := [];
      for i := 0 to |subscribers|
        invariant unchanged(this) && kept + Without(subscribers[i..], id) == Without(subscribers, id)
      {
        if subscribers[i].id != id {
          Assoc(kept, [subscribers[i]], Without(subscribers[i + 1..], id));
          kept := kept + [subscribers[i]];
        }
        assert subscribers[i..][1..] == subscribers[i + 1..];
      }
      subscribers := kept;
    }

    /** Sends a line to every subscriber; one whose channel is closed is dropped. */
    method Broadcast(line: Stratum.Json, open: set<nat>)
      modifies this
      ensures subscribers == Delivered(old(subscribers), open, line)
      ensures jobs == old(jobs) && nextJobId == old(nextJobId) && nextConnectionId == old(nextConnectionId)
    {
      var kept: seq<Subscriber> := [];
      for i := 0 to |subscribers|
        invariant unchanged(this)
        invariant kept + Delivered(subscribers[i..], open, line) == Delivered(subscribers, open, line)
      {
        var subscriber := subscribers[i];
        if subscriber.id in open {
          var sent := subscriber.(delivered := subscriber.delivered + [line]);
          Assoc(kept, [sent], Delivered(subscribers[i + 1..], open, line));
          kept := kept + [sent];
        }
        assert subscribers[i..][1..] == subscribers[i + 1..];
      }
      subscribers := kept;
    }
  }

  /** After a broadcast only open channels are left; every one of them was a subscriber before. */
  lemma {:induction false} DeliveredOnlyToOpen(subscribers: seq<Subscriber>, open: set<nat>, line: Stratum.Json, k: nat)
    requires k < |Delivered(subscribers, open, line)|
    ensures var s := Delivered(subscribers, open, line)[k];
            s.id in open && exists before :: before in subscribers && s == before.(delivered := before.delivered + [line])
  {
    var first := subscribers[0];
    var rest := Delivered(subscribers[1..], open, line);
    if first.id in open && k == 0 {
      assert Delivered(subscribers, open, line)[0] == first.(delivered := first.delivered + [line]);
    } else {
      var j := if first.id in open then k - 1 else k;
      DeliveredOnlyToOpen(subscribers[1..], open, line, j);
      var before :| before in subscribers[1..] && rest[j] == before.(delivered := before.delivered + [line]);
      assert before in subscribers;
    }
  }

  /** Unsubscribing leaves exactly the entries of other connections. */
  lemma {:induction false} WithoutIff(subscribers: seq<Subscriber>, id: nat, s: Subscriber)
    ensures s in Without(subscribers, id) <==> s in subscribers && s.id != id
  {
    if subscribers != [] {
      WithoutIff(subscribers[1..], id, s);
    }
  }

  // ---------------------------------------------------------------- the poller

  datatype Config = Config(payoutScript: Vec<u8>, exploitMinDifficulty: bool)

  /**
   * One turn of the loop: the node's template if it answered, the refresh timer, the parent header if it was
   * served, and the subscribers whose channels are open.
   */
  datatype Tick = Tick(reply: Option<BlockTemplate>, stale: bool, parentTime: Option<u32>, open: set<nat>)

  /** One installed job: the number it was issued under, the template it came from, and whether its bits were overridden. */
  datatype Install = Install(id: nat, active: ActiveJob, tip: string, templateBits: u32, overridden: bool)

  datatype Poller = Poller(
    lastTip: Option<string>, lastBits: Option<u32>, jobs: seq<ActiveJob>, nextJobId: nat,
    subscribers: seq<Subscriber>, log: seq<Install>)

  function Start(subs: seq<Subscriber>): Poller { Poller(None, None, [], 1, subs, []) }

  function BitsOf(template: BlockTemplate): Option<u32> {
    match CompactBits(template) case Ok(bits) => Some(bits) case Err(_) => None
  }

  function TipChanged(s: Poller, template: BlockTemplate): bool { s.lastTip != Some(template.previousBlockHash) }

  function BitsChanged(s: Poller, template: BlockTemplate): bool {
    s.lastBits.Some? && BitsOf(template).Some? && BitsOf(template) != s.lastBits
  }

  predicate Overrides(c: Config, tick: Tick) {
    c.exploitMinDifficulty && tick.parentTime.Some? && Target.Decoded(MIN_DIFFICULTY_BITS).Ok?
  }

  /** The job as it is installed: on the test network the minimum-difficulty override is applied when it can be. */
  function Finished(c: Config, tick: Tick, active: ActiveJob): ActiveJob {
    if Overrides(c, tick)
    then Override(active, tick.parentTime.value, Target.Decoded(MIN_DIFFICULTY_BITS).value)
    else active
  }

  /** The job in front of the history and announced to every open subscriber. */
  function Installed(s: Poller, active: ActiveJob, template: BlockTemplate, overridden: bool, open: set<nat>): Poller
    requires s.nextJobId > 0 && BitsOf(template).Some?
  {
    Poller(Some(template.previousBlockHash), BitsOf(template), Truncated([active] + s.jobs), s.nextJobId,
           Delivered(s.subscribers, open, Stratum.ToNotifyParams(active.job)),
           s.log + [Install(s.nextJobId - 1, active, template.previousBlockHash, BitsOf(template).value, overridden)])
  }

  lemma BuildFields(jobId: string, template: BlockTemplate, payoutScript: Vec<u8>, cleanJobs: bool)
    requires Build(jobId, template, payoutScript, cleanJobs).Ok?
    ensures var job := Build(jobId, template, payoutScript, cleanJobs).value.job;
            && job.jobId == jobId && job.cleanJobs == cleanJobs
            && HashFromText(template.previousBlockHash) == Ok(job.prevHash)
            && BitsOf(template) == Some(job.bits)
  {
    hide Split, Collect, CommitmentScript, NetworkTarget, HashFromText, CompactBits;
  }

  /** One turn of the loop. */
  function Polled(c: Config, s: Poller, tick: Tick): (t: Poller)
    ensures t.nextJobId >= s.nextJobId
  {
    if tick.reply.None? then s else
    var template := tick.reply.value;
    var clean := TipChanged(s, template) || BitsChanged(s, template);
    if !clean && !tick.stale then s else
    var next := s.(nextJobId := s.nextJobId + 1);
    match Build(HexNumber(s.nextJobId), template, c.payoutScript, clean)
    case Err(_) => next
    case Ok(active) =>
      BuildFields(HexNumber(s.nextJobId), template, c.payoutScript, clean);
      Installed(next, Finished(c, tick, active), template, Overrides(c, tick), tick.open)
  }

  function PolledAll(c: Config, s: Poller, ticks: seq<Tick>): Poller
    decreases |ticks|
  {
    if ticks == [] then s else PolledAll(c, Polled(c, s, ticks[0]), ticks[1..])
  }

  /** The loop itself, over the replies of any finite run. */
  method PollTemplates(c: Config, state: PoolState, ticks: seq<Tick>)
    requires state.jobs == [] && state.nextJobId == 1
    modifies state
    ensures state.jobs == PolledAll(c, Start(old(state.subscribers)), ticks).jobs
    ensures state.nextJobId == PolledAll(c, Start(old(state.subscribers)), ticks).nextJobId
    ensures state.subscribers == PolledAll(c, Start(old(state.subscribers)), ticks).subscribers
  {
    hide Build, Finished, PolledAll, BitsOf, Delivered, Stratum.ToNotifyParams;
    var lastTip: Option<string> := None;
    var lastBits: Option<u32> := None;
    ghost var log: seq<Install> := [];
    ghost var start := Start(state.subscribers);
    PolledNothing(c, PolledAll(c, start, ticks));
    assert ticks[0..] == ticks;
    for k := 0 to |ticks|
      invariant PolledAll(
                  c, Poller(lastTip, lastBits, state.jobs, state.nextJobId, state.subscribers, log), ticks[k..]) == PolledAll(c, start, ticks)
    {
      ghost var before := Poller(lastTip, lastBits, state.jobs, state.nextJobId, state.subscribers, log);
      PolledFirst(c, before, ticks[k..]);
      assert ticks[k..][1..] == ticks[k + 1..];
      var tick := ticks[k];
      if tick.reply.Some? {
        var template := tick.reply.value;
        var tip := template.previousBlockHash;
        var tipChanged := lastTip != Some(tip);
        var bits := BitsOf(template);
        var bitsChanged := lastBits.Some? && bits.Some? && bits != lastBits;
        if tipChanged || bitsChanged || tick.stale {
          ghost var id := state.nextJobId;
          var jobId := state.AllocateJobId();
          var clean := tipChanged || bitsChanged;
          var built := Build(jobId, template, c.payoutScript, clean);
          if built.Ok? {
            BuildFields(jobId, template, c.payoutScript, clean);
            var active := Finished(c, tick, built.value);
            state.SetCurrentJob(active);
            state.Broadcast(Stratum.ToNotifyParams(active.job), tick.open);
            log := log + [Install(id, active, tip, bits.value, Overrides(c, tick))];
            lastTip := Some(tip);
            lastBits := bits;
          }
        }
      }
    }
    PolledNothing(c, Poller(lastTip, lastBits, state.jobs, state.nextJobId, state.subscribers, log));
    assert ticks[|ticks|..] == [];
  }

  lemma PolledNothing(c: Config, s: Poller)
    ensures PolledAll(c, s, []) == s
  {
  }

  lemma PolledFirst(c: Config, s: Poller, ticks: seq<Tick>)
    requires ticks != []
    ensures PolledAll(c, s, ticks) == PolledAll(c, Polled(c, s, ticks[0]), ticks[1..])
  {
  }

  // ---------------------------------------------------------------- what every run keeps

  ghost predicate EntryOk(e: Install) {
    && e.active.job.jobId == HexNumber(e.id)
    && HashFromText(e.tip) == Ok(e.active.job.prevHash)
    && e.active.job.bits == (if e.overridden then MIN_DIFFICULTY_BITS else e.templateBits)
    && Issued(e.active)
  }

  /** A job announced without the clean flag continues the one before it: same tip, same template bits. */
  predicate Continues(log: seq<Install>, k: nat)
    requires k < |log|
  {
    !log[k].active.job.cleanJobs ==> k > 0 && log[k - 1].tip == log[k].tip && log[k - 1].templateBits == log[k].templateBits
  }

  predicate HistoryIsLogTail(s: Poller) {
    && |s.jobs| == (if |s.log| <= JOB_HISTORY then |s.log| else JOB_HISTORY)
    && forall k :: 0 <= k < |s.jobs| ==> s.jobs[k] == s.log[|s.log| - 1 - k].active
  }

  predicate LastMatches(s: Poller) {
    if s.log == [] then s.lastTip == None && s.lastBits == None
    else s.lastTip == Some(s.log[|s.log| - 1].tip) && s.lastBits == Some(s.log[|s.log| - 1].templateBits)
  }

  predicate IdsIncrease(s: Poller) {
    && (forall k :: 0 <= k < |s.log| ==> s.log[k].id < s.nextJobId)
    && (forall j, k :: 0 <= j < k < |s.log| ==> s.log[j].id < s.log[k].id)
  }

  ghost predicate Inv(s: Poller) {
    && HistoryIsLogTail(s) && LastMatches(s) && IdsIncrease(s)
    && (forall k :: 0 <= k < |s.log| ==> EntryOk(s.log[k]))
    && (forall k :: 0 <= k < |s.log| ==> Continues(s.log, k))
  }

  lemma FinishedIsIssued(c: Config, tick: Tick, jobId: string, template: BlockTemplate, clean: bool)
    requires Build(jobId, template, c.payoutScript, clean).Ok?
    ensures var active := Finished(c, tick, Build(jobId, template, c.payoutScript, clean).value);
            && Issued(active) && active.job.jobId == jobId && active.job.cleanJobs == clean && BitsOf(template).Some?
            && active.job.bits == (if Overrides(c, tick) then MIN_DIFFICULTY_BITS else BitsOf(template).value)
            && HashFromText(template.previousBlockHash) == Ok(active.job.prevHash)
  {
    hide Build, HashFromText, Target.Decoded;
    BuildFields(jobId, template, c.payoutScript, clean);
    var built := Build(jobId, template, c.payoutScript, clean).value;
    assert c.payoutScript is Vec<u8>;
  }

  /** Installing the next job keeps the histories in step. */
  lemma InstallKeepsInv(s: Poller, active: ActiveJob, template: BlockTemplate, clean: bool, overridden: bool, open: set<nat>)
    requires Inv(s) && BitsOf(template).Some?
    requires Issued(active) && active.job.jobId == HexNumber(s.nextJobId) && active.job.cleanJobs == clean
    requires HashFromText(template.previousBlockHash) == Ok(active.job.prevHash)
    requires active.job.bits == if overridden then MIN_DIFFICULTY_BITS else BitsOf(template).value
    requires clean == (TipChanged(s, template) || BitsChanged(s, template))
    ensures Inv(Installed(s.(nextJobId := s.nextJobId + 1), active, template, overridden, open))
  {
    hide Delivered, Stratum.ToNotifyParams, BitsOf, Issued, HashFromText, HexNumber;
    var t := Installed(s.(nextJobId := s.nextJobId + 1), active, template, overridden, open);
    forall k | 0 <= k < |t.jobs| ensures t.jobs[k] == t.log[|t.log| - 1 - k].active {
      if k > 0 {
        assert t.jobs[k] == s.jobs[k - 1];
      }
    }
    forall k | 0 <= k < |t.log| ensures Continues(t.log, k) {
      if k < |s.log| {
        assert Continues(s.log, k);
      }
    }
  }

  lemma PollKeepsInv(c: Config, s: Poller, tick: Tick)
    requires Inv(s)
    ensures Inv(Polled(c, s, tick))
  {
    hide BitsOf, Issued, HashFromText, HexNumber, Build, EntryOk, Installed, Finished;
    if tick.reply.Some? {
      var template := tick.reply.value;
      var clean := TipChanged(s, template) || BitsChanged(s, template);
      if clean || tick.stale {
        var built := Build(HexNumber(s.nextJobId), template, c.payoutScript, clean);
        if built.Ok? {
          BuildFields(HexNumber(s.nextJobId), template, c.payoutScript, clean);
          FinishedIsIssued(c, tick, HexNumber(s.nextJobId), template, clean);
          InstallKeepsInv(s, Finished(c, tick, built.value), template, clean, Overrides(c, tick), tick.open);
        }
      }
    }
  }

  lemma {:induction false} RunKeepsInv(c: Config, s: Poller, ticks: seq<Tick>)
    requires Inv(s)
    ensures Inv(PolledAll(c, s, ticks))
    decreases |ticks|
  {
    hide Inv, Polled;
    if ticks != [] {
      PollKeepsInv(c, s, ticks[0]);
      RunKeepsInv(c, Polled(c, s, ticks[0]), ticks[1..]);
    }
  }

  // ---------------------------------------------------------------- main results, over every run

  lemma {:induction false} PolledLast(c: Config, s: Poller, ticks: seq<Tick>, tick: Tick)
    ensures PolledAll(c, s, ticks + [tick]) == Polled(c, PolledAll(c, s, ticks), tick)
    decreases |ticks|
  {
    hide Polled;
    if ticks == [] {
      assert [] + [tick] == [tick] && [tick][1..] == [];
      PolledNothing(c, Polled(c, s, tick));
    } else {
      assert (ticks + [tick])[1..] == ticks[1..] + [tick];
      PolledLast(c, Polled(c, s, ticks[0]), ticks[1..], tick);
    }
  }

  /** A job can be made of this template. */
  predicate Builds(c: Config, template: BlockTemplate) { Build("", template, c.payoutScript, true).Ok? }

  /** Nothing was installed yet, or the last install was for another tip or other bits. */
  predicate IsNews(log: seq<Install>, template: BlockTemplate) {
    log == [] || log[|log| - 1].tip != template.previousBlockHash || Some(log[|log| - 1].templateBits) != BitsOf(template)
  }

  lemma BitsAreRead(jobId: string, template: BlockTemplate, payoutScript: Vec<u8>, cleanJobs: bool)
    requires Build(jobId, template, payoutScript, cleanJobs).Ok?
    ensures BitsOf(template).Some? && Hex.DecodedArray(template.bits, 4) == Ok(BigEndian(BitsOf(template).value, 4))
  {
    hide Build, TransactionsRead, FieldsRead, BitsOf, CommitmentScript, WitnessIdsRead, HashFromText;
    BuildReadsTheTemplate(jobId, template, payoutScript, cleanJobs);
    BuildFields(jobId, template, payoutScript, cleanJobs);
    FieldBits(Build(jobId, template, payoutScript, cleanJobs).value, jobId, template, payoutScript, cleanJobs);
  }

  lemma FieldBits(active: ActiveJob, jobId: string, template: BlockTemplate, payoutScript: Vec<u8>, cleanJobs: bool)
    requires FieldsRead(active, jobId, template, payoutScript, cleanJobs)
    ensures Hex.DecodedArray(template.bits, 4) == Ok(BigEndian(active.job.bits, 4))
  {
  }

  lemma BuildTime(jobId: string, template: BlockTemplate, payoutScript: Vec<u8>, cleanJobs: bool)
    requires Build(jobId, template, payoutScript, cleanJobs).Ok?
    ensures Build(jobId, template, payoutScript, cleanJobs).value.job.time == template.currentTime
  {
    hide Build, TransactionsRead, CommitmentScript, WitnessIdsRead, HashFromText, Target.Decoded, Hex.DecodedArray;
    BuildReadsTheTemplate(jobId, template, payoutScript, cleanJobs);
  }

  lemma FinishedFields(c: Config, tick: Tick, active: ActiveJob)
    ensures var job := Finished(c, tick, active).job;
            && job.cleanJobs == active.job.cleanJobs
            && (c.exploitMinDifficulty && tick.parentTime.Some? <==> Overrides(c, tick))
            && (Overrides(c, tick) ==> job.time == (tick.parentTime.value + 1201) % 0x1_0000_0000 && job.bits == 0x1D00_FFFF)
            && (!Overrides(c, tick) ==> job.time == active.job.time && job.bits == active.job.bits)
  {
    hide Target.Decoded;
    MinimumDifficultyDecodes();
  }

  /** What one turn adds when a job can be made of its template. */
  lemma InstallAppends(c: Config, s: Poller, tick: Tick, template: BlockTemplate, clean: bool)
    requires tick.reply == Some(template) && Build(HexNumber(s.nextJobId), template, c.payoutScript, clean).Ok?
    requires clean == (TipChanged(s, template) || BitsChanged(s, template)) && (clean || tick.stale)
    ensures var t := Polled(c, s, tick);
            && Appended(s.log, t.log, template, clean) && Timed(c, tick, template, t.log[|s.log|])
            && t.jobs == Truncated([t.log[|s.log|].active] + s.jobs)
  {
    hide Build, HexNumber, Delivered, Stratum.ToNotifyParams, BitsOf, Truncated, Target.Decoded, TipChanged, BitsChanged,
         Finished, Overrides, Override;
    BuildFields(HexNumber(s.nextJobId), template, c.payoutScript, clean);
    BuildTime(HexNumber(s.nextJobId), template, c.payoutScript, clean);
    FinishedFields(c, tick, Build(HexNumber(s.nextJobId), template, c.payoutScript, clean).value);
  }

  lemma PollInstalls(c: Config, s: Poller, tick: Tick)
    requires LastMatches(s)
    ensures var t := Polled(c, s, tick);
            if tick.reply.Some? && Builds(c, tick.reply.value) && (tick.stale || IsNews(s.log, tick.reply.value))
            then Appended(s.log, t.log, tick.reply.value, IsNews(s.log, tick.reply.value)) && Timed(c, tick, tick.reply.value, t.log[|s.log|])
                 && t.jobs == Truncated([t.log[|s.log|].active] + s.jobs)
            else t.log == s.log && t.jobs == s.jobs
  {
    hide Build, HexNumber, Delivered, Stratum.ToNotifyParams, BitsOf, Truncated, Appended, Timed, Finished, Installed;
    if tick.reply.Some? {
      var template := tick.reply.value;
      var clean := TipChanged(s, template) || BitsChanged(s, template);
      var jobId := HexNumber(s.nextJobId);
      if Builds(c, template) {
        BuildIgnoresIdAndFlag(template, c.payoutScript, "", true, jobId, clean);
        BitsAreRead(jobId, template, c.payoutScript, clean);
        assert clean == IsNews(s.log, template);
        if clean || tick.stale {
          InstallAppends(c, s, tick, template, clean);
        }
      } else if Build(jobId, template, c.payoutScript, clean).Ok? {
        BuildIgnoresIdAndFlag(template, c.payoutScript, jobId, clean, "", true);
      }
    }
  }

  /** One more entry, for this template's tip and bits, clean exactly when they are news. */
  predicate Appended(before: seq<Install>, after: seq<Install>, template: BlockTemplate, news: bool) {
    && |after| == |before| + 1 && after[..|before|] == before
    && after[|before|].tip == template.previousBlockHash && Some(after[|before|].templateBits) == BitsOf(template)
    && (after[|before|].active.job.cleanJobs <==> news)
  }

  /** What the newest entry's time and bits are: on the test network, with the parent served, the override's. */
  predicate Timed(c: Config, tick: Tick, template: BlockTemplate, last: Install) {
    if c.exploitMinDifficulty && tick.parentTime.Some?
    then last.overridden && last.active.job.time == (tick.parentTime.value + 1201) % 0x1_0000_0000 && last.active.job.bits == 0x1D00_FFFF
    else !last.overridden && last.active.job.time == template.currentTime && last.active.job.bits == last.templateBits
  }

  /**
   * Exactly when a turn of the loop installs a job, over every run: the node answered with a template a job can be
   * made of, and either its tip or its bits are not those of the last install or the refresh is due. The new entry is
   * for that template, in front of the history, and clean exactly when it is news.
   */
  lemma TurnInstallsIff(c: Config, subs: seq<Subscriber>, ticks: seq<Tick>, tick: Tick)
    ensures var s, t := PolledAll(c, Start(subs), ticks), PolledAll(c, Start(subs), ticks + [tick]);
            if tick.reply.Some? && Builds(c, tick.reply.value) && (tick.stale || IsNews(s.log, tick.reply.value))
            then Appended(s.log, t.log, tick.reply.value, IsNews(s.log, tick.reply.value)) && Timed(c, tick, tick.reply.value, t.log[|s.log|])
                 && t.jobs == Truncated([t.log[|s.log|].active] + s.jobs)
            else t.log == s.log && t.jobs == s.jobs
  {
    hide Polled, PolledAll, EntryOk, Builds, IsNews, Appended, Timed, Truncated;
    RunKeepsInv(c, Start(subs), ticks);
    PolledLast(c, Start(subs), ticks, tick);
    PollInstalls(c, PolledAll(c, Start(subs), ticks), tick);
  }

  /** So after any turn in which the node served a usable template, the last install is for that template's tip and bits. */
  lemma ServedTemplateIsInstalled(c: Config, subs: seq<Subscriber>, ticks: seq<Tick>, tick: Tick, template: BlockTemplate)
    requires tick.reply == Some(template) && Builds(c, template)
    ensures var log := PolledAll(c, Start(subs), ticks + [tick]).log;
            && log != [] && log[|log| - 1].tip == template.previousBlockHash
            && Hex.DecodedArray(template.bits, 4) == Ok(BigEndian(log[|log| - 1].templateBits, 4))
  {
    hide PolledAll, Truncated, Build, BitsOf, Hex.DecodedArray, BigEndian;
    TurnInstallsIff(c, subs, ticks, tick);
    BitsAreRead("", template, c.payoutScript, true);
  }

  /** The front job builds on the tip the poller last saw. */
  lemma FrontBuildsOnLastTip(c: Config, subs: seq<Subscriber>, ticks: seq<Tick>)
    ensures var s := PolledAll(c, Start(subs), ticks);
            s.jobs != [] ==> s.lastTip.Some? && HashFromText(s.lastTip.value) == Ok(s.jobs[0].job.prevHash)
  {
    hide Issued, HashFromText, HexNumber, PolledAll;
    RunKeepsInv(c, Start(subs), ticks);
    var s := PolledAll(c, Start(subs), ticks);
    if s.jobs != [] {
      assert EntryOk(s.log[|s.log| - 1]);
    }
  }

  /** A job sent without the clean flag has the parent and the template bits of the job installed before it. */
  lemma RefreshKeepsTheWork(c: Config, subs: seq<Subscriber>, ticks: seq<Tick>, k: nat)
    ensures var s := PolledAll(c, Start(subs), ticks);
            k < |s.log| && !s.log[k].active.job.cleanJobs ==>
              && k > 0 && s.log[k - 1].active.job.prevHash == s.log[k].active.job.prevHash
              && s.log[k - 1].templateBits == s.log[k].templateBits
  {
    hide Issued, HashFromText, HexNumber, PolledAll;
    RunKeepsInv(c, Start(subs), ticks);
    var s := PolledAll(c, Start(subs), ticks);
    if k < |s.log| && !s.log[k].active.job.cleanJobs {
      assert Continues(s.log, k);
      assert EntryOk(s.log[k]) && EntryOk(s.log[k - 1]);
    }
  }

  /**
   * Whether such a refresh keeps the installed job's own bits, and with them its target: exactly when both jobs
   * were built with the minimum-difficulty override or both without it, or the template's bits are the minimum's.
   */
  lemma RefreshKeepsTheBitsIff(c: Config, subs: seq<Subscriber>, ticks: seq<Tick>, k: nat)
    ensures var log := PolledAll(c, Start(subs), ticks).log;
            k < |log| && !log[k].active.job.cleanJobs ==>
              && k > 0
              && (log[k - 1].active.job.bits == log[k].active.job.bits <==>
                    log[k - 1].overridden == log[k].overridden || log[k].templateBits == MIN_DIFFICULTY_BITS)
              && (log[k - 1].active.job.bits == log[k].active.job.bits ==>
                    log[k - 1].active.networkTarget == log[k].active.networkTarget)
  {
    hide Issued, HashFromText, HexNumber, PolledAll, Target.Decoded, Coherent;
    RunKeepsInv(c, Start(subs), ticks);
    var s := PolledAll(c, Start(subs), ticks);
    if k < |s.log| && !s.log[k].active.job.cleanJobs {
      assert Continues(s.log, k);
      assert EntryOk(s.log[k]) && EntryOk(s.log[k - 1]);
      IssuedIsCoherent(s.log[k].active);
      IssuedIsCoherent(s.log[k - 1].active);
      TargetOfCoherent(s.log[k].active);
      TargetOfCoherent(s.log[k - 1].active);
    }
  }

  /**
   * A run in which it does not: the parent header is served for the first job and not for its refresh, from any
   * template that builds and whose bits are not the minimum's.
   */
  lemma RefreshCanChangeTheBits(c: Config, template: BlockTemplate, parentTime: u32, target: Target.Target)
    requires c.exploitMinDifficulty && Target.Decoded(MIN_DIFFICULTY_BITS) == Ok(target)
    requires Build(HexNumber(1), template, c.payoutScript, true).Ok? && Build(HexNumber(2), template, c.payoutScript, false).Ok?
    requires BitsOf(template) != Some(MIN_DIFFICULTY_BITS)
    ensures var log := PolledAll(c, Start([]), [Tick(Some(template), false, Some(parentTime), {}), Tick(Some(template), true, None, {})]).log;
            && |log| == 2 && !log[1].active.job.cleanJobs
            && log[0].active.job.bits == MIN_DIFFICULTY_BITS && log[1].active.job.bits != MIN_DIFFICULTY_BITS
  {
    hide Build, BitsOf, HexNumber, Delivered, Stratum.ToNotifyParams, Target.Decoded, PolledAll;
    var first, second := Tick(Some(template), false, Some(parentTime), {}), Tick(Some(template), true, None, {});
    BuildFields(HexNumber(1), template, c.payoutScript, true);
    BuildFields(HexNumber(2), template, c.payoutScript, false);
    PolledFirst(c, Start([]), [first, second]);
    var s := Polled(c, Start([]), first);
    assert [first, second][1..] == [second] && [second][1..] == [];
    PolledFirst(c, s, [second]);
    PolledNothing(c, Polled(c, s, second));
  }

  /** Job numbers fall strictly from the front of the history to its back. */
  lemma HistoryIdsDecrease(c: Config, subs: seq<Subscriber>, ticks: seq<Tick>, j: nat, k: nat)
    ensures var s := PolledAll(c, Start(subs), ticks);
            j < k < |s.jobs| ==>
              exists x: nat, y: nat :: s.jobs[j].job.jobId == HexNumber(x) && s.jobs[k].job.jobId == HexNumber(y) && x > y
  {
    hide Issued, HashFromText, HexNumber, PolledAll;
    RunKeepsInv(c, Start(subs), ticks);
    var s := PolledAll(c, Start(subs), ticks);
    if j < k < |s.jobs| {
      var a, b := s.log[|s.log| - 1 - j], s.log[|s.log| - 1 - k];
      assert EntryOk(a) && EntryOk(b) && a.id > b.id;
    }
  }

  /** No two installs share a job id. */
  lemma LogIdsDiffer(c: Config, subs: seq<Subscriber>, ticks: seq<Tick>)
    ensures var log := PolledAll(c, Start(subs), ticks).log;
            forall j, k :: 0 <= j < k < |log| ==> log[j].active.job.jobId != log[k].active.job.jobId
  {
    hide Issued, HashFromText, HexNumber, PolledAll;
    RunKeepsInv(c, Start(subs), ticks);
    var s := PolledAll(c, Start(subs), ticks);
    forall j, k | 0 <= j < k < |s.log| ensures s.log[j].active.job.jobId != s.log[k].active.job.jobId {
      assert EntryOk(s.log[j]) && EntryOk(s.log[k]);
      if s.log[j].active.job.jobId == s.log[k].active.job.jobId {
        HexNumberInjective(s.log[j].id, s.log[k].id);
      }
    }
  }

  lemma {:induction false} FindUnique(jobs: seq<ActiveJob>, k: nat)
    requires k < |jobs| && forall i :: 0 <= i < k ==> jobs[i].job.jobId != jobs[k].job.jobId
    ensures Find(jobs, jobs[k].job.jobId) == Some(jobs[k])
  {
    if k > 0 {
      FindUnique(jobs[1..], k - 1);
    }
  }

  lemma {:induction false} FindNothing(jobs: seq<ActiveJob>, jobId: string)
    requires forall i :: 0 <= i < |jobs| ==> jobs[i].job.jobId != jobId
    ensures Find(jobs, jobId) == None
  {
    if jobs != [] {
      FindNothing(jobs[1..], jobId);
    }
  }

  /** A job is found under its id exactly until eight later jobs have been installed, and then no job is. */
  lemma JobFoundUntilEightLater(c: Config, subs: seq<Subscriber>, ticks: seq<Tick>, k: nat)
    ensures var s := PolledAll(c, Start(subs), ticks);
            k < |s.log| ==>
              Find(s.jobs, s.log[k].active.job.jobId)
              == if |s.log| - 1 - k < 8 then Some(s.log[k].active) else None
  {
    hide Issued, HashFromText, HexNumber, PolledAll;
    RunKeepsInv(c, Start(subs), ticks);
    var s := PolledAll(c, Start(subs), ticks);
    if k < |s.log| {
      var n := |s.log| - 1;
      forall i | 0 <= i < |s.jobs| && i != n - k ensures s.jobs[i].job.jobId != s.log[k].active.job.jobId {
        assert EntryOk(s.log[n - i]) && EntryOk(s.log[k]);
        if s.log[n - i].active.job.jobId == s.log[k].active.job.jobId {
          HexNumberInjective(s.log[n - i].id, s.log[k].id);
        }
      }
      if n - k < JOB_HISTORY {
        assert s.jobs[n - k] == s.log[k].active;
        FindUnique(s.jobs, n - k);
      } else {
        FindNothing(s.jobs, s.log[k].active.job.jobId);
      }
    }
  }

  /** Every install is a job the pool issued. */
  lemma LogIsIssued(c: Config, subs: seq<Subscriber>, ticks: seq<Tick>, k: nat)
    ensures var s := PolledAll(c, Start(subs), ticks); k < |s.log| ==> Issued(s.log[k].active)
  {
    hide Issued, HashFromText, HexNumber, PolledAll;
    RunKeepsInv(c, Start(subs), ticks);
    var s := PolledAll(c, Start(subs), ticks);
    if k < |s.log| {
      assert EntryOk(s.log[k]);
    }
  }

  /** Every job a share can be matched against was issued by the pool, so its target is that of its own bits. */
  lemma HistoryIsIssued(c: Config, subs: seq<Subscriber>, ticks: seq<Tick>, k: nat)
    ensures var s := PolledAll(c, Start(subs), ticks);
            k < |s.jobs| ==>
              Issued(s.jobs[k]) && Target.Decoded(s.jobs[k].job.bits) == Ok(s.jobs[k].networkTarget)
  {
    hide Issued, HashFromText, HexNumber, PolledAll, Target.Decoded, Coherent;
    RunKeepsInv(c, Start(subs), ticks);
    var s := PolledAll(c, Start(subs), ticks);
    if k < |s.jobs| {
      assert EntryOk(s.log[|s.log| - 1 - k]);
      IssuedIsCoherent(s.jobs[k]);
      TargetOfCoherent(s.jobs[k]);
    }
  }

  // ---------------------------------------------------------------- what a miner hears

  /** The notifications of a list of installs, in order. */
  function Notifications(log: seq<Install>): seq<Stratum.Json> {
    if log == [] then []
    else Notifications(log[..|log| - 1]) + [Stratum.ToNotifyParams(log[|log| - 1].active.job)]
  }

  lemma {:induction false} DeliveredTo(subscribers: seq<Subscriber>, open: set<nat>, line: Stratum.Json, sub: Subscriber)
    requires sub in subscribers && sub.id in open
    ensures sub.(delivered := sub.delivered + [line]) in Delivered(subscribers, open, line)
  {
    if subscribers[0] != sub {
      DeliveredTo(subscribers[1..], open, line, sub);
    }
  }

  predicate Heard(s: Poller, sub: Subscriber) {
    sub.(delivered := sub.delivered + Notifications(s.log)) in s.subscribers
  }

  lemma PollKeepsHeard(c: Config, s: Poller, tick: Tick, sub: Subscriber)
    requires Heard(s, sub) && sub.id in tick.open
    ensures Heard(Polled(c, s, tick), sub)
  {
    hide Build, Finished, BitsOf, HexNumber, Delivered, Stratum.ToNotifyParams;
    var t := Polled(c, s, tick);
    if |t.log| != |s.log| {
      var line := Stratum.ToNotifyParams(t.log[|s.log|].active.job);
      assert t.log[..|t.log| - 1] == s.log;
      DeliveredTo(s.subscribers, tick.open, line, sub.(delivered := sub.delivered + Notifications(s.log)));
      Assoc(sub.delivered, Notifications(s.log), [line]);
    }
  }

  lemma {:induction false} RunKeepsHeard(c: Config, s: Poller, ticks: seq<Tick>, sub: Subscriber)
    requires Heard(s, sub) && forall k :: 0 <= k < |ticks| ==> sub.id in ticks[k].open
    ensures Heard(PolledAll(c, s, ticks), sub)
    decreases |ticks|
  {
    hide Heard, Polled;
    if ticks != [] {
      PollKeepsHeard(c, s, ticks[0], sub);
      RunKeepsHeard(c, Polled(c, s, ticks[0]), ticks[1..], sub);
    }
  }

  /** A subscriber whose channel stays open is sent exactly the installed jobs, each once and in order. */
  lemma SubscriberHearsEveryJob(c: Config, subs: seq<Subscriber>, ticks: seq<Tick>, sub: Subscriber)
    requires sub in subs && forall k :: 0 <= k < |ticks| ==> sub.id in ticks[k].open
    ensures var s := PolledAll(c, Start(subs), ticks);
            sub.(delivered := sub.delivered + Notifications(s.log)) in s.subscribers
  {
    hide PolledAll;
    assert sub.delivered + [] == sub.delivered;
    RunKeepsHeard(c, Start(subs), ticks, sub);
  }
}
