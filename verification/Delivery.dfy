/** One miner's channel: what the poller broadcasts into it and what its own session sends, as a machine of steps. */
module Delivery {
  import opened Bytes
  import Pool

  /**
   * Jobs are numbered by install. The poller sets a job and then announces it; the session reads the current job
   * and then sends it. `subscriptions` counts the channel's entries in the subscriber list, `pending` is a job read
   * and not sent yet, `heard` the numbers of the notifications in the channel.
   */
  datatype Channel = Channel(installed: nat, announced: nat, subscriptions: nat, pending: Option<nat>, heard: seq<nat>)

  datatype Event = Install | Announce | Subscribe | ReadCurrent | SendRead

  const EMPTY := Channel(0, 0, 0, None, [])

  function Copies(v: nat, n: nat): (s: seq<nat>)
    ensures |s| == n && forall k :: 0 <= k < n ==> s[k] == v
  {
    seq(n, _ => v)
  }

  /** The poller alternates its two steps; the session finishes one request before the next. */
  predicate Enabled(s: Channel, e: Event) {
    match e
    case Install => s.installed == s.announced
    case Announce => s.installed > s.announced
    case Subscribe => s.pending.None?
    case ReadCurrent => s.pending.None?
    case SendRead => s.pending.Some?
  }

  function Next(s: Channel, e: Event): Channel
    requires Enabled(s, e)
  {
    match e
    case Install => s.(installed := s.installed + 1)
    case Announce => s.(announced := s.announced + 1, heard := s.heard + Copies(s.announced + 1, s.subscriptions))
    case Subscribe => s.(subscriptions := s.subscriptions + 1)
    case ReadCurrent => s.(pending := if s.installed == 0 then None else Some(s.installed))
    case SendRead => s.(pending := None, heard := s.heard + [s.pending.value])
  }

  predicate Runnable(s: Channel, events: seq<Event>)
    decreases |events|
  {
    events == [] || (Enabled(s, events[0]) && Runnable(Next(s, events[0]), events[1..]))
  }

  function Run(s: Channel, events: seq<Event>): Channel
    requires Runnable(s, events)
    decreases |events|
  {
    if events == [] then s else Run(Next(s, events[0]), events[1..])
  }

  /** A notification never follows one for a later install. */
  predicate InOrder(heard: seq<nat>) { forall j, k :: 0 <= j < k < |heard| ==> heard[j] <= heard[k] }

  /** The job about to be sent is older than one already announced into the channel. */
  predicate Overtaken(s: Channel) { s.pending.Some? && s.subscriptions > 0 && s.announced > s.pending.value }

  /** No send of the run comes after the announcement of a newer job. */
  predicate NeverOvertaken(s: Channel, events: seq<Event>)
    requires Runnable(s, events)
    decreases |events|
  {
    events == [] || ((events[0] == SendRead ==> !Overtaken(s)) && NeverOvertaken(Next(s, events[0]), events[1..]))
  }

  predicate Inv(s: Channel) {
    && s.announced <= s.installed <= s.announced + 1
    && (forall k :: 0 <= k < |s.heard| ==> s.heard[k] <= s.installed)
    && (s.pending.Some? ==>
          && s.pending.value <= s.installed
          && (forall k :: 0 <= k < |s.heard| && s.heard[k] > s.pending.value ==> Overtaken(s))
          && (Overtaken(s) ==> s.announced in s.heard))
  }

  lemma StepKeepsInv(s: Channel, e: Event)
    requires Inv(s) && Enabled(s, e)
    ensures Inv(Next(s, e))
  {
    if e == Announce && s.subscriptions > 0 {
      var t := Next(s, e);
      assert t.heard[|s.heard|] == t.announced;
    }
  }

  lemma InOrderAppend(heard: seq<nat>, more: seq<nat>)
    requires InOrder(heard) && InOrder(more)
    requires forall j, k :: 0 <= j < |heard| && 0 <= k < |more| ==> heard[j] <= more[k]
    ensures InOrder(heard + more)
  {
  }

  lemma OrderIsLost(heard: seq<nat>, more: seq<nat>)
    requires InOrder(heard + more)
    ensures InOrder(heard)
    ensures forall j, k :: 0 <= j < |heard| && 0 <= k < |more| ==> heard[j] <= more[k]
  {
    var all := heard + more;
    forall j, k | 0 <= j < k < |heard| ensures heard[j] <= heard[k] {
      assert all[j] == heard[j] && all[k] == heard[k];
    }
    forall j, k | 0 <= j < |heard| && 0 <= k < |more| ensures heard[j] <= more[k] {
      assert all[j] == heard[j] && all[|heard| + k] == more[k];
    }
  }

  /** One step keeps the order exactly when it is not an overtaken send. */
  lemma StepKeepsOrderIff(s: Channel, e: Event)
    requires Inv(s) && Enabled(s, e)
    ensures InOrder(Next(s, e).heard) <==> InOrder(s.heard) && (e == SendRead ==> !Overtaken(s))
  {
    var t := Next(s, e);
    if e == Announce || e == SendRead {
      var more := t.heard[|s.heard|..];
      assert t.heard == s.heard + more;
      if InOrder(t.heard) {
        OrderIsLost(s.heard, more);
        assert e == SendRead && s.announced in s.heard ==> s.announced <= more[0];
      }
      if InOrder(s.heard) && (e == SendRead ==> !Overtaken(s)) {
        InOrderAppend(s.heard, more);
      }
    }
  }

  /**
   * In every interleaving of the poller and the session: a miner's notifications arrive in the order of the
   * installs exactly when no job it was sent had been overtaken, between being read and being sent, by the
   * announcement of a newer one.
   */
  lemma {:induction false} InOrderFromIff(s: Channel, events: seq<Event>)
    requires Inv(s) && Runnable(s, events)
    ensures InOrder(Run(s, events).heard) <==> InOrder(s.heard) && NeverOvertaken(s, events)
    decreases |events|
  {
    hide InOrder, Inv, Overtaken;
    if events != [] {
      StepKeepsInv(s, events[0]);
      StepKeepsOrderIff(s, events[0]);
      InOrderFromIff(Next(s, events[0]), events[1..]);
    }
  }

  lemma ArriveInOrderIff(events: seq<Event>)
    requires Runnable(EMPTY, events)
    ensures InOrder(Run(EMPTY, events).heard) <==> NeverOvertaken(EMPTY, events)
  {
    InOrderFromIff(EMPTY, events);
  }

  // ---------------------------------------------------------------- one read and its send

  function Announces(events: seq<Event>): nat
    decreases |events|
  {
    if events == [] then 0 else (if events[0] == Announce then 1 else 0) + Announces(events[1..])
  }

  predicate PollerOnly(events: seq<Event>) { forall k :: 0 <= k < |events| ==> events[k] == Install || events[k] == Announce }

  lemma {:induction false} WhilePolling(s: Channel, events: seq<Event>)
    requires Runnable(s, events) && PollerOnly(events)
    ensures var t := Run(s, events);
            t.pending == s.pending && t.subscriptions == s.subscriptions && t.announced == s.announced + Announces(events)
    decreases |events|
  {
    if events != [] {
      WhilePolling(Next(s, events[0]), events[1..]);
    }
  }

  /**
   * What overtakes a read: with a subscription, one announcement more than was owed when the job was read, which
   * is one if the read fell between setting a job and announcing it, and otherwise none.
   */
  lemma OvertakenIff(s: Channel, between: seq<Event>)
    requires Inv(s) && s.pending.None? && s.installed > 0
    requires Runnable(Next(s, ReadCurrent), between) && PollerOnly(between)
    ensures var t := Run(Next(s, ReadCurrent), between);
            && t.pending == Some(s.installed)
            && (Overtaken(t) <==> s.subscriptions > 0 && Announces(between) > s.installed - s.announced)
  {
    WhilePolling(Next(s, ReadCurrent), between);
  }

  /** A run in which job 2 is announced between the read and the send of job 1. */
  lemma CanArriveOutOfOrder()
    ensures var events := [Subscribe, Install, Announce, ReadCurrent, Install, Announce, SendRead];
            Runnable(EMPTY, events) && Run(EMPTY, events).heard == [1, 2, 1] && !InOrder([1, 2, 1])
  {
    var s1 := Next(EMPTY, Subscribe);
    var s2 := Next(s1, Install);
    var s3 := Next(s2, Announce);
    var s4 := Next(s3, ReadCurrent);
    var s5 := Next(s4, Install);
    var s6 := Next(s5, Announce);
    var s7 := Next(s6, SendRead);
    assert s3.heard == [1] && s6.heard == [1, 2] && s7.heard == [1, 2, 1];
    RunOne(s6, SendRead, []);
    RunOne(s5, Announce, [SendRead]);
    RunOne(s4, Install, [Announce, SendRead]);
    RunOne(s3, ReadCurrent, [Install, Announce, SendRead]);
    RunOne(s2, Announce, [ReadCurrent, Install, Announce, SendRead]);
    RunOne(s1, Install, [Announce, ReadCurrent, Install, Announce, SendRead]);
    RunOne(EMPTY, Subscribe, [Install, Announce, ReadCurrent, Install, Announce, SendRead]);
    var heard := [1, 2, 1];
    assert heard[1] > heard[2];
  }

  lemma RunOne(s: Channel, e: Event, rest: seq<Event>)
    requires Enabled(s, e) && Runnable(Next(s, e), rest)
    ensures Runnable(s, [e] + rest) && Run(s, [e] + rest) == Run(Next(s, e), rest)
  {
    assert ([e] + rest)[1..] == rest;
  }

  /** The job a session reads is the last install of the poller's run. */
  lemma CurrentIsLastInstall(c: Pool.Config, subs: seq<Pool.Subscriber>, ticks: seq<Pool.Tick>)
    ensures var s := Pool.PolledAll(c, Pool.Start(subs), ticks);
            && (s.jobs == [] <==> s.log == [])
            && (s.jobs != [] ==> s.jobs[0] == s.log[|s.log| - 1].active)
  {
    hide Pool.PolledAll, Pool.EntryOk;
    Pool.RunKeepsInv(c, Pool.Start(subs), ticks);
  }
}
