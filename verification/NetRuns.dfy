/** What runs of the reconnect state machine achieve: it stays connected while it hears from the
    server, finds back after a cut-off, and does nothing when stopped. Times are in nanoseconds and
    timeouts in milliseconds. */
module NetRuns {
  import opened NetMachine
  import opened Words

  const MS: nat := 1_000_000

  /** A timer of t milliseconds has expired once t + 1 whole milliseconds have passed. */
  lemma Expired(t: nat, since: nat, now: nat)
    ensures Elapsed(since, now) > t <==> now >= since + (t + 1) * MS
    ensures Elapsed(since, now) >= t <==> now >= since + t * MS || t == 0
  {
  }

  lemma RunSnoc(cfg: Config, m: Machine, calls: seq<Timed>, t: Timed)
    ensures Run(cfg, m, calls + [t]) == Step(cfg, Run(cfg, m, calls), t)
  {
    hide Step;
    assert (calls + [t])[..|calls|] == calls;
  }

  // ---------- Heard in time ----------

  /** The last time the server was heard, by a heartbeat or by I/O. */
  function LastHeard(t0: nat, calls: seq<Timed>): nat {
    if calls == [] then t0
    else
      var last := calls[|calls| - 1];
      if last.call.HeartbeatOkCall? || last.call.IoOkCall? then last.now
      else LastHeard(t0, calls[..|calls| - 1])
  }

  predicate Calm(c: Call) {
    c.HeartbeatOkCall? || c.IoOkCall? || c.TickCall? || c.SetServersCall?
  }

  /** Nothing bad is reported, and at every Tick the server was heard within the timeout. */
  ghost predicate Attended(cfg: Config, t0: nat, calls: seq<Timed>) {
    calls != [] ==>
      var before, last := calls[..|calls| - 1], calls[|calls| - 1];
      && Attended(cfg, t0, before)
      && Calm(last.call)
      && (last.call.TickCall? ==> last.now < LastHeard(t0, before) + (cfg.detectTimeout + 1) * MS)
  }

  /** A machine started with servers stays connected as long as it hears from the server in time. */
  lemma {:induction false} StaysConnected(cfg: Config, m: Machine, t0: nat, calls: seq<Timed>)
    requires m.servers != [] && Attended(cfg, t0, calls)
    ensures var m' := Run(cfg, Start(cfg, m, t0), calls);
      && m'.state == Connected && m'.running && CanPerformIo(m') && m'.lastHeartbeat == LastHeard(t0, calls)
      && m'.retry == 0 && m'.backoff == cfg.minBackoff
  {
    hide Elapsed, PrimaryIndex, Attempt;
    if calls != [] {
      var before, last := calls[..|calls| - 1], calls[|calls| - 1];
      StaysConnected(cfg, m, t0, before);
      Expired(cfg.detectTimeout, LastHeard(t0, before), last.now);
    }
  }

  /** The first Tick that comes too late ends this. */
  lemma LeavesConnected(cfg: Config, m: Machine, t0: nat, calls: seq<Timed>, now: nat, ok: bool)
    requires m.servers != [] && Attended(cfg, t0, calls)
    requires now >= LastHeard(t0, calls) + (cfg.detectTimeout + 1) * MS
    ensures Run(cfg, Start(cfg, m, t0), calls + [Timed(TickCall(ok), now)]).state == Detecting
  {
    hide Elapsed, Run, Attended, LastHeard;
    StaysConnected(cfg, m, t0, calls);
    RunSnoc(cfg, Start(cfg, m, t0), calls, Timed(TickCall(ok), now));
    Expired(cfg.detectTimeout, LastHeard(t0, calls), now);
  }

  /** A heartbeat leads back to Connected from every state but Disconnected and Offline, and I/O is
      allowed after it exactly there. */
  lemma HeartbeatConnects(cfg: Config, m: Machine, now: nat)
    ensures var m' := Step(cfg, m, Timed(HeartbeatOkCall, now));
      && m'.lastHeartbeat == now
      && (CanPerformIo(m') <==> m.state != Disconnected && m.state != Offline)
      && (CanPerformIo(m') ==> m'.state == Connected)
      && (CanPerformIo(m') && m.state != Connected ==> m'.retry == 0 && m'.backoff == cfg.minBackoff)
      && (!CanPerformIo(m') ==> m'.state == m.state && m'.trace == m.trace)
  {
  }

  /** Two reported timeouts in a row end I/O, whatever the state; the first alone does not. */
  lemma TimeoutsDisconnect(cfg: Config, m: Machine, t1: nat, t2: nat)
    ensures var m1 := Step(cfg, m, Timed(HeartbeatTimeoutCall, t1));
      && !CanPerformIo(Step(cfg, m1, Timed(HeartbeatTimeoutCall, t2)))
      && (m.state == Connected ==> CanPerformIo(m1))
  {
  }

  /** After an I/O error a connected machine that hears nothing for the timeout is disconnected, and one
      that hears a heartbeat is connected again. */
  lemma ErrorThenSilence(cfg: Config, m: Machine, t1: nat, t2: nat, ok: bool)
    requires m.running && m.state == Connected
    ensures var m1 := Step(cfg, m, Timed(IoErrorCall, t1));
      && CanPerformIo(m1)
      && Step(cfg, m1, Timed(HeartbeatOkCall, t2)).state == Connected
      && Step(cfg, m1, Timed(TickCall(ok), t2)).state ==
           if t2 >= t1 + (cfg.detectTimeout + 1) * MS then Disconnected else Detecting
  {
    hide Elapsed;
    Expired(cfg.detectTimeout, t1, t2);
  }

  // ---------- Back after a cut-off ----------

  /** After any run, if an attempt is due and succeeds, the machine is recovering, and a heartbeat
      then allows I/O again. */
  lemma Recovers(cfg: Config, m: Machine, calls: seq<Timed>, t: nat, t': nat)
    requires var m1 := Run(cfg, m, calls);
      m1.running && m1.state == Reconnecting && m1.servers != [] && t >= m1.lastAttempt + m1.backoff * MS
    ensures var m2 := Run(cfg, m, calls + [Timed(TickCall(true), t)]);
      m2.state == Recovering && m2.retry == 0 && m2.backoff == cfg.minBackoff && m2.index == Run(cfg, m, calls).index
    ensures CanPerformIo(Run(cfg, m, calls + [Timed(TickCall(true), t)] + [Timed(HeartbeatOkCall, t')]))
  {
    hide Elapsed, Run;
    var m1 := Run(cfg, m, calls);
    RunSnoc(cfg, m, calls, Timed(TickCall(true), t));
    RunSnoc(cfg, m, calls + [Timed(TickCall(true), t)], Timed(HeartbeatOkCall, t'));
    Expired(m1.backoff, m1.lastAttempt, t);
  }

  /** The way back, with everything it reports: a Tick starts reconnecting, an attempt after the least
      backoff succeeds, and a heartbeat completes the recovery. */
  lemma WayBack(cfg: Config, m: Machine, t1: nat, any: bool, t2: nat, t3: nat)
    requires m.running && m.state == Disconnected && m.servers != []
    requires t2 >= t1 + cfg.minBackoff * MS
    ensures var m' := Step(cfg, Step(cfg, Step(cfg, m, Timed(TickCall(any), t1)), Timed(TickCall(true), t2)),
                           Timed(HeartbeatOkCall, t3));
      && m'.state == Connected && m'.retry == 0 && m'.index == m.index
      && m'.trace == m.trace
           + [Changed(Disconnected, Reconnecting), Attempted(m.index, t2, true), Changed(Reconnecting, Recovering),
              Changed(Recovering, Connected), RecoveryComplete]
  {
    hide Elapsed;
    Expired(cfg.minBackoff, t1, t2);
    var m1 := Step(cfg, m, Timed(TickCall(any), t1));
    assert m1.trace == m.trace + [Changed(Disconnected, Reconnecting)];
    var m2 := Step(cfg, m1, Timed(TickCall(true), t2));
    assert m2.trace == m1.trace + [Attempted(m.index, t2, true)] + [Changed(Reconnecting, Recovering)];
  }

  /** Before the backoff has passed nothing is attempted. */
  lemma WaitsForBackoff(cfg: Config, m: Machine, now: nat, ok: bool)
    requires m.state == Reconnecting && m.lastAttempt <= now < m.lastAttempt + m.backoff * MS
    ensures Step(cfg, m, Timed(TickCall(ok), now)) == m
  {
    hide Elapsed, Attempt;
    Expired(m.backoff, m.lastAttempt, now);
  }

  // ---------- A recovery that is not confirmed ----------

  predicate Unheard(c: Call) {
    c.TickCall? || c.HeartbeatTimeoutCall? || c.IoOkCall? || c.IoErrorCall? || c.SetServersCall?
  }

  /** Calls before the recovery timeout that began at t0 has expired, and no heartbeat among them. */
  ghost predicate Unconfirmed(cfg: Config, t0: nat, calls: seq<Timed>) {
    forall t :: t in calls ==> Unheard(t.call) && t.now < t0 + (cfg.recoveryTimeout + 1) * MS
  }

  /** Without a heartbeat a recovery waits until its timeout has expired, and the next Tick gives up. */
  lemma {:induction false} RecoveryWaits(cfg: Config, m: Machine, calls: seq<Timed>, now: nat, ok: bool)
    requires m.running && m.state == Recovering && Unconfirmed(cfg, m.enterTime, calls)
    ensures var m' := Run(cfg, m, calls);
      m'.running && m'.state == Recovering && m'.enterTime == m.enterTime
    ensures Step(cfg, Run(cfg, m, calls), Timed(TickCall(ok), now)).state ==
      if now >= m.enterTime + (cfg.recoveryTimeout + 1) * MS then Disconnected else Recovering
  {
    hide Elapsed, PrimaryIndex;
    if calls != [] {
      var last := calls[|calls| - 1];
      assert last in calls;
      RecoveryWaits(cfg, m, calls[..|calls| - 1], last.now, true);
      Expired(cfg.recoveryTimeout, m.enterTime, last.now);
    }
    Expired(cfg.recoveryTimeout, m.enterTime, now);
  }

  // ---------- Stopped ----------

  /** A stopped machine is offline and reports nothing until it is started again. */
  lemma {:induction false} StaysStopped(cfg: Config, m: Machine, t0: nat, calls: seq<Timed>)
    requires forall t :: t in calls ==> !t.call.StartCall?
    ensures var stopped, m' := Stop(m, t0), Run(cfg, Stop(m, t0), calls);
      !m'.running && m'.state == Offline && !CanPerformIo(m') && m'.trace == stopped.trace
  {
    hide PrimaryIndex;
    if calls != [] {
      var last := calls[|calls| - 1];
      assert last in calls;
      StaysStopped(cfg, m, t0, calls[..|calls| - 1]);
    }
  }

  /** Without servers a started machine is offline. */
  lemma StartedWithout(cfg: Config, m: Machine, now: nat)
    requires m.servers == []
    ensures Start(cfg, m, now).state == Offline && Start(cfg, m, now).running
  {
  }

  // ---------- Servers and pending I/O ----------

  /** The selected server is the first primary one, or the first if there is none. */
  lemma SelectsPrimary(m: Machine, servers: seq<Server>)
    requires servers != []
    ensures var m' := SetServers(m, servers);
      && m'.servers == servers && m'.index < |servers|
      && (forall j :: 0 <= j < m'.index ==> !servers[j].isPrimary)
      && (servers[m'.index].isPrimary || (m'.index == 0 && forall j :: 0 <= j < |servers| ==> !servers[j].isPrimary))
  {
  }

  /** Errors not yet made up for by successes. */
  function Outstanding(calls: seq<Timed>): nat {
    if calls == [] then 0
    else
      var n := Outstanding(calls[..|calls| - 1]);
      match calls[|calls| - 1].call
      case IoErrorCall => n + 1
      case IoOkCall => if n == 0 then 0 else n - 1
      case _ => n
  }

  lemma {:induction false} OutstandingBound(calls: seq<Timed>)
    ensures Outstanding(calls) <= |calls|
  {
    if calls != [] {
      OutstandingBound(calls[..|calls| - 1]);
    }
  }

  /** The pending count is the number of outstanding errors, over every run of fewer than 2^32 calls. */
  lemma {:induction false} PendingIsOutstanding(cfg: Config, calls: seq<Timed>)
    requires |calls| < 0x1_0000_0000
    ensures Run(cfg, Initial(cfg), calls).pendingIo == Outstanding(calls)
  {
    hide Elapsed, PrimaryIndex, Backoff;
    if calls != [] {
      var before := calls[..|calls| - 1];
      PendingIsOutstanding(cfg, before);
      OutstandingBound(before);
      PendingStep(cfg, Run(cfg, Initial(cfg), before), calls[|calls| - 1]);
    }
  }

  lemma PendingStep(cfg: Config, m: Machine, t: Timed)
    requires m.pendingIo + 1 < 0x1_0000_0000
    ensures Step(cfg, m, t).pendingIo ==
      match t.call
      case IoErrorCall => m.pendingIo + 1
      case IoOkCall => if m.pendingIo == 0 then 0 else m.pendingIo - 1
      case _ => m.pendingIo
  {
    hide Elapsed, PrimaryIndex, Backoff;
  }
}
