/** Timing of the reconnect state machine: when I/O is cut off, which server is tried when, and how
    far attempts lie apart. */
module NetTiming {
  import opened NetMachine
  import opened Rounds
  import opened Words

  // ---------- I/O is cut off when the server falls silent ----------

  /** The least time after which `detectTimeout` has expired. */
  function Expiry(cfg: Config): nat {
    (cfg.detectTimeout + 1) * NS_PER_MS
  }

  /** The time of the last Tick, or t0. */
  function LastTick(t0: nat, calls: seq<Timed>): nat {
    if calls == [] then t0
    else if calls[|calls| - 1].call.TickCall? then calls[|calls| - 1].now
    else LastTick(t0, calls[..|calls| - 1])
  }

  predicate Silent(c: Call) {
    !c.HeartbeatOkCall? && !c.IoOkCall? && !c.StartCall? && !c.StopCall?
  }

  /** From t0 on nothing is heard from the server, nobody starts or stops the machine, time does
      not run backwards, and at every call the last Tick is at most d old. */
  ghost predicate Quiet(t0: nat, d: nat, calls: seq<Timed>) {
    calls != [] ==>
      var before, last := calls[..|calls| - 1], calls[|calls| - 1];
      && Quiet(t0, d, before)
      && Silent(last.call)
      && LastTick(t0, before) <= last.now <= LastTick(t0, before) + d
  }

  /** What is true between calls: if the machine still lets I/O through, its timers say why. */
  ghost predicate Waiting(cfg: Config, t0: nat, d: nat, m: Machine, tick: nat) {
    && m.running
    && t0 <= tick
    && (m.state == Connected ==> m.lastHeartbeat <= t0 && tick < t0 + Expiry(cfg))
    && (m.state == Detecting ==>
          m.enterTime < t0 + Expiry(cfg) + d && (tick == t0 || tick < m.enterTime + Expiry(cfg)))
  }

  lemma ExpiredMeans(cfg: Config, since: nat, now: nat)
    ensures Elapsed(since, now) > cfg.detectTimeout <==> now >= since + Expiry(cfg)
  {
  }

  lemma StepWaiting(cfg: Config, t0: nat, d: nat, m: Machine, tick: nat, t: Timed)
    requires Waiting(cfg, t0, d, m, tick) && Silent(t.call)
    requires tick <= t.now <= tick + d
    ensures Waiting(cfg, t0, d, Step(cfg, m, t), if t.call.TickCall? then t.now else tick)
  {
    hide Elapsed, Expiry, Attempt, PrimaryIndex;
    ExpiredMeans(cfg, m.lastHeartbeat, t.now);
    ExpiredMeans(cfg, m.enterTime, t.now);
    if t.call.TickCall? && m.state == Reconnecting && m.servers != [] {
      AttemptKeepsAway(cfg, m, t.now, t.call.ok);
    }
  }

  /** An attempt never leads straight back to I/O. */
  lemma AttemptKeepsAway(cfg: Config, m: Machine, now: nat, ok: bool)
    requires m.state == Reconnecting && m.servers != []
    ensures Attempt(cfg, m, now, ok).state in {Reconnecting, Recovering, Offline}
    ensures Attempt(cfg, m, now, ok).running == m.running
  {
  }

  lemma {:induction false} RunWaiting(cfg: Config, t0: nat, d: nat, m: Machine, calls: seq<Timed>)
    requires m.running && m.lastHeartbeat <= t0 && m.enterTime <= t0
    requires Quiet(t0, d, calls)
    ensures Waiting(cfg, t0, d, Run(cfg, m, calls), LastTick(t0, calls))
  {
    hide Step, Silent;
    if calls != [] {
      var before := calls[..|calls| - 1];
      RunWaiting(cfg, t0, d, m, before);
      StepWaiting(cfg, t0, d, Run(cfg, m, before), LastTick(t0, before), calls[|calls| - 1]);
    }
  }

  /** A running machine that hears nothing after t0 refuses I/O at every time later than
      t0 + 2 * (timeout + d), as long as the last Tick is never more than d old. */
  lemma CutOff(cfg: Config, t0: nat, d: nat, m: Machine, calls: seq<Timed>, now: nat)
    requires m.running && m.lastHeartbeat <= t0 && m.enterTime <= t0
    requires Quiet(t0, d, calls)
    requires LastTick(t0, calls) <= now <= LastTick(t0, calls) + d
    requires now > t0 + 2 * (Expiry(cfg) - 1 + d)
    ensures !CanPerformIo(Run(cfg, m, calls))
  {
    hide Run, Quiet, LastTick;
    RunWaiting(cfg, t0, d, m, calls);
  }

  // ---------- Backoff ----------

  function Pow2(n: nat): nat {
    if n == 0 then 1 else 2 * Pow2(n - 1)
  }

  lemma {:induction false} DoubledIsPower(cfg: Config, backoff: nat, times: nat)
    requires backoff <= cfg.maxBackoff
    ensures Doubled(cfg, backoff, times) == Min(cfg.maxBackoff, backoff * Pow2(times))
    decreases times
  {
    if times > 0 {
      var p := Pow2(times - 1);
      Pow2Positive(times - 1);
      Regroup(backoff, p);
      AtLeast(backoff * 2, p);
      if backoff * 2 < cfg.maxBackoff {
        DoubledIsPower(cfg, backoff * 2, times - 1);
      }
    }
  }

  lemma Regroup(b: nat, p: nat)
    ensures b * (2 * p) == (b * 2) * p
  {
  }

  lemma {:induction false} Pow2Positive(n: nat)
    ensures Pow2(n) >= 1
  {
    if n > 0 {
      Pow2Positive(n - 1);
    }
  }

  /** After j failures the wait is min * 2^j, but at most max. */
  lemma BackoffIsPower(cfg: Config, j: nat)
    requires cfg.minBackoff <= cfg.maxBackoff
    ensures Backoff(cfg, j) == Min(cfg.maxBackoff, cfg.minBackoff * Pow2(j))
  {
    DoubledIsPower(cfg, cfg.minBackoff, j);
  }

  // ---------- Rotation ----------

  /** The attempts in a trace, oldest first. */
  function Attempts(trace: seq<Callback>): seq<Callback> {
    if trace == [] then []
    else Attempts(trace[..|trace| - 1]) + (if trace[|trace| - 1].Attempted? then [trace[|trace| - 1]] else [])
  }

  /** Calls of one reconnecting episode in which every attempt fails. */
  predicate Failing(c: Call) {
    c == TickCall(false) || c == HeartbeatTimeoutCall || c == IoErrorCall || c == IoOkCall
  }

  ghost predicate AllFailing(calls: seq<Timed>) {
    forall t :: t in calls ==> Failing(t.call)
  }

  /** The attempts made since a machine m0 entered Reconnecting. */
  ghost predicate Since(m0: Machine, m: Machine, tries: seq<Callback>) {
    Attempts(m.trace) == Attempts(m0.trace) + tries
  }

  /** The k-th attempt goes to the server k / M places after the first, and an attempt that follows
      the j-th failure at one server, j < M, waits for the j-th backoff. */
  ghost predicate Rotates(cfg: Config, m0: Machine, tries: seq<Callback>)
    requires cfg.maxRetry >= 1 && m0.servers != []
  {
    && (forall k :: 0 <= k < |tries| ==>
          && tries[k].Attempted? && !tries[k].ok
          && tries[k].server == (m0.index + k / cfg.maxRetry) % |m0.servers|)
    && (forall k :: 1 <= k < |tries| && k % cfg.maxRetry != 0 ==>
          Elapsed(tries[k - 1].at, tries[k].at) >= Backoff(cfg, k % cfg.maxRetry))
  }

  /** Where the episode stands: the machine has gone through whole rounds of M attempts and r more. */
  ghost predicate Episode(cfg: Config, m0: Machine, m: Machine, tries: seq<Callback>)
    requires cfg.maxRetry >= 1 && m0.servers != []
  {
    && m.state == Reconnecting && m.servers == m0.servers
    && Since(m0, m, tries)
    && Rotates(cfg, m0, tries)
    && m.retry == |tries| % cfg.maxRetry
    && m.index == (m0.index + |tries| / cfg.maxRetry) % |m0.servers|
    && (m.retry > 0 ==> m.backoff == Backoff(cfg, m.retry) && m.lastAttempt == tries[|tries| - 1].at)
  }

  lemma AttemptsSnoc(trace: seq<Callback>, c: Callback)
    ensures Attempts(trace + [c]) == Attempts(trace) + (if c.Attempted? then [c] else [])
  {
    assert (trace + [c])[..|trace|] == trace;
  }

  /** One more failed attempt belongs to the rotation. */
  lemma RotatesSnoc(cfg: Config, m0: Machine, tries: seq<Callback>, server: nat, at: nat)
    requires cfg.maxRetry >= 1 && m0.servers != [] && Rotates(cfg, m0, tries)
    requires server == (m0.index + |tries| / cfg.maxRetry) % |m0.servers|
    requires |tries| % cfg.maxRetry != 0 ==>
      |tries| >= 1 && Elapsed(tries[|tries| - 1].at, at) >= Backoff(cfg, |tries| % cfg.maxRetry)
    ensures Rotates(cfg, m0, tries + [Attempted(server, at, false)])
  {
    hide Elapsed, Backoff;
  }

  lemma EpisodeAttempt(cfg: Config, m0: Machine, m: Machine, tries: seq<Callback>, now: nat)
    requires cfg.maxRetry >= 1 && |m0.servers| >= 2
    requires Episode(cfg, m0, m, tries)
    requires Elapsed(m.lastAttempt, now) >= m.backoff
    ensures Episode(cfg, m0, Attempt(cfg, m, now, false), tries + [Attempted(m.index, now, false)])
  {
    hide Elapsed, Backoff, Rotates, Attempts;
    var n, a := |tries|, Attempted(m.index, now, false);
    AttemptsSnoc(m.trace, a);
    NextRound(n, cfg.maxRetry);
    NextServer(m0.index + n / cfg.maxRetry, |m0.servers|);
    NoTries(n, cfg.maxRetry);
    RotatesSnoc(cfg, m0, tries, m.index, now);
    assert Since(m0, Attempt(cfg, m, now, false), tries + [a]);
  }

  lemma NoTries(n: nat, m: nat)
    requires m >= 1
    ensures n == 0 ==> n % m == 0
  {
  }

  /** One call of an episode with at least two servers. */
  lemma EpisodeStep(cfg: Config, m0: Machine, m: Machine, tries: seq<Callback>, t: Timed)
    returns (tries': seq<Callback>)
    requires cfg.maxRetry >= 1 && |m0.servers| >= 2
    requires Episode(cfg, m0, m, tries) && Failing(t.call)
    ensures Episode(cfg, m0, Step(cfg, m, t), tries')
  {
    hide Elapsed, Backoff, Rotates, Attempts, Attempt;
    tries' := tries;
    if t.call.TickCall? && m.running && Elapsed(m.lastAttempt, t.now) >= m.backoff {
      EpisodeAttempt(cfg, m0, m, tries, t.now);
      tries' := tries + [Attempted(m.index, t.now, false)];
    }
  }

  /** With two or more servers, failing attempts rotate through the servers, M at each, spaced by
      the backoff, for ever: the machine stays in Reconnecting. */
  lemma {:induction false} EpisodeRun(cfg: Config, m0: Machine, calls: seq<Timed>) returns (tries: seq<Callback>)
    requires cfg.maxRetry >= 1 && |m0.servers| >= 2
    requires m0.state == Reconnecting && m0.retry == 0 && m0.index < |m0.servers|
    requires AllFailing(calls)
    ensures Episode(cfg, m0, Run(cfg, m0, calls), tries)
  {
    hide Step, Failing, Episode;
    if calls == [] {
      tries := [];
      EpisodeStart(cfg, m0);
    } else {
      var before := calls[..|calls| - 1];
      var tries0 := EpisodeRun(cfg, m0, before);
      tries := EpisodeStep(cfg, m0, Run(cfg, m0, before), tries0, calls[|calls| - 1]);
    }
  }

  lemma EpisodeStart(cfg: Config, m0: Machine)
    requires cfg.maxRetry >= 1 && m0.servers != []
    requires m0.state == Reconnecting && m0.retry == 0 && m0.index < |m0.servers|
    ensures Episode(cfg, m0, m0, [])
  {
    hide Attempts;
    assert Attempts(m0.trace) + [] == Attempts(m0.trace);
    DivMod(0, 0, 0, cfg.maxRetry);
    DivMod(m0.index, 0, m0.index, |m0.servers|);
  }

  // ---------- A single server ----------

  /** With one server, the machine keeps trying until the M-th failure takes it offline. */
  ghost predicate Alone(cfg: Config, m0: Machine, m: Machine, tries: seq<Callback>) {
    && m.servers == m0.servers && m.index == m0.index
    && Since(m0, m, tries)
    && (forall k :: 0 <= k < |tries| ==> tries[k].Attempted? && !tries[k].ok && tries[k].server == m0.index)
    && |tries| <= cfg.maxRetry
    && if |tries| < cfg.maxRetry then m.state == Reconnecting && m.retry == |tries| else m.state == Offline
  }

  lemma AloneStep(cfg: Config, m0: Machine, m: Machine, tries: seq<Callback>, t: Timed)
    returns (tries': seq<Callback>)
    requires cfg.maxRetry >= 1 && |m0.servers| == 1
    requires Alone(cfg, m0, m, tries) && Failing(t.call)
    ensures Alone(cfg, m0, Step(cfg, m, t), tries')
  {
    hide Elapsed, Backoff, Attempts;
    tries' := tries;
    if t.call.TickCall? && m.running && m.state == Reconnecting && Elapsed(m.lastAttempt, t.now) >= m.backoff {
      var a := Attempted(m.index, t.now, false);
      AttemptsSnoc(m.trace, a);
      AttemptsSnoc(m.trace + [a], Changed(Reconnecting, Offline));
      tries' := tries + [a];
      assert Attempts(m.trace + [a]) == Attempts(m0.trace) + tries';
    }
  }

  lemma {:induction false} AloneRun(cfg: Config, m0: Machine, calls: seq<Timed>) returns (tries: seq<Callback>)
    requires cfg.maxRetry >= 1 && |m0.servers| == 1
    requires m0.state == Reconnecting && m0.retry == 0
    requires AllFailing(calls)
    ensures Alone(cfg, m0, Run(cfg, m0, calls), tries)
  {
    hide Step, Failing;
    if calls == [] {
      tries := [];
      assert Attempts(m0.trace) + [] == Attempts(m0.trace);
    } else {
      var before := calls[..|calls| - 1];
      var tries0 := AloneRun(cfg, m0, before);
      tries := AloneStep(cfg, m0, Run(cfg, m0, before), tries0, calls[|calls| - 1]);
    }
  }
}
