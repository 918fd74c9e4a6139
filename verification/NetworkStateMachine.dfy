/** The reconnect state machine as a class; `now` is the clock reading of the call. */
module NetworkStateMachine {
  import opened NetMachine
  import opened Words

  class StateMachine {
    const cfg: Config
    var servers: seq<Server>
    var index: nat
    var state: ConnState
    var retry: nat
    var backoff: nat
    var lastHeartbeat: nat
    var enterTime: nat
    var lastAttempt: nat
    var pendingIo: nat
    var running: bool
    var trace: seq<Callback>  // the callbacks made

    ghost function View(): Machine
      reads this
    {
      Machine(servers, index, state, retry, backoff, lastHeartbeat, enterTime, lastAttempt, pendingIo, running, trace)
    }

    /** The callbacks made are a walk to the current state, and index and retries are in range. */
    ghost predicate Valid()
      reads this
    {
      Inv(cfg, View()) && Limited()
    }

    /** Backoffs are doubled fewer than `maxRetry` times, in 32 bits. */
    predicate Limited() {
      cfg.maxRetry >= 1 ==> Doubles(cfg, cfg.minBackoff, cfg.maxRetry - 1)
    }

    constructor (cfg: Config)
      requires cfg.maxRetry >= 1 ==> Doubles(cfg, cfg.minBackoff, cfg.maxRetry - 1)
      ensures Valid() && this.cfg == cfg && View() == Initial(cfg)
    {
      this.cfg := cfg;
      servers, index, state, retry, backoff := [], 0, Offline, 0, cfg.minBackoff;
      lastHeartbeat, enterTime, lastAttempt, pendingIo := 0, 0, 0, 0;
      running, trace := false, [];
    }

    method SetServers(servers: seq<Server>)
      requires Valid()
      modifies this
      ensures Valid() && View() == NetMachine.SetServers(old(View()), servers)
    {
      hide Inv;
      Keeps(cfg, View(), Timed(SetServersCall(servers), 0));
      this.servers := servers;
      if servers != [] {
        index := 0;
        for i := 0 to |servers|
          invariant index == 0 && PrimaryIndex(servers, 0) == PrimaryIndex(servers, i)
          invariant View() == old(View()).(servers := servers, index := 0)
        {
          if servers[i].isPrimary {
            index := i;
            break;
          }
        }
      }
    }

    method TransitionTo(to: ConnState, now: nat)
      modifies this
      ensures View() == NetMachine.TransitionTo(old(View()), to, now)
    {
      var from := state;
      if from == to {
        return;
      }
      state := to;
      enterTime := now;
      if to == Reconnecting {
        lastAttempt := now;
      }
      trace := trace + [Changed(from, to)];
    }

    method Start(now: nat)
      requires Valid()
      modifies this
      ensures Valid() && View() == NetMachine.Start(cfg, old(View()), now)
    {
      hide Inv, PrimaryIndex;
      Keeps(cfg, View(), Timed(StartCall, now));
      running := true;
      retry := 0;
      backoff := cfg.minBackoff;
      enterTime := now;
      lastHeartbeat := now;
      if servers != [] {
        TransitionTo(Connected, now);
      } else {
        TransitionTo(Offline, now);
      }
    }

    method Stop(now: nat)
      requires Valid()
      modifies this
      ensures Valid() && View() == NetMachine.Stop(old(View()), now)
    {
      hide Inv, PrimaryIndex;
      Keeps(cfg, View(), Timed(StopCall, now));
      running := false;
      TransitionTo(Offline, now);
    }

    method OnHeartbeatSuccess(now: nat)
      requires Valid()
      modifies this
      ensures Valid() && View() == HeartbeatOk(cfg, old(View()), now)
    {
      hide Inv, PrimaryIndex;
      Keeps(cfg, View(), Timed(HeartbeatOkCall, now));
      lastHeartbeat := now;
      if state == Detecting || state == Reconnecting {
        retry := 0;
        backoff := cfg.minBackoff;
        TransitionTo(Connected, now);
      } else if state == Recovering {
        retry := 0;
        backoff := cfg.minBackoff;
        TransitionTo(Connected, now);
        trace := trace + [RecoveryComplete];
      }
    }

    method OnHeartbeatTimeout(now: nat)
      requires Valid()
      modifies this
      ensures Valid() && View() == HeartbeatTimeout(old(View()), now)
    {
      hide Inv, PrimaryIndex;
      Keeps(cfg, View(), Timed(HeartbeatTimeoutCall, now));
      if state == Connected {
        TransitionTo(Detecting, now);
      } else if state == Detecting {
        TransitionTo(Disconnected, now);
      }
    }

    method OnIoSuccess(now: nat)
      requires Valid()
      modifies this
      ensures Valid() && View() == IoOk(old(View()), now)
    {
      hide Inv, PrimaryIndex;
      Keeps(cfg, View(), Timed(IoOkCall, now));
      if pendingIo > 0 {
        pendingIo := pendingIo - 1;
      }
      lastHeartbeat := now;
    }

    method OnIoError(now: nat)
      requires Valid()
      modifies this
      ensures Valid() && View() == IoError(old(View()), now)
    {
      hide Inv, PrimaryIndex;
      Keeps(cfg, View(), Timed(IoErrorCall, now));
      pendingIo := (pendingIo + 1) % U32;
      if state == Connected {
        TransitionTo(Detecting, now);
      }
    }

    /** `ok` is what the connection attempt, if one is made, returns. */
    method Tick(now: nat, ok: bool)
      requires Valid()
      modifies this
      ensures Valid() && View() == NetMachine.Tick(cfg, old(View()), now, ok)
    {
      hide Elapsed, Doubled, Inv, Attempt;
      Keeps(cfg, View(), Timed(TickCall(ok), now));
      if !running {
        return;
      }
      if state == Connected {
        if Elapsed(lastHeartbeat, now) > cfg.detectTimeout {
          TransitionTo(Detecting, now);
        }
      } else if state == Detecting {
        if Elapsed(enterTime, now) > cfg.detectTimeout {
          TransitionTo(Disconnected, now);
        }
      } else if state == Disconnected {
        TryReconnect(now);
      } else if state == Reconnecting {
        if Elapsed(lastAttempt, now) >= backoff {
          if servers != [] {
            TryServer(now, ok);
          }
        }
      } else if state == Recovering {
        if Elapsed(enterTime, now) > cfg.recoveryTimeout {
          TransitionTo(Disconnected, now);
        }
      }
    }

    /** The attempt made by a Tick in Reconnecting. */
    method TryServer(now: nat, ok: bool)
      requires Valid() && servers != [] && state == Reconnecting
      modifies this
      ensures Valid() && View() == Attempt(cfg, old(View()), now, ok)
    {
      hide Backoff, Inv, Doubles;
      AttemptKeeps(cfg, View(), now, ok);
      trace := trace + [Attempted(index, now, ok)];
      if ok {
        retry := 0;
        backoff := cfg.minBackoff;
        TransitionTo(Recovering, now);
      } else {
        retry := retry + 1;
        if retry >= cfg.maxRetry {
          var switched := TryNextServer();
          if !switched {
            TransitionTo(Offline, now);
          } else {
            retry := 0;
            TransitionTo(Reconnecting, now);
          }
        } else {
          DoublesFewer(cfg, cfg.minBackoff, retry, cfg.maxRetry - 1);
          backoff := ComputeBackoff();
          lastAttempt := now;
        }
      }
    }

    method TryReconnect(now: nat)
      requires Valid() && state == Disconnected
      modifies this
      ensures Valid() && View() == NetMachine.TransitionTo(Fresh(cfg, old(View())), Reconnecting, now)
    {
      hide Walk, Final;
      TransitionInv(cfg, Fresh(cfg, View()), Reconnecting, now);
      retry := 0;
      backoff := cfg.minBackoff;
      TransitionTo(Reconnecting, now);
    }

    /** The next server round the list that is not the current one. */
    method TryNextServer() returns (switched: bool)
      requires servers != [] && index < |servers|
      modifies this`index
      ensures switched == (|servers| >= 2)
      ensures index == if switched then (old(index) + 1) % |servers| else old(index)
      ensures index < |servers|
    {
      if |servers| <= 1 {
        return false;
      }
      for i := 0 to |servers|
        invariant i == 0 && index == old(index)
      {
        var next := (index + 1 + i) % |servers|;
        Different(index, |servers|);
        if next == index {
          continue;
        }
        index := next;
        return true;
      }
      return false;
    }

    method ComputeBackoff() returns (b: nat)
      requires Doubles(cfg, cfg.minBackoff, retry)
      ensures b == Backoff(cfg, retry)
    {
      b := cfg.minBackoff;
      var i := 0;
      while i < retry
        invariant i <= retry && Doubles(cfg, b, retry - i)
        invariant Doubled(cfg, b, retry - i) == Backoff(cfg, retry)
      {
        assert b * 2 < U32;
        b := b * 2;
        if b >= cfg.maxBackoff {
          b := cfg.maxBackoff;
          break;
        }
        i := i + 1;
      }
    }
  }

  lemma Keeps(cfg: Config, m: Machine, t: Timed)
    requires Inv(cfg, m)
    ensures Inv(cfg, Step(cfg, m, t))
  {
    hide Inv, Step;
    StepInv(cfg, m, t);
  }

  lemma AttemptKeeps(cfg: Config, m: Machine, now: nat, ok: bool)
    requires Inv(cfg, m) && m.servers != [] && m.state == Reconnecting
    ensures m.index < |m.servers| && Inv(cfg, Attempt(cfg, m, now, ok))
  {
    hide Walk, Final, Attempt;
    AttemptInv(cfg, m, now, ok);
  }

  lemma Different(i: nat, n: nat)
    requires i < n && n >= 2
    ensures (i + 1) % n != i && (i + 1) % n < n
  {
    if i + 1 < n {
      assert (i + 1) % n == i + 1;
    } else {
      assert (i + 1) % n == 0;
    }
  }
}
