/** The reconnect state machine: six states, timers, backoff and server rotation. Each public
    method is a step at a time; callbacks made so far are kept as a trace. */
module NetMachine {

  import opened Words

  const NS_PER_MS: nat := 1_000_000

  datatype ConnState = Connected | Detecting | Disconnected | Reconnecting | Recovering | Offline

  /** Times in milliseconds. The backoff multiplier is 2. */
  datatype Config = Config(
    detectTimeout: nat, minBackoff: nat, maxBackoff: nat, maxRetry: nat, recoveryTimeout: nat)

  datatype Server = Server(host: string, port: nat, isPrimary: bool)

  datatype Callback =
    | Changed(from: ConnState, to: ConnState)
    | Attempted(server: nat, at: nat, ok: bool)
    | RecoveryComplete

  /** Clock readings in nanoseconds. */
  datatype Machine = Machine(
    servers: seq<Server>, index: nat, state: ConnState, retry: nat, backoff: nat,
    lastHeartbeat: nat, enterTime: nat, lastAttempt: nat, pendingIo: nat, running: bool,
    trace: seq<Callback>)

  function Initial(cfg: Config): Machine {
    Machine([], 0, Offline, 0, cfg.minBackoff, 0, 0, 0, 0, false, [])
  }

  /** Whole milliseconds between two readings. */
  function Elapsed(since: nat, now: nat): nat {
    if now < since then 0 else (now - since) / NS_PER_MS
  }

  // ---------- Helpers of the class ----------

  function TransitionTo(m: Machine, to: ConnState, now: nat): Machine {
    if m.state == to then m
    else
      m.(state := to, enterTime := now,
         lastAttempt := if to == Reconnecting then now else m.lastAttempt,
         trace := m.trace + [Changed(m.state, to)])
  }

  /** The position of the first primary server from some position on, or 0 if there is none. */
  function PrimaryIndex(servers: seq<Server>, from: nat): (p: nat)
    requires from <= |servers|
    ensures (exists i :: from <= i < |servers| && servers[i].isPrimary) ==>
      from <= p < |servers| && servers[p].isPrimary && forall j :: from <= j < p ==> !servers[j].isPrimary
    ensures (forall i :: from <= i < |servers| ==> !servers[i].isPrimary) ==> p == 0
    decreases |servers| - from
  {
    if from == |servers| then 0
    else if servers[from].isPrimary then from
    else PrimaryIndex(servers, from + 1)
  }

  /** Doubling `times` times from the minimum, cut off at the maximum. */
  function Doubled(cfg: Config, backoff: nat, times: nat): nat
    decreases times
  {
    if times == 0 then backoff
    else if backoff * 2 >= cfg.maxBackoff then cfg.maxBackoff
    else Doubled(cfg, backoff * 2, times - 1)
  }

  /** Each doubling that is made stays in 32 bits. */
  predicate Doubles(cfg: Config, backoff: nat, times: nat)
    decreases times
  {
    times > 0 ==>
      backoff * 2 < U32 && (backoff * 2 < cfg.maxBackoff ==> Doubles(cfg, backoff * 2, times - 1))
  }

  lemma {:induction false} DoublesFewer(cfg: Config, backoff: nat, fewer: nat, times: nat)
    requires fewer <= times && Doubles(cfg, backoff, times)
    ensures Doubles(cfg, backoff, fewer)
    decreases times
  {
    if fewer > 0 && backoff * 2 < cfg.maxBackoff {
      DoublesFewer(cfg, backoff * 2, fewer - 1, times - 1);
    }
  }

  /** Backoffs up to 2^31 ms can be doubled as often as needed. */
  lemma {:induction false} SmallDoubles(cfg: Config, backoff: nat, times: nat)
    requires backoff < 0x8000_0000 && cfg.maxBackoff <= 0x8000_0000
    ensures Doubles(cfg, backoff, times)
    decreases times
  {
    if times > 0 && backoff * 2 < cfg.maxBackoff {
      SmallDoubles(cfg, backoff * 2, times - 1);
    }
  }

  function Backoff(cfg: Config, retry: nat): nat {
    Doubled(cfg, cfg.minBackoff, retry)
  }

  function Fresh(cfg: Config, m: Machine): Machine {
    m.(retry := 0, backoff := cfg.minBackoff)
  }

  // ---------- Public methods ----------

  function SetServers(m: Machine, servers: seq<Server>): Machine {
    m.(servers := servers, index := if servers == [] then m.index else PrimaryIndex(servers, 0))
  }

  function Start(cfg: Config, m: Machine, now: nat): Machine {
    var m' := Fresh(cfg, m).(running := true, enterTime := now, lastHeartbeat := now);
    TransitionTo(m', if m.servers == [] then Offline else Connected, now)
  }

  function Stop(m: Machine, now: nat): Machine {
    TransitionTo(m.(running := false), Offline, now)
  }

  function HeartbeatOk(cfg: Config, m: Machine, now: nat): Machine {
    var m := m.(lastHeartbeat := now);
    match m.state
    case Detecting | Reconnecting => TransitionTo(Fresh(cfg, m), Connected, now)
    case Recovering =>
      var m := TransitionTo(Fresh(cfg, m), Connected, now);
      m.(trace := m.trace + [RecoveryComplete])
    case _ => m
  }

  function HeartbeatTimeout(m: Machine, now: nat): Machine {
    match m.state
    case Connected => TransitionTo(m, Detecting, now)
    case Detecting => TransitionTo(m, Disconnected, now)
    case _ => m
  }

  function IoOk(m: Machine, now: nat): Machine {
    m.(pendingIo := if m.pendingIo > 0 then m.pendingIo - 1 else 0, lastHeartbeat := now)
  }

  function IoError(m: Machine, now: nat): Machine {
    var m := m.(pendingIo := (m.pendingIo + 1) % U32);
    if m.state == Connected then TransitionTo(m, Detecting, now) else m
  }

  function CanPerformIo(m: Machine): bool {
    m.state == Connected || m.state == Detecting
  }

  /** What a connection attempt in Reconnecting does. */
  function Attempt(cfg: Config, m: Machine, now: nat, ok: bool): Machine
    requires m.servers != []
  {
    var m := m.(trace := m.trace + [Attempted(m.index, now, ok)]);
    if ok then TransitionTo(Fresh(cfg, m), Recovering, now)
    else
      var m := m.(retry := m.retry + 1);
      if m.retry < cfg.maxRetry then m.(backoff := Backoff(cfg, m.retry), lastAttempt := now)
      else if |m.servers| <= 1 then TransitionTo(m, Offline, now)
      else m.(index := (m.index + 1) % |m.servers|, retry := 0)
  }

  /** `ok` is what the connection attempt, if one is made, returns. */
  function Tick(cfg: Config, m: Machine, now: nat, ok: bool): Machine {
    if !m.running then m
    else
      match m.state
      case Connected =>
        if Elapsed(m.lastHeartbeat, now) > cfg.detectTimeout then TransitionTo(m, Detecting, now) else m
      case Detecting =>
        if Elapsed(m.enterTime, now) > cfg.detectTimeout then TransitionTo(m, Disconnected, now) else m
      case Disconnected => TransitionTo(Fresh(cfg, m), Reconnecting, now)
      case Reconnecting =>
        if Elapsed(m.lastAttempt, now) >= m.backoff && m.servers != [] then Attempt(cfg, m, now, ok) else m
      case Recovering =>
        if Elapsed(m.enterTime, now) > cfg.recoveryTimeout then TransitionTo(m, Disconnected, now) else m
      case Offline => m
  }

  // ---------- Runs ----------

  datatype Call =
    | SetServersCall(servers: seq<Server>)
    | StartCall
    | StopCall
    | HeartbeatOkCall
    | HeartbeatTimeoutCall
    | IoOkCall
    | IoErrorCall
    | TickCall(ok: bool)

  datatype Timed = Timed(call: Call, now: nat)

  function Step(cfg: Config, m: Machine, t: Timed): Machine {
    match t.call
    case SetServersCall(servers) => SetServers(m, servers)
    case StartCall => Start(cfg, m, t.now)
    case StopCall => Stop(m, t.now)
    case HeartbeatOkCall => HeartbeatOk(cfg, m, t.now)
    case HeartbeatTimeoutCall => HeartbeatTimeout(m, t.now)
    case IoOkCall => IoOk(m, t.now)
    case IoErrorCall => IoError(m, t.now)
    case TickCall(ok) => Tick(cfg, m, t.now, ok)
  }

  function Run(cfg: Config, m: Machine, calls: seq<Timed>): Machine {
    if calls == [] then m else Step(cfg, Run(cfg, m, calls[..|calls| - 1]), calls[|calls| - 1])
  }

  // ---------- The walk in the transition graph ----------

  /** Starting leads to Connected or Offline from anywhere, stopping to Offline; the rest is fixed. */
  predicate Edge(a: ConnState, b: ConnState) {
    && a != b
    && (|| b == Connected
        || b == Offline
        || (a == Connected && b == Detecting)
        || (a == Detecting && b == Disconnected)
        || (a == Disconnected && b == Reconnecting)
        || (a == Reconnecting && b == Recovering)
        || (a == Recovering && b == Disconnected))
  }

  /** The state a trace leads to, from Offline. */
  function Final(trace: seq<Callback>): ConnState {
    if trace == [] then Offline
    else
      match trace[|trace| - 1]
      case Changed(_, to) => to
      case _ => Final(trace[..|trace| - 1])
  }

  /** Each change starts where the last one ended and follows an edge, Recovering is entered only
      right after a successful attempt, and recovery completes only on the step out of Recovering. */
  ghost predicate Walk(trace: seq<Callback>) {
    trace != [] ==>
      var before, last := trace[..|trace| - 1], trace[|trace| - 1];
      && Walk(before)
      && match last
         case Changed(from, to) =>
           && from == Final(before) && Edge(from, to)
           && (to == Recovering ==> before != [] && before[|before| - 1].Attempted? && before[|before| - 1].ok)
         case Attempted(_, _, _) => Final(before) == Reconnecting
         case RecoveryComplete => before != [] && before[|before| - 1] == Changed(Recovering, Connected)
  }

  function Completions(trace: seq<Callback>): nat {
    if trace == [] then 0
    else Completions(trace[..|trace| - 1]) + (if trace[|trace| - 1].RecoveryComplete? then 1 else 0)
  }

  ghost predicate Inv(cfg: Config, m: Machine) {
    && Walk(m.trace)
    && Final(m.trace) == m.state
    && (m.servers != [] ==> m.index < |m.servers|)
    && (m.state == Reconnecting && cfg.maxRetry >= 1 ==> m.retry < cfg.maxRetry)
  }

  lemma Snoc(trace: seq<Callback>, c: Callback)
    ensures (trace + [c])[..|trace|] == trace && (trace + [c])[|trace|] == c
    ensures Completions(trace + [c]) == Completions(trace) + (if c.RecoveryComplete? then 1 else 0)
  {
  }

  lemma TransitionInv(cfg: Config, m: Machine, to: ConnState, now: nat)
    requires Walk(m.trace) && Final(m.trace) == m.state
    requires m.state != to ==> Edge(m.state, to)
    requires to == Recovering ==> m.trace != [] && m.trace[|m.trace| - 1].Attempted? && m.trace[|m.trace| - 1].ok
    ensures var m' := TransitionTo(m, to, now);
      && Walk(m'.trace) && Final(m'.trace) == m'.state == to
      && Completions(m'.trace) == Completions(m.trace)
  {
    Snoc(m.trace, Changed(m.state, to));
  }

  lemma AttemptInv(cfg: Config, m: Machine, now: nat, ok: bool)
    requires Inv(cfg, m) && m.state == Reconnecting && m.servers != []
    ensures Inv(cfg, Attempt(cfg, m, now, ok))
    ensures Completions(Attempt(cfg, m, now, ok).trace) == Completions(m.trace)
  {
    hide Completions, Backoff;
    var c := Attempted(m.index, now, ok);
    Snoc(m.trace, c);
    var m1 := m.(trace := m.trace + [c]);
    assert Walk(m1.trace) && Final(m1.trace) == m1.state;
    if ok {
      TransitionInv(cfg, Fresh(cfg, m1), Recovering, now);
    } else {
      TransitionInv(cfg, m1.(retry := m.retry + 1), Offline, now);
    }
  }

  /** Every step keeps the invariant, and completes a recovery exactly when a heartbeat arrives in Recovering. */
  lemma StepInv(cfg: Config, m: Machine, t: Timed)
    requires Inv(cfg, m)
    ensures Inv(cfg, Step(cfg, m, t))
    ensures Completions(Step(cfg, m, t).trace) ==
      Completions(m.trace) + (if t.call.HeartbeatOkCall? && m.state == Recovering then 1 else 0)
  {
    hide Walk, Final, Completions, HeartbeatOk, Tick;
    match t.call
    case SetServersCall(servers) =>
    case StartCall =>
      var m' := Fresh(cfg, m).(running := true, enterTime := t.now, lastHeartbeat := t.now);
      TransitionInv(cfg, m', if m.servers == [] then Offline else Connected, t.now);
    case StopCall =>
      TransitionInv(cfg, m.(running := false), Offline, t.now);
    case HeartbeatOkCall =>
      HeartbeatInv(cfg, m, t.now);
    case HeartbeatTimeoutCall =>
      if m.state == Connected { TransitionInv(cfg, m, Detecting, t.now); }
      if m.state == Detecting { TransitionInv(cfg, m, Disconnected, t.now); }
    case IoOkCall =>
    case IoErrorCall =>
      if m.state == Connected { TransitionInv(cfg, m.(pendingIo := (m.pendingIo + 1) % U32), Detecting, t.now); }
    case TickCall(ok) =>
      TickInv(cfg, m, t.now, ok);
  }

  lemma HeartbeatInv(cfg: Config, m: Machine, now: nat)
    requires Inv(cfg, m)
    ensures Inv(cfg, HeartbeatOk(cfg, m, now))
    ensures Completions(HeartbeatOk(cfg, m, now).trace) ==
      Completions(m.trace) + (if m.state == Recovering then 1 else 0)
  {
    hide Walk, Final, Completions;
    var m' := Fresh(cfg, m.(lastHeartbeat := now));
    TransitionInv(cfg, m', Connected, now);
    if m.state == Recovering {
      CompletionInv(TransitionTo(m', Connected, now).trace, m'.trace);
    }
  }

  lemma CompletionInv(trace: seq<Callback>, before: seq<Callback>)
    requires Walk(trace) && trace == before + [Changed(Recovering, Connected)]
    ensures Walk(trace + [RecoveryComplete]) && Final(trace + [RecoveryComplete]) == Connected
    ensures Completions(trace + [RecoveryComplete]) == Completions(trace) + 1
  {
    Snoc(trace, RecoveryComplete);
  }

  lemma TickInv(cfg: Config, m: Machine, now: nat, ok: bool)
    requires Inv(cfg, m)
    ensures Inv(cfg, Tick(cfg, m, now, ok))
    ensures Completions(Tick(cfg, m, now, ok).trace) == Completions(m.trace)
  {
    hide Walk, Final, Completions, Attempt, Elapsed;
    match m.state
    case Connected => TransitionInv(cfg, m, Detecting, now);
    case Detecting => TransitionInv(cfg, m, Disconnected, now);
    case Disconnected => TransitionInv(cfg, Fresh(cfg, m), Reconnecting, now);
    case Reconnecting =>
      if m.servers != [] { AttemptInv(cfg, m, now, ok); }
    case Recovering => TransitionInv(cfg, m, Disconnected, now);
    case Offline =>
  }

  /** Heartbeats that arrived while recovering, over a run. */
  function Recoveries(cfg: Config, m: Machine, calls: seq<Timed>): nat {
    if calls == [] then 0
    else
      var before, last := calls[..|calls| - 1], calls[|calls| - 1];
      Recoveries(cfg, m, before)
      + (if last.call.HeartbeatOkCall? && Run(cfg, m, before).state == Recovering then 1 else 0)
  }

  /** Every run's callbacks are a walk in the graph that ends in the current state, with one
      completion for each heartbeat that ended a recovery. */
  lemma {:induction false} RunInv(cfg: Config, calls: seq<Timed>)
    ensures Inv(cfg, Run(cfg, Initial(cfg), calls))
    ensures Completions(Run(cfg, Initial(cfg), calls).trace) == Recoveries(cfg, Initial(cfg), calls)
  {
    hide Step, Completions, Inv;
    if calls == [] {
      InitialInv(cfg);
    } else {
      var before := calls[..|calls| - 1];
      RunInv(cfg, before);
      StepInv(cfg, Run(cfg, Initial(cfg), before), calls[|calls| - 1]);
    }
  }

  lemma InitialInv(cfg: Config)
    ensures Inv(cfg, Initial(cfg)) && Completions(Initial(cfg).trace) == 0
  {
  }
}
