/** Recovery from an inaccessible boot device: retries, then fallback steps, then a halt for manual
    intervention. The flags are set by other threads while a call sleeps. */
module Recovery7b {

  const MAX_RETRIES: nat := 3

  datatype State = Normal | Retrying | Fallback | Recovering | Halted

  datatype Flags = Flags(localMeta: bool, network: bool, metaServer: bool, blockDevice: bool)

  /** Halts: the call sits in the halt loop and does not return. */
  datatype Status = Success | NotReady | Halts

  /** What the fallback steps looked at. */
  datatype Look = Entered | LocalMeta(seen: bool) | Network(seen: bool)

  /** `sleeps` counts the delays taken; the flags after the k-th delay are world(k). */
  datatype Recovery = Recovery(
    state: State, retryCount: nat, fallbackStep: nat, flags: Flags, sleeps: nat, looks: seq<Look>)

  type World = nat -> Flags

  const INITIAL := Recovery(Normal, 0, 0, Flags(false, false, false, false), 0, [])

  function Slept(world: World, r: Recovery): Recovery {
    r.(flags := world(r.sleeps), sleeps := r.sleeps + 1)
  }

  // ---------- The calls ----------

  /** Retries and fallback call each other; this is what bounds them. */
  function RetryRank(r: Recovery): nat {
    if r.retryCount >= MAX_RETRIES then 1 else 1 + (MAX_RETRIES - r.retryCount)
  }

  function FallbackRank(r: Recovery): nat {
    if r.fallbackStep == 0 then 0 else 2 + MAX_RETRIES
  }

  function Enter(world: World, r: Recovery): (Recovery, Status) {
    Retry(world, r.(state := Retrying, retryCount := 0))
  }

  function Retry(world: World, r: Recovery): (Recovery, Status)
    decreases RetryRank(r)
  {
    if r.retryCount >= MAX_RETRIES then
      FallBack(world, r.(state := Fallback, fallbackStep := 0, looks := r.looks + [Entered]))
    else
      var r' := Slept(world, r.(retryCount := r.retryCount + 1));
      if r'.flags.blockDevice && r'.flags.metaServer then (r'.(state := Normal), Success)
      else Retry(world, r')
  }

  function FallBack(world: World, r: Recovery): (Recovery, Status)
    decreases FallbackRank(r)
  {
    var next := r.fallbackStep + 1;
    match r.fallbackStep
    case 0 => (r.(fallbackStep := next), NotReady)
    case 1 =>
      var r := r.(looks := r.looks + [LocalMeta(r.flags.localMeta)]);
      if r.flags.localMeta then (r.(state := Normal), Success) else (r.(fallbackStep := next), NotReady)
    case 2 =>
      var r := Slept(world, r);
      var r := r.(looks := r.looks + [Network(r.flags.network)]);
      if r.flags.network then Retry(world, r.(state := Retrying, retryCount := 0))
      else (r.(fallbackStep := next), NotReady)
    case 3 => (r.(fallbackStep := next), NotReady)
    case _ => (r.(state := Halted), Halts)
  }

  // ---------- What one call guarantees ----------

  /** What was looked at since fallback was last entered. */
  function SinceEntry(looks: seq<Look>): seq<Look> {
    if looks == [] || looks[|looks| - 1] == Entered then []
    else SinceEntry(looks[..|looks| - 1]) + [looks[|looks| - 1]]
  }

  /** The fallback step stands for what has been seen, and a halt comes only after all of it. */
  ghost predicate Inv(r: Recovery) {
    && r.retryCount <= MAX_RETRIES
    && (r.fallbackStep >= 2 || r.state == Halted ==> LocalMeta(false) in SinceEntry(r.looks))
    && (r.fallbackStep >= 3 || r.state == Halted ==> Network(false) in SinceEntry(r.looks))
  }

  /** A call ends in Normal exactly when it succeeds, and in Halted exactly when it does not return. */
  ghost predicate Outcome(result: (Recovery, Status)) {
    && (result.1 == Success <==> result.0.state == Normal)
    && (result.1 == Halts <==> result.0.state == Halted)
  }

  lemma Looked(looks: seq<Look>, look: Look)
    ensures look == Entered ==> SinceEntry(looks + [look]) == []
    ensures look != Entered ==> SinceEntry(looks + [look]) == SinceEntry(looks) + [look]
  {
    assert (looks + [look])[..|looks|] == looks;
  }

  lemma {:induction false} RetryHolds(world: World, r: Recovery)
    requires Inv(r)
    ensures Inv(Retry(world, r).0) && Outcome(Retry(world, r))
    decreases RetryRank(r), 0
  {
    hide SinceEntry;
    if r.retryCount >= MAX_RETRIES {
      Looked(r.looks, Entered);
      FallBackHolds(world, r.(state := Fallback, fallbackStep := 0, looks := r.looks + [Entered]));
    } else {
      var r' := Slept(world, r.(retryCount := r.retryCount + 1));
      if !(r'.flags.blockDevice && r'.flags.metaServer) {
        RetryHolds(world, r');
      }
    }
  }

  /** A fallback step that only moves on to the next one. */
  predicate MovesOn(world: World, r: Recovery) {
    match r.fallbackStep
    case 0 => true
    case 1 => !r.flags.localMeta
    case 2 => !world(r.sleeps).network
    case 3 => true
    case _ => false
  }

  /** A fallback step that only moves on leaves the state alone. In Normal and Halted that state does
      not fit the outcome; everywhere else the outcome is as it should be. */
  lemma {:induction false} FallBackHolds(world: World, r: Recovery)
    requires Inv(r)
    ensures Inv(FallBack(world, r).0)
    ensures Outcome(FallBack(world, r)) <==> !(r.state in {Normal, Halted} && MovesOn(world, r))
    decreases FallbackRank(r), 0
  {
    hide SinceEntry;
    match r.fallbackStep
    case 0 =>
    case 1 =>
      Looked(r.looks, LocalMeta(r.flags.localMeta));
    case 2 =>
      var r' := Slept(world, r);
      Looked(r.looks, Network(r'.flags.network));
      if r'.flags.network {
        RetryHolds(world, r'.(looks := r.looks + [Network(true)], state := Retrying, retryCount := 0));
      }
    case 3 =>
    case _ =>
  }

  /** Entering recovery always has the right outcome. */
  lemma EnterHolds(world: World, r: Recovery)
    requires Inv(r)
    ensures Inv(Enter(world, r).0) && Outcome(Enter(world, r))
  {
    hide SinceEntry, Retry;
    RetryHolds(world, r.(state := Retrying, retryCount := 0));
  }

  // ---------- When a call succeeds ----------

  /** After the k-th delay both the block device and the meta server are there. */
  predicate Ready(world: World, k: nat) {
    world(k).blockDevice && world(k).metaServer
  }

  /** One of n delays finds both. */
  ghost predicate ReadyWithin(world: World, from: nat, n: nat) {
    exists k :: from <= k < from + n && Ready(world, k)
  }

  function TriesLeft(r: Recovery): nat {
    if r.retryCount >= 3 then 0 else 3 - r.retryCount
  }

  /** A retry call succeeds exactly if one of the remaining tries finds block device and meta server
      ready. Otherwise it has used all three, entered fallback, and done its step 0. */
  lemma {:induction false} RetrySucceeds(world: World, r: Recovery)
    ensures Retry(world, r).1 == Success <==> ReadyWithin(world, r.sleeps, TriesLeft(r))
    ensures Retry(world, r).1 != Success ==>
      var r' := Retry(world, r).0;
      && Retry(world, r).1 == NotReady && r'.state == Fallback && r'.fallbackStep == 1
      && r'.sleeps == r.sleeps + TriesLeft(r)
    decreases TriesLeft(r)
  {
    if r.retryCount < 3 {
      var r' := Slept(world, r.(retryCount := r.retryCount + 1));
      ReadyStep(world, r.sleeps, TriesLeft(r));
      if !Ready(world, r.sleeps) {
        RetrySucceeds(world, r');
      }
    }
  }

  lemma ReadyStep(world: World, from: nat, n: nat)
    requires n > 0
    ensures ReadyWithin(world, from, n) <==> Ready(world, from) || ReadyWithin(world, from + 1, n - 1)
  {
    hide Ready;
  }

  /** Entering recovery succeeds exactly if one of three delays finds both ready. */
  lemma EnterSucceeds(world: World, r: Recovery)
    ensures Enter(world, r).1 == Success <==> ReadyWithin(world, r.sleeps, 3)
    ensures Enter(world, r).1 != Success ==> Enter(world, r).1 == NotReady && Enter(world, r).0.fallbackStep == 1
  {
    hide Retry, ReadyWithin;
    RetrySucceeds(world, r.(state := Retrying, retryCount := 0));
  }

  /** A fallback call succeeds exactly in step 1 with local meta, or in step 2 if the network is there
      after its delay and one of three more delays finds both ready; it halts exactly behind step 3.
      Otherwise it moves on one step, or, back from the network, to step 1. */
  lemma FallBackSucceeds(world: World, r: Recovery)
    ensures FallBack(world, r).1 == Success <==>
      || (r.fallbackStep == 1 && r.flags.localMeta)
      || (r.fallbackStep == 2 && world(r.sleeps).network && ReadyWithin(world, r.sleeps + 1, 3))
    ensures FallBack(world, r).1 == Halts <==> r.fallbackStep >= 4
    ensures FallBack(world, r).1 == NotReady ==>
      FallBack(world, r).0.fallbackStep ==
        if r.fallbackStep == 2 && world(r.sleeps).network then 1 else r.fallbackStep + 1
  {
    hide Retry, ReadyWithin, FallBack;
    if r.fallbackStep == 2 {
      StepTwo(world, r);
    } else {
      OtherSteps(world, r);
    }
  }

  lemma StepTwo(world: World, r: Recovery)
    requires r.fallbackStep == 2
    ensures world(r.sleeps).network ==>
      && (FallBack(world, r).1 == Success <==> ReadyWithin(world, r.sleeps + 1, 3))
      && FallBack(world, r).1 != Halts
      && (FallBack(world, r).1 == NotReady ==> FallBack(world, r).0.fallbackStep == 1)
    ensures !world(r.sleeps).network ==> FallBack(world, r).1 == NotReady && FallBack(world, r).0.fallbackStep == 3
  {
    hide Retry, ReadyWithin;
    var r' := Slept(world, r);
    RetrySucceeds(world, r'.(looks := r.looks + [Network(r'.flags.network)], state := Retrying, retryCount := 0));
  }

  lemma OtherSteps(world: World, r: Recovery)
    requires r.fallbackStep != 2
    ensures FallBack(world, r).1 == Success <==> r.fallbackStep == 1 && r.flags.localMeta
    ensures FallBack(world, r).1 == Halts <==> r.fallbackStep >= 4
    ensures FallBack(world, r).1 == NotReady ==> FallBack(world, r).0.fallbackStep == r.fallbackStep + 1
  {
    hide Retry;
  }

  // ---------- Runs ----------

  datatype Call = EnterCall | RetryCall | FallbackCall

  /** A run of calls from initialisation. The flags may also change between calls. */
  datatype Run = Start | Then(before: Run, flags: Flags, call: Call)

  function Reached(world: World, run: Run): Recovery {
    match run
    case Start => INITIAL
    case Then(before, flags, call) =>
      var r := Reached(world, before).(flags := flags);
      match call
      case EnterCall => Enter(world, r).0
      case RetryCall => Retry(world, r).0
      case FallbackCall => FallBack(world, r).0
  }

  /** In every run there are at most three retries in a row, and a halt comes only after step 1 saw
      no local meta and step 2 no network since fallback was last entered. */
  lemma {:induction false} RunHolds(world: World, run: Run)
    ensures Inv(Reached(world, run))
  {
    hide SinceEntry, Retry, FallBack, Enter;
    match run
    case Start =>
    case Then(before, flags, call) =>
      RunHolds(world, before);
      var r := Reached(world, before).(flags := flags);
      match call
      case EnterCall => EnterHolds(world, r);
      case RetryCall => RetryHolds(world, r);
      case FallbackCall => FallBackHolds(world, r);
  }

  ghost predicate NeverHelped(world: World) {
    forall k: nat :: !world(k).localMeta && !world(k).network && !(world(k).blockDevice && world(k).metaServer)
  }

  /** Without any help, entering recovery and driving fallback four times halts the system, and not
      before the fourth. */
  lemma HaltsWithoutHelp(world: World, flags: Flags)
    requires NeverHelped(world) && !flags.localMeta
    ensures var entered := Then(Start, flags, EnterCall);
      var one := Then(entered, flags, FallbackCall);
      var two := Then(one, flags, FallbackCall);
      var three := Then(two, flags, FallbackCall);
      && Reached(world, three).state == Fallback
      && Reached(world, Then(three, flags, FallbackCall)).state == Halted
  {
    hide Retry;
    var r := INITIAL.(flags := flags);
    RetrySucceeds(world, r.(state := Retrying, retryCount := 0));
    assert !ReadyWithin(world, r.sleeps, 3);
  }

  // ---------- The driver's record ----------

  class Record {
    const world: World
    var state: State
    var retryCount: nat
    var fallbackStep: nat
    var flags: Flags
    var sleeps: nat
    ghost var looks: seq<Look>

    ghost function View(): Recovery
      reads this
    {
      Recovery(state, retryCount, fallbackStep, flags, sleeps, looks)
    }

    /** The retry bound, and that the fallback step stands for what has been seen. */
    ghost predicate Valid()
      reads this
    {
      Inv(View())
    }

    constructor (world: World)
      ensures Valid() && View() == INITIAL && this.world == world
    {
      this.world := world;
      state, retryCount, fallbackStep := Normal, 0, 0;
      flags := Flags(false, false, false, false);
      sleeps, looks := 0, [];
    }

    /** Sleeps; other threads set the flags meanwhile. */
    method Delay()
      modifies this
      ensures View() == Slept(world, old(View()))
    {
      flags := world(sleeps);
      sleeps := sleeps + 1;
    }

    method EnterRecovery() returns (status: Status)
      requires Valid()
      modifies this
      ensures (View(), status) == Enter(world, old(View()))
      ensures Valid() && Outcome((View(), status))
    {
      hide SinceEntry, Retry;
      EnterHolds(world, View());
      state := Retrying;
      retryCount := 0;
      status := ProcessRetry();
    }

    method ProcessRetry() returns (status: Status)
      requires Valid()
      modifies this
      ensures (View(), status) == Retry(world, old(View()))
      ensures Valid() && Outcome((View(), status))
      decreases RetryRank(View())
    {
      hide SinceEntry, FallBack;
      RetryHolds(world, View());
      Looked(looks, Entered);
      if retryCount >= MAX_RETRIES {
        state := Fallback;
        fallbackStep := 0;
        looks := looks + [Entered];
        status := ProcessFallback();
        return;
      }
      retryCount := retryCount + 1;
      Delay();
      if flags.blockDevice && flags.metaServer {
        state := Normal;
        return Success;
      }
      status := ProcessRetry();
    }

    method ProcessFallback() returns (status: Status)
      requires Valid()
      modifies this
      ensures (View(), status) == FallBack(world, old(View()))
      ensures Valid()
      ensures Outcome((View(), status)) <==> !(old(state) in {Normal, Halted} && old(MovesOn(world, View())))
      decreases FallbackRank(View())
    {
      hide SinceEntry, Retry;
      FallBackHolds(world, View());
      match fallbackStep {
        case 0 =>
          fallbackStep := fallbackStep + 1;
        case 1 =>
          looks := looks + [LocalMeta(flags.localMeta)];
          if flags.localMeta {
            state := Normal;
            return Success;
          }
          fallbackStep := fallbackStep + 1;
        case 2 =>
          Delay();
          Looked(looks, Network(flags.network));
          looks := looks + [Network(flags.network)];
          if flags.network {
            state := Retrying;
            retryCount := 0;
            status := ProcessRetry();
            return;
          }
          fallbackStep := fallbackStep + 1;
        case 3 =>
          fallbackStep := fallbackStep + 1;
        case _ =>
          state := Recovering;
          status := ProcessRecovery();
          return;
      }
      return NotReady;
    }

    /** Halts for good. */
    method ProcessRecovery() returns (status: Status)
      modifies this`state
      ensures state == Halted && status == Halts
    {
      state := Halted;
      return Halts;
    }
  }
}
