/** The ENS160 air-quality sensor side of the firmware (src/sense.rs):
    discovery of the sensor at one of its two bus addresses, the gate that
    spawns the sampling task only after discovery succeeded, one cycle of the
    sampling loop, and the receiver slots of the `CO2` watch.

    Every driver call (`initialize`, `get_status`, `get_measurements`) is an
    opaque outcome given as a parameter; the calls made are returned as a
    trace so that their order can be stated. */
module Sense {
  import opened Outcomes

  /** The two bus addresses the ENS160 can answer on. */
  datatype Address = Primary | Secondary

  /** `initialize() -> Result<bool, _>`: an error, or whether the sensor acknowledged. */
  datatype InitOutcome = InitErr | InitOk(acknowledged: bool)

  predicate Acknowledged(o: InitOutcome) { o == InitOk(true) }

  /** A sensor handle: the endpoint it owns and the address it talks to. */
  datatype Ens160 = Ens160(dev: I2cDevice, addr: Address)

  /** The driver calls `init_ens` makes. */
  datatype EnsCall =
    | New(addr: Address)                                // Ens160::new / new_secondary_address
    | Initialize(addr: Address, outcome: InitOutcome)   // initialize().await and its result
    | Release(addr: Address)                            // release(): hands the endpoint back

  predicate IsInitialize(c: EnsCall) { c.Initialize? }

  /** What `init_ens` returns, together with the calls it made. */
  datatype Discovery = Discovery(result: Result<Ens160>, calls: seq<EnsCall>)

  const EnsInitError: string := "Faild to init ens160"
  const SenseSpawnError: string := "Faild to spawn sense task!"

  /** `init_ens`: try the primary address; on an error or a refusal release the
      endpoint, rebind the same endpoint at the secondary address and try once
      more; if that fails too, release it and report the fixed error. */
  function InitEns(dev: I2cDevice, primary: InitOutcome, secondary: InitOutcome): (d: Discovery)
    ensures |d.calls| >= 2 && d.calls[0] == New(Primary)
    // the trace records the outcomes it was given: the primary attempt first, and
    // the secondary attempt exactly when the primary one was not acknowledged
    ensures d.calls[..2] == [New(Primary), Initialize(Primary, primary)]
    ensures Acknowledged(primary) ==> |d.calls| == 2
    ensures !Acknowledged(primary) ==>
      |d.calls| >= 5 && d.calls[2..5] == [Release(Primary), New(Secondary), Initialize(Secondary, secondary)]
    // the result is a handle exactly when some initialize() call was acknowledged,
    // and then it is the handle of the last call made, over the caller's endpoint
    ensures d.result.Ok? <==>
      exists i :: 0 <= i < |d.calls| && d.calls[i].Initialize? && Acknowledged(d.calls[i].outcome)
    ensures d.result.Ok? ==>
      d.result.value.dev == dev && d.calls[|d.calls| - 1] == Initialize(d.result.value.addr, InitOk(true))
    // otherwise nothing usable is left: the last call released the endpoint
    ensures d.result.Err? ==>
      d.result.msg == EnsInitError && d.calls[|d.calls| - 1] == Release(Secondary)
    // initialize() runs at most once per address
    ensures forall i, j :: 0 <= i < j < |d.calls| && d.calls[i].Initialize? && d.calls[j].Initialize? ==>
      d.calls[i].addr == Primary && d.calls[j].addr == Secondary
  {
    var tryPrimary := [New(Primary), Initialize(Primary, primary)];
    if Acknowledged(primary) then
      assert tryPrimary[1].Initialize? && Acknowledged(tryPrimary[1].outcome);
      Discovery(Ok(Ens160(dev, Primary)), tryPrimary)
    else
      var released := dev;
      var trySecondary := tryPrimary + [Release(Primary), New(Secondary), Initialize(Secondary, secondary)];
      if Acknowledged(secondary) then
        assert trySecondary[4].Initialize? && Acknowledged(trySecondary[4].outcome);
        Discovery(Ok(Ens160(released, Secondary)), trySecondary)
      else
        Discovery(Err(EnsInitError), trySecondary + [Release(Secondary)])
  }

  /** A primary acknowledgement ends discovery with the primary handle; the
      secondary address is never constructed nor initialised. */
  lemma InitEnsPrimaryWins(dev: I2cDevice, primary: InitOutcome, secondary: InitOutcome)
    requires Acknowledged(primary)
    ensures InitEns(dev, primary, secondary).result == Ok(Ens160(dev, Primary))
    ensures forall c :: c in InitEns(dev, primary, secondary).calls ==> c.addr == Primary
  {
  }

  /** Any primary failure (an error or a refusal) releases the primary handle
      and rebinds the same endpoint at the secondary address. */
  lemma InitEnsFallsBack(dev: I2cDevice, primary: InitOutcome, secondary: InitOutcome)
    requires !Acknowledged(primary)
    ensures InitEns(dev, primary, secondary).calls[..5] ==
      [New(Primary), Initialize(Primary, primary), Release(Primary), New(Secondary), Initialize(Secondary, secondary)]
    ensures InitEns(dev, primary, secondary).result.Ok? ==> InitEns(dev, primary, secondary).result.value.dev == dev
  {
  }

  /** Primary failure and secondary acknowledgement give the secondary handle. */
  lemma InitEnsSecondaryWins(dev: I2cDevice, primary: InitOutcome, secondary: InitOutcome)
    requires !Acknowledged(primary) && Acknowledged(secondary)
    ensures InitEns(dev, primary, secondary).result == Ok(Ens160(dev, Secondary))
  {
  }

  /** Both attempts failing yields the fixed error, after releasing the secondary handle. */
  lemma InitEnsBothFail(dev: I2cDevice, primary: InitOutcome, secondary: InitOutcome)
    requires !Acknowledged(primary) && !Acknowledged(secondary)
    ensures InitEns(dev, primary, secondary).result == Err("Faild to init ens160")
    ensures InitEns(dev, primary, secondary).calls ==
      [New(Primary), Initialize(Primary, primary), Release(Primary),
       New(Secondary), Initialize(Secondary, secondary), Release(Secondary)]
  {
  }

  /** initialize() is called once or twice, and twice only after a primary failure. */
  lemma InitEnsInitializeCount(dev: I2cDevice, primary: InitOutcome, secondary: InitOutcome)
    ensures var n := CountWhere(InitEns(dev, primary, secondary).calls, IsInitialize);
      1 <= n <= 2 && (n == 2 <==> !Acknowledged(primary))
  {
    var calls := InitEns(dev, primary, secondary).calls;
    InitializeCounts(primary, secondary);
    if Acknowledged(primary) {
      assert calls == [New(Primary), Initialize(Primary, primary)];
    } else if Acknowledged(secondary) {
      InitEnsFallsBack(dev, primary, secondary);
      assert calls == [New(Primary), Initialize(Primary, primary), Release(Primary), New(Secondary), Initialize(Secondary, secondary)];
    } else {
      InitEnsBothFail(dev, primary, secondary);
    }
  }

  /** How many initialize() calls each of the three possible traces holds. */
  lemma InitializeCounts(primary: InitOutcome, secondary: InitOutcome)
    ensures CountWhere([New(Primary), Initialize(Primary, primary)], IsInitialize) == 1
    ensures CountWhere([New(Primary), Initialize(Primary, primary), Release(Primary),
                        New(Secondary), Initialize(Secondary, secondary)], IsInitialize) == 2
    ensures CountWhere([New(Primary), Initialize(Primary, primary), Release(Primary),
                        New(Secondary), Initialize(Secondary, secondary), Release(Secondary)], IsInitialize) == 2
  {
    var first := [New(Primary), Initialize(Primary, primary)];
    var second := [Release(Primary), New(Secondary), Initialize(Secondary, secondary)];
    CountWhereAppend([New(Primary)], [Initialize(Primary, primary)], IsInitialize);
    CountWhereNone([New(Primary)], IsInitialize);
    assert [New(Primary)] + [Initialize(Primary, primary)] == first;
    CountWhereAppend([Release(Primary), New(Secondary)], [Initialize(Secondary, secondary)], IsInitialize);
    CountWhereNone([Release(Primary), New(Secondary)], IsInitialize);
    assert [Release(Primary), New(Secondary)] + [Initialize(Secondary, secondary)] == second;
    CountWhereAppend(first, second, IsInitialize);
    assert first + second == [New(Primary), Initialize(Primary, primary), Release(Primary),
                              New(Secondary), Initialize(Secondary, secondary)];
    CountWhereAppend(first + second, [Release(Secondary)], IsInitialize);
    CountWhereNone([Release(Secondary)], IsInitialize);
    assert (first + second) + [Release(Secondary)] ==
      [New(Primary), Initialize(Primary, primary), Release(Primary),
       New(Secondary), Initialize(Secondary, secondary), Release(Secondary)];
  }

  /** Discovery as an explicit state machine (try the primary address, then
      the secondary one, then stop): a reference definition that `InitEns` is
      checked against. */
  datatype Phase = TryPrimary | TrySecondary | Done(handle: Ens160) | Failed

  function Step(dev: I2cDevice, p: Phase, o: InitOutcome): Phase {
    match p
    case TryPrimary => if Acknowledged(o) then Done(Ens160(dev, Primary)) else TrySecondary
    case TrySecondary => if Acknowledged(o) then Done(Ens160(dev, Secondary)) else Failed
    case _ => p
  }

  /** Drive the machine with the successive initialize() outcomes. */
  function Run(dev: I2cDevice, p: Phase, outcomes: seq<InitOutcome>): Phase
    decreases |outcomes|
  {
    if outcomes == [] then p else Run(dev, Step(dev, p, outcomes[0]), outcomes[1..])
  }

  /** A finished discovery stays finished: it is never retried. */
  lemma {:induction false} RunTerminalStable(dev: I2cDevice, p: Phase, outcomes: seq<InitOutcome>)
    requires p.Done? || p.Failed?
    ensures Run(dev, p, outcomes) == p
    decreases |outcomes|
  {
    if outcomes != [] {
      RunTerminalStable(dev, p, outcomes[1..]);
    }
  }

  /** `InitEns` agrees with the state machine, whatever outcomes would follow:
      two outcomes always finish discovery, and the handle or the failure is
      the one the machine reaches. */
  lemma InitEnsFollowsMachine(dev: I2cDevice, primary: InitOutcome, secondary: InitOutcome, later: seq<InitOutcome>)
    ensures var p := Run(dev, TryPrimary, [primary, secondary] + later);
      (p.Done? || p.Failed?) &&
      (p.Done? <==> InitEns(dev, primary, secondary).result.Ok?) &&
      (p.Done? ==> InitEns(dev, primary, secondary).result.value == p.handle)
  {
    var outs := [primary, secondary] + later;
    var p1 := Step(dev, TryPrimary, primary);
    assert outs[1..] == [secondary] + later;
    assert ([secondary] + later)[1..] == later;
    if p1.Done? {
      RunTerminalStable(dev, p1, outs[1..]);
    } else {
      RunTerminalStable(dev, Step(dev, p1, secondary), later);
    }
  }

  /** What `start_sense` returns, the discovery calls it made, and the handle
      it passed to `spawn(sense_task(..))`, if it attempted a spawn. */
  datatype StartReport = StartReport(result: Result<()>, calls: seq<EnsCall>, spawnedWith: Option<Ens160>)

  /** `start_sense`: discover the sensor (`?` propagates the discovery error
      unchanged) and only then ask the executor to spawn the sampling task;
      a rejected spawn becomes the fixed spawn error. */
  function StartSense(dev: I2cDevice, primary: InitOutcome, secondary: InitOutcome, spawn: SpawnOutcome): (r: StartReport)
    ensures r.calls == InitEns(dev, primary, secondary).calls
    // a spawn is attempted exactly when discovery produced a handle, and with that handle
    ensures r.spawnedWith.Some? <==> InitEns(dev, primary, secondary).result.Ok?
    ensures r.spawnedWith.Some? ==> r.spawnedWith.value == InitEns(dev, primary, secondary).result.value
    // the start succeeds exactly when discovery succeeded and the executor admitted the task
    ensures r.result.Ok? <==> InitEns(dev, primary, secondary).result.Ok? && spawn == Spawned
    ensures r.result.Err? ==>
      r.result.msg == (if InitEns(dev, primary, secondary).result.Err? then EnsInitError else SenseSpawnError)
  {
    var d := InitEns(dev, primary, secondary);
    match d.result
    case Err(msg) => StartReport(Err(msg), d.calls, None)
    case Ok(ens160) =>
      StartReport(if spawn == Spawned then Ok(()) else Err(SenseSpawnError), d.calls, Some(ens160))
  }

  /** A sensor that answers on neither address is never sampled. */
  lemma StartSenseNoSensor(dev: I2cDevice, primary: InitOutcome, secondary: InitOutcome, spawn: SpawnOutcome)
    requires !Acknowledged(primary) && !Acknowledged(secondary)
    ensures StartSense(dev, primary, secondary, spawn) ==
      StartReport(Err("Faild to init ens160"), InitEns(dev, primary, secondary).calls, None)
  {
    InitEnsBothFail(dev, primary, secondary);
  }

  // ---------------------------------------------------------------------------
  // sense_task: one cycle of the sampling loop

  /** `get_status()`: an error, or the status with its new-data-ready flag. */
  datatype StatusOutcome = StatusErr | StatusOk(newDataReady: bool)

  /** `get_measurements()`: an error, or the measurements (only their CO2 value is kept). */
  datatype MeasureOutcome = MeasureErr | MeasureOk(co2: u16)

  /** What the sensor would answer in one cycle; the measurement outcome is
      only consulted when the loop asks for it. */
  datatype Cycle = Cycle(status: StatusOutcome, measurement: MeasureOutcome)

  predicate Ready(c: Cycle) { c.status == StatusOk(true) }

  /** The actions of the sampling loop. `Publish` is a send into the `CO2`
      watch, which `display_task` holds a receiver of; the loop never
      performs it, so the watch has no sender at all. */
  datatype SenseAction =
    | GetStatus
    | LogStatusFailed
    | GetMeasurements
    | LogMeasurements(co2: u16)
    | LogMeasurementsFailed
    | Publish(co2: u16)
    | Sleep(secs: nat)

  predicate IsGetStatus(a: SenseAction) { a.GetStatus? }
  predicate IsGetMeasurements(a: SenseAction) { a.GetMeasurements? }
  predicate IsSleep(a: SenseAction) { a.Sleep? }

  /** The actions of one loop iteration. */
  function CycleActions(c: Cycle): (a: seq<SenseAction>)
    ensures |a| >= 2 && a[0] == GetStatus && a[|a| - 1] == Sleep(2)
    ensures forall i :: 1 <= i < |a| - 1 ==> !a[i].GetStatus? && !a[i].Sleep?
    // measurements are read exactly when the status was read and flagged new data
    ensures GetMeasurements in a <==> Ready(c)
    ensures forall i :: 0 <= i < |a| ==> !a[i].Publish?
  {
    var middle :=
      match c.status
      case StatusErr => [LogStatusFailed]
      case StatusOk(ready) =>
        if !ready then []
        else
          [GetMeasurements] +
          match c.measurement
          case MeasureOk(co2) => [LogMeasurements(co2)]
          case MeasureErr => [LogMeasurementsFailed];
    [GetStatus] + middle + [Sleep(2)]
  }

  /** The actions of the first |cycles| iterations of the loop. */
  function SenseTrace(cycles: seq<Cycle>): seq<SenseAction> {
    if cycles == [] then []
    else SenseTrace(cycles[..|cycles| - 1]) + CycleActions(cycles[|cycles| - 1])
  }

  /** `sense_task`, run for as many iterations as `cycles` describes (the
      source's loop never ends; every prefix of its behaviour is covered). */
  method SenseTask(cycles: seq<Cycle>) returns (trace: seq<SenseAction>)
    ensures trace == SenseTrace(cycles)
  {
    trace := [];
    var i := 0;
    while i < |cycles|
      invariant 0 <= i <= |cycles|
      invariant trace == SenseTrace(cycles[..i])
    {
      var c := cycles[i];
      trace := trace + [GetStatus];
      match c.status {
        case StatusOk(ready) =>
          if ready {
            trace := trace + [GetMeasurements];
            match c.measurement {
              case MeasureOk(co2) => trace := trace + [LogMeasurements(co2)];
              case MeasureErr => trace := trace + [LogMeasurementsFailed];
            }
          }
        case StatusErr =>
          trace := trace + [LogStatusFailed];
      }
      trace := trace + [Sleep(2)];
      assert cycles[..i + 1][..i] == cycles[..i];
      i := i + 1;
    }
    assert cycles[..i] == cycles;
  }

  /** Every cycle runs to its 2 s sleep whatever its outcomes: the loop neither
      exits nor retries within a cycle. */
  lemma {:induction false} SenseTraceCycles(cycles: seq<Cycle>)
    ensures CountWhere(SenseTrace(cycles), IsGetStatus) == |cycles|
    ensures CountWhere(SenseTrace(cycles), IsSleep) == |cycles|
    decreases |cycles|
  {
    if cycles != [] {
      var init := cycles[..|cycles| - 1];
      var a := CycleActions(cycles[|cycles| - 1]);
      SenseTraceCycles(init);
      CountWhereAppend(SenseTrace(init), a, IsGetStatus);
      CountWhereAppend(SenseTrace(init), a, IsSleep);
      CycleCounts(cycles[|cycles| - 1]);
    }
  }

  lemma CycleCounts(c: Cycle)
    ensures CountWhere(CycleActions(c), IsGetStatus) == 1
    ensures CountWhere(CycleActions(c), IsSleep) == 1
  {
    var a := CycleActions(c);
    var mid := a[1..|a| - 1];
    assert a == [GetStatus] + mid + [Sleep(2)];
    CountWhereNone(mid, IsGetStatus);
    CountWhereNone(mid, IsSleep);
    CountWhereAppend([GetStatus], mid, IsGetStatus);
    CountWhereAppend([GetStatus] + mid, [Sleep(2)], IsGetStatus);
    CountWhereAppend([GetStatus], mid, IsSleep);
    CountWhereAppend([GetStatus] + mid, [Sleep(2)], IsSleep);
  }

  /** get_measurements() is called once per cycle whose status was read and
      flagged new data, and in no other cycle. */
  lemma {:induction false} SenseTraceMeasurements(cycles: seq<Cycle>)
    ensures CountWhere(SenseTrace(cycles), IsGetMeasurements) == CountWhere(cycles, Ready)
    decreases |cycles|
  {
    if cycles != [] {
      var init := cycles[..|cycles| - 1];
      var c := cycles[|cycles| - 1];
      SenseTraceMeasurements(init);
      CountWhereAppend(SenseTrace(init), CycleActions(c), IsGetMeasurements);
      var a := CycleActions(c);
      if Ready(c) {
        assert a == [GetStatus, GetMeasurements] + a[2..];
        CountWhereNone(a[2..], IsGetMeasurements);
        CountWhereAppend([GetStatus, GetMeasurements], a[2..], IsGetMeasurements);
        assert [GetStatus, GetMeasurements][..1] == [GetStatus];
      } else {
        CountWhereNone(a, IsGetMeasurements);
      }
    }
  }

  /** No reading ever reaches the `CO2` watch: the loop only logs its measurements. */
  lemma {:induction false} SenseNeverPublishes(cycles: seq<Cycle>)
    ensures forall i :: 0 <= i < |SenseTrace(cycles)| ==> !SenseTrace(cycles)[i].Publish?
    decreases |cycles|
  {
    if cycles != [] {
      SenseNeverPublishes(cycles[..|cycles| - 1]);
    }
  }

  // ---------------------------------------------------------------------------
  // The CO2 watch: only its receiver slots are modelled

  /** `CO2_CONSUMERS`: the number of receivers the `CO2` watch hands out. */
  const Co2Consumers: nat := 1

  /** A receiver handle of the watch, numbered in the order it was handed out. */
  datatype Receiver = Receiver(slot: nat)

  /** The `CO2` watch, reduced to its count of receivers handed out; its value
      slot and wake-up machinery are not modelled. */
  class Co2Watch {
    const capacity: nat
    var receivers: nat

    ghost predicate Valid() reads this { receivers <= capacity }

    constructor (capacity: nat)
      ensures Valid() && this.capacity == capacity && receivers == 0
    {
      this.capacity := capacity;
      receivers := 0;
    }

    /** `dyn_receiver()`: a new receiver while fewer than `capacity` exist, else none. */
    method DynReceiver() returns (rx: Option<Receiver>)
      requires Valid()
      modifies this
      ensures Valid()
      ensures rx.Some? <==> old(receivers) < capacity
      ensures rx.Some? ==> rx.value == Receiver(old(receivers)) && receivers == old(receivers) + 1
      ensures rx.None? ==> receivers == old(receivers)
    {
      if receivers < capacity {
        rx := Some(Receiver(receivers));
        receivers := receivers + 1;
      } else {
        rx := None;
      }
    }
  }

  /** `get_receiver`: asks the `CO2` watch for a receiver. */
  method GetReceiver(co2: Co2Watch) returns (rx: Option<Receiver>)
    requires co2.Valid()
    modifies co2
    ensures co2.Valid()
    ensures rx.Some? <==> old(co2.receivers) < co2.capacity
    ensures rx.Some? ==> rx.value == Receiver(old(co2.receivers))
    ensures co2.receivers == old(co2.receivers) + (if rx.Some? then 1 else 0)
  {
    rx := co2.DynReceiver();
  }

  /** With `CO2_CONSUMERS = 1` only the first caller of `get_receiver` gets a receiver. */
  method OnlyOneReceiver() returns (first: Option<Receiver>, second: Option<Receiver>)
    ensures first == Some(Receiver(0)) && second == None
  {
    var co2 := new Co2Watch(Co2Consumers);
    first := GetReceiver(co2);
    second := GetReceiver(co2);
  }
}
