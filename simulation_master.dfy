/**
 * `SimulationMaster` without its threads: one iteration of the control loop of
 * `execute` as the method `Step`, and the loop itself as `Execute`. The stop
 * token, the patch read from the interface and the time an iteration took are
 * inputs; the slave's physics tick is counted in `slaveTicks`.
 */
module Simulation {
  import opened SimulationSpec

  /** The part of the external interface the master touches: the query queue and the published state. */
  class SimulationInterface<Q> {
    var queries: seq<Q>
    var published: Option<SimulationState>

    constructor (queries: seq<Q>)
      ensures this.queries == queries && published == None
    {
      this.queries := queries;
      published := None;
    }
  }

  datatype Outcome = Exit | Continue(waitTime: int)

  /**
   * The master of map type `M` and query type `Q`; `apply` stands for
   * `mapQuery.updateMap`, whose body is not part of this model.
   */
  class SimulationMaster<M, Q> {
    var state: SimulationState
    var simulationMap: M
    const interface: SimulationInterface<Q>
    const apply: (M, Q) -> M

    // Handoff flags shared with the slave.
    var runReady: bool
    var runProcessed: bool
    /** Physics ticks the slave has completed. */
    var slaveTicks: nat
    var slaveExitRequested: bool

    /** Every query applied to the map so far, in order. */
    ghost var applied: seq<Q>

    constructor (interface: SimulationInterface<Q>, apply: (M, Q) -> M, simulationMap: M, state: SimulationState)
      ensures this.interface == interface && this.apply == apply
      ensures this.simulationMap == simulationMap && this.state == state
      ensures !runReady && !runProcessed && slaveTicks == 0 && !slaveExitRequested && applied == []
    {
      this.interface, this.apply, this.simulationMap, this.state := interface, apply, simulationMap, state;
      runReady, runProcessed, slaveTicks, slaveExitRequested := false, false, 0, false;
      applied := [];
    }

    /** `processStopRequest`: reports the stop request and, when there is one, asks the slave to exit. */
    method ProcessStopRequest(stopRequested: bool) returns (requested: bool)
      modifies this`slaveExitRequested
      ensures requested == stopRequested
      ensures slaveExitRequested == (old(slaveExitRequested) || stopRequested)
    {
      requested := stopRequested;
      if requested {
        slaveExitRequested := true;
      }
    }

    /** `updateSimulationState`: overwrites each field the patch sets, one by one. */
    method UpdateSimulationState(stateIn: SimulationStateIn)
      modifies this`state
      ensures state == Patched(old(state), stateIn)
    {
      if stateIn.simType.Some? {
        state := state.(simType := stateIn.simType.value);
      }
      if stateIn.simStatus.Some? {
        state := state.(status := stateIn.simStatus.value);
      }
      if stateIn.currentTick.Some? {
        state := state.(currentTick := stateIn.currentTick.value);
      }
      if stateIn.lastTick.Some? {
        state := state.(lastTick := stateIn.lastTick.value);
      }
      if stateIn.taskFrequency.Some? {
        state := state.(taskFrequency := stateIn.taskFrequency.value);
      }
    }

    /** `updateSimulationMap`: applies every queued query once, front first, and empties the queue. */
    method UpdateSimulationMap()
      modifies this`simulationMap, this`applied, interface`queries
      ensures simulationMap == Drain(old(simulationMap), old(interface.queries), apply)
      ensures applied == old(applied) + old(interface.queries)
      ensures interface.queries == []
    {
      while interface.queries != []
        invariant Drain(simulationMap, interface.queries, apply) == Drain(old(simulationMap), old(interface.queries), apply)
        invariant applied + interface.queries == old(applied) + old(interface.queries)
        decreases |interface.queries|
      {
        simulationMap := apply(simulationMap, interface.queries[0]);
        applied := applied + [interface.queries[0]];
        interface.queries := interface.queries[1..];
      }
    }

    /** `notifySlaveReady`: raises `runReady` for the slave. */
    method NotifySlaveReady()
      modifies this`runReady
      ensures runReady
    {
      runReady := true;
    }

    /**
     * `waitSlaveProcess`: blocks until the slave reports one processed tick,
     * then clears `runProcessed`. The slave's side is the counted tick and the
     * raised flag.
     */
    method WaitSlaveProcess()
      modifies this`runProcessed, this`slaveTicks
      ensures slaveTicks == old(slaveTicks) + 1 && !runProcessed
    {
      // the slave, woken by runReady, performs one physics tick and raises
      // runProcessed; the master's predicate-guarded wait then returns and
      // clears the flag
      slaveTicks := slaveTicks + 1;
      runProcessed := false;
    }

    /**
     * One iteration of the loop of `execute`. A stop request returns before
     * anything else; otherwise the patch is applied, the queue drained, the tick
     * decided (with at most one handoff), the state published, and the sleep
     * computed from the time the iteration took.
     */
    method Step(stopRequested: bool, stateIn: SimulationStateIn, leadTime: int) returns (outcome: Outcome)
      requires !stopRequested ==> Patched(state, stateIn).taskFrequency > 0
      modifies this, interface
      ensures stopRequested ==> outcome == Exit && slaveExitRequested
      ensures stopRequested ==> state == old(state) && simulationMap == old(simulationMap) && slaveTicks == old(slaveTicks)
      ensures stopRequested ==> interface.queries == old(interface.queries) && interface.published == old(interface.published)
      ensures stopRequested ==> applied == old(applied)
      ensures !stopRequested ==> slaveExitRequested == old(slaveExitRequested)
      ensures !stopRequested ==> state == Iteration(old(state), stateIn).state
      ensures !stopRequested ==> slaveTicks == old(slaveTicks) + if Iteration(old(state), stateIn).advanced then 1 else 0
      ensures !stopRequested ==> simulationMap == Drain(old(simulationMap), old(interface.queries), apply)
      ensures !stopRequested ==> applied == old(applied) + old(interface.queries) && interface.queries == []
      ensures !stopRequested ==> interface.published == Some(state)
      ensures !stopRequested ==> state.taskFrequency > 0 && outcome == Continue(WaitTime(state.taskFrequency, leadTime))
      ensures runReady == (old(runReady) || (!stopRequested && Iteration(old(state), stateIn).advanced))
      ensures runProcessed == (old(runProcessed) && !(!stopRequested && Iteration(old(state), stateIn).advanced))
    {
      var requested := ProcessStopRequest(stopRequested);
      if requested {
        return Exit;
      }

      UpdateSimulationState(stateIn);
      UpdateSimulationMap();

      var isStatusRunning := state.status == Running;
      var isNotLastTick := state.currentTick < state.lastTick;
      var isSimTypeINF := state.simType == Infinite;

      if isStatusRunning && (isSimTypeINF || isNotLastTick) {
        state := state.(currentTick := state.currentTick + 1);
        NotifySlaveReady();
        WaitSlaveProcess();
      }

      if state.currentTick == state.lastTick {
        state := state.(status := Stopped);
      }

      interface.published := Some(state);
      outcome := Continue(WaitTime(state.taskFrequency, leadTime));
    }

    /**
     * The loop of `execute`: one iteration per patch in `stateIns`, then the
     * stop request is seen and the loop returns. `waits` are the sleeps computed
     * after each iteration.
     */
    method Execute(stateIns: seq<SimulationStateIn>, leadTimes: seq<int>) returns (waits: seq<int>)
      requires |leadTimes| == |stateIns| && state.taskFrequency > 0
      requires forall i :: 0 <= i < |stateIns| ==> Overwrite(stateIns[i].taskFrequency, 1) > 0
      modifies this, interface
      ensures state == RunWith(old(state), stateIns).state
      ensures slaveTicks == old(slaveTicks) + RunWith(old(state), stateIns).handoffs
      ensures slaveExitRequested && |waits| == |stateIns|
      ensures forall i :: 0 <= i < |waits| ==> waits[i] >= 0
      ensures stateIns != [] ==> simulationMap == Drain(old(simulationMap), old(interface.queries), apply) && interface.queries == []
      ensures stateIns != [] ==> interface.published == Some(state)
    {
      waits := [];
      var i := 0;
      while i < |stateIns|
        invariant 0 <= i <= |stateIns| && |waits| == i
        invariant state.taskFrequency > 0
        invariant state == RunWith(old(state), stateIns[..i]).state
        invariant slaveTicks == old(slaveTicks) + RunWith(old(state), stateIns[..i]).handoffs
        invariant forall k :: 0 <= k < i ==> waits[k] >= 0
        invariant i > 0 ==> simulationMap == Drain(old(simulationMap), old(interface.queries), apply) && interface.queries == []
        invariant i > 0 ==> interface.published == Some(state)
        invariant i == 0 ==> simulationMap == old(simulationMap) && interface.queries == old(interface.queries)
      {
        assert stateIns[..i + 1][..i] == stateIns[..i];
        var outcome := Step(false, stateIns[i], leadTimes[i]);
        waits := waits + [outcome.waitTime];
        i := i + 1;
      }
      assert stateIns[..i] == stateIns;
      var last := Step(true, NoPatch, 0);
    }
  }
}
