# cws-map core: air containers and the master control step

This project models two sequential parts of the cws-map simulation engine and proves properties of them.

**The air container (`Air::Container`).** Each map cell holds one container. A container owns an ordered list of gas plains. Each plain has a type tag, a weight, a heat capacity, a heat-transfer coefficient and a temperature. The container keeps two invariants:

- at most one plain per type tag, because `add` merges a plain into the entry with the same tag;
- thermal equilibrium, because every mutation ends by setting all plains to the heat-capacity-weighted mean temperature Σ w·hc·T / Σ w·hc.

It also reports the weight-averaged transfer coefficient Σ w·c / Σ w. `updateTemperature` splits an energy amount over the plains in proportion to c·w / Σ w·c and then re-normalizes.

**The master control step (`SimulationMaster`), without threads.** One iteration of `execute` does the following, in order:

1. It checks the stop request.
2. It applies the sparse patch (`SimulationStateIn`) field by field.
3. It drains the query queue into the map.
4. It advances the tick by one when the simulation is running and either infinite or below its last tick. An advance costs one master–slave handoff.
5. It forces STOPPED when the current tick equals the last tick.
6. It publishes the state and computes how long to sleep.

Layout:

- `general.dfy` (module `General`): the record types of `cws/general.hpp`.
- `air_spec.dfy` (module `AirSpec`): plains as values (`PlainValue`), the sums, `Normalized`, `TransferCoef`, `Shares`/`Deltas`/`Heated`, `Added`, and the lemmas about them.
- `air_container.dfy` (module `Air`): `Plain` and `Container` as classes. The list is a `seq<Plain>` of owned objects, updated in place. `Container.Valid()` is the class invariant. Each method is proved against the `AirSpec` function that gives its result.
- `simulation_spec.dfy` (module `SimulationSpec`): state, patch, tick decision, multi-iteration runs, the query drain and the wait time, with their lemmas.
- `simulation_master.dfy` (module `Simulation`): the `SimulationMaster` class, with `Step` (one iteration) and `Execute` (the loop).

Modelling choices:

- Temperatures, weights, heat capacities and coefficients are `real`.
- The source divides without checks. Where it does, the model requires positive weights, heat capacities and coefficients and a non-empty list.
- On an empty container, `updateTemperature` and `normalizeTemperature` compute 0/0 in the source, but the result reaches no plain. The model therefore treats both calls as no-ops on an empty list rather than forbidding them.
- `Plain` behaviour lives in `cws/air/plain.hpp`, which is not part of this model. Two operations come in as function parameters:
  - `merge` stands for `operator+`. Its only requirement is that it keeps plains positive.
  - `heatUp(p, d)` is the new temperature after `Plain::updateTemperature(d)`.
- The merged value is assigned into the existing plain object (`*it = *it + *plain`). That object's dynamic type does not change, so it keeps its tag (`Merged`).
- `clone()` is a fresh `Plain` object with the same value.
- The stop token, the patch returned by `masterGetState` and the time an iteration took are inputs to `Step`.
- The slave's physics tick is the counter `slaveTicks`.
- `mapQuery.updateMap` is the function parameter `apply` over an abstract map type.
- `taskFrequency` is an integer, and `1'000'000'000 / taskFrequency` is integer division.

## Model

| member | source | states |
|---|---|---|
| Air.Container.constructor | cws-map/include/cws/air/container.hpp:18 | a default-constructed container is empty and satisfies the invariant |
| Air.Container.Move | cws-map/include/cws/air/container.hpp:20 | the new container takes over the source's plain objects unchanged; the source is left empty; both satisfy the invariant |
| Air.Container.Copy | cws-map/include/cws/air/container.hpp:22-27 | the copy has the same length and, at each position, a fresh plain equal to the source's; the invariant holds |
| Air.CopyThenUpdate | cws-map/include/cws/air/container.hpp:22-27 | a copy is independent: heating the copy leaves the source's list and every source plain unchanged |
| Air.Container.Empty | cws-map/src/air/container.cpp:6 | true exactly when the container holds no plain |
| Air.Container.GetHeatTransferCoef | cws-map/src/air/container.cpp:8-13 | returns Σ w·c / Σ w, which lies between the least and greatest coefficient of the list |
| Air.Container.GetTemperature | cws-map/src/air/container.cpp:16-18 | returns the front plain's temperature, which by the invariant is every plain's temperature |
| Air.Container.UpdateTemperature | cws-map/src/air/container.cpp:21-34 | the new list is `Normalized(Heated(old list))`: each plain updated with its share of the energy, then all set to the weighted mean; invariant kept; empty container unchanged |
| Air.Container.Add | cws-map/src/air/container.cpp:38-53 | the new list is `Normalized(Added(old list, plain))`; the list object sequence is unchanged or has the plain appended; tags stay distinct and temperatures equal; when merged, the passed plain keeps its value |
| Air.Container.Erase | cws-map/src/air/container.cpp:55-58 | removes exactly the plain at the position and returns the position of the next one; the invariant is kept |
| Air.Container.GetHeatTransferAndTotalWeight | cws-map/src/air/container.cpp:60-72 | the accumulating loop yields Σ w (positive) and Σ w·c / Σ w |
| Air.Container.Totals | cws-map/src/air/container.cpp:75-82 | the accumulating loop of `normalizeTemperature` yields Σ w·hc·T and Σ w·hc of the list |
| Air.Container.Normalize | cws-map/src/air/container.cpp:74-89 | the new list is `Normalized(old list)`: every plain at Σ w·hc·T / Σ w·hc, other fields untouched |
| AirSpec.FirstWithTag | cws-map/src/air/container.cpp:41-47 | the first index whose tag matches, or the length when none does; no earlier plain matches |
| AirSpec.AddedShape | cws-map/src/air/container.cpp:41-50 | a new tag is appended at the back; a known tag replaces only its one matching entry with the merge, keeping the length |
| AirSpec.AddKeepsInvariants | cws-map/src/air/container.cpp:38-50 | if tags were pairwise distinct and plains positive before `add`, both still hold after it, and the list is non-empty |
| AirSpec.NormalizeReachesEquilibrium | cws-map/src/air/container.cpp:84-88 | after normalizing, every plain has the same temperature, namely Σ w·hc·T / Σ w·hc |
| AirSpec.NormalizePreservesEnergy | cws-map/src/air/container.cpp:75-87 | normalizing keeps the total energy Σ w·hc·T |
| AirSpec.NormalizeChangesOnlyTemperatures | cws-map/src/air/container.cpp:86-88 | normalizing keeps length, order, tags, weights, heat capacities and coefficients |
| AirSpec.NormalizeIdempotent | cws-map/src/air/container.cpp:74-89 | normalizing twice equals normalizing once |
| AirSpec.WithTemperatureSums | cws-map/src/air/container.cpp:78-87 | setting all temperatures to t keeps Σ w·hc and makes the energy t·Σ w·hc |
| AirSpec.SumsPositive | cws-map/src/air/container.cpp:71 | on a non-empty list of positive plains, Σ w, Σ w·c and Σ w·hc are positive, so the divisions are defined |
| AirSpec.MinCoef | cws-map/src/air/container.cpp:60-72 | reference bound for the weighted-mean coefficient computed there (which itself takes no minimum): the least coefficient of a non-empty list, a lower bound that some plain attains |
| AirSpec.MaxCoef | cws-map/src/air/container.cpp:60-72 | reference bound for the weighted-mean coefficient computed there (which itself takes no maximum): the greatest coefficient of a non-empty list, an upper bound that some plain attains |
| AirSpec.SumHeatWeightBounds | cws-map/src/air/container.cpp:65-68 | with coefficients in [lo, hi], Σ w·c lies between lo·Σ w and hi·Σ w |
| AirSpec.TransferCoefBetween | cws-map/src/air/container.cpp:60-72 | the transfer coefficient Σ w·c / Σ w lies between the least and greatest coefficient |
| AirSpec.CoefTimesWeight | cws-map/src/air/container.cpp:24-26 | multiplying the coefficient back by the total weight gives Σ w·c, which is positive |
| AirSpec.SharesSumToOne | cws-map/src/air/container.cpp:26-29 | the shares c_i·w_i / Σ w·c add up to 1 |
| AirSpec.DeltasSumToTransfer | cws-map/src/air/container.cpp:26-31 | the energy deltas handed to the plains add up to `heatAirTransfer` |
| AirSpec.DeltaAt | cws-map/src/air/container.cpp:29-30 | the delta for plain k is its share c_k·w_k / Σ w·c times `heatAirTransfer` |
| AirSpec.HeatedKeepsInvariants | cws-map/src/air/container.cpp:28-31 | distributing the energy keeps length, positivity and distinct tags |
| AirSpec.HeatedByEnergy | cws-map/src/air/container.cpp:28-31 | if each plain's update turns a delta d into exactly d more energy, the list's energy grows by the sum of the deltas |
| AirSpec.UpdateTemperatureEnergyBalance | cws-map/src/air/container.cpp:21-34 | under that condition, `updateTemperature` raises the container's energy by exactly `heatAirTransfer` |
| SimulationSpec.Patched | cws-map/src/simulation/master.cpp:71-88 | each of type, status, currentTick, lastTick and taskFrequency is the patch's value when set and the old value when unset |
| SimulationSpec.PatchLaws | cws-map/src/simulation/master.cpp:71-88 | an empty patch changes nothing; applying a patch twice equals applying it once |
| SimulationSpec.PatchesCompose | cws-map/src/simulation/master.cpp:71-88 | two patches in a row act as one patch in which the later patch's set fields win |
| SimulationSpec.TickDecision | cws-map/src/simulation/master.cpp:40-52 | the tick grows by exactly 1 iff running and (infinite or below the last tick); tick equal to last tick implies STOPPED, whatever the type; nothing else changes |
| SimulationSpec.FiniteStepKeepsBound | cws-map/src/simulation/master.cpp:40-52 | for a finite run without patches, currentTick ≤ lastTick is preserved by an iteration |
| SimulationSpec.StoppedRunIsIdle | cws-map/src/simulation/master.cpp:40-52 | a stopped simulation without patches never changes and makes no handoff |
| SimulationSpec.RunWithAppend | cws-map/src/simulation/master.cpp:26-60 | running two patch sequences in turn equals running their concatenation, handoffs added |
| SimulationSpec.FiniteRunAdvances | cws-map/src/simulation/master.cpp:40-52 | below the last tick, every patch-free iteration of a running finite simulation advances once with one handoff |
| SimulationSpec.FiniteRunEndsStopped | cws-map/src/simulation/master.cpp:40-52 | from tick c ≤ N, running and finite, any max(N − c, 1) or more patch-free iterations end at tick N, STOPPED, after exactly N − c handoffs (none when c = N: the first iteration only stops the run) |
| SimulationSpec.DrainAppend | cws-map/src/simulation/master.cpp:99-102 | draining two queues in turn equals draining their concatenation |
| SimulationSpec.TaskMaxDuration | cws-map/src/simulation/master.cpp:123 | the per-tick budget is ⌊10⁹ / taskFrequency⌋ nanoseconds, between 0 and 10⁹ |
| SimulationSpec.WaitTime | cws-map/src/simulation/master.cpp:123-127 | the sleep is never negative and is 0 exactly when the iteration used up the budget; it never exceeds the budget when elapsed ≥ 0; otherwise elapsed plus sleep equals the budget |
| Simulation.SimulationMaster.constructor | cws-map/include/cws/simulation/simulation.hpp:52-58 | a new master has both handoff flags cleared and no slave tick performed |
| Simulation.SimulationMaster.ProcessStopRequest | cws-map/src/simulation/master.cpp:63-69 | reports the stop request and asks the slave to exit exactly when there is one |
| Simulation.SimulationMaster.UpdateSimulationState | cws-map/src/simulation/master.cpp:71-88 | the field-by-field overwrites leave the state equal to `Patched(old state, patch)` |
| Simulation.SimulationMaster.UpdateSimulationMap | cws-map/src/simulation/master.cpp:90-103 | every queued query is applied once, front first; the log of applied queries grows by the old queue; the queue ends empty |
| Simulation.SimulationMaster.NotifySlaveReady | cws-map/src/simulation/master.cpp:105-111 | raises `runReady` |
| Simulation.SimulationMaster.WaitSlaveProcess | cws-map/src/simulation/master.cpp:113-117 | returns after exactly one slave tick, with `runProcessed` cleared |
| Simulation.SimulationMaster.Step | cws-map/src/simulation/master.cpp:26-60 | a stop request exits before any patch, drain or tick and changes nothing else. Otherwise: the new state is the patched state after the tick decision; one handoff iff the tick advanced; the queue is drained into the map; the new state is published; the sleep is `WaitTime` |
| Simulation.SimulationMaster.Execute | cws-map/src/simulation/master.cpp:23-61 | the loop runs one iteration per patch and then exits on the stop request; the final state and the handoff count are those of `RunWith` |

## Left out

- Threads and synchronisation are not modelled. This covers `run`, `wait` and `exit` (`std::jthread`, `stop_token`), the mutex and condition variable around `runReady`/`runProcessed`, `sleep_for` and the high-resolution clock. The stop request and the elapsed time are inputs. The handoff is the notify/wait pair counted in `slaveTicks`.
- `SimulationSlave` and the `curMap`/`newMap` snapshot swap are not part of this model. The slave's work appears only as one counted tick per handoff.
- `Air::Plain` (`cws/air/plain.hpp`) is not part of this model. `operator+` and `Plain::updateTemperature(delta)` are the parameters `merge` and `heatUp`. Only "keeps plains positive" is assumed of `merge`.
- AirSpec.UpdateTemperatureEnergyBalance: proves conservation of energy only under the assumption that each plain's own update conserves energy. The real update formula is not part of this model.
- Floating-point rounding, NaN and infinities are not modelled. Values are exact reals.
- Air.Container.GetHeatTransferCoef: requires a non-empty list of positive plains. The source divides by Σ w unchecked and would return NaN on an empty container.
- Air.Container.GetTemperature: requires a non-empty container. The source reads `front()` of the list unchecked.
- `getList` (cws-map/src/air/container.cpp:36) only exposes the list. `Container.Contents()` plays that role.
- `hasAir` is declared in the header but only `empty` is defined. The model follows the definition (`Empty`).
- `SubjectQuery` and `updateMap` are not part of this model. Queries have an abstract type and `apply` is an abstract function.
- `masterGetState` and `masterSetState` are reduced to the patch parameter and the `published` field. How the interface produces patches is not part of this model.
- SimulationSpec.TickDecision: `currentTick`, `lastTick` and `taskFrequency` are unbounded integers. The source increments `currentTick` (cws-map/src/simulation/master.cpp:45) in a fixed-width type whose declaration is not part of this model, so a long INFINITE run there eventually overflows; the model's tick never wraps. The same holds for Simulation.SimulationMaster.Step and Simulation.SimulationMaster.Execute, which use it.
- Simulation.SimulationMaster.Step: requires the patched `taskFrequency` to be positive. The source divides by it unchecked (cws-map/src/simulation/master.cpp:123): a zero frequency is a division by zero there, and a negative one gives a negative budget and a zero sleep. The model covers only positive frequencies, as the simulation's data model intends.
- Simulation.SimulationMaster.Execute: requires the initial and every patched `taskFrequency` to be positive, for the same reason as `Step`.
- SimulationSpec.TaskMaxDuration: does not model `static_cast<int>` overflow. With an integer frequency of at least 1 the budget fits in an `int`. The declared type of `taskFrequency` is not part of this model.
- The coordinate bounds check of the gRPC service is outside this model. So are the `#ifndef NDEBUG` debug prints.
- `setDimension`/`getDimension` and map construction are outside this model. `General` only mirrors the record types.
