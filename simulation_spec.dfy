/**
 * The value-level view of the master's control step: the simulation state, the
 * sparse patch applied to it, the tick decision, the FIFO query drain and the
 * pacing computation. `Simulation.SimulationMaster` is proved against these.
 */
module SimulationSpec {

  datatype Option<T> = None | Some(value: T)

  datatype SimulationType = Finite | Infinite

  datatype SimulationStatus = Running | Stopped

  datatype SimulationState = SimulationState(
    simType: SimulationType,
    status: SimulationStatus,
    currentTick: int,
    lastTick: int,
    taskFrequency: int)

  /** A sparse patch: each field overwrites the state only when it is set. */
  datatype SimulationStateIn = SimulationStateIn(
    simType: Option<SimulationType>,
    simStatus: Option<SimulationStatus>,
    currentTick: Option<int>,
    lastTick: Option<int>,
    taskFrequency: Option<int>)

  /** The patch with no field set. */
  const NoPatch: SimulationStateIn := SimulationStateIn(None, None, None, None, None)

  function Overwrite<T>(field: Option<T>, current: T): T {
    if field.Some? then field.value else current
  }

  /** The state after `updateSimulationState`: set fields win, unset fields keep their value. */
  function Patched(s: SimulationState, p: SimulationStateIn): (r: SimulationState)
    ensures p.simType.Some? ==> r.simType == p.simType.value
    ensures p.simType.None? ==> r.simType == s.simType
    ensures p.simStatus.Some? ==> r.status == p.simStatus.value
    ensures p.simStatus.None? ==> r.status == s.status
    ensures p.currentTick.Some? ==> r.currentTick == p.currentTick.value
    ensures p.currentTick.None? ==> r.currentTick == s.currentTick
    ensures p.lastTick.Some? ==> r.lastTick == p.lastTick.value
    ensures p.lastTick.None? ==> r.lastTick == s.lastTick
    ensures p.taskFrequency.Some? ==> r.taskFrequency == p.taskFrequency.value
    ensures p.taskFrequency.None? ==> r.taskFrequency == s.taskFrequency
  {
    SimulationState(
      Overwrite(p.simType, s.simType),
      Overwrite(p.simStatus, s.status),
      Overwrite(p.currentTick, s.currentTick),
      Overwrite(p.lastTick, s.lastTick),
      Overwrite(p.taskFrequency, s.taskFrequency))
  }

  /** The patch whose set fields are those of `q`, and those of `p` where `q` leaves a field unset. */
  function Combined(p: SimulationStateIn, q: SimulationStateIn): SimulationStateIn {
    SimulationStateIn(
      if q.simType.Some? then q.simType else p.simType,
      if q.simStatus.Some? then q.simStatus else p.simStatus,
      if q.currentTick.Some? then q.currentTick else p.currentTick,
      if q.lastTick.Some? then q.lastTick else p.lastTick,
      if q.taskFrequency.Some? then q.taskFrequency else p.taskFrequency)
  }

  /** An empty patch changes nothing; applying a patch twice is applying it once. */
  lemma PatchLaws(s: SimulationState, p: SimulationStateIn)
    ensures Patched(s, NoPatch) == s
    ensures Patched(Patched(s, p), p) == Patched(s, p)
  {
  }

  /** Two patches in a row act as one patch in which the later one's set fields win. */
  lemma PatchesCompose(s: SimulationState, p: SimulationStateIn, q: SimulationStateIn)
    ensures Patched(Patched(s, p), q) == Patched(s, Combined(p, q))
  {
  }

  // ---------------------------------------------------------------------------
  // The tick decision of one iteration of `execute`

  /** Whether the iteration advances the tick: running, and infinite or not yet at the last tick. */
  predicate ShouldAdvance(s: SimulationState) {
    s.status == Running && (s.simType == Infinite || s.currentTick < s.lastTick)
  }

  datatype Tick = Tick(state: SimulationState, advanced: bool)

  /**
   * Advance by one tick (one slave handoff) when the state allows it, then stop
   * the simulation once the current tick equals the last tick.
   */
  function TickDecision(s: SimulationState): (r: Tick)
    ensures r.advanced <==> ShouldAdvance(s)
    ensures r.state.currentTick == if r.advanced then s.currentTick + 1 else s.currentTick
    ensures r.state.currentTick == r.state.lastTick ==> r.state.status == Stopped
    ensures r.state.currentTick != r.state.lastTick ==> r.state.status == s.status
    ensures r.state == s.(currentTick := r.state.currentTick, status := r.state.status)
  {
    var advanced := ShouldAdvance(s);
    var t := if advanced then s.(currentTick := s.currentTick + 1) else s;
    Tick(if t.currentTick == t.lastTick then t.(status := Stopped) else t, advanced)
  }

  /** One iteration that does not stop: apply the patch, then decide the tick. */
  function Iteration(s: SimulationState, p: SimulationStateIn): Tick {
    TickDecision(Patched(s, p))
  }

  datatype Run = Run(state: SimulationState, handoffs: nat)

  /** Iterations fed the patches `ps` in order, and how many slave handoffs they made. */
  function RunWith(s: SimulationState, ps: seq<SimulationStateIn>): Run {
    if ps == [] then Run(s, 0)
    else
      var before := RunWith(s, ps[..|ps| - 1]);
      var t := Iteration(before.state, ps[|ps| - 1]);
      Run(t.state, before.handoffs + if t.advanced then 1 else 0)
  }

  predicate NoPatches(ps: seq<SimulationStateIn>) {
    forall i :: 0 <= i < |ps| ==> ps[i] == NoPatch
  }

  /** A finite simulation never steps past its last tick on its own. */
  lemma FiniteStepKeepsBound(s: SimulationState)
    requires s.simType == Finite && s.currentTick <= s.lastTick
    ensures Iteration(s, NoPatch).state.simType == Finite
    ensures Iteration(s, NoPatch).state.currentTick <= Iteration(s, NoPatch).state.lastTick
  {
  }

  /** A stopped simulation left without patches never changes and makes no handoff. */
  lemma {:induction false} StoppedRunIsIdle(s: SimulationState, ps: seq<SimulationStateIn>)
    requires s.status == Stopped && NoPatches(ps)
    ensures RunWith(s, ps) == Run(s, 0)
  {
    if ps != [] {
      StoppedRunIsIdle(s, ps[..|ps| - 1]);
    }
  }

  lemma {:induction false} RunWithAppend(s: SimulationState, a: seq<SimulationStateIn>, b: seq<SimulationStateIn>)
    ensures RunWith(s, a + b).state == RunWith(RunWith(s, a).state, b).state
    ensures RunWith(s, a + b).handoffs == RunWith(s, a).handoffs + RunWith(RunWith(s, a).state, b).handoffs
  {
    if b == [] {
      assert a + b == a;
    } else {
      var n := |b| - 1;
      assert (a + b)[..|a + b| - 1] == a + b[..n];
      assert (a + b)[|a + b| - 1] == b[n];
      RunWithAppend(s, a, b[..n]);
    }
  }

  /** While below the last tick, each patch-free iteration of a running finite simulation advances once. */
  lemma {:induction false} FiniteRunAdvances(s: SimulationState, ps: seq<SimulationStateIn>)
    requires s.simType == Finite && s.status == Running && s.currentTick < s.lastTick
    requires NoPatches(ps) && |ps| <= s.lastTick - s.currentTick
    ensures RunWith(s, ps).handoffs == |ps|
    ensures RunWith(s, ps).state == s.(currentTick := s.currentTick + |ps|,
                                       status := if s.currentTick + |ps| == s.lastTick then Stopped else Running)
  {
    if ps != [] {
      FiniteRunAdvances(s, ps[..|ps| - 1]);
    }
  }

  /**
   * From tick c <= N = lastTick, running and finite, without patches: exactly
   * N - c iterations advance (one handoff each) and the simulation is stopped at
   * tick N once at least one iteration has run; any further iterations change
   * nothing. When c == N no iteration advances and the first one stops it.
   */
  lemma FiniteRunEndsStopped(s: SimulationState, ps: seq<SimulationStateIn>)
    requires s.simType == Finite && s.status == Running && s.currentTick <= s.lastTick
    requires NoPatches(ps) && |ps| >= s.lastTick - s.currentTick && |ps| >= 1
    ensures RunWith(s, ps).handoffs == s.lastTick - s.currentTick
    ensures RunWith(s, ps).state == s.(currentTick := s.lastTick, status := Stopped)
  {
    var n := s.lastTick - s.currentTick;
    if n == 0 {
      var a, b := ps[..1], ps[1..];
      assert ps == a + b;
      assert a[..0] == [] && a[0] == NoPatch;
      PatchLaws(s, NoPatch);
      assert RunWith(s, a) == Run(s.(status := Stopped), 0);
      StoppedRunIsIdle(RunWith(s, a).state, b);
      RunWithAppend(s, a, b);
    } else {
      var a, b := ps[..n], ps[n..];
      assert ps == a + b;
      FiniteRunAdvances(s, a);
      StoppedRunIsIdle(RunWith(s, a).state, b);
      RunWithAppend(s, a, b);
    }
  }

  // ---------------------------------------------------------------------------
  // The query drain of `updateSimulationMap`

  /** The map after applying the queued queries front to back. */
  function Drain<M, Q>(m: M, qs: seq<Q>, apply: (M, Q) -> M): M {
    if qs == [] then m else Drain(apply(m, qs[0]), qs[1..], apply)
  }

  /** Draining two queues in turn is draining their concatenation. */
  lemma {:induction false} DrainAppend<M, Q>(m: M, a: seq<Q>, b: seq<Q>, apply: (M, Q) -> M)
    ensures Drain(m, a + b, apply) == Drain(Drain(m, a, apply), b, apply)
  {
    if a == [] {
      assert a + b == b;
    } else {
      assert (a + b)[1..] == a[1..] + b;
      DrainAppend(apply(m, a[0]), a[1..], b, apply);
    }
  }

  // ---------------------------------------------------------------------------
  // The pacing of `waitDurationExceeds`

  const NanosPerSecond: int := 1_000_000_000

  /** The per-tick budget in nanoseconds; the source divides by the frequency unchecked. */
  function TaskMaxDuration(taskFrequency: int): (d: int)
    requires taskFrequency > 0
    ensures 0 <= d <= NanosPerSecond
    ensures d * taskFrequency <= NanosPerSecond < (d + 1) * taskFrequency
  {
    NanosPerSecond / taskFrequency
  }

  /** How long the master sleeps after an iteration that took `leadTime` nanoseconds. */
  function WaitTime(taskFrequency: int, leadTime: int): (w: int)
    requires taskFrequency > 0
    ensures w >= 0
    ensures leadTime >= 0 ==> w <= TaskMaxDuration(taskFrequency)
    ensures w == 0 <==> leadTime >= TaskMaxDuration(taskFrequency)
    ensures w > 0 ==> leadTime + w == TaskMaxDuration(taskFrequency)
  {
    var remaining := TaskMaxDuration(taskFrequency) - leadTime;
    if remaining > 0 then remaining else 0
  }
}
