/** The workflow tables as the engine updates them: starting an instance, opening a gate
    and sweeping overdue steps, each proved to do to the rows what `WorkflowEngine` and
    `WorkflowRuns` say. */
module WorkflowService {
  import opened Collections
  import opened OrgScopes
  import opened WorkflowGraph
  import opened WorkflowEngine
  import opened WorkflowRuns

  class WorkflowTables {
    var instances: map<InstanceId, Instance>
    var steps: map<StepId, Step>
    var events: seq<WfEvent>
    var nextStep: StepId

    function State(): Db
      reads this
    {
      Db(instances, steps, events, nextStep)
    }

    /** No instances yet, on a graph whose transitions lead to its own states. */
    constructor (g: Graph)
      requires KnownStates(g, Db(map[], map[], [], 0))
      ensures State() == Db(map[], map[], [], 0) && DbInv(g, State())
    {
      instances, steps, events, nextStep := map[], map[], [], 0;
    }

    /** One row per slot of a gate state, and none for any other state. */
    method ActivateStateSteps(g: Graph, i: InstanceId, now: int)
      requires i in instances && instances[i].current in g.states
      modifies this
      ensures State() == Activated(g, old(State()), i, now)
    {
      var inst := instances[i];
      var state := g.states[inst.current];
      if !state.isApprovalGate {
        return;
      }
      var due := if state.slaHours.Some? && state.slaHours.value != 0
                 then Some(now + state.slaHours.value * 3_600_000_000) else None;
      var first := nextStep;
      var count := if state.stepCount < 1 then 1 else state.stepCount;
      var added: map<StepId, Step> := map[];
      for n := 0 to count
        invariant added == map k | first <= k < first + n :: NewStep(g, i, inst, now, first, k)
      {
        added := added[first + n := Step(i, state.id, inst.revision, n, state.joinType, state.quorumCount,
                                         state.requiredPermission, inst.orgUnit, Active, None, None, due, 0)];
      }
      steps, nextStep := steps + added, first + count;
    }

    /** A new instance stands in the initial state, its gate is open, and its log says so. */
    method StartInstance(
      g: Graph, i: InstanceId, initial: StateId, actor: Option<UserId>, unit: Option<UnitId>, amount: Option<real>,
      now: int)
      requires DbInv(g, State()) && i !in instances && initial in g.states
      modifies this
      ensures State() == Started(g, old(State()), i, initial, actor, unit, amount, now)
      ensures DbInv(g, State()) && Folded(events, i) == Some(initial)
    {
      StartKeeps(g, State(), i, initial, actor, unit, amount, now);
      instances := instances[i := Instance(initial, 1, 1, actor, unit, amount)];
      if g.states[initial].isApprovalGate {
        ActivateStateSteps(g, i, now);
      }
      events := events + [WfEvent(i, None, StartedEvent, Some(initial), actor, None, "", 0)];
    }

    /** `ids` is what the locking query returned. */
    method Sweep(g: Graph, ids: seq<StepId>, locked: set<StepId>, now: int, limit: nat) returns (escalated: nat)
      requires DbInv(g, State()) && IsSelection(State(), locked, now, limit, ids)
      modifies this`steps, this`events
      ensures DbInv(g, State()) && LevelsRaised(old(State()), State(), ids) && escalated == |ids|
    {
      SweepKeeps(g, State(), ids);
      EscalatingRaisesLevels(State(), ids);
      var db := SweepDueSteps(State(), ids);
      steps, events := db.steps, db.events;
      return |ids|;
    }
  }
}
