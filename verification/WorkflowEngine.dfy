/** The workflow engine at run time: starting an instance, executing an action, and the
    event log both of them keep in step with the instance's current state.

    Each call is one transaction under the instance's row lock, so it is a function on the
    stored rows. Which active step of a gate is filled first is left open (`pick`). */
module WorkflowEngine {
  import opened Collections
  import opened OrgScopes
  import opened WorkflowGraph

  type InstanceId = int
  type StepId = int

  datatype StepStatus = Pending | Active | Done | Returned | Skipped

  datatype Step = Step(
    instance: InstanceId, state: StateId, revision: int, sequence: int, joinType: JoinType, quorumCount: Option<int>,
    requiredPermission: Option<string>, orgUnit: Option<UnitId>, status: StepStatus, actedBy: Option<UserId>,
    onBehalfOf: Option<UserId>, slaDueAt: Option<int>, escalationLevel: nat)

  datatype Instance = Instance(
    current: StateId, rowVersion: int, revision: int, originator: Option<UserId>, orgUnit: Option<UnitId>,
    amount: Option<real>)

  datatype EventKind = StartedEvent | TransitionEvent | EscalationEvent | NoteEvent

  datatype WfEvent = WfEvent(
    instance: InstanceId, step: Option<StepId>, kind: EventKind, toState: Option<StateId>, actor: Option<UserId>,
    onBehalfOf: Option<UserId>, key: string, escalationLevel: nat)

  /** Step ids are drawn from `nextStep` upward. */
  datatype Db = Db(
    instances: map<InstanceId, Instance>, steps: map<StepId, Step>, events: seq<WfEvent>, nextStep: StepId)

  /** The published graph; transitions come in routing order. */
  datatype Graph = Graph(states: map<StateId, State>, transitions: seq<Transition>)

  /** Everything authority is resolved from. */
  datatype Authorities = Authorities(
    units: Units, grants: set<Grant>, delegations: seq<Delegation>, definition: Option<int>, now: int, clock: int)

  function Auth(a: Authorities, actor: UserId, perm: Option<string>, unit: Option<UnitId>): Authority {
    ResolveAuthority(a.units, a.grants, a.delegations, actor, perm, unit, a.definition, a.now, a.clock)
  }

  // ---- the event log ---------------------------------------------------------------------

  predicate Moves(e: WfEvent) {
    (e.kind == StartedEvent || e.kind == TransitionEvent) && e.toState.Some?
  }

  /** The state the events of one instance lead to. */
  function Folded(events: seq<WfEvent>, i: InstanceId): Option<StateId> {
    if events == [] then None
    else
      var last := events[|events| - 1];
      if last.instance == i && Moves(last) then last.toState else Folded(events[..|events| - 1], i)
  }

  method FoldEvents(events: seq<WfEvent>, i: InstanceId) returns (state: Option<StateId>)
    ensures state == Folded(events, i)
  {
    state := None;
    for n := 0 to |events|
      invariant state == Folded(events[..n], i)
    {
      assert events[..n + 1][..n] == events[..n];
      if events[n].instance == i && Moves(events[n]) {
        state := events[n].toState;
      }
    }
    assert events[..|events|] == events;
  }

  /** The n-th event is the last one to move the instance. */
  ghost predicate MovesLast(events: seq<WfEvent>, i: InstanceId, n: nat) {
    && n < |events| && events[n].instance == i && Moves(events[n])
    && forall m :: n < m < |events| ==> events[m].instance != i || !Moves(events[m])
  }

  /** The fold is where the last started or transition event of the instance that names a state
      leads, and nothing when there is none. */
  lemma {:induction false} FoldIsLastMove(events: seq<WfEvent>, i: InstanceId, n: nat)
    ensures MovesLast(events, i, n) ==> Folded(events, i) == events[n].toState
    ensures Folded(events, i).None? <==> forall m :: 0 <= m < |events| ==> events[m].instance != i || !Moves(events[m])
    ensures forall e :: Moves(e) <==> e.toState.Some? && (e.kind == StartedEvent || e.kind == TransitionEvent)
    decreases |events|
  {
    if events != [] {
      var k := |events| - 1;
      FoldIsLastMove(events[..k], i, n);
      assert n < k && MovesLast(events, i, n) ==> MovesLast(events[..k], i, n);
    }
  }

  /** The read-model agrees with the log. */
  ghost predicate Consistent(db: Db) {
    forall i :: i in db.instances ==> Folded(db.events, i) == Some(db.instances[i].current)
  }

  // ---- gates --------------------------------------------------------------------------------

  function GateOf(db: Db, i: InstanceId): set<StepId>
    requires i in db.instances
  {
    var inst := db.instances[i];
    set s | s in db.steps && db.steps[s].instance == i && db.steps[s].state == inst.current
      && db.steps[s].revision == inst.revision
  }

  /** Fan-in, decided on the live (active or done) steps of the gate. */
  predicate JoinSatisfied(steps: map<StepId, Step>, gate: set<StepId>, join: JoinType, quorum: Option<int>) {
    var live := set s | s in gate && s in steps && (steps[s].status == Active || steps[s].status == Done);
    var done := set s | s in live && steps[s].status == Done;
    live != {} &&
    match join
    case JoinAny => |done| >= 1
    case JoinQuorum => |done| >= if quorum.Some? && quorum.value != 0 then quorum.value else |live|
    case JoinAll => |done| >= |live|
  }

  /** The row of slot `k` of a gate whose first slot is `first`. */
  function NewStep(g: Graph, i: InstanceId, inst: Instance, now: int, first: StepId, k: StepId): Step
    requires inst.current in g.states
  {
    var s := g.states[inst.current];
    var due := if s.slaHours.Some? && s.slaHours.value != 0 then Some(now + s.slaHours.value * 3_600_000_000) else None;
    Step(i, s.id, inst.revision, k - first, s.joinType, s.quorumCount, s.requiredPermission, inst.orgUnit,
         Active, None, None, due, 0)
  }

  /** The step rows of an approval gate just entered; none for any other state. */
  function Activated(g: Graph, db: Db, i: InstanceId, now: int): Db
    requires i in db.instances && db.instances[i].current in g.states
  {
    var inst := db.instances[i];
    var s := g.states[inst.current];
    if !s.isApprovalGate then db
    else
      var n := if s.stepCount < 1 then 1 else s.stepCount;
      var added := map k | db.nextStep <= k < db.nextStep + n :: NewStep(g, i, inst, now, db.nextStep, k);
      db.(steps := db.steps + added, nextStep := db.nextStep + n)
  }

  // ---- starting -------------------------------------------------------------------------------

  function Started(
    g: Graph, db: Db, i: InstanceId, initial: StateId, actor: Option<UserId>, unit: Option<UnitId>,
    amount: Option<real>, now: int): Db
    requires initial in g.states
  {
    var inst := Instance(initial, 1, 1, actor, unit, amount);
    var placed := Activated(g, db.(instances := db.instances[i := inst]), i, now);
    placed.(events := placed.events + [WfEvent(i, None, StartedEvent, Some(initial), actor, None, "", 0)])
  }

  // ---- executing --------------------------------------------------------------------------------

  datatype ActionRequest = ActionRequest(
    instance: InstanceId, action: Action, actor: UserId, hasComment: bool, key: string, expectedVersion: Option<int>)

  datatype ActionError =
    | InstanceNotFound | StaleVersion | StateConflict | TransitionNotAllowed | CommentRequired
    | AlreadyActed | NotAuthorized | SegregationOfDuties

  datatype ActionResult = Executed(db: Db, event: WfEvent) | Replayed(event: WfEvent) | Failed(error: ActionError)

  predicate AmountGuardPasses(t: Transition, amount: Option<real>) {
    && (t.minAmount.Some? ==> amount.Some? && amount.value >= t.minAmount.value)
    && (t.maxAmount.Some? ==> amount.Some? && amount.value <= t.maxAmount.value)
  }

  predicate Routes(t: Transition, inst: Instance, action: Action) {
    t.source == inst.current && t.action == action && AmountGuardPasses(t, inst.amount)
  }

  /** The first transition, in routing order, that the amount lets through. */
  function SelectTransition(transitions: seq<Transition>, inst: Instance, action: Action): Option<Transition> {
    if transitions == [] then None
    else if Routes(transitions[0], inst, action) then Some(transitions[0])
    else SelectTransition(transitions[1..], inst, action)
  }

  function FirstWithKey(events: seq<WfEvent>, i: InstanceId, key: string): Option<WfEvent> {
    if events == [] then None
    else if events[0].instance == i && events[0].key == key then Some(events[0])
    else FirstWithKey(events[1..], i, key)
  }

  /** The state's permission or, when that is missing or blank, the transition's. */
  function OrElse(state: Option<string>, transition: Option<string>): Option<string> {
    if state.Some? && state.value != "" then state else transition
  }

  predicate IsGateAction(a: Action) {
    a == Approve || a == Return || a == Reject
  }

  function ActiveIn(db: Db, gate: set<StepId>): set<StepId> {
    set s | s in gate && s in db.steps && db.steps[s].status == Active
  }

  predicate ActedIn(db: Db, gate: set<StepId>, actor: UserId) {
    exists s :: s in gate && s in db.steps && db.steps[s].status == Done && db.steps[s].actedBy == Some(actor)
  }

  /** The maker is no checker, and no two done slots of the gate share a checker. */
  predicate Segregated(db: Db, gate: set<StepId>, maker: UserId, actor: UserId) {
    && actor != maker
    && !ActedIn(db, gate, maker) && !ActedIn(db, gate, actor)
    && forall s, t :: s in gate && t in gate && s in db.steps && t in db.steps && s != t
                      && db.steps[s].status == Done && db.steps[t].status == Done && db.steps[s].actedBy.Some?
                      ==> db.steps[s].actedBy != db.steps[t].actedBy
  }

  /** Moves the instance, opens the gate it enters, and records the event. */
  function Finish(
    g: Graph, db: Db, r: ActionRequest, to: StateId, behalf: Option<UserId>, step: Option<StepId>,
    now: int): ActionResult
    requires r.instance in db.instances && to in g.states
  {
    var inst := db.instances[r.instance];
    var next := inst.(current := to, rowVersion := inst.rowVersion + 1,
                      revision := if r.action == Resubmit then inst.revision + 1 else inst.revision);
    var moved := db.(instances := db.instances[r.instance := next]);
    var entered := if to != inst.current then Activated(g, moved, r.instance, now) else moved;
    var event := WfEvent(r.instance, step, TransitionEvent, Some(to), Some(r.actor), behalf, r.key, 0);
    Executed(entered.(events := entered.events + [event]), event)
  }

  function Filled(db: Db, pick: StepId, actor: UserId, behalf: Option<UserId>): Db
    requires pick in db.steps
  {
    db.(steps := db.steps[pick := db.steps[pick].(status := Done, actedBy := Some(actor), onBehalfOf := behalf)])
  }

  function SkipRest(db: Db, gate: set<StepId>): Db {
    db.(steps := map s | s in db.steps ::
          if s in gate && db.steps[s].status == Active then db.steps[s].(status := Skipped) else db.steps[s])
  }

  function ApproveGate(g: Graph, a: Authorities, db: Db, r: ActionRequest, t: Transition, pick: StepId): ActionResult
    requires r.instance in db.instances && t.target in g.states && db.instances[r.instance].current in g.states
  {
    var inst := db.instances[r.instance];
    var gate := GateOf(db, r.instance);
    if ActedIn(db, gate, r.actor) || pick !in ActiveIn(db, gate) then Failed(AlreadyActed)
    else
      var step := db.steps[pick];
      var auth := Auth(a, r.actor, step.requiredPermission, step.orgUnit);
      if !auth.authorized then Failed(NotAuthorized)
      else if g.states[inst.current].enforceSegregation && inst.originator.Some?
              && !Segregated(db, gate, inst.originator.value, r.actor) then Failed(SegregationOfDuties)
      else
        var filled := Filled(db, pick, r.actor, auth.onBehalfOf);
        if JoinSatisfied(filled.steps, gate, step.joinType, step.quorumCount)
        then Finish(g, SkipRest(filled, gate), r, t.target, auth.onBehalfOf, Some(pick), a.now)
        else Finish(g, filled, r, inst.current, auth.onBehalfOf, Some(pick), a.now)
  }

  /** Return or reject: the gate's open steps are closed in the actor's name. */
  function ClosedSteps(db: Db, gate: set<StepId>, r: ActionRequest, behalf: Option<UserId>): map<StepId, Step> {
    map s | s in db.steps ::
      if s in gate && (db.steps[s].status == Active || db.steps[s].status == Pending)
      then
        var status := if r.action == Return then Returned else Skipped;
        db.steps[s].(status := status, actedBy := Some(r.actor), onBehalfOf := behalf)
      else db.steps[s]
  }

  function ResolveGate(g: Graph, a: Authorities, db: Db, r: ActionRequest, t: Transition): ActionResult
    requires r.instance in db.instances && t.target in g.states && db.instances[r.instance].current in g.states
  {
    var inst := db.instances[r.instance];
    var gate := GateOf(db, r.instance);
    var auth := Auth(a, r.actor, OrElse(g.states[inst.current].requiredPermission, t.requiredPermission), inst.orgUnit);
    if !auth.authorized then Failed(NotAuthorized)
    else
      Finish(g, db.(steps := ClosedSteps(db, gate, r, auth.onBehalfOf)), r, t.target, auth.onBehalfOf, None, a.now)
  }

  function OriginatorAuthority(a: Authorities, inst: Instance, t: Transition, actor: UserId): Authority {
    if inst.originator == Some(actor) then Authority(true, None)
    else Auth(a, actor, t.requiredPermission, inst.orgUnit)
  }

  ghost predicate KnownStates(g: Graph, db: Db) {
    && (forall i :: i in db.instances ==> db.instances[i].current in g.states)
    && (forall s :: s in g.states ==> g.states[s].id == s)
    && (forall t :: t in g.transitions ==> t.target in g.states)
  }

  lemma {:induction false} SelectedRoutes(transitions: seq<Transition>, inst: Instance, action: Action)
    ensures var t := SelectTransition(transitions, inst, action);
            t.Some? ==> t.value in transitions && Routes(t.value, inst, action)
    ensures SelectTransition(transitions, inst, action).None? <==>
              forall t :: t in transitions ==> !Routes(t, inst, action)
  {
    if transitions != [] {
      SelectedRoutes(transitions[1..], inst, action);
      assert forall t :: t in transitions <==> t == transitions[0] || t in transitions[1..];
    }
  }

  function ExecuteAction(g: Graph, a: Authorities, db: Db, r: ActionRequest, pick: StepId): ActionResult
    requires KnownStates(g, db)
  {
    if r.instance !in db.instances then Failed(InstanceNotFound)
    else
      var inst := db.instances[r.instance];
      var replay := if r.key == "" then None else FirstWithKey(db.events, r.instance, r.key);
      if replay.Some? then Replayed(replay.value)
      else if r.expectedVersion.Some? && r.expectedVersion.value != inst.rowVersion then Failed(StaleVersion)
      else if g.states[inst.current].kind == Terminal then Failed(StateConflict)
      else
        var t := SelectTransition(g.transitions, inst, r.action);
        SelectedRoutes(g.transitions, inst, r.action);
        if t.None? then Failed(TransitionNotAllowed)
        else if (t.value.requiresComment || g.states[inst.current].requiresComment) && !r.hasComment
          then Failed(CommentRequired)
        else if r.action == Approve then ApproveGate(g, a, db, r, t.value, pick)
        else if IsGateAction(r.action) then ResolveGate(g, a, db, r, t.value)
        else
          var auth := OriginatorAuthority(a, inst, t.value, r.actor);
          if !auth.authorized then Failed(NotAuthorized)
          else Finish(g, db, r, t.value.target, auth.onBehalfOf, None, a.now)
  }

  // ---- retries ---------------------------------------------------------------------------------

  lemma {:induction false} AppendedKeyIsFirst(events: seq<WfEvent>, e: WfEvent)
    requires FirstWithKey(events, e.instance, e.key).None?
    ensures FirstWithKey(events + [e], e.instance, e.key) == Some(e)
  {
    if events == [] {
      assert (events + [e])[0] == e;
    } else {
      AppendedKeyIsFirst(events[1..], e);
      assert (events + [e])[0] == events[0] && (events + [e])[1..] == events[1..] + [e];
    }
  }

  /** An executed action edits steps of its own gate, and then finishes. */
  lemma ExecutedForm(g: Graph, a: Authorities, db: Db, r: ActionRequest, pick: StepId)
    returns (mid: Db, to: StateId, behalf: Option<UserId>, step: Option<StepId>)
    requires KnownStates(g, db) && ExecuteAction(g, a, db, r, pick).Executed?
    ensures r.instance in db.instances && mid == db.(steps := mid.steps) && to in g.states
    ensures ExecuteAction(g, a, db, r, pick) == Finish(g, mid, r, to, behalf, step, a.now)
    ensures mid.steps == GateEdited(g, a, db, r, pick)
    ensures var t := SelectTransition(g.transitions, db.instances[r.instance], r.action);
            t.Some? && (to == t.value.target || (r.action == Approve && to == db.instances[r.instance].current))
    ensures step == if r.action == Approve then Some(pick) else None
    ensures pick in db.steps || r.action != Approve
    ensures behalf == ActsFor(g, a, db, r, pick)
  {
    var inst := db.instances[r.instance];
    SelectedRoutes(g.transitions, inst, r.action);
    var t := SelectTransition(g.transitions, inst, r.action).value;
    to := t.target;
    step := None;
    mid := db.(steps := GateEdited(g, a, db, r, pick));
    if r.action == Approve {
      behalf := Auth(a, r.actor, db.steps[pick].requiredPermission, db.steps[pick].orgUnit).onBehalfOf;
      step := Some(pick);
      var filled := Filled(db, pick, r.actor, behalf);
      if !JoinSatisfied(filled.steps, GateOf(db, r.instance), db.steps[pick].joinType, db.steps[pick].quorumCount) {
        to := inst.current;
      }
    } else if IsGateAction(r.action) {
      var perm := OrElse(g.states[inst.current].requiredPermission, t.requiredPermission);
      behalf := Auth(a, r.actor, perm, inst.orgUnit).onBehalfOf;
    } else {
      behalf := OriginatorAuthority(a, inst, t, r.actor).onBehalfOf;
      assert db.(steps := db.steps) == db;
    }
  }

  /** For whom an accepted action is recorded. */
  ghost function ActsFor(g: Graph, a: Authorities, db: Db, r: ActionRequest, pick: StepId): Option<UserId>
    requires KnownStates(g, db) && r.instance in db.instances && (r.action == Approve ==> pick in db.steps)
  {
    var inst := db.instances[r.instance];
    var t := SelectTransition(g.transitions, inst, r.action);
    if r.action == Approve then Auth(a, r.actor, db.steps[pick].requiredPermission, db.steps[pick].orgUnit).onBehalfOf
    else if t.None? then None
    else if IsGateAction(r.action) then
      var perm := OrElse(g.states[inst.current].requiredPermission, t.value.requiredPermission);
      Auth(a, r.actor, perm, inst.orgUnit).onBehalfOf
    else OriginatorAuthority(a, inst, t.value, r.actor).onBehalfOf
  }

  /** What an executed action leaves of the step rows, before any new gate opens. */
  ghost function GateEdited(g: Graph, a: Authorities, db: Db, r: ActionRequest, pick: StepId): map<StepId, Step>
    requires KnownStates(g, db) && r.instance in db.instances
  {
    var inst := db.instances[r.instance];
    var gate := GateOf(db, r.instance);
    if r.action == Approve then
      if pick !in db.steps then db.steps
      else
        var step := db.steps[pick];
        var filled := Filled(db, pick, r.actor, Auth(a, r.actor, step.requiredPermission, step.orgUnit).onBehalfOf);
        if JoinSatisfied(filled.steps, gate, step.joinType, step.quorumCount)
          then SkipRest(filled, gate).steps else filled.steps
    else if IsGateAction(r.action) then
      var t := SelectTransition(g.transitions, inst, r.action);
      var own := if t.Some? then t.value.requiredPermission else None;
      var perm := OrElse(g.states[inst.current].requiredPermission, own);
      ClosedSteps(db, gate, r, Auth(a, r.actor, perm, inst.orgUnit).onBehalfOf)
    else db.steps
  }

  lemma FinishEffect(
    g: Graph, db: Db, r: ActionRequest, to: StateId, behalf: Option<UserId>, step: Option<StepId>, now: int)
    requires r.instance in db.instances && to in g.states
    ensures var x := Finish(g, db, r, to, behalf, step, now);
            && x.Executed? && r.instance in x.db.instances
            && x.event == WfEvent(r.instance, step, TransitionEvent, Some(to), Some(r.actor), behalf, r.key, 0)
            && x.db.events == db.events + [x.event]
            && x.db.instances == db.instances[r.instance := x.db.instances[r.instance]]
            && var old_, new_ := db.instances[r.instance], x.db.instances[r.instance];
               new_ == old_.(current := to, rowVersion := old_.rowVersion + 1, revision := new_.revision)
  {
  }

  /** An executed action bumps the row version and records where it moved the instance. */
  lemma ExecutedEffect(g: Graph, a: Authorities, db: Db, r: ActionRequest, pick: StepId)
    requires KnownStates(g, db) && ExecuteAction(g, a, db, r, pick).Executed?
    ensures var x := ExecuteAction(g, a, db, r, pick);
            && r.instance in db.instances && r.instance in x.db.instances
            && x.db.events == db.events + [x.event]
            && x.event.instance == r.instance && x.event.kind == TransitionEvent && x.event.key == r.key
            && x.event.toState == Some(x.db.instances[r.instance].current)
            && KnownStates(g, x.db)
            && x.db.instances[r.instance].rowVersion == db.instances[r.instance].rowVersion + 1
  {
    var mid, to, behalf, step := ExecutedForm(g, a, db, r, pick);
    FinishEffect(g, mid, r, to, behalf, step, a.now);
  }

  /** A retry with the same key returns the recorded event and changes nothing, whatever
      else the request says and whoever sends it. */
  lemma RetryReplays(
    g: Graph, a: Authorities, a': Authorities, db: Db, r: ActionRequest, r': ActionRequest, pick: StepId, pick': StepId)
    requires KnownStates(g, db) && ExecuteAction(g, a, db, r, pick).Executed?
    requires r.key != "" && r'.key == r.key && r'.instance == r.instance
    ensures KnownStates(g, ExecuteAction(g, a, db, r, pick).db)
    ensures ExecuteAction(g, a', ExecuteAction(g, a, db, r, pick).db, r', pick')
            == Replayed(ExecuteAction(g, a, db, r, pick).event)
  {
    ExecutedEffect(g, a, db, r, pick);
    AppendedKeyIsFirst(db.events, ExecuteAction(g, a, db, r, pick).event);
  }

  /** Of two actions sent with the same expected version, the second is refused. */
  lemma SecondRacerIsStale(
    g: Graph, a: Authorities, a': Authorities, db: Db, r: ActionRequest, r': ActionRequest, pick: StepId, pick': StepId)
    requires KnownStates(g, db) && ExecuteAction(g, a, db, r, pick).Executed?
    requires r.expectedVersion.Some? && r'.expectedVersion == r.expectedVersion && r'.instance == r.instance
    requires r'.key == ""
    ensures KnownStates(g, ExecuteAction(g, a, db, r, pick).db)
    ensures ExecuteAction(g, a', ExecuteAction(g, a, db, r, pick).db, r', pick') == Failed(StaleVersion)
  {
    ExecutedEffect(g, a, db, r, pick);
  }
}
