/** Every run of the workflow engine: instances started, actions executed, and concurrent
    escalation sweeps that skip locked rows and commit or abort. */
module WorkflowRuns {
  import opened Collections
  import opened OrgScopes
  import opened WorkflowGraph
  import opened WorkflowEngine

  // ---- the sweep -------------------------------------------------------------------------

  predicate IsDue(step: Step, now: int) {
    step.status == Active && step.escalationLevel == 0 && step.slaDueAt.Some? && step.slaDueAt.value <= now
  }

  function DueSteps(db: Db, now: int): set<StepId> {
    set s | s in db.steps && IsDue(db.steps[s], now)
  }

  /** What `SELECT ... ORDER BY id LIMIT n FOR UPDATE SKIP LOCKED` returns. */
  ghost predicate IsSelection(db: Db, locked: set<StepId>, now: int, limit: nat, ids: seq<StepId>) {
    && (forall i, j :: 0 <= i < j < |ids| ==> ids[i] < ids[j])
    && (forall i :: 0 <= i < |ids| ==> ids[i] in DueSteps(db, now) && ids[i] !in locked)
    && |ids| <= limit
    && (|ids| < limit ==> forall s :: s in DueSteps(db, now) && s !in locked ==> s in ids)
    && (forall s, i :: s in DueSteps(db, now) && s !in locked && s !in ids && 0 <= i < |ids| ==> ids[i] < s)
  }

  function EscalationOf(db: Db, s: StepId): WfEvent
    requires s in db.steps
  {
    WfEvent(db.steps[s].instance, Some(s), EscalationEvent, None, None, None, "", db.steps[s].escalationLevel + 1)
  }

  function Escalated(db: Db, s: StepId): Db
    requires s in db.steps
  {
    db.(steps := db.steps[s := db.steps[s].(escalationLevel := db.steps[s].escalationLevel + 1)],
        events := db.events + [EscalationOf(db, s)])
  }

  function EscalatedAll(db: Db, ids: seq<StepId>): (db': Db)
    requires forall s :: s in ids ==> s in db.steps
    ensures db'.steps.Keys == db.steps.Keys
    decreases |ids|
  {
    if ids == [] then db else Escalated(EscalatedAll(db, ids[..|ids| - 1]), ids[|ids| - 1])
  }

  /** The loop of the sweep: one event per step, and its level raised. */
  method SweepDueSteps(db: Db, ids: seq<StepId>) returns (db': Db)
    requires forall s :: s in ids ==> s in db.steps
    ensures db' == EscalatedAll(db, ids)
  {
    db' := db;
    for n := 0 to |ids|
      invariant db' == EscalatedAll(db, ids[..n])
    {
      assert ids[..n + 1][..n] == ids[..n];
      var s := ids[n];
      assert s in ids;
      var level := db'.steps[s].escalationLevel + 1;
      var event := WfEvent(db'.steps[s].instance, Some(s), EscalationEvent, None, None, None, "", level);
      db' := db'.(steps := db'.steps[s := db'.steps[s].(escalationLevel := level)], events := db'.events + [event]);
    }
    assert ids[..|ids|] == ids;
  }

  // ---- counting escalations -------------------------------------------------------------------

  function Escalations(events: seq<WfEvent>, s: StepId): nat {
    if events == [] then 0
    else
      var last := events[|events| - 1];
      (if last.kind == EscalationEvent && last.step == Some(s) then 1 else 0) + Escalations(events[..|events| - 1], s)
  }

  /** A step's escalation events are as many as its level says, and never more than one. */
  ghost predicate EscalatedOnce(db: Db) {
    && (forall s :: s in db.steps ==> Escalations(db.events, s) == db.steps[s].escalationLevel <= 1)
    && (forall s :: s !in db.steps ==> Escalations(db.events, s) == 0)
  }

  /** `db'` differs from `db` in the level of the steps `ids` and in one escalation event
      for each of them; no instance, step status or folded state changed. */
  ghost predicate LevelsRaised(db: Db, db': Db, ids: seq<StepId>) {
    && db'.instances == db.instances && db'.nextStep == db.nextStep && db'.steps.Keys == db.steps.Keys
    && (forall s :: s in db.steps ==> db'.steps[s] == Raised(db.steps[s], if s in ids then 1 else 0))
    && (forall i :: Folded(db'.events, i) == Folded(db.events, i))
    && (forall s :: Escalations(db'.events, s) == Escalations(db.events, s) + if s in ids then 1 else 0)
  }

  function Raised(step: Step, levels: nat): Step {
    step.(escalationLevel := step.escalationLevel + levels)
  }

  lemma RaiseOneMore(db: Db, mid: Db, ids: seq<StepId>, last: StepId)
    requires LevelsRaised(db, mid, ids) && last in db.steps && last !in ids
    ensures LevelsRaised(db, Escalated(mid, last), ids + [last])
  {
    var e := EscalationOf(mid, last);
    forall i ensures Folded(mid.events + [e], i) == Folded(mid.events, i) {
    }
    forall s ensures Escalations(mid.events + [e], s) == Escalations(mid.events, s) + if s == last then 1 else 0 {
    }
    assert forall s :: s in ids + [last] <==> s in ids || s == last;
  }

  lemma {:induction false} EscalatingRaisesLevels(db: Db, ids: seq<StepId>)
    requires forall s :: s in ids ==> s in db.steps
    requires forall i, j :: 0 <= i < j < |ids| ==> ids[i] != ids[j]
    ensures LevelsRaised(db, EscalatedAll(db, ids), ids)
    decreases |ids|
  {
    if ids != [] {
      var n := |ids| - 1;
      EscalatingRaisesLevels(db, ids[..n]);
      assert ids == ids[..n] + [ids[n]] && ids[n] !in ids[..n];
      RaiseOneMore(db, EscalatedAll(db, ids[..n]), ids[..n], ids[n]);
    }
  }

  // ---- what every run keeps ----------------------------------------------------------------------

  /** Steps are pinned to their state and instance, and their ids are below the next one. */
  ghost predicate Pinned(g: Graph, db: Db) {
    forall s :: s in db.steps ==>
      && s < db.nextStep && db.steps[s].instance in db.instances && db.steps[s].state in g.states
      && db.steps[s].requiredPermission == g.states[db.steps[s].state].requiredPermission
      && db.steps[s].orgUnit == db.instances[db.steps[s].instance].orgUnit
  }

  /** Two done slots of one gate activation. */
  predicate BothDone(a: Step, b: Step) {
    && a.instance == b.instance && a.state == b.state && a.revision == b.revision
    && a.status == Done && b.status == Done
  }

  /** No person fills two slots of one gate activation, and where the state enforces
      segregation the originator fills none. */
  ghost predicate DutiesSegregated(g: Graph, db: Db) {
    && (forall s :: s in db.steps && db.steps[s].status == Done ==> SlotIsProper(g, db, s))
    && (forall s, t :: s in db.steps && t in db.steps && s != t && BothDone(db.steps[s], db.steps[t])
                       ==> db.steps[s].actedBy != db.steps[t].actedBy)
  }

  ghost predicate SlotIsProper(g: Graph, db: Db, s: StepId)
    requires s in db.steps
  {
    var step := db.steps[s];
    && step.actedBy.Some? && step.state in g.states && step.instance in db.instances
    && (g.states[step.state].enforceSegregation ==> step.actedBy != db.instances[step.instance].originator)
  }

  ghost predicate DbInv(g: Graph, db: Db) {
    KnownStates(g, db) && Consistent(db) && Pinned(g, db) && DutiesSegregated(g, db) && EscalatedOnce(db)
  }

  // ---- executing keeps it ---------------------------------------------------------------------------

  /** `steps'` fills at most one open slot of the gate, in the actor's name and properly, and
      otherwise only closes slots that were not done. */
  ghost predicate ProperEdit(g: Graph, db: Db, steps': map<StepId, Step>, gate: set<StepId>, actor: UserId) {
    && steps'.Keys == db.steps.Keys
    && (forall s :: s in db.steps ==>
          && (s !in gate ==> steps'[s] == db.steps[s])
          && steps'[s] == db.steps[s].(status := steps'[s].status, actedBy := steps'[s].actedBy,
                                       onBehalfOf := steps'[s].onBehalfOf)
          && (db.steps[s].status == Done ==> steps'[s] == db.steps[s])
          && (steps'[s].status == Done && db.steps[s].status != Done ==> NewlyFilled(g, db, gate, s, steps'[s], actor)))
    && (forall s, t :: s in db.steps && t in db.steps && s != t && steps'[s].status == Done && steps'[t].status == Done
                       ==> db.steps[s].status == Done || db.steps[t].status == Done)
  }

  ghost predicate NewlyFilled(g: Graph, db: Db, gate: set<StepId>, s: StepId, filled: Step, actor: UserId)
    requires s in db.steps
  {
    && s in gate && filled.actedBy == Some(actor) && !ActedIn(db, gate, actor)
    && filled.state in g.states && filled.instance in db.instances
    && (g.states[filled.state].enforceSegregation ==> Some(actor) != db.instances[filled.instance].originator)
  }

  lemma ApprovalIsProper(g: Graph, a: Authorities, db: Db, r: ActionRequest, pick: StepId)
    requires KnownStates(g, db) && r.action == Approve && ExecuteAction(g, a, db, r, pick).Executed?
    ensures r.instance in db.instances
    ensures pick in ActiveIn(db, GateOf(db, r.instance)) && !ActedIn(db, GateOf(db, r.instance), r.actor)
    ensures g.states[db.instances[r.instance].current].enforceSegregation ==>
              Some(r.actor) != db.instances[r.instance].originator
  {
    SelectedRoutes(g.transitions, db.instances[r.instance], r.action);
  }

  lemma FillIsProper(g: Graph, db: Db, i: InstanceId, pick: StepId, actor: UserId, behalf: Option<UserId>)
    requires KnownStates(g, db) && i in db.instances
    requires pick in ActiveIn(db, GateOf(db, i)) && !ActedIn(db, GateOf(db, i), actor)
    requires g.states[db.instances[i].current].enforceSegregation ==> Some(actor) != db.instances[i].originator
    ensures ProperEdit(g, db, Filled(db, pick, actor, behalf).steps, GateOf(db, i), actor)
    ensures ProperEdit(g, db, SkipRest(Filled(db, pick, actor, behalf), GateOf(db, i)).steps, GateOf(db, i), actor)
  {
    assert db.steps[pick].state == db.instances[i].current && db.steps[pick].instance == i;
  }

  lemma GateEditIsProper(g: Graph, a: Authorities, db: Db, r: ActionRequest, pick: StepId)
    requires KnownStates(g, db) && ExecuteAction(g, a, db, r, pick).Executed?
    ensures r.instance in db.instances
    ensures ProperEdit(g, db, GateEdited(g, a, db, r, pick), GateOf(db, r.instance), r.actor)
  {
    if r.action == Approve {
      ApprovalIsProper(g, a, db, r, pick);
      FillIsProper(g, db, r.instance, pick, r.actor,
          Auth(a, r.actor, db.steps[pick].requiredPermission, db.steps[pick].orgUnit).onBehalfOf);
    }
  }

  lemma ProperEditKeepsDuties(g: Graph, db: Db, steps': map<StepId, Step>, i: InstanceId, actor: UserId)
    requires i in db.instances && DutiesSegregated(g, db) && Pinned(g, db)
    requires ProperEdit(g, db, steps', GateOf(db, i), actor)
    ensures DutiesSegregated(g, db.(steps := steps')) && Pinned(g, db.(steps := steps'))
  {
    var mid := db.(steps := steps');
    forall s | s in mid.steps && mid.steps[s].status == Done ensures SlotIsProper(g, mid, s) {
      assert db.steps[s].status == Done ==> SlotIsProper(g, db, s);
    }
    forall s, t | s in mid.steps && t in mid.steps && s != t && BothDone(mid.steps[s], mid.steps[t])
      ensures mid.steps[s].actedBy != mid.steps[t].actedBy
    {
      if db.steps[s].status == Done && db.steps[t].status == Done {
        assert BothDone(db.steps[s], db.steps[t]);
      } else if db.steps[s].status == Done {
        NewSlotDiffers(g, db, i, steps', t, s, actor);
      } else {
        NewSlotDiffers(g, db, i, steps', s, t, actor);
      }
    }
  }

  lemma NewSlotDiffers(g: Graph, db: Db, i: InstanceId, steps': map<StepId, Step>, s: StepId, t: StepId, actor: UserId)
    requires i in db.instances && ProperEdit(g, db, steps', GateOf(db, i), actor)
    requires s in db.steps && t in db.steps && db.steps[s].status != Done && db.steps[t].status == Done
    requires BothDone(steps'[s], steps'[t])
    ensures steps'[s].actedBy != steps'[t].actedBy
  {
    assert NewlyFilled(g, db, GateOf(db, i), s, steps'[s], actor);
    assert t in GateOf(db, i);
  }

  lemma ProperEditKeepsInv(g: Graph, db: Db, steps': map<StepId, Step>, i: InstanceId, actor: UserId)
    requires i in db.instances && DbInv(g, db) && ProperEdit(g, db, steps', GateOf(db, i), actor)
    ensures DbInv(g, db.(steps := steps'))
  {
    ProperEditKeepsDuties(g, db, steps', i, actor);
    assert forall s :: s in db.steps ==> steps'[s].escalationLevel == db.steps[s].escalationLevel;
  }

  /** Opening a gate only adds active steps, pinned and not escalated. */
  lemma ActivatedKeeps(g: Graph, db: Db, i: InstanceId, now: int)
    requires i in db.instances && DbInv(g, db)
    ensures DbInv(g, Activated(g, db, i, now))
  {
    var db' := Activated(g, db, i, now);
    AddedActiveKeeps(g, db, db');
  }

  lemma AddedActiveKeeps(g: Graph, db: Db, db': Db)
    requires DbInv(g, db)
    requires db'.instances == db.instances && db'.events == db.events && db'.nextStep >= db.nextStep
    requires forall s :: s in db.steps ==> s in db'.steps && db'.steps[s] == db.steps[s]
    requires forall s :: s in db'.steps && s !in db.steps ==> AddedActive(g, db', s)
    ensures DbInv(g, db')
  {
    assert Consistent(db') && KnownStates(g, db');
    forall s | s in db'.steps && db'.steps[s].status == Done ensures SlotIsProper(g, db', s) {
      assert SlotIsProper(g, db, s);
    }
    forall s, t | s in db'.steps && t in db'.steps && s != t && BothDone(db'.steps[s], db'.steps[t])
      ensures db'.steps[s].actedBy != db'.steps[t].actedBy
    {
      assert s in db.steps && t in db.steps && BothDone(db.steps[s], db.steps[t]);
    }
  }

  /** A slot that is open, not escalated, and pinned. */
  ghost predicate AddedActive(g: Graph, db: Db, s: StepId)
    requires s in db.steps
  {
    var step := db.steps[s];
    && step.status == Active && step.escalationLevel == 0
    && s < db.nextStep && step.instance in db.instances && step.state in g.states
    && step.requiredPermission == g.states[step.state].requiredPermission
    && step.orgUnit == db.instances[step.instance].orgUnit
  }

  /** Duties and pins read nothing of an instance that moving it writes. */
  lemma PlaceDoesNotMatter(g: Graph, db: Db, i: InstanceId, inst: Instance, db': Db)
    requires Pinned(g, db) && DutiesSegregated(g, db)
    requires i in db.instances ==>
               inst.orgUnit == db.instances[i].orgUnit && inst.originator == db.instances[i].originator
    requires db'.instances == db.instances[i := inst] && db'.steps == db.steps && db'.nextStep == db.nextStep
    ensures Pinned(g, db') && DutiesSegregated(g, db')
  {
    forall s | s in db'.steps && db'.steps[s].status == Done ensures SlotIsProper(g, db', s) {
      assert SlotIsProper(g, db, s);
    }
  }

  /** Moving an instance and recording the move, without opening a gate. */
  lemma MoveKeeps(g: Graph, db: Db, i: InstanceId, inst: Instance, e: WfEvent)
    requires DbInv(g, db) && inst.current in g.states
    requires i in db.instances ==>
               inst.orgUnit == db.instances[i].orgUnit && inst.originator == db.instances[i].originator
    requires e.instance == i && e.toState == Some(inst.current) && (e.kind == TransitionEvent || e.kind == StartedEvent)
    ensures DbInv(g, db.(instances := db.instances[i := inst], events := db.events + [e]))
  {
    var db' := db.(instances := db.instances[i := inst], events := db.events + [e]);
    PlaceDoesNotMatter(g, db, i, inst, db');
    assert EscalatedOnce(db.(events := db.events + [e]));
  }

  lemma ActivatedBeforeEvent(g: Graph, db: Db, i: InstanceId, now: int, events: seq<WfEvent>)
    requires i in db.instances && db.instances[i].current in g.states
    ensures Activated(g, db, i, now).(events := events) == Activated(g, db.(events := events), i, now)
    ensures Activated(g, db, i, now).events == db.events
  {
  }

  /** Finishing is moving and recording, and then opening the gate that was entered. */
  lemma FinishIsMoveThenOpen(
    g: Graph, db: Db, r: ActionRequest, to: StateId, behalf: Option<UserId>, step: Option<StepId>, now: int)
    returns (next: Instance, recorded: Db)
    requires r.instance in db.instances && to in g.states
    ensures var e := WfEvent(r.instance, step, TransitionEvent, Some(to), Some(r.actor), behalf, r.key, 0);
            recorded == db.(instances := db.instances[r.instance := next], events := db.events + [e])
    ensures next == db.instances[r.instance].(current := to, rowVersion := next.rowVersion, revision := next.revision)
    ensures next.revision == db.instances[r.instance].revision + if r.action == Resubmit then 1 else 0
    ensures Finish(g, db, r, to, behalf, step, now).db
         == if to == db.instances[r.instance].current then recorded else Activated(g, recorded, r.instance, now)
  {
    var inst := db.instances[r.instance];
    next := inst.(current := to, rowVersion := inst.rowVersion + 1,
                  revision := if r.action == Resubmit then inst.revision + 1 else inst.revision);
    var events := db.events + [WfEvent(r.instance, step, TransitionEvent, Some(to), Some(r.actor), behalf, r.key, 0)];
    var moved := db.(instances := db.instances[r.instance := next]);
    recorded := db.(instances := db.instances[r.instance := next], events := events);
    ActivatedBeforeEvent(g, moved, r.instance, now, events);
    assert moved.(events := events) == recorded;
  }

  lemma FinishKeeps(
    g: Graph, db: Db, r: ActionRequest, to: StateId, behalf: Option<UserId>, step: Option<StepId>, now: int, db': Db)
    requires DbInv(g, db) && r.instance in db.instances && to in g.states
    requires db' == Finish(g, db, r, to, behalf, step, now).db
    ensures DbInv(g, db')
  {
    var next, recorded := FinishIsMoveThenOpen(g, db, r, to, behalf, step, now);
    MoveKeeps(g, db, r.instance, next,
        WfEvent(r.instance, step, TransitionEvent, Some(to), Some(r.actor), behalf, r.key, 0));
    if to == db.instances[r.instance].current {
      assert db' == recorded;
    } else {
      ActivatedKeeps(g, recorded, r.instance, now);
      assert db' == Activated(g, recorded, r.instance, now);
    }
  }

  /** Executing an action keeps the log and the read-model in step, the steps pinned, the
      duties segregated and the escalations counted. */
  lemma ExecuteKeeps(g: Graph, a: Authorities, db: Db, r: ActionRequest, pick: StepId)
    requires DbInv(g, db) && ExecuteAction(g, a, db, r, pick).Executed?
    ensures DbInv(g, ExecuteAction(g, a, db, r, pick).db)
  {
    var mid, to, behalf, step := ExecutedForm(g, a, db, r, pick);
    GateEditIsProper(g, a, db, r, pick);
    ProperEditKeepsInv(g, db, mid.steps, r.instance, r.actor);
    FinishKeeps(g, mid, r, to, behalf, step, a.now, ExecuteAction(g, a, db, r, pick).db);
  }

  lemma StartKeeps(
    g: Graph, db: Db, i: InstanceId, initial: StateId, actor: Option<UserId>, unit: Option<UnitId>,
    amount: Option<real>, now: int)
    requires DbInv(g, db) && i !in db.instances && initial in g.states
    ensures DbInv(g, Started(g, db, i, initial, actor, unit, amount, now))
  {
    var inst := Instance(initial, 1, 1, actor, unit, amount);
    var e := WfEvent(i, None, StartedEvent, Some(initial), actor, None, "", 0);
    var moved := db.(instances := db.instances[i := inst]);
    var recorded := moved.(events := db.events + [e]);
    MoveKeeps(g, db, i, inst, e);
    assert recorded == db.(instances := db.instances[i := inst], events := db.events + [e]);
    ActivatedBeforeEvent(g, moved, i, now, db.events + [e]);
    ActivatedKeeps(g, recorded, i, now);
  }

  /** Duties and pins read nothing of a step that a sweep writes. */
  lemma LevelsDoNotMatter(g: Graph, db: Db, db': Db)
    requires Pinned(g, db) && DutiesSegregated(g, db)
    requires db'.instances == db.instances && db'.nextStep == db.nextStep && db'.steps.Keys == db.steps.Keys
    requires forall s :: s in db.steps ==> db'.steps[s] == db.steps[s].(escalationLevel := db'.steps[s].escalationLevel)
    ensures Pinned(g, db') && DutiesSegregated(g, db')
  {
    forall s | s in db'.steps && db'.steps[s].status == Done ensures SlotIsProper(g, db', s) {
      assert SlotIsProper(g, db, s);
    }
    forall s, t | s in db'.steps && t in db'.steps && s != t && BothDone(db'.steps[s], db'.steps[t])
      ensures db'.steps[s].actedBy != db'.steps[t].actedBy
    {
      assert BothDone(db.steps[s], db.steps[t]);
    }
  }

  lemma RaisingOnce(db: Db, db': Db, ids: seq<StepId>)
    requires EscalatedOnce(db) && LevelsRaised(db, db', ids)
    requires forall s :: s in ids ==> s in db.steps && db.steps[s].escalationLevel == 0
    ensures EscalatedOnce(db')
    ensures forall s :: s in db.steps ==> db'.steps[s] == db.steps[s].(escalationLevel := db'.steps[s].escalationLevel)
  {
  }

  lemma SweepKeeps(g: Graph, db: Db, ids: seq<StepId>)
    requires DbInv(g, db) && (forall i, j :: 0 <= i < j < |ids| ==> ids[i] != ids[j])
    requires forall s :: s in ids ==> s in db.steps && db.steps[s].escalationLevel == 0
    ensures DbInv(g, EscalatedAll(db, ids))
  {
    EscalatingRaisesLevels(db, ids);
    var db' := EscalatedAll(db, ids);
    RaisingOnce(db, db', ids);
    LevelsDoNotMatter(g, db, db');
  }
}
