/** What an accepted action, a start and a sweep leave behind, row by row. */
module ActionEffects {
  import opened Collections
  import opened OrgScopes
  import opened WorkflowGraph
  import opened WorkflowEngine
  import opened WorkflowRuns
  import opened Approvals
  import opened ActionLaws

  // ---- where an action leads ----------------------------------------------------------------

  /** An accepted action was admitted, by the transition that is returned. */
  lemma ExecutedWasAdmitted(g: Graph, a: Authorities, db: Db, r: ActionRequest, pick: StepId) returns (n: nat)
    requires KnownStates(g, db) && ExecuteAction(g, a, db, r, pick).Executed?
    ensures Admitted(g, db, r, n)
  {
    AnswersInOrder(g, a, db, r, pick);
    var inst := db.instances[r.instance];
    n := SelectedIsFirst(g.transitions, inst, r.action);
    SelectedRoutes(g.transitions, inst, r.action);
    assert !Uncommented(g, db, r, n);
  }

  /** The instance after an accepted action: in the state where its transition leads, unless an
      approval leaves the gate waiting; one version on; one revision on after a resubmit; and
      otherwise as it was. No other instance changes. */
  lemma ActionLeads(g: Graph, a: Authorities, db: Db, r: ActionRequest, pick: StepId, n: nat)
    requires KnownStates(g, db) && ExecuteAction(g, a, db, r, pick).Executed? && Admitted(g, db, r, n)
    ensures var db', i, inst := ExecuteAction(g, a, db, r, pick).db, r.instance, db.instances[r.instance];
            && i in db'.instances && db'.instances == db.instances[i := db'.instances[i]]
            && (r.action != Approve ==> db'.instances[i].current == g.transitions[n].target)
            && (r.action == Approve ==> db'.instances[i].current in {g.transitions[n].target, inst.current})
            && db'.instances[i] == Instance(
                 db'.instances[i].current, inst.rowVersion + 1, inst.revision + (if r.action == Resubmit then 1 else 0),
                 inst.originator, inst.orgUnit, inst.amount)
  {
    AdmittedIsRouted(g, db, r, n);
    var mid, to, behalf, step := ExecutedForm(g, a, db, r, pick);
    FinishEffect(g, mid, r, to, behalf, step, a.now);
    var next, recorded := FinishIsMoveThenOpen(g, mid, r, to, behalf, step, a.now);
  }

  // ---- what is recorded ------------------------------------------------------------------------

  /** Nobody is acted for exactly when nothing is asked for or the actor holds it; otherwise it is
      somebody who lends it. */
  ghost predicate RightlyFor(
    a: Authorities, actor: UserId, perm: Option<string>, unit: Option<UnitId>, behalf: Option<UserId>)
  {
    && (behalf.None? <==> perm.None? || HoldsOver(a.units, a.grants, actor, perm.value, unit, a.clock))
    && (behalf.Some? ==>
          exists d :: d in a.delegations && d.delegator == behalf.value
                      && LendsOver(a.units, a.grants, d, actor, perm.value, unit, a.definition, a.now, a.clock))
  }

  lemma AuthIsRightlyFor(a: Authorities, actor: UserId, perm: Option<string>, unit: Option<UnitId>)
    requires Auth(a, actor, perm, unit).authorized
    ensures RightlyFor(a, actor, perm, unit, Auth(a, actor, perm, unit).onBehalfOf)
  {
    AuthorityIsSpelledOut(a.units, a.grants, a.delegations, actor, perm, unit, a.definition, a.now, a.clock);
  }

  /** One event is added: of this instance, by this actor, under this key, to the state where the
      instance now stands, at the filled slot of an approval, and for whom it was done. */
  lemma ActionRecords(g: Graph, a: Authorities, db: Db, r: ActionRequest, pick: StepId, n: nat, perm: Option<string>)
    requires KnownStates(g, db) && ExecuteAction(g, a, db, r, pick).Executed? && Admitted(g, db, r, n)
    requires IsGatePermission(g, db.instances[r.instance], n, perm)
    ensures var x, inst := ExecuteAction(g, a, db, r, pick), db.instances[r.instance];
            var behalf, step := x.event.onBehalfOf, if r.action == Approve then Some(pick) else None;
            && x.db.events == db.events + [x.event] && r.instance in x.db.instances
            && x.event == WfEvent(r.instance, step, TransitionEvent, Some(x.db.instances[r.instance].current),
                                  Some(r.actor), behalf, r.key, 0)
            && (r.action == Approve ==>
                  && pick in db.steps
                  && RightlyFor(a, r.actor, db.steps[pick].requiredPermission, db.steps[pick].orgUnit, behalf))
            && (r.action == Return || r.action == Reject ==> RightlyFor(a, r.actor, perm, inst.orgUnit, behalf))
            && (r.action != Approve && r.action != Return && r.action != Reject ==>
                  if inst.originator == Some(r.actor) then behalf == None
                  else RightlyFor(a, r.actor, g.transitions[n].requiredPermission, inst.orgUnit, behalf))
  {
    var inst := db.instances[r.instance];
    AdmittedIsRouted(g, db, r, n);
    SelectedRoutes(g.transitions, inst, r.action);
    var mid, to, behalf, step := ExecutedForm(g, a, db, r, pick);
    FinishEffect(g, mid, r, to, behalf, step, a.now);
    if r.action == Approve {
      AuthIsRightlyFor(a, r.actor, db.steps[pick].requiredPermission, db.steps[pick].orgUnit);
    } else if r.action == Return || r.action == Reject {
      AuthIsRightlyFor(a, r.actor, perm, inst.orgUnit);
    } else if inst.originator != Some(r.actor) {
      AuthIsRightlyFor(a, r.actor, g.transitions[n].requiredPermission, inst.orgUnit);
    }
  }

  // ---- the slots there were ------------------------------------------------------------------------

  /** The approval is the one that makes the gate pass. */
  ghost predicate IsEnough(db: Db, i: InstanceId, pick: StepId)
    requires i in db.instances && pick in db.steps
  {
    var step, gate := db.steps[pick], GateOf(db, i);
    |FilledSlots(db, gate)| + 1 >= Asked(step.joinType, step.quorumCount, |Slots(db, gate)|)
  }

  /** What an accepted action leaves of a slot. */
  ghost predicate SlotBecomes(db: Db, r: ActionRequest, pick: StepId, behalf: Option<UserId>, s: StepId, after: Step)
    requires s in db.steps && r.instance in db.instances && (r.action == Approve ==> pick in db.steps)
  {
    var before := db.steps[s];
    if !InGate(db, r.instance, s) then after == before
    else if r.action == Approve then
      if s == pick then after == before.(status := Done, actedBy := Some(r.actor), onBehalfOf := behalf)
      else if before.status == Active && IsEnough(db, r.instance, pick) then after == before.(status := Skipped)
      else after == before
    else if (r.action == Return || r.action == Reject) && (before.status == Active || before.status == Pending) then
      after == before.(status := if r.action == Return then Returned else Skipped,
                       actedBy := Some(r.actor), onBehalfOf := behalf)
    else after == before
  }

  /** An approval fills its slot and, when it makes the gate pass, skips the open ones; a return or
      a reject closes the open ones in the actor's name; nothing else touches a slot. */
  lemma ActionEditsSlots(g: Graph, a: Authorities, db: Db, r: ActionRequest, pick: StepId, s: StepId)
    requires DbInv(g, db) && ExecuteAction(g, a, db, r, pick).Executed? && s in db.steps
    ensures r.instance in db.instances && (r.action == Approve ==> pick in db.steps)
    ensures var x := ExecuteAction(g, a, db, r, pick);
            s in x.db.steps && SlotBecomes(db, r, pick, x.event.onBehalfOf, s, x.db.steps[s])
  {
    var mid, to, behalf, step := ExecutedForm(g, a, db, r, pick);
    GateEditIsProper(g, a, db, r, pick);
    ProperEditKeepsInv(g, db, mid.steps, r.instance, r.actor);
    FinishEffect(g, mid, r, to, behalf, step, a.now);
    FinishKeepsSteps(g, mid, r, to, behalf, step, a.now, s);
    var gate := GateOf(db, r.instance);
    if r.action == Approve {
      ApprovalIsProper(g, a, db, r, pick);
      JoinIsEnough(db, r.instance, pick, r.actor, behalf);
    } else {
      SelectedRoutes(g.transitions, db.instances[r.instance], r.action);
    }
  }

  lemma JoinIsEnough(db: Db, i: InstanceId, pick: StepId, actor: UserId, behalf: Option<UserId>)
    requires i in db.instances && pick in ActiveIn(db, GateOf(db, i))
    ensures var step := db.steps[pick];
            JoinSatisfied(Filled(db, pick, actor, behalf).steps, GateOf(db, i), step.joinType, step.quorumCount)
            <==> IsEnough(db, i, pick)
  {
    var gate := GateOf(db, i);
    JoinCountsPeople(db, gate, pick, actor, behalf);
    SlotsAfterFilling(db, gate, pick, actor, behalf);
  }

  // ---- the slots of the gate that is entered ---------------------------------------------------------

  const HOUR: int := 3600 * 1_000_000

  /** The slot `k` of a gate opened at `now`: open, nobody's, pinned to the state and the instance,
      and due when the state's hours, if it has any, are over. */
  ghost predicate IsFreshSlot(state: State, i: InstanceId, inst: Instance, now: int, k: int, slot: Step) {
    && slot.instance == i && slot.state == state.id && slot.revision == inst.revision && slot.sequence == k
    && slot.joinType == state.joinType && slot.quorumCount == state.quorumCount
    && slot.requiredPermission == state.requiredPermission && slot.orgUnit == inst.orgUnit
    && slot.status == Active && slot.actedBy == None && slot.onBehalfOf == None && slot.escalationLevel == 0
    && slot.slaDueAt == if state.slaHours.None? || state.slaHours == Some(0) then None
                        else Some(now + state.slaHours.value * HOUR)
  }

  /** Entering a gate opens as many slots as the state asks for, and one at least; entering any
      other state opens none. Ids go on from the last one. */
  lemma GateOpens(g: Graph, db: Db, i: InstanceId, now: int)
    requires i in db.instances && db.instances[i].current in g.states
    requires forall s :: s in db.steps ==> s < db.nextStep
    ensures var db', inst := Activated(g, db, i, now), db.instances[i];
            var state := g.states[inst.current];
            var count := if !state.isApprovalGate then 0 else if state.stepCount < 1 then 1 else state.stepCount;
            && db'.instances == db.instances && db'.events == db.events && db'.nextStep == db.nextStep + count
            && (forall s :: s in db'.steps <==> s in db.steps || db.nextStep <= s < db.nextStep + count)
            && (forall s :: s in db.steps ==> db'.steps[s] == db.steps[s])
            && (forall s :: db.nextStep <= s < db.nextStep + count ==>
                  IsFreshSlot(state, i, inst, now, s - db.nextStep, db'.steps[s]))
  {
  }

  /** How many slots open for an instance that stood in `from`: none unless it is now in another
      state that is a gate, and then as many as the state asks for, and one at least. */
  ghost function Opening(g: Graph, from: StateId, inst: Instance): nat
    requires inst.current in g.states
  {
    var state := g.states[inst.current];
    if inst.current == from || !state.isApprovalGate then 0 else if state.stepCount < 1 then 1 else state.stepCount
  }

  lemma FinishOpensGate(
    g: Graph, mid: Db, r: ActionRequest, to: StateId, behalf: Option<UserId>, step: Option<StepId>, now: int, db': Db)
    requires r.instance in mid.instances && to in g.states && forall k :: k in mid.steps ==> k < mid.nextStep
    requires db' == Finish(g, mid, r, to, behalf, step, now).db
    ensures r.instance in db'.instances && db'.instances[r.instance].current == to
    ensures var inst := db'.instances[r.instance];
            var count := Opening(g, mid.instances[r.instance].current, inst);
            && (forall s :: s in db'.steps <==> s in mid.steps || mid.nextStep <= s < mid.nextStep + count)
            && (forall s :: mid.nextStep <= s < mid.nextStep + count ==>
                  IsFreshSlot(g.states[to], r.instance, inst, now, s - mid.nextStep, db'.steps[s]))
  {
    var next, recorded := FinishIsMoveThenOpen(g, mid, r, to, behalf, step, now);
    GateOpens(g, recorded, r.instance, now);
  }

  /** The rows after an accepted action are the old ones, edited as above, and the slots of the
      gate that it enters. */
  lemma ActionOpensGate(g: Graph, a: Authorities, db: Db, r: ActionRequest, pick: StepId, s: StepId)
    requires DbInv(g, db) && ExecuteAction(g, a, db, r, pick).Executed?
    ensures r.instance in db.instances
    ensures var db', i := ExecuteAction(g, a, db, r, pick).db, r.instance;
            && i in db'.instances && db'.instances[i].current in g.states
            && var inst := db'.instances[i];
               var count := Opening(g, db.instances[i].current, inst);
               && (s in db'.steps && s !in db.steps <==> db.nextStep <= s < db.nextStep + count)
               && (s in db'.steps && s !in db.steps ==>
                     IsFreshSlot(g.states[inst.current], i, inst, a.now, s - db.nextStep, db'.steps[s]))
  {
    var mid, to, behalf, step := ExecutedForm(g, a, db, r, pick);
    GateEditIsProper(g, a, db, r, pick);
    FinishOpensGate(g, mid, r, to, behalf, step, a.now, ExecuteAction(g, a, db, r, pick).db);
  }

  /** While it is open and not escalated, a slot is due exactly from the end of its hours on. */
  lemma FreshSlotIsDueFrom(db: Db, s: StepId, state: State, i: InstanceId, inst: Instance, since: int, k: int, now: int)
    requires s in db.steps && IsFreshSlot(state, i, inst, since, k, db.steps[s])
    ensures s in DueSteps(db, now) <==>
              state.slaHours.Some? && state.slaHours != Some(0) && now >= since + state.slaHours.value * HOUR
  {
  }

  /** In general: a step is due when it is open, was never escalated, and has a deadline that has
      come. */
  lemma DueIsSpelledOut(db: Db, s: StepId, now: int)
    ensures s in DueSteps(db, now) <==>
              && s in db.steps && db.steps[s].status == Active && db.steps[s].escalationLevel == 0
              && db.steps[s].slaDueAt.Some? && db.steps[s].slaDueAt.value <= now
  {
  }

  // ---- starting ---------------------------------------------------------------------------------------

  /** A started instance stands in the initial state, at version and revision 1, for its
      originator, unit and amount; the event says so; and only its gate's slots are new. */
  lemma StartPlaces(
    g: Graph, db: Db, i: InstanceId, initial: StateId, actor: Option<UserId>, unit: Option<UnitId>,
    amount: Option<real>, now: int, s: StepId)
    requires initial in g.states && forall k :: k in db.steps ==> k < db.nextStep
    ensures var db' := Started(g, db, i, initial, actor, unit, amount, now);
            var inst := Instance(initial, 1, 1, actor, unit, amount);
            var state := g.states[initial];
            var count := if !state.isApprovalGate then 0 else if state.stepCount < 1 then 1 else state.stepCount;
            && db'.instances == db.instances[i := inst]
            && db'.events == db.events + [WfEvent(i, None, StartedEvent, Some(initial), actor, None, "", 0)]
            && (s in db.steps ==> s in db'.steps && db'.steps[s] == db.steps[s])
            && (s in db'.steps && s !in db.steps <==> db.nextStep <= s < db.nextStep + count)
            && (s in db'.steps && s !in db.steps ==> IsFreshSlot(state, i, inst, now, s - db.nextStep, db'.steps[s]))
  {
    var placed := db.(instances := db.instances[i := Instance(initial, 1, 1, actor, unit, amount)]);
    GateOpens(g, placed, i, now);
  }

  // ---- sweeping ----------------------------------------------------------------------------------------

  /** The event of one step's escalation. */
  ghost predicate RecordsEscalation(e: WfEvent, s: StepId, step: Step) {
    && e.instance == step.instance && e.step == Some(s) && e.kind == EscalationEvent && e.toState == None
    && e.actor == None && e.onBehalfOf == None && e.key == "" && e.escalationLevel == step.escalationLevel + 1
  }

  /** The log has grown by one event per step, in order. */
  ghost predicate RecordsSweep(db: Db, ids: seq<StepId>, events: seq<WfEvent>)
    requires forall s :: s in ids ==> s in db.steps
  {
    && |events| == |db.events| + |ids| && events[..|db.events|] == db.events
    && forall k :: 0 <= k < |ids| ==> RecordsEscalation(events[|db.events| + k], ids[k], db.steps[ids[k]])
  }

  /** A sweep appends one event per selected step, in order: of the step's instance, at the step,
      one level up, and moving nothing. */
  lemma {:induction false} SweepRecords(db: Db, ids: seq<StepId>)
    requires forall s :: s in ids ==> s in db.steps
    requires forall i, j :: 0 <= i < j < |ids| ==> ids[i] != ids[j]
    ensures RecordsSweep(db, ids, EscalatedAll(db, ids).events)
    decreases |ids|
  {
    if ids != [] {
      var before, last := ids[..|ids| - 1], ids[|ids| - 1];
      SweepRecords(db, before);
      EscalatingRaisesLevels(db, before);
      assert last in ids && last !in before;
      RecordOneMore(db, EscalatedAll(db, before), before, last);
      assert ids == before + [last];
    }
  }

  lemma RecordOneMore(db: Db, mid: Db, before: seq<StepId>, last: StepId)
    requires (forall s :: s in before ==> s in db.steps) && last in db.steps && last in mid.steps
    requires mid.steps[last] == Raised(db.steps[last], 0) && RecordsSweep(db, before, mid.events)
    ensures RecordsSweep(db, before + [last], Escalated(mid, last).events)
  {
  }
}
