/** Passing an approval gate: how many different people it takes. */
module Approvals {
  import opened Collections
  import opened OrgScopes
  import opened WorkflowGraph
  import opened WorkflowEngine
  import opened WorkflowRuns

  /** The people a gate asks for, given its open and filled slots. */
  function Asked(join: JoinType, quorum: Option<int>, slots: nat): int {
    match join
    case JoinAny => 1
    case JoinQuorum => if quorum.Some? && quorum.value != 0 then quorum.value else slots
    case JoinAll => slots
  }

  function Needed(step: Step, slots: nat): int {
    Asked(step.joinType, step.quorumCount, slots)
  }

  function Slots(db: Db, gate: set<StepId>): set<StepId> {
    set s | s in gate && s in db.steps && (db.steps[s].status == Active || db.steps[s].status == Done)
  }

  function FilledSlots(db: Db, gate: set<StepId>): set<StepId> {
    set s | s in gate && s in db.steps && db.steps[s].status == Done
  }

  /** The people who filled the slots. */
  function Approvers(db: Db, slots: set<StepId>): set<UserId> {
    set s | s in slots && s in db.steps && db.steps[s].actedBy.Some? :: db.steps[s].actedBy.value
  }

  lemma {:induction false} OnePersonPerSlot(db: Db, slots: set<StepId>)
    requires forall s :: s in slots ==> s in db.steps && db.steps[s].actedBy.Some?
    requires forall s, t :: s in slots && t in slots && s != t ==> db.steps[s].actedBy != db.steps[t].actedBy
    ensures |Approvers(db, slots)| == |slots|
    decreases |slots|
  {
    if slots == {} {
      assert Approvers(db, slots) == {};
    } else {
      var s := Pick(slots);
      var rest := slots - {s};
      OnePersonPerSlot(db, rest);
      var person := db.steps[s].actedBy.value;
      assert slots == rest + {s};
      assert Approvers(db, slots) == Approvers(db, rest) + {person};
      forall t | t in rest ensures db.steps[t].actedBy.value != person {
        assert db.steps[t].actedBy != db.steps[s].actedBy;
      }
    }
  }

  /** In every sound database the slots of one gate were filled by different people. */
  lemma GateApproversDiffer(g: Graph, db: Db, i: InstanceId)
    requires DutiesSegregated(g, db) && i in db.instances
    ensures |Approvers(db, FilledSlots(db, GateOf(db, i)))| == |FilledSlots(db, GateOf(db, i))|
  {
    var slots := FilledSlots(db, GateOf(db, i));
    forall s | s in slots ensures db.steps[s].actedBy.Some? {
      assert SlotIsProper(g, db, s);
    }
    forall s, t | s in slots && t in slots && s != t ensures db.steps[s].actedBy != db.steps[t].actedBy {
      assert BothDone(db.steps[s], db.steps[t]);
    }
    OnePersonPerSlot(db, slots);
  }

  /** The slots of the gate, after the approval, are the ones before it, with `pick` filled. */
  lemma SlotsAfterFilling(db: Db, gate: set<StepId>, pick: StepId, actor: UserId, behalf: Option<UserId>)
    requires pick in ActiveIn(db, gate)
    ensures var filled := Filled(db, pick, actor, behalf);
            && Slots(filled, gate) == Slots(db, gate)
            && FilledSlots(filled, gate) == FilledSlots(db, gate) + {pick}
            && FilledSlots(SkipRest(filled, gate), gate) == FilledSlots(filled, gate)
            && Approvers(SkipRest(filled, gate), FilledSlots(filled, gate))
               == Approvers(filled, FilledSlots(filled, gate))
  {
  }

  lemma JoinCountsSlots(db: Db, gate: set<StepId>, step: Step)
    requires FilledSlots(db, gate) != {}
    ensures JoinSatisfied(db.steps, gate, step.joinType, step.quorumCount)
       <==> |FilledSlots(db, gate)| >= Needed(step, |Slots(db, gate)|)
  {
    var live := set s | s in gate && s in db.steps && (db.steps[s].status == Active || db.steps[s].status == Done);
    assert live == Slots(db, gate);
    var done := set s | s in live && db.steps[s].status == Done;
    assert done == FilledSlots(db, gate);
    var s := Pick(done);
    assert s in live;
    SubsetSize({s}, done);
  }

  /** The steps that exist are not touched when the next gate opens. */
  lemma FinishKeepsSteps(
    g: Graph, db: Db, r: ActionRequest, to: StateId, behalf: Option<UserId>, step: Option<StepId>, now: int, s: StepId)
    requires Pinned(g, db) && r.instance in db.instances && to in g.states && s in db.steps
    ensures var db' := Finish(g, db, r, to, behalf, step, now).db;
            s in db'.steps && db'.steps[s] == db.steps[s]
  {
    var next, recorded := FinishIsMoveThenOpen(g, db, r, to, behalf, step, now);
  }

  lemma ApprovalOutcome(g: Graph, a: Authorities, db: Db, r: ActionRequest, pick: StepId) returns (mid: Db)
    requires DbInv(g, db) && r.action == Approve && ExecuteAction(g, a, db, r, pick).Executed?
    ensures r.instance in db.instances && pick in ActiveIn(db, GateOf(db, r.instance))
    ensures SelectTransition(g.transitions, db.instances[r.instance], Approve).Some?
    ensures var inst, gate := db.instances[r.instance], GateOf(db, r.instance);
            var behalf := Auth(a, r.actor, db.steps[pick].requiredPermission, db.steps[pick].orgUnit).onBehalfOf;
            var filled := Filled(db, pick, r.actor, behalf);
            var passed := JoinSatisfied(filled.steps, gate, db.steps[pick].joinType, db.steps[pick].quorumCount);
            var x := ExecuteAction(g, a, db, r, pick);
            && mid == (if passed then SkipRest(filled, gate) else filled)
            && x.db.instances[r.instance].current
               == (if passed then SelectTransition(g.transitions, inst, Approve).value.target else inst.current)
            && (forall s :: s in gate ==> s in x.db.steps && x.db.steps[s] == mid.steps[s])
  {
    var inst, gate := db.instances[r.instance], GateOf(db, r.instance);
    SelectedRoutes(g.transitions, inst, Approve);
    ApprovalIsProper(g, a, db, r, pick);
    var t := SelectTransition(g.transitions, inst, Approve).value;
    var behalf := Auth(a, r.actor, db.steps[pick].requiredPermission, db.steps[pick].orgUnit).onBehalfOf;
    var filled := Filled(db, pick, r.actor, behalf);
    var passed := JoinSatisfied(filled.steps, gate, db.steps[pick].joinType, db.steps[pick].quorumCount);
    mid := if passed then SkipRest(filled, gate) else filled;
    FillIsProper(g, db, r.instance, pick, r.actor, behalf);
    ProperEditKeepsInv(g, db, mid.steps, r.instance, r.actor);
    assert mid == db.(steps := mid.steps);
    var to := if passed then t.target else inst.current;
    assert ExecuteAction(g, a, db, r, pick) == Finish(g, mid, r, to, behalf, Some(pick), a.now);
    FinishEffect(g, mid, r, to, behalf, Some(pick), a.now);
    forall s | s in gate ensures s in mid.steps {
    }
    forall s | s in gate
      ensures var db' := ExecuteAction(g, a, db, r, pick).db; s in db'.steps && db'.steps[s] == mid.steps[s]
    {
      FinishKeepsSteps(g, mid, r, to, behalf, Some(pick), a.now, s);
    }
  }

  /** The approval is proper: it fills an open slot of the gate, in a sound database. */
  ghost predicate MayFill(g: Graph, db: Db, i: InstanceId, pick: StepId, actor: UserId) {
    && DbInv(g, db) && i in db.instances
    && pick in ActiveIn(db, GateOf(db, i)) && !ActedIn(db, GateOf(db, i), actor)
    && (g.states[db.instances[i].current].enforceSegregation ==> Some(actor) != db.instances[i].originator)
  }

  lemma FillKeepsDuties(g: Graph, db: Db, i: InstanceId, pick: StepId, actor: UserId, behalf: Option<UserId>)
    requires MayFill(g, db, i, pick, actor)
    ensures var filled := Filled(db, pick, actor, behalf);
            filled.instances == db.instances && DutiesSegregated(g, filled) && GateOf(filled, i) == GateOf(db, i)
  {
    var filled := Filled(db, pick, actor, behalf);
    FillIsProper(g, db, i, pick, actor, behalf);
    ProperEditKeepsDuties(g, db, filled.steps, i, actor);
    assert db.(steps := filled.steps) == filled;
  }

  /** One more slot is filled, by one more person. */
  lemma FillAddsAPerson(g: Graph, db: Db, i: InstanceId, pick: StepId, actor: UserId, behalf: Option<UserId>)
    requires MayFill(g, db, i, pick, actor)
    ensures var gate, filled := GateOf(db, i), Filled(db, pick, actor, behalf);
            var people := Approvers(filled, FilledSlots(filled, gate));
            actor in people && |people| == |FilledSlots(filled, gate)| == |FilledSlots(db, gate)| + 1
  {
    var gate, filled := GateOf(db, i), Filled(db, pick, actor, behalf);
    FillKeepsDuties(g, db, i, pick, actor, behalf);
    SlotsAfterFilling(db, gate, pick, actor, behalf);
    GateApproversDiffer(g, filled, i);
    assert pick in FilledSlots(filled, gate) && filled.steps[pick].actedBy == Some(actor);
  }

  lemma OriginatorStaysOut(g: Graph, db: Db, i: InstanceId)
    requires DutiesSegregated(g, db) && i in db.instances
    requires db.instances[i].current in g.states && g.states[db.instances[i].current].enforceSegregation
    requires db.instances[i].originator.Some?
    ensures db.instances[i].originator.value !in Approvers(db, FilledSlots(db, GateOf(db, i)))
  {
    var slots := FilledSlots(db, GateOf(db, i));
    forall s | s in slots ensures db.steps[s].actedBy != db.instances[i].originator {
      assert SlotIsProper(g, db, s);
    }
  }

  /** Filling the picked slot: the people, and whether they are enough. */
  lemma PeopleAfterFilling(g: Graph, db: Db, i: InstanceId, pick: StepId, actor: UserId, behalf: Option<UserId>)
    requires MayFill(g, db, i, pick, actor)
    ensures var inst, gate, filled := db.instances[i], GateOf(db, i), Filled(db, pick, actor, behalf);
            var people := Approvers(filled, FilledSlots(filled, gate));
            && actor in people && |people| == |FilledSlots(db, gate)| + 1
            && (g.states[inst.current].enforceSegregation && inst.originator.Some? ==> inst.originator.value !in people)
            && (JoinSatisfied(filled.steps, gate, db.steps[pick].joinType, db.steps[pick].quorumCount)
                <==> |people| >= Needed(db.steps[pick], |Slots(db, gate)|))
  {
    var gate, filled := GateOf(db, i), Filled(db, pick, actor, behalf);
    FillAddsAPerson(g, db, i, pick, actor, behalf);
    FillKeepsDuties(g, db, i, pick, actor, behalf);
    if g.states[db.instances[i].current].enforceSegregation && db.instances[i].originator.Some? {
      OriginatorStaysOut(g, filled, i);
    }
    JoinCountsPeople(db, gate, pick, actor, behalf);
  }

  lemma JoinCountsPeople(db: Db, gate: set<StepId>, pick: StepId, actor: UserId, behalf: Option<UserId>)
    requires pick in ActiveIn(db, gate)
    ensures var filled := Filled(db, pick, actor, behalf);
            JoinSatisfied(filled.steps, gate, db.steps[pick].joinType, db.steps[pick].quorumCount)
            <==> |FilledSlots(filled, gate)| >= Needed(db.steps[pick], |Slots(db, gate)|)
  {
    SlotsAfterFilling(db, gate, pick, actor, behalf);
    JoinCountsSlots(Filled(db, pick, actor, behalf), gate, db.steps[pick]);
  }

  /** The people are counted alike in a database with the same rows in the gate. */
  lemma SameRowsSamePeople(a: Db, b: Db, gate: set<StepId>)
    requires forall s :: s in gate ==> s in a.steps && s in b.steps && a.steps[s] == b.steps[s]
    ensures FilledSlots(a, gate) == FilledSlots(b, gate)
    ensures Approvers(a, FilledSlots(a, gate)) == Approvers(b, FilledSlots(b, gate))
  {
    var slots := FilledSlots(a, gate);
    forall s ensures s in slots <==> s in FilledSlots(b, gate) {
      if s in gate {
        assert a.steps[s] == b.steps[s];
      }
    }
    assert slots == FilledSlots(b, gate);
    forall p ensures p in Approvers(a, slots) <==> p in Approvers(b, slots) {
      assert forall s :: s in slots ==> a.steps[s].actedBy == b.steps[s].actedBy;
    }
  }

  /** An approval leaves the gate's slots filled by as many different people as there are
      filled slots, the actor among them and, where segregation is enforced, the originator
      not; the instance moves on exactly when they are as many as the gate asks for. */
  lemma GatePassesOnEnoughPeople(g: Graph, a: Authorities, db: Db, r: ActionRequest, pick: StepId)
    requires DbInv(g, db) && r.action == Approve && ExecuteAction(g, a, db, r, pick).Executed?
    ensures r.instance in db.instances && pick in db.steps
    ensures r.instance in ExecuteAction(g, a, db, r, pick).db.instances
    ensures SelectTransition(g.transitions, db.instances[r.instance], Approve).Some?
    ensures var inst, gate, db' := db.instances[r.instance], GateOf(db, r.instance),
                                   ExecuteAction(g, a, db, r, pick).db;
            var people := Approvers(db', FilledSlots(db', gate));
            var target := SelectTransition(g.transitions, inst, Approve).value.target;
            && r.actor in people && |people| == |FilledSlots(db, gate)| + 1
            && (g.states[inst.current].enforceSegregation && inst.originator.Some? ==> inst.originator.value !in people)
            && db'.instances[r.instance].current
               == (if |people| >= Needed(db.steps[pick], |Slots(db, gate)|) then target else inst.current)
  {
    var mid := ApprovalOutcome(g, a, db, r, pick);
    var gate, db' := GateOf(db, r.instance), ExecuteAction(g, a, db, r, pick).db;
    ExecutedEffect(g, a, db, r, pick);
    var behalf := Auth(a, r.actor, db.steps[pick].requiredPermission, db.steps[pick].orgUnit).onBehalfOf;
    ApprovalIsProper(g, a, db, r, pick);
    PeopleAfterFilling(g, db, r.instance, pick, r.actor, behalf);
    SlotsAfterFilling(db, gate, pick, r.actor, behalf);
    SameRowsSamePeople(db', mid, gate);
  }
}
