/** A gate entered more than once: whose approvals count again.

    The rows of a gate are those of its state and the instance's revision, and only a
    resubmit raises the revision. So a resubmit is fanned in on its own, as the source
    intends, while a gate entered again in any other way counts the slots that were filled
    on earlier visits. */
module GateEntries {
  import opened Collections
  import opened OrgScopes
  import opened WorkflowGraph
  import opened WorkflowEngine
  import opened WorkflowRuns
  import opened WorkflowMachine
  import opened Approvals

  // ---- rows belong to a revision the instance has reached ---------------------------------

  ghost predicate ScopedStep(g: Graph, db: Db, s: StepId)
    requires s in db.steps
  {
    var step := db.steps[s];
    && step.instance in db.instances && step.revision <= db.instances[step.instance].revision
    && step.state in g.states && step.joinType == g.states[step.state].joinType
    && step.quorumCount == g.states[step.state].quorumCount
  }

  ghost predicate Scoped(g: Graph, db: Db) {
    forall s :: s in db.steps ==> ScopedStep(g, db, s)
  }

  /** No revision falls, and no instance goes. */
  ghost predicate RevisionsRise(db: Db, db': Db) {
    forall i :: i in db.instances ==> i in db'.instances && db.instances[i].revision <= db'.instances[i].revision
  }

  /** The row of `db'` is that of `db`, up to its status, its actor and its escalations. */
  ghost predicate SameSlot(db: Db, db': Db, s: StepId) {
    && s in db.steps && s in db'.steps
    && var slot := db'.steps[s];
       slot == db.steps[s].(status := slot.status, actedBy := slot.actedBy, onBehalfOf := slot.onBehalfOf,
                            escalationLevel := slot.escalationLevel)
  }

  lemma SameSlotsStayScoped(g: Graph, db: Db, db': Db)
    requires Scoped(g, db) && RevisionsRise(db, db')
    requires forall s :: s in db'.steps ==> SameSlot(db, db', s)
    ensures Scoped(g, db')
  {
    forall s | s in db'.steps ensures ScopedStep(g, db', s) {
      assert SameSlot(db, db', s) && ScopedStep(g, db, s);
    }
  }

  lemma FinishStaysScoped(
    g: Graph, db: Db, r: ActionRequest, to: StateId, behalf: Option<UserId>, step: Option<StepId>, now: int, db': Db)
    requires Scoped(g, db) && KnownStates(g, db) && r.instance in db.instances && to in g.states
    requires db' == Finish(g, db, r, to, behalf, step, now).db
    ensures Scoped(g, db') && RevisionsRise(db, db')
  {
    var next, recorded := FinishIsMoveThenOpen(g, db, r, to, behalf, step, now);
    SameSlotsStayScoped(g, db, recorded);
  }

  lemma ExecuteStaysScoped(g: Graph, a: Authorities, db: Db, r: ActionRequest, pick: StepId, db': Db)
    requires Scoped(g, db) && KnownStates(g, db)
    requires ExecuteAction(g, a, db, r, pick).Executed? && db' == ExecuteAction(g, a, db, r, pick).db
    ensures Scoped(g, db')
  {
    var mid, to, behalf, step := ExecutedForm(g, a, db, r, pick);
    GateEditIsProper(g, a, db, r, pick);
    assert forall s :: s in mid.steps ==> SameSlot(db, mid, s);
    SameSlotsStayScoped(g, db, mid);
    FinishStaysScoped(g, mid, r, to, behalf, step, a.now, db');
  }

  ghost predicate OnlyEscalated(db: Db, db': Db, s: StepId) {
    && SameSlot(db, db', s)
    && db'.steps[s].status == db.steps[s].status && db'.steps[s].actedBy == db.steps[s].actedBy
  }

  lemma CommitStaysScoped(g: Graph, m: Machine, t: TxId, db': Db)
    requires MInv(g, m) && Scoped(g, m.db) && t in m.sweeps
    requires forall s :: s in m.sweeps[t] ==> s in m.db.steps
    requires db' == EscalatedAll(m.db, m.sweeps[t])
    ensures Scoped(g, db')
    ensures forall s :: s in m.db.steps ==> OnlyEscalated(m.db, db', s)
  {
    assert Holds(m, t);
    EscalatingRaisesLevels(m.db, m.sweeps[t]);
    forall s | s in m.db.steps ensures OnlyEscalated(m.db, db', s)
    {
      assert db'.steps[s] == Raised(m.db.steps[s], if s in m.sweeps[t] then 1 else 0);
    }
    SameSlotsStayScoped(g, m.db, db');
  }

  lemma StepStaysScoped(g: Graph, m: Machine, step: MStep, m': Machine)
    requires MInv(g, m) && Scoped(g, m.db) && Enabled(g, m, step) && m' == After(g, m, step)
    ensures Scoped(g, m'.db)
  {
    match step
    case Start(_, _, _, _, _, _) =>
    case Execute(a, r, pick) =>
      if ExecuteAction(g, a, m.db, r, pick).Executed? {
        ExecuteStaysScoped(g, a, m.db, r, pick, m'.db);
      }
    case CommitSweep(t) => CommitStaysScoped(g, m, t, m'.db);
    case _ =>
  }

  lemma {:induction false} RunIsScoped(g: Graph, run: seq<Machine>, i: nat)
    requires IsRun(g, run) && i < |run|
    ensures MInv(g, run[i]) && Scoped(g, run[i].db)
  {
    RunKeepsInv(g, run, i);
    if i > 0 {
      RunIsScoped(g, run, i - 1);
      var step := StepAt(g, run, i - 1);
      StepStaysScoped(g, run[i - 1], step, run[i]);
    }
  }

  lemma StepAt(g: Graph, run: seq<Machine>, i: nat) returns (step: MStep)
    requires IsRun(g, run) && i + 1 < |run|
    ensures Enabled(g, run[i], step) && run[i + 1] == After(g, run[i], step)
  {
    assert NextAt(g, run, i);
    step :| Enabled(g, run[i], step) && run[i + 1] == After(g, run[i], step);
  }

  // ---- a resubmit starts afresh --------------------------------------------------------------

  /** A gate just opened, or a state that is none, holds only new slots when no earlier row is of
      the instance's revision. */
  lemma NewRevisionHasNewSlots(g: Graph, db: Db, i: InstanceId, now: int, db': Db)
    requires i in db.instances && db.instances[i].current in g.states
    requires db' == db || db' == Activated(g, db, i, now)
    requires forall s :: s in db.steps && db.steps[s].instance == i ==> db.steps[s].revision < db.instances[i].revision
    requires forall s :: s in db.steps ==> s < db.nextStep
    ensures forall s :: s in GateOf(db', i) ==> s !in db.steps && db'.steps[s].status == Active
  {
    assert forall s :: s in db.steps ==> db'.steps[s] == db.steps[s];
  }

  /** After a resubmit, whatever the earlier visits left, no slot of the gate is filled and
      every slot of it was opened just now. */
  lemma ResubmitStartsAfresh(g: Graph, a: Authorities, db: Db, r: ActionRequest, pick: StepId)
    requires DbInv(g, db) && Scoped(g, db) && r.action == Resubmit && ExecuteAction(g, a, db, r, pick).Executed?
    ensures var db' := ExecuteAction(g, a, db, r, pick).db;
            && r.instance in db'.instances
            && FilledSlots(db', GateOf(db', r.instance)) == {}
            && forall s :: s in GateOf(db', r.instance) ==> s !in db.steps && db'.steps[s].status == Active
  {
    var db' := ExecuteAction(g, a, db, r, pick).db;
    var mid, to, behalf, step := ExecutedForm(g, a, db, r, pick);
    var next, recorded := FinishIsMoveThenOpen(g, mid, r, to, behalf, step, a.now);
    assert recorded.steps == mid.steps == db.steps && recorded.instances[r.instance] == next;
    forall s | s in recorded.steps && recorded.steps[s].instance == r.instance
      ensures recorded.steps[s].revision < next.revision
    {
      assert ScopedStep(g, db, s);
    }
    NewRevisionHasNewSlots(g, recorded, r.instance, a.now, db');
  }

  // ---- filled slots stay filled ---------------------------------------------------------------

  /** The slot is filled in both, by the same person. */
  ghost predicate StillFilled(db: Db, db': Db, s: StepId) {
    SameSlot(db, db', s) && db'.steps[s].status == Done && db'.steps[s].actedBy == db.steps[s].actedBy
  }

  lemma ExecuteKeepsFilled(g: Graph, a: Authorities, db: Db, r: ActionRequest, pick: StepId, s: StepId)
    requires DbInv(g, db) && ExecuteAction(g, a, db, r, pick).Executed?
    requires s in db.steps && db.steps[s].status == Done
    ensures StillFilled(db, ExecuteAction(g, a, db, r, pick).db, s)
  {
    var mid, to, behalf, step := ExecutedForm(g, a, db, r, pick);
    GateEditIsProper(g, a, db, r, pick);
    ProperEditKeepsInv(g, db, mid.steps, r.instance, r.actor);
    assert mid == db.(steps := mid.steps);
    FinishKeepsSteps(g, mid, r, to, behalf, step, a.now, s);
  }

  lemma StepKeepsFilled(g: Graph, m: Machine, step: MStep, m': Machine, s: StepId)
    requires MInv(g, m) && Scoped(g, m.db) && Enabled(g, m, step) && m' == After(g, m, step)
    requires s in m.db.steps && m.db.steps[s].status == Done
    ensures StillFilled(m.db, m'.db, s)
  {
    match step
    case Start(_, _, _, _, _, _) =>
    case Execute(a, r, pick) =>
      if ExecuteAction(g, a, m.db, r, pick).Executed? {
        ExecuteKeepsFilled(g, a, m.db, r, pick, s);
      }
    case CommitSweep(t) => CommitStaysScoped(g, m, t, m'.db);
    case _ =>
  }

  lemma {:induction false} FilledStaysFilled(g: Graph, run: seq<Machine>, j: nat, k: nat, s: StepId)
    requires IsRun(g, run) && j <= k < |run| && s in run[j].db.steps && run[j].db.steps[s].status == Done
    ensures StillFilled(run[j].db, run[k].db, s)
    decreases k - j
  {
    if j < k {
      FilledStaysFilled(g, run, j, k - 1, s);
      RunIsScoped(g, run, k - 1);
      var step := StepAt(g, run, k - 1);
      StepKeepsFilled(g, run[k - 1], step, run[k], s);
    }
  }

  // ---- the people an entry takes ------------------------------------------------------------------

  /** The instance stands in one state and revision at `j` and at `k`. */
  ghost predicate SameGate(run: seq<Machine>, j: nat, k: nat, i: InstanceId) {
    && j <= k < |run| && i in run[j].db.instances && i in run[k].db.instances
    && run[j].db.instances[i].current == run[k].db.instances[i].current
    && run[j].db.instances[i].revision == run[k].db.instances[i].revision
  }

  function PeopleIn(db: Db, gate: set<StepId>): set<UserId> {
    Approvers(db, FilledSlots(db, gate))
  }

  lemma EarlierPeopleStay(g: Graph, run: seq<Machine>, j: nat, k: nat, i: InstanceId)
    requires IsRun(g, run) && SameGate(run, j, k, i)
    ensures var before, now := GateOf(run[j].db, i), GateOf(run[k].db, i);
            && FilledSlots(run[j].db, before) <= FilledSlots(run[k].db, now)
            && PeopleIn(run[j].db, before) <= PeopleIn(run[k].db, now)
  {
    var before, now := GateOf(run[j].db, i), GateOf(run[k].db, i);
    forall s | s in FilledSlots(run[j].db, before)
      ensures s in FilledSlots(run[k].db, now) && run[k].db.steps[s].actedBy == run[j].db.steps[s].actedBy
    {
      FilledStaysFilled(g, run, j, k, s);
    }
  }

  /** What the engine answers to a request in the k-th state of a run. */
  ghost function Outcome(
    g: Graph, run: seq<Machine>, k: nat, a: Authorities, r: ActionRequest, pick: StepId): ActionResult
    requires IsRun(g, run) && k < |run|
  {
    RunKeepsInv(g, run, k);
    ExecuteAction(g, a, run[k].db, r, pick)
  }

  /** An approval accepted at `k`, of an instance that stood in the same gate at `j`. */
  ghost predicate Approved(
    g: Graph, run: seq<Machine>, j: nat, k: nat, a: Authorities, r: ActionRequest, pick: StepId)
  {
    && IsRun(g, run) && SameGate(run, j, k, r.instance)
    && r.action == Approve && Outcome(g, run, k, a, r, pick).Executed?
  }

  /** The fresh people after which an entry passes, when the gate held `held` people as it was
      entered. */
  function FreshQuota(join: JoinType, quorum: Option<int>, slots: nat, held: nat): int {
    if Asked(join, quorum, slots) - held < 1 then 1 else Asked(join, quorum, slots) - held
  }

  /** What the gate asks for at `k`, counting from `j`. */
  ghost function QuotaAt(g: Graph, run: seq<Machine>, j: nat, k: nat, i: InstanceId): int
    requires SameGate(run, j, k, i) && run[k].db.instances[i].current in g.states
  {
    var state := g.states[run[k].db.instances[i].current];
    FreshQuota(state.joinType, state.quorumCount, |Slots(run[k].db, GateOf(run[k].db, i))|, |HeldAt(run[j].db, i)|)
  }

  /** Those who have approved in the gate where the instance stands. */
  ghost function HeldAt(db: Db, i: InstanceId): set<UserId>
    requires i in db.instances
  {
    PeopleIn(db, GateOf(db, i))
  }

  /** The approval makes the instance move on, if `enough`; otherwise it stays. */
  ghost predicate MovesIf(g: Graph, before: Db, after: Db, i: InstanceId, enough: bool) {
    && i in before.instances && i in after.instances
    && var inst := before.instances[i];
       var t := SelectTransition(g.transitions, inst, Approve);
       t.Some? && after.instances[i].current == if enough then t.value.target else inst.current
  }

  /** Whenever a gate was entered, at `j`, an approval at `k` passes it exactly when the people
      who have approved since then reach what the gate asks for less those it held already. */
  lemma EntryTakesFreshPeople(
    g: Graph, run: seq<Machine>, j: nat, k: nat, a: Authorities, r: ActionRequest, pick: StepId)
    requires Approved(g, run, j, k, a, r, pick)
    ensures run[k].db.instances[r.instance].current in g.states
    ensures var i, db, db' := r.instance, run[k].db, Outcome(g, run, k, a, r, pick).db;
            var since := PeopleIn(db', GateOf(db, i)) - HeldAt(run[j].db, i);
            r.actor in since && MovesIf(g, db, db', i, |since| >= QuotaAt(g, run, j, k, i))
  {
    var db := run[k].db;
    RunIsScoped(g, run, k);
    ApprovalIsProper(g, a, db, r, pick);
    assert ScopedStep(g, db, pick);
    GatePassesOnEnoughPeople(g, a, db, r, pick);
    EarlierPeopleStay(g, run, j, k, r.instance);
    PeopleSince(g, a, db, r, pick, HeldAt(run[j].db, r.instance));
  }

  /** The people since, who are the actor at least, and those held already make up all. */
  lemma PeopleSince(g: Graph, a: Authorities, db: Db, r: ActionRequest, pick: StepId, held: set<UserId>)
    requires DbInv(g, db) && r.action == Approve && ExecuteAction(g, a, db, r, pick).Executed?
    requires r.instance in db.instances && held <= PeopleIn(db, GateOf(db, r.instance))
    ensures var people := PeopleIn(ExecuteAction(g, a, db, r, pick).db, GateOf(db, r.instance));
            r.actor in people - held && |people - held| == |people| - |held| >= 1
  {
    var gate := GateOf(db, r.instance);
    var people := PeopleIn(ExecuteAction(g, a, db, r, pick).db, gate);
    ApprovedPeopleStay(g, a, db, r, pick);
    ApprovalIsProper(g, a, db, r, pick);
    GatePassesOnEnoughPeople(g, a, db, r, pick);
    ActorIsNew(db, gate, r.actor);
    SubsetSize({r.actor}, people - held);
    assert people == (people - held) + held;
  }

  /** Whoever filled a slot before the approval still does after it. */
  lemma ApprovedPeopleStay(g: Graph, a: Authorities, db: Db, r: ActionRequest, pick: StepId)
    requires DbInv(g, db) && r.instance in db.instances && ExecuteAction(g, a, db, r, pick).Executed?
    ensures var gate := GateOf(db, r.instance);
            PeopleIn(db, gate) <= PeopleIn(ExecuteAction(g, a, db, r, pick).db, gate)
  {
    var gate, db' := GateOf(db, r.instance), ExecuteAction(g, a, db, r, pick).db;
    forall s | s in FilledSlots(db, gate)
      ensures s in FilledSlots(db', gate) && db'.steps[s].actedBy == db.steps[s].actedBy
    {
      ExecuteKeepsFilled(g, a, db, r, pick, s);
    }
  }

  lemma ActorIsNew(db: Db, gate: set<StepId>, actor: UserId)
    requires !ActedIn(db, gate, actor)
    ensures actor !in PeopleIn(db, gate)
  {
  }

  // ---- only a quorum carries over --------------------------------------------------------------

  /** An entry of a gate with a quorum takes the quorum the state names if and only if nobody
      had approved in that state and revision when the gate was entered, or one person is
      enough anyway. Otherwise it takes fewer. */
  lemma QuorumIsFresh(
    g: Graph, run: seq<Machine>, j: nat, k: nat, a: Authorities, r: ActionRequest, pick: StepId, quorum: int)
    requires Approved(g, run, j, k, a, r, pick) && run[k].db.instances[r.instance].current in g.states
    requires var state := g.states[run[k].db.instances[r.instance].current];
             state.joinType == JoinQuorum && state.quorumCount == Some(quorum) && quorum > 0
    ensures var i, db, db' := r.instance, run[k].db, Outcome(g, run, k, a, r, pick).db;
            var held, quota := HeldAt(run[j].db, i), QuotaAt(g, run, j, k, i);
            && MovesIf(g, db, db', i, |PeopleIn(db', GateOf(db, i)) - held| >= quota)
            && quota <= quorum && (quota == quorum <==> held == {} || quorum == 1)
  {
    EntryTakesFreshPeople(g, run, j, k, a, r, pick);
  }

  lemma FilledAfterApproval(g: Graph, a: Authorities, db: Db, r: ActionRequest, pick: StepId)
    requires DbInv(g, db) && r.action == Approve && ExecuteAction(g, a, db, r, pick).Executed?
    ensures r.instance in db.instances
    ensures var gate, db' := GateOf(db, r.instance), ExecuteAction(g, a, db, r, pick).db;
            && FilledSlots(db', gate) == FilledSlots(db, gate) + {pick}
            && pick in Slots(db, gate) && pick !in FilledSlots(db, gate)
  {
    var mid := ApprovalOutcome(g, a, db, r, pick);
    var gate := GateOf(db, r.instance);
    var behalf := Auth(a, r.actor, db.steps[pick].requiredPermission, db.steps[pick].orgUnit).onBehalfOf;
    SlotsAfterFilling(db, gate, pick, r.actor, behalf);
    SameRowsSamePeople(ExecuteAction(g, a, db, r, pick).db, mid, gate);
  }

  /** A gate that asks for all takes one fresh person for each slot that was not filled when it
      was entered, and passes exactly when every slot is filled. */
  lemma AllSlotsAreTaken(
    g: Graph, run: seq<Machine>, j: nat, k: nat, a: Authorities, r: ActionRequest, pick: StepId)
    requires Approved(g, run, j, k, a, r, pick) && run[k].db.instances[r.instance].current in g.states
    requires g.states[run[k].db.instances[r.instance].current].joinType == JoinAll
    ensures var i, db, db' := r.instance, run[k].db, Outcome(g, run, k, a, r, pick).db;
            var slots, heldSlots := Slots(db, GateOf(db, i)), FilledSlots(run[j].db, GateOf(run[j].db, i));
            && QuotaAt(g, run, j, k, i) == |slots - heldSlots|
            && MovesIf(g, db, db', i, FilledSlots(db', GateOf(db, i)) == slots)
  {
    SlotsOfEntry(g, run, j, k, a, r, pick);
    EntryTakesFreshPeople(g, run, j, k, a, r, pick);
    var i, db := r.instance, run[k].db;
    var slots, filled := Slots(db, GateOf(db, i)), FilledSlots(db, GateOf(db, i));
    AllIsEverySlot(slots, filled, FilledSlots(run[j].db, GateOf(run[j].db, i)), pick);
  }

  /** The slots of the gate at `k`: those held at `j` are filled, the approval fills one more,
      and the people are as many as the filled slots. */
  lemma SlotsOfEntry(
    g: Graph, run: seq<Machine>, j: nat, k: nat, a: Authorities, r: ActionRequest, pick: StepId)
    requires Approved(g, run, j, k, a, r, pick)
    ensures var i, db, db' := r.instance, run[k].db, Outcome(g, run, k, a, r, pick).db;
            var gate, held := GateOf(db, i), FilledSlots(run[j].db, GateOf(run[j].db, i));
            var filled, people := FilledSlots(db, gate), PeopleIn(db', gate);
            && held <= filled <= Slots(db, gate) && |HeldAt(run[j].db, i)| == |held|
            && pick in Slots(db, gate) && pick !in filled && FilledSlots(db', gate) == filled + {pick}
            && |people - HeldAt(run[j].db, i)| == |filled| + 1 - |held|
  {
    var i, db := r.instance, run[k].db;
    RunIsScoped(g, run, j);
    RunIsScoped(g, run, k);
    GateApproversDiffer(g, run[j].db, i);
    EarlierPeopleStay(g, run, j, k, i);
    FilledAfterApproval(g, a, db, r, pick);
    PeopleSince(g, a, db, r, pick, HeldAt(run[j].db, i));
    GatePassesOnEnoughPeople(g, a, db, r, pick);
  }

  /** Counting the slots of a gate that asks for all. */
  lemma AllIsEverySlot(slots: set<StepId>, filled: set<StepId>, held: set<StepId>, pick: StepId)
    requires held <= filled <= slots && pick in slots && pick !in filled
    ensures |slots - held| == |slots| - |held| >= 1
    ensures |filled| + 1 >= |slots| <==> filled + {pick} == slots
  {
    assert slots == (slots - held) + held;
    SubsetSize({pick}, slots - held);
    SubsetSize(filled + {pick}, slots);
  }

  /** A gate that asks for anyone passes on every approval, whoever approved before. */
  lemma AnyTakesOne(g: Graph, run: seq<Machine>, j: nat, k: nat, a: Authorities, r: ActionRequest, pick: StepId)
    requires Approved(g, run, j, k, a, r, pick) && run[k].db.instances[r.instance].current in g.states
    requires g.states[run[k].db.instances[r.instance].current].joinType == JoinAny
    ensures QuotaAt(g, run, j, k, r.instance) == 1
    ensures MovesIf(g, run[k].db, Outcome(g, run, k, a, r, pick).db, r.instance, true)
  {
    EntryTakesFreshPeople(g, run, j, k, a, r, pick);
    RunIsScoped(g, run, k);
    EarlierPeopleStay(g, run, j, k, r.instance);
    PeopleSince(g, a, run[k].db, r, pick, HeldAt(run[j].db, r.instance));
  }
}
