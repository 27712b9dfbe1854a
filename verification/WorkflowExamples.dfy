/** Small workflows on which what one might expect of the engine fails. */
module WorkflowExamples {
  import opened Collections
  import opened OrgScopes
  import opened WorkflowGraph
  import opened WorkflowEngine
  import opened WorkflowRuns
  import opened Approvals
  import opened GateEntries
  import opened AvailableActions

  function Plain(id: StateId, kind: Kind): State {
    State(id, "", kind, false, None, JoinAll, 1, None, None, false, false)
  }

  function Arc(source: StateId, target: StateId, action: Action, perm: Option<string>): Transition {
    Transition(source, target, action, perm, None, None, false)
  }

  const EMPTY: Db := Db(map[], map[], [], 0)

  function Request(action: Action, actor: UserId): ActionRequest {
    ActionRequest(0, action, actor, true, "", None)
  }

  /** With one transition to choose, that one is chosen. */
  lemma OnlyRoute(transitions: seq<Transition>, inst: Instance, action: Action, t: Transition)
    requires t in transitions && Routes(t, inst, action)
    requires forall u :: u in transitions && Routes(u, inst, action) ==> u == t
    ensures SelectTransition(transitions, inst, action) == Some(t)
  {
    SelectedRoutes(transitions, inst, action);
  }

  // ---- offered, and then refused ------------------------------------------------------------

  /** Two ways back, under different permissions. */
  const FORK: seq<Transition> := [Arc(1, 2, Return, Some("first")), Arc(1, 2, Return, Some("second"))]
  const FORK_STATES: seq<State> := [Plain(1, Initial), Plain(2, Terminal)]

  function Fork(): Graph {
    Graph(map[1 := Plain(1, Initial), 2 := Plain(2, Terminal)], FORK)
  }

  lemma TwoStatesAreWellFormed(first: State, last: State, transitions: seq<Transition>, t: Transition)
    requires first.kind == Initial && last.kind == Terminal && t in transitions
    requires forall u :: u in transitions ==> u.source == first.id && u.target == last.id
    ensures WellFormed([first, last], transitions)
  {
    var states := [first, last];
    assert states[0] == first && states[1] == last;
    assert forall s :: s in states <==> s == first || s == last;
    assert first.id in Ids(states) && last.id in Ids(states);
    assert HasExit(transitions, first.id);
    assert Reaches(transitions, first.id, first.id, 0);
    assert Reaches(transitions, first.id, last.id, 1);
    assert OnlyInitial(states, 0) && AllReachable(states, transitions, states[0].id);
  }

  function Begun(g: Graph): Db
    requires 1 in g.states
  {
    Started(g, EMPTY, 0, 1, Some(9), None, None, 0)
  }

  lemma BegunIsSound(g: Graph)
    requires 1 in g.states && KnownStates(g, EMPTY)
    ensures DbInv(g, Begun(g))
  {
    StartKeeps(g, EMPTY, 0, 1, Some(9), None, None, 0);
  }

  /** The holder of the second permission is offered the return, and refused. */
  lemma OfferedAndRefused()
    ensures WellFormed(FORK_STATES, FORK)
    ensures var g, a := Fork(), Lone(5, Some("second"));
            var db := Begun(g);
            && DbInv(g, db)
            && OfferedBy(g, a, db, 0, 5, Return, g.transitions)
            && ExecuteAction(g, a, db, Request(Return, 5), 0) == Failed(NotAuthorized)
  {
    TwoStatesAreWellFormed(Plain(1, Initial), Plain(2, Terminal), FORK, FORK[0]);
    BegunIsSound(Fork());
    SecondPermissionOffers(Begun(Fork()));
  }

  lemma SecondPermissionOffers(db: Db)
    requires KnownStates(Fork(), db) && 0 in db.instances && db.instances[0] == Instance(1, 1, 1, Some(9), None, None)
    ensures var g, a := Fork(), Lone(5, Some("second"));
            && OfferedBy(g, a, db, 0, 5, Return, g.transitions)
            && ExecuteAction(g, a, db, Request(Return, 5), 0) == Failed(NotAuthorized)
  {
    var g, a := Fork(), Lone(5, Some("second"));
    LoneHolds(5, Some("second"), Some("first"), None);
    LoneHolds(5, Some("second"), Some("second"), None);
    assert "first"[0] != "second"[0];
    assert FORK[1] in g.transitions && Offers(g, a, db, 0, 5, FORK[1]);
    assert SelectTransition(g.transitions, db.instances[0], Return) == Some(FORK[0]);
  }

  // ---- accepted, and not offered --------------------------------------------------------------

  /** An approval whose permission stands on the transition alone. */
  const HIDDEN: seq<Transition> := [Arc(1, 2, Approve, Some("approve"))]

  function Open(): State {
    Plain(1, Initial).(isApprovalGate := true)
  }

  function Hidden(): Graph {
    Graph(map[1 := Open(), 2 := Plain(2, Terminal)], HIDDEN)
  }

  /** Somebody without any permission is not offered the approval, and accepted. */
  lemma AcceptedAndNotOffered()
    ensures WellFormed([Open(), Plain(2, Terminal)], HIDDEN)
    ensures var g, a := Hidden(), Lone(5, None);
            var db := Begun(g);
            && DbInv(g, db)
            && !OfferedBy(g, a, db, 0, 5, Approve, g.transitions)
            && ExecuteAction(g, a, db, Request(Approve, 5), 0).Executed?
  {
    TwoStatesAreWellFormed(Open(), Plain(2, Terminal), HIDDEN, HIDDEN[0]);
    BegunIsSound(Hidden());
    var db := Begun(Hidden());
    assert 0 in db.steps && 0 in ActiveIn(db, GateOf(db, 0));
    assert db.steps[0].actedBy == None && forall s :: s in db.steps ==> s == 0;
    HiddenPermissionIsNotAsked(db);
  }

  lemma HiddenPermissionIsNotAsked(db: Db)
    requires KnownStates(Hidden(), db) && 0 in db.instances && db.instances[0] == Instance(1, 1, 1, Some(9), None, None)
    requires 0 in ActiveIn(db, GateOf(db, 0)) && db.steps[0].requiredPermission == None
    requires !ActedIn(db, GateOf(db, 0), 5)
    ensures var g, a := Hidden(), Lone(5, None);
            && !OfferedBy(g, a, db, 0, 5, Approve, g.transitions)
            && ExecuteAction(g, a, db, Request(Approve, 5), 0).Executed?
  {
    var g := Hidden();
    LoneHolds(5, None, Some("approve"), None);
    assert SelectTransition(g.transitions, db.instances[0], Approve) == Some(HIDDEN[0]);
  }

  // ---- one fresh approval for a quorum of two ---------------------------------------------------

  /** A draft is submitted to a gate of two slots with a quorum of two, which may return it. */
  const LOOP: seq<Transition> := [Arc(1, 2, Submit, None), Arc(2, 3, Approve, None), Arc(2, 1, Return, None)]

  function Gate(): State {
    Plain(2, Normal).(isApprovalGate := true, joinType := JoinQuorum, stepCount := 2, quorumCount := Some(2))
  }

  function Loop(): Graph {
    Graph(map[1 := Plain(1, Initial), 2 := Gate(), 3 := Plain(3, Terminal)], LOOP)
  }

  const LOOP_STATES: seq<State> := [Plain(1, Initial), Gate(), Plain(3, Terminal)]

  lemma OneArcFurther(transitions: seq<Transition>, start: StateId, t: Transition, k: nat)
    requires t in transitions && Reaches(transitions, start, t.source, k)
    ensures Reaches(transitions, start, t.target, k + 1)
  {
  }

  lemma LoopIsReachable()
    ensures AllReachable(LOOP_STATES, LOOP, 1)
  {
    assert LOOP[0] in LOOP && LOOP[1] in LOOP;
    var start := 0;
    assert Reaches(LOOP, 1, 1, start);
    OneArcFurther(LOOP, 1, LOOP[0], start);
    OneArcFurther(LOOP, 1, LOOP[1], start + 1);
    forall s | s in LOOP_STATES ensures Reachable(LOOP, 1, s.id) {
      assert s.id == 1 || s.id == 2 || s.id == 3;
    }
  }

  lemma LoopIsWellFormed()
    ensures WellFormed(LOOP_STATES, LOOP)
  {
    LoopIsReachable();
    assert LOOP_STATES[2] in LOOP_STATES;
    assert OnlyInitial(LOOP_STATES, 0) && LOOP_STATES[0].id == 1;
  }

  const NOBODY: Authorities := Authorities(map[], {}, [], None, 0, 0)

  /** Slot `k` of the gate, of the entry whose first slot is `first`. */
  function Slot(first: StepId, k: StepId, status: StepStatus, actor: Option<UserId>): Step {
    Step(0, 2, 1, k - first, JoinQuorum, Some(2), None, None, status, actor, None, None, 0)
  }

  /** The rows with the two slots of a gate just entered. */
  function WithSlots(steps: map<StepId, Step>, first: StepId): map<StepId, Step> {
    steps[first := Slot(first, first, Active, None)][first + 1 := Slot(first, first + 1, Active, None)]
  }

  /** The instance stands in `state`, and these are the step rows. */
  ghost predicate Stands(db: Db, state: StateId, steps: map<StepId, Step>, nextStep: StepId) {
    && KnownStates(Loop(), db) && 0 in db.instances && db.steps == steps && db.nextStep == nextStep
    && db.instances[0] == Instance(state, db.instances[0].rowVersion, 1, Some(9), None, None)
  }

  function Do(db: Db, action: Action, actor: UserId, pick: StepId): ActionResult
    requires KnownStates(Loop(), db)
  {
    ExecuteAction(Loop(), NOBODY, db, Request(action, actor), pick)
  }

  lemma SubmitOpens(db: Db, steps: map<StepId, Step>, first: StepId)
    requires Stands(db, 1, steps, first)
    ensures Do(db, Submit, 9, 0).Executed?
    ensures Stands(Do(db, Submit, 9, 0).db, 2, WithSlots(steps, first), first + 2)
  {
    OnlyRoute(LOOP, db.instances[0], Submit, LOOP[0]);
    var x := Do(db, Submit, 9, 0);
    assert x == Finish(Loop(), db, Request(Submit, 9), 2, None, None, 0);
    FinishEffect(Loop(), db, Request(Submit, 9), 2, None, None, 0);
    var next, recorded := FinishIsMoveThenOpen(Loop(), db, Request(Submit, 9), 2, None, None, 0);
    GateOpens(recorded, next, first);
  }

  /** Entering the gate adds its two slots. */
  lemma GateOpens(db: Db, inst: Instance, first: StepId)
    requires 0 in db.instances && db.instances[0] == inst && db.nextStep == first
    requires inst.current == 2 && inst.revision == 1 && inst.orgUnit == None
    ensures var db' := Activated(Loop(), db, 0, 0);
            && db'.nextStep == first + 2 && db'.instances == db.instances
            && db'.steps == WithSlots(db.steps, first)
  {
  }

  lemma ReturnCloses(db: Db, left: Step, right: Step)
    requires left == Slot(0, 0, Done, Some(10)) && right == Slot(0, 1, Active, None)
    requires Stands(db, 2, map[0 := left, 1 := right], 2)
    ensures Do(db, Return, 11, 0).Executed?
    ensures Stands(Do(db, Return, 11, 0).db, 1, map[0 := left, 1 := Slot(0, 1, Returned, Some(11))], 2)
  {
    OnlyRoute(LOOP, db.instances[0], Return, LOOP[2]);
  }

  lemma FirstApprovalStays(db: Db)
    requires Stands(db, 2, map[0 := Slot(0, 0, Active, None), 1 := Slot(0, 1, Active, None)], 2)
    ensures Do(db, Approve, 10, 0).Executed?
    ensures Stands(Do(db, Approve, 10, 0).db, 2, map[0 := Slot(0, 0, Done, Some(10)), 1 := Slot(0, 1, Active, None)], 2)
  {
    OnlyRoute(LOOP, db.instances[0], Approve, LOOP[1]);
    var gate := GateOf(db, 0);
    assert gate == {0, 1};
    var filled := Filled(db, 0, 10, None);
    assert FilledSlots(filled, gate) == {0} && Slots(db, gate) == {0, 1};
    JoinCountsPeople(db, gate, 0, 10, None);
  }

  /** The rows when the gate has been entered for the second time. */
  function Reentered(): map<StepId, Step> {
    map[0 := Slot(0, 0, Done, Some(10)), 1 := Slot(0, 1, Returned, Some(11)),
        2 := Slot(2, 2, Active, None), 3 := Slot(2, 3, Active, None)]
  }

  lemma ReenteredSlots(db: Db)
    requires Stands(db, 2, Reentered(), 4)
    ensures GateOf(db, 0) == {0, 1, 2, 3} && PeopleIn(db, GateOf(db, 0)) == {10}
    ensures 2 in ActiveIn(db, GateOf(db, 0)) && !ActedIn(db, GateOf(db, 0), 12)
    ensures JoinSatisfied(Filled(db, 2, 12, None).steps, GateOf(db, 0), JoinQuorum, Some(2))
  {
    var gate := GateOf(db, 0);
    assert gate == {0, 1, 2, 3};
    assert FilledSlots(db, gate) == {0};
    assert FilledSlots(Filled(db, 2, 12, None), gate) == {0, 2};
    JoinCountsPeople(db, gate, 2, 12, None);
  }

  lemma SecondApprovalPasses(db: Db)
    requires Stands(db, 2, Reentered(), 4)
    ensures PeopleIn(db, GateOf(db, 0)) == {10}
    ensures Do(db, Approve, 12, 2).Executed? && 0 in Do(db, Approve, 12, 2).db.instances
    ensures Do(db, Approve, 12, 2).db.instances[0].current == 3
  {
    OnlyRoute(LOOP, db.instances[0], Approve, LOOP[1]);
    ReenteredSlots(db);
    FinishEffect(Loop(), SkipRest(Filled(db, 2, 12, None), GateOf(db, 0)), Request(Approve, 12), 3, None, Some(2), 0);
  }

  /** The action was accepted, and led from `db` to `db'`. */
  ghost predicate Did(db: Db, action: Action, actor: UserId, pick: StepId, db': Db) {
    KnownStates(Loop(), db) && Do(db, action, actor, pick).Executed? && db' == Do(db, action, actor, pick).db
  }

  lemma UpToReturn() returns (db1: Db, db2: Db, db3: Db)
    ensures var db0 := Begun(Loop());
            Did(db0, Submit, 9, 0, db1) && Did(db1, Approve, 10, 0, db2) && Did(db2, Return, 11, 0, db3)
    ensures Stands(db3, 1, map[0 := Slot(0, 0, Done, Some(10)), 1 := Slot(0, 1, Returned, Some(11))], 2)
  {
    var db0 := Begun(Loop());
    SubmitOpens(db0, map[], 0);
    db1 := Do(db0, Submit, 9, 0).db;
    assert db1.steps == map[0 := Slot(0, 0, Active, None), 1 := Slot(0, 1, Active, None)];
    FirstApprovalStays(db1);
    db2 := Do(db1, Approve, 10, 0).db;
    ReturnCloses(db2, Slot(0, 0, Done, Some(10)), Slot(0, 1, Active, None));
    db3 := Do(db2, Return, 11, 0).db;
  }

  /** Start, submit, one approval, a return, submit again: the gate asks for two people, and
      lets the instance pass on the next approval alone. */
  lemma OneFreshApprovalPasses() returns (db1: Db, db2: Db, db3: Db, db4: Db, db5: Db)
    ensures WellFormed(LOOP_STATES, LOOP)
    ensures Did(Begun(Loop()), Submit, 9, 0, db1) && Did(db1, Approve, 10, 0, db2) && Did(db2, Return, 11, 0, db3)
    ensures Did(db3, Submit, 9, 0, db4) && Did(db4, Approve, 12, 2, db5)
    ensures 0 in db4.instances && db4.instances[0].current == 2 && PeopleIn(db4, GateOf(db4, 0)) == {10}
    ensures 0 in db5.instances && db5.instances[0].current == 3
  {
    LoopIsWellFormed();
    db1, db2, db3 := UpToReturn();
    SubmitOpens(db3, db3.steps, 2);
    db4 := Do(db3, Submit, 9, 0).db;
    assert db4.steps == Reentered();
    SecondApprovalPasses(db4);
    db5 := Do(db4, Approve, 12, 2).db;
  }
}
