/** What the engine answers to a request and what an accepted action does, spelled out over the
    rows, the transitions, the grants and the delegations. */
module ActionLaws {
  import opened Collections
  import opened OrgScopes
  import opened WorkflowGraph
  import opened WorkflowEngine
  import opened WorkflowRuns
  import opened Approvals
  import AvailableActions

  // ---- routing ------------------------------------------------------------------------------

  /** The n-th transition goes from the instance's state by the action, and its amount bounds,
      where it has any, hold the instance's amount. */
  ghost predicate Leads(transitions: seq<Transition>, inst: Instance, action: Action, n: nat) {
    && n < |transitions|
    && var t := transitions[n];
       && t.source == inst.current && t.action == action
       && (t.minAmount.Some? ==> inst.amount.Some? && t.minAmount.value <= inst.amount.value)
       && (t.maxAmount.Some? ==> inst.amount.Some? && inst.amount.value <= t.maxAmount.value)
  }

  /** It is the first one in order that does. */
  ghost predicate LeadsFirst(transitions: seq<Transition>, inst: Instance, action: Action, n: nat) {
    Leads(transitions, inst, action, n) && forall m: nat :: m < n ==> !Leads(transitions, inst, action, m)
  }

  lemma {:induction false} SelectedIsFirst(transitions: seq<Transition>, inst: Instance, action: Action)
    returns (n: nat)
    ensures var t := SelectTransition(transitions, inst, action);
            if t.None? then forall m: nat :: !Leads(transitions, inst, action, m)
            else LeadsFirst(transitions, inst, action, n) && t.value == transitions[n]
    decreases |transitions|
  {
    n := 0;
    if transitions != [] {
      assert Routes(transitions[0], inst, action) <==> Leads(transitions, inst, action, 0);
      if !Routes(transitions[0], inst, action) {
        var k := SelectedIsFirst(transitions[1..], inst, action);
        forall m: nat ensures Leads(transitions, inst, action, m + 1) <==> Leads(transitions[1..], inst, action, m) {
        }
        forall m: nat | Leads(transitions, inst, action, m)
          ensures m > 0 && Leads(transitions[1..], inst, action, m - 1)
        {
        }
        n := k + 1;
      }
    }
  }

  lemma FirstIsUnique(transitions: seq<Transition>, inst: Instance, action: Action, m: nat, n: nat)
    requires LeadsFirst(transitions, inst, action, m) && LeadsFirst(transitions, inst, action, n)
    ensures m == n
  {
  }

  // ---- replays --------------------------------------------------------------------------------

  /** The n-th event is the first of the instance with the key. */
  ghost predicate RecordedFirst(events: seq<WfEvent>, i: InstanceId, key: string, n: nat) {
    && n < |events| && events[n].instance == i && events[n].key == key
    && forall m :: 0 <= m < n ==> events[m].instance != i || events[m].key != key
  }

  lemma {:induction false} ReplayIsFirst(events: seq<WfEvent>, i: InstanceId, key: string) returns (n: nat)
    ensures var e := FirstWithKey(events, i, key);
            if e.None? then forall m :: 0 <= m < |events| ==> events[m].instance != i || events[m].key != key
            else RecordedFirst(events, i, key, n) && e.value == events[n]
    decreases |events|
  {
    n := 0;
    if events != [] && !(events[0].instance == i && events[0].key == key) {
      var rest := events[1..];
      var k := ReplayIsFirst(rest, i, key);
      assert forall m :: 0 < m < |events| ==> events[m] == rest[m - 1];
      n := k + 1;
    }
  }

  // ---- what is answered -------------------------------------------------------------------------

  /** The request repeats a key under which an event of the instance is recorded. */
  ghost predicate Repeats(db: Db, r: ActionRequest) {
    && r.instance in db.instances && r.key != ""
    && exists n :: 0 <= n < |db.events| && db.events[n].instance == r.instance && db.events[n].key == r.key
  }

  ghost predicate IsNew(db: Db, r: ActionRequest) {
    r.instance in db.instances && !Repeats(db, r)
  }

  ghost predicate UpToDate(db: Db, r: ActionRequest) {
    IsNew(db, r) && (r.expectedVersion.Some? ==> r.expectedVersion.value == db.instances[r.instance].rowVersion)
  }

  ghost predicate IsOpen(g: Graph, db: Db, r: ActionRequest) {
    && UpToDate(db, r) && db.instances[r.instance].current in g.states
    && g.states[db.instances[r.instance].current].kind != Terminal
  }

  ghost predicate AsksComment(g: Graph, inst: Instance, n: nat) {
    n < |g.transitions| && inst.current in g.states
    && (g.transitions[n].requiresComment || g.states[inst.current].requiresComment)
  }

  /** The request is new, up to date, about an open instance, has a route, the n-th transition,
      and a comment where one is asked for. */
  ghost predicate Admitted(g: Graph, db: Db, r: ActionRequest, n: nat) {
    && IsOpen(g, db, r) && LeadsFirst(g.transitions, db.instances[r.instance], r.action, n)
    && (AsksComment(g, db.instances[r.instance], n) ==> r.hasComment)
  }

  /** Each refusal before anyone's authority is looked at, and when it is given. */
  lemma AnswersInOrder(g: Graph, a: Authorities, db: Db, r: ActionRequest, pick: StepId)
    requires KnownStates(g, db)
    ensures var x := ExecuteAction(g, a, db, r, pick);
            && (x == Failed(InstanceNotFound) <==> r.instance !in db.instances)
            && (x.Replayed? <==> Repeats(db, r))
            && (x == Failed(StaleVersion) <==> IsNew(db, r) && !UpToDate(db, r))
            && (x == Failed(StateConflict) <==> UpToDate(db, r) && !IsOpen(g, db, r))
            && (x == Failed(TransitionNotAllowed) <==>
                  IsOpen(g, db, r) && forall n: nat :: !Leads(g.transitions, db.instances[r.instance], r.action, n))
            && (x == Failed(CommentRequired) <==>
                  IsOpen(g, db, r) && exists n: nat :: Uncommented(g, db, r, n))
  {
    if r.instance in db.instances {
      var inst := db.instances[r.instance];
      var m := ReplayIsFirst(db.events, r.instance, r.key);
      var n := SelectedIsFirst(g.transitions, inst, r.action);
      SelectedRoutes(g.transitions, inst, r.action);
      if SelectTransition(g.transitions, inst, r.action).Some? {
        assert AsksComment(g, inst, n) && !r.hasComment ==> Uncommented(g, db, r, n);
        forall k: nat | Uncommented(g, db, r, k) ensures k == n {
          FirstIsUnique(g.transitions, inst, r.action, k, n);
        }
      }
    }
  }

  /** The route asks for a comment and there is none. */
  ghost predicate Uncommented(g: Graph, db: Db, r: ActionRequest, n: nat) {
    && r.instance in db.instances && LeadsFirst(g.transitions, db.instances[r.instance], r.action, n)
    && AsksComment(g, db.instances[r.instance], n) && !r.hasComment
  }

  /** A repeated key is answered with the first event recorded under it. */
  lemma RepeatIsAnswered(g: Graph, a: Authorities, db: Db, r: ActionRequest, pick: StepId) returns (n: nat)
    requires KnownStates(g, db) && Repeats(db, r)
    ensures RecordedFirst(db.events, r.instance, r.key, n)
    ensures ExecuteAction(g, a, db, r, pick) == Replayed(db.events[n])
  {
    n := ReplayIsFirst(db.events, r.instance, r.key);
  }

  // ---- who may act --------------------------------------------------------------------------------

  /** The permission over the unit is not asked for, or the actor holds it or is lent it. */
  ghost predicate MayAct(a: Authorities, actor: UserId, perm: Option<string>, unit: Option<UnitId>) {
    MayUse(a.units, a.grants, a.delegations, actor, perm, unit, a.definition, a.now, a.clock)
  }

  lemma AuthIsMayAct(a: Authorities, actor: UserId, perm: Option<string>, unit: Option<UnitId>)
    ensures Auth(a, actor, perm, unit).authorized <==> MayAct(a, actor, perm, unit)
  {
    AuthorityIsSpelledOut(a.units, a.grants, a.delegations, actor, perm, unit, a.definition, a.now, a.clock);
  }

  lemma AdmittedIsRouted(g: Graph, db: Db, r: ActionRequest, n: nat)
    requires KnownStates(g, db) && Admitted(g, db, r, n)
    ensures SelectTransition(g.transitions, db.instances[r.instance], r.action) == Some(g.transitions[n])
    ensures r.key == "" || FirstWithKey(db.events, r.instance, r.key).None?
  {
    var inst := db.instances[r.instance];
    var m := SelectedIsFirst(g.transitions, inst, r.action);
    FirstIsUnique(g.transitions, inst, r.action, m, n);
    var k := ReplayIsFirst(db.events, r.instance, r.key);
  }

  /** A submit, a resubmit or a cancel that is admitted is accepted exactly from the originator
      and from those who may use the permission of its transition. */
  lemma OriginatorActs(g: Graph, a: Authorities, db: Db, r: ActionRequest, pick: StepId, n: nat)
    requires KnownStates(g, db) && Admitted(g, db, r, n)
    requires r.action != Approve && r.action != Return && r.action != Reject
    ensures var x, inst := ExecuteAction(g, a, db, r, pick), db.instances[r.instance];
            && (x.Executed? <==>
                  || inst.originator == Some(r.actor)
                  || MayAct(a, r.actor, g.transitions[n].requiredPermission, inst.orgUnit))
            && (!x.Executed? ==> x == Failed(NotAuthorized))
  {
    AdmittedIsRouted(g, db, r, n);
    SelectedRoutes(g.transitions, db.instances[r.instance], r.action);
    AuthIsMayAct(a, r.actor, g.transitions[n].requiredPermission, db.instances[r.instance].orgUnit);
  }

  /** The permission a return or a reject asks for: the state's own or, without one, the transition's. */
  ghost predicate IsGatePermission(g: Graph, inst: Instance, n: nat, perm: Option<string>) {
    && n < |g.transitions| && inst.current in g.states
    && var own := g.states[inst.current].requiredPermission;
       perm == if own.None? || own == Some("") then g.transitions[n].requiredPermission else own
  }

  lemma GateIsResolved(
    g: Graph, a: Authorities, db: Db, r: ActionRequest, pick: StepId, n: nat, perm: Option<string>)
    requires KnownStates(g, db) && Admitted(g, db, r, n) && (r.action == Return || r.action == Reject)
    requires IsGatePermission(g, db.instances[r.instance], n, perm)
    ensures var x := ExecuteAction(g, a, db, r, pick);
            && (x.Executed? <==> MayAct(a, r.actor, perm, db.instances[r.instance].orgUnit))
            && (!x.Executed? ==> x == Failed(NotAuthorized))
  {
    AdmittedIsRouted(g, db, r, n);
    SelectedRoutes(g.transitions, db.instances[r.instance], r.action);
    AuthIsMayAct(a, r.actor, perm, db.instances[r.instance].orgUnit);
  }

  /** A row of the gate where the instance stands: of its state and its revision. */
  ghost predicate InGate(db: Db, i: InstanceId, s: StepId) {
    && i in db.instances && s in db.steps && db.steps[s].instance == i
    && db.steps[s].state == db.instances[i].current && db.steps[s].revision == db.instances[i].revision
  }

  /** The person has filled a slot of the gate. */
  ghost predicate HasFilled(db: Db, i: InstanceId, person: UserId) {
    exists s :: InGate(db, i, s) && db.steps[s].status == Done && db.steps[s].actedBy == Some(person)
  }

  ghost predicate IsOpenSlot(db: Db, i: InstanceId, s: StepId) {
    InGate(db, i, s) && db.steps[s].status == Active
  }

  /** Two slots of the gate filled by one person. */
  ghost predicate SomeoneFilledTwo(db: Db, i: InstanceId) {
    exists s, t :: FilledByOne(db, i, s, t)
  }

  ghost predicate FilledByOne(db: Db, i: InstanceId, s: StepId, t: StepId) {
    && s != t && InGate(db, i, s) && InGate(db, i, t) && db.steps[s].status == Done && db.steps[t].status == Done
    && db.steps[s].actedBy.Some? && db.steps[s].actedBy == db.steps[t].actedBy
  }

  /** An approval that is admitted is refused, in this order, to someone who has filled a slot or
      when there is no open one, to someone without authority, and for segregation of duties. */
  lemma ApprovalIsDecided(g: Graph, a: Authorities, db: Db, r: ActionRequest, pick: StepId, n: nat)
    requires KnownStates(g, db) && Admitted(g, db, r, n) && r.action == Approve
    ensures var x, i, inst := ExecuteAction(g, a, db, r, pick), r.instance, db.instances[r.instance];
            if HasFilled(db, i, r.actor) || !IsOpenSlot(db, i, pick) then x == Failed(AlreadyActed)
            else if !MayAct(a, r.actor, db.steps[pick].requiredPermission, db.steps[pick].orgUnit) then
              x == Failed(NotAuthorized)
            else if && g.states[inst.current].enforceSegregation && inst.originator.Some?
                    && (|| inst.originator == Some(r.actor) || HasFilled(db, i, inst.originator.value)
                        || SomeoneFilledTwo(db, i))
              then x == Failed(SegregationOfDuties)
            else x.Executed?
  {
    var i, inst, gate := r.instance, db.instances[r.instance], GateOf(db, r.instance);
    AdmittedIsRouted(g, db, r, n);
    SelectedRoutes(g.transitions, inst, r.action);
    forall s ensures InGate(db, i, s) <==> s in gate {
    }
    forall p ensures HasFilled(db, i, p) <==> ActedIn(db, gate, p) {
    }
    if IsOpenSlot(db, i, pick) {
      AuthIsMayAct(a, r.actor, db.steps[pick].requiredPermission, db.steps[pick].orgUnit);
      if inst.originator.Some? && !HasFilled(db, i, r.actor) {
        SegregationIsSpelledOut(db, i, inst.originator.value, r.actor);
      }
    }
  }

  lemma SegregationIsSpelledOut(db: Db, i: InstanceId, maker: UserId, actor: UserId)
    requires i in db.instances && !HasFilled(db, i, actor)
    ensures Segregated(db, GateOf(db, i), maker, actor) <==>
              actor != maker && !HasFilled(db, i, maker) && !SomeoneFilledTwo(db, i)
  {
    var gate := GateOf(db, i);
    forall s ensures InGate(db, i, s) <==> s in gate {
    }
    forall p ensures HasFilled(db, i, p) <==> ActedIn(db, gate, p) {
    }
    if SomeoneFilledTwo(db, i) {
      var s, t :| FilledByOne(db, i, s, t);
      assert !Segregated(db, gate, maker, actor);
    } else if actor != maker && !HasFilled(db, i, maker) {
      forall s, t | s in gate && t in gate && s != t && db.steps[s].status == Done && db.steps[t].status == Done
                    && db.steps[s].actedBy.Some?
        ensures db.steps[s].actedBy != db.steps[t].actedBy
      {
        assert !FilledByOne(db, i, s, t);
      }
    }
  }

  // ---- what is offered ------------------------------------------------------------------------------

  /** The n-th transition offers its action to someone when it leads on and they may take it: an
      approval, when a slot is open, they have filled none, and they are not an originator whom
      the state keeps from checking. */
  lemma OfferIsSpelledOut(
    g: Graph, a: Authorities, db: Db, i: InstanceId, actor: UserId, n: nat, perm: Option<string>)
    requires AvailableActions.KnownInstance(g, db, i) && IsGatePermission(g, db.instances[i], n, perm)
    ensures var t, inst := g.transitions[n], db.instances[i];
            AvailableActions.Offers(g, a, db, i, actor, t) <==>
              && Leads(g.transitions, inst, t.action, n)
              && (t.action == Approve ==>
                    && (exists s :: IsOpenSlot(db, i, s)) && !HasFilled(db, i, actor)
                    && !(g.states[inst.current].enforceSegregation && inst.originator == Some(actor)))
              && (t.action == Approve || t.action == Return || t.action == Reject ==>
                    MayAct(a, actor, perm, inst.orgUnit))
              && (t.action != Approve && t.action != Return && t.action != Reject ==>
                    inst.originator == Some(actor) || MayAct(a, actor, t.requiredPermission, inst.orgUnit))
  {
    var gate := GateOf(db, i);
    AuthIsMayAct(a, actor, perm, db.instances[i].orgUnit);
    AuthIsMayAct(a, actor, g.transitions[n].requiredPermission, db.instances[i].orgUnit);
    forall s ensures IsOpenSlot(db, i, s) <==> s in ActiveIn(db, gate) {
    }
    if ActiveIn(db, gate) != {} {
      assert IsOpenSlot(db, i, Pick(ActiveIn(db, gate)));
    }
    forall s ensures InGate(db, i, s) <==> s in gate {
    }
    forall p ensures HasFilled(db, i, p) <==> ActedIn(db, gate, p) {
    }
  }
}
