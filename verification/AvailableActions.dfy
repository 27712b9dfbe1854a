/** The actions a user is offered, against those that executing accepts.

    The source promises that an offered action is one the executor would accept. Whether
    that holds, and its converse, depends on the permissions of the transitions that
    share a state and an action; both conditions are given exactly. */
module AvailableActions {
  import opened Collections
  import opened OrgScopes
  import opened WorkflowGraph
  import opened WorkflowEngine
  import opened WorkflowRuns

  // ---- offering -------------------------------------------------------------------------

  predicate KnownInstance(g: Graph, db: Db, i: InstanceId) {
    i in db.instances && db.instances[i].current in g.states
  }

  /** The guards of one transition, for one actor. */
  predicate Offers(g: Graph, a: Authorities, db: Db, i: InstanceId, actor: UserId, t: Transition)
    requires KnownInstance(g, db, i)
  {
    var inst := db.instances[i];
    var state := g.states[inst.current];
    && Routes(t, inst, t.action)
    && (t.action == Approve ==>
          && ActiveIn(db, GateOf(db, i)) != {} && !ActedIn(db, GateOf(db, i), actor)
          && !(state.enforceSegregation && inst.originator == Some(actor)))
    && (if IsGateAction(t.action)
        then Auth(a, actor, OrElse(state.requiredPermission, t.requiredPermission), inst.orgUnit)
        else OriginatorAuthority(a, inst, t, actor)).authorized
  }

  ghost predicate OfferedBy(
    g: Graph, a: Authorities, db: Db, i: InstanceId, actor: UserId, action: Action, transitions: seq<Transition>)
    requires KnownInstance(g, db, i)
  {
    exists t :: t in transitions && t.action == action && Offers(g, a, db, i, actor, t)
  }

  method AvailableActions(g: Graph, a: Authorities, db: Db, i: InstanceId, actor: UserId)
    returns (r: Option<seq<Action>>)
    requires KnownStates(g, db)
    ensures r.None? <==> i !in db.instances
    ensures r.Some? && g.states[db.instances[i].current].kind == Terminal ==> r.value == []
    ensures r.Some? && g.states[db.instances[i].current].kind != Terminal ==>
              forall x :: x in r.value <==> OfferedBy(g, a, db, i, actor, x, g.transitions)
    ensures r.Some? ==> forall j, k :: 0 <= j < k < |r.value| ==> r.value[j] != r.value[k]
  {
    if i !in db.instances {
      return None;
    }
    var inst := db.instances[i];
    if g.states[inst.current].kind == Terminal {
      return Some([]);
    }
    var allowed: seq<Action> := [];
    for n := 0 to |g.transitions|
      invariant forall x :: x in allowed <==> OfferedBy(g, a, db, i, actor, x, g.transitions[..n])
      invariant forall j, k :: 0 <= j < k < |allowed| ==> allowed[j] != allowed[k]
    {
      var t := g.transitions[n];
      assert g.transitions[..n + 1] == g.transitions[..n] + [t];
      forall x
        ensures OfferedBy(g, a, db, i, actor, x, g.transitions[..n + 1]) <==>
                  || OfferedBy(g, a, db, i, actor, x, g.transitions[..n])
                  || (x == t.action && Offers(g, a, db, i, actor, t))
      {
      }
      if t.action !in allowed && Offers(g, a, db, i, actor, t) {
        allowed := allowed + [t.action];
      }
    }
    assert g.transitions[..|g.transitions|] == g.transitions;
    return Some(allowed);
  }

  // ---- accepting ------------------------------------------------------------------------------

  /** Executing, sent plainly: with a comment, and without a key or an expected version. */
  predicate Accepts(g: Graph, a: Authorities, db: Db, i: InstanceId, actor: UserId, action: Action, pick: StepId)
    requires KnownStates(g, db)
  {
    ExecuteAction(g, a, db, ActionRequest(i, action, actor, true, "", None), pick).Executed?
  }

  /** What the executor asks of the actor, read off the first routed transition. */
  ghost predicate Passes(g: Graph, a: Authorities, db: Db, i: InstanceId, actor: UserId, t: Transition)
    requires KnownInstance(g, db, i)
  {
    var inst := db.instances[i];
    var state := g.states[inst.current];
    if t.action == Approve then
      && !ActedIn(db, GateOf(db, i), actor)
      && !(state.enforceSegregation && inst.originator == Some(actor))
      && Auth(a, actor, state.requiredPermission, inst.orgUnit).authorized
    else Offers(g, a, db, i, actor, t)
  }

  /** An action somebody could take: the state is not terminal, a transition routes it, and
      an approval finds an open slot, which `pick` names. */
  ghost predicate Possible(g: Graph, db: Db, i: InstanceId, action: Action, pick: StepId)
    requires KnownInstance(g, db, i)
  {
    && g.states[db.instances[i].current].kind != Terminal
    && SelectTransition(g.transitions, db.instances[i], action).Some?
    && (action == Approve ==> pick in ActiveIn(db, GateOf(db, i)))
  }

  /** In every reachable database the segregation check comes down to the actor not being
      the originator: earlier slots were filled under the same check. */
  lemma AcceptsIsPasses(g: Graph, a: Authorities, db: Db, i: InstanceId, actor: UserId, action: Action, pick: StepId)
    requires DbInv(g, db) && i in db.instances && Possible(g, db, i, action, pick)
    ensures var t := SelectTransition(g.transitions, db.instances[i], action).value;
            t in g.transitions && Routes(t, db.instances[i], action)
            && (Accepts(g, a, db, i, actor, action, pick) <==> Passes(g, a, db, i, actor, t))
  {
    var inst := db.instances[i];
    var gate := GateOf(db, i);
    SelectedRoutes(g.transitions, inst, action);
    if action == Approve {
      forall s | s in gate && db.steps[s].status == Done ensures SlotIsProper(g, db, s) {
      }
      assert forall s, t :: s in gate && t in gate && s != t && db.steps[s].status == Done && db.steps[t].status == Done
                            ==> BothDone(db.steps[s], db.steps[t]);
    }
  }

  // ---- authorities that tell two permissions apart ---------------------------------------------

  /** Nobody holds anything, except that `actor` holds `held` everywhere. */
  function Lone(actor: UserId, held: Option<string>): Authorities {
    Authorities(map[], if held.Some? then {Grant(actor, held.value, None, None, None, false)} else {}, [], None, 0, 0)
  }

  lemma LoneHolds(actor: UserId, held: Option<string>, perm: Option<string>, unit: Option<UnitId>)
    ensures Auth(Lone(actor, held), actor, perm, unit).authorized <==> perm.None? || perm == held
  {
    var a := Lone(actor, held);
    if perm.Some? {
      var scopes := ScopedOrgUnits(a.grants, actor, perm.value, 0);
      if perm == held {
        assert Grant(actor, perm.value, None, None, None, false) in a.grants;
        assert None in scopes;
      } else {
        assert scopes == {};
      }
    }
  }

  lemma {:induction false} Bounded(s: set<int>) returns (n: int)
    ensures forall x :: x in s ==> x < n
  {
    if s == {} {
      n := 0;
    } else {
      var x := Pick(s);
      var m := Bounded(s - {x});
      n := if m > x then m else x + 1;
      assert forall y :: y in s ==> y == x || y in s - {x};
    }
  }

  /** Someone who neither originated the instance nor filled any slot. */
  lemma Outsider(db: Db, i: InstanceId) returns (actor: UserId)
    requires i in db.instances
    ensures db.instances[i].originator != Some(actor)
    ensures forall s :: s in db.steps ==> db.steps[s].actedBy != Some(actor)
  {
    var involved := (set s | s in db.steps && db.steps[s].actedBy.Some? :: db.steps[s].actedBy.value)
                  + (if db.instances[i].originator.Some? then {db.instances[i].originator.value} else {});
    actor := Bounded(involved);
    forall s | s in db.steps ensures db.steps[s].actedBy != Some(actor) {
      if db.steps[s].actedBy.Some? {
        assert db.steps[s].actedBy.value in involved;
      }
    }
    if db.instances[i].originator.Some? {
      assert db.instances[i].originator.value in involved;
    }
  }

  // ---- offered is accepted ------------------------------------------------------------------------

  /** The permission that offering an action through `t` asks for. */
  function OfferPermission(g: Graph, inst: Instance, t: Transition): Option<string>
    requires inst.current in g.states
  {
    if IsGateAction(t.action) then OrElse(g.states[inst.current].requiredPermission, t.requiredPermission)
    else t.requiredPermission
  }

  /** The permission that executing through `t` asks for: an approval asks for the one
      pinned on the open step, which is the state's. */
  function ExecutePermission(g: Graph, inst: Instance, t: Transition): Option<string>
    requires inst.current in g.states
  {
    if t.action == Approve then g.states[inst.current].requiredPermission else OfferPermission(g, inst, t)
  }

  /** Every transition that could offer the action asks for what executing it asks for. */
  ghost predicate OffersAskEnough(g: Graph, inst: Instance, t0: Transition)
    requires inst.current in g.states
  {
    || ExecutePermission(g, inst, t0).None?
    || forall t :: t in g.transitions && Routes(t, inst, t0.action) ==>
         OfferPermission(g, inst, t) == ExecutePermission(g, inst, t0)
  }

  ghost predicate OfferIsHonest(
    g: Graph, a: Authorities, db: Db, i: InstanceId, actor: UserId, action: Action, pick: StepId)
    requires KnownStates(g, db) && i in db.instances
  {
    OfferedBy(g, a, db, i, actor, action, g.transitions) ==> Accepts(g, a, db, i, actor, action, pick)
  }

  lemma HonestWhenEnough(g: Graph, a: Authorities, db: Db, i: InstanceId, actor: UserId, action: Action, pick: StepId)
    requires DbInv(g, db) && i in db.instances && Possible(g, db, i, action, pick)
    requires OffersAskEnough(g, db.instances[i], SelectTransition(g.transitions, db.instances[i], action).value)
    ensures OfferIsHonest(g, a, db, i, actor, action, pick)
  {
    AcceptsIsPasses(g, a, db, i, actor, action, pick);
  }

  /** The whole promise, for one action of one instance: an offered action is accepted,
      whoever the actor is and whatever the grants and delegations are, exactly when the
      routed transitions do not ask for different permissions. */
  lemma OfferedIsAccepted(g: Graph, db: Db, i: InstanceId, action: Action, pick: StepId)
    requires DbInv(g, db) && i in db.instances && Possible(g, db, i, action, pick)
    ensures (forall a, actor :: OfferIsHonest(g, a, db, i, actor, action, pick))
       <==> OffersAskEnough(g, db.instances[i], SelectTransition(g.transitions, db.instances[i], action).value)
  {
    var inst := db.instances[i];
    var t0 := SelectTransition(g.transitions, inst, action).value;
    if OffersAskEnough(g, inst, t0) {
      forall a, actor ensures OfferIsHonest(g, a, db, i, actor, action, pick) {
        HonestWhenEnough(g, a, db, i, actor, action, pick);
      }
    } else {
      SelectedRoutes(g.transitions, inst, action);
      var t :| t in g.transitions && Routes(t, inst, t0.action)
        && OfferPermission(g, inst, t) != ExecutePermission(g, inst, t0);
      var actor := Outsider(db, i);
      var a := Lone(actor, OfferPermission(g, inst, t));
      LoneHolds(actor, OfferPermission(g, inst, t), OfferPermission(g, inst, t), inst.orgUnit);
      LoneHolds(actor, OfferPermission(g, inst, t), ExecutePermission(g, inst, t0), inst.orgUnit);
      assert Offers(g, a, db, i, actor, t);
      AcceptsIsPasses(g, a, db, i, actor, action, pick);
      assert !OfferIsHonest(g, a, db, i, actor, action, pick);
    }
  }

  // ---- accepted is offered ------------------------------------------------------------------------

  /** Some transition offers the action on no more than executing it asks for. */
  ghost predicate OffersAskNoMore(g: Graph, inst: Instance, t0: Transition)
    requires inst.current in g.states
  {
    exists t :: t in g.transitions && Routes(t, inst, t0.action)
                && (OfferPermission(g, inst, t).None? || OfferPermission(g, inst, t) == ExecutePermission(g, inst, t0))
  }

  ghost predicate AcceptanceIsOffered(
    g: Graph, a: Authorities, db: Db, i: InstanceId, actor: UserId, action: Action, pick: StepId)
    requires KnownStates(g, db) && i in db.instances
  {
    Accepts(g, a, db, i, actor, action, pick) ==> OfferedBy(g, a, db, i, actor, action, g.transitions)
  }

  /** Conversely every accepted action is offered exactly when some routed transition asks
      for no more than executing does. Only an approval can miss this: a permission named on
      an approving transition alone hides the action but does not guard it. */
  lemma AcceptedIsOffered(g: Graph, db: Db, i: InstanceId, action: Action, pick: StepId)
    requires DbInv(g, db) && i in db.instances && Possible(g, db, i, action, pick)
    ensures (forall a, actor :: AcceptanceIsOffered(g, a, db, i, actor, action, pick))
       <==> OffersAskNoMore(g, db.instances[i], SelectTransition(g.transitions, db.instances[i], action).value)
    ensures action != Approve ==>
              OffersAskNoMore(g, db.instances[i], SelectTransition(g.transitions, db.instances[i], action).value)
  {
    var inst := db.instances[i];
    var t0 := SelectTransition(g.transitions, inst, action).value;
    SelectedRoutes(g.transitions, inst, action);
    if OffersAskNoMore(g, inst, t0) {
      forall a, actor ensures AcceptanceIsOffered(g, a, db, i, actor, action, pick) {
        AcceptsIsPasses(g, a, db, i, actor, action, pick);
        var t :| t in g.transitions && Routes(t, inst, t0.action)
                 && (|| OfferPermission(g, inst, t).None?
                     || OfferPermission(g, inst, t) == ExecutePermission(g, inst, t0));
        assert Passes(g, a, db, i, actor, t0) ==> Offers(g, a, db, i, actor, t);
      }
    } else {
      var actor := Outsider(db, i);
      var held := ExecutePermission(g, inst, t0);
      var a := Lone(actor, held);
      LoneHolds(actor, held, held, inst.orgUnit);
      AcceptsIsPasses(g, a, db, i, actor, action, pick);
      forall t | t in g.transitions && t.action == action ensures !Offers(g, a, db, i, actor, t) {
        LoneHolds(actor, held, OfferPermission(g, inst, t), inst.orgUnit);
      }
      assert !AcceptanceIsOffered(g, a, db, i, actor, action, pick);
    }
  }
}
