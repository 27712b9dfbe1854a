/** The workflow engine and its sweeps as one concurrent machine. */
module WorkflowMachine {
  import opened Collections
  import opened OrgScopes
  import opened WorkflowGraph
  import opened WorkflowEngine
  import opened WorkflowRuns

  type TxId = int

  /** The committed rows, and the steps each running sweep has locked and escalated. */
  datatype Machine = Machine(db: Db, sweeps: map<TxId, seq<StepId>>)

  datatype MStep =
    | Start(
        i: InstanceId, initial: StateId, actor: Option<UserId>, unit: Option<UnitId>, amount: Option<real>, now: int)
    | Execute(a: Authorities, r: ActionRequest, pick: StepId)
    | BeginSweep(t: TxId, at: int, limit: nat, ids: seq<StepId>)
    | CommitSweep(t: TxId)
    | AbortSweep(t: TxId)

  /** The steps that some running sweep holds. */
  ghost function Locked(m: Machine): set<StepId> {
    set t, s | t in m.sweeps && s in m.sweeps[t] :: s
  }

  /** A gate action waits for the locks on its gate's steps; a sweep skips locked steps. */
  ghost predicate Enabled(g: Graph, m: Machine, step: MStep) {
    match step
    case Start(i, initial, _, _, _, _) => i !in m.db.instances && initial in g.states
    case Execute(_, r, _) =>
      KnownStates(g, m.db)
      && (IsGateAction(r.action) && r.instance in m.db.instances ==> GateOf(m.db, r.instance) !! Locked(m))
    case BeginSweep(t, at, limit, ids) => t !in m.sweeps && IsSelection(m.db, Locked(m), at, limit, ids)
    case CommitSweep(t) => t in m.sweeps && forall s :: s in m.sweeps[t] ==> s in m.db.steps
    case AbortSweep(t) => t in m.sweeps
  }

  ghost function After(g: Graph, m: Machine, step: MStep): Machine
    requires Enabled(g, m, step)
  {
    match step
    case Start(i, initial, actor, unit, amount, now) => m.(db := Started(g, m.db, i, initial, actor, unit, amount, now))
    case Execute(a, r, pick) =>
      var x := ExecuteAction(g, a, m.db, r, pick);
      if x.Executed? then m.(db := x.db) else m
    case BeginSweep(t, _, _, ids) => m.(sweeps := m.sweeps[t := ids])
    case CommitSweep(t) => Machine(EscalatedAll(m.db, m.sweeps[t]), m.sweeps - {t})
    case AbortSweep(t) => m.(sweeps := m.sweeps - {t})
  }

  // ---- the invariant ------------------------------------------------------------------------

  ghost predicate Holds(m: Machine, t: TxId)
    requires t in m.sweeps
  {
    && (forall i, j :: 0 <= i < j < |m.sweeps[t]| ==> m.sweeps[t][i] != m.sweeps[t][j])
    && (forall s :: s in m.sweeps[t] ==> s in m.db.steps && m.db.steps[s].escalationLevel == 0)
  }

  ghost predicate LocksHold(m: Machine) {
    && (forall t :: t in m.sweeps ==> Holds(m, t))
    && (forall t, u, s :: t in m.sweeps && u in m.sweeps && t != u && s in m.sweeps[t] ==> s !in m.sweeps[u])
  }

  ghost predicate MInv(g: Graph, m: Machine) {
    DbInv(g, m.db) && LocksHold(m)
  }

  lemma GatesAloneChange(g: Graph, a: Authorities, db: Db, r: ActionRequest, pick: StepId, s: StepId)
    requires DbInv(g, db) && ExecuteAction(g, a, db, r, pick).Executed?
    requires s in db.steps
    requires IsGateAction(r.action) && r.instance in db.instances ==> s !in GateOf(db, r.instance)
    ensures var db' := ExecuteAction(g, a, db, r, pick).db;
            s in db'.steps && db'.steps[s] == db.steps[s]
  {
    var mid, to, behalf, step := ExecutedForm(g, a, db, r, pick);
    GateEditIsProper(g, a, db, r, pick);
    assert mid.steps[s] == db.steps[s];
    var next, recorded := FinishIsMoveThenOpen(g, mid, r, to, behalf, step, a.now);
  }

  lemma ExecuteStepKeeps(g: Graph, m: Machine, a: Authorities, r: ActionRequest, pick: StepId)
    requires MInv(g, m) && Enabled(g, m, Execute(a, r, pick)) && ExecuteAction(g, a, m.db, r, pick).Executed?
    ensures MInv(g, m.(db := ExecuteAction(g, a, m.db, r, pick).db))
  {
    ExecuteKeeps(g, a, m.db, r, pick);
    var m' := m.(db := ExecuteAction(g, a, m.db, r, pick).db);
    forall t | t in m.sweeps ensures Holds(m', t) {
      assert Holds(m, t);
      forall s | s in m.sweeps[t] ensures s in m'.db.steps && m'.db.steps[s].escalationLevel == 0 {
        assert s in Locked(m);
        GatesAloneChange(g, a, m.db, r, pick, s);
      }
    }
  }

  lemma StartStepKeeps(g: Graph, m: Machine, step: MStep)
    requires MInv(g, m) && step.Start? && Enabled(g, m, step)
    ensures MInv(g, After(g, m, step))
  {
    StartKeeps(g, m.db, step.i, step.initial, step.actor, step.unit, step.amount, step.now);
    var m' := After(g, m, step);
    forall t | t in m.sweeps ensures Holds(m', t) {
      assert Holds(m, t);
    }
  }

  lemma CommitStepKeeps(g: Graph, m: Machine, t: TxId)
    requires MInv(g, m) && t in m.sweeps
    ensures Enabled(g, m, CommitSweep(t)) && MInv(g, After(g, m, CommitSweep(t)))
  {
    assert Holds(m, t);
    SweepKeeps(g, m.db, m.sweeps[t]);
    EscalatingRaisesLevels(m.db, m.sweeps[t]);
    var m' := After(g, m, CommitSweep(t));
    forall u | u in m'.sweeps ensures Holds(m', u) {
      assert Holds(m, u);
    }
  }

  lemma BeginStepKeeps(g: Graph, m: Machine, t: TxId, at: int, limit: nat, ids: seq<StepId>)
    requires MInv(g, m) && Enabled(g, m, BeginSweep(t, at, limit, ids))
    ensures MInv(g, After(g, m, BeginSweep(t, at, limit, ids)))
  {
    var m' := After(g, m, BeginSweep(t, at, limit, ids));
    forall u | u in m'.sweeps ensures Holds(m', u) {
      if u != t {
        assert Holds(m, u);
      }
    }
    forall u, s | u in m.sweeps && s in m.sweeps[u] ensures s !in ids {
      assert s in Locked(m);
    }
  }

  lemma StepKeeps(g: Graph, m: Machine, step: MStep, m': Machine)
    requires MInv(g, m) && Enabled(g, m, step) && m' == After(g, m, step)
    ensures MInv(g, m')
  {
    match step
    case Start(_, _, _, _, _, _) => StartStepKeeps(g, m, step);
    case Execute(a, r, pick) =>
      if ExecuteAction(g, a, m.db, r, pick).Executed? {
        ExecuteStepKeeps(g, m, a, r, pick);
      }
    case BeginSweep(t, at, limit, ids) => BeginStepKeeps(g, m, t, at, limit, ids);
    case CommitSweep(t) => CommitStepKeeps(g, m, t);
    case AbortSweep(t) =>
      forall u | u in m'.sweeps ensures Holds(m', u) {
        assert Holds(m, u);
      }
  }

  // ---- runs --------------------------------------------------------------------------------------

  ghost predicate Init(g: Graph, m: Machine) {
    && m.db.instances == map[] && m.db.steps == map[] && m.db.events == [] && m.sweeps == map[]
    && KnownStates(g, m.db)
  }

  ghost predicate NextAt(g: Graph, run: seq<Machine>, i: nat)
    requires i + 1 < |run|
  {
    exists step :: Enabled(g, run[i], step) && run[i + 1] == After(g, run[i], step)
  }

  ghost predicate IsRun(g: Graph, run: seq<Machine>) {
    run != [] && Init(g, run[0]) && forall i :: 0 <= i < |run| - 1 ==> NextAt(g, run, i)
  }

  lemma {:induction false} RunKeepsInv(g: Graph, run: seq<Machine>, i: nat)
    requires IsRun(g, run) && i < |run|
    ensures MInv(g, run[i])
  {
    if i > 0 {
      RunKeepsInv(g, run, i - 1);
      assert NextAt(g, run, i - 1);
      var step :| Enabled(g, run[i - 1], step) && run[i] == After(g, run[i - 1], step);
      StepKeeps(g, run[i - 1], step, run[i]);
    }
  }

  /** In every run of starts, actions and concurrent sweeps: folding an instance's events
      gives its stored state; a step has as many committed escalations as its level, and at
      most one; nobody fills two slots of a gate, nor the originator any slot of a state
      that enforces segregation. */
  lemma EveryRunIsSound(g: Graph, run: seq<Machine>, i: nat)
    requires IsRun(g, run) && i < |run|
    ensures Consistent(run[i].db) && EscalatedOnce(run[i].db) && DutiesSegregated(g, run[i].db)
  {
    RunKeepsInv(g, run, i);
  }

  /** Committing a sweep interrupts nothing: no instance moves and no step changes status. */
  lemma SweepIsNonInterrupting(g: Graph, m: Machine, t: TxId)
    requires MInv(g, m) && t in m.sweeps
    ensures var db' := EscalatedAll(m.db, m.sweeps[t]);
            && db'.instances == m.db.instances
            && (forall s :: s in m.db.steps ==> db'.steps[s].status == m.db.steps[s].status)
            && (forall i :: Folded(db'.events, i) == Folded(m.db.events, i))
  {
    assert Holds(m, t);
    EscalatingRaisesLevels(m.db, m.sweeps[t]);
  }

  // ---- progress ---------------------------------------------------------------------------------------

  /** A series of sweeps, one after another with no other locks held. */
  ghost predicate IsSweepSeries(db: Db, now: int, limit: nat, series: seq<seq<StepId>>)
    decreases |series|
  {
    series != [] ==>
      && IsSelection(db, {}, now, limit, series[0])
      && IsSweepSeries(Swept(db, now, limit, series[0]), now, limit, series[1..])
  }

  ghost function Swept(db: Db, now: int, limit: nat, ids: seq<StepId>): Db
    requires IsSelection(db, {}, now, limit, ids)
  {
    EscalatedAll(db, ids)
  }

  ghost function SweptAll(db: Db, now: int, limit: nat, series: seq<seq<StepId>>): Db
    requires IsSweepSeries(db, now, limit, series)
    decreases |series|
  {
    if series == [] then db else SweptAll(Swept(db, now, limit, series[0]), now, limit, series[1..])
  }

  lemma SweepShrinksDue(db: Db, now: int, limit: nat, ids: seq<StepId>)
    requires IsSelection(db, {}, now, limit, ids) && limit >= 1
    ensures var db' := Swept(db, now, limit, ids);
            && DueSteps(db', now) == DueSteps(db, now) - (set s | s in ids)
            && (DueSteps(db, now) != {} ==> |DueSteps(db', now)| < |DueSteps(db, now)|)
  {
    EscalatingRaisesLevels(db, ids);
    var due, done := DueSteps(db, now), set s | s in ids;
    var db' := Swept(db, now, limit, ids);
    forall s ensures s in DueSteps(db', now) <==> s in due && s !in ids {
      if s in db.steps {
        assert db'.steps[s] == Raised(db.steps[s], if s in ids then 1 else 0);
      }
    }
    assert DueSteps(db', now) == due - done;
    if due != {} {
      var s := Pick(due);
      var first := if ids == [] then s else ids[0];
      assert first in done && first in due;
      SubsetSize(due - done, due - {first});
    }
  }

  /** Repeated sweeps of limit at least one leave no step due: as many sweeps as there are
      due steps always suffice. */
  lemma {:induction false} SweepsEscalateEverything(db: Db, now: int, limit: nat, series: seq<seq<StepId>>)
    requires IsSweepSeries(db, now, limit, series) && limit >= 1 && |series| >= |DueSteps(db, now)|
    ensures DueSteps(SweptAll(db, now, limit, series), now) == {}
    decreases |series|
  {
    if series != [] {
      SweepShrinksDue(db, now, limit, series[0]);
      SweepsEscalateEverything(Swept(db, now, limit, series[0]), now, limit, series[1..]);
    }
  }
}
