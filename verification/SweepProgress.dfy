/** Progress of concurrent escalation sweeps: sweeps that begin, commit and abort in any
    order, with the steps of each locked against the others. */
module SweepProgress {
  import opened Collections
  import opened WorkflowEngine
  import opened WorkflowRuns
  import opened WorkflowMachine

  /** A sweep step, of a sweep that looks at no later an instant than `now`. */
  predicate IsSweepStep(step: MStep, now: int) {
    match step
    case BeginSweep(_, at, _, _) => at <= now
    case CommitSweep(_) => true
    case AbortSweep(_) => true
    case _ => false
  }

  ghost function Selected(m: Machine, t: TxId): set<StepId>
    requires t in m.sweeps
  {
    set s | s in m.sweeps[t]
  }

  /** What running sweeps hold is still due. */
  ghost predicate LockedAreDue(m: Machine, now: int) {
    Locked(m) <= DueSteps(m.db, now)
  }

  /** The steps that a machine step escalates. */
  ghost function EscalatedBy(m: Machine, step: MStep): set<StepId> {
    if step.CommitSweep? && step.t in m.sweeps then Selected(m, step.t) else {}
  }

  lemma CommitTakesFromDue(g: Graph, m: Machine, t: TxId, db': Db, now: int)
    requires MInv(g, m) && t in m.sweeps && forall s :: s in m.sweeps[t] ==> s in m.db.steps
    requires db' == EscalatedAll(m.db, m.sweeps[t])
    ensures DueSteps(db', now) == DueSteps(m.db, now) - Selected(m, t)
  {
    assert Holds(m, t);
    EscalatingRaisesLevels(m.db, m.sweeps[t]);
    forall s ensures s in DueSteps(db', now) <==> s in DueSteps(m.db, now) && s !in Selected(m, t) {
      if s in m.db.steps {
        assert db'.steps[s] == Raised(m.db.steps[s], if s in m.sweeps[t] then 1 else 0);
      }
    }
  }

  /** One step: the due steps lose exactly those the step escalates, which were all due, and
      what is locked stays due. */
  lemma StepTakesFromDue(g: Graph, m: Machine, step: MStep, m': Machine, now: int)
    requires MInv(g, m) && LockedAreDue(m, now)
    requires IsSweepStep(step, now) && Enabled(g, m, step) && m' == After(g, m, step)
    ensures MInv(g, m') && LockedAreDue(m', now)
    ensures EscalatedBy(m, step) <= DueSteps(m.db, now)
    ensures DueSteps(m'.db, now) == DueSteps(m.db, now) - EscalatedBy(m, step)
  {
    StepKeeps(g, m, step, m');
    match step
    case BeginSweep(t, at, limit, ids) =>
      forall s | s in Locked(m') ensures s in DueSteps(m'.db, now) {
        assert s in Locked(m) || s in ids;
      }
    case CommitSweep(t) =>
      CommitTakesFromDue(g, m, t, m'.db, now);
      forall s | s in Selected(m, t) ensures s in DueSteps(m.db, now) {
        assert s in Locked(m);
      }
      forall s | s in Locked(m') ensures s in DueSteps(m'.db, now) {
        assert s in Locked(m) && s !in m.sweeps[t];
      }
    case AbortSweep(t) =>
      assert Locked(m') <= Locked(m);
  }

  // ---- runs -----------------------------------------------------------------------------------

  ghost predicate IsSweepRun(g: Graph, m: Machine, steps: seq<MStep>, now: int)
    decreases |steps|
  {
    steps != [] ==>
      && IsSweepStep(steps[0], now) && Enabled(g, m, steps[0])
      && IsSweepRun(g, After(g, m, steps[0]), steps[1..], now)
  }

  ghost function EndOf(g: Graph, m: Machine, steps: seq<MStep>, now: int): Machine
    requires IsSweepRun(g, m, steps, now)
    decreases |steps|
  {
    if steps == [] then m else EndOf(g, After(g, m, steps[0]), steps[1..], now)
  }

  /** The steps escalated along the run. */
  ghost function EscalatedAlong(g: Graph, m: Machine, steps: seq<MStep>, now: int): set<StepId>
    requires IsSweepRun(g, m, steps, now)
    decreases |steps|
  {
    if steps == [] then {}
    else EscalatedBy(m, steps[0]) + EscalatedAlong(g, After(g, m, steps[0]), steps[1..], now)
  }

  /** The sizes of the selections committed along the run, added up. */
  ghost function CommittedSize(g: Graph, m: Machine, steps: seq<MStep>, now: int): nat
    requires IsSweepRun(g, m, steps, now)
    decreases |steps|
  {
    if steps == [] then 0
    else |EscalatedBy(m, steps[0])| + CommittedSize(g, After(g, m, steps[0]), steps[1..], now)
  }

  /** The committed sweeps that had selected something. */
  ghost function UsefulCommits(g: Graph, m: Machine, steps: seq<MStep>, now: int): nat
    requires IsSweepRun(g, m, steps, now)
    decreases |steps|
  {
    if steps == [] then 0
    else (if EscalatedBy(m, steps[0]) == {} then 0 else 1) + UsefulCommits(g, After(g, m, steps[0]), steps[1..], now)
  }

  /** One step of a run, on the counts alone. */
  lemma StepCounts(g: Graph, m: Machine, step: MStep, now: int) returns (next: Machine, taken: set<StepId>)
    requires MInv(g, m) && LockedAreDue(m, now) && IsSweepStep(step, now) && Enabled(g, m, step)
    ensures next == After(g, m, step) && taken == EscalatedBy(m, step)
    ensures MInv(g, next) && LockedAreDue(next, now)
    ensures taken <= DueSteps(m.db, now) && DueSteps(next.db, now) == DueSteps(m.db, now) - taken
    ensures |DueSteps(next.db, now)| + |taken| == |DueSteps(m.db, now)|
  {
    next, taken := After(g, m, step), EscalatedBy(m, step);
    StepTakesFromDue(g, m, step, next, now);
    assert DueSteps(m.db, now) == DueSteps(next.db, now) + taken;
  }

  lemma {:induction false} SweepRunStaysSound(g: Graph, m: Machine, steps: seq<MStep>, now: int, end: Machine)
    requires MInv(g, m) && LockedAreDue(m, now) && IsSweepRun(g, m, steps, now) && end == EndOf(g, m, steps, now)
    ensures MInv(g, end) && LockedAreDue(end, now)
    decreases |steps|
  {
    if steps == [] {
      assert end == m;
    } else {
      var next, taken := StepCounts(g, m, steps[0], now);
      SweepRunStaysSound(g, next, steps[1..], now, end);
    }
  }

  /** The due steps before and after, and those escalated in between. */
  ghost predicate Accounts(due: set<StepId>, due': set<StepId>, escalated: set<StepId>, size: nat, useful: nat) {
    escalated <= due && due' == due - escalated && |due'| + size == |due| && useful <= size
  }

  lemma AccountsCompose(
    due: set<StepId>, mid: set<StepId>, due': set<StepId>, first: set<StepId>, rest: set<StepId>, size: nat,
    useful: nat)
    requires first <= due && mid == due - first && |mid| + |first| == |due| && Accounts(mid, due', rest, size, useful)
    ensures Accounts(due, due', first + rest, |first| + size, (if first == {} then 0 else 1) + useful)
  {
    if first != {} {
      var s := Pick(first);
      SubsetSize({s}, first);
    }
  }

  /** In every run of concurrent sweeps the due steps lose exactly what was committed, and each
      commit takes away exactly its own selection: no two sweeps share a step. */
  lemma {:induction false} SweepsTakeWhatTheyCommit(
    g: Graph, m: Machine, steps: seq<MStep>, now: int, end: Machine)
    requires MInv(g, m) && LockedAreDue(m, now) && IsSweepRun(g, m, steps, now) && end == EndOf(g, m, steps, now)
    ensures Accounts(DueSteps(m.db, now), DueSteps(end.db, now), EscalatedAlong(g, m, steps, now),
                     CommittedSize(g, m, steps, now), UsefulCommits(g, m, steps, now))
    decreases |steps|
  {
    if steps != [] {
      var next, taken := StepCounts(g, m, steps[0], now);
      SweepsTakeWhatTheyCommit(g, next, steps[1..], now, end);
      AccountsCompose(
        DueSteps(m.db, now), DueSteps(next.db, now), DueSteps(end.db, now), taken,
        EscalatedAlong(g, next, steps[1..], now), CommittedSize(g, next, steps[1..], now),
        UsefulCommits(g, next, steps[1..], now));
    }
  }

  /** However the sweeps interleave and however many abort: once as many sweeps have committed
      something as there were due steps, none is due. */
  lemma EnoughCommitsEscalateEverything(g: Graph, m: Machine, steps: seq<MStep>, now: int)
    requires MInv(g, m) && LockedAreDue(m, now) && IsSweepRun(g, m, steps, now)
    requires UsefulCommits(g, m, steps, now) >= |DueSteps(m.db, now)|
    ensures DueSteps(EndOf(g, m, steps, now).db, now) == {}
  {
    SweepsTakeWhatTheyCommit(g, m, steps, now, EndOf(g, m, steps, now));
  }

  /** A sweep with a limit of at least one finds nothing exactly when every due step is held by a
      sweep that is running; with none running, exactly when nothing is due. */
  lemma FindingNothingMeansDone(m: Machine, now: int, limit: nat)
    requires limit >= 1
    ensures IsSelection(m.db, Locked(m), now, limit, []) <==> DueSteps(m.db, now) <= Locked(m)
    ensures m.sweeps == map[] ==> (IsSelection(m.db, Locked(m), now, limit, []) <==> DueSteps(m.db, now) == {})
  {
    var none: seq<StepId> := [];
    if IsSelection(m.db, Locked(m), now, limit, none) {
      forall s | s in DueSteps(m.db, now) ensures s in Locked(m) {
        assert s !in none;
      }
    }
    if m.sweeps == map[] {
      assert Locked(m) == {};
    }
  }

  /** While a step is due and free, a sweep with a limit of at least one selects something. */
  lemma FreeStepIsSelected(m: Machine, now: int, limit: nat, ids: seq<StepId>, s: StepId)
    requires limit >= 1 && IsSelection(m.db, Locked(m), now, limit, ids)
    requires s in DueSteps(m.db, now) && s !in Locked(m)
    ensures ids != []
  {
    if ids == [] {
      FindingNothingMeansDone(m, now, limit);
    }
  }

  /** From any state a run can reach with no sweep running, further sweeps account for the due
      steps in this way, and leave a sound machine. */
  lemma ReachableSweepsAccount(g: Graph, run: seq<Machine>, i: nat, steps: seq<MStep>, now: int, end: Machine)
    requires IsRun(g, run) && i < |run| && run[i].sweeps == map[]
    requires IsSweepRun(g, run[i], steps, now) && end == EndOf(g, run[i], steps, now)
    ensures MInv(g, end)
    ensures Accounts(DueSteps(run[i].db, now), DueSteps(end.db, now), EscalatedAlong(g, run[i], steps, now),
                     CommittedSize(g, run[i], steps, now), UsefulCommits(g, run[i], steps, now))
  {
    RunKeepsInv(g, run, i);
    assert Locked(run[i]) == {};
    SweepRunStaysSound(g, run[i], steps, now, end);
    SweepsTakeWhatTheyCommit(g, run[i], steps, now, end);
  }
}
