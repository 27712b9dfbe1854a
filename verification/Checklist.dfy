/** The checklist engine: reconciling a catalog with a subject's items, and the gate.

    The auto-checks and the decimal reader are an arbitrary `Engine`; no theorem here
    depends on what a check returns. Applying a plan is what the reimbursement
    module does with it (modules/reimbursement/services/checklist.py). */
module Checklist {
  import opened Collections
  import opened JsonValues
  import opened Ordering
  import opened RuleGrammar

  datatype Evidence = Upload | ExternalWetSign | GeneratedDoc | DataOnly | OtherEvidence(kind: string)

  datatype Status = StMissing | StAttached | StGenerated | StAutoPassed | StAutoFlagged | StWaived

  datatype EvidenceState = NoEvidence | Attached | Generated | Waived

  datatype PlanAction = Create | Keep | Restore | MakeDormant

  datatype CheckOutcome = Passed | Flagged | Skipped

  datatype CheckResult = CheckResult(outcome: CheckOutcome, message: string)

  datatype Engine = Engine(parse: DecimalParser, runChecks: (Json, Facts) -> seq<CheckResult>)

  datatype CatalogSpec = CatalogSpec(
    catalogId: int, code: string, title: string, group: string, evidence: Evidence,
    requiredRule: Json, autoChecks: Json, sort: int)

  datatype ItemState = ItemState(
    itemId: int, status: Status, evidenceCount: nat, evidencePending: nat, evidenceInfected: nat,
    generated: bool, waived: bool, dormant: bool)
  {
    /** Putting such a row away would lose evidence, a waiver or a document. */
    predicate HoldsSomething() {
      evidenceCount > 0 || waived || generated
    }
  }

  /** The subject's items by catalog id. */
  type Items = map<int, ItemState>

  datatype ItemPlan = ItemPlan(
    catalog: CatalogSpec, itemId: Option<int>, action: PlanAction, required: bool, reason: Reason,
    unparseable: bool, evidenceState: EvidenceState, derivedStatus: Status, checks: seq<CheckResult>)

  predicate IsSatisfied(s: Status) {
    s != StMissing
  }

  predicate Blockable(e: Evidence) {
    e == Upload || e == ExternalWetSign
  }

  // ---- planning -----------------------------------------------------------------

  function Derive(spec: CatalogSpec, state: Option<ItemState>, checks: seq<CheckResult>): (EvidenceState, Status) {
    var flagged := exists i :: 0 <= i < |checks| && checks[i].outcome == Flagged;
    var passed := exists i :: 0 <= i < |checks| && checks[i].outcome == Passed;
    if state.Some? && state.value.waived then (Waived, StWaived)
    else if state.Some? && state.value.generated then (Generated, StGenerated)
    else if spec.evidence == DataOnly then (Attached, if flagged then StAutoFlagged else StAutoPassed)
    else if state.Some? && state.value.evidenceCount > 0 then
      (Attached, if flagged then StAutoFlagged else if passed then StAutoPassed else StAttached)
    else (NoEvidence, StMissing)
  }

  function ItemFacts(facts: Facts, state: Option<ItemState>): Facts {
    var s := if state.Some? then state.value else ItemState(0, StMissing, 0, 0, 0, false, false, false);
    facts["item" := Obj(map[
      "evidence_count" := Num(s.evidenceCount as real),
      "evidence_pending" := Num(s.evidencePending as real),
      "evidence_infected" := Num(s.evidenceInfected as real),
      "waived" := Bool(s.waived),
      "generated" := Bool(s.generated)])]
  }

  function ActionFor(state: Option<ItemState>, applies: bool): PlanAction {
    if state.None? then Create
    else if applies && state.value.dormant then Restore
    else if applies then Keep
    else if state.value.HoldsSomething() then Keep
    else MakeDormant
  }

  /** Nothing is planned for a row that does not apply and has nothing to put away. */
  predicate Unplanned(outcome: Outcome, state: Option<ItemState>) {
    if !outcome.required && !outcome.unparseable then state.None? || state.value.dormant
    else outcome.unparseable && state.Some? && state.value.dormant
  }

  function PlanItem(e: Engine, spec: CatalogSpec, state: Option<ItemState>, facts: Facts): Option<ItemPlan> {
    var outcome := Evaluate(e.parse, spec.requiredRule, facts, 0);
    if Unplanned(outcome, state) then None
    else
      var checks := e.runChecks(spec.autoChecks, ItemFacts(facts, state));
      var (evidenceState, status) := Derive(spec, state, checks);
      Some(ItemPlan(spec, if state.Some? then Some(state.value.itemId) else None, ActionFor(state, outcome.required),
                    outcome.required, outcome.reason, outcome.unparseable, evidenceState, status, checks))
  }

  function Get(items: Items, id: int): Option<ItemState> {
    if id in items then Some(items[id]) else None
  }

  function PlanAll(e: Engine, specs: seq<CatalogSpec>, items: Items, facts: Facts): seq<ItemPlan> {
    if specs == [] then []
    else
      var first := PlanItem(e, specs[0], Get(items, specs[0].catalogId), facts);
      (if first.Some? then [first.value] else []) + PlanAll(e, specs[1..], items, facts)
  }

  predicate SpecLe(a: CatalogSpec, b: CatalogSpec) {
    a.sort < b.sort || (a.sort == b.sort && StrLe(a.code, b.code))
  }

  function Plan(e: Engine, catalog: seq<CatalogSpec>, items: Items, facts: Facts): seq<ItemPlan> {
    PlanAll(e, Sort(SpecLe, catalog), items, facts)
  }

  /** The dictionary a sequence of items makes: the last one for an id stands. */
  function ByCatalog(existing: seq<(int, ItemState)>): Items {
    if existing == [] then map[]
    else
      var (id, state) := existing[|existing| - 1];
      ByCatalog(existing[..|existing| - 1])[id := state]
  }

  method IndexItems(existing: seq<(int, ItemState)>) returns (items: Items)
    ensures items == ByCatalog(existing)
  {
    items := map[];
    for i := 0 to |existing|
      invariant items == ByCatalog(existing[..i])
    {
      assert existing[..i + 1][..i] == existing[..i];
      items := items[existing[i].0 := existing[i].1];
    }
    assert existing[..|existing|] == existing;
  }

  method PlanSpec(e: Engine, spec: CatalogSpec, state: Option<ItemState>, facts: Facts) returns (plan: Option<ItemPlan>)
    ensures plan == PlanItem(e, spec, state, facts)
  {
    var outcome := Evaluate(e.parse, spec.requiredRule, facts, 0);
    if !outcome.required && !outcome.unparseable {
      if state.None? || state.value.dormant {
        return None;
      }
    } else if outcome.unparseable && state.Some? && state.value.dormant {
      return None;
    }
    var checks := e.runChecks(spec.autoChecks, ItemFacts(facts, state));
    var (evidenceState, status) := Derive(spec, state, checks);
    var action: PlanAction;
    if state.None? {
      action := Create;
    } else if outcome.required && state.value.dormant {
      action := Restore;
    } else if outcome.required || state.value.HoldsSomething() {
      action := Keep;
    } else {
      action := MakeDormant;
    }
    return Some(ItemPlan(spec, if state.Some? then Some(state.value.itemId) else None, action,
                         outcome.required, outcome.reason, outcome.unparseable, evidenceState, status, checks));
  }

  method PlanSpecs(e: Engine, specs: seq<CatalogSpec>, items: Items, facts: Facts) returns (plans: seq<ItemPlan>)
    ensures plans == PlanAll(e, specs, items, facts)
  {
    plans := [];
    for i := 0 to |specs|
      invariant plans + PlanAll(e, specs[i..], items, facts) == PlanAll(e, specs, items, facts)
    {
      var plan := PlanSpec(e, specs[i], Get(items, specs[i].catalogId), facts);
      PlanAllStep(e, specs, i, items, facts, plans, plan);
      if plan.Some? {
        plans := plans + [plan.value];
      }
    }
  }

  lemma PlanAllStep(
    e: Engine, specs: seq<CatalogSpec>, i: nat, items: Items, facts: Facts, plans: seq<ItemPlan>,
    plan: Option<ItemPlan>)
    requires i < |specs| && plan == PlanItem(e, specs[i], Get(items, specs[i].catalogId), facts)
    ensures plans + PlanAll(e, specs[i..], items, facts)
         == (if plan.Some? then plans + [plan.value] else plans) + PlanAll(e, specs[i + 1..], items, facts)
  {
    assert specs[i..][1..] == specs[i + 1..];
  }

  method PlanChecklist(e: Engine, catalog: seq<CatalogSpec>, existing: seq<(int, ItemState)>, facts: Facts)
    returns (plans: seq<ItemPlan>)
    ensures plans == Plan(e, catalog, ByCatalog(existing), facts)
  {
    var items := IndexItems(existing);
    plans := PlanSpecs(e, Sort(SpecLe, catalog), items, facts);
  }

  /** The read-model agrees with the evidence: a status counts as done exactly when
      there is evidence, whatever the checks say. */
  lemma SatisfiedIsEvidenced(spec: CatalogSpec, state: Option<ItemState>, checks: seq<CheckResult>)
    ensures IsSatisfied(Derive(spec, state, checks).1) <==> Derive(spec, state, checks).0 != NoEvidence
  {
  }

  // ---- what a plan contains -------------------------------------------------------

  ghost predicate UniqueIds(specs: seq<CatalogSpec>) {
    forall i, j :: 0 <= i < j < |specs| ==> specs[i].catalogId != specs[j].catalogId
  }

  lemma {:induction false} PlanHolds(e: Engine, specs: seq<CatalogSpec>, items: Items, facts: Facts, p: ItemPlan)
    ensures p in PlanAll(e, specs, items, facts) <==>
              exists spec :: spec in specs && PlanItem(e, spec, Get(items, spec.catalogId), facts) == Some(p)
  {
    if specs != [] {
      PlanHolds(e, specs[1..], items, facts, p);
      assert forall spec :: spec in specs <==> spec == specs[0] || spec in specs[1..];
    }
  }

  lemma {:induction false} PlanIdsUnique(e: Engine, specs: seq<CatalogSpec>, items: Items, facts: Facts)
    requires UniqueIds(specs)
    ensures var plan := PlanAll(e, specs, items, facts);
            forall i, j :: 0 <= i < j < |plan| ==> plan[i].catalog.catalogId != plan[j].catalog.catalogId
  {
    if specs != [] {
      PlanIdsUnique(e, specs[1..], items, facts);
      var plan, rest := PlanAll(e, specs, items, facts), PlanAll(e, specs[1..], items, facts);
      forall j | 0 <= j < |rest| ensures rest[j].catalog.catalogId != specs[0].catalogId {
        PlanHolds(e, specs[1..], items, facts, rest[j]);
      }
      var first := PlanItem(e, specs[0], Get(items, specs[0].catalogId), facts);
      assert plan == if first.Some? then [first.value] + rest else rest;
    }
  }

  lemma SpecLeIsAnOrder()
    ensures TotalPreorder(SpecLe)
  {
    forall a, b ensures SpecLe(a, b) || SpecLe(b, a) { StrLeTotal(a.code, b.code); }
    forall a, b, c | SpecLe(a, b) && SpecLe(b, c) ensures SpecLe(a, c) {
      if a.sort == b.sort == c.sort { StrLeTransitive(a.code, b.code, c.code); }
    }
  }

  lemma SortKeepsSpecs(catalog: seq<CatalogSpec>)
    ensures forall s :: s in Sort(SpecLe, catalog) <==> s in catalog
    ensures UniqueIds(catalog) ==> UniqueIds(Sort(SpecLe, catalog))
  {
    SpecLeIsAnOrder();
    SortSorts(SpecLe, catalog);
    var sorted := Sort(SpecLe, catalog);
    assert forall s :: s in sorted <==> s in multiset(sorted);
    if UniqueIds(catalog) {
      UniqueIsUnique(catalog, sorted);
    }
  }

  lemma {:induction false} UniqueIsUnique(a: seq<CatalogSpec>, b: seq<CatalogSpec>)
    requires UniqueIds(a) && multiset(a) == multiset(b)
    ensures UniqueIds(b)
  {
    forall i, j | 0 <= i < j < |b| ensures b[i].catalogId != b[j].catalogId {
      assert b[i] in multiset(b) && b[j] in multiset(b);
      var k :| 0 <= k < |a| && a[k] == b[i];
      var m :| 0 <= m < |a| && a[m] == b[j];
      if k == m {
        OncePerUnique(a, b[i]);
        TwiceInSequence(b, i, j);
      }
    }
  }

  lemma {:induction false} OncePerUnique(a: seq<CatalogSpec>, x: CatalogSpec)
    requires UniqueIds(a)
    ensures multiset(a)[x] <= 1
  {
    if a != [] {
      OncePerUnique(a[1..], x);
      assert a == [a[0]] + a[1..];
      if a[0] == x {
        assert x !in a[1..];
      }
    }
  }

  lemma TwiceInSequence(b: seq<CatalogSpec>, i: nat, j: nat)
    requires i < j < |b| && b[i] == b[j]
    ensures multiset(b)[b[i]] >= 2
  {
    assert b == b[..j] + [b[j]] + b[j + 1..];
    assert b[i] in b[..j];
  }
}
