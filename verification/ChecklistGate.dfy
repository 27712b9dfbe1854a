/** The completeness gate: what it counts, what it ignores, and what it means. */
module ChecklistGate {
  import opened Collections
  import opened JsonValues
  import opened Ordering
  import opened RuleGrammar
  import opened Checklist

  datatype BlockingItem = BlockingItem(
    catalogId: int, itemId: Option<int>, code: string, title: string, group: string, evidence: Evidence)

  datatype PacketStatus = PacketStatus(
    requiredTotal: nat, requiredDone: int, blocking: seq<BlockingItem>, flags: seq<(int, CheckResult)>,
    unparseable: seq<int>)
  {
    predicate Complete() { blocking == [] }
  }

  predicate Countable(p: ItemPlan) {
    p.required && Blockable(p.catalog.evidence)
  }

  predicate Blocks(p: ItemPlan) {
    p.required && p.evidenceState == NoEvidence && Blockable(p.catalog.evidence)
  }

  function Count(plan: seq<ItemPlan>): nat {
    if plan == [] then 0 else (if Countable(plan[0]) then 1 else 0) + Count(plan[1..])
  }

  function AsBlocking(p: ItemPlan): seq<BlockingItem> {
    if Blocks(p) then
      var spec := p.catalog;
      [BlockingItem(spec.catalogId, p.itemId, spec.code, spec.title, spec.group, spec.evidence)]
    else []
  }

  function BlockingOf(plan: seq<ItemPlan>): seq<BlockingItem> {
    if plan == [] then [] else AsBlocking(plan[0]) + BlockingOf(plan[1..])
  }

  function FlagsOfItem(id: int, checks: seq<CheckResult>): seq<(int, CheckResult)> {
    if checks == [] then []
    else (if checks[0].outcome == Flagged then [(id, checks[0])] else []) + FlagsOfItem(id, checks[1..])
  }

  function FlagsOf(plan: seq<ItemPlan>): seq<(int, CheckResult)> {
    if plan == [] then [] else FlagsOfItem(plan[0].catalog.catalogId, plan[0].checks) + FlagsOf(plan[1..])
  }

  function UnparseableOf(plan: seq<ItemPlan>): seq<int> {
    if plan == [] then []
    else (if plan[0].unparseable then [plan[0].catalog.catalogId] else []) + UnparseableOf(plan[1..])
  }

  function PacketStatusOf(plan: seq<ItemPlan>): PacketStatus {
    var blocking := BlockingOf(plan);
    PacketStatus(Count(plan), Count(plan) - |blocking|, blocking, FlagsOf(plan), UnparseableOf(plan))
  }

  // ---- counting ------------------------------------------------------------------------

  /** Done is the number of required, blockable items that have evidence; with the
      blocking ones they make up the total. */
  lemma {:induction false} DoneAndBlockingMakeTotal(plan: seq<ItemPlan>)
    ensures var s := PacketStatusOf(plan);
            && s.requiredDone + |s.blocking| == s.requiredTotal
            && 0 <= s.requiredDone == CountDone(plan)
  {
    if plan != [] {
      DoneAndBlockingMakeTotal(plan[1..]);
    }
  }

  function CountDone(plan: seq<ItemPlan>): nat {
    if plan == [] then 0
    else (if Countable(plan[0]) && IsSatisfiedState(plan[0].evidenceState) then 1 else 0) + CountDone(plan[1..])
  }

  predicate IsSatisfiedState(s: EvidenceState) {
    s != NoEvidence
  }

  lemma {:induction false} BlockingIsListed(plan: seq<ItemPlan>, id: int)
    ensures (exists b :: b in BlockingOf(plan) && b.catalogId == id)
       <==> (exists p :: p in plan && Blocks(p) && p.catalog.catalogId == id)
  {
    if plan != [] {
      BlockingIsListed(plan[1..], id);
      assert forall p :: p in plan <==> p == plan[0] || p in plan[1..];
      assert Blocks(plan[0]) ==> AsBlocking(plan[0])[0] in BlockingOf(plan);
      assert forall b :: b in BlockingOf(plan) <==> b in AsBlocking(plan[0]) || b in BlockingOf(plan[1..]);
    }
  }

  // ---- what the gate means ----------------------------------------------------------------

  /** The row's rule can be read and, read plainly, requires the row. */
  ghost predicate Requires(e: Engine, spec: CatalogSpec, facts: Facts) {
    ReadRule(spec.requiredRule, 0).Some? && Meaning(e.parse, ReadRule(spec.requiredRule, 0).value, facts)
  }

  ghost predicate Supplied(state: Option<ItemState>) {
    state.Some? && (state.value.waived || state.value.generated || state.value.evidenceCount > 0)
  }

  lemma RowBlocks(e: Engine, spec: CatalogSpec, state: Option<ItemState>, facts: Facts)
    ensures var p := PlanItem(e, spec, state, facts);
            p.Some? && Blocks(p.value) <==> Requires(e, spec, facts) && Blockable(spec.evidence) && !Supplied(state)
    ensures var p := PlanItem(e, spec, state, facts); p.Some? ==> p.value.catalog == spec
  {
    EvaluationIsMeaning(e.parse, spec.requiredRule, facts, 0);
  }

  /** A packet is complete exactly when each required row that a person must supply has
      been attached to, waived or generated, whatever the plan's actions and statuses. */
  lemma CompleteMeansSupplied(e: Engine, catalog: seq<CatalogSpec>, items: Items, facts: Facts)
    ensures PacketStatusOf(Plan(e, catalog, items, facts)).Complete()
       <==> forall spec :: spec in catalog && Requires(e, spec, facts) && Blockable(spec.evidence)
                           ==> Supplied(Get(items, spec.catalogId))
  {
    var plan := Plan(e, catalog, items, facts);
    SortKeepsSpecs(catalog);
    if BlockingOf(plan) != [] {
      var b := BlockingOf(plan)[0];
      assert b in BlockingOf(plan);
      var spec := BlockedBy(e, catalog, items, facts, b.catalogId);
    }
    forall spec | spec in catalog && Requires(e, spec, facts) && Blockable(spec.evidence)
      && !Supplied(Get(items, spec.catalogId))
      ensures BlockingOf(plan) != []
    {
      RowBlocks(e, spec, Get(items, spec.catalogId), facts);
      var p := PlanItem(e, spec, Get(items, spec.catalogId), facts).value;
      PlanHolds(e, Sort(SpecLe, catalog), items, facts, p);
      BlockingIsListed(plan, spec.catalogId);
    }
  }

  lemma BlockedBy(e: Engine, catalog: seq<CatalogSpec>, items: Items, facts: Facts, id: int) returns (spec: CatalogSpec)
    requires exists b :: b in BlockingOf(Plan(e, catalog, items, facts)) && b.catalogId == id
    ensures spec in catalog && spec.catalogId == id && Requires(e, spec, facts) && Blockable(spec.evidence)
    ensures !Supplied(Get(items, id))
  {
    var plan := Plan(e, catalog, items, facts);
    SortKeepsSpecs(catalog);
    BlockingIsListed(plan, id);
    var p :| p in plan && Blocks(p) && p.catalog.catalogId == id;
    PlanHolds(e, Sort(SpecLe, catalog), items, facts, p);
    spec :| spec in Sort(SpecLe, catalog) && PlanItem(e, spec, Get(items, spec.catalogId), facts) == Some(p);
    RowBlocks(e, spec, Get(items, spec.catalogId), facts);
  }

  // ---- what the gate ignores ------------------------------------------------------------

  /** A catalog row without its auto-checks, and an item without its status. */
  function BareSpec(s: CatalogSpec): CatalogSpec { s.(autoChecks := Null) }
  function BareState(s: Option<ItemState>): Option<ItemState> {
    if s.None? then None else Some(s.value.(status := StMissing))
  }

  ghost predicate SameButChecks(a: seq<CatalogSpec>, b: seq<CatalogSpec>) {
    |a| == |b| && forall i :: 0 <= i < |a| ==> BareSpec(a[i]) == BareSpec(b[i])
  }

  ghost predicate SameButStatus(a: Items, b: Items) {
    a.Keys == b.Keys && forall id :: id in a ==> BareState(Some(a[id])) == BareState(Some(b[id]))
  }

  lemma {:induction false} InsertIgnoresChecks(x: CatalogSpec, y: CatalogSpec, a: seq<CatalogSpec>, b: seq<CatalogSpec>)
    requires BareSpec(x) == BareSpec(y) && SameButChecks(a, b)
    ensures SameButChecks(Insert(SpecLe, x, a), Insert(SpecLe, y, b))
  {
    if a != [] {
      assert BareSpec(a[0]) == BareSpec(b[0]);
      if !SpecLe(x, a[0]) {
        assert SameButChecks(a[1..], b[1..]);
        InsertIgnoresChecks(x, y, a[1..], b[1..]);
      }
    }
  }

  lemma {:induction false} SortIgnoresChecks(a: seq<CatalogSpec>, b: seq<CatalogSpec>)
    requires SameButChecks(a, b)
    ensures SameButChecks(Sort(SpecLe, a), Sort(SpecLe, b))
  {
    if a != [] {
      assert SameButChecks(a[1..], b[1..]) && BareSpec(a[0]) == BareSpec(b[0]);
      SortIgnoresChecks(a[1..], b[1..]);
      InsertIgnoresChecks(a[0], b[0], Sort(SpecLe, a[1..]), Sort(SpecLe, b[1..]));
    }
  }

  /** The part of a plan the gate reads. */
  function GateView(p: ItemPlan): ItemPlan {
    p.(catalog := BareSpec(p.catalog), derivedStatus := StMissing, checks := [])
  }

  lemma RowIgnoresChecks(
    e: Engine, e': Engine, spec: CatalogSpec, spec': CatalogSpec, state: Option<ItemState>, state': Option<ItemState>,
    facts: Facts)
    requires e.parse == e'.parse && BareSpec(spec) == BareSpec(spec') && BareState(state) == BareState(state')
    ensures var p, p' := PlanItem(e, spec, state, facts), PlanItem(e', spec', state', facts);
            p.Some? == p'.Some? && (p.Some? ==> GateView(p.value) == GateView(p'.value))
  {
  }

  lemma {:induction false} GateIgnoresChecksIn(
    e: Engine, e': Engine, specs: seq<CatalogSpec>, specs': seq<CatalogSpec>, items: Items, items': Items, facts: Facts)
    requires e.parse == e'.parse && SameButChecks(specs, specs') && SameButStatus(items, items')
    ensures var plan, plan' := PlanAll(e, specs, items, facts), PlanAll(e', specs', items', facts);
            && Count(plan) == Count(plan') && BlockingOf(plan) == BlockingOf(plan')
            && UnparseableOf(plan) == UnparseableOf(plan')
  {
    if specs != [] {
      assert BareSpec(specs[0]) == BareSpec(specs'[0]) && SameButChecks(specs[1..], specs'[1..]);
      var id := specs[0].catalogId;
      RowIgnoresChecks(e, e', specs[0], specs'[0], Get(items, id), Get(items', id), facts);
      GateIgnoresChecksIn(e, e', specs[1..], specs'[1..], items, items', facts);
      var p, p' := PlanItem(e, specs[0], Get(items, id), facts), PlanItem(e', specs'[0], Get(items', id), facts);
      if p.Some? {
      } else {
        assert PlanAll(e, specs, items, facts) == PlanAll(e, specs[1..], items, facts);
        assert PlanAll(e', specs', items', facts) == PlanAll(e', specs'[1..], items', facts);
      }
    }
  }

  /** The gate's answer is the same under any auto-checks, any check results and any
      stored statuses. */
  lemma GateIgnoresChecks(
    e: Engine, e': Engine, catalog: seq<CatalogSpec>, catalog': seq<CatalogSpec>, items: Items, items': Items,
    facts: Facts)
    requires e.parse == e'.parse && SameButChecks(catalog, catalog') && SameButStatus(items, items')
    ensures var s, s' := PacketStatusOf(Plan(e, catalog, items, facts)),
                         PacketStatusOf(Plan(e', catalog', items', facts));
            && s.requiredTotal == s'.requiredTotal && s.requiredDone == s'.requiredDone
            && s.blocking == s'.blocking && s.unparseable == s'.unparseable && (s.Complete() <==> s'.Complete())
  {
    SortIgnoresChecks(catalog, catalog');
    GateIgnoresChecksIn(e, e', Sort(SpecLe, catalog), Sort(SpecLe, catalog'), items, items', facts);
  }

  // ---- more evidence never blocks ---------------------------------------------------------

  ghost predicate AtLeast(more: Option<ItemState>, less: Option<ItemState>) {
    Supplied(less) ==> Supplied(more)
  }

  /** Adding evidence, a waiver or a generated document never adds a blocking row. */
  lemma MoreEvidenceNeverBlocks(e: Engine, catalog: seq<CatalogSpec>, items: Items, more: Items, facts: Facts, id: int)
    requires forall i :: AtLeast(Get(more, i), Get(items, i))
    requires exists b :: b in BlockingOf(Plan(e, catalog, more, facts)) && b.catalogId == id
    ensures exists b :: b in BlockingOf(Plan(e, catalog, items, facts)) && b.catalogId == id
  {
    var spec := BlockedBy(e, catalog, more, facts, id);
    assert AtLeast(Get(more, id), Get(items, id));
    RowBlocks(e, spec, Get(items, id), facts);
    var p := PlanItem(e, spec, Get(items, id), facts).value;
    SortKeepsSpecs(catalog);
    PlanHolds(e, Sort(SpecLe, catalog), items, facts, p);
    BlockingIsListed(Plan(e, catalog, items, facts), id);
  }
}
