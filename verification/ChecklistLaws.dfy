/** What planning and refreshing do to each row of a checklist, from the meaning of its rule and
    the state of its item alone. */
module ChecklistLaws {
  import opened Collections
  import opened JsonValues
  import opened Ordering
  import opened RuleGrammar
  import opened Checklist
  import opened Reconciliation
  import opened ChecklistGate

  // ---- the fate of a row --------------------------------------------------------------------

  ghost predicate Unreadable(spec: CatalogSpec) {
    ReadRule(spec.requiredRule, 0).None?
  }

  /** Some evidence, a waiver or a generated document. */
  ghost predicate HasWork(item: ItemState) {
    item.evidenceCount > 0 || item.waived || item.generated
  }

  ghost predicate Does(p: Option<ItemPlan>, action: PlanAction) {
    p.Some? && p.value.action == action
  }

  /** A row without an item is created when its rule requires it or cannot be read. A dormant item
      is restored when its rule requires it. A live one is kept when its rule requires it or it
      has work, and put away otherwise. Nothing is planned for the rest. */
  lemma FateOfRow(e: Engine, spec: CatalogSpec, state: Option<ItemState>, facts: Facts)
    ensures var p, required := PlanItem(e, spec, state, facts), Requires(e, spec, facts);
            var dormant, live := state.Some? && state.value.dormant, state.Some? && !state.value.dormant;
            && (Does(p, Create) <==> state.None? && (required || Unreadable(spec)))
            && (Does(p, Restore) <==> dormant && required)
            && (Does(p, Keep) <==> live && (required || HasWork(state.value)))
            && (Does(p, MakeDormant) <==> live && !required && !HasWork(state.value))
            && (p.None? <==> !required && (dormant || (state.None? && !Unreadable(spec))))
  {
    EvaluationIsMeaning(e.parse, spec.requiredRule, facts, 0);
  }

  /** What the plan of a row says of it. */
  lemma PlanDescribes(e: Engine, spec: CatalogSpec, state: Option<ItemState>, facts: Facts)
    requires PlanItem(e, spec, state, facts).Some?
    ensures var p := PlanItem(e, spec, state, facts).value;
            && p.catalog == spec && (p.required <==> Requires(e, spec, facts)) && (p.unparseable <==> Unreadable(spec))
            && (if state.None? then p.itemId == None else p.itemId == Some(state.value.itemId))
            && p.checks == e.runChecks(spec.autoChecks, ItemFacts(facts, state))
            && IsEvidenceOf(spec, state, p.evidenceState) && IsStatusOf(spec, state, p.checks, p.derivedStatus)
  {
    EvaluationIsMeaning(e.parse, spec.requiredRule, facts, 0);
    StatusIsSpelledOut(spec, state, PlanItem(e, spec, state, facts).value.checks);
  }

  // ---- statuses -------------------------------------------------------------------------------

  ghost predicate IsWaived(state: Option<ItemState>) { state.Some? && state.value.waived }
  ghost predicate IsGenerated(state: Option<ItemState>) { state.Some? && state.value.generated && !state.value.waived }

  /** Nobody decided, and there is something to look at: an upload, or the claim's own data. */
  ghost predicate IsLookedAt(spec: CatalogSpec, state: Option<ItemState>) {
    && !IsWaived(state) && !IsGenerated(state)
    && (spec.evidence == DataOnly || (state.Some? && state.value.evidenceCount > 0))
  }

  ghost predicate Found(checks: seq<CheckResult>, outcome: CheckOutcome) {
    exists c :: c in checks && c.outcome == outcome
  }

  ghost predicate IsEvidenceOf(spec: CatalogSpec, state: Option<ItemState>, evidence: EvidenceState) {
    match evidence
    case Waived => IsWaived(state)
    case Generated => IsGenerated(state)
    case Attached => IsLookedAt(spec, state)
    case NoEvidence => !IsWaived(state) && !IsGenerated(state) && !IsLookedAt(spec, state)
  }

  /** A waiver outranks a generated document, which outranks what the checks say; a flag outranks a
      pass; the claim's own data passes when nothing flags it. */
  ghost predicate IsStatusOf(spec: CatalogSpec, state: Option<ItemState>, checks: seq<CheckResult>, status: Status) {
    var looked, flagged := IsLookedAt(spec, state), Found(checks, Flagged);
    var passed := spec.evidence == DataOnly || Found(checks, Passed);
    match status
    case StWaived => IsWaived(state)
    case StGenerated => IsGenerated(state)
    case StAutoFlagged => looked && flagged
    case StAutoPassed => looked && !flagged && passed
    case StAttached => looked && !flagged && !passed
    case StMissing => !looked && !IsWaived(state) && !IsGenerated(state)
  }

  /** Each row has exactly one evidence state and one status, and the engine derives these. */
  lemma StatusIsSpelledOut(spec: CatalogSpec, state: Option<ItemState>, checks: seq<CheckResult>)
    ensures forall x :: IsEvidenceOf(spec, state, x) <==> x == Derive(spec, state, checks).0
    ensures forall x :: IsStatusOf(spec, state, checks, x) <==> x == Derive(spec, state, checks).1
  {
    forall outcome: CheckOutcome
      ensures Found(checks, outcome) <==> exists i :: 0 <= i < |checks| && checks[i].outcome == outcome
    {
      if i :| 0 <= i < |checks| && checks[i].outcome == outcome {
        assert checks[i] in checks;
      }
    }
  }

  // ---- refreshing ------------------------------------------------------------------------------

  /** What a refresh leaves of the item of a catalog row. */
  ghost predicate IsRefreshed(
    e: Engine, spec: CatalogSpec, was: Option<ItemState>, facts: Facts, newId: int -> int, now: Option<ItemState>)
  {
    var required, dormant := Requires(e, spec, facts), was.Some? && was.value.dormant;
    var checks := e.runChecks(spec.autoChecks, ItemFacts(facts, was));
    if was.None? then
      if !required && !Unreadable(spec) then now == None
      else
        && now.Some? && IsStatusOf(spec, None, checks, now.value.status)
        && now.value == ItemState(newId(spec.catalogId), now.value.status, 0, 0, 0, false, false, false)
    else if !required && dormant then now == was
    else if !required && !HasWork(was.value) then now == Some(was.value.(dormant := true))
    else
      && now.Some? && IsStatusOf(spec, was, checks, now.value.status)
      && now.value == was.value.(status := now.value.status, generated := IsGenerated(was), dormant := false)
  }

  lemma SettledIsRefreshed(e: Engine, spec: CatalogSpec, was: Option<ItemState>, facts: Facts, newId: int -> int)
    ensures IsRefreshed(e, spec, was, facts, newId, Settled(e, spec, was, facts, newId))
  {
    FateOfRow(e, spec, was, facts);
    var p := PlanItem(e, spec, was, facts);
    if p.Some? {
      PlanDescribes(e, spec, was, facts);
      StatusIsSpelledOut(spec, was, p.value.checks);
    }
  }

  /** After a refresh every row of the catalog has become what its rule and its item ask for, and
      no other item has changed. */
  lemma RefreshDoesEachRow(
    e: Engine, catalog: seq<CatalogSpec>, items: Items, facts: Facts, newId: int -> int, id: int)
    requires UniqueIds(catalog)
    ensures var items' := ApplyAll(items, Plan(e, catalog, items, facts), newId);
            && (forall spec :: spec in catalog && spec.catalogId == id ==>
                  IsRefreshed(e, spec, Get(items, id), facts, newId, Get(items', id)))
            && (!InCatalog(catalog, id) ==> Get(items', id) == Get(items, id))
  {
    var specs, plan := Sort(SpecLe, catalog), Plan(e, catalog, items, facts);
    SortKeepsSpecs(catalog);
    forall spec | spec in catalog && spec.catalogId == id
      ensures IsRefreshed(e, spec, Get(items, id), facts, newId, Get(ApplyAll(items, plan, newId), id))
    {
      RefreshSettles(e, specs, items, facts, newId, spec);
      SettledIsRefreshed(e, spec, Get(items, id), facts, newId);
    }
    if !InCatalog(catalog, id) {
      forall p | p in plan ensures p.catalog.catalogId != id {
        PlanHolds(e, specs, items, facts, p);
      }
      ApplyAllElsewhere(items, plan, newId, id);
    }
  }

  /** In particular: every row that its rule requires has a live item, with the id it had before. */
  lemma RequiredRowIsLive(
    e: Engine, catalog: seq<CatalogSpec>, items: Items, facts: Facts, newId: int -> int, spec: CatalogSpec)
    requires UniqueIds(catalog) && spec in catalog && Requires(e, spec, facts)
    ensures var items', id := ApplyAll(items, Plan(e, catalog, items, facts), newId), spec.catalogId;
            && id in items' && !items'[id].dormant
            && (if id in items then items'[id].itemId == items[id].itemId else items'[id].itemId == newId(id))
  {
    RefreshDoesEachRow(e, catalog, items, facts, newId, spec.catalogId);
  }

  // ---- the order and the source of a plan -------------------------------------------------------

  /** A plan comes by sort number, then by code. */
  lemma PlanIsOrdered(e: Engine, catalog: seq<CatalogSpec>, items: Items, facts: Facts, i: nat, j: nat)
    requires i < j < |Plan(e, catalog, items, facts)|
    ensures var a, b := Plan(e, catalog, items, facts)[i].catalog, Plan(e, catalog, items, facts)[j].catalog;
            a.sort < b.sort || (a.sort == b.sort && StrLe(a.code, b.code))
  {
    SpecLeIsAnOrder();
    SortSorts(SpecLe, catalog);
    PlanFollows(e, Sort(SpecLe, catalog), items, facts, Plan(e, catalog, items, facts), i, j);
  }

  lemma PlannedFrom(e: Engine, specs: seq<CatalogSpec>, items: Items, facts: Facts, p: ItemPlan) returns (k: nat)
    requires p in PlanAll(e, specs, items, facts)
    ensures k < |specs| && p.catalog == specs[k]
  {
    PlanHolds(e, specs, items, facts, p);
    var spec :| spec in specs && PlanItem(e, spec, Get(items, spec.catalogId), facts) == Some(p);
    k :| 0 <= k < |specs| && specs[k] == spec;
  }

  lemma {:induction false} PlanFollows(
    e: Engine, specs: seq<CatalogSpec>, items: Items, facts: Facts, plan: seq<ItemPlan>, i: nat, j: nat)
    requires SortedBy(SpecLe, specs) && plan == PlanAll(e, specs, items, facts) && i < j < |plan|
    ensures SpecLe(plan[i].catalog, plan[j].catalog)
    decreases |specs|
  {
    var first := PlanItem(e, specs[0], Get(items, specs[0].catalogId), facts);
    var rest := PlanAll(e, specs[1..], items, facts);
    if first.None? {
      PlanFollows(e, specs[1..], items, facts, rest, i, j);
    } else if i > 0 {
      PlanFollows(e, specs[1..], items, facts, rest, i - 1, j - 1);
    } else {
      FirstComesFirst(e, specs, items, facts, rest[j - 1]);
    }
  }

  lemma FirstComesFirst(e: Engine, specs: seq<CatalogSpec>, items: Items, facts: Facts, p: ItemPlan)
    requires SortedBy(SpecLe, specs) && specs != [] && p in PlanAll(e, specs[1..], items, facts)
    ensures SpecLe(specs[0], p.catalog)
  {
    var k := PlannedFrom(e, specs[1..], items, facts, p);
    assert specs[1..][k] == specs[k + 1];
  }

  /** Of the items listed for a catalog id, the last one stands. */
  lemma {:induction false} LastItemStands(existing: seq<(int, ItemState)>, k: nat)
    requires k < |existing| && forall m :: k < m < |existing| ==> existing[m].0 != existing[k].0
    ensures Get(ByCatalog(existing), existing[k].0) == Some(existing[k].1)
  {
    var n := |existing| - 1;
    if k < n {
      LastItemStands(existing[..n], k);
    }
  }

  lemma {:induction false} OnlyListedItems(existing: seq<(int, ItemState)>, id: int)
    ensures id in ByCatalog(existing) <==> exists k :: 0 <= k < |existing| && existing[k].0 == id
  {
    if existing != [] {
      var n := |existing| - 1;
      OnlyListedItems(existing[..n], id);
      if k :| 0 <= k < |existing| && existing[k].0 == id && k < n {
        assert existing[..n][k].0 == id;
      }
    }
  }

  // ---- what the checks are told -------------------------------------------------------------------

  lemma {:induction false} UndottedIsOneSegment(name: string)
    requires '.' !in name
    ensures Split(name) == [name]
  {
    if name != [] {
      UndottedIsOneSegment(name[1..]);
      assert name == [name[0]] + name[1..];
    }
  }

  /** What a check is told of an item. */
  ghost predicate IsTally(item: ItemState, name: string, v: Json) {
    || (name == "evidence_count" && v == Num(item.evidenceCount as real))
    || (name == "evidence_pending" && v == Num(item.evidencePending as real))
    || (name == "evidence_infected" && v == Num(item.evidenceInfected as real))
    || (name == "waived" && v == Bool(item.waived))
    || (name == "generated" && v == Bool(item.generated))
  }

  /** A check finds the item's tally under `item`. */
  lemma ChecksSeeItem(facts: Facts, item: ItemState, name: string, v: Json)
    requires '.' !in name && IsTally(item, name, v)
    ensures Resolve(ItemFacts(facts, Some(item)), Str("item." + name)) == Some(v)
  {
    ItemFieldResolves(ItemFacts(facts, Some(item)), name);
  }

  lemma ItemFieldResolves(seen: Facts, name: string)
    requires "item" in seen && seen["item"].Obj? && '.' !in name && name in seen["item"].fields
    ensures Resolve(seen, Str("item." + name)) == Some(seen["item"].fields[name])
  {
    assert "item" + "." + name == "item." + name;
    DottedPathsCompose(seen, "item", name);
    UndottedIsOneSegment("item");
    UndottedIsOneSegment(name);
    OneStep(Obj(seen), "item");
    OneStep(seen["item"], name);
  }

  lemma OneStep(current: Json, segment: string)
    requires current.Obj? && segment in current.fields
    ensures DescendAll(current, [segment]) == Some(current.fields[segment])
  {
    assert [segment][1..] == [];
  }

  /** Without an item it finds the tally of nothing; and every other fact is as it was. */
  lemma ChecksSeeTheRest(facts: Facts, state: Option<ItemState>, path: string)
    ensures var nothing := ItemState(0, StMissing, 0, 0, 0, false, false, false);
            state.None? ==> ItemFacts(facts, state) == ItemFacts(facts, Some(nothing))
    ensures Split(path)[0] != "item" ==> Resolve(ItemFacts(facts, state), Str(path)) == Resolve(facts, Str(path))
  {
  }

  // ---- the gate ------------------------------------------------------------------------------------

  /** The rows that block are listed, with what a refusal must name. */
  lemma {:induction false} BlockingNames(plan: seq<ItemPlan>, b: BlockingItem)
    ensures b in PacketStatusOf(plan).blocking <==>
              exists p :: p in plan && p.required && p.evidenceState == NoEvidence
                          && (p.catalog.evidence == Upload || p.catalog.evidence == ExternalWetSign)
                          && b.catalogId == p.catalog.catalogId && b.itemId == p.itemId && b.code == p.catalog.code
                          && b.title == p.catalog.title && b.group == p.catalog.group
                          && b.evidence == p.catalog.evidence
  {
    if plan != [] {
      BlockingNames(plan[1..], b);
      assert forall p :: p in plan <==> p == plan[0] || p in plan[1..];
      assert b in BlockingOf(plan) <==> b in AsBlocking(plan[0]) || b in BlockingOf(plan[1..]);
    }
  }

  /** The flags are those the checks of the planned rows raised. */
  lemma {:induction false} FlagsAreRaised(plan: seq<ItemPlan>, id: int, c: CheckResult)
    ensures (id, c) in PacketStatusOf(plan).flags <==>
              c.outcome == Flagged && exists p :: p in plan && p.catalog.catalogId == id && c in p.checks
  {
    if plan != [] {
      FlagsAreRaised(plan[1..], id, c);
      var spec := plan[0].catalog;
      FlagsOfItemAreRaised(spec.catalogId, plan[0].checks, id, c);
      assert forall p :: p in plan <==> p == plan[0] || p in plan[1..];
      assert (id, c) in FlagsOf(plan) <==>
               (id, c) in FlagsOfItem(spec.catalogId, plan[0].checks) || (id, c) in FlagsOf(plan[1..]);
    }
  }

  lemma {:induction false} FlagsOfItemAreRaised(of: int, checks: seq<CheckResult>, id: int, c: CheckResult)
    ensures (id, c) in FlagsOfItem(of, checks) <==> id == of && c.outcome == Flagged && c in checks
  {
    if checks != [] {
      FlagsOfItemAreRaised(of, checks[1..], id, c);
      assert c in checks <==> c == checks[0] || c in checks[1..];
    }
  }

  lemma {:induction false} UnreadableAreNamed(plan: seq<ItemPlan>, id: int)
    ensures id in PacketStatusOf(plan).unparseable <==>
              exists p :: p in plan && p.unparseable && p.catalog.catalogId == id
  {
    if plan != [] {
      UnreadableAreNamed(plan[1..], id);
      assert forall p :: p in plan <==> p == plan[0] || p in plan[1..];
    }
  }

  /** The total counts the rows that are required and that a person must supply, one each. */
  lemma {:induction false} TotalCounts(plan: seq<ItemPlan>, p: ItemPlan)
    ensures PacketStatusOf([]).requiredTotal == 0
    ensures PacketStatusOf(plan + [p]).requiredTotal == PacketStatusOf(plan).requiredTotal
              + if p.required && (p.catalog.evidence == Upload || p.catalog.evidence == ExternalWetSign) then 1 else 0
  {
    if plan == [] {
      assert (plan + [p])[1..] == [] && (plan + [p])[0] == p;
    } else {
      TotalCounts(plan[1..], p);
      assert (plan + [p])[0] == plan[0] && (plan + [p])[1..] == plan[1..] + [p];
    }
  }
}
