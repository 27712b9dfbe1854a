/** Applying a checklist plan, and the fixed point it reaches. */
module Reconciliation {
  import opened Collections
  import opened JsonValues
  import opened Ordering
  import opened RuleGrammar
  import opened Checklist

  /** What refreshing does to one row. A row's `generated` flag is read back from its
      status, as the consumer reads it. `newId` numbers the rows it inserts. */
  function Applied(state: Option<ItemState>, p: ItemPlan, newId: int -> int): ItemState {
    if state.None? then ItemState(newId(p.catalog.catalogId), p.derivedStatus, 0, 0, 0, false, false, false)
    else if p.action == MakeDormant then state.value.(dormant := true)
    else state.value.(status := p.derivedStatus, generated := p.derivedStatus == StGenerated,
                      dormant := state.value.dormant && p.action != Restore)
  }

  function ApplyAll(items: Items, plans: seq<ItemPlan>, newId: int -> int): Items
    decreases |plans|
  {
    if plans == [] then items
    else
      var id := plans[0].catalog.catalogId;
      ApplyAll(items[id := Applied(Get(items, id), plans[0], newId)], plans[1..], newId)
  }

  /** The loop of the refresh. */
  method RefreshChecklist(items: Items, plans: seq<ItemPlan>, newId: int -> int) returns (r: Items)
    ensures r == ApplyAll(items, plans, newId)
  {
    r := items;
    for i := 0 to |plans|
      invariant ApplyAll(r, plans[i..], newId) == ApplyAll(items, plans, newId)
    {
      var p := plans[i];
      var id := p.catalog.catalogId;
      assert plans[i..][1..] == plans[i + 1..];
      r := r[id := Applied(Get(r, id), p, newId)];
    }
  }

  /** The state one catalog row ends up in, on its own. */
  function Settled(
    e: Engine, spec: CatalogSpec, state: Option<ItemState>, facts: Facts, newId: int -> int): Option<ItemState>
  {
    var p := PlanItem(e, spec, state, facts);
    if p.None? then state else Some(Applied(state, p.value, newId))
  }

  lemma {:induction false} ApplyAllElsewhere(items: Items, plans: seq<ItemPlan>, newId: int -> int, id: int)
    requires forall p :: p in plans ==> p.catalog.catalogId != id
    ensures Get(ApplyAll(items, plans, newId), id) == Get(items, id)
    decreases |plans|
  {
    if plans != [] {
      var c := plans[0].catalog.catalogId;
      assert plans[0] in plans;
      ApplyAllElsewhere(items[c := Applied(Get(items, c), plans[0], newId)], plans[1..], newId, id);
    }
  }

  lemma {:induction false} ApplyAllAt(items: Items, plans: seq<ItemPlan>, newId: int -> int, p: ItemPlan)
    requires p in plans
    requires forall i, j :: 0 <= i < j < |plans| ==> plans[i].catalog.catalogId != plans[j].catalog.catalogId
    ensures Get(ApplyAll(items, plans, newId), p.catalog.catalogId)
         == Some(Applied(Get(items, p.catalog.catalogId), p, newId))
    decreases |plans|
  {
    var c := plans[0].catalog.catalogId;
    var items' := items[c := Applied(Get(items, c), plans[0], newId)];
    if p == plans[0] {
      ApplyAllElsewhere(items', plans[1..], newId, c);
    } else {
      assert p in plans[1..];
      var k :| 0 < k < |plans| && plans[k] == p;
      ApplyAllAt(items', plans[1..], newId, p);
    }
  }

  /** Refreshing settles each catalog row independently of the others. */
  lemma RefreshSettles(
    e: Engine, specs: seq<CatalogSpec>, items: Items, facts: Facts, newId: int -> int, spec: CatalogSpec)
    requires UniqueIds(specs) && spec in specs
    ensures Get(ApplyAll(items, PlanAll(e, specs, items, facts), newId), spec.catalogId)
         == Settled(e, spec, Get(items, spec.catalogId), facts, newId)
  {
    var plans := PlanAll(e, specs, items, facts);
    var p := PlanItem(e, spec, Get(items, spec.catalogId), facts);
    if p.Some? {
      PlanHolds(e, specs, items, facts, p.value);
      PlanIdsUnique(e, specs, items, facts);
      ApplyAllAt(items, plans, newId, p.value);
    } else {
      forall q | q in plans ensures q.catalog.catalogId != spec.catalogId {
        PlanHolds(e, specs, items, facts, q);
        var other :| other in specs && PlanItem(e, other, Get(items, other.catalogId), facts) == Some(q);
        var i :| 0 <= i < |specs| && specs[i] == other;
        var j :| 0 <= j < |specs| && specs[j] == spec;
      }
      ApplyAllElsewhere(items, plans, newId, spec.catalogId);
    }
  }

  // ---- the fixed point ----------------------------------------------------------------

  /** `q` plans to keep the row just as `p` described it. */
  ghost predicate KeptAs(p: ItemPlan, q: ItemPlan) {
    && q.action == Keep && q.itemId.Some? && (p.itemId.Some? ==> q.itemId == p.itemId)
    && q.catalog == p.catalog && q.required == p.required && q.reason == p.reason && q.unparseable == p.unparseable
    && q.evidenceState == p.evidenceState && q.derivedStatus == p.derivedStatus
  }

  /** Planned for a row that cannot be read and has no item: it is inserted only to be
      put away by the next refresh. */
  predicate Flickers(e: Engine, spec: CatalogSpec, state: Option<ItemState>, facts: Facts) {
    Evaluate(e.parse, spec.requiredRule, facts, 0).unparseable && state.None?
  }

  lemma RowSettles(e: Engine, spec: CatalogSpec, state: Option<ItemState>, facts: Facts, newId: int -> int)
    ensures var p, q := PlanItem(e, spec, state, facts),
                        PlanItem(e, spec, Settled(e, spec, state, facts, newId), facts);
            && (q.Some? ==> p.Some? && p.value.action != MakeDormant)
            && (Flickers(e, spec, state, facts) ==> q.Some? && q.value.action == MakeDormant)
            && (!Flickers(e, spec, state, facts) && p.Some? && p.value.action != MakeDormant
                ==> q.Some? && KeptAs(p.value, q.value))
  {
    var state' := Settled(e, spec, state, facts, newId);
    if state.None? && state'.Some? {
      assert ItemFacts(facts, state') == ItemFacts(facts, state);
    }
  }

  /** Refresh and plan again with the same facts: every row planned and not put away is
      kept just as it was described, and nothing else is planned. The only rows that
      are not kept are those no rule can be read from and that had no item. */
  lemma PlanReachesFixedPoint(e: Engine, catalog: seq<CatalogSpec>, items: Items, facts: Facts, newId: int -> int)
    requires UniqueIds(catalog)
    ensures var plan := Plan(e, catalog, items, facts);
            var again := Plan(e, catalog, ApplyAll(items, plan, newId), facts);
            && (forall q :: q in again ==> exists p :: p in plan && p.action != MakeDormant && p.catalog == q.catalog
                                                      && (q.action == Keep ==> KeptAs(p, q)))
            && (forall p :: p in plan && p.action != MakeDormant ==> exists q :: q in again && q.catalog == p.catalog)
            && ((forall q :: q in again ==> q.action == Keep)
                <==> forall spec :: spec in catalog ==> !Flickers(e, spec, Get(items, spec.catalogId), facts))
  {
    var specs := Sort(SpecLe, catalog);
    SortKeepsSpecs(catalog);
    var plan := Plan(e, catalog, items, facts);
    var items' := ApplyAll(items, plan, newId);
    var again := Plan(e, catalog, items', facts);
    forall q | q in again
      ensures exists p :: p in plan && p.action != MakeDormant && p.catalog == q.catalog
                && (q.action == Keep ==> KeptAs(p, q))
      ensures q.action == Keep || Flickers(e, q.catalog, Get(items, q.catalog.catalogId), facts)
      ensures q.catalog in catalog
    {
      var p := CameFrom(e, specs, items, facts, newId, q);
    }
    forall p | p in plan && p.action != MakeDormant ensures exists q :: q in again && q.catalog == p.catalog {
      var q := LeadsTo(e, specs, items, facts, newId, p);
    }
    forall spec | spec in catalog && Flickers(e, spec, Get(items, spec.catalogId), facts)
      ensures exists q :: q in again && q.action != Keep
    {
      RefreshSettles(e, specs, items, facts, newId, spec);
      RowSettles(e, spec, Get(items, spec.catalogId), facts, newId);
      var q := PlanItem(e, spec, Get(items', spec.catalogId), facts).value;
      PlanHolds(e, specs, items', facts, q);
    }
  }

  lemma CameFrom(
    e: Engine, specs: seq<CatalogSpec>, items: Items, facts: Facts, newId: int -> int, q: ItemPlan)
    returns (p: ItemPlan)
    requires UniqueIds(specs)
    requires q in PlanAll(e, specs, ApplyAll(items, PlanAll(e, specs, items, facts), newId), facts)
    ensures p in PlanAll(e, specs, items, facts) && p.action != MakeDormant && p.catalog == q.catalog
    ensures q.catalog in specs
    ensures q.action == Keep ==> KeptAs(p, q)
    ensures q.action == Keep || Flickers(e, q.catalog, Get(items, q.catalog.catalogId), facts)
  {
    var items' := ApplyAll(items, PlanAll(e, specs, items, facts), newId);
    PlanHolds(e, specs, items', facts, q);
    var spec :| spec in specs && PlanItem(e, spec, Get(items', spec.catalogId), facts) == Some(q);
    var state := Get(items, spec.catalogId);
    RefreshSettles(e, specs, items, facts, newId, spec);
    RowSettles(e, spec, state, facts, newId);
    p := PlanItem(e, spec, state, facts).value;
    PlanHolds(e, specs, items, facts, p);
  }

  lemma LeadsTo(
    e: Engine, specs: seq<CatalogSpec>, items: Items, facts: Facts, newId: int -> int, p: ItemPlan)
    returns (q: ItemPlan)
    requires UniqueIds(specs)
    requires p in PlanAll(e, specs, items, facts) && p.action != MakeDormant
    ensures q in PlanAll(e, specs, ApplyAll(items, PlanAll(e, specs, items, facts), newId), facts)
    ensures q.catalog == p.catalog
  {
    var items' := ApplyAll(items, PlanAll(e, specs, items, facts), newId);
    PlanHolds(e, specs, items, facts, p);
    var spec :| spec in specs && PlanItem(e, spec, Get(items, spec.catalogId), facts) == Some(p);
    RefreshSettles(e, specs, items, facts, newId, spec);
    RowSettles(e, spec, Get(items, spec.catalogId), facts, newId);
    q := PlanItem(e, spec, Get(items', spec.catalogId), facts).value;
    PlanHolds(e, specs, items', facts, q);
  }

  /** A row nothing can be read from. */
  const UNREADABLE: CatalogSpec := CatalogSpec(1, "OR", "Official receipt", "", Upload, Null, Null, 0)

  /** Planned on its own and without an item, it is created, and put away the next time. */
  lemma UnreadableRowFlickers(e: Engine, facts: Facts, newId: int -> int)
    ensures Flickers(e, UNREADABLE, None, facts)
    ensures var plan := Plan(e, [UNREADABLE], map[], facts);
            var again := Plan(e, [UNREADABLE], ApplyAll(map[], plan, newId), facts);
            |plan| == |again| == 1 && plan[0].action == Create && again[0].action == MakeDormant
  {
    var specs := [UNREADABLE];
    assert Sort(SpecLe, specs[1..]) == [] && Sort(SpecLe, specs) == specs;
    OneRowPlan(e, map[], facts);
    var plan := Plan(e, specs, map[], facts);
    var items := map[1 := Applied(None, plan[0], newId)];
    assert plan[1..] == [] && ApplyAll(map[], plan, newId) == items;
    OneRowPlan(e, items, facts);
  }

  lemma OneRowPlan(e: Engine, items: Items, facts: Facts)
    ensures var p := PlanItem(e, UNREADABLE, Get(items, 1), facts);
            PlanAll(e, [UNREADABLE], items, facts) == if p.Some? then [p.value] else []
  {
    assert PlanAll(e, [UNREADABLE][1..], items, facts) == [];
  }

  // ---- work is never put away -----------------------------------------------------------

  function Refreshes(
    e: Engine, catalog: seq<CatalogSpec>, items: Items, history: seq<Facts>, newId: int -> int): Items
    decreases |history|
  {
    if history == [] then items
    else Refreshes(e, catalog, ApplyAll(items, Plan(e, catalog, items, history[0]), newId), history[1..], newId)
  }

  ghost predicate KeepsWork(s: ItemState) {
    !s.dormant && s.HoldsSomething()
  }

  ghost predicate InCatalog(catalog: seq<CatalogSpec>, id: int) {
    exists spec :: spec in catalog && spec.catalogId == id
  }

  /** The item is the same work, though its status may have changed and, with `waiverShows`,
      its mark of a generated document has given way to that of the waiver. */
  ghost predicate SameWork(s: ItemState, s': ItemState, waiverShows: bool) {
    && KeepsWork(s') && s'.itemId == s.itemId && s'.evidenceCount == s.evidenceCount && s'.waived == s.waived
    && (s'.generated <==> s.generated && !(s.waived && waiverShows))
  }

  lemma RowKeepsWork(e: Engine, spec: CatalogSpec, s: ItemState, facts: Facts, newId: int -> int)
    requires KeepsWork(s)
    ensures var settled := Settled(e, spec, Some(s), facts, newId);
            settled.Some? && SameWork(s, settled.value, true)
  {
  }

  lemma RefreshKeepsWork(e: Engine, catalog: seq<CatalogSpec>, items: Items, facts: Facts, newId: int -> int, id: int)
    requires UniqueIds(catalog) && id in items && KeepsWork(items[id])
    ensures var items' := ApplyAll(items, Plan(e, catalog, items, facts), newId);
            id in items' && SameWork(items[id], items'[id], InCatalog(catalog, id))
  {
    var plan := Plan(e, catalog, items, facts);
    SortKeepsSpecs(catalog);
    var specs := Sort(SpecLe, catalog);
    if spec :| spec in specs && spec.catalogId == id {
      assert InCatalog(catalog, id);
      RefreshSettles(e, specs, items, facts, newId, spec);
      RowKeepsWork(e, spec, items[id], facts, newId);
    } else {
      forall p | p in plan ensures p.catalog.catalogId != id {
        PlanHolds(e, specs, items, facts, p);
      }
      ApplyAllElsewhere(items, plan, newId, id);
    }
    assert Get(ApplyAll(items, plan, newId), id).Some?;
  }

  /** Along any history of changing facts, a live item that holds evidence, a waiver or a
      generated document stays live and keeps what it holds. The one exception: the mark of a
      generated document is its status, and an item that is also waived loses it to the status
      of the waiver at the first refresh. */
  lemma {:induction false} WorkIsNeverPutAway(
    e: Engine, catalog: seq<CatalogSpec>, items: Items, history: seq<Facts>, newId: int -> int, id: int)
    requires UniqueIds(catalog) && id in items && KeepsWork(items[id])
    ensures id in Refreshes(e, catalog, items, history, newId)
    ensures var s := Refreshes(e, catalog, items, history, newId)[id];
            && KeepsWork(s) && s.itemId == items[id].itemId
            && s.evidenceCount == items[id].evidenceCount && s.waived == items[id].waived
            && (s.generated <==> items[id].generated && !(items[id].waived && history != [] && InCatalog(catalog, id)))
    decreases |history|
  {
    if history != [] {
      var items' := ApplyAll(items, Plan(e, catalog, items, history[0]), newId);
      RefreshKeepsWork(e, catalog, items, history[0], newId, id);
      WorkIsNeverPutAway(e, catalog, items', history[1..], newId, id);
    }
  }

  /** An item with a generated document that is then waived: after one refresh the waiver is
      there and the mark of the document is not. */
  lemma WaivedDocumentLosesItsMark(e: Engine, facts: Facts, newId: int -> int)
    ensures var items := map[1 := ItemState(7, StGenerated, 0, 0, 0, true, true, false)];
            var after := ApplyAll(items, Plan(e, [UNREADABLE], items, facts), newId);
            1 in after && after[1].waived && !after[1].generated && !after[1].dormant
  {
    var items := map[1 := ItemState(7, StGenerated, 0, 0, 0, true, true, false)];
    assert UNREADABLE in [UNREADABLE] && InCatalog([UNREADABLE], 1);
    RefreshKeepsWork(e, [UNREADABLE], items, facts, newId, 1);
  }
}
