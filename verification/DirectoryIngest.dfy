/** Landing a validated directory feed in the org-unit and staff tables.

    Cells are read after trimming, with an empty cell as `None`. Tables are keyed as the
    source's dictionaries are: org units by code and staff by employee number, live and
    soft-deleted rows alike. */
module DirectoryIngest {
  import opened Collections
  import opened OrgFeed

  type EmployeeNo = string
  type UserId = int

  const ORG_KINDS: set<string> := {"office", "division", "section", "unit"}

  // ---- rows ------------------------------------------------------------------------

  datatype RawOrg = RawOrg(
    code: Option<Code>, name: Option<string>, kind: Option<string>, parent: Option<Code>, sortOrder: int, active: bool)

  datatype OrgSpec = OrgSpec(
    name: Option<string>, kind: Option<string>, parent: Option<Code>, sortOrder: int, active: bool)

  datatype OrgRow = OrgRow(
    id: int, name: Option<string>, kind: Option<string>, parentId: Option<int>, sortOrder: int, active: bool,
    deleted: bool)

  type OrgTable = map<Code, OrgRow>

  function SpecOf(raw: RawOrg): OrgSpec {
    OrgSpec(raw.name, raw.kind, raw.parent, raw.sortOrder, raw.active)
  }

  function ParentsOf(specs: map<Code, OrgSpec>): Parents {
    map c | c in specs :: specs[c].parent
  }

  // ---- validating the org units --------------------------------------------------------

  datatype FeedError =
    | MissingCode(index: nat) | DuplicateCode(code: Code) | InvalidKind(code: Code) | MissingName(code: Code)
    | MissingEmployeeNo(index: nat) | DuplicateEmployeeNo(emp: EmployeeNo) | NamesRequired(emp: EmployeeNo)
    | DuplicateEmail(emp: EmployeeNo) | UnknownUnit(emp: EmployeeNo, wanted: string)
    | WrongKind(emp: EmployeeNo, wanted: string, kind: string)

  predicate GoodOrgRow(raw: RawOrg) {
    raw.code.Some? && raw.kind.Some? && raw.kind.value in ORG_KINDS && raw.name.Some?
  }

  ghost predicate GoodOrgRows(raws: seq<RawOrg>) {
    && (forall i :: 0 <= i < |raws| ==> GoodOrgRow(raws[i]))
    && (forall i, j :: 0 <= i < j < |raws| ==> raws[i].code != raws[j].code)
  }

  /** The specs are the feed's rows by code. */
  ghost predicate Collected(raws: seq<RawOrg>, specs: map<Code, OrgSpec>) {
    && (forall i :: 0 <= i < |raws| ==>
          && raws[i].code.Some? && raws[i].code.value in specs
          && specs[raws[i].code.value] == SpecOf(raws[i]))
    && (forall c :: c in specs ==> exists i :: 0 <= i < |raws| && raws[i].code == Some(c))
  }

  /** The rows by code; of rows with one code the first stands. */
  function FirstSpecs(raws: seq<RawOrg>): map<Code, OrgSpec> {
    if raws == [] then map[]
    else
      var before, last := FirstSpecs(raws[..|raws| - 1]), raws[|raws| - 1];
      if last.code.None? || last.code.value in before then before else before[last.code.value := SpecOf(last)]
  }

  predicate GoodKind(kind: Option<string>) {
    kind.Some? && kind.value in ORG_KINDS
  }

  /** The complaints about one row, after rows that made the specs `before`. */
  function OrgRowErrors(raw: RawOrg, i: nat, before: map<Code, OrgSpec>): seq<FeedError> {
    if raw.code.None? then [MissingCode(i)]
    else if raw.code.value in before then [DuplicateCode(raw.code.value)]
    else
      (if GoodKind(raw.kind) then [] else [InvalidKind(raw.code.value)])
      + (if raw.name.Some? then [] else [MissingName(raw.code.value)])
  }

  function OrgErrors(raws: seq<RawOrg>): seq<FeedError> {
    if raws == [] then []
    else
      var n := |raws| - 1;
      OrgErrors(raws[..n]) + OrgRowErrors(raws[n], n, FirstSpecs(raws[..n]))
  }

  method CollectOrgSpecs(raws: seq<RawOrg>) returns (specs: map<Code, OrgSpec>, errors: seq<FeedError>)
    ensures specs == FirstSpecs(raws) && errors == OrgErrors(raws)
  {
    specs, errors := map[], [];
    for i := 0 to |raws|
      invariant specs == FirstSpecs(raws[..i]) && errors == OrgErrors(raws[..i])
    {
      var raw := raws[i];
      assert raws[..i + 1][..i] == raws[..i] && raws[..i + 1][i] == raw;
      if raw.code.None? {
        errors := errors + [MissingCode(i)];
        continue;
      }
      var code := raw.code.value;
      if code in specs {
        errors := errors + [DuplicateCode(code)];
        continue;
      }
      ghost var before := errors;
      if raw.kind.None? || raw.kind.value !in ORG_KINDS {
        errors := errors + [InvalidKind(code)];
      }
      ghost var complaints := OrgRowErrors(raw, i, specs);
      specs := specs[code := SpecOf(raw)];
      if raw.name.None? {
        errors := errors + [MissingName(code)];
      }
      assert errors == before + complaints;
    }
    assert raws[..|raws|] == raws;
  }

  // ---- what the complaints say --------------------------------------------------------------

  lemma LastOf<T>(s: seq<T>)
    requires s != []
    ensures s == s[..|s| - 1] + [s[|s| - 1]]
  {
  }

  ghost predicate HasCode(raws: seq<RawOrg>, c: Code) {
    exists i :: 0 <= i < |raws| && raws[i].code == Some(c)
  }

  lemma HasCodeStep(raws: seq<RawOrg>, raw: RawOrg, c: Code)
    ensures HasCode(raws + [raw], c) <==> HasCode(raws, c) || raw.code == Some(c)
  {
    var more := raws + [raw];
    assert more[|raws|] == raw && forall i :: 0 <= i < |raws| ==> more[i] == raws[i];
    if i :| 0 <= i < |raws| && raws[i].code == Some(c) {
      assert more[i].code == Some(c);
    }
  }

  lemma {:induction false} FirstSpecsHold(raws: seq<RawOrg>, c: Code)
    ensures c in FirstSpecs(raws) <==> HasCode(raws, c)
  {
    if raws != [] {
      var n := |raws| - 1;
      FirstSpecsHold(raws[..n], c);
      LastOf(raws);
      HasCodeStep(raws[..n], raws[n], c);
    }
  }

  ghost predicate HasCodeTwice(raws: seq<RawOrg>, c: Code) {
    exists i, j :: 0 <= i < j < |raws| && raws[i].code == Some(c) && raws[j].code == Some(c)
  }

  lemma HasCodeTwiceStep(raws: seq<RawOrg>, raw: RawOrg, c: Code)
    ensures HasCodeTwice(raws + [raw], c) <==> HasCodeTwice(raws, c) || (raw.code == Some(c) && HasCode(raws, c))
  {
    var more := raws + [raw];
    assert more[|raws|] == raw && forall i :: 0 <= i < |raws| ==> more[i] == raws[i];
    if i, j :| 0 <= i < j < |raws| && raws[i].code == Some(c) && raws[j].code == Some(c) {
      assert more[i].code == Some(c) && more[j].code == Some(c);
    }
    if i :| 0 <= i < |raws| && raws[i].code == Some(c) {
      assert raw.code == Some(c) ==> more[i].code == Some(c) && more[|raws|].code == Some(c);
    }
  }

  /** What a feed of org rows deserves to be told: a row without a code, a code that comes
      twice, and a code whose first row has no known kind or no name. */
  ghost predicate OrgComplaint(raws: seq<RawOrg>, e: FeedError) {
    match e
    case MissingCode(i) => i < |raws| && raws[i].code.None?
    case DuplicateCode(c) => HasCodeTwice(raws, c)
    case InvalidKind(c) => c in FirstSpecs(raws) && !GoodKind(FirstSpecs(raws)[c].kind)
    case MissingName(c) => c in FirstSpecs(raws) && FirstSpecs(raws)[c].name.None?
    case _ => false
  }

  ghost predicate OrgRowComplaint(raw: RawOrg, i: nat, before: map<Code, OrgSpec>, e: FeedError) {
    match e
    case MissingCode(k) => k == i && raw.code.None?
    case DuplicateCode(c) => raw.code == Some(c) && c in before
    case InvalidKind(c) => raw.code == Some(c) && c !in before && !GoodKind(raw.kind)
    case MissingName(c) => raw.code == Some(c) && c !in before && raw.name.None?
    case _ => false
  }

  lemma OrgRowErrorsHold(raw: RawOrg, i: nat, before: map<Code, OrgSpec>, e: FeedError)
    ensures e in OrgRowErrors(raw, i, before) <==> OrgRowComplaint(raw, i, before, e)
  {
    if raw.code.Some? && raw.code.value !in before {
      var code := raw.code.value;
      var kind := if GoodKind(raw.kind) then [] else [InvalidKind(code)];
      var name := if raw.name.Some? then [] else [MissingName(code)];
      assert e in OrgRowErrors(raw, i, before) <==> e in kind || e in name;
    }
  }

  lemma FirstSpecsStep(raws: seq<RawOrg>, raw: RawOrg)
    ensures FirstSpecs(raws + [raw])
         == if raw.code.None? || raw.code.value in FirstSpecs(raws) then FirstSpecs(raws)
            else FirstSpecs(raws)[raw.code.value := SpecOf(raw)]
  {
    assert (raws + [raw])[..|raws|] == raws;
  }

  lemma OrgComplaintStep(raws: seq<RawOrg>, raw: RawOrg, e: FeedError)
    ensures OrgComplaint(raws + [raw], e) <==>
              OrgComplaint(raws, e) || OrgRowComplaint(raw, |raws|, FirstSpecs(raws), e)
  {
    FirstSpecsStep(raws, raw);
    match e
    case MissingCode(i) =>
      assert (raws + [raw])[|raws|] == raw;
    case DuplicateCode(c) =>
      HasCodeTwiceStep(raws, raw, c);
      FirstSpecsHold(raws, c);
    case _ =>
  }

  /** The complaints are exactly those. */
  lemma {:induction false} OrgErrorsHold(raws: seq<RawOrg>, e: FeedError)
    ensures e in OrgErrors(raws) <==> OrgComplaint(raws, e)
  {
    if raws != [] {
      var n := |raws| - 1;
      OrgErrorsHold(raws[..n], e);
      LastOf(raws);
      OrgComplaintStep(raws[..n], raws[n], e);
      OrgRowErrorsHold(raws[n], n, FirstSpecs(raws[..n]), e);
    }
  }

  lemma GoodOrgStep(raws: seq<RawOrg>, raw: RawOrg)
    ensures GoodOrgRows(raws + [raw]) <==>
              GoodOrgRows(raws) && GoodOrgRow(raw) && forall i :: 0 <= i < |raws| ==> raws[i].code != raw.code
  {
    var more := raws + [raw];
    assert more[|raws|] == raw && forall i :: 0 <= i < |raws| ==> more[i] == raws[i];
  }

  lemma CollectedStep(raws: seq<RawOrg>, raw: RawOrg, specs: map<Code, OrgSpec>, code: Code)
    requires Collected(raws, specs) && raw.code == Some(code) && code !in specs
    ensures Collected(raws + [raw], specs[code := SpecOf(raw)])
  {
    var more := raws + [raw];
    assert more[|raws|] == raw && forall i :: 0 <= i < |raws| ==> more[i] == raws[i];
    forall c | c in specs[code := SpecOf(raw)] ensures exists i :: 0 <= i < |more| && more[i].code == Some(c) {
      if c in specs {
        var i :| 0 <= i < |raws| && raws[i].code == Some(c);
        assert more[i].code == Some(c);
      }
    }
  }

  /** There is none exactly when every row is good and no code repeats. */
  lemma {:induction false} NoOrgErrors(raws: seq<RawOrg>)
    ensures OrgErrors(raws) == [] <==> GoodOrgRows(raws)
    ensures OrgErrors(raws) == [] ==> Collected(raws, FirstSpecs(raws))
  {
    if raws != [] {
      var n := |raws| - 1;
      var before, raw := raws[..n], raws[n];
      NoOrgErrors(before);
      LastOf(raws);
      GoodOrgStep(before, raw);
      if raw.code.Some? {
        var code := raw.code.value;
        FirstSpecsHold(before, code);
        assert HasCode(before, code) <==> !forall i :: 0 <= i < |before| ==> before[i].code != raw.code;
        if code !in FirstSpecs(before) && OrgErrors(before) == [] {
          CollectedStep(before, raw, FirstSpecs(before), code);
        }
      }
    }
  }

  ghost predicate ParentsResolve(specs: map<Code, OrgSpec>, org: OrgTable) {
    forall c :: c in specs && specs[c].parent.Some? ==> specs[c].parent.value in specs || specs[c].parent.value in org
  }

  ghost predicate Applicable(specs: map<Code, OrgSpec>, org: OrgTable) {
    ParentsResolve(specs, org) && NoneReported(ParentsOf(specs))
  }

  predicate Orphaned(specs: map<Code, OrgSpec>, org: OrgTable, c: Code) {
    c in specs && specs[c].parent.Some? && specs[c].parent.value !in specs && specs[c].parent.value !in org
  }

  method FindOrphans(specs: map<Code, OrgSpec>, org: OrgTable) returns (unknown: set<Code>)
    ensures unknown == set c | c in specs && Orphaned(specs, org, c)
  {
    unknown := {};
    var todo := specs.Keys;
    while todo != {}
      invariant todo <= specs.Keys
      invariant forall c :: c in unknown <==> c in specs && c !in todo && Orphaned(specs, org, c)
      decreases |todo|
    {
      ghost var some := Pick(todo);
      var code :| code in todo;
      todo := todo - {code};
      if Orphaned(specs, org, code) {
        unknown := unknown + {code};
      }
    }
  }

  /** Complaints about every unresolved parent and every chain that does not leave the feed. */
  method CheckParents(specs: map<Code, OrgSpec>, org: OrgTable) returns (unknown: set<Code>, cyclic: set<Code>)
    ensures unknown == set c | c in specs && Orphaned(specs, org, c)
    ensures cyclic == set c | c in specs && !Leaves(ParentsOf(specs), c)
    ensures unknown == {} && cyclic == {} <==> Applicable(specs, org)
  {
    unknown := FindOrphans(specs, org);
    cyclic := DetectOrgCycles(ParentsOf(specs));
    NoComplaintsIsApplicable(specs, org, unknown, cyclic);
  }

  lemma NoComplaintsIsApplicable(specs: map<Code, OrgSpec>, org: OrgTable, unknown: set<Code>, cyclic: set<Code>)
    requires unknown == set c | c in specs && Orphaned(specs, org, c)
    requires cyclic == set c | c in specs && !Leaves(ParentsOf(specs), c)
    ensures unknown == {} && cyclic == {} <==> Applicable(specs, org)
  {
    if unknown == {} && cyclic == {} {
      forall c | c in specs ensures !Orphaned(specs, org, c) && Leaves(ParentsOf(specs), c) {
        assert c !in unknown && c !in cyclic;
      }
    } else if unknown != {} {
      var c := Pick(unknown);
    } else {
      var c := Pick(cyclic);
      assert c in ParentsOf(specs);
    }
  }

  /** The specs a good feed collects are determined by the feed. */
  lemma CollectedUnique(raws: seq<RawOrg>, a: map<Code, OrgSpec>, b: map<Code, OrgSpec>)
    requires Collected(raws, a) && Collected(raws, b)
    ensures a == b
  {
    forall c | c in a ensures c in b && b[c] == a[c] {
      var i :| 0 <= i < |raws| && raws[i].code == Some(c);
    }
    forall c | c in b ensures c in a {
      var i :| 0 <= i < |raws| && raws[i].code == Some(c);
    }
  }

  // ---- applying the org units -------------------------------------------------------------

  function ParentId(specs: map<Code, OrgSpec>, org: OrgTable, c: Code): Option<int>
    requires c in specs
  {
    var parent := specs[c].parent;
    if parent.Some? && parent.value in org then Some(org[parent.value].id) else None
  }

  /** The row of `c` is live, carries the feed's fields, and points at its parent's row. */
  ghost predicate RowLanded(specs: map<Code, OrgSpec>, org: OrgTable, c: Code) {
    && c in specs && c in org
    && (specs[c].parent.Some? ==> specs[c].parent.value in org)
    && var row, spec := org[c], specs[c];
       row == OrgRow(row.id, spec.name, spec.kind, ParentId(specs, org, c), spec.sortOrder, spec.active, false)
  }

  ghost predicate IdsDistinct(org: OrgTable, nextId: int) {
    && (forall c :: c in org ==> org[c].id < nextId)
    && (forall c, d :: c in org && d in org && c != d ==> org[c].id != org[d].id)
  }

  /** `org` became `org'` by applying the rows `done`; everything else is untouched, and
      no row that existed changed its id. */
  ghost predicate AppliedTo(specs: map<Code, OrgSpec>, done: set<Code>, org: OrgTable, org': OrgTable) {
    && org'.Keys == org.Keys + done
    && (forall c :: c in done ==> RowLanded(specs, org', c))
    && (forall c :: c in org && c !in done ==> org'[c] == org[c])
    && (forall c :: c in org ==> org'[c].id == org[c].id)
  }

  function Lookup(org: OrgTable, c: Code): Option<OrgRow> {
    if c in org then Some(org[c]) else None
  }

  function Upserted(spec: OrgSpec, existing: Option<OrgRow>, parentId: Option<int>, newId: int): OrgRow {
    OrgRow(if existing.Some? then existing.value.id else newId,
           spec.name, spec.kind, parentId, spec.sortOrder, spec.active, false)
  }

  lemma UpsertKeeps(specs: map<Code, OrgSpec>, done: set<Code>, org: OrgTable, mid: OrgTable, c: Code, row: OrgRow)
    requires AppliedTo(specs, done, org, mid) && c in specs && c !in done
    requires specs[c].parent.Some? ==> specs[c].parent.value in mid && specs[c].parent.value != c
    requires row == Upserted(specs[c], Lookup(mid, c), ParentId(specs, mid, c), row.id)
    ensures AppliedTo(specs, done + {c}, org, mid[c := row])
  {
    var after := mid[c := row];
    forall d | d in done ensures RowLanded(specs, after, d) {
      assert RowLanded(specs, mid, d);
    }
    assert ParentId(specs, after, c) == ParentId(specs, mid, c);
  }

  method OrderToApply(specs: map<Code, OrgSpec>) returns (order: seq<Code>)
    requires NoneReported(ParentsOf(specs))
    ensures ParentsFirst(ParentsOf(specs), order)
  {
    order := TopologicalOrder(ParentsOf(specs));
  }

  datatype Landing = Created | Updated | Restored

  function LandingOf(org: OrgTable, c: Code): Landing {
    if c !in org then Created else if org[c].deleted then Restored else Updated
  }

  ghost predicate Reports(result: map<Code, Landing>, done: set<Code>, before: OrgTable) {
    result.Keys == done && forall c :: c in done ==> result[c] == LandingOf(before, c)
  }

  /** `c` is still to be applied, and its parent's row is in place. */
  ghost predicate IsNext(specs: map<Code, OrgSpec>, done: set<Code>, before: OrgTable, c: Code) {
    && c in specs && c !in done
    && (specs[c].parent.Some? ==> specs[c].parent.value in before.Keys + done && specs[c].parent.value != c)
  }

  lemma ReportsStep(result: map<Code, Landing>, done: set<Code>, before: OrgTable, c: Code)
    requires Reports(result, done, before)
    ensures Reports(result[c := LandingOf(before, c)], done + {c}, before)
  {
  }

  class Directory {
    var org: OrgTable
    var nextId: int

    ghost predicate Valid()
      reads this
    {
      IdsDistinct(org, nextId)
    }

    /** An empty directory. */
    constructor ()
      ensures Valid() && org == map[]
    {
      org, nextId := map[], 1;
    }

    /** A directory over a table there is. */
    constructor Over(org: OrgTable, nextId: int)
      requires IdsDistinct(org, nextId)
      ensures Valid() && this.org == org && this.nextId == nextId
    {
      this.org, this.nextId := org, nextId;
    }

    method UpsertOrgUnit(code: Code, spec: OrgSpec, parentId: Option<int>) returns (landing: Landing)
      requires Valid()
      modifies this
      ensures Valid() && landing == LandingOf(old(org), code)
      ensures org == old(org)[code := Upserted(spec, Lookup(old(org), code), parentId, old(nextId))]
    {
      if code !in org {
        landing := Created;
        org := org[code := OrgRow(nextId, spec.name, spec.kind, parentId, spec.sortOrder, spec.active, false)];
        nextId := nextId + 1;
      } else {
        var row := org[code];
        landing := if row.deleted then Restored else Updated;
        org := org[code := row.(name := spec.name, kind := spec.kind, parentId := parentId,
                                sortOrder := spec.sortOrder, active := spec.active, deleted := false)];
      }
    }

    method PlaceOrgUnit(specs: map<Code, OrgSpec>, code: Code, ghost done: set<Code>, ghost before: OrgTable)
      returns (landing: Landing)
      requires Valid() && AppliedTo(specs, done, before, org) && IsNext(specs, done, before, code)
      modifies this
      ensures Valid() && AppliedTo(specs, done + {code}, before, org) && landing == LandingOf(before, code)
    {
      var spec := specs[code];
      var parentId := if spec.parent.Some? then Some(org[spec.parent.value].id) else None;
      UpsertKeeps(specs, done, before, org, code, Upserted(spec, Lookup(org, code), parentId, nextId));
      landing := UpsertOrgUnit(code, spec, parentId);
    }

    /** Parents come first, so no parent lookup misses. */
    method ApplyOrgUnits(specs: map<Code, OrgSpec>) returns (result: map<Code, Landing>)
      requires Valid() && Applicable(specs, org)
      modifies this
      ensures Valid() && AppliedTo(specs, specs.Keys, old(org), org)
      ensures Reports(result, specs.Keys, old(org))
    {
      result := map[];
      var order := OrderToApply(specs);
      ghost var done: set<Code> := {};
      for i := 0 to |order|
        invariant done == Codes(order[..i])
        invariant Valid() && AppliedTo(specs, done, old(org), org) && Reports(result, done, old(org))
      {
        OrderIsFresh(specs, order, i, old(org));
        CodesStep(order, i);
        var code := order[i];
        ReportsStep(result, done, old(org), code);
        var landing := PlaceOrgUnit(specs, code, done, old(org));
        result := result[code := landing];
        done := done + {code};
      }
      EveryCode(specs, order);
    }
  }

  ghost function Codes(order: seq<Code>): set<Code> {
    set c | c in order
  }

  lemma EveryCode(specs: map<Code, OrgSpec>, order: seq<Code>)
    requires ParentsFirst(ParentsOf(specs), order)
    ensures Codes(order[..|order|]) == specs.Keys
  {
    assert order[..|order|] == order;
    assert forall c :: c in order <==> c in ParentsOf(specs);
  }

  /** The i-th code is new, and its parent is in place by the time it is reached. */
  lemma OrderIsFresh(specs: map<Code, OrgSpec>, order: seq<Code>, i: nat, org: OrgTable)
    requires i < |order| && ParentsResolve(specs, org) && ParentsFirst(ParentsOf(specs), order)
    ensures IsNext(specs, Codes(order[..i]), org, order[i])
  {
    assert order[i] in order;
  }

  lemma CodesStep(order: seq<Code>, i: nat)
    requires i < |order|
    ensures Codes(order[..i + 1]) == Codes(order[..i]) + {order[i]}
  {
    assert order[..i + 1] == order[..i] + [order[i]];
  }

  /** Running the same feed again creates nothing, restores nothing and changes nothing. */
  lemma SecondRunIsIdle(specs: map<Code, OrgSpec>, org: OrgTable, once: OrgTable, twice: OrgTable)
    requires AppliedTo(specs, specs.Keys, org, once) && AppliedTo(specs, specs.Keys, once, twice)
    ensures twice == once
    ensures specs.Keys - once.Keys == {}
    ensures forall c :: c in specs ==> !once[c].deleted
  {
    assert twice.Keys == once.Keys;
    forall c | c in once ensures twice[c] == once[c] {
      if c in specs {
        assert RowLanded(specs, once, c) && RowLanded(specs, twice, c);
      }
    }
    forall c | c in specs ensures !once[c].deleted {
      assert RowLanded(specs, once, c);
    }
  }
}
