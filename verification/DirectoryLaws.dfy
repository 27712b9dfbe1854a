/** What a directory feed must be to pass, and what each of its rows leaves in the tables. */
module DirectoryLaws {
  import opened Collections
  import opened OrgFeed
  import opened DirectoryIngest
  import opened StaffFeed
  import opened DirectoryStaff

  // ---- passing ---------------------------------------------------------------------------------

  ghost predicate IsKind(kind: Option<string>) {
    kind == Some("office") || kind == Some("division") || kind == Some("section") || kind == Some("unit")
  }

  /** Once the feed is in, the unit has that kind: by a row of the feed or, when the feed has no row
      for it, by the table. */
  ghost predicate WillBe(raws: seq<RawOrg>, org: OrgTable, unit: Code, kind: string) {
    || (exists i :: 0 <= i < |raws| && raws[i].code == Some(unit) && raws[i].kind == Some(kind))
    || (!HasCode(raws, unit) && unit in org && org[unit].kind == Some(kind))
  }

  /** Every org row has a code of its own, a name, a known kind, and a parent, if any, that the feed
      or the table has. */
  ghost predicate OrgRowsPass(raws: seq<RawOrg>, org: OrgTable) {
    && (forall i, j :: 0 <= i < j < |raws| ==> raws[i].code != raws[j].code)
    && forall i :: 0 <= i < |raws| ==>
         && raws[i].code.Some? && raws[i].name.Some? && IsKind(raws[i].kind)
         && (raws[i].parent.Some? ==> HasCode(raws, raws[i].parent.value) || raws[i].parent.value in org)
  }

  /** Every staff row has a number and an email of its own, however the email is written, both
      names, and a division and a section, if any, that are ones. */
  ghost predicate StaffRowsPass(lower: string -> string, feed: Feed, org: OrgTable) {
    && (forall i, j :: 0 <= i < j < |feed.staff| ==>
          && feed.staff[i].emp != feed.staff[j].emp
          && (feed.staff[i].details.email.Some? && feed.staff[j].details.email.Some? ==>
                lower(feed.staff[i].details.email.value) != lower(feed.staff[j].details.email.value)))
    && forall i :: 0 <= i < |feed.staff| ==>
         var raw := feed.staff[i];
         && raw.emp.Some? && raw.details.given.Some? && raw.details.surname.Some?
         && (raw.division.Some? ==> WillBe(feed.orgUnits, org, raw.division.value, "division"))
         && (raw.section.Some? ==> WillBe(feed.orgUnits, org, raw.section.value, "section"))
  }

  lemma KindIsSpelledOut(raws: seq<RawOrg>, specs: map<Code, OrgSpec>, org: OrgTable, unit: Code, kind: string)
    requires Collected(raws, specs)
    ensures KindOf(specs, org, unit) == Some(kind) <==> WillBe(raws, org, unit, kind)
  {
    if unit in specs {
      var i :| 0 <= i < |raws| && raws[i].code == Some(unit);
      assert HasCode(raws, unit);
    }
  }

  /** A feed passes exactly when its rows do and no chain of its parents fails to leave it. */
  lemma PassesIsSpelledOut(lower: string -> string, feed: Feed, specs: map<Code, OrgSpec>, org: OrgTable)
    requires specs == FirstSpecs(feed.orgUnits)
    ensures Passes(lower, feed, specs, org) <==>
              && OrgRowsPass(feed.orgUnits, org) && StaffRowsPass(lower, feed, org)
              && forall c :: c in specs ==> Leaves(ParentsOf(specs), c)
  {
    NoOrgErrors(feed.orgUnits);
    if GoodOrgRows(feed.orgUnits) {
      OrgRowsDecide(feed.orgUnits, specs, org);
      StaffRowsDecide(lower, feed, specs, org);
      assert NoneReported(ParentsOf(specs)) <==> forall c :: c in specs ==> Leaves(ParentsOf(specs), c);
    }
  }

  lemma OrgRowsDecide(raws: seq<RawOrg>, specs: map<Code, OrgSpec>, org: OrgTable)
    requires GoodOrgRows(raws) && Collected(raws, specs)
    ensures OrgRowsPass(raws, org) <==> ParentsResolve(specs, org)
  {
    forall c ensures c in specs <==> HasCode(raws, c) {
    }
  }

  lemma StaffRowsDecide(lower: string -> string, feed: Feed, specs: map<Code, OrgSpec>, org: OrgTable)
    requires Collected(feed.orgUnits, specs)
    ensures StaffRowsPass(lower, feed, org) <==> GoodStaff(lower, feed.staff, specs, org)
  {
    forall unit, kind ensures KindOf(specs, org, unit) == Some(kind) <==> WillBe(feed.orgUnits, org, unit, kind) {
      KindIsSpelledOut(feed.orgUnits, specs, org, unit, kind);
    }
  }

  // ---- landing -----------------------------------------------------------------------------------

  /** Every org row of a feed that landed is in the table, live, with its fields, its parent's id
      and, if the code was there before, its own. */
  lemma OrgRowLands(
    lower: string -> string, feed: Feed, specs: map<Code, OrgSpec>, prune: bool, before: Tables, after: Tables,
    gone: set<EmployeeNo>, i: nat)
    requires Passes(lower, feed, specs, before.org) && Lands(feed, specs, prune, before, after, gone)
    requires i < |feed.orgUnits|
    ensures var raw := feed.orgUnits[i];
            && raw.code.Some? && raw.code.value in after.org
            && var code, row := raw.code.value, after.org[raw.code.value];
               && row.name == raw.name && row.kind == raw.kind && row.sortOrder == raw.sortOrder
               && row.active == raw.active && !row.deleted
               && (code in before.org ==> row.id == before.org[code].id)
               && (raw.parent.None? ==> row.parentId == None)
               && (raw.parent.Some? ==>
                     raw.parent.value in after.org && row.parentId == Some(after.org[raw.parent.value].id))
  {
    assert RowLanded(specs, after.org, feed.orgUnits[i].code.value);
  }

  /** The units that the feed has no row for are as they were, and no others appear. */
  lemma OtherUnitsStay(
    feed: Feed, specs: map<Code, OrgSpec>, prune: bool, before: Tables, after: Tables, gone: set<EmployeeNo>, c: Code)
    requires Collected(feed.orgUnits, specs) && Lands(feed, specs, prune, before, after, gone)
    requires !HasCode(feed.orgUnits, c)
    ensures Lookup(after.org, c) == Lookup(before.org, c)
  {
  }

  /** Every staff row of a feed that landed is in the table, live, with its details, the ids of its
      division and its section, which are ones, and, if the number was there before, its own id. A
      full name that is not given is made of the given name and the surname. */
  lemma StaffRowLands(
    lower: string -> string, feed: Feed, specs: map<Code, OrgSpec>, prune: bool, before: Tables, after: Tables,
    gone: set<EmployeeNo>, i: nat)
    requires Passes(lower, feed, specs, before.org) && Lands(feed, specs, prune, before, after, gone)
    requires i < |feed.staff|
    ensures var raw := feed.staff[i];
            && raw.emp.Some? && raw.emp.value in after.staff
            && var emp, row := raw.emp.value, after.staff[raw.emp.value];
               && !row.deleted && emp !in gone && (emp in before.staff ==> row.id == before.staff[emp].id)
               && IsIdOf(after.org, raw.division, "division", row.divisionId)
               && IsIdOf(after.org, raw.section, "section", row.sectionId)
               && HasDetails(raw.details, row.details)
  {
    var raw := feed.staff[i];
    var emp := raw.emp.value;
    assert emp in Emps(feed.staff);
    var mid: StaffTable :| StaffAppliedTo(feed.staff, after.org, before.staff, mid)
               && if prune then PrunedTo(feed.staff, mid, after.staff, gone) else after.staff == mid && gone == {};
    assert after.staff[emp] == mid[emp] == Landed(raw, after.org, mid[emp].id);
    assert UnitsFit(raw, specs, before.org);
    UnitIsLanded(specs, before.org, after.org, raw.division, "division");
    UnitIsLanded(specs, before.org, after.org, raw.section, "section");
  }

  /** `id` is that of the unit named, which has the kind; and there is none when none is named. */
  ghost predicate IsIdOf(org: OrgTable, unit: Option<Code>, kind: string, id: Option<int>) {
    if unit.None? then id == None
    else unit.value in org && org[unit.value].kind == Some(kind) && id == Some(org[unit.value].id)
  }

  lemma UnitIsLanded(
    specs: map<Code, OrgSpec>, before: OrgTable, after: OrgTable, unit: Option<Code>, kind: string)
    requires AppliedTo(specs, specs.Keys, before, after) && HasKind(specs, before, unit, kind)
    ensures IsIdOf(after, unit, kind, UnitId(after, unit))
  {
    if unit.Some? && unit.value in specs {
      assert RowLanded(specs, after, unit.value);
    }
  }

  ghost predicate HasDetails(raw: Details, landed: Details) {
    && landed.given == raw.given && landed.middle == raw.middle && landed.surname == raw.surname
    && landed.email == raw.email && landed.positionTitle == raw.positionTitle
    && landed.plantillaItemNo == raw.plantillaItemNo && landed.employmentStatus == raw.employmentStatus
    && (raw.fullName.Some? ==> landed.fullName == raw.fullName)
    && (raw.fullName.None? && raw.given.Some? && raw.surname.Some? ==>
          landed.fullName == Some(raw.given.value + " " + raw.surname.value))
  }

  /** Staff that the feed has no row for are as they were or, when pruning, soft-deleted; those who
      were live are the ones reported; and nobody else appears. */
  lemma AbsentStaffStayOrGo(
    feed: Feed, specs: map<Code, OrgSpec>, prune: bool, before: Tables, after: Tables, gone: set<EmployeeNo>,
    emp: EmployeeNo)
    requires Lands(feed, specs, prune, before, after, gone) && !HasNumber(feed.staff, emp)
    ensures emp in after.staff <==> emp in before.staff
    ensures emp in before.staff ==>
              after.staff[emp] == if prune then before.staff[emp].(deleted := true) else before.staff[emp]
    ensures emp in gone <==> prune && emp in before.staff && !before.staff[emp].deleted
  {
    var mid: StaffTable :| StaffAppliedTo(feed.staff, after.org, before.staff, mid)
               && if prune then PrunedTo(feed.staff, mid, after.staff, gone) else after.staff == mid && gone == {};
    assert emp !in Emps(feed.staff);
  }
}
