/** Landing the staff of a directory feed, and the whole ingest. */
module DirectoryStaff {
  import opened Collections
  import opened OrgFeed
  import opened DirectoryIngest
  import opened StaffFeed

  datatype StaffRow = StaffRow(
    id: int, details: Details, divisionId: Option<int>, sectionId: Option<int>, deleted: bool)

  type StaffTable = map<EmployeeNo, StaffRow>

  /** The full name falls back to the given name and the surname. */
  function WithFullName(d: Details): Details {
    if d.fullName.None? && d.given.Some? && d.surname.Some?
    then d.(fullName := Some(d.given.value + " " + d.surname.value))
    else d
  }

  // ---- applying --------------------------------------------------------------------------

  function UnitId(org: OrgTable, unit: Option<Code>): Option<int> {
    if unit.Some? && unit.value in org then Some(org[unit.value].id) else None
  }

  /** The row a feed row leaves behind; a row that existed keeps its id. */
  function Landed(raw: RawStaff, org: OrgTable, id: int): StaffRow {
    StaffRow(id, WithFullName(raw.details), UnitId(org, raw.division), UnitId(org, raw.section), false)
  }

  ghost function Emps(raws: seq<RawStaff>): set<EmployeeNo> {
    set i | 0 <= i < |raws| && raws[i].emp.Some? :: raws[i].emp.value
  }

  ghost predicate StaffAppliedTo(raws: seq<RawStaff>, org: OrgTable, before: StaffTable, after: StaffTable) {
    && after.Keys == before.Keys + Emps(raws)
    && (forall i :: 0 <= i < |raws| && raws[i].emp.Some? ==>
          after[raws[i].emp.value] == Landed(raws[i], org, after[raws[i].emp.value].id))
    && (forall e :: e in before ==> after[e].id == before[e].id && (e !in Emps(raws) ==> after[e] == before[e]))
  }

  ghost predicate StaffIdsBelow(staff: StaffTable, nextId: int) {
    forall e :: e in staff ==> staff[e].id < nextId
  }

  lemma StaffStep(
    raws: seq<RawStaff>, i: nat, org: OrgTable, before: StaffTable, mid: StaffTable, emp: EmployeeNo, newId: int)
    requires i < |raws| && raws[i].emp == Some(emp)
    requires forall j :: 0 <= j < i ==> raws[j].emp != raws[i].emp
    requires StaffAppliedTo(raws[..i], org, before, mid)
    ensures var id := if emp in mid then mid[emp].id else newId;
            StaffAppliedTo(raws[..i + 1], org, before, mid[emp := Landed(raws[i], org, id)])
  {
    assert raws[..i + 1] == raws[..i] + [raws[i]];
    EmpsStep(raws, i, emp);
    assert emp !in Emps(raws[..i]);
  }

  lemma EmpsStep(raws: seq<RawStaff>, i: nat, emp: EmployeeNo)
    requires i < |raws| && raws[i].emp == Some(emp)
    ensures Emps(raws[..i + 1]) == Emps(raws[..i]) + {emp}
  {
    assert raws[..i + 1][i] == raws[i] && forall k :: 0 <= k < i ==> raws[..i + 1][k] == raws[..i][k];
    assert emp in Emps(raws[..i + 1]);
    forall e | e in Emps(raws[..i]) ensures e in Emps(raws[..i + 1]) {
      var k :| 0 <= k < i && raws[..i][k].emp.Some? && raws[..i][k].emp.value == e;
      assert raws[..i + 1][k].emp.value == e;
    }
  }

  // ---- pruning -----------------------------------------------------------------------------

  /** Exactly the live staff absent from the feed are soft-deleted. */
  ghost predicate PrunedTo(raws: seq<RawStaff>, before: StaffTable, after: StaffTable, gone: set<EmployeeNo>) {
    && gone == (set e | e in before && e !in Emps(raws) && !before[e].deleted)
    && after.Keys == before.Keys
    && (forall e :: e in before ==> after[e] == if e in gone then before[e].(deleted := true) else before[e])
  }

  method SoftDeleteAbsent(raws: seq<RawStaff>, before: StaffTable) returns (after: StaffTable, gone: set<EmployeeNo>)
    ensures PrunedTo(raws, before, after, gone)
  {
    var feed := set i | 0 <= i < |raws| && raws[i].emp.Some? :: raws[i].emp.value;
    after, gone := before, {};
    var todo := before.Keys;
    while todo != {}
      invariant todo <= before.Keys == after.Keys
      invariant gone == set e | e in before.Keys - todo && e !in feed && !before[e].deleted
      invariant forall e :: e in before ==> after[e] == if e in gone then before[e].(deleted := true) else before[e]
      decreases |todo|
    {
      ghost var some := Pick(todo);
      var emp :| emp in todo;
      todo := todo - {emp};
      if emp !in feed && !after[emp].deleted {
        after := after[emp := after[emp].(deleted := true)];
        gone := gone + {emp};
      }
    }
  }

  // ---- the whole ingest -------------------------------------------------------------------------

  datatype Feed = Feed(orgUnits: seq<RawOrg>, staff: seq<RawStaff>)

  datatype IngestResult =
    | Ingested(
        units: map<Code, Landing>, people: map<EmployeeNo, Landing>, deactivated: set<EmployeeNo>,
        offboard: set<UserId>)
    | Refused(errors: seq<FeedError>, unknownParents: set<Code>, cyclic: set<Code>)
    | PruneRefused

  /** The feed, whose org rows make the specs, passes validation against the org table. */
  ghost predicate Passes(lower: string -> string, feed: Feed, specs: map<Code, OrgSpec>, org: OrgTable) {
    && GoodOrgRows(feed.orgUnits) && Collected(feed.orgUnits, specs)
    && Applicable(specs, org) && GoodStaff(lower, feed.staff, specs, org)
  }

  /** A complaint that the feed's rows give reason for. */
  ghost predicate Deserves(
    lower: string -> string, feed: Feed, specs: map<Code, OrgSpec>, org: OrgTable, e: FeedError)
  {
    || OrgComplaint(feed.orgUnits, e) || StaffComplaint(lower, feed.staff, e)
    || UnitComplaint(FirstRows(feed.staff), specs, org, e)
  }

  /** What the checks found, as they found it. */
  ghost predicate Checked(
    lower: string -> string, feed: Feed, specs: map<Code, OrgSpec>, org: OrgTable, units: seq<FeedError>,
    unknown: set<Code>, cyclic: set<Code>)
  {
    && specs == FirstSpecs(feed.orgUnits)
    && (forall e :: e in units <==> UnitComplaint(FirstRows(feed.staff), specs, org, e))
    && (units == [] <==>
          forall i :: 0 <= i < |FirstRows(feed.staff)| ==> UnitsFit(FirstRows(feed.staff)[i], specs, org))
    && (unknown == {} && cyclic == {} <==> Applicable(specs, org))
  }

  /** The complaints of the checks are deserved, and there is none exactly when the feed passes. */
  lemma ChecksDecide(
    lower: string -> string, feed: Feed, specs: map<Code, OrgSpec>, org: OrgTable, units: seq<FeedError>,
    unknown: set<Code>, cyclic: set<Code>)
    requires Checked(lower, feed, specs, org, units, unknown, cyclic)
    ensures var errors := OrgErrors(feed.orgUnits) + StaffErrors(lower, feed.staff) + units;
            && (forall e :: e in errors <==> Deserves(lower, feed, specs, org, e))
            && (errors == [] && unknown == {} && cyclic == {} <==> Passes(lower, feed, specs, org))
    ensures !Passes(lower, feed, specs, org) ==> forall s :: !Passes(lower, feed, s, org)
  {
    var errors := OrgErrors(feed.orgUnits) + StaffErrors(lower, feed.staff) + units;
    forall e ensures e in errors <==> Deserves(lower, feed, specs, org, e) {
      OrgErrorsHold(feed.orgUnits, e);
      StaffErrorsHold(lower, feed.staff, e);
    }
    NoOrgErrors(feed.orgUnits);
    NoStaffErrors(lower, feed.staff);
    forall s | Passes(lower, feed, s, org) ensures s == specs {
      CollectedUnique(feed.orgUnits, s, specs);
    }
  }

  /** The two tables of the directory. */
  datatype Tables = Tables(org: OrgTable, staff: StaffTable)

  /** The feed landed whole: `before` became `after`, and `gone` was pruned. */
  ghost predicate Lands(
    feed: Feed, specs: map<Code, OrgSpec>, prune: bool, before: Tables, after: Tables, gone: set<EmployeeNo>)
  {
    && AppliedTo(specs, specs.Keys, before.org, after.org)
    && exists mid :: StaffAppliedTo(feed.staff, after.org, before.staff, mid)
                     && if prune then PrunedTo(feed.staff, mid, after.staff, gone) else after.staff == mid && gone == {}
  }

  function LandingOfStaff(staff: StaffTable, e: EmployeeNo): Landing {
    if e !in staff then Created else if staff[e].deleted then Restored else Updated
  }

  ghost predicate ReportsStaff(people: map<EmployeeNo, Landing>, raws: seq<RawStaff>, before: StaffTable) {
    people.Keys == Emps(raws) && forall e :: e in people ==> people[e] == LandingOfStaff(before, e)
  }

  lemma ReportsStaffStep(
    people: map<EmployeeNo, Landing>, raws: seq<RawStaff>, i: nat, before: StaffTable, emp: EmployeeNo)
    requires i < |raws| && raws[i].emp == Some(emp) && ReportsStaff(people, raws[..i], before)
    ensures ReportsStaff(people[emp := LandingOfStaff(before, emp)], raws[..i + 1], before)
  {
    EmpsStep(raws, i, emp);
  }

  class Ingestion {
    const dir: Directory
    var staff: StaffTable
    var nextId: int

    constructor (dir: Directory, staff: StaffTable, nextId: int)
      requires dir.Valid() && StaffIdsBelow(staff, nextId)
      ensures this.dir == dir && this.staff == staff && Valid()
    {
      this.dir, this.staff, this.nextId := dir, staff, nextId;
    }

    ghost predicate Valid()
      reads this, dir
    {
      dir.Valid() && StaffIdsBelow(staff, nextId)
    }

    ghost function Contents(): Tables
      reads this, dir
    {
      Tables(dir.org, staff)
    }

    method PlaceStaff(raws: seq<RawStaff>, i: nat, ghost before: StaffTable) returns (landing: Landing)
      requires Valid() && i < |raws| && raws[i].emp.Some?
      requires forall j :: 0 <= j < i ==> raws[j].emp != raws[i].emp
      requires StaffAppliedTo(raws[..i], dir.org, before, staff)
      modifies this
      ensures Valid() && StaffAppliedTo(raws[..i + 1], dir.org, before, staff)
      ensures landing == LandingOfStaff(before, raws[i].emp.value)
    {
      var emp := raws[i].emp.value;
      StaffStep(raws, i, dir.org, before, staff, emp, nextId);
      if emp !in staff {
        landing := Created;
        staff := staff[emp := Landed(raws[i], dir.org, nextId)];
        nextId := nextId + 1;
      } else {
        landing := if staff[emp].deleted then Restored else Updated;
        staff := staff[emp := Landed(raws[i], dir.org, staff[emp].id)];
      }
    }

    method ApplyStaff(raws: seq<RawStaff>) returns (people: map<EmployeeNo, Landing>)
      requires Valid()
      requires forall i :: 0 <= i < |raws| ==> raws[i].emp.Some?
      requires forall i, j :: 0 <= i < j < |raws| ==> raws[i].emp != raws[j].emp
      modifies this
      ensures Valid() && StaffAppliedTo(raws, dir.org, old(staff), staff)
      ensures ReportsStaff(people, raws, old(staff))
    {
      people := map[];
      for i := 0 to |raws|
        invariant Valid() && StaffAppliedTo(raws[..i], dir.org, old(staff), staff)
        invariant ReportsStaff(people, raws[..i], old(staff))
      {
        var landing := PlaceStaff(raws, i, old(staff));
        ReportsStaffStep(people, raws, i, old(staff), raws[i].emp.value);
        people := people[raws[i].emp.value := landing];
      }
      assert raws[..|raws|] == raws;
    }

    method Prune(raws: seq<RawStaff>) returns (gone: set<EmployeeNo>)
      requires Valid()
      modifies this
      ensures Valid() && PrunedTo(raws, old(staff), staff, gone)
    {
      staff, gone := SoftDeleteAbsent(raws, staff);
    }

    /** A feed that fails validation changes nothing. A feed that passes lands whole: its
        org units, its staff and, when asked for, the pruning of absent staff. Pruning
        against an empty staff feed is refused. */
    method IngestDirectory(feed: Feed, lower: string -> string, prune: bool, users: map<UserId, Option<int>>)
      returns (r: IngestResult, ghost specs: map<Code, OrgSpec>)
      requires Valid()
      modifies this, dir
      ensures Valid()
      ensures specs == FirstSpecs(feed.orgUnits)
      ensures r.Refused? ==> Contents() == old(Contents()) && forall s :: !Passes(lower, feed, s, old(dir.org))
      ensures r.Refused? ==>
                && r.unknownParents == (set c | c in specs && Orphaned(specs, old(dir.org), c))
                && r.cyclic == (set c | c in specs && !Leaves(ParentsOf(specs), c))
                && (forall e :: e in r.errors <==> Deserves(lower, feed, specs, old(dir.org), e))
                && (r.errors != [] || r.unknownParents != {} || r.cyclic != {})
      ensures !r.Refused? ==> Passes(lower, feed, specs, old(dir.org))
      ensures r.PruneRefused? <==> !r.Refused? && prune && feed.staff == []
      ensures r.PruneRefused? ==> Lands(feed, specs, false, old(Contents()), Contents(), {})
      ensures r.Ingested? ==>
                && Lands(feed, specs, prune, old(Contents()), Contents(), r.deactivated)
                && Reports(r.units, specs.Keys, old(dir.org))
                && ReportsStaff(r.people, feed.staff, old(staff))
                && r.offboard == set u | u in users && exists e :: e in r.deactivated && users[u] == Some(staff[e].id)
    {
      var collected, errors := CollectOrgSpecs(feed.orgUnits);
      specs := collected;
      var unknown, cyclic := CheckParents(collected, dir.org);
      var taken, staffErrors := CheckStaff(lower, feed.staff);
      FirstRowsAreNumbered(feed.staff);
      var unitErrors := CheckUnits(taken, collected, dir.org);
      ChecksDecide(lower, feed, collected, dir.org, unitErrors, unknown, cyclic);
      if errors + staffErrors + unitErrors != [] || unknown != {} || cyclic != {} {
        return Refused(errors + staffErrors + unitErrors, unknown, cyclic), specs;
      }
      var units := dir.ApplyOrgUnits(collected);
      var people := ApplyStaff(feed.staff);
      var gone: set<EmployeeNo> := {};
      if prune {
        if feed.staff == [] {
          return PruneRefused, specs;
        }
        gone := Prune(feed.staff);
      }
      var offboard := set u | u in users && exists e :: e in gone && users[u] == Some(staff[e].id);
      return Ingested(units, people, gone, offboard), specs;
    }
  }

  // ---- the second run --------------------------------------------------------------------------

  lemma EmpIn(raws: seq<RawStaff>, e: EmployeeNo) returns (i: nat)
    requires e in Emps(raws)
    ensures i < |raws| && raws[i].emp == Some(e)
  {
    i :| 0 <= i < |raws| && raws[i].emp.Some? && raws[i].emp.value == e;
  }

  /** Every feed row is in the table, live, as the feed says. */
  ghost predicate AllLanded(raws: seq<RawStaff>, org: OrgTable, staff: StaffTable) {
    forall i :: 0 <= i < |raws| && raws[i].emp.Some? ==>
      raws[i].emp.value in staff && staff[raws[i].emp.value] == Landed(raws[i], org, staff[raws[i].emp.value].id)
  }

  lemma StaffRunIsIdle(raws: seq<RawStaff>, org: OrgTable, once: StaffTable, twice: StaffTable)
    requires AllLanded(raws, org, once) && StaffAppliedTo(raws, org, once, twice)
    ensures twice == once
  {
    forall e | e in Emps(raws) ensures e in once && twice[e] == once[e] {
      var i := EmpIn(raws, e);
    }
    assert twice.Keys == once.Keys;
    forall e | e in once ensures twice[e] == once[e] {
    }
  }

  lemma SecondStaffRunIsIdle(
    raws: seq<RawStaff>, org: OrgTable, once: StaffTable, twice: StaffTable, pruned: StaffTable, gone: set<EmployeeNo>)
    requires AllLanded(raws, org, once) && StaffAppliedTo(raws, org, once, twice) && PrunedTo(raws, twice, pruned, gone)
    requires forall e :: e in once && e !in Emps(raws) ==> once[e].deleted
    ensures pruned == once && gone == {}
  {
    StaffRunIsIdle(raws, org, once, twice);
  }

  /** The feed passes again after it has landed. */
  lemma PassesAgain(lower: string -> string, feed: Feed, specs: map<Code, OrgSpec>, before: OrgTable, after: OrgTable)
    requires Passes(lower, feed, specs, before) && AppliedTo(specs, specs.Keys, before, after)
    ensures Passes(lower, feed, specs, after)
  {
    forall i | 0 <= i < |feed.staff| ensures UnitsFit(feed.staff[i], specs, after) {
      assert UnitsFit(feed.staff[i], specs, before);
    }
  }

  /** Ingesting a feed a second time passes, and changes neither table: nothing is created,
      restored or pruned. */
  lemma SecondIngestIsIdle(
    lower: string -> string, feed: Feed, specs: map<Code, OrgSpec>, prune: bool,
    before: Tables, once: Tables, twice: Tables, gone: set<EmployeeNo>, gone': set<EmployeeNo>)
    requires Passes(lower, feed, specs, before.org)
    requires Lands(feed, specs, prune, before, once, gone) && Lands(feed, specs, prune, once, twice, gone')
    ensures Passes(lower, feed, specs, once.org)
    ensures twice == once && gone' == {}
    ensures forall c :: c in specs ==> LandingOf(once.org, c) == Updated
    ensures forall e :: e in Emps(feed.staff) ==> LandingOfStaff(once.staff, e) == Updated
  {
    PassesAgain(lower, feed, specs, before.org, once.org);
    SecondRunIsIdle(specs, before.org, once.org, twice.org);
    var mid :| StaffAppliedTo(feed.staff, once.org, before.staff, mid)
               && if prune then PrunedTo(feed.staff, mid, once.staff, gone) else once.staff == mid && gone == {};
    var mid' :| StaffAppliedTo(feed.staff, twice.org, once.staff, mid')
                && if prune then PrunedTo(feed.staff, mid', twice.staff, gone') else twice.staff == mid' && gone' == {};
    LandedStays(feed, once.org, prune, before.staff, mid, once.staff, gone);
    if prune {
      SecondStaffRunIsIdle(feed.staff, once.org, once.staff, mid', twice.staff, gone');
    } else {
      StaffRunIsIdle(feed.staff, once.org, once.staff, mid');
    }
  }

  lemma LandedStays(
    feed: Feed, org: OrgTable, prune: bool, before: StaffTable, mid: StaffTable, once: StaffTable,
    gone: set<EmployeeNo>)
    requires StaffAppliedTo(feed.staff, org, before, mid)
    requires if prune then PrunedTo(feed.staff, mid, once, gone) else once == mid
    ensures AllLanded(feed.staff, org, once)
    ensures prune ==> forall e :: e in once && e !in Emps(feed.staff) ==> once[e].deleted
    ensures forall e :: e in Emps(feed.staff) ==> LandingOfStaff(once, e) == Updated
  {
    forall i | 0 <= i < |feed.staff| && feed.staff[i].emp.Some?
      ensures feed.staff[i].emp.value in once && once[feed.staff[i].emp.value] == mid[feed.staff[i].emp.value]
    {
      assert feed.staff[i].emp.value in Emps(feed.staff);
    }
    forall e | e in Emps(feed.staff) ensures LandingOfStaff(once, e) == Updated {
      var i := EmpIn(feed.staff, e);
    }
  }
}
