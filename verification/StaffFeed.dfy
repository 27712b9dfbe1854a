/** The staff batch of a directory feed: its rows, and what there is to complain about. */
module StaffFeed {
  import opened Collections
  import opened OrgFeed
  import opened DirectoryIngest

  datatype Details = Details(
    given: Option<string>, middle: Option<string>, surname: Option<string>, fullName: Option<string>,
    email: Option<string>, positionTitle: Option<string>, plantillaItemNo: Option<string>,
    employmentStatus: Option<string>)

  datatype RawStaff = RawStaff(
    emp: Option<EmployeeNo>, details: Details, division: Option<Code>, section: Option<Code>)

  // ---- good rows -----------------------------------------------------------------------

  /** The kind of a unit once the feed's org units are in. */
  function KindOf(specs: map<Code, OrgSpec>, org: OrgTable, unit: Code): Option<string> {
    if unit in specs then specs[unit].kind else if unit in org then org[unit].kind else None
  }

  /** The unit named, if any, has the wanted kind. */
  predicate HasKind(specs: map<Code, OrgSpec>, org: OrgTable, unit: Option<Code>, kind: string) {
    unit.Some? ==> KindOf(specs, org, unit.value) == Some(kind)
  }

  predicate UnitsFit(raw: RawStaff, specs: map<Code, OrgSpec>, org: OrgTable) {
    HasKind(specs, org, raw.division, "division") && HasKind(specs, org, raw.section, "section")
  }

  predicate GoodStaffRow(raw: RawStaff) {
    raw.emp.Some? && HasNames(raw)
  }

  predicate HasNames(raw: RawStaff) {
    raw.details.given.Some? && raw.details.surname.Some?
  }

  predicate SameEmail(lower: string -> string, a: RawStaff, b: RawStaff) {
    && a.details.email.Some? && b.details.email.Some?
    && lower(a.details.email.value) == lower(b.details.email.value)
  }

  ghost predicate GoodStaffRows(lower: string -> string, raws: seq<RawStaff>) {
    && (forall i :: 0 <= i < |raws| ==> GoodStaffRow(raws[i]))
    && (forall i, j :: 0 <= i < j < |raws| ==> raws[i].emp != raws[j].emp && !SameEmail(lower, raws[i], raws[j]))
  }

  ghost predicate GoodStaff(lower: string -> string, raws: seq<RawStaff>, specs: map<Code, OrgSpec>, org: OrgTable) {
    GoodStaffRows(lower, raws) && forall i :: 0 <= i < |raws| ==> UnitsFit(raws[i], specs, org)
  }

  // ---- complaints ----------------------------------------------------------------------

  predicate HasNumber(rows: seq<RawStaff>, n: EmployeeNo) {
    exists i :: 0 <= i < |rows| && rows[i].emp == Some(n)
  }

  predicate HasEmailOf(lower: string -> string, rows: seq<RawStaff>, raw: RawStaff) {
    exists i :: 0 <= i < |rows| && SameEmail(lower, rows[i], raw)
  }

  /** The first row of each employee number, in order. */
  function FirstRows(raws: seq<RawStaff>): seq<RawStaff> {
    if raws == [] then []
    else
      var before, last := FirstRows(raws[..|raws| - 1]), raws[|raws| - 1];
      if last.emp.None? || HasNumber(before, last.emp.value) then before else before + [last]
  }

  /** The complaints about one row, after the first rows `before`. */
  function StaffRowErrors(lower: string -> string, raw: RawStaff, i: nat, before: seq<RawStaff>): seq<FeedError> {
    if raw.emp.None? then [MissingEmployeeNo(i)]
    else if HasNumber(before, raw.emp.value) then [DuplicateEmployeeNo(raw.emp.value)]
    else
      (if HasNames(raw) then [] else [NamesRequired(raw.emp.value)])
      + (if HasEmailOf(lower, before, raw) then [DuplicateEmail(raw.emp.value)] else [])
  }

  function StaffErrors(lower: string -> string, raws: seq<RawStaff>): seq<FeedError> {
    if raws == [] then []
    else
      var n := |raws| - 1;
      StaffErrors(lower, raws[..n]) + StaffRowErrors(lower, raws[n], n, FirstRows(raws[..n]))
  }

  predicate HasEmail(lower: string -> string, raw: RawStaff, m: string) {
    raw.details.email.Some? && lower(raw.details.email.value) == m
  }

  /** The sets the loop keeps are the numbers and the lower-cased emails of the rows. */
  ghost predicate HasSeen(lower: string -> string, rows: seq<RawStaff>, emps: set<EmployeeNo>, emails: set<string>) {
    && (forall n :: n in emps <==> HasNumber(rows, n))
    && (forall m :: m in emails <==> exists i :: 0 <= i < |rows| && HasEmail(lower, rows[i], m))
  }

  lemma HasNumberStep(rows: seq<RawStaff>, raw: RawStaff, n: EmployeeNo)
    ensures HasNumber(rows + [raw], n) <==> HasNumber(rows, n) || raw.emp == Some(n)
  {
    var more := rows + [raw];
    assert more[|rows|] == raw && forall i :: 0 <= i < |rows| ==> more[i] == rows[i];
    if i :| 0 <= i < |rows| && rows[i].emp == Some(n) {
      assert more[i].emp == Some(n);
    }
  }

  lemma EmailStep(lower: string -> string, rows: seq<RawStaff>, raw: RawStaff, m: string)
    ensures (exists i :: 0 <= i < |rows + [raw]| && HasEmail(lower, (rows + [raw])[i], m))
       <==> (exists i :: 0 <= i < |rows| && HasEmail(lower, rows[i], m)) || HasEmail(lower, raw, m)
  {
    var more := rows + [raw];
    assert more[|rows|] == raw && forall i :: 0 <= i < |rows| ==> more[i] == rows[i];
    if i :| 0 <= i < |rows| && HasEmail(lower, rows[i], m) {
      assert HasEmail(lower, more[i], m);
    }
    if HasEmail(lower, raw, m) {
      assert HasEmail(lower, more[|rows|], m);
    }
  }

  lemma SeenStep(
    lower: string -> string, rows: seq<RawStaff>, raw: RawStaff, emps: set<EmployeeNo>, emails: set<string>,
    emps': set<EmployeeNo>, emails': set<string>)
    requires HasSeen(lower, rows, emps, emails) && raw.emp.Some?
    requires emps' == emps + {raw.emp.value}
    requires emails' == if raw.details.email.Some? then emails + {lower(raw.details.email.value)} else emails
    ensures HasSeen(lower, rows + [raw], emps', emails')
  {
    forall n ensures n in emps' <==> HasNumber(rows + [raw], n) {
      HasNumberStep(rows, raw, n);
    }
    forall m ensures m in emails' <==> exists i :: 0 <= i < |rows + [raw]| && HasEmail(lower, (rows + [raw])[i], m) {
      EmailStep(lower, rows, raw, m);
    }
  }

  lemma SeenEmail(
    lower: string -> string, rows: seq<RawStaff>, raw: RawStaff, emps: set<EmployeeNo>, emails: set<string>)
    requires HasSeen(lower, rows, emps, emails)
    ensures HasEmailOf(lower, rows, raw) <==>
              raw.details.email.Some? && lower(raw.details.email.value) in emails
  {
    if raw.details.email.Some? {
      var m := lower(raw.details.email.value);
      assert forall i :: 0 <= i < |rows| ==> (HasEmail(lower, rows[i], m) <==> SameEmail(lower, rows[i], raw));
    }
  }

  method CheckStaffRow(
    lower: string -> string, raw: RawStaff, i: nat, emps: set<EmployeeNo>, emails: set<string>,
    ghost before: seq<RawStaff>)
    returns (own: bool, errors: seq<FeedError>)
    requires HasSeen(lower, before, emps, emails)
    ensures own <==> raw.emp.Some? && !HasNumber(before, raw.emp.value)
    ensures errors == StaffRowErrors(lower, raw, i, before)
  {
    if raw.emp.None? {
      return false, [MissingEmployeeNo(i)];
    }
    var emp := raw.emp.value;
    if emp in emps {
      return false, [DuplicateEmployeeNo(emp)];
    }
    errors := [];
    if raw.details.given.None? || raw.details.surname.None? {
      errors := errors + [NamesRequired(emp)];
    }
    SeenEmail(lower, before, raw, emps, emails);
    if raw.details.email.Some? && lower(raw.details.email.value) in emails {
      errors := errors + [DuplicateEmail(emp)];
    }
    return true, errors;
  }

  /** `taken` are the rows that have an employee number of their own. */
  method CheckStaff(lower: string -> string, raws: seq<RawStaff>) returns (taken: seq<RawStaff>, errors: seq<FeedError>)
    ensures taken == FirstRows(raws) && errors == StaffErrors(lower, raws)
  {
    taken, errors := [], [];
    var emps: set<EmployeeNo>, emails: set<string> := {}, {};
    for i := 0 to |raws|
      invariant taken == FirstRows(raws[..i]) && errors == StaffErrors(lower, raws[..i])
      invariant HasSeen(lower, taken, emps, emails)
    {
      var raw := raws[i];
      assert raws[..i + 1][..i] == raws[..i] && raws[..i + 1][i] == raw;
      var own, complaints := CheckStaffRow(lower, raw, i, emps, emails, taken);
      if own {
        var emps' := emps + {raw.emp.value};
        var emails' := if raw.details.email.Some? then emails + {lower(raw.details.email.value)} else emails;
        SeenStep(lower, taken, raw, emps, emails, emps', emails');
        taken, emps, emails := taken + [raw], emps', emails';
      }
      errors := errors + complaints;
    }
    assert raws[..|raws|] == raws;
  }

  // ---- what the complaints say -----------------------------------------------------------

  ghost predicate HasNumberTwice(raws: seq<RawStaff>, n: EmployeeNo) {
    exists i, j :: 0 <= i < j < |raws| && raws[i].emp == Some(n) && raws[j].emp == Some(n)
  }

  /** A row of that number without both names. */
  ghost predicate LacksNames(rows: seq<RawStaff>, n: EmployeeNo) {
    exists i :: 0 <= i < |rows| && rows[i].emp == Some(n) && !HasNames(rows[i])
  }

  /** A row of that number with the email of an earlier row. */
  ghost predicate RepeatsEmail(lower: string -> string, rows: seq<RawStaff>, n: EmployeeNo) {
    exists i, j :: 0 <= i < j < |rows| && rows[j].emp == Some(n) && SameEmail(lower, rows[i], rows[j])
  }

  /** What a feed of staff rows deserves to be told: a row without a number, a number that
      comes twice, and a number whose first row lacks names or repeats the email of an earlier
      first row. */
  ghost predicate StaffComplaint(lower: string -> string, raws: seq<RawStaff>, e: FeedError) {
    match e
    case MissingEmployeeNo(i) => i < |raws| && raws[i].emp.None?
    case DuplicateEmployeeNo(n) => HasNumberTwice(raws, n)
    case NamesRequired(n) => LacksNames(FirstRows(raws), n)
    case DuplicateEmail(n) => RepeatsEmail(lower, FirstRows(raws), n)
    case _ => false
  }

  lemma FirstRowsStep(raws: seq<RawStaff>, raw: RawStaff)
    ensures FirstRows(raws + [raw])
         == if raw.emp.None? || HasNumber(FirstRows(raws), raw.emp.value) then FirstRows(raws)
            else FirstRows(raws) + [raw]
  {
    assert (raws + [raw])[..|raws|] == raws;
  }

  lemma {:induction false} FirstRowsHold(raws: seq<RawStaff>, n: EmployeeNo)
    ensures HasNumber(FirstRows(raws), n) <==> HasNumber(raws, n)
  {
    if raws != [] {
      var before, last := raws[..|raws| - 1], raws[|raws| - 1];
      FirstRowsHold(before, n);
      LastOf(raws);
      HasNumberStep(before, last, n);
      HasNumberStep(FirstRows(before), last, n);
    }
  }

  lemma HasNumberTwiceStep(raws: seq<RawStaff>, raw: RawStaff, n: EmployeeNo)
    ensures HasNumberTwice(raws + [raw], n) <==> HasNumberTwice(raws, n) || (raw.emp == Some(n) && HasNumber(raws, n))
  {
    var more := raws + [raw];
    assert more[|raws|] == raw && forall i :: 0 <= i < |raws| ==> more[i] == raws[i];
    if i, j :| 0 <= i < j < |raws| && raws[i].emp == Some(n) && raws[j].emp == Some(n) {
      assert more[i].emp == Some(n) && more[j].emp == Some(n);
    }
    if i :| 0 <= i < |raws| && raws[i].emp == Some(n) {
      assert raw.emp == Some(n) ==> more[i].emp == Some(n) && more[|raws|].emp == Some(n);
    }
  }

  lemma LacksNamesStep(rows: seq<RawStaff>, raw: RawStaff, n: EmployeeNo)
    ensures LacksNames(rows + [raw], n) <==> LacksNames(rows, n) || (raw.emp == Some(n) && !HasNames(raw))
  {
    var more := rows + [raw];
    assert more[|rows|] == raw && forall i :: 0 <= i < |rows| ==> more[i] == rows[i];
    if i :| 0 <= i < |rows| && rows[i].emp == Some(n) && !HasNames(rows[i]) {
      assert more[i].emp == Some(n);
    }
  }

  lemma RepeatsEmailStep(lower: string -> string, rows: seq<RawStaff>, raw: RawStaff, n: EmployeeNo)
    ensures RepeatsEmail(lower, rows + [raw], n) <==>
              RepeatsEmail(lower, rows, n) || (raw.emp == Some(n) && HasEmailOf(lower, rows, raw))
  {
    var more := rows + [raw];
    assert more[|rows|] == raw && forall i :: 0 <= i < |rows| ==> more[i] == rows[i];
    if i, j :| 0 <= i < j < |rows| && rows[j].emp == Some(n) && SameEmail(lower, rows[i], rows[j]) {
      assert more[j].emp == Some(n) && SameEmail(lower, more[i], more[j]);
    }
    if i :| 0 <= i < |rows| && SameEmail(lower, rows[i], raw) {
      assert SameEmail(lower, more[i], more[|rows|]);
    }
  }

  ghost predicate StaffRowComplaint(
    lower: string -> string, raw: RawStaff, i: nat, before: seq<RawStaff>, e: FeedError)
  {
    match e
    case MissingEmployeeNo(k) => k == i && raw.emp.None?
    case DuplicateEmployeeNo(n) => raw.emp == Some(n) && HasNumber(before, n)
    case NamesRequired(n) => raw.emp == Some(n) && !HasNumber(before, n) && !HasNames(raw)
    case DuplicateEmail(n) => raw.emp == Some(n) && !HasNumber(before, n) && HasEmailOf(lower, before, raw)
    case _ => false
  }

  lemma StaffRowErrorsHold(lower: string -> string, raw: RawStaff, i: nat, before: seq<RawStaff>, e: FeedError)
    ensures e in StaffRowErrors(lower, raw, i, before) <==> StaffRowComplaint(lower, raw, i, before, e)
  {
    if raw.emp.Some? && !HasNumber(before, raw.emp.value) {
      var n := raw.emp.value;
      var names := if HasNames(raw) then [] else [NamesRequired(n)];
      var email := if HasEmailOf(lower, before, raw) then [DuplicateEmail(n)] else [];
      assert e in StaffRowErrors(lower, raw, i, before) <==> e in names || e in email;
    }
  }

  lemma StaffComplaintStep(lower: string -> string, raws: seq<RawStaff>, raw: RawStaff, e: FeedError)
    ensures StaffComplaint(lower, raws + [raw], e) <==>
              StaffComplaint(lower, raws, e) || StaffRowComplaint(lower, raw, |raws|, FirstRows(raws), e)
  {
    FirstRowsStep(raws, raw);
    match e
    case MissingEmployeeNo(i) =>
      assert (raws + [raw])[|raws|] == raw;
    case DuplicateEmployeeNo(n) =>
      HasNumberTwiceStep(raws, raw, n);
      FirstRowsHold(raws, n);
    case NamesRequired(n) => LacksNamesStep(FirstRows(raws), raw, n);
    case DuplicateEmail(n) => RepeatsEmailStep(lower, FirstRows(raws), raw, n);
    case _ =>
  }

  /** The complaints are exactly those. */
  lemma {:induction false} StaffErrorsHold(lower: string -> string, raws: seq<RawStaff>, e: FeedError)
    ensures e in StaffErrors(lower, raws) <==> StaffComplaint(lower, raws, e)
  {
    if raws != [] {
      var n := |raws| - 1;
      StaffErrorsHold(lower, raws[..n], e);
      LastOf(raws);
      StaffComplaintStep(lower, raws[..n], raws[n], e);
      StaffRowErrorsHold(lower, raws[n], n, FirstRows(raws[..n]), e);
    }
  }

  lemma GoodRowsStep(lower: string -> string, raws: seq<RawStaff>, raw: RawStaff)
    ensures GoodStaffRows(lower, raws + [raw]) <==>
              && GoodStaffRows(lower, raws) && GoodStaffRow(raw)
              && !HasNumber(raws, raw.emp.value) && !HasEmailOf(lower, raws, raw)
  {
    var more := raws + [raw];
    assert more[|raws|] == raw && forall i :: 0 <= i < |raws| ==> more[i] == raws[i];
    if GoodStaffRow(raw) {
      var n := raw.emp.value;
      assert HasNumber(raws, n) <==> !forall i :: 0 <= i < |raws| ==> raws[i].emp != raw.emp;
    }
  }

  /** There is none exactly when every row is good and nothing repeats. */
  lemma {:induction false} NoStaffErrors(lower: string -> string, raws: seq<RawStaff>)
    ensures StaffErrors(lower, raws) == [] <==> GoodStaffRows(lower, raws)
    ensures StaffErrors(lower, raws) == [] ==> FirstRows(raws) == raws
  {
    if raws != [] {
      var n := |raws| - 1;
      NoStaffErrors(lower, raws[..n]);
      LastOf(raws);
      GoodRowsStep(lower, raws[..n], raws[n]);
    }
  }

  lemma {:induction false} FirstRowsAreNumbered(raws: seq<RawStaff>)
    ensures forall i :: 0 <= i < |FirstRows(raws)| ==> FirstRows(raws)[i].emp.Some?
  {
    if raws != [] {
      FirstRowsAreNumbered(raws[..|raws| - 1]);
    }
  }

  // ---- the units staff belong to -----------------------------------------------------------

  function UnitErrors(specs: map<Code, OrgSpec>, org: OrgTable, n: EmployeeNo, unit: Option<Code>, wanted: string)
    : seq<FeedError>
  {
    if HasKind(specs, org, unit, wanted) then []
    else
      var kind := KindOf(specs, org, unit.value);
      if kind.None? then [UnknownUnit(n, wanted)] else [WrongKind(n, wanted, kind.value)]
  }

  /** The unit named as division or as section. */
  function Named(raw: RawStaff, wanted: string): Option<Code> {
    if wanted == "division" then raw.division else if wanted == "section" then raw.section else None
  }

  ghost predicate UnitRowComplaint(raw: RawStaff, specs: map<Code, OrgSpec>, org: OrgTable, e: FeedError) {
    match e
    case UnknownUnit(n, w) => raw.emp == Some(n) && Named(raw, w).Some? && KindOf(specs, org, Named(raw, w).value).None?
    case WrongKind(n, w, k) =>
      raw.emp == Some(n) && Named(raw, w).Some? && KindOf(specs, org, Named(raw, w).value) == Some(k) && k != w
    case _ => false
  }

  /** A row that names a division or a section which is not known, or of another kind. */
  ghost predicate UnitComplaint(rows: seq<RawStaff>, specs: map<Code, OrgSpec>, org: OrgTable, e: FeedError) {
    exists i :: 0 <= i < |rows| && UnitRowComplaint(rows[i], specs, org, e)
  }

  /** The complaints about the units that one row names. */
  function UnitRowErrors(raw: RawStaff, specs: map<Code, OrgSpec>, org: OrgTable, n: EmployeeNo): seq<FeedError> {
    UnitErrors(specs, org, n, raw.division, "division") + UnitErrors(specs, org, n, raw.section, "section")
  }

  lemma UnitErrorsHold(raw: RawStaff, specs: map<Code, OrgSpec>, org: OrgTable, n: EmployeeNo, e: FeedError)
    requires raw.emp == Some(n)
    ensures e in UnitRowErrors(raw, specs, org, n) <==> UnitRowComplaint(raw, specs, org, e)
    ensures UnitRowErrors(raw, specs, org, n) == [] <==> UnitsFit(raw, specs, org)
  {
    var division := UnitErrors(specs, org, n, raw.division, "division");
    var section := UnitErrors(specs, org, n, raw.section, "section");
    assert "division"[0] != "section"[0];
    assert e in division + section <==> e in division || e in section;
  }

  lemma UnitComplaintStep(rows: seq<RawStaff>, raw: RawStaff, specs: map<Code, OrgSpec>, org: OrgTable, e: FeedError)
    ensures UnitComplaint(rows + [raw], specs, org, e) <==>
              UnitComplaint(rows, specs, org, e) || UnitRowComplaint(raw, specs, org, e)
  {
    var more := rows + [raw];
    assert more[|rows|] == raw && forall i :: 0 <= i < |rows| ==> more[i] == rows[i];
    if i :| 0 <= i < |rows| && UnitRowComplaint(rows[i], specs, org, e) {
      assert UnitRowComplaint(more[i], specs, org, e);
    }
  }

  method CheckUnits(rows: seq<RawStaff>, specs: map<Code, OrgSpec>, org: OrgTable) returns (errors: seq<FeedError>)
    requires forall i :: 0 <= i < |rows| ==> rows[i].emp.Some?
    ensures forall e :: e in errors <==> UnitComplaint(rows, specs, org, e)
    ensures errors == [] <==> forall i :: 0 <= i < |rows| ==> UnitsFit(rows[i], specs, org)
  {
    errors := [];
    for i := 0 to |rows|
      invariant forall e :: e in errors <==> UnitComplaint(rows[..i], specs, org, e)
      invariant errors == [] <==> forall j :: 0 <= j < i ==> UnitsFit(rows[j], specs, org)
    {
      var n := rows[i].emp.value;
      var division := UnitErrors(specs, org, n, rows[i].division, "division");
      var section := UnitErrors(specs, org, n, rows[i].section, "section");
      assert rows[..i + 1] == rows[..i] + [rows[i]];
      forall e ensures e in errors + (division + section) <==> UnitComplaint(rows[..i + 1], specs, org, e) {
        UnitErrorsHold(rows[i], specs, org, n, e);
        UnitComplaintStep(rows[..i], rows[i], specs, org, e);
      }
      UnitErrorsHold(rows[i], specs, org, n, MissingCode(0));
      errors := errors + (division + section);
    }
    assert rows[..|rows|] == rows;
  }
}
