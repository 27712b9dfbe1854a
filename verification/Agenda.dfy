/** The calendar agenda: registered sources fanned out, merged, and grouped by day. */
module Agenda {
  import opened Collections
  import opened Ordering
  import opened Workdays

  /** `details` stands for the fields the merge does not read. */
  datatype CalendarEvent = CalendarEvent(source: string, ref: string, dateStart: Day, details: string)

  datatype SourceResult = SourceResult(
    events: seq<CalendarEvent>, total: int, boundedNote: Option<string>, capped: bool)

  datatype Window = Window(start: Day, end: Day, clamped: bool)

  datatype CalendarSource = CalendarSource(
    key: string, title: string, fetch: Window -> SourceResult, featureFlag: Option<string>, scopeRule: string)

  datatype AgendaDay = AgendaDay(
    day: Day, isToday: bool, isNonworking: bool, nonworkingLabel: Option<string>, events: seq<CalendarEvent>)

  datatype SourceReport = SourceReport(key: string, title: string, count: nat, total: int, boundedNote: Option<string>)

  // ---- the window ------------------------------------------------------------------------

  const DEFAULT_WINDOW_DAYS: int := 30
  const MAX_WINDOW_DAYS: int := 92

  /** `None` when the window ends before it starts: it is refused, never swapped. The end
      is pulled in, and only then marked clamped, when it lies beyond the ceiling. */
  function ResolveWindow(start: Option<Day>, end: Option<Day>, today: Day): (w: Option<Window>)
    ensures w.None? <==> end.Some? && end.value < (if start.Some? then start.value else today)
    ensures w.Some? ==> 0 <= w.value.end - w.value.start <= MAX_WINDOW_DAYS
    ensures w.Some? ==> w.value.start == if start.Some? then start.value else today
    ensures w.Some? && end.Some? ==> w.value.end <= end.value && (w.value.clamped <==> w.value.end != end.value)
    ensures w.Some? && w.value.clamped ==> w.value.end == w.value.start + MAX_WINDOW_DAYS
    ensures w.Some? && end.None? ==> w.value.end == w.value.start + DEFAULT_WINDOW_DAYS && !w.value.clamped
  {
    var first := if start.Some? then start.value else today;
    var last := if end.Some? then end.value else first + DEFAULT_WINDOW_DAYS;
    if last < first then None
    else if last > first + MAX_WINDOW_DAYS then Some(Window(first, first + MAX_WINDOW_DAYS, true))
    else Some(Window(first, last, false))
  }

  // ---- the registry ------------------------------------------------------------------------

  type Registry = map<string, CalendarSource>

  predicate IsBlank(s: string) {
    forall i :: 0 <= i < |s| ==> s[i] in {' ', '\t', '\n', '\r'}
  }

  predicate Acceptable(s: CalendarSource) {
    s.key != "" && !IsBlank(s.scopeRule)
  }

  function Registered(r: Registry, s: CalendarSource): Registry {
    if Acceptable(s) then r[s.key := s] else r
  }

  function RegisteredAll(r: Registry, sources: seq<CalendarSource>): Registry
    decreases |sources|
  {
    if sources == [] then r else RegisteredAll(Registered(r, sources[0]), sources[1..])
  }

  ghost predicate DistinctKeys(sources: seq<CalendarSource>) {
    forall i, j :: 0 <= i < j < |sources| ==> sources[i].key != sources[j].key
  }

  lemma {:induction false} RegisteredHolds(r: Registry, sources: seq<CalendarSource>, key: string)
    requires DistinctKeys(sources)
    ensures key in RegisteredAll(r, sources) <==>
              key in r || exists i :: 0 <= i < |sources| && Acceptable(sources[i]) && sources[i].key == key
    ensures forall i :: 0 <= i < |sources| && Acceptable(sources[i]) && sources[i].key == key ==>
              key in RegisteredAll(r, sources) && RegisteredAll(r, sources)[key] == sources[i]
    ensures key in r && (forall i :: 0 <= i < |sources| && Acceptable(sources[i]) ==> sources[i].key != key) ==>
              RegisteredAll(r, sources)[key] == r[key]
    decreases |sources|
  {
    if sources != [] {
      var rest := sources[1..];
      assert forall i :: 0 < i < |sources| ==> sources[i] == rest[i - 1];
      RegisteredHolds(Registered(r, sources[0]), rest, key);
    }
  }

  lemma SameKeyFound(a: seq<CalendarSource>, b: seq<CalendarSource>, key: string)
    requires DistinctKeys(a) && DistinctKeys(b) && (forall s :: s in a ==> s in b)
    requires key in RegisteredAll(map[], a)
    ensures key in RegisteredAll(map[], b) && RegisteredAll(map[], b)[key] == RegisteredAll(map[], a)[key]
  {
    RegisteredHolds(map[], a, key);
    RegisteredHolds(map[], b, key);
    var i :| 0 <= i < |a| && Acceptable(a[i]) && a[i].key == key;
    assert a[i] in b;
    var j :| 0 <= j < |b| && b[j] == a[i];
  }

  /** Registering the same sources in another order makes the same registry. */
  lemma RegistrationOrderIrrelevant(a: seq<CalendarSource>, b: seq<CalendarSource>)
    requires DistinctKeys(a) && DistinctKeys(b) && forall s :: s in a <==> s in b
    ensures RegisteredAll(map[], a) == RegisteredAll(map[], b)
  {
    var ra, rb := RegisteredAll(map[], a), RegisteredAll(map[], b);
    forall key | key in ra ensures key in rb && rb[key] == ra[key] {
      SameKeyFound(a, b, key);
    }
    forall key | key in rb ensures key in ra {
      SameKeyFound(b, a, key);
    }
  }

  ghost predicate WellKeyed(r: Registry) {
    forall k :: k in r ==> r[k].key == k
  }

  class SourceRegistry {
    var sources: Registry

    constructor ()
      ensures sources == map[] && WellKeyed(sources)
    {
      sources := map[];
    }

    method RegisterSource(s: CalendarSource) returns (ok: bool)
      requires WellKeyed(sources)
      modifies this
      ensures sources == Registered(old(sources), s) && ok == Acceptable(s) && WellKeyed(sources)
    {
      ok := Acceptable(s);
      if ok {
        sources := sources[s.key := s];
      }
    }
  }

  function KeysOf(sources: seq<CalendarSource>): (keys: seq<string>)
    ensures |keys| == |sources| && forall i :: 0 <= i < |sources| ==> keys[i] == sources[i].key
  {
    if sources == [] then [] else [sources[0].key] + KeysOf(sources[1..])
  }

  /** Exactly the registered sources, in key order. */
  ghost predicate KeySorted(r: Registry, sources: seq<CalendarSource>) {
    && Ascending(KeysOf(sources)) && (forall k :: k in KeysOf(sources) <==> k in r)
    && forall i :: 0 <= i < |sources| ==> sources[i].key in r && r[sources[i].key] == sources[i]
  }

  method RegisteredSources(r: Registry) returns (sources: seq<CalendarSource>)
    requires WellKeyed(r)
    ensures KeySorted(r, sources)
  {
    var sorted := SortStrings(r.Keys);
    sources := [];
    for i := 0 to |sorted|
      invariant |sources| == i && forall j :: 0 <= j < i ==>
                  sources[j].key == sorted[j] && sorted[j] in r && sources[j] == r[sorted[j]]
    {
      assert sorted[i] in sorted;
      sources := sources + [r[sorted[i]]];
    }
    assert KeysOf(sources) == sorted;
  }

  // ---- merging -----------------------------------------------------------------------------------

  predicate Usable(s: CalendarSource, flagOn: string -> bool) {
    s.featureFlag.None? || flagOn(s.featureFlag.value)
  }

  function Merged(sources: seq<CalendarSource>, w: Window, flagOn: string -> bool): seq<CalendarEvent> {
    if sources == [] then []
    else (if Usable(sources[0], flagOn) then sources[0].fetch(w).events else []) + Merged(sources[1..], w, flagOn)
  }

  function Totals(reports: seq<SourceReport>): int {
    if reports == [] then 0 else reports[0].total + Totals(reports[1..])
  }

  function ReportOf(s: CalendarSource, w: Window): SourceReport {
    SourceReport(s.key, s.title, |s.fetch(w).events|, s.fetch(w).total, s.fetch(w).boundedNote)
  }

  /** One report per usable source, in order: a source that is switched off leaves none. */
  function Reports(sources: seq<CalendarSource>, w: Window, flagOn: string -> bool): seq<SourceReport> {
    if sources == [] then []
    else (if Usable(sources[0], flagOn) then [ReportOf(sources[0], w)] else []) + Reports(sources[1..], w, flagOn)
  }

  lemma {:induction false} ReportsAppend(
    sources: seq<CalendarSource>, last: CalendarSource, w: Window, flagOn: string -> bool)
    ensures Reports(sources + [last], w, flagOn)
         == Reports(sources, w, flagOn) + (if Usable(last, flagOn) then [ReportOf(last, w)] else [])
    decreases |sources|
  {
    if sources == [] {
      assert sources + [last] == [last] && [last][1..] == [];
      assert Reports([last][1..], w, flagOn) == [];
    } else {
      var tail := sources[1..];
      assert (sources + [last])[1..] == tail + [last] && (sources + [last])[0] == sources[0];
      ReportsAppend(tail, last, w, flagOn);
      var a, b := if Usable(sources[0], flagOn) then [ReportOf(sources[0], w)] else [], Reports(tail, w, flagOn);
      var c := if Usable(last, flagOn) then [ReportOf(last, w)] else [];
      assert a + (b + c) == (a + b) + c;
    }
  }

  lemma {:induction false} TotalsAppend(reports: seq<SourceReport>, last: SourceReport)
    ensures Totals(reports + [last]) == Totals(reports) + last.total
  {
    if reports == [] {
      assert Totals([last][1..]) == 0;
    } else {
      assert (reports + [last])[1..] == reports[1..] + [last];
      TotalsAppend(reports[1..], last);
    }
  }

  function Counts(reports: seq<SourceReport>): nat {
    if reports == [] then 0 else reports[0].count + Counts(reports[1..])
  }

  /** The reports account for every event that was merged. */
  lemma {:induction false} ReportsCountEvents(sources: seq<CalendarSource>, w: Window, flagOn: string -> bool)
    ensures Counts(Reports(sources, w, flagOn)) == |Merged(sources, w, flagOn)|
    decreases |sources|
  {
    if sources != [] {
      ReportsCountEvents(sources[1..], w, flagOn);
      if Usable(sources[0], flagOn) {
        assert Reports(sources, w, flagOn)[1..] == Reports(sources[1..], w, flagOn);
      } else {
        assert Reports(sources, w, flagOn) == Reports(sources[1..], w, flagOn);
        assert Merged(sources, w, flagOn) == Merged(sources[1..], w, flagOn);
      }
    }
  }

  /** The merge key: date, then source, then ref. */
  predicate EventLe(a: CalendarEvent, b: CalendarEvent) {
    || a.dateStart < b.dateStart
    || (a.dateStart == b.dateStart && a.source != b.source && StrLe(a.source, b.source))
    || (a.dateStart == b.dateStart && a.source == b.source && StrLe(a.ref, b.ref))
  }

  lemma EventLeIsAnOrder()
    ensures TotalPreorder(EventLe)
  {
    forall a, b ensures EventLe(a, b) || EventLe(b, a) {
      StrLeTotal(a.source, b.source);
      StrLeTotal(a.ref, b.ref);
    }
    forall a, b, c | EventLe(a, b) && EventLe(b, c) ensures EventLe(a, c) {
      EventLeTransitive(a, b, c);
    }
  }

  lemma EventLeTransitive(a: CalendarEvent, b: CalendarEvent, c: CalendarEvent)
    requires EventLe(a, b) && EventLe(b, c)
    ensures EventLe(a, c)
  {
    if a.dateStart == b.dateStart == c.dateStart {
      if a.source == b.source == c.source {
        StrLeTransitive(a.ref, b.ref, c.ref);
      } else if a.source != b.source && b.source != c.source {
        StrLeTransitive(a.source, b.source, c.source);
        if a.source == c.source {
          StrLeAntisymmetric(a.source, b.source);
        }
      }
    }
  }

  // ---- grouping -----------------------------------------------------------------------------------

  /** The events that start on `d`, in their given order. */
  function OnDay(events: seq<CalendarEvent>, d: Day): seq<CalendarEvent> {
    if events == [] then []
    else (if events[0].dateStart == d then [events[0]] else []) + OnDay(events[1..], d)
  }

  lemma {:induction false} OnDayAppend(events: seq<CalendarEvent>, e: CalendarEvent, d: Day)
    ensures OnDay(events + [e], d) == OnDay(events, d) + (if e.dateStart == d then [e] else [])
  {
    if events == [] {
      assert events + [e] == [e] && [e][1..] == [];
      assert OnDay([e][1..], d) == [];
    } else {
      var tail, last := events[1..], if e.dateStart == d then [e] else [];
      var first := if events[0].dateStart == d then [events[0]] else [];
      assert (events + [e])[1..] == tail + [e] && (events + [e])[0] == events[0];
      OnDayAppend(tail, e, d);
      assert first + (OnDay(tail, d) + last) == (first + OnDay(tail, d)) + last;
    }
  }

  lemma {:induction false} OnDayHolds(events: seq<CalendarEvent>, d: Day, e: CalendarEvent)
    ensures e in OnDay(events, d) <==> e in events && e.dateStart == d
  {
    if events != [] {
      OnDayHolds(events[1..], d, e);
      assert e in events <==> e == events[0] || e in events[1..];
    }
  }

  /** `days` groups `events`: one day per date on which something starts, in date order,
      each with exactly the events that start on it, in their given order. */
  ghost predicate Groups(events: seq<CalendarEvent>, days: seq<AgendaDay>) {
    && (forall i, j :: 0 <= i < j < |days| ==> days[i].day < days[j].day)
    && (forall i :: 0 <= i < |days| ==> days[i].events == OnDay(events, days[i].day) && days[i].events != [])
    && (forall e :: e in events ==> exists i :: 0 <= i < |days| && days[i].day == e.dateStart)
  }

  ghost predicate Labelled(days: seq<AgendaDay>, labels: map<Day, string>, today: Day) {
    forall i :: 0 <= i < |days| ==>
      && (days[i].isToday <==> days[i].day == today)
      && (days[i].isNonworking <==> Weekday(days[i].day) in WEEKEND || days[i].day in labels)
      && days[i].nonworkingLabel == if days[i].day in labels then Some(labels[days[i].day]) else None
  }

  ghost predicate GroupedSoFar(events: seq<CalendarEvent>, grouped: map<Day, seq<CalendarEvent>>) {
    && (forall d :: d in grouped ==> grouped[d] == OnDay(events, d) && grouped[d] != [])
    && (forall d :: d !in grouped ==> OnDay(events, d) == [])
  }

  lemma GroupStep(events: seq<CalendarEvent>, e: CalendarEvent, grouped: map<Day, seq<CalendarEvent>>)
    requires GroupedSoFar(events, grouped)
    ensures var soFar := if e.dateStart in grouped then grouped[e.dateStart] else [];
            GroupedSoFar(events + [e], grouped[e.dateStart := soFar + [e]])
  {
    var soFar := if e.dateStart in grouped then grouped[e.dateStart] else [];
    var grouped' := grouped[e.dateStart := soFar + [e]];
    forall d ensures d in grouped' ==> grouped'[d] == OnDay(events + [e], d) && grouped'[d] != []
             ensures d !in grouped' ==> OnDay(events + [e], d) == []
    {
      OnDayAppend(events, e, d);
    }
  }

  method GroupByDay(events: seq<CalendarEvent>) returns (grouped: map<Day, seq<CalendarEvent>>)
    ensures GroupedSoFar(events, grouped)
  {
    grouped := map[];
    for i := 0 to |events|
      invariant GroupedSoFar(events[..i], grouped)
    {
      var e := events[i];
      assert events[..i + 1] == events[..i] + [e];
      GroupStep(events[..i], e, grouped);
      var soFar := if e.dateStart in grouped then grouped[e.dateStart] else [];
      grouped := grouped[e.dateStart := soFar + [e]];
    }
    assert events[..|events|] == events;
  }

  lemma LeastDay(s: set<Day>) returns (x: Day)
    requires s != {}
    ensures x in s && forall y :: y in s ==> x <= y
    decreases |s|
  {
    x := Pick(s);
    if s - {x} != {} {
      var rest := LeastDay(s - {x});
      assert forall y :: y in s ==> y == x || y in s - {x};
      x := if rest < x then rest else x;
    } else {
      assert forall y :: y in s ==> y == x || y in s - {x};
    }
  }

  method SortDays(s: set<Day>) returns (r: seq<Day>)
    ensures (forall i, j :: 0 <= i < j < |r| ==> r[i] < r[j]) && forall d :: d in r <==> d in s
  {
    r := [];
    var rest := s;
    while rest != {}
      invariant rest <= s && (forall d :: d in r <==> d in s && d !in rest)
      invariant forall i, j :: 0 <= i < j < |r| ==> r[i] < r[j]
      invariant forall i, d :: 0 <= i < |r| && d in rest ==> r[i] < d
      decreases |rest|
    {
      ghost var least := LeastDay(rest);
      var d :| d in rest && forall y :: y in rest ==> d <= y;
      r := r + [d];
      rest := rest - {d};
    }
  }

  method ListDays(events: seq<CalendarEvent>, labels: map<Day, string>, today: Day) returns (days: seq<AgendaDay>)
    ensures Groups(events, days) && Labelled(days, labels, today)
  {
    var grouped := GroupByDay(events);
    var dates := SortDays(grouped.Keys);
    days := [];
    for i := 0 to |dates|
      invariant |days| == i && Labelled(days, labels, today)
      invariant forall j :: 0 <= j < i ==> days[j].day == dates[j] && days[j].events == grouped[dates[j]]
    {
      var d := dates[i];
      assert d in dates;
      days := days + [AgendaDay(d, d == today, Weekday(d) in WEEKEND || d in labels,
                                if d in labels then Some(labels[d]) else None, grouped[d])];
    }
    forall i | 0 <= i < |days| ensures days[i].events == OnDay(events, days[i].day) && days[i].events != [] {
      assert dates[i] in dates;
    }
    forall e | e in events ensures exists i :: 0 <= i < |days| && days[i].day == e.dateStart {
      OnDayHolds(events, e.dateStart, e);
      assert e.dateStart in dates;
      var i :| 0 <= i < |dates| && dates[i] == e.dateStart;
      assert days[i].day == e.dateStart;
    }
  }

  lemma {:induction false} MergedAppend(
    sources: seq<CalendarSource>, last: CalendarSource, w: Window, flagOn: string -> bool)
    ensures Merged(sources + [last], w, flagOn)
         == Merged(sources, w, flagOn) + (if Usable(last, flagOn) then last.fetch(w).events else [])
    decreases |sources|
  {
    if sources == [] {
      assert sources + [last] == [last] && [last][1..] == [];
      assert Merged([last][1..], w, flagOn) == [];
    } else {
      var tail := sources[1..];
      assert (sources + [last])[1..] == tail + [last] && (sources + [last])[0] == sources[0];
      MergedAppend(tail, last, w, flagOn);
      var a, b := if Usable(sources[0], flagOn) then sources[0].fetch(w).events else [], Merged(tail, w, flagOn);
      var c := if Usable(last, flagOn) then last.fetch(w).events else [];
      assert a + (b + c) == (a + b) + c;
    }
  }

  method MergeSources(sources: seq<CalendarSource>, w: Window, flagOn: string -> bool)
    returns (merged: seq<CalendarEvent>, total: int, reports: seq<SourceReport>)
    ensures merged == Merged(sources, w, flagOn) && reports == Reports(sources, w, flagOn) && total == Totals(reports)
  {
    merged, total, reports := [], 0, [];
    for i := 0 to |sources|
      invariant merged == Merged(sources[..i], w, flagOn)
      invariant reports == Reports(sources[..i], w, flagOn) && total == Totals(reports)
    {
      var source := sources[i];
      assert sources[..i + 1] == sources[..i] + [source];
      MergedAppend(sources[..i], source, w, flagOn);
      ReportsAppend(sources[..i], source, w, flagOn);
      if Usable(source, flagOn) {
        var result := source.fetch(w);
        merged := merged + result.events;
        total := total + result.total;
        var report := SourceReport(source.key, source.title, |result.events|, result.total, result.boundedNote);
        TotalsAppend(reports, report);
        reports := reports + [report];
      }
    }
    assert sources[..|sources|] == sources;
  }

  /** Fans out to the usable sources in key order, merges, sorts and groups by day. */
  method Collect(r: Registry, w: Window, flagOn: string -> bool, labels: map<Day, string>, today: Day)
    returns (days: seq<AgendaDay>, total: int, reports: seq<SourceReport>, ghost sources: seq<CalendarSource>)
    requires WellKeyed(r)
    ensures KeySorted(r, sources)
    ensures Groups(Sort(EventLe, Merged(sources, w, flagOn)), days) && Labelled(days, labels, today)
    ensures reports == Reports(sources, w, flagOn) && total == Totals(reports)
  {
    var list := RegisteredSources(r);
    sources := list;
    var merged;
    merged, total, reports := MergeSources(list, w, flagOn);
    days := ListDays(Sort(EventLe, merged), labels, today);
  }

  // ---- laws ------------------------------------------------------------------------------------------

  function AllEvents(days: seq<AgendaDay>): seq<CalendarEvent> {
    if days == [] then [] else days[0].events + AllEvents(days[1..])
  }

  function OffDay(events: seq<CalendarEvent>, d: Day): seq<CalendarEvent> {
    if events == [] then []
    else (if events[0].dateStart != d then [events[0]] else []) + OffDay(events[1..], d)
  }

  lemma {:induction false} SplitByDay(events: seq<CalendarEvent>, d: Day)
    ensures multiset(events) == multiset(OnDay(events, d)) + multiset(OffDay(events, d))
    ensures forall e :: e in OffDay(events, d) ==> e in events && e.dateStart != d
  {
    if events != [] {
      SplitByDay(events[1..], d);
      assert events == [events[0]] + events[1..];
    }
  }

  lemma {:induction false} OtherDaysKept(events: seq<CalendarEvent>, d: Day, other: Day)
    requires other != d
    ensures OnDay(OffDay(events, d), other) == OnDay(events, other)
  {
    if events != [] {
      OtherDaysKept(events[1..], d, other);
      if events[0].dateStart != d {
        assert OffDay(events, d)[1..] == OffDay(events[1..], d);
      } else {
        assert OffDay(events, d) == OffDay(events[1..], d);
      }
    }
  }

  lemma GroupsOfRest(events: seq<CalendarEvent>, days: seq<AgendaDay>)
    requires days != [] && Groups(events, days)
    ensures Groups(OffDay(events, days[0].day), days[1..])
  {
    var d, rest := days[0].day, days[1..];
    forall i | 0 <= i < |rest| ensures rest[i].events == OnDay(OffDay(events, d), rest[i].day) && rest[i].events != [] {
      OtherDaysKept(events, d, days[i + 1].day);
    }
    SplitByDay(events, d);
    forall e | e in OffDay(events, d) ensures exists i :: 0 <= i < |rest| && rest[i].day == e.dateStart {
      var i :| 0 <= i < |days| && days[i].day == e.dateStart;
      assert rest[i - 1].day == e.dateStart;
    }
  }

  /** Nothing is lost, added or repeated by grouping. */
  lemma {:induction false} GroupingConserves(events: seq<CalendarEvent>, days: seq<AgendaDay>)
    requires Groups(events, days)
    ensures multiset(AllEvents(days)) == multiset(events)
    decreases |days|
  {
    if days == [] {
      FirstIsMember(events);
    } else {
      GroupsOfRest(events, days);
      GroupingConserves(OffDay(events, days[0].day), days[1..]);
      SplitByDay(events, days[0].day);
    }
  }

  lemma SortedByDay(events: seq<CalendarEvent>, d: Day)
    requires SortedBy(EventLe, events)
    ensures SortedBy(EventLe, OnDay(events, d))
    decreases |events|
  {
    if events != [] {
      assert SortedBy(EventLe, events[1..]);
      SortedByDay(events[1..], d);
      forall e | e in OnDay(events[1..], d) ensures EventLe(events[0], e) {
        OnDayHolds(events[1..], d, e);
      }
    }
  }

  /** The agenda holds exactly the events of the usable sources, each on its own day, and
      each day lists its events by source and ref. */
  lemma AgendaIsFaithful(merged: seq<CalendarEvent>, days: seq<AgendaDay>)
    requires Groups(Sort(EventLe, merged), days)
    ensures multiset(AllEvents(days)) == multiset(merged)
    ensures forall i :: 0 <= i < |days| ==> SortedBy(EventLe, days[i].events)
    ensures forall i, e :: 0 <= i < |days| && e in days[i].events ==> e.dateStart == days[i].day
  {
    EventLeIsAnOrder();
    SortSorts(EventLe, merged);
    GroupingConserves(Sort(EventLe, merged), days);
    forall i | 0 <= i < |days| ensures SortedBy(EventLe, days[i].events) {
      SortedByDay(Sort(EventLe, merged), days[i].day);
    }
    forall i, e | 0 <= i < |days| && e in days[i].events ensures e.dateStart == days[i].day {
      OnDayHolds(Sort(EventLe, merged), days[i].day, e);
    }
  }

  /** No two different events of one source share a ref. */
  ghost predicate RefsUnique(events: seq<CalendarEvent>) {
    forall a, b :: a in events && b in events && a.source == b.source && a.ref == b.ref ==> a == b
  }

  lemma TieIsSame(a: CalendarEvent, b: CalendarEvent)
    requires EventLe(a, b) && EventLe(b, a)
    ensures a.source == b.source && a.ref == b.ref
  {
    if a.source != b.source {
      StrLeAntisymmetric(a.source, b.source);
    } else {
      StrLeAntisymmetric(a.ref, b.ref);
    }
  }

  lemma {:induction false} GroupsUnique(events: seq<CalendarEvent>, a: seq<AgendaDay>, b: seq<AgendaDay>)
    requires Groups(events, a) && Groups(events, b)
    ensures |a| == |b| && forall i :: 0 <= i < |a| ==> a[i].day == b[i].day && a[i].events == b[i].events
    decreases |a|
  {
    if a != [] && b != [] {
      FirstDay(events, a);
      FirstDay(events, b);
      GroupsOfRest(events, a);
      GroupsOfRest(events, b);
      GroupsUnique(OffDay(events, a[0].day), a[1..], b[1..]);
      forall i | 0 < i < |a| ensures a[i].day == b[i].day && a[i].events == b[i].events {
        assert a[i] == a[1..][i - 1] && b[i] == b[1..][i - 1];
      }
    } else if a != [] {
      FirstDay(events, a);
    } else if b != [] {
      FirstDay(events, b);
    }
  }

  /** The first day is the earliest date on which anything starts. */
  lemma FirstDay(events: seq<CalendarEvent>, days: seq<AgendaDay>)
    requires Groups(events, days) && days != []
    ensures events != [] && (forall e :: e in events ==> days[0].day <= e.dateStart)
    ensures exists e :: e in events && e.dateStart == days[0].day
  {
    var e := days[0].events[0];
    OnDayHolds(events, days[0].day, e);
    assert e in days[0].events;
  }

  /** When refs are unique per source, the agenda does not depend on the order in which a
      source returns its events. */
  lemma AgendaIgnoresEventOrder(
    merged: seq<CalendarEvent>, merged': seq<CalendarEvent>, days: seq<AgendaDay>, days': seq<AgendaDay>)
    requires multiset(merged) == multiset(merged') && RefsUnique(merged)
    requires Groups(Sort(EventLe, merged), days) && Groups(Sort(EventLe, merged'), days')
    ensures |days| == |days'| && forall i :: 0 <= i < |days| ==>
              days[i].day == days'[i].day && days[i].events == days'[i].events
  {
    EventLeIsAnOrder();
    SortSorts(EventLe, merged);
    SortSorts(EventLe, merged');
    var a, b := Sort(EventLe, merged), Sort(EventLe, merged');
    forall x, y | x in a && y in a && EventLe(x, y) && EventLe(y, x) ensures x == y {
      assert x in multiset(a) && y in multiset(a);
      TieIsSame(x, y);
    }
    SortedUnique(EventLe, a, b);
    GroupsUnique(a, days, days');
  }

  /** Permuting what each source returns permutes the merged events. */
  lemma {:induction false} MergePermutes(
    sources: seq<CalendarSource>, sources': seq<CalendarSource>, w: Window, flagOn: string -> bool)
    requires |sources| == |sources'|
    requires forall i :: 0 <= i < |sources| ==>
               Usable(sources[i], flagOn) == Usable(sources'[i], flagOn)
               && multiset(sources[i].fetch(w).events) == multiset(sources'[i].fetch(w).events)
    ensures multiset(Merged(sources, w, flagOn)) == multiset(Merged(sources', w, flagOn))
    decreases |sources|
  {
    if sources != [] {
      MergePermutes(sources[1..], sources'[1..], w, flagOn);
    }
  }

  /** The registries hold sources that differ at most in the order of the events they return. */
  ghost predicate SameUpToOrder(r: Registry, r': Registry, w: Window, flagOn: string -> bool) {
    && r.Keys == r'.Keys
    && forall k :: k in r ==> SourceSameUpToOrder(r[k], r'[k], w, flagOn)
  }

  ghost predicate SourceSameUpToOrder(s: CalendarSource, s': CalendarSource, w: Window, flagOn: string -> bool) {
    Usable(s, flagOn) == Usable(s', flagOn) && multiset(s.fetch(w).events) == multiset(s'.fetch(w).events)
  }

  /** The agenda shows the same days however the sources were registered and in whatever
      order each of them returns its events, as long as refs are unique per source. */
  lemma AgendaIsDeterministic(
    a: seq<CalendarSource>, b: seq<CalendarSource>, r: Registry, r': Registry, w: Window, flagOn: string -> bool,
    sources: seq<CalendarSource>, sources': seq<CalendarSource>, days: seq<AgendaDay>, days': seq<AgendaDay>)
    requires DistinctKeys(a) && DistinctKeys(b) && (forall s :: s in a <==> s in b)
    requires r == RegisteredAll(map[], a) && SameUpToOrder(RegisteredAll(map[], b), r', w, flagOn)
    requires KeySorted(r, sources) && KeySorted(r', sources')
    requires RefsUnique(Merged(sources, w, flagOn))
    requires Groups(Sort(EventLe, Merged(sources, w, flagOn)), days)
    requires Groups(Sort(EventLe, Merged(sources', w, flagOn)), days')
    ensures |days| == |days'| && forall i :: 0 <= i < |days| ==>
              days[i].day == days'[i].day && days[i].events == days'[i].events
  {
    RegistrationOrderIrrelevant(a, b);
    var keys := KeysOf(sources);
    AscendingUnique(keys, KeysOf(sources'));
    forall i | 0 <= i < |sources|
      ensures Usable(sources[i], flagOn) == Usable(sources'[i], flagOn)
      ensures multiset(sources[i].fetch(w).events) == multiset(sources'[i].fetch(w).events)
    {
      assert keys[i] == sources[i].key == sources'[i].key;
      assert SourceSameUpToOrder(r[keys[i]], r'[keys[i]], w, flagOn);
    }
    MergePermutes(sources, sources', w, flagOn);
    AgendaIgnoresEventOrder(Merged(sources, w, flagOn), Merged(sources', w, flagOn), days, days');
  }
}
