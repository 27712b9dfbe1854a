/** What reaches the agenda, and what a source that is switched off leaves there: nothing. */
module AgendaLaws {
  import opened Collections
  import opened Ordering
  import opened Workdays
  import opened Agenda

  /** A source is registered, in the place of one with its key, unless its key is empty or nothing
      in its scope rule can be seen; it is refused otherwise. */
  lemma RegistrationIsSpelledOut(r: Registry, s: CalendarSource)
    ensures var seen := exists i :: 0 <= i < |s.scopeRule| && s.scopeRule[i] !in " \t\n\r";
            && (s.key != "" && seen ==> Acceptable(s) && Registered(r, s) == r[s.key := s])
            && (s.key == "" || !seen ==> !Acceptable(s) && Registered(r, s) == r)
  {
  }

  ghost predicate IsOff(s: CalendarSource, flagOn: string -> bool) {
    s.featureFlag.Some? && !flagOn(s.featureFlag.value)
  }

  /** The merge holds the events that the sources which are not switched off return. */
  lemma {:induction false} MergedHolds(
    sources: seq<CalendarSource>, w: Window, flagOn: string -> bool, e: CalendarEvent)
    ensures e in Merged(sources, w, flagOn) <==>
              exists s :: s in sources && !IsOff(s, flagOn) && e in s.fetch(w).events
    decreases |sources|
  {
    if sources != [] {
      MergedHolds(sources[1..], w, flagOn, e);
      assert forall s :: s in sources <==> s == sources[0] || s in sources[1..];
    }
  }

  /** The reports are those of the sources which are not switched off. */
  lemma {:induction false} ReportsHold(
    sources: seq<CalendarSource>, w: Window, flagOn: string -> bool, r: SourceReport)
    ensures r in Reports(sources, w, flagOn) <==>
              exists s :: s in sources && !IsOff(s, flagOn) && r.key == s.key && r.title == s.title
                          && r.count == |s.fetch(w).events| && r.total == s.fetch(w).total
                          && r.boundedNote == s.fetch(w).boundedNote
    decreases |sources|
  {
    if sources != [] {
      ReportsHold(sources[1..], w, flagOn, r);
      assert forall s :: s in sources <==> s == sources[0] || s in sources[1..];
    }
  }

  lemma {:induction false} OffIsSkipped(sources: seq<CalendarSource>, w: Window, flagOn: string -> bool, k: nat)
    requires k < |sources| && IsOff(sources[k], flagOn)
    ensures var rest := sources[..k] + sources[k + 1..];
            && Merged(sources, w, flagOn) == Merged(rest, w, flagOn)
            && Reports(sources, w, flagOn) == Reports(rest, w, flagOn)
    decreases k
  {
    var rest := sources[..k] + sources[k + 1..];
    if k == 0 {
      assert rest == sources[1..];
    } else {
      OffIsSkipped(sources[1..], w, flagOn, k - 1);
      assert rest[0] == sources[0] && rest[1..] == sources[1..][..k - 1] + sources[1..][k..];
    }
  }

  lemma AscendingWithout(keys: seq<string>, k: nat, fewer: seq<string>)
    requires Ascending(keys) && k < |keys| && fewer == keys[..k] + keys[k + 1..]
    ensures Ascending(fewer) && forall x :: x in fewer <==> x in keys && x != keys[k]
  {
    forall i, j | 0 <= i < j < |fewer| ensures fewer[i] != fewer[j] && StrLe(fewer[i], fewer[j]) {
      var a, b := if i < k then i else i + 1, if j < k then j else j + 1;
      assert fewer[i] == keys[a] && fewer[j] == keys[b];
    }
    forall x ensures x in fewer <==> x in keys && x != keys[k] {
      if x in keys && x != keys[k] {
        var i :| 0 <= i < |keys| && keys[i] == x;
        assert x == fewer[if i < k then i else i - 1];
      }
    }
  }

  /** Taking a source out of the registry takes it out of the listing. */
  lemma ListedWithout(r: Registry, key: string, sources: seq<CalendarSource>, rest: seq<CalendarSource>)
    returns (k: nat)
    requires key in r && KeySorted(r, sources) && KeySorted(r - {key}, rest)
    ensures k < |sources| && sources[k] == r[key] && rest == sources[..k] + sources[k + 1..]
  {
    var keys := KeysOf(sources);
    assert key in keys;
    k :| 0 <= k < |keys| && keys[k] == key;
    var fewer := keys[..k] + keys[k + 1..];
    AscendingWithout(keys, k, fewer);
    AscendingUnique(fewer, KeysOf(rest));
    SameKeysSameSources(r, sources, rest, k);
  }

  lemma SameKeysSameSources(r: Registry, sources: seq<CalendarSource>, rest: seq<CalendarSource>, k: nat)
    requires k < |sources| && |rest| == |sources| - 1
    requires forall i :: 0 <= i < |sources| ==> sources[i].key in r && r[sources[i].key] == sources[i]
    requires forall i :: 0 <= i < |rest| ==> rest[i].key in r && r[rest[i].key] == rest[i]
    requires KeysOf(rest) == KeysOf(sources)[..k] + KeysOf(sources)[k + 1..]
    ensures rest == sources[..k] + sources[k + 1..]
  {
    forall i | 0 <= i < |rest| ensures rest[i] == sources[if i < k then i else i + 1] {
      assert KeysOf(rest)[i] == KeysOf(sources)[if i < k then i else i + 1];
    }
  }

  /** An agenda cannot tell a source that is switched off from one that was never registered: the
      same days, the same reports, the same total. */
  lemma OffIsAsIfNeverBuilt(
    r: Registry, key: string, w: Window, flagOn: string -> bool, sources: seq<CalendarSource>,
    rest: seq<CalendarSource>, days: seq<AgendaDay>, days': seq<AgendaDay>)
    requires key in r && IsOff(r[key], flagOn) && KeySorted(r, sources) && KeySorted(r - {key}, rest)
    requires Groups(Sort(EventLe, Merged(sources, w, flagOn)), days)
    requires Groups(Sort(EventLe, Merged(rest, w, flagOn)), days')
    ensures Reports(sources, w, flagOn) == Reports(rest, w, flagOn)
    ensures |days| == |days'| && forall i :: 0 <= i < |days| ==>
              days[i].day == days'[i].day && days[i].events == days'[i].events
  {
    var k := ListedWithout(r, key, sources, rest);
    OffIsSkipped(sources, w, flagOn, k);
    GroupsUnique(Sort(EventLe, Merged(sources, w, flagOn)), days, days');
  }

  /** A day lists its events by source and, within a source, by ref. */
  lemma DayIsOrdered(merged: seq<CalendarEvent>, days: seq<AgendaDay>, d: nat, i: nat, j: nat)
    requires Groups(Sort(EventLe, merged), days) && d < |days| && i < j < |days[d].events|
    ensures var a, b := days[d].events[i], days[d].events[j];
            && a.dateStart == b.dateStart == days[d].day && StrLe(a.source, b.source)
            && (a.source == b.source ==> StrLe(a.ref, b.ref))
  {
    AgendaIsFaithful(merged, days);
    OrderedWithinDay(days[d].events, days[d].day, i, j);
  }

  lemma OrderedWithinDay(events: seq<CalendarEvent>, d: Day, i: nat, j: nat)
    requires SortedBy(EventLe, events) && i < j < |events| && forall e :: e in events ==> e.dateStart == d
    ensures var a, b := events[i], events[j];
            && a.dateStart == b.dateStart == d && StrLe(a.source, b.source)
            && (a.source == b.source ==> StrLe(a.ref, b.ref))
  {
    assert EventLe(events[i], events[j]) && events[i] in events && events[j] in events;
    StrLeTotal(events[i].source, events[i].source);
  }

  /** A day is marked non-working when it is the sixth or seventh of its week or carries a label. */
  lemma NonworkingIsSpelledOut(days: seq<AgendaDay>, labels: map<Day, string>, today: Day, d: nat)
    requires Labelled(days, labels, today) && d < |days|
    ensures days[d].isNonworking <==> days[d].day % 7 == 6 || days[d].day % 7 == 0 || days[d].day in labels
  {
  }
}
