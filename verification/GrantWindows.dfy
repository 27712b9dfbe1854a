/** Time-bounded grants behind a cache: how long a loaded permission set stays right. */
module GrantWindows {
  import opened Collections
  import opened SessionPolicy

  /** One row of the permission/role/grant join of a user. */
  datatype GrantRow = GrantRow(code: string, validFrom: Option<int>, validTo: Option<int>)

  predicate Active(g: GrantRow, now: int) {
    (g.validFrom.None? || g.validFrom.value <= now) && (g.validTo.None? || g.validTo.value > now)
  }

  /** The plain query: the codes of the grants whose window contains `now`. */
  function Effective(rows: seq<GrantRow>, now: int): set<string> {
    set g | g in rows && Active(g, now) :: g.code
  }

  /** A grant opens or closes at `edge`, and that is still to come. */
  ghost predicate IsEdge(rows: seq<GrantRow>, now: int, edge: int) {
    edge > now && exists g :: g in rows && (g.validFrom == Some(edge) || g.validTo == Some(edge))
  }

  ghost predicate IsNextEdge(rows: seq<GrantRow>, now: int, edge: Option<int>) {
    if edge.None? then forall e :: !IsEdge(rows, now, e)
    else IsEdge(rows, now, edge.value) && forall e :: IsEdge(rows, now, e) ==> edge.value <= e
  }

  function Sooner(a: Option<int>, b: int): Option<int> {
    if a.None? || b < a.value then Some(b) else a
  }

  function SoonerIfAhead(a: Option<int>, edge: Option<int>, now: int): Option<int> {
    if edge.Some? && edge.value > now then Sooner(a, edge.value) else a
  }

  /** The cache loader: the codes in force now and the soonest future window edge. */
  method LoadPermissionEntry(rows: seq<GrantRow>, now: int) returns (codes: set<string>, boundary: Option<int>)
    ensures codes == Effective(rows, now)
    ensures IsNextEdge(rows, now, boundary)
  {
    codes, boundary := {}, None;
    for i := 0 to |rows|
      invariant codes == Effective(rows[..i], now)
      invariant IsNextEdge(rows[..i], now, boundary)
    {
      var g := rows[i];
      assert rows[..i + 1] == rows[..i] + [g];
      if Active(g, now) {
        codes := codes + {g.code};
      }
      ghost var before := boundary;
      if g.validFrom.Some? && g.validFrom.value > now {
        boundary := Sooner(boundary, g.validFrom.value);
      }
      if g.validTo.Some? && g.validTo.value > now {
        boundary := Sooner(boundary, g.validTo.value);
      }
      NextEdgeStep(rows[..i], g, now, before, boundary);
    }
    assert rows[..|rows|] == rows;
  }

  lemma NextEdgeStep(rows: seq<GrantRow>, g: GrantRow, now: int, before: Option<int>, after: Option<int>)
    requires IsNextEdge(rows, now, before)
    requires after == SoonerIfAhead(SoonerIfAhead(before, g.validFrom, now), g.validTo, now)
    ensures IsNextEdge(rows + [g], now, after)
  {
    forall e
      ensures IsEdge(rows + [g], now, e) <==>
                IsEdge(rows, now, e) || (e > now && (g.validFrom == Some(e) || g.validTo == Some(e)))
    {
    }
  }

  /** The effective set is constant up to the next edge. */
  lemma ConstantUntilEdge(rows: seq<GrantRow>, t0: int, edge: Option<int>, t: int)
    requires IsNextEdge(rows, t0, edge) && t0 <= t && (edge.Some? ==> t < edge.value)
    ensures Effective(rows, t) == Effective(rows, t0)
  {
    forall g | g in rows ensures Active(g, t) <==> Active(g, t0) {
      if g.validFrom.Some? && g.validFrom.value > t0 {
        assert IsEdge(rows, t0, g.validFrom.value);
      }
      if g.validTo.Some? && g.validTo.value > t0 {
        assert IsEdge(rows, t0, g.validTo.value);
      }
    }
  }

  // ---- the cache entry's life -------------------------------------------------------------

  function CacheTtl(backstop: int, boundary: Option<int>, now: int): int {
    Max(1, if boundary.Some? then Min(backstop, WholeSeconds(boundary.value - now)) else backstop)
  }

  function CacheExpiry(backstop: int, boundary: Option<int>, now: int): int {
    now + CacheTtl(backstop, boundary, now) * TICKS
  }

  /** An entry lives a whole number of seconds, and one at least: as long as the backstop and no
      longer than to the edge, less than a second short of that. */
  lemma EntryLifeIsTight(backstop: int, boundary: Option<int>, now: int)
    ensures var expiry := CacheExpiry(backstop, boundary, now);
            var most := now + backstop * TICKS;
            var limit := if boundary.Some? && boundary.value < most then boundary.value else most;
            && (expiry - now) % TICKS == 0 && expiry >= now + TICKS
            && limit - TICKS < expiry <= Max(limit, now + TICKS)
            && (boundary.None? ==> expiry == Max(most, now + TICKS))
  {
    if boundary.Some? {
      var left := boundary.value - now;
      assert left >= 0 ==> left - TICKS < WholeSeconds(left) * TICKS <= left;
      assert left < 0 ==> WholeSeconds(left) <= 0;
    }
  }

  /** An entry stored at `t1` is gone before the edge exactly when the edge is at least a
      second after `t1`; otherwise it lives for the one second that is the shortest TTL. */
  lemma EntryEndsBeforeEdge(backstop: int, edge: int, t1: int)
    ensures CacheExpiry(backstop, Some(edge), t1) <= edge <==> edge - t1 >= TICKS
    ensures edge - t1 < TICKS ==> CacheExpiry(backstop, Some(edge), t1) == t1 + TICKS
  {
    var d := edge - t1;
    if d >= TICKS {
      assert WholeSeconds(d) * TICKS <= d && WholeSeconds(d) >= 1;
    } else {
      assert WholeSeconds(d) <= 0;
    }
  }

  /** Codes loaded at `loadedAt`, stored at `storedAt` and answered at `at`: they are what the
      plain query gives at `at`, or a window edge has passed since the load which was less
      than a second off when they were stored, and their one second is not over. */
  ghost predicate TimelyCodes(rows: seq<GrantRow>, codes: set<string>, loadedAt: int, storedAt: int, at: int) {
    && loadedAt <= storedAt <= at && codes == Effective(rows, loadedAt)
    && (|| codes == Effective(rows, at)
        || exists edge :: JustPassed(rows, edge, loadedAt, storedAt, at))
  }

  ghost predicate JustPassed(rows: seq<GrantRow>, edge: int, loadedAt: int, storedAt: int, at: int) {
    && IsEdge(rows, loadedAt, edge) && loadedAt < edge <= at
    && edge - storedAt < TICKS && at < storedAt + TICKS
  }

  /** How late an answer can be: less than a second after the edge it missed, not counting
      the time between loading and storing. */
  lemma LatenessIsBounded(rows: seq<GrantRow>, codes: set<string>, loadedAt: int, storedAt: int, at: int)
    requires TimelyCodes(rows, codes, loadedAt, storedAt, at) && codes != Effective(rows, at)
    ensures at < storedAt + TICKS
    ensures exists edge :: IsEdge(rows, loadedAt, edge) && 0 <= at - edge < TICKS + (storedAt - loadedAt)
  {
    var edge :| JustPassed(rows, edge, loadedAt, storedAt, at);
    assert IsEdge(rows, loadedAt, edge);
  }

  /** An answer from an entry loaded at `loadedAt`, stored at `storedAt` and alive at `at`. */
  lemma LiveEntryIsTimely(
    rows: seq<GrantRow>, codes: set<string>, backstop: int, loadedAt: int, edge: Option<int>, storedAt: int, at: int)
    requires loadedAt <= storedAt <= at && IsNextEdge(rows, loadedAt, edge) && codes == Effective(rows, loadedAt)
    requires at < CacheExpiry(backstop, edge, storedAt)
    ensures TimelyCodes(rows, codes, loadedAt, storedAt, at)
  {
    if edge.None? || at < edge.value {
      ConstantUntilEdge(rows, loadedAt, edge, at);
    } else {
      EntryEndsBeforeEdge(backstop, edge.value, storedAt);
      assert JustPassed(rows, edge.value, loadedAt, storedAt, at);
    }
  }

  /** When the load and the store share an instant, an entry is right at every instant of
      its life unless an edge was under a second away, and then it is at most a second late. */
  lemma EntryExactUnlessEdgeIsNear(rows: seq<GrantRow>, backstop: int, t0: int, edge: Option<int>, at: int)
    requires IsNextEdge(rows, t0, edge) && t0 <= at < CacheExpiry(backstop, edge, t0)
    ensures edge.None? || edge.value - t0 >= TICKS ==> Effective(rows, at) == Effective(rows, t0)
    ensures Effective(rows, at) != Effective(rows, t0) ==>
              edge.Some? && edge.value - t0 < TICKS && 0 <= at - edge.value < TICKS
  {
    if edge.Some? {
      EntryEndsBeforeEdge(backstop, edge.value, t0);
      assert edge == Some(edge.value);
    }
    if edge.None? || at < edge.value {
      ConstantUntilEdge(rows, t0, edge, at);
    }
  }
}
