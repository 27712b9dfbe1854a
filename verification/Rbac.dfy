/** Granting and revoking roles, and resolving a session's permissions through the cache.

    The object below holds the tables and keys that the source updates. A ghost state of
    the protocol in `AuthzFreshness` goes along, and every method is shown to take steps of
    that protocol, in the order the source takes them. */
module Rbac {
  import opened Collections
  import opened SessionPolicy
  import opened GrantWindows
  import opened AuthzFreshness

  type RoleId = int

  /** A row of the grant table; its id is its place in the table. */
  datatype UserRole = UserRole(
    user: User, role: RoleId, unit: Option<int>, validFrom: Option<int>, validTo: Option<int>, deleted: bool)

  type Grants = seq<UserRole>

  /** The live roles and the codes of their permissions. */
  type Roles = map<RoleId, seq<string>>

  // ---- the join ---------------------------------------------------------------------------

  function RowsOf(codes: seq<string>, g: UserRole): Rows {
    if codes == [] then [] else [GrantRow(codes[0], g.validFrom, g.validTo)] + RowsOf(codes[1..], g)
  }

  predicate Joins(g: UserRole, roles: Roles, u: User) {
    g.user == u && !g.deleted && g.role in roles
  }

  /** The permission, role and grant join for one user. */
  function JoinRows(grants: Grants, roles: Roles, u: User): Rows {
    if grants == [] then []
    else
      var first := if Joins(grants[0], roles, u) then RowsOf(roles[grants[0].role], grants[0]) else [];
      first + JoinRows(grants[1..], roles, u)
  }

  ghost predicate Gives(g: UserRole, roles: Roles, u: User, now: int, code: string) {
    && Joins(g, roles, u) && code in roles[g.role]
    && (g.validFrom.None? || g.validFrom.value <= now) && (g.validTo.None? || g.validTo.value > now)
  }

  /** The user holds the code: some live grant in its window gives it. */
  ghost predicate Holds(grants: Grants, roles: Roles, u: User, now: int, code: string) {
    exists g :: g in grants && Gives(g, roles, u, now, code)
  }

  lemma {:induction false} RowsOfHolds(codes: seq<string>, g: UserRole, row: GrantRow)
    ensures row in RowsOf(codes, g) <==> row.code in codes && row == GrantRow(row.code, g.validFrom, g.validTo)
  {
    if codes != [] {
      RowsOfHolds(codes[1..], g, row);
    }
  }

  lemma {:induction false} JoinHolds(grants: Grants, roles: Roles, u: User, row: GrantRow)
    ensures row in JoinRows(grants, roles, u) <==>
              exists g :: g in grants && Joins(g, roles, u) && row in RowsOf(roles[g.role], g)
  {
    if grants != [] {
      JoinHolds(grants[1..], roles, u, row);
      assert forall g :: g in grants <==> g == grants[0] || g in grants[1..];
    }
  }

  /** What the loader returns is what the user holds. */
  lemma EffectiveIsHeld(grants: Grants, roles: Roles, u: User, now: int, code: string)
    ensures code in Effective(JoinRows(grants, roles, u), now) <==> Holds(grants, roles, u, now, code)
  {
    var rows := JoinRows(grants, roles, u);
    if code in Effective(rows, now) {
      var row :| row in rows && Active(row, now) && row.code == code;
      JoinHolds(grants, roles, u, row);
      var g :| g in grants && Joins(g, roles, u) && row in RowsOf(roles[g.role], g);
      RowsOfHolds(roles[g.role], g, row);
      assert Gives(g, roles, u, now, code);
    }
    if Holds(grants, roles, u, now, code) {
      var g :| g in grants && Gives(g, roles, u, now, code);
      var row := GrantRow(code, g.validFrom, g.validTo);
      RowsOfHolds(roles[g.role], g, row);
      JoinHolds(grants, roles, u, row);
    }
  }

  // ---- the edits --------------------------------------------------------------------------------

  predicate Matches(g: UserRole, u: User, role: RoleId, unit: Option<int>) {
    g.user == u && g.role == role && g.unit == unit
  }

  /** At most one row, live or not, for a user, role and unit. */
  ghost predicate TriplesUnique(grants: Grants) {
    forall i, j :: 0 <= i < j < |grants| ==> !Matches(grants[i], grants[j].user, grants[j].role, grants[j].unit)
  }

  /** `grants'` has one row for the triple of `g`, which is `g`; no other row changed. */
  ghost predicate GrantedAs(grants: Grants, grants': Grants, g: UserRole, id: nat) {
    && id < |grants'| && |grants| <= |grants'| <= |grants| + 1 && grants'[id] == g
    && (forall i :: 0 <= i < |grants| && i != id ==> grants'[i] == grants[i])
    && (id < |grants| ==> |grants'| == |grants| && Matches(grants[id], g.user, g.role, g.unit))
    && (id >= |grants| ==> id == |grants|)
    && TriplesUnique(grants')
  }

  lemma {:induction false} JoinElsewhere(grants: Grants, grants': Grants, roles: Roles, u: User)
    requires |grants| == |grants'|
    requires forall i :: 0 <= i < |grants| ==> grants[i] == grants'[i] || (grants[i].user != u && grants'[i].user != u)
    ensures JoinRows(grants, roles, u) == JoinRows(grants', roles, u)
    decreases |grants|
  {
    if grants != [] {
      JoinElsewhere(grants[1..], grants'[1..], roles, u);
    }
  }

  lemma {:induction false} JoinAppended(grants: Grants, g: UserRole, roles: Roles, u: User)
    requires g.user != u
    ensures JoinRows(grants + [g], roles, u) == JoinRows(grants, roles, u)
    decreases |grants|
  {
    if grants == [] {
      assert (grants + [g])[1..] == [];
    } else {
      assert (grants + [g])[1..] == grants[1..] + [g];
      JoinAppended(grants[1..], g, roles, u);
    }
  }

  /** Granting concerns nobody else. */
  lemma OthersKeepRows(grants: Grants, grants': Grants, g: UserRole, id: nat, roles: Roles, u: User)
    requires GrantedAs(grants, grants', g, id) && u != g.user
    ensures JoinRows(grants', roles, u) == JoinRows(grants, roles, u)
  {
    if id < |grants| {
      JoinElsewhere(grants, grants', roles, u);
    } else {
      assert grants' == grants + [g];
      JoinAppended(grants, g, roles, u);
    }
  }

  /** After a grant the user holds exactly what the other rows give and, inside the window,
      the role's codes. */
  lemma GrantTakesEffect(grants: Grants, grants': Grants, g: UserRole, id: nat, roles: Roles, now: int, code: string)
    requires GrantedAs(grants, grants', g, id)
    ensures Holds(grants', roles, g.user, now, code) <==>
              || Gives(g, roles, g.user, now, code)
              || exists h :: h in grants && !Matches(h, g.user, g.role, g.unit) && Gives(h, roles, g.user, now, code)
  {
    if Holds(grants', roles, g.user, now, code) && !Gives(g, roles, g.user, now, code) {
      var h :| h in grants' && Gives(h, roles, g.user, now, code);
      var i :| 0 <= i < |grants'| && grants'[i] == h;
      assert i != id && grants[i] == h;
      assert !Matches(h, g.user, g.role, g.unit);
    }
    forall h | h in grants && !Matches(h, g.user, g.role, g.unit) && Gives(h, roles, g.user, now, code)
      ensures Holds(grants', roles, g.user, now, code)
    {
      var i :| 0 <= i < |grants| && grants[i] == h;
      assert grants'[i] == h;
    }
    if Gives(g, roles, g.user, now, code) {
      assert grants'[id] in grants';
    }
  }

  /** After a revoke the user holds exactly what the other rows give. */
  lemma RevokeTakesEffect(grants: Grants, id: nat, roles: Roles, u: User, now: int, code: string)
    requires id < |grants| && TriplesUnique(grants)
    ensures Holds(grants[id := grants[id].(deleted := true)], roles, u, now, code) <==>
              exists h :: h in grants && h != grants[id] && Gives(h, roles, u, now, code)
  {
    var grants' := grants[id := grants[id].(deleted := true)];
    if Holds(grants', roles, u, now, code) {
      var h :| h in grants' && Gives(h, roles, u, now, code);
      var i :| 0 <= i < |grants'| && grants'[i] == h;
      assert i != id && grants[i] == h && grants[i] in grants;
      assert !Matches(h, grants[id].user, grants[id].role, grants[id].unit);
    }
    forall h | h in grants && h != grants[id] && Gives(h, roles, u, now, code)
      ensures Holds(grants', roles, u, now, code)
    {
      var i :| 0 <= i < |grants| && grants[i] == h;
      assert grants'[i] == h && grants'[i] in grants';
    }
  }

  // ---- the protocol steps of one change -----------------------------------------------------------

  /** Commit, then stamp, then drop the dead key. */
  ghost predicate CanChange(s: State, u: User) {
    u in s.history && u in s.stamped && s.history[u] != [] && s.stamped[u] == |s.history[u]| - 1
  }

  ghost function Changed(backstop: int, s: State, u: User, rows: Rows): State
    requires CanChange(s, u)
  {
    var committed := After(backstop, s, Commit(u, rows));
    var stamped := After(backstop, committed, Stamp(u));
    After(backstop, stamped, DropKey(u, |s.history[u]| - 1))
  }

  /** All that a change changes. */
  ghost predicate IsChange(s: State, s': State, u: User, rows: Rows)
    requires CanChange(s, u)
  {
    && s'.history == s.history[u := s.history[u] + [rows]] && s'.stamped == s.stamped[u := |s.history[u]|]
    && s'.cache == s.cache - {(u, |s.history[u]| - 1)}
    && s'.sessions == map sid | sid in s.sessions ::
         if s.sessions[sid].user == u then Session(u, |s.history[u]|) else s.sessions[sid]
  }

  lemma ChangeKeepsInv(backstop: int, s: State, u: User, rows: Rows)
    requires Inv(backstop, s) && CanChange(s, u)
    ensures Inv(backstop, Changed(backstop, s, u, rows))
  {
    var committed := After(backstop, s, Commit(u, rows));
    StepKeepsInv(backstop, s, Commit(u, rows));
    var stamped := After(backstop, committed, Stamp(u));
    StepKeepsInv(backstop, committed, Stamp(u));
    StepKeepsInv(backstop, stamped, DropKey(u, |s.history[u]| - 1));
  }

  datatype ChangeResult = Done(id: nat) | UserNotFound | RoleNotFound | GrantNotFound

  /** The tables agree with the protocol state: the latest version of a user is what the
      grant table joins to, and it has been stamped. */
  ghost predicate Agrees(grants: Grants, roles: Roles, versions: map<User, nat>, s: State) {
    && s.history.Keys == versions.Keys && s.stamped.Keys == versions.Keys
    && forall u :: u in versions ==> UserAgrees(grants, roles, versions, s, u)
  }

  ghost predicate UserAgrees(grants: Grants, roles: Roles, versions: map<User, nat>, s: State, u: User)
    requires u in versions && u in s.history && u in s.stamped
  {
    |s.history[u]| == versions[u] + 1 && s.stamped[u] == versions[u] && Current(s, u) == JoinRows(grants, roles, u)
  }

  lemma ChangeAgrees(
    grants: Grants, grants': Grants, roles: Roles, versions: map<User, nat>, s: State, s': State, u: User)
    requires Agrees(grants, roles, versions, s) && u in versions && CanChange(s, u)
    requires forall o :: o in versions && o != u ==> JoinRows(grants', roles, o) == JoinRows(grants, roles, o)
    requires IsChange(s, s', u, JoinRows(grants', roles, u))
    ensures Agrees(grants', roles, versions[u := versions[u] + 1], s')
  {
    var versions' := versions[u := versions[u] + 1];
    forall o | o in versions' ensures UserAgrees(grants', roles, versions', s', o) {
      assert UserAgrees(grants, roles, versions, s, o);
    }
  }

  lemma Change(backstop: int, before: Grants, grants: Grants, roles: Roles, versions: map<User, nat>, s: State, u: User)
    returns (changed: State)
    requires Inv(backstop, s) && Agrees(before, roles, versions, s) && u in versions
    requires forall o :: o in versions && o != u ==> JoinRows(grants, roles, o) == JoinRows(before, roles, o)
    ensures CanChange(s, u) && |s.history[u]| == versions[u] + 1
    ensures changed == Changed(backstop, s, u, JoinRows(grants, roles, u))
    ensures IsChange(s, changed, u, JoinRows(grants, roles, u))
    ensures Inv(backstop, changed) && Agrees(grants, roles, versions[u := versions[u] + 1], changed)
  {
    assert UserAgrees(before, roles, versions, s, u);
    var rows := JoinRows(grants, roles, u);
    ChangeKeepsInv(backstop, s, u, rows);
    changed := Changed(backstop, s, u, rows);
    ChangeAgrees(before, grants, roles, versions, s, changed, u);
  }

  /** Between whole calls, entries are stored at the instant they are loaded. */
  ghost predicate StoredAsLoaded(cache: map<(User, nat), Entry>) {
    forall k :: k in cache ==> cache[k].loadedAt == cache[k].storedAt
  }

  ghost function FirstState(grants: Grants, roles: Roles, users: set<User>, now: int): State {
    State(now, map u | u in users :: [JoinRows(grants, roles, u)], map u | u in users :: 0, map[], map[], map[])
  }

  ghost predicate Takes(backstop: int, s: State, step: Step, s': State) {
    Enabled(s, step) && s' == After(backstop, s, step)
  }

  /** A login or a logout, which changes the sessions alone. */
  lemma SessionsChange(backstop: int, grants: Grants, roles: Roles, versions: map<User, nat>, s: State, step: Step)
    returns (s': State)
    requires Inv(backstop, s) && Agrees(grants, roles, versions, s) && Enabled(s, step) && (step.Login? || step.Logout?)
    ensures Takes(backstop, s, step, s') && s'.cache == s.cache
    ensures step.Logout? ==> s'.sessions == s.sessions - {step.sid}
    ensures step.Login? ==> s'.sessions == s.sessions[step.sid := Session(step.user, |s.history[step.user]| - 1)]
    ensures Inv(backstop, s') && Agrees(grants, roles, versions, s')
  {
    StepKeepsInv(backstop, s, step);
    s' := After(backstop, s, step);
    forall u | u in versions ensures UserAgrees(grants, roles, versions, s', u) {
      assert UserAgrees(grants, roles, versions, s, u);
    }
  }

  /** The codes in force now, or those in force less than a second ago, since when a
      window has opened or closed. */
  ghost predicate InForce(rows: Rows, codes: set<string>, now: int) {
    || codes == Effective(rows, now)
    || exists loadedAt, edge :: MissedEdge(rows, codes, now, loadedAt, edge)
  }

  ghost predicate MissedEdge(rows: Rows, codes: set<string>, now: int, loadedAt: int, edge: int) {
    now - TICKS < loadedAt < edge <= now && IsEdge(rows, loadedAt, edge) && codes == Effective(rows, loadedAt)
  }

  lemma TimelyIsInForce(rows: Rows, codes: set<string>, loadedAt: int, now: int)
    requires TimelyCodes(rows, codes, loadedAt, loadedAt, now)
    ensures InForce(rows, codes, now)
  {
    if codes != Effective(rows, now) {
      var edge :| JustPassed(rows, edge, loadedAt, loadedAt, now);
      assert MissedEdge(rows, codes, now, loadedAt, edge);
    }
  }

  class AccessControl {
    const roles: Roles
    const backstop: int
    var grants: Grants
    var versions: map<User, nat>
    var sessions: map<SessionId, Session>
    var cache: map<(User, nat), Entry>
    ghost var trace: State

    ghost predicate Valid()
      reads this
    {
      && Inv(backstop, trace) && trace.sessions == sessions && trace.cache == cache
      && Agrees(grants, roles, versions, trace) && TriplesUnique(grants)
      && StoredAsLoaded(cache)
    }

    /** A database with its grant table, every user at version 0; nobody is logged in. */
    constructor (roles: Roles, backstop: int, grants: Grants, users: set<User>, now: int)
      requires TriplesUnique(grants)
      ensures Valid() && this.roles == roles && this.backstop == backstop && this.grants == grants
      ensures versions == (map u | u in users :: 0) && sessions == map[] && cache == map[] && trace.clock == now
    {
      this.roles, this.backstop, this.grants := roles, backstop, grants;
      versions, sessions, cache := map u | u in users :: 0, map[], map[];
      trace := FirstState(grants, roles, users, now);
      new;
    }

    /** Writes the rows and keys that follow the protocol state `next`. */
    method Install(
      versions: map<User, nat>, sessions: map<SessionId, Session>, cache: map<(User, nat), Entry>, ghost next: State)
      requires Inv(backstop, next) && next.sessions == sessions && next.cache == cache
      requires Agrees(grants, roles, versions, next) && TriplesUnique(grants) && StoredAsLoaded(cache)
      modifies this`versions, this`sessions, this`cache, this`trace
      ensures Valid()
      ensures this.versions == versions && this.sessions == sessions && this.cache == cache && trace == next
    {
      this.versions, this.sessions, this.cache, trace := versions, sessions, cache, next;
    }

    /** A session carries the version its owner has when it is created. */
    method Login(sid: SessionId, u: User) returns (ok: bool)
      requires Valid()
      modifies this`versions, this`sessions, this`cache, this`trace
      ensures Valid() && versions == old(versions) && cache == old(cache) && ok == (u in versions)
      ensures sessions == if ok then old(sessions)[sid := Session(u, versions[u])] else old(sessions)
      ensures if ok then Takes(backstop, old(trace), AuthzFreshness.Login(sid, u), trace) else trace == old(trace)
    {
      if u !in versions {
        return false;
      }
      assert UserAgrees(grants, roles, versions, trace, u);
      ghost var next := SessionsChange(backstop, grants, roles, versions, trace, AuthzFreshness.Login(sid, u));
      Install(versions, sessions[sid := Session(u, versions[u])], cache, next);
      return true;
    }

    method Logout(sid: SessionId)
      requires Valid()
      modifies this`versions, this`sessions, this`cache, this`trace
      ensures Valid() && versions == old(versions) && cache == old(cache) && sessions == old(sessions) - {sid}
      ensures Takes(backstop, old(trace), AuthzFreshness.Logout(sid), trace)
    {
      ghost var next := SessionsChange(backstop, grants, roles, versions, trace, AuthzFreshness.Logout(sid));
      Install(versions, sessions - {sid}, cache, next);
    }

    /** Bumps the version, commits, stamps the sessions and reclaims the dead key. */
    method Propagate(u: User, ghost before: Grants)
      requires u in versions && TriplesUnique(grants) && StoredAsLoaded(cache)
      requires Inv(backstop, trace) && trace.sessions == sessions && trace.cache == cache
      requires Agrees(before, roles, versions, trace)
      requires forall o :: o in versions && o != u ==> JoinRows(grants, roles, o) == JoinRows(before, roles, o)
      modifies this`versions, this`sessions, this`cache, this`trace
      ensures Valid() && versions == old(versions)[u := old(versions)[u] + 1]
      ensures CanChange(old(trace), u) && trace == Changed(backstop, old(trace), u, JoinRows(grants, roles, u))
    {
      ghost var changed := Change(backstop, before, grants, roles, versions, trace, u);
      var version := versions[u] + 1;
      var stamped := map sid | sid in sessions ::
        if sessions[sid].user == u then Session(u, version) else sessions[sid];
      Install(versions[u := version], stamped, cache - {(u, version - 1)}, changed);
    }

    /** Idempotent on the user, role and unit: restores the row there is, or adds one. */
    method GrantRole(u: User, role: RoleId, unit: Option<int>, validFrom: Option<int>, validTo: Option<int>)
      returns (r: ChangeResult)
      requires Valid()
      modifies this
      ensures Valid()
      ensures r.UserNotFound? <==> u !in old(versions)
      ensures r.RoleNotFound? <==> u in old(versions) && role !in roles
      ensures !r.GrantNotFound?
      ensures !r.Done? ==> grants == old(grants) && trace == old(trace)
      ensures r.Done? ==>
                && GrantedAs(old(grants), grants, UserRole(u, role, unit, validFrom, validTo, false), r.id)
                && versions == old(versions)[u := old(versions)[u] + 1] && CanChange(old(trace), u)
                && trace == Changed(backstop, old(trace), u, JoinRows(grants, roles, u))
    {
      if u !in versions {
        return UserNotFound;
      }
      if role !in roles {
        return RoleNotFound;
      }
      var row := UserRole(u, role, unit, validFrom, validTo, false);
      ghost var before := grants;
      var id := FindGrant(grants, u, role, unit);
      if id == |grants| {
        grants := grants + [row];
      } else {
        grants := grants[id := row];
      }
      forall o | o in versions && o != u ensures JoinRows(grants, roles, o) == JoinRows(before, roles, o) {
        OthersKeepRows(before, grants, row, id, roles, o);
      }
      Propagate(u, before);
      return Done(id);
    }

    /** The tombstone stays in the table. */
    method RevokeRole(u: User, id: nat) returns (r: ChangeResult)
      requires Valid()
      modifies this
      ensures Valid()
      ensures r.Done? <==>
                id < |old(grants)| && old(grants)[id].user == u && !old(grants)[id].deleted && u in old(versions)
      ensures !r.Done? ==> grants == old(grants) && trace == old(trace)
      ensures r.Done? ==>
                && r.id == id && grants == old(grants)[id := old(grants)[id].(deleted := true)]
                && versions == old(versions)[u := old(versions)[u] + 1] && CanChange(old(trace), u)
                && trace == Changed(backstop, old(trace), u, JoinRows(grants, roles, u))
    {
      if id >= |grants| || grants[id].user != u || grants[id].deleted {
        return GrantNotFound;
      }
      if u !in versions {
        return UserNotFound;
      }
      ghost var before := grants;
      grants := grants[id := grants[id].(deleted := true)];
      forall o | o in versions && o != u ensures JoinRows(grants, roles, o) == JoinRows(before, roles, o) {
        JoinElsewhere(before, grants, roles, o);
      }
      Propagate(u, before);
      return Done(id);
    }

    /** The one resolver behind the gate: a hit answers from the cache, a miss loads and
        stores. Between whole calls, an answer is right for the grants as they now are, and
        at most under a second late for a window edge. */
    method EffectivePermissionCodes(sid: SessionId, now: int, ghost rid: RequestId) returns (codes: set<string>)
      requires Valid() && sid in sessions && trace.clock <= now && rid !in trace.requests
      modifies this`versions, this`sessions, this`cache, this`trace
      ensures Valid() && versions == old(versions) && sessions == old(sessions)
      ensures trace.history == old(trace).history && trace.clock == now
      ensures InForce(JoinRows(grants, roles, sessions[sid].user), codes, now)
    {
      var session := sessions[sid];
      var key := (session.user, session.version);
      var entries := cache;
      ghost var next := BeginRequest(backstop, trace, sid, now, rid);
      if key in cache && now < cache[key].expiresAt {
        codes := cache[key].codes;
        next := Found(backstop, next, rid);
      } else {
        var boundary;
        codes, boundary := LoadPermissionEntry(JoinRows(grants, roles, session.user), now);
        assert UserAgrees(grants, roles, versions, trace, session.user);
        entries := cache[key := Entry(codes, CacheExpiry(backstop, boundary, now), now, now)];
        next := LoadAndStore(backstop, next, rid, boundary);
      }
      AnswerIsInForce(backstop, grants, roles, versions, next, rid);
      Install(versions, sessions, entries, next);
    }
  }

  /** A lookup that hits decides the request on the entry. */
  lemma Found(backstop: int, s: State, rid: RequestId) returns (found: State)
    requires Inv(backstop, s) && Enabled(s, Lookup(rid)) && Hit(s, s.requests[rid])
    ensures Inv(backstop, found)
    ensures var r := s.requests[rid];
            var e := s.cache[(r.user, r.version)];
            found == s.(requests := s.requests[rid := r.(phase := Decided(e.codes, e.loadedAt, e.storedAt, s.clock))])
  {
    StepKeepsInv(backstop, s, Lookup(rid));
    found := After(backstop, s, Lookup(rid));
  }

  /** A request with its owner's version, decided now on an entry stored as it was loaded. */
  lemma AnswerIsInForce(backstop: int, grants: Grants, roles: Roles, versions: map<User, nat>, s: State, rid: RequestId)
    requires Inv(backstop, s) && Agrees(grants, roles, versions, s)
    requires rid in s.requests && s.requests[rid].phase.Decided?
    requires var r := s.requests[rid];
             r.user in versions && r.version == versions[r.user] && r.phase.loadedAt == r.phase.storedAt
    ensures var r := s.requests[rid]; InForce(JoinRows(grants, roles, r.user), r.phase.codes, r.phase.at)
  {
    var r := s.requests[rid];
    assert UserAgrees(grants, roles, versions, s, r.user);
    TimelyIsInForce(JoinRows(grants, roles, r.user), r.phase.codes, r.phase.loadedAt, r.phase.at);
  }

  method FindGrant(grants: Grants, u: User, role: RoleId, unit: Option<int>) returns (id: nat)
    ensures id <= |grants|
    ensures id < |grants| ==> Matches(grants[id], u, role, unit)
    ensures forall i :: 0 <= i < |grants| && Matches(grants[i], u, role, unit) ==> id <= i
  {
    id := 0;
    while id < |grants| && !Matches(grants[id], u, role, unit)
      invariant id <= |grants|
      invariant forall i :: 0 <= i < id ==> !Matches(grants[i], u, role, unit)
    {
      id := id + 1;
    }
  }

  lemma BeginRequest(backstop: int, s: State, sid: SessionId, now: int, rid: RequestId) returns (begun: State)
    requires Inv(backstop, s) && sid in s.sessions && s.clock <= now && rid !in s.requests
    ensures Inv(backstop, begun) && Enabled(begun, Lookup(rid))
    ensures var r := Request(s.sessions[sid].user, s.sessions[sid].version, Started);
            begun == s.(clock := now, requests := s.requests[rid := r])
  {
    StepKeepsInv(backstop, s, Tick(now));
    var ticked := After(backstop, s, Tick(now));
    StepKeepsInv(backstop, ticked, Begin(rid, sid));
    begun := After(backstop, ticked, Begin(rid, sid));
  }

  lemma LoadAndStore(backstop: int, s: State, rid: RequestId, boundary: Option<int>) returns (stored: State)
    requires Inv(backstop, s) && Enabled(s, Lookup(rid)) && !Hit(s, s.requests[rid])
    requires IsNextEdge(Current(s, s.requests[rid].user), s.clock, boundary)
    ensures Inv(backstop, stored)
    ensures var r := s.requests[rid];
            var codes := Effective(Current(s, r.user), s.clock);
            var entry := Entry(codes, CacheExpiry(backstop, boundary, s.clock), s.clock, s.clock);
            stored == s.(requests := s.requests[rid := r.(phase := Decided(codes, s.clock, s.clock, s.clock))],
                         cache := s.cache[(r.user, r.version) := entry])
  {
    StepKeepsInv(backstop, s, Lookup(rid));
    var missed := After(backstop, s, Lookup(rid));
    StepKeepsInv(backstop, missed, Load(rid, boundary));
    var loaded := After(backstop, missed, Load(rid, boundary));
    StepKeepsInv(backstop, loaded, StoreEntry(rid));
    stored := After(backstop, loaded, StoreEntry(rid));
  }

}
