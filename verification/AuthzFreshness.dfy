/** Freshness of authorization across the database, the session store and the cache.

    A grant or revoke commits new grant rows under a new version, then stamps the live
    sessions, then drops a dead cache key; stamps run in commit order. Requests read
    their session's version, look the cache up, load from the database on a miss and
    store what they loaded. All of these steps, the clock, logins, logouts and the loss
    of any cache key interleave freely. */
module AuthzFreshness {
  import opened Collections
  import opened SessionPolicy
  import opened GrantWindows

  type User = int
  type SessionId = int
  type RequestId = int
  type Rows = seq<GrantRow>

  datatype Session = Session(user: User, version: nat)

  /** An entry, with the instants at which its codes were loaded and stored. */
  datatype Entry = Entry(codes: set<string>, expiresAt: int, loadedAt: int, storedAt: int)

  /** A request keeps the user and the version it read from its session. */
  datatype Phase =
    | Started
    | Missed
    | Loaded(codes: set<string>, boundary: Option<int>, loadedAt: int)
    | Decided(codes: set<string>, loadedAt: int, storedAt: int, at: int)

  datatype Request = Request(user: User, version: nat, phase: Phase)

  /** `history[u][v]` is what version `v` of the user's grants committed; `stamped[u]` is
      the last version whose stamp has reached the sessions. */
  datatype State = State(
    clock: int, history: map<User, seq<Rows>>, stamped: map<User, nat>, sessions: map<SessionId, Session>,
    cache: map<(User, nat), Entry>, requests: map<RequestId, Request>)

  datatype Step =
    | Tick(now: int)
    | Commit(user: User, rows: Rows)
    | Stamp(user: User)
    | DropKey(user: User, version: nat)
    | Login(sid: SessionId, user: User)
    | Logout(sid: SessionId)
    | Begin(rid: RequestId, sid: SessionId)
    | Lookup(rid: RequestId)
    | Load(rid: RequestId, boundary: Option<int>)
    | StoreEntry(rid: RequestId)

  function Current(s: State, u: User): Rows
    requires u in s.history && s.history[u] != []
  {
    s.history[u][|s.history[u]| - 1]
  }

  predicate Hit(s: State, r: Request) {
    (r.user, r.version) in s.cache && s.clock < s.cache[(r.user, r.version)].expiresAt
  }

  ghost predicate Enabled(s: State, step: Step) {
    match step
    case Tick(now) => s.clock <= now
    case Commit(u, _) => u in s.history
    case Stamp(u) => u in s.history && u in s.stamped && s.stamped[u] + 1 < |s.history[u]|
    case DropKey(_, _) => true
    case Login(sid, u) => u in s.history && s.history[u] != []
    case Logout(_) => true
    case Begin(rid, sid) => rid !in s.requests && sid in s.sessions
    case Lookup(rid) => rid in s.requests && s.requests[rid].phase.Started?
    case Load(rid, boundary) =>
      && rid in s.requests && s.requests[rid].phase.Missed?
      && s.requests[rid].user in s.history && s.history[s.requests[rid].user] != []
      && IsNextEdge(Current(s, s.requests[rid].user), s.clock, boundary)
    case StoreEntry(rid) => rid in s.requests && s.requests[rid].phase.Loaded?
  }

  function Advance(s: State, rid: RequestId, phase: Phase): State
    requires rid in s.requests
  {
    s.(requests := s.requests[rid := s.requests[rid].(phase := phase)])
  }

  ghost function After(backstop: int, s: State, step: Step): State
    requires Enabled(s, step)
  {
    match step
    case Tick(now) => s.(clock := now)
    case Commit(u, rows) => s.(history := s.history[u := s.history[u] + [rows]])
    case Stamp(u) =>
      var v := s.stamped[u] + 1;
      s.(stamped := s.stamped[u := v],
         sessions := map sid | sid in s.sessions ::
           if s.sessions[sid].user == u then Session(u, v) else s.sessions[sid])
    case DropKey(u, v) => s.(cache := s.cache - {(u, v)})
    case Login(sid, u) => s.(sessions := s.sessions[sid := Session(u, |s.history[u]| - 1)])
    case Logout(sid) => s.(sessions := s.sessions - {sid})
    case Begin(rid, sid) =>
      s.(requests := s.requests[rid := Request(s.sessions[sid].user, s.sessions[sid].version, Started)])
    case Lookup(rid) =>
      var r := s.requests[rid];
      if !Hit(s, r) then Advance(s, rid, Missed)
      else
        var e := s.cache[(r.user, r.version)];
        Advance(s, rid, Decided(e.codes, e.loadedAt, e.storedAt, s.clock))
    case Load(rid, boundary) =>
      Advance(s, rid, Loaded(Effective(Current(s, s.requests[rid].user), s.clock), boundary, s.clock))
    case StoreEntry(rid) =>
      var r := s.requests[rid];
      var entry := Entry(r.phase.codes, CacheExpiry(backstop, r.phase.boundary, s.clock), r.phase.loadedAt, s.clock);
      var decided := Decided(r.phase.codes, r.phase.loadedAt, s.clock, s.clock);
      Advance(s, rid, decided).(cache := s.cache[(r.user, r.version) := entry])
  }

  /** Every known user starts at version 0, stamped; nobody is logged in. */
  ghost predicate Init(s: State) {
    && s.stamped.Keys == s.history.Keys
    && (forall u :: u in s.history ==> |s.history[u]| == 1 && s.stamped[u] == 0)
    && s.sessions == map[] && s.cache == map[] && s.requests == map[]
  }

  ghost predicate NextAt(backstop: int, run: seq<State>, i: nat)
    requires i + 1 < |run|
  {
    exists step :: Enabled(run[i], step) && run[i + 1] == After(backstop, run[i], step)
  }

  ghost predicate IsRun(backstop: int, run: seq<State>) {
    && run != [] && Init(run[0])
    && forall i :: 0 <= i < |run| - 1 ==> NextAt(backstop, run, i)
  }

  // ---- the invariant ---------------------------------------------------------------------

  /** Loaded at `loadedAt` from the rows of version `w`, with the next edge then known. */
  ghost predicate LoadedFrom(
    versions: seq<Rows>, v: nat, codes: set<string>, boundary: Option<int>, w: nat, loadedAt: int)
  {
    v <= w < |versions| && codes == Effective(versions[w], loadedAt) && IsNextEdge(versions[w], loadedAt, boundary)
  }

  ghost predicate StoredAs(backstop: int, versions: seq<Rows>, v: nat, e: Entry, boundary: Option<int>, w: nat) {
    && LoadedFrom(versions, v, e.codes, boundary, w, e.loadedAt)
    && e.loadedAt <= e.storedAt && e.expiresAt == CacheExpiry(backstop, boundary, e.storedAt)
  }

  ghost predicate GoodEntry(backstop: int, versions: seq<Rows>, clock: int, v: nat, e: Entry) {
    e.storedAt <= clock && exists boundary, w: nat :: StoredAs(backstop, versions, v, e, boundary, w)
  }

  /** Decided on grants at least as new as version `v`, and timely for them. */
  ghost predicate DecidedSince(versions: seq<Rows>, v: nat, p: Phase)
    requires p.Decided?
  {
    exists w: nat :: v <= w < |versions| && TimelyCodes(versions[w], p.codes, p.loadedAt, p.storedAt, p.at)
  }

  ghost predicate GoodPhase(versions: seq<Rows>, clock: int, v: nat, phase: Phase) {
    match phase
    case Loaded(codes, boundary, loadedAt) =>
      loadedAt <= clock && exists w: nat :: LoadedFrom(versions, v, codes, boundary, w, loadedAt)
    case Decided(_, _, _, _) => DecidedSince(versions, v, phase)
    case _ => true
  }

  ghost predicate GoodVersions(s: State) {
    && s.stamped.Keys == s.history.Keys
    && (forall u :: u in s.history ==> s.stamped[u] < |s.history[u]|)
    && (forall sid :: sid in s.sessions ==>
          var session := s.sessions[sid];
          session.user in s.history && s.stamped[session.user] <= session.version < |s.history[session.user]|)
  }

  ghost predicate GoodCache(backstop: int, s: State) {
    forall u, v :: (u, v) in s.cache ==>
      u in s.history && GoodEntry(backstop, s.history[u], s.clock, v, s.cache[(u, v)])
  }

  ghost predicate GoodRequests(s: State) {
    forall rid :: rid in s.requests ==>
      var r := s.requests[rid];
      && r.user in s.history && r.version < |s.history[r.user]|
      && GoodPhase(s.history[r.user], s.clock, r.version, r.phase)
  }

  ghost predicate Inv(backstop: int, s: State) {
    GoodVersions(s) && GoodCache(backstop, s) && GoodRequests(s)
  }

  // ---- nothing known is lost as history grows and time passes --------------------------------

  lemma EntryStaysGood(backstop: int, versions: seq<Rows>, more: seq<Rows>, clock: int, later: int, v: nat, e: Entry)
    requires versions <= more && clock <= later && GoodEntry(backstop, versions, clock, v, e)
    ensures GoodEntry(backstop, more, later, v, e)
  {
    var boundary, w: nat :| StoredAs(backstop, versions, v, e, boundary, w);
    assert StoredAs(backstop, more, v, e, boundary, w);
  }

  lemma PhaseStaysGood(versions: seq<Rows>, more: seq<Rows>, clock: int, later: int, v: nat, phase: Phase)
    requires versions <= more && clock <= later && GoodPhase(versions, clock, v, phase)
    ensures GoodPhase(more, later, v, phase)
  {
    match phase
    case Loaded(codes, boundary, loadedAt) =>
      var w: nat :| LoadedFrom(versions, v, codes, boundary, w, loadedAt);
      assert LoadedFrom(more, v, codes, boundary, w, loadedAt);
    case Decided(codes, loadedAt, storedAt, at) =>
      var w: nat :| v <= w < |versions| && TimelyCodes(versions[w], codes, loadedAt, storedAt, at);
      assert TimelyCodes(more[w], codes, loadedAt, storedAt, at);
    case _ =>
  }

  lemma GrowthKeeps(backstop: int, s: State, s': State)
    requires GoodCache(backstop, s) && GoodRequests(s)
    requires s.clock <= s'.clock && s.cache == s'.cache && s.requests == s'.requests
    requires forall u :: u in s.history ==> u in s'.history && s.history[u] <= s'.history[u]
    ensures GoodCache(backstop, s') && GoodRequests(s')
  {
    forall u, v | (u, v) in s'.cache
      ensures u in s'.history && GoodEntry(backstop, s'.history[u], s'.clock, v, s'.cache[(u, v)])
    {
      EntryStaysGood(backstop, s.history[u], s'.history[u], s.clock, s'.clock, v, s.cache[(u, v)]);
    }
    forall rid | rid in s'.requests ensures
      var r := s'.requests[rid];
      && r.user in s'.history && r.version < |s'.history[r.user]|
      && GoodPhase(s'.history[r.user], s'.clock, r.version, r.phase)
    {
      var r := s.requests[rid];
      PhaseStaysGood(s.history[r.user], s'.history[r.user], s.clock, s'.clock, r.version, r.phase);
    }
  }

  // ---- the request steps -----------------------------------------------------------------------

  lemma LookupKeeps(backstop: int, s: State, rid: RequestId)
    requires Inv(backstop, s) && Enabled(s, Lookup(rid))
    ensures Inv(backstop, After(backstop, s, Lookup(rid)))
  {
    var r := s.requests[rid];
    if Hit(s, r) {
      var e, versions := s.cache[(r.user, r.version)], s.history[r.user];
      assert GoodEntry(backstop, versions, s.clock, r.version, e);
      var boundary, w: nat :| StoredAs(backstop, versions, r.version, e, boundary, w);
      LiveEntryIsTimely(versions[w], e.codes, backstop, e.loadedAt, boundary, e.storedAt, s.clock);
      assert DecidedSince(versions, r.version, Decided(e.codes, e.loadedAt, e.storedAt, s.clock));
    }
  }

  lemma LoadKeeps(backstop: int, s: State, rid: RequestId, boundary: Option<int>)
    requires Inv(backstop, s) && Enabled(s, Load(rid, boundary))
    ensures Inv(backstop, After(backstop, s, Load(rid, boundary)))
  {
    var r := s.requests[rid];
    var versions := s.history[r.user];
    assert LoadedFrom(versions, r.version, Effective(Current(s, r.user), s.clock), boundary, |versions| - 1, s.clock);
  }

  lemma StoreKeeps(backstop: int, s: State, rid: RequestId)
    requires Inv(backstop, s) && Enabled(s, StoreEntry(rid))
    ensures Inv(backstop, After(backstop, s, StoreEntry(rid)))
  {
    var r := s.requests[rid];
    var versions, codes, boundary, loadedAt := s.history[r.user], r.phase.codes, r.phase.boundary, r.phase.loadedAt;
    assert GoodPhase(versions, s.clock, r.version, r.phase);
    var w: nat :| LoadedFrom(versions, r.version, codes, boundary, w, loadedAt);
    var e := Entry(codes, CacheExpiry(backstop, boundary, s.clock), loadedAt, s.clock);
    assert StoredAs(backstop, versions, r.version, e, boundary, w);
    LiveEntryIsTimely(versions[w], codes, backstop, loadedAt, boundary, s.clock, s.clock);
    assert DecidedSince(versions, r.version, Decided(codes, loadedAt, s.clock, s.clock));
  }

  predicate OnlySessionsDiffer(s: State, s': State) {
    s'.history == s.history && s'.clock == s.clock && s'.cache == s.cache && s'.requests == s.requests
  }

  lemma SessionsDoNotMatter(backstop: int, s: State, s': State)
    requires GoodCache(backstop, s) && GoodRequests(s) && OnlySessionsDiffer(s, s')
    ensures GoodCache(backstop, s') && GoodRequests(s')
  {
  }

  /** Steps on the sessions alone keep their versions between the stamp and the commit. */
  lemma SessionStepKeeps(backstop: int, s: State, step: Step, s': State)
    requires Inv(backstop, s) && Enabled(s, step) && (step.Stamp? || step.Login? || step.Logout?)
    requires s' == After(backstop, s, step)
    ensures Inv(backstop, s')
  {
    SessionsDoNotMatter(backstop, s, s');
    VersionsStayGood(backstop, s, step, s');
  }

  lemma VersionsStayGood(backstop: int, s: State, step: Step, s': State)
    requires GoodVersions(s) && Enabled(s, step) && (step.Stamp? || step.Login? || step.Logout?)
    requires s' == After(backstop, s, step)
    ensures GoodVersions(s')
  {
    forall sid | sid in s'.sessions
      ensures var session := s'.sessions[sid];
              session.user in s'.history && s'.stamped[session.user] <= session.version < |s'.history[session.user]|
    {
      assert sid in s.sessions || step.Login?;
    }
  }

  lemma BeginKeeps(backstop: int, s: State, rid: RequestId, sid: SessionId)
    requires Inv(backstop, s) && Enabled(s, Begin(rid, sid))
    ensures Inv(backstop, After(backstop, s, Begin(rid, sid)))
  {
  }

  lemma DropKeyKeeps(backstop: int, s: State, u: User, v: nat)
    requires Inv(backstop, s)
    ensures Inv(backstop, After(backstop, s, DropKey(u, v)))
  {
  }

  lemma StepKeepsInv(backstop: int, s: State, step: Step)
    requires Inv(backstop, s) && Enabled(s, step)
    ensures Inv(backstop, After(backstop, s, step))
  {
    match step
    case Tick(_) => GrowthKeeps(backstop, s, After(backstop, s, step));
    case Commit(_, _) => GrowthKeeps(backstop, s, After(backstop, s, step));
    case Stamp(_) => SessionStepKeeps(backstop, s, step, After(backstop, s, step));
    case Login(_, _) => SessionStepKeeps(backstop, s, step, After(backstop, s, step));
    case Logout(_) => SessionStepKeeps(backstop, s, step, After(backstop, s, step));
    case DropKey(u, v) => DropKeyKeeps(backstop, s, u, v);
    case Begin(rid, sid) => BeginKeeps(backstop, s, rid, sid);
    case Lookup(rid) => LookupKeeps(backstop, s, rid);
    case Load(rid, boundary) => LoadKeeps(backstop, s, rid, boundary);
    case StoreEntry(rid) => StoreKeeps(backstop, s, rid);
  }

  lemma StepAt(backstop: int, run: seq<State>, i: nat) returns (step: Step)
    requires IsRun(backstop, run) && i + 1 < |run|
    ensures Enabled(run[i], step) && run[i + 1] == After(backstop, run[i], step)
  {
    assert NextAt(backstop, run, i);
    step :| Enabled(run[i], step) && run[i + 1] == After(backstop, run[i], step);
  }

  lemma NextKeepsInv(backstop: int, s: State, s': State, step: Step)
    requires Inv(backstop, s) && Enabled(s, step) && s' == After(backstop, s, step)
    ensures Inv(backstop, s')
  {
    StepKeepsInv(backstop, s, step);
  }

  lemma {:induction false} RunKeepsInv(backstop: int, run: seq<State>, i: nat)
    requires IsRun(backstop, run) && i < |run|
    ensures Inv(backstop, run[i])
  {
    if i == 0 {
    } else {
      RunKeepsInv(backstop, run, i - 1);
      var step := StepAt(backstop, run, i - 1);
      NextKeepsInv(backstop, run[i - 1], run[i], step);
    }
  }

  /** A cache entry under version `v` was loaded from a committed state of version at
      least `v`, in every reachable state. */
  lemma CachedAtLeastAsNew(backstop: int, run: seq<State>, i: nat, u: User, v: nat)
    requires IsRun(backstop, run) && i < |run| && (u, v) in run[i].cache
    ensures u in run[i].history
    ensures var e := run[i].cache[(u, v)];
            && e.loadedAt <= e.storedAt <= run[i].clock
            && exists w: nat :: v <= w < |run[i].history[u]| && e.codes == Effective(run[i].history[u][w], e.loadedAt)
  {
    RunKeepsInv(backstop, run, i);
    var s := run[i];
    assert GoodEntry(backstop, s.history[u], s.clock, v, s.cache[(u, v)]);
    var boundary, w: nat :| StoredAs(backstop, s.history[u], v, s.cache[(u, v)], boundary, w);
  }

  // ---- a stamped change takes effect ------------------------------------------------------------

  lemma StepKeepsRequest(backstop: int, s: State, step: Step, rid: RequestId)
    requires Enabled(s, step) && rid in s.requests
    ensures rid in After(backstop, s, step).requests
    ensures var r, r' := s.requests[rid], After(backstop, s, step).requests[rid];
            r'.user == r.user && r'.version == r.version
  {
  }

  lemma {:induction false} StampsStay(backstop: int, run: seq<State>, i: nat, j: nat, u: User)
    requires IsRun(backstop, run) && i <= j < |run| && u in run[i].stamped
    ensures u in run[j].stamped && run[i].stamped[u] <= run[j].stamped[u]
    decreases j - i
  {
    if i < j {
      StampsStay(backstop, run, i, j - 1, u);
      var step := StepAt(backstop, run, j - 1);
    }
  }

  lemma {:induction false} RequestsKeepVersion(backstop: int, run: seq<State>, j: nat, k: nat, rid: RequestId)
    requires IsRun(backstop, run) && j <= k < |run| && rid in run[j].requests
    ensures rid in run[k].requests
    ensures run[k].requests[rid].user == run[j].requests[rid].user
    ensures run[k].requests[rid].version == run[j].requests[rid].version
    decreases k - j
  {
    if j < k {
      RequestsKeepVersion(backstop, run, j, k - 1, rid);
      var step := StepAt(backstop, run, k - 1);
      StepKeepsRequest(backstop, run[k - 1], step, rid);
    }
  }

  ghost predicate InForceOrJustLate(rows: Rows, p: Phase)
    requires p.Decided?
  {
    || p.codes == Effective(rows, p.at)
    || (&& p.codes == Effective(rows, p.loadedAt) && p.loadedAt <= p.storedAt <= p.at < p.storedAt + TICKS
        && exists edge :: IsEdge(rows, p.loadedAt, edge) && 0 <= p.at - edge < TICKS + (p.storedAt - p.loadedAt))
  }

  /** Once version `n` has been stamped, every request that starts later is decided, from
      the cache or the database, on grants `w` at least as new as version `n`. Its codes are
      those in force under them when it is decided, or a window edge has passed since they
      were loaded, less than a second (and the time from loading to storing) before. */
  lemma StampedChangeTakesEffect(
    backstop: int, run: seq<State>, i: nat, j: nat, k: nat, rid: RequestId, sid: SessionId, n: nat)
    requires IsRun(backstop, run) && i <= j < k < |run|
    requires Enabled(run[j], Begin(rid, sid)) && run[j + 1] == After(backstop, run[j], Begin(rid, sid))
    requires var u := run[j].sessions[sid].user; u in run[i].stamped && n <= run[i].stamped[u]
    requires rid in run[k].requests && run[k].requests[rid].phase.Decided?
    ensures var r := run[k].requests[rid];
            && r.user == run[j].sessions[sid].user && r.user in run[k].history
            && var versions := run[k].history[r.user];
               exists w: nat :: n <= w < |versions| && InForceOrJustLate(versions[w], r.phase)
  {
    var u := run[j].sessions[sid].user;
    RunKeepsInv(backstop, run, j);
    RunKeepsInv(backstop, run, k);
    StampsStay(backstop, run, i, j, u);
    RequestsKeepVersion(backstop, run, j + 1, k, rid);
    var r := run[k].requests[rid];
    assert n <= r.version && GoodPhase(run[k].history[u], run[k].clock, r.version, r.phase);
    var p := r.phase;
    var w: nat :| r.version <= w < |run[k].history[u]|
      && TimelyCodes(run[k].history[u][w], p.codes, p.loadedAt, p.storedAt, p.at);
  }

  /** What one request stores answers the next one of the same user and version, for as long as the
      entry lives: that one does not load, and it is told how old its codes are. */
  lemma StoredAnswersTheNext(backstop: int, s: State, first: RequestId, next: RequestId, later: int)
    requires Enabled(s, StoreEntry(first)) && next in s.requests && s.requests[next].phase.Started?
    requires s.requests[next].user == s.requests[first].user && s.requests[next].version == s.requests[first].version
    requires s.clock <= later < CacheExpiry(backstop, s.requests[first].phase.boundary, s.clock)
    ensures var stored := After(backstop, s, StoreEntry(first));
            && Enabled(stored, Tick(later)) && Enabled(After(backstop, stored, Tick(later)), Lookup(next))
            && var asked := After(backstop, After(backstop, stored, Tick(later)), Lookup(next));
               && next in asked.requests
               && asked.requests[next].phase
                  == Decided(s.requests[first].phase.codes, s.requests[first].phase.loadedAt, s.clock, later)
  {
  }
}
