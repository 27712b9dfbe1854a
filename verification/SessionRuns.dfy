/** What every run of session-store operations keeps. */
module SessionRuns {
  import opened Collections
  import opened SessionPolicy
  import opened SessionStore

  datatype Op =
    | Login(sid: Sid, user: UserId, version: int, roles: seq<string>, flags: (bool, bool, bool))
    | Get(sid: Sid)
    | Touch(sid: Sid)
    | Rotate(sid: Sid, newSid: Sid, overrides: Overrides)
    | Destroy(sid: Sid, owner: Option<UserId>)
    | DestroyAll(user: UserId, exempt: Option<Sid>)
    | Stamp(user: UserId, version: int)
    | Prune(user: UserId)

  /** A newly drawn token is one the store has never heard of. */
  predicate Fresh(s: Store, sid: Sid) {
    sid !in s.hashes && forall u :: u in s.index ==> sid !in s.index[u].members
  }

  predicate Enabled(s: Store, op: Op) {
    match op
    case Login(sid, _, _, _, _) => Fresh(s, sid)
    case Rotate(_, newSid, _) => Fresh(s, newSid)
    case _ => true
  }

  ghost function Apply(cfg: Settings, s: Store, op: Op, now: int): Store {
    match op
    case Login(sid, user, version, roles, flags) => Created(cfg, s, sid, user, version, roles, flags, now)
    case Get(sid) => Read(cfg, s, sid, now)
    case Touch(sid) => Touched(cfg, s, sid, now)
    case Rotate(sid, newSid, o) => Rotated(cfg, s, sid, newSid, o, now)
    case Destroy(sid, user) => Destroyed(s, sid, user, now)
    case DestroyAll(user, exempt) => DestroyedAll(s, user, exempt, now)
    case Stamp(user, version) => Stamped(s, user, version, now)
    case Prune(user) => Pruned(s, user, now)
  }

  // ---- the invariant --------------------------------------------------------------------

  /** The session is in its owner's index, scored by creation, and the index outlives it. */
  ghost predicate Indexed(cfg: Settings, s: Store, sid: Sid)
    requires sid in s.hashes
  {
    var rec := s.hashes[sid].rec;
    && rec.userId in s.index && sid in s.index[rec.userId].members
    && s.index[rec.userId].members[sid] == rec.createdAt
    && AbsoluteExpiry(cfg, rec.createdAt) <= s.index[rec.userId].expiresAt
  }

  ghost predicate LiveAreIndexed(cfg: Settings, s: Store, now: int) {
    forall sid :: sid in s.hashes && Exists(s, sid, now) ==>
      && s.hashes[sid].rec.createdAt <= now
      && (now < AbsoluteExpiry(cfg, s.hashes[sid].rec.createdAt) ==> Indexed(cfg, s, sid))
  }

  ghost predicate IndexHoldsOwn(s: Store, now: int) {
    forall u, sid :: u in s.index && sid in s.index[u].members && Exists(s, sid, now) ==> s.hashes[sid].rec.userId == u
  }

  ghost predicate UnderCap(cfg: Settings, s: Store) {
    cfg.maxConcurrent >= 1 ==> forall u :: u in s.index ==> |s.index[u].members| <= cfg.maxConcurrent
  }

  ghost predicate Inv(cfg: Settings, s: Store, now: int) {
    LiveAreIndexed(cfg, s, now) && IndexHoldsOwn(s, now) && UnderCap(cfg, s)
  }

  lemma TimePasses(cfg: Settings, s: Store, before: int, now: int)
    requires Inv(cfg, s, before) && before <= now
    ensures Inv(cfg, s, now)
  {
    forall sid | sid in s.hashes && Exists(s, sid, now)
      ensures s.hashes[sid].rec.createdAt <= now
      ensures now < AbsoluteExpiry(cfg, s.hashes[sid].rec.createdAt) ==> Indexed(cfg, s, sid)
    {
      assert Exists(s, sid, before);
    }
  }

  ghost predicate PartOf(part: map<Sid, int>, whole: map<Sid, int>) {
    forall sid :: sid in part ==> sid in whole && part[sid] == whole[sid]
  }

  /** Unindexing drops members of one index, and with the last one the index. */
  lemma UnindexedShape(s: Store, user: UserId, sids: set<Sid>, now: int, s': Store)
    requires s' == Unindexed(s, user, sids, now)
    ensures s'.hashes == s.hashes
    ensures forall u :: u in s'.index ==>
              && u in s.index && s'.index[u].expiresAt == s.index[u].expiresAt
              && PartOf(s'.index[u].members, s.index[u].members)
    ensures forall u, sid :: u in s.index && sid in s.index[u].members && (u != user || sid !in sids) ==>
              u in s'.index && sid in s'.index[u].members
  {
    if user in s.index {
      var rest := s.index[user].members - sids;
      forall sid | sid in s.index[user].members && sid !in sids ensures rest != map[] {
        assert sid in rest;
      }
    }
  }

  lemma UnindexedKeeps(cfg: Settings, s: Store, user: UserId, sids: set<Sid>, now: int)
    requires Inv(cfg, s, now)
    requires forall sid :: sid in sids && sid in Members(s, user, now) ==> !Exists(s, sid, now)
    ensures Inv(cfg, Unindexed(s, user, sids, now), now)
  {
    var s' := Unindexed(s, user, sids, now);
    UnindexedShape(s, user, sids, now, s');
    if cfg.maxConcurrent >= 1 {
      forall u | u in s'.index ensures |s'.index[u].members| <= cfg.maxConcurrent {
        SubsetSize(s'.index[u].members.Keys, s.index[u].members.Keys);
      }
    }
    if s' != s {
      forall sid | sid in s'.hashes && Exists(s', sid, now) && now < AbsoluteExpiry(cfg, s'.hashes[sid].rec.createdAt)
        ensures Indexed(cfg, s', sid)
      {
        assert Indexed(cfg, s, sid);
      }
    }
  }

  lemma RemovedKeeps(cfg: Settings, s: Store, user: UserId, sids: set<Sid>, now: int)
    requires Inv(cfg, s, now)
    ensures Inv(cfg, Removed(s, user, sids, now), now)
  {
    var d := s.(hashes := s.hashes - sids);
    assert Inv(cfg, d, now);
    UnindexedKeeps(cfg, d, user, sids, now);
  }

  lemma PrunedKeeps(cfg: Settings, s: Store, user: UserId, now: int)
    requires Inv(cfg, s, now)
    ensures Inv(cfg, Pruned(s, user, now), now)
    ensures Pruned(s, user, now).hashes == s.hashes
  {
    UnindexedKeeps(cfg, s, user, (set sid | sid in Members(s, user, now) && !Exists(s, sid, now)), now);
  }

  lemma TouchedKeeps(cfg: Settings, s: Store, sid: Sid, now: int)
    requires Inv(cfg, s, now)
    ensures Inv(cfg, Touched(cfg, s, sid, now), now)
  {
    if Readable(cfg, s, sid, now) {
      var s' := Touched(cfg, s, sid, now);
      forall x | x in s'.hashes && Exists(s', x, now)
        ensures Exists(s, x, now) && s'.hashes[x].rec.createdAt == s.hashes[x].rec.createdAt
                && s'.hashes[x].rec.userId == s.hashes[x].rec.userId
      {
      }
    } else if Exists(s, sid, now) {
      RemovedKeeps(cfg, s, s.hashes[sid].rec.userId, {sid}, now);
    }
  }

  lemma StampedKeeps(cfg: Settings, s: Store, user: UserId, version: int, now: int)
    requires Inv(cfg, s, now)
    ensures Inv(cfg, Stamped(s, user, version, now), now)
  {
    PrunedKeeps(cfg, s, user, now);
    var p, s' := Pruned(s, user, now), Stamped(s, user, version, now);
    forall x | x in s'.hashes && Exists(s', x, now)
      ensures Exists(p, x, now) && s'.hashes[x].rec.createdAt == p.hashes[x].rec.createdAt
              && s'.hashes[x].rec.userId == p.hashes[x].rec.userId
    {
    }
  }

  /** `s'` has the hash `h` under `newSid` in the place of `sid`, in the hashes and in its owner's index. */
  ghost predicate Replaces(s: Store, s': Store, sid: Sid, newSid: Sid, h: HashKey) {
    && sid in s.hashes && h.rec.userId in s.index && sid in s.index[h.rec.userId].members
    && s'.hashes == s.hashes[newSid := h] - {sid}
    && var key := s.index[h.rec.userId];
       s'.index == s.index[h.rec.userId := key.(members := key.members[newSid := h.rec.createdAt] - {sid})]
  }

  lemma RotationReplaces(cfg: Settings, s: Store, sid: Sid, newSid: Sid, o: Overrides, now: int)
    requires Inv(cfg, s, now) && Fresh(s, newSid) && Readable(cfg, s, sid, now)
    ensures var h := Hashed(cfg, Overridden(s.hashes[sid].rec, o), now);
            Replaces(s, Rotated(cfg, s, sid, newSid, o, now), sid, newSid, h)
  {
    var rec := s.hashes[sid].rec;
    assert Indexed(cfg, s, sid) && Members(s, rec.userId, now) == s.index[rec.userId].members;
    assert newSid in s.index[rec.userId].members[newSid := rec.createdAt] - {sid};
  }

  lemma ReplacingKeepsLive(cfg: Settings, s: Store, s': Store, sid: Sid, newSid: Sid, h: HashKey, now: int)
    requires Inv(cfg, s, now) && Fresh(s, newSid) && Replaces(s, s', sid, newSid, h)
    requires Exists(s, sid, now) && now < AbsoluteExpiry(cfg, s.hashes[sid].rec.createdAt)
    requires h.rec.createdAt == s.hashes[sid].rec.createdAt && h.rec.userId == s.hashes[sid].rec.userId
    ensures LiveAreIndexed(cfg, s', now) && IndexHoldsOwn(s', now)
  {
    assert Indexed(cfg, s, sid);
    forall x | x in s'.hashes && x != newSid ensures x in s.hashes && s'.hashes[x] == s.hashes[x] && x != sid {
    }
  }

  lemma RotatedKeeps(cfg: Settings, s: Store, sid: Sid, newSid: Sid, o: Overrides, now: int, s': Store)
    requires Inv(cfg, s, now) && Fresh(s, newSid) && s' == Rotated(cfg, s, sid, newSid, o, now)
    ensures Inv(cfg, s', now)
  {
    if Readable(cfg, s, sid, now) {
      var h := Hashed(cfg, Overridden(s.hashes[sid].rec, o), now);
      RotationReplaces(cfg, s, sid, newSid, o, now);
      ReplacingKeepsLive(cfg, s, s', sid, newSid, h, now);
    } else if Exists(s, sid, now) {
      RemovedKeeps(cfg, s, s.hashes[sid].rec.userId, {sid}, now);
    }
  }

  lemma EvictedKeeps(cfg: Settings, p: Store, user: UserId, now: int, c: Store)
    requires cfg.maxConcurrent >= 1 && Inv(cfg, p, now) && c == Evicted(cfg, p, user, now)
    ensures Inv(cfg, c, now)
  {
    var members := Members(p, user, now);
    if cfg.capPolicy == RejectWhenFull || |members| < cfg.maxConcurrent {
      assert c == p;
    } else {
      var doomed := Oldest(members, |members| - (cfg.maxConcurrent - 1));
      RemovedKeeps(cfg, p, user, doomed, now);
      assert c == Removed(p, user, doomed, now);
    }
  }

  lemma CappedKeeps(cfg: Settings, s: Store, user: UserId, now: int, c: Store)
    requires Inv(cfg, s, now) && c == Capped(cfg, s, user, now)
    ensures Inv(cfg, c, now)
  {
    if cfg.maxConcurrent >= 1 {
      PrunedKeeps(cfg, s, user, now);
      EvictedKeeps(cfg, Pruned(s, user, now), user, now, c);
    }
  }

  lemma CappedStaysFresh(cfg: Settings, s: Store, user: UserId, now: int, x: Sid)
    requires Fresh(s, x)
    ensures Fresh(Capped(cfg, s, user, now), x)
  {
  }

  lemma AddedKeepsIndexed(cfg: Settings, s: Store, sid: Sid, rec: Record, now: int)
    requires LiveAreIndexed(cfg, s, now) && Fresh(s, sid) && rec.createdAt == now
    ensures LiveAreIndexed(cfg, Added(cfg, s, sid, rec, now), now)
  {
    var s' := Added(cfg, s, sid, rec, now);
    forall x | x in s'.hashes && Exists(s', x, now)
      ensures s'.hashes[x].rec.createdAt <= now
      ensures now < AbsoluteExpiry(cfg, s'.hashes[x].rec.createdAt) ==> Indexed(cfg, s', x)
    {
      if x != sid {
        assert s'.hashes[x] == s.hashes[x] && Exists(s, x, now);
      }
    }
  }

  lemma AddedKeepsRest(cfg: Settings, s: Store, sid: Sid, rec: Record, now: int)
    requires IndexHoldsOwn(s, now) && UnderCap(cfg, s) && Fresh(s, sid)
    requires cfg.maxConcurrent >= 1 ==> |Members(s, rec.userId, now)| < cfg.maxConcurrent
    ensures IndexHoldsOwn(Added(cfg, s, sid, rec, now), now) && UnderCap(cfg, Added(cfg, s, sid, rec, now))
  {
    var s' := Added(cfg, s, sid, rec, now);
    assert s'.index[rec.userId].members.Keys == Members(s, rec.userId, now).Keys + {sid};
    forall u, x | u in s'.index && x in s'.index[u].members && Exists(s', x, now) ensures s'.hashes[x].rec.userId == u {
      if x != sid {
        assert s'.hashes[x] == s.hashes[x] && Exists(s, x, now) && x in s.index[u].members;
      }
    }
  }

  lemma CreatedKeeps(
    cfg: Settings, s: Store, sid: Sid, user: UserId, version: int, roles: seq<string>, flags: (bool, bool, bool),
    now: int)
    requires Inv(cfg, s, now) && Fresh(s, sid)
    ensures Inv(cfg, Created(cfg, s, sid, user, version, roles, flags, now), now)
  {
    CappedKeeps(cfg, s, user, now, Capped(cfg, s, user, now));
    if !CapReached(cfg, s, user, now) {
      var c := Capped(cfg, s, user, now);
      CappedStaysFresh(cfg, s, user, now, sid);
      AddedKeepsIndexed(cfg, c, sid, NewRecord(user, version, roles, flags, now), now);
      AddedKeepsRest(cfg, c, sid, NewRecord(user, version, roles, flags, now), now);
    }
  }

  lemma StepKeeps(cfg: Settings, s: Store, op: Op, before: int, now: int)
    requires Inv(cfg, s, before) && before <= now && Enabled(s, op)
    ensures Inv(cfg, Apply(cfg, s, op, now), now)
  {
    TimePasses(cfg, s, before, now);
    match op
    case Login(sid, user, version, roles, flags) => CreatedKeeps(cfg, s, sid, user, version, roles, flags, now);
    case Get(sid) =>
      if Exists(s, sid, now) {
        RemovedKeeps(cfg, s, s.hashes[sid].rec.userId, {sid}, now);
      }
    case Touch(sid) => TouchedKeeps(cfg, s, sid, now);
    case Rotate(sid, newSid, o) => RotatedKeeps(cfg, s, sid, newSid, o, now, Rotated(cfg, s, sid, newSid, o, now));
    case Destroy(sid, user) =>
      if user.Some? {
        RemovedKeeps(cfg, s, user.value, {sid}, now);
      } else if Exists(s, sid, now) {
        RemovedKeeps(cfg, s, s.hashes[sid].rec.userId, {sid}, now);
      }
    case DestroyAll(user, exempt) =>
      RemovedKeeps(cfg, s, user, Members(s, user, now).Keys - (if exempt.Some? then {exempt.value} else {}), now);
    case Stamp(user, version) => StampedKeeps(cfg, s, user, version, now);
    case Prune(user) => PrunedKeeps(cfg, s, user, now);
  }

  // ---- runs -------------------------------------------------------------------------------

  datatype Event = Event(op: Op, at: int)

  ghost function After(cfg: Settings, run: seq<Event>): Store {
    if run == [] then Store(map[], map[])
    else Apply(cfg, After(cfg, run[..|run| - 1]), run[|run| - 1].op, run[|run| - 1].at)
  }

  /** The clock never goes back, and tokens are drawn fresh. */
  ghost predicate IsRun(cfg: Settings, run: seq<Event>) {
    run != [] ==>
      var before, last := run[..|run| - 1], run[|run| - 1];
      && IsRun(cfg, before) && Enabled(After(cfg, before), last.op)
      && (before != [] ==> before[|before| - 1].at <= last.at)
  }

  ghost predicate Follows(run: seq<Event>, now: int) {
    run != [] ==> run[|run| - 1].at <= now
  }

  lemma {:induction false} RunKeepsInv(cfg: Settings, run: seq<Event>, now: int)
    requires IsRun(cfg, run) && Follows(run, now)
    ensures Inv(cfg, After(cfg, run), now)
    decreases |run|
  {
    if run != [] {
      var before, last := run[..|run| - 1], run[|run| - 1];
      RunKeepsInv(cfg, before, last.at);
      StepKeeps(cfg, After(cfg, before), last.op, last.at, last.at);
      TimePasses(cfg, After(cfg, run), last.at, now);
    }
  }

  /** In every reachable store a readable session is in its owner's live index, scored by
      its creation, and no index exceeds the cap. */
  lemma ReadableAreIndexed(cfg: Settings, run: seq<Event>, now: int)
    requires IsRun(cfg, run) && Follows(run, now)
    ensures var s := After(cfg, run);
            forall sid :: Readable(cfg, s, sid, now) ==>
              var rec := s.hashes[sid].rec;
              sid in Members(s, rec.userId, now) && Members(s, rec.userId, now)[sid] == rec.createdAt
    ensures cfg.maxConcurrent >= 1 ==> forall user :: |Members(After(cfg, run), user, now)| <= cfg.maxConcurrent
  {
    RunKeepsInv(cfg, run, now);
    var s := After(cfg, run);
    forall sid | Readable(cfg, s, sid, now)
      ensures sid in Members(s, s.hashes[sid].rec.userId, now)
      ensures Members(s, s.hashes[sid].rec.userId, now)[sid] == s.hashes[sid].rec.createdAt
    {
      assert Indexed(cfg, s, sid);
    }
  }

  /** Revoke-all leaves the user no readable session but the exempted one, and touches
      nobody else's. */
  lemma RevokeAllRevokes(cfg: Settings, s: Store, user: UserId, exempt: Option<Sid>, now: int)
    requires Inv(cfg, s, now)
    ensures var s' := DestroyedAll(s, user, exempt, now);
            && (forall sid :: Readable(cfg, s', sid, now) && s'.hashes[sid].rec.userId == user ==> exempt == Some(sid))
            && (forall sid :: Readable(cfg, s, sid, now) && (s.hashes[sid].rec.userId != user || exempt == Some(sid))
                  ==> sid in s'.hashes && s'.hashes[sid] == s.hashes[sid])
  {
    var s' := DestroyedAll(s, user, exempt, now);
    forall sid | Readable(cfg, s', sid, now) && s'.hashes[sid].rec.userId == user ensures exempt == Some(sid) {
      assert Readable(cfg, s, sid, now) && Indexed(cfg, s, sid);
    }
  }

  /** A stamp reaches every readable session of the user, and changes nothing else about
      any session. */
  lemma StampReachesAll(cfg: Settings, s: Store, user: UserId, version: int, now: int)
    requires Inv(cfg, s, now)
    ensures var s' := Stamped(s, user, version, now);
            forall sid :: Readable(cfg, s, sid, now) ==>
              && sid in s'.hashes && s'.hashes[sid].expiresAt == s.hashes[sid].expiresAt
              && s'.hashes[sid].rec == if s.hashes[sid].rec.userId == user
                                       then s.hashes[sid].rec.(permissionsVersion := version) else s.hashes[sid].rec
  {
    PrunedKeeps(cfg, s, user, now);
    var p := Pruned(s, user, now);
    forall sid | Readable(cfg, s, sid, now)
      ensures Exists(p, sid, now) && (sid in Members(p, user, now) <==> s.hashes[sid].rec.userId == user)
    {
      assert Readable(cfg, p, sid, now) && Indexed(cfg, p, sid);
    }
  }

  /** The store itself does not order stamps: a stamp that arrives late takes a session back
      to the older version. Stamping in commit order is what the callers must see to. */
  lemma LateStampGoesBack(cfg: Settings, s: Store, user: UserId, newer: int, older: int, sid: Sid, now: int)
    requires Inv(cfg, s, now) && older < newer && Readable(cfg, s, sid, now) && s.hashes[sid].rec.userId == user
    ensures var s' := Stamped(Stamped(s, user, newer, now), user, older, now);
            sid in s'.hashes && s'.hashes[sid].rec.permissionsVersion == older
  {
    StampReachesAll(cfg, s, user, newer, now);
    StampedKeeps(cfg, s, user, newer, now);
    StampReachesAll(cfg, Stamped(s, user, newer, now), user, older, now);
  }

  lemma EvictionTakesOldest(cfg: Settings, p: Store, user: UserId, now: int, c: Store) returns (doomed: set<Sid>)
    requires cfg.maxConcurrent >= 1 && cfg.capPolicy == EvictOldest && c == Evicted(cfg, p, user, now)
    ensures AreOldest(Members(p, user, now), Max(0, |Members(p, user, now)| - (cfg.maxConcurrent - 1)), doomed)
    ensures c.hashes == p.hashes - doomed && Members(c, user, now) == Members(p, user, now) - doomed
  {
    var live := Members(p, user, now);
    if |live| < cfg.maxConcurrent {
      doomed := {};
      assert live - doomed == live && p.hashes - doomed == p.hashes;
    } else {
      doomed := Oldest(live, |live| - (cfg.maxConcurrent - 1));
    }
  }

  /** Making room under evict-oldest removes a set of sessions that is exactly the oldest
      surplus of the user's live ones, and nothing else. */
  lemma MakingRoomEvictsOldest(cfg: Settings, s: Store, user: UserId, now: int) returns (doomed: set<Sid>)
    requires cfg.maxConcurrent >= 1 && cfg.capPolicy == EvictOldest
    ensures var live := Members(Pruned(s, user, now), user, now);
            var c := Capped(cfg, s, user, now);
            && AreOldest(live, Max(0, |live| - (cfg.maxConcurrent - 1)), doomed)
            && c.hashes == s.hashes - doomed
            && Members(c, user, now) == live - doomed
  {
    doomed := EvictionTakesOldest(cfg, Pruned(s, user, now), user, now, Capped(cfg, s, user, now));
  }

  /** A login therefore ends with its own session and the newest of the others. */
  lemma LoginEvictsOldestSurplus(
    cfg: Settings, s: Store, sid: Sid, user: UserId, version: int, roles: seq<string>, flags: (bool, bool, bool),
    now: int)
    returns (doomed: set<Sid>)
    requires Fresh(s, sid) && cfg.maxConcurrent >= 1 && cfg.capPolicy == EvictOldest && cfg.absoluteSeconds > 0
    ensures var live := Members(Pruned(s, user, now), user, now);
            var s' := Created(cfg, s, sid, user, version, roles, flags, now);
            && AreOldest(live, Max(0, |live| - (cfg.maxConcurrent - 1)), doomed)
            && s'.hashes == (s.hashes - doomed)[sid := Hashed(cfg, NewRecord(user, version, roles, flags, now), now)]
            && Members(s', user, now) == (live - doomed)[sid := now]
  {
    doomed := MakingRoomEvictsOldest(cfg, s, user, now);
  }

  // ---- lifetimes ------------------------------------------------------------------------------

  /** When the login happened that `sid`, or a session it was rotated from, goes back to. */
  ghost function Origin(run: seq<Event>, sid: Sid): Option<int>
    decreases |run|
  {
    if run == [] then None
    else
      var before, last := run[..|run| - 1], run[|run| - 1];
      match last.op
      case Login(s, _, _, _, _) => if s == sid then Some(last.at) else Origin(before, sid)
      case Rotate(from, to, _) => if to == sid then Origin(before, from) else Origin(before, sid)
      case _ => Origin(before, sid)
  }

  /** The last login or touch of `sid`, or of a session it was rotated from. */
  ghost function LastActive(run: seq<Event>, sid: Sid): Option<int>
    decreases |run|
  {
    if run == [] then None
    else
      var before, last := run[..|run| - 1], run[|run| - 1];
      match last.op
      case Login(s, _, _, _, _) => if s == sid then Some(last.at) else LastActive(before, sid)
      case Touch(s) => if s == sid then Some(last.at) else LastActive(before, sid)
      case Rotate(from, to, _) => if to == sid then LastActive(before, from) else LastActive(before, sid)
      case _ => LastActive(before, sid)
  }

  /** No hash of `s'` differs from what it was in `s`. */
  ghost predicate Shrunk(s: Store, s': Store) {
    forall sid :: sid in s'.hashes ==> sid in s.hashes && s'.hashes[sid] == s.hashes[sid]
  }

  lemma RemovalShrinks(s: Store, user: UserId, sids: set<Sid>, now: int)
    ensures Shrunk(s, Removed(s, user, sids, now)) && Unindexed(s, user, sids, now).hashes == s.hashes
  {
  }

  lemma CappingShrinks(cfg: Settings, s: Store, user: UserId, now: int, c: Store)
    requires c == Capped(cfg, s, user, now)
    ensures Shrunk(s, c)
  {
    var p := Pruned(s, user, now);
    var members := Members(p, user, now);
    RemovalShrinks(s, user, (set sid | sid in Members(s, user, now) && !Exists(s, sid, now)), now);
    if cfg.maxConcurrent >= 1 && cfg.capPolicy == EvictOldest && |members| >= cfg.maxConcurrent {
      RemovalShrinks(p, user, Oldest(members, |members| - (cfg.maxConcurrent - 1)), now);
    }
  }

  lemma ReadingShrinks(cfg: Settings, s: Store, sid: Sid, now: int)
    ensures Shrunk(s, Read(cfg, s, sid, now))
  {
    if Exists(s, sid, now) {
      RemovalShrinks(s, s.hashes[sid].rec.userId, {sid}, now);
    }
  }

  /** A rotation leaves the other hashes, and moves one to the new id. */
  lemma RotatingShrinks(cfg: Settings, s: Store, op: Op, now: int)
    requires op.Rotate?
    ensures var s' := Apply(cfg, s, op, now);
            forall x :: x in s'.hashes ==>
              || (x in s.hashes && s'.hashes[x] == s.hashes[x])
              || (x == op.newSid && Readable(cfg, s, op.sid, now)
                  && s'.hashes[x] == Hashed(cfg, Overridden(s.hashes[op.sid].rec, op.overrides), now))
  {
    ReadingShrinks(cfg, s, op.sid, now);
  }

  lemma RemovingStep(cfg: Settings, s: Store, op: Op, now: int, s': Store)
    requires s' == Apply(cfg, s, op, now) && (op.Get? || op.Destroy? || op.DestroyAll? || op.Prune?)
    ensures Shrunk(s, s')
  {
    match op
    case Get(sid) => ReadingShrinks(cfg, s, sid, now);
    case Destroy(sid, user) =>
      if user.Some? {
        RemovalShrinks(s, user.value, {sid}, now);
      }
    case DestroyAll(user, exempt) =>
      RemovalShrinks(s, user, Members(s, user, now).Keys - (if exempt.Some? then {exempt.value} else {}), now);
    case Prune(user) =>
      RemovalShrinks(s, user, (set sid | sid in Members(s, user, now) && !Exists(s, sid, now)), now);
    case _ =>
  }

  /** Where a session that exists after an operation came from. */
  lemma StepOrigin(cfg: Settings, s: Store, op: Op, now: int, sid: Sid)
    requires Enabled(s, op) && Exists(Apply(cfg, s, op, now), sid, now)
    ensures var rec := Apply(cfg, s, op, now).hashes[sid].rec;
            match op
            case Login(x, _, _, _, _) =>
              if x == sid then rec.createdAt == rec.lastSeenAt == now
              else Exists(s, sid, now) && rec == s.hashes[sid].rec
            case Touch(x) =>
              && Exists(s, sid, now)
              && rec == if x == sid then s.hashes[sid].rec.(lastSeenAt := now) else s.hashes[sid].rec
            case Rotate(from, to, _) =>
              var old_ := if to == sid then from else sid;
              && Exists(s, old_, now) && rec.createdAt == s.hashes[old_].rec.createdAt
              && rec.lastSeenAt == s.hashes[old_].rec.lastSeenAt
            case _ =>
              && Exists(s, sid, now) && rec.createdAt == s.hashes[sid].rec.createdAt
              && rec.lastSeenAt == s.hashes[sid].rec.lastSeenAt
  {
    match op
    case Login(x, user, _, _, _) => CappingShrinks(cfg, s, user, now, Capped(cfg, s, user, now));
    case Touch(x) => ReadingShrinks(cfg, s, x, now);
    case Rotate(x, _, _) => RotatingShrinks(cfg, s, op, now);
    case Stamp(user, _) =>
      RemovalShrinks(s, user, (set x | x in Members(s, user, now) && !Exists(s, x, now)), now);
    case _ => RemovingStep(cfg, s, op, now, Apply(cfg, s, op, now));
  }

  lemma {:induction false} RecordsMatchHistory(cfg: Settings, run: seq<Event>, sid: Sid, now: int)
    requires IsRun(cfg, run) && Follows(run, now) && Exists(After(cfg, run), sid, now)
    ensures var rec := After(cfg, run).hashes[sid].rec;
            Origin(run, sid) == Some(rec.createdAt) && LastActive(run, sid) == Some(rec.lastSeenAt)
    decreases |run|
  {
    var before, last := run[..|run| - 1], run[|run| - 1];
    var s := After(cfg, before);
    StepOrigin(cfg, s, last.op, last.at, sid);
    var source := if last.op.Rotate? && last.op.newSid == sid then last.op.sid else sid;
    if Exists(s, source, last.at) {
      RecordsMatchHistory(cfg, before, source, last.at);
    }
  }

  /** No run of logins, touches, rotations, stamps and revocations keeps a session, or a
      session rotated from it, readable once its login is older than the absolute limit
      or its last activity is older than its tier's idle limit. */
  lemma SessionsDieOnTime(cfg: Settings, run: seq<Event>, sid: Sid, now: int)
    requires IsRun(cfg, run) && Follows(run, now) && Readable(cfg, After(cfg, run), sid, now)
    ensures Origin(run, sid).Some? && now < Origin(run, sid).value + cfg.absoluteSeconds * TICKS
    ensures LastActive(run, sid).Some?
    ensures now < LastActive(run, sid).value + IdleSeconds(cfg, After(cfg, run).hashes[sid].rec.tier) * TICKS
  {
    RecordsMatchHistory(cfg, run, sid, now);
  }
}
