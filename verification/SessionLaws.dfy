/** What each session operation does to the session it names, and to the others. */
module SessionLaws {
  import opened Collections
  import opened Ordering
  import opened SessionPolicy
  import opened SessionStore
  import opened SessionRuns

  // ---- policy, spelled out ----------------------------------------------------------------------

  lemma TierIsSpelledOut(roles: seq<string>)
    ensures TierFor(roles) == Privileged <==> "system_admin" in roles || "approver" in roles || "auditor" in roles
  {
  }

  /** Policy expires a record from the end of the absolute limit since its creation on, or of its
      tier's idle limit since it was last seen, whichever comes first. */
  lemma ExpiryIsSpelledOut(cfg: Settings, rec: Record, now: int)
    ensures Expired(cfg, rec, now) <==>
              || now - rec.createdAt >= cfg.absoluteSeconds * 1_000_000
              || now - rec.lastSeenAt >= 1_000_000 * match rec.tier
                                                     case Privileged => cfg.idlePrivilegedSeconds
                                                     case Staff => cfg.idleStaffSeconds
  {
  }

  /** A hash is set to live a whole number of seconds, and one at least: as long as its tier may
      idle and no longer than to its absolute limit, less than a second short of that. */
  lemma TtlIsTight(cfg: Settings, rec: Record, now: int)
    ensures var h := Hashed(cfg, rec, now);
            var limit := Min(now + IdleSeconds(cfg, rec.tier) * TICKS, rec.createdAt + cfg.absoluteSeconds * TICKS);
            && h.rec == rec && (h.expiresAt - now) % TICKS == 0 && h.expiresAt >= now + TICKS
            && limit - TICKS < h.expiresAt <= Max(limit, now + TICKS)
  {
    var left := AbsoluteExpiry(cfg, rec.createdAt) - now;
    var idle, ttl := IdleSeconds(cfg, rec.tier), TtlSeconds(cfg, rec, now);
    WholeSecondsRound(left);
    assert ttl == 1 || ttl == idle || ttl == WholeSeconds(left);
  }

  lemma WholeSecondsRound(ticks: int)
    ensures ticks >= 0 ==> ticks - TICKS < WholeSeconds(ticks) * TICKS <= ticks
    ensures ticks < 0 ==> ticks <= WholeSeconds(ticks) * TICKS <= 0
  {
  }

  // ---- removal --------------------------------------------------------------------------------------

  /** The session is in no store key, now or later. */
  ghost predicate Gone(cfg: Settings, s: Store, sid: Sid, now: int) {
    && (forall later :: now <= later ==> !Exists(s, sid, later) && !Readable(cfg, s, sid, later))
    && (forall u, later :: now <= later ==> sid !in Members(s, u, later))
  }

  /** Every hash other than those of `sids` is as it was, and so is every other entry of every
      index, now and later. */
  ghost predicate Spared(s: Store, s': Store, sids: set<Sid>, now: int) {
    && (forall x :: x !in sids ==>
          (x in s'.hashes <==> x in s.hashes) && (x in s.hashes ==> s'.hashes[x] == s.hashes[x]))
    && (forall u, x, later :: x !in sids && now <= later ==>
          && (x in Members(s', u, later) <==> x in Members(s, u, later))
          && (x in Members(s, u, later) ==> Members(s', u, later)[x] == Members(s, u, later)[x]))
  }

  lemma RemovalSpares(s: Store, user: UserId, sids: set<Sid>, now: int, s': Store)
    requires s' == Removed(s, user, sids, now)
    ensures Spared(s, s', sids, now) && forall x :: x in sids ==> x !in s'.hashes
    ensures forall x, later :: x in sids && now <= later ==> x !in Members(s', user, later)
    ensures forall u, x, later :: now <= later && x !in Members(s, u, later) ==> x !in Members(s', u, later)
  {
    var d := s.(hashes := s.hashes - sids);
    UnindexedShape(d, user, sids, now, s');
  }

  /** Logging out, with the owner given or not: the session is gone, now and later, and every
      other session is as it was. */
  lemma DestroyedIsGone(cfg: Settings, s: Store, sid: Sid, owner: Option<UserId>, now: int)
    requires Inv(cfg, s, now) && Exists(s, sid, now)
    requires owner == None || owner == Some(s.hashes[sid].rec.userId)
    ensures Gone(cfg, Destroyed(s, sid, owner, now), sid, now)
    ensures Spared(s, Destroyed(s, sid, owner, now), {sid}, now)
  {
    RemovalSpares(s, s.hashes[sid].rec.userId, {sid}, now, Destroyed(s, sid, owner, now));
  }

  /** Whatever the store, and whoever is given as the owner: the hash is gone, the index given
      does not hold the session, and the rest is as it was. */
  lemma DestroyedAnyway(cfg: Settings, s: Store, sid: Sid, owner: Option<UserId>, now: int)
    ensures var s' := Destroyed(s, sid, owner, now);
            && sid !in s'.hashes && Spared(s, s', {sid}, now)
            && (owner.Some? ==> forall later :: now <= later ==> sid !in Members(s', owner.value, later))
  {
    if owner.Some? {
      RemovalSpares(s, owner.value, {sid}, now, Destroyed(s, sid, owner, now));
    } else if Exists(s, sid, now) {
      RemovalSpares(s, s.hashes[sid].rec.userId, {sid}, now, Destroyed(s, sid, owner, now));
    }
  }

  /** Revoking all of a user's sessions but one: the revoked ones are gone, now and later, every
      other session is as it was, and the one is not among them. */
  lemma RevokedAreGone(cfg: Settings, s: Store, user: UserId, exempt: Option<Sid>, now: int)
    requires Inv(cfg, s, now)
    ensures var s' := DestroyedAll(s, user, exempt, now);
            var revoked := set x | x in Members(s, user, now) && exempt != Some(x);
            && Spared(s, s', revoked, now)
            && forall x :: x in revoked && Exists(s, x, now) ==> Gone(cfg, s', x, now)
  {
    var doomed := Members(s, user, now).Keys - (if exempt.Some? then {exempt.value} else {});
    var s' := DestroyedAll(s, user, exempt, now);
    assert doomed == set x | x in Members(s, user, now) && exempt != Some(x);
    RemovalSpares(s, user, doomed, now, s');
  }

  /** Reading leaves the store alone unless it finds a session that policy has expired; that one
      goes like a logged out one. */
  lemma ReadingRemovesExpired(cfg: Settings, s: Store, sid: Sid, now: int)
    requires Inv(cfg, s, now)
    ensures var s' := Read(cfg, s, sid, now);
            if Exists(s, sid, now) && Expired(cfg, s.hashes[sid].rec, now)
            then Gone(cfg, s', sid, now) && Spared(s, s', {sid}, now)
            else s' == s
  {
    if Exists(s, sid, now) && Expired(cfg, s.hashes[sid].rec, now) {
      RemovalSpares(s, s.hashes[sid].rec.userId, {sid}, now, Read(cfg, s, sid, now));
    }
  }

  // ---- over a run -------------------------------------------------------------------------------------

  /** A login or a rotation that draws the token. */
  predicate Draws(op: Op, sid: Sid) {
    (op.Login? && op.sid == sid) || (op.Rotate? && op.newSid == sid)
  }

  /** A logout of the session, or a rotation away from it. */
  predicate Ends(op: Op, sid: Sid) {
    (op.Destroy? || op.Rotate?) && op.sid == sid
  }

  lemma EndedIsAbsent(cfg: Settings, s: Store, op: Op, sid: Sid, now: int)
    requires Ends(op, sid)
    ensures !Exists(Apply(cfg, s, op, now), sid, now)
  {
    if op.Destroy? {
      DestroyedAnyway(cfg, s, sid, op.owner, now);
    } else if Exists(s, sid, now) && !Readable(cfg, s, sid, now) {
      RemovalSpares(s, s.hashes[sid].rec.userId, {sid}, now, Apply(cfg, s, op, now));
    }
  }

  /** In every run a session that was ended never comes back, unless its token is drawn again. */
  lemma {:induction false} EndedStaysEnded(cfg: Settings, run: seq<Event>, n: nat, sid: Sid, now: int)
    requires IsRun(cfg, run) && Follows(run, now) && n < |run| && Ends(run[n].op, sid)
    requires forall k :: n < k < |run| ==> !Draws(run[k].op, sid)
    ensures !Exists(After(cfg, run), sid, now) && !Readable(cfg, After(cfg, run), sid, now)
    decreases |run|
  {
    var before, last := run[..|run| - 1], run[|run| - 1];
    var s := After(cfg, before);
    if n == |run| - 1 {
      EndedIsAbsent(cfg, s, last.op, sid, last.at);
    } else {
      EndedStaysEnded(cfg, before, n, sid, last.at);
      if Exists(After(cfg, run), sid, last.at) {
        assert !Draws(last.op, sid);
        StepOrigin(cfg, s, last.op, last.at, sid);
      }
    }
  }

  // ---- touching and rotating ---------------------------------------------------------------------------

  /** Touching a readable session moves its last-seen instant and its expiry and nothing else, and
      leaves it readable when its limits allow; touching any other is reading it. */
  lemma TouchingSlides(cfg: Settings, s: Store, sid: Sid, now: int)
    ensures var s' := Touched(cfg, s, sid, now);
            if !Readable(cfg, s, sid, now) then s' == Read(cfg, s, sid, now)
            else
              && s'.index == s.index && Spared(s, s', {sid}, now)
              && sid in s'.hashes && s'.hashes[sid].rec == s.hashes[sid].rec.(lastSeenAt := now)
              && s'.hashes[sid] == Hashed(cfg, s'.hashes[sid].rec, now)
              && (Readable(cfg, s', sid, now) <==> IdleSeconds(cfg, s.hashes[sid].rec.tier) > 0)
  {
    if Readable(cfg, s, sid, now) {
      TtlIsTight(cfg, s.hashes[sid].rec.(lastSeenAt := now), now);
    }
  }

  /** The record of a rotated session: its owner and its instants of creation and of activity are
      kept, every other field is the one given or, if none is, the one it had; a change of roles
      without a tier decides the tier. */
  ghost predicate IsRotationOf(rec: Record, o: Overrides, rec': Record) {
    && rec'.userId == rec.userId && rec'.createdAt == rec.createdAt && rec'.lastSeenAt == rec.lastSeenAt
    && (if o.permissionsVersion.Some? then rec'.permissionsVersion == o.permissionsVersion.value
        else rec'.permissionsVersion == rec.permissionsVersion)
    && (if o.lastAuthAt.Some? then rec'.lastAuthAt == o.lastAuthAt.value else rec'.lastAuthAt == rec.lastAuthAt)
    && (if o.roles.Some? then rec'.roles == o.roles.value else rec'.roles == rec.roles)
    && (if o.tier.Some? then rec'.tier == o.tier.value
        else if o.roles.Some? then rec'.tier == TierFor(rec'.roles) else rec'.tier == rec.tier)
    && (if o.mustChangePassword.Some? then rec'.mustChangePassword == o.mustChangePassword.value
        else rec'.mustChangePassword == rec.mustChangePassword)
    && (if o.mfaSetupRequired.Some? then rec'.mfaSetupRequired == o.mfaSetupRequired.value
        else rec'.mfaSetupRequired == rec.mfaSetupRequired)
    && (if o.mfaAuthenticated.Some? then rec'.mfaAuthenticated == o.mfaAuthenticated.value
        else rec'.mfaAuthenticated == rec.mfaAuthenticated)
  }

  lemma ReplacingSpares(cfg: Settings, s: Store, s': Store, sid: Sid, newSid: Sid, h: HashKey, now: int)
    requires IndexHoldsOwn(s, now) && Exists(s, sid, now) && Replaces(s, s', sid, newSid, h)
    requires newSid != sid && h.rec.userId == s.hashes[sid].rec.userId
    ensures Gone(cfg, s', sid, now) && Spared(s, s', {sid, newSid}, now)
  {
    forall u | u in s.index && sid in s.index[u].members ensures u == h.rec.userId {
      assert s.hashes[sid].rec.userId == u;
    }
    assert forall u :: u in s'.index ==> sid !in s'.index[u].members;
    assert sid !in s'.hashes;
    forall u, x, later | x !in {sid, newSid} && now <= later
      ensures x in Members(s', u, later) <==> x in Members(s, u, later)
      ensures x in Members(s, u, later) ==> Members(s', u, later)[x] == Members(s, u, later)[x]
    {
    }
  }

  /** Rotating a readable session: the old id is gone, the new one has its record and its place in
      its owner's live index, and every other session is as it was. The new id is readable unless
      a change of tier has idled it out. */
  lemma RotationMoves(cfg: Settings, s: Store, sid: Sid, newSid: Sid, o: Overrides, now: int, s': Store)
    requires Inv(cfg, s, now) && Fresh(s, newSid) && Readable(cfg, s, sid, now)
    requires s' == Rotated(cfg, s, sid, newSid, o, now)
    ensures Gone(cfg, s', sid, now) && Spared(s, s', {sid, newSid}, now)
    ensures newSid in s'.hashes && IsRotationOf(s.hashes[sid].rec, o, s'.hashes[newSid].rec)
    ensures var rec := s'.hashes[newSid].rec;
            && s'.hashes[newSid] == Hashed(cfg, rec, now)
            && newSid in Members(s', rec.userId, now) && Members(s', rec.userId, now)[newSid] == rec.createdAt
            && (Readable(cfg, s', newSid, now) <==> now < rec.lastSeenAt + IdleSeconds(cfg, rec.tier) * TICKS)
  {
    var rec := Overridden(s.hashes[sid].rec, o);
    RotationReplaces(cfg, s, sid, newSid, o, now);
    ReplacingSpares(cfg, s, s', sid, newSid, s'.hashes[newSid], now);
    TtlIsTight(cfg, rec, now);
    assert Indexed(cfg, s, sid);
  }

  // ---- logging in ----------------------------------------------------------------------------------------

  /** Pruning drops exactly the members whose hash is gone, of this index alone. */
  lemma PruningDropsStale(s: Store, user: UserId, now: int)
    ensures var s' := Pruned(s, user, now);
            && s'.hashes == s.hashes
            && (forall u :: u != user ==> Members(s', u, now) == Members(s, u, now))
            && (forall x :: x in Members(s', user, now) <==> x in Members(s, user, now) && Exists(s, x, now))
            && (forall x :: x in Members(s', user, now) ==> Members(s', user, now)[x] == Members(s, user, now)[x])
  {
  }

  ghost function LiveSessions(s: Store, user: UserId, now: int): set<Sid> {
    set x | x in Members(s, user, now) && Exists(s, x, now)
  }

  /** A login is refused exactly when refusing is the policy and the user has as many live sessions
      as the cap; it then changes no hash. */
  lemma LoginIsRefusedWhenFull(
    cfg: Settings, s: Store, sid: Sid, user: UserId, version: int, roles: seq<string>, flags: (bool, bool, bool),
    now: int)
    requires Fresh(s, sid)
    ensures var s' := Created(cfg, s, sid, user, version, roles, flags, now);
            && (sid !in s'.hashes <==>
                  && cfg.capPolicy == RejectWhenFull && cfg.maxConcurrent >= 1
                  && |LiveSessions(s, user, now)| >= cfg.maxConcurrent)
            && (sid !in s'.hashes ==> s'.hashes == s.hashes)
  {
    PruningDropsStale(s, user, now);
    assert Members(Pruned(s, user, now), user, now).Keys == LiveSessions(s, user, now);
  }

  /** A session just made: everything about it is as given or as of now; it is readable, and in its
      owner's index at its creation, which lives as long as the session can, as long as the limits
      are positive. */
  lemma LoginMakes(
    cfg: Settings, s: Store, sid: Sid, user: UserId, version: int, roles: seq<string>, flags: (bool, bool, bool),
    now: int, s': Store)
    requires Fresh(s, sid) && s' == Created(cfg, s, sid, user, version, roles, flags, now) && sid in s'.hashes
    ensures var rec := s'.hashes[sid].rec;
            && rec.userId == user && rec.permissionsVersion == version && rec.roles == roles
            && rec.createdAt == now && rec.lastSeenAt == now && rec.lastAuthAt == now && rec.tier == TierFor(roles)
            && rec.mustChangePassword == flags.0 && rec.mfaSetupRequired == flags.1
            && rec.mfaAuthenticated == flags.2
            && s'.hashes[sid] == Hashed(cfg, rec, now)
            && (Readable(cfg, s', sid, now) <==> cfg.absoluteSeconds > 0 && IdleSeconds(cfg, rec.tier) > 0)
            && user in s'.index && s'.index[user].expiresAt == now + cfg.absoluteSeconds * 1_000_000
            && (cfg.absoluteSeconds > 0 ==> sid in Members(s', user, now) && Members(s', user, now)[sid] == now)
  {
    CappedStaysFresh(cfg, s, user, now, sid);
    TtlIsTight(cfg, NewRecord(user, version, roles, flags, now), now);
  }

  /** Of two sessions of the user, the one a login evicts is the older: it was created earlier, or
      at the same instant with the smaller token. */
  lemma EvictedAreOlder(
    cfg: Settings, s: Store, sid: Sid, user: UserId, version: int, roles: seq<string>, flags: (bool, bool, bool),
    now: int, s': Store, a: Sid, b: Sid)
    requires Inv(cfg, s, now) && Fresh(s, sid) && s' == Created(cfg, s, sid, user, version, roles, flags, now)
    requires Readable(cfg, s, a, now) && Readable(cfg, s, b, now)
    requires s.hashes[a].rec.userId == user && s.hashes[b].rec.userId == user
    requires a !in s'.hashes && b in s'.hashes
    ensures var x, y := s.hashes[a].rec.createdAt, s.hashes[b].rec.createdAt;
            x < y || (x == y && StrLe(a.token, b.token))
  {
    var c, p := Capped(cfg, s, user, now), Pruned(s, user, now);
    assert a !in c.hashes && b in c.hashes;
    PrunedKeeps(cfg, s, user, now);
    var doomed := EvictionTakesOldest(cfg, p, user, now, c);
    assert Indexed(cfg, p, a) && Indexed(cfg, p, b);
    assert Before(Members(p, user, now), a, b);
  }
}
