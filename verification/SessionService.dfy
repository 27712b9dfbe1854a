/** The session store object: its methods send Redis the commands of the source in order,
    and each is proved to do to the store what the corresponding function of `SessionStore`
    says, and to keep the invariant of every run. */
module SessionService {
  import opened Collections
  import opened SessionPolicy
  import opened SessionStore
  import opened SessionRuns
  import opened RedisKeyspace

  lemma RemovedOneMore(s: Store, user: UserId, sids: set<Sid>, sid: Sid, now: int)
    ensures Removed(Removed(s, user, sids, now), user, {sid}, now) == Removed(s, user, sids + {sid}, now)
  {
    var members := Members(s, user, now);
    assert s.hashes - sids - {sid} == s.hashes - (sids + {sid});
    assert members - sids - {sid} == members - (sids + {sid});
  }

  lemma NothingRemoved(s: Store, user: UserId, now: int)
    ensures Removed(s, user, {}, now) == s
  {
    var members := Members(s, user, now);
    assert s.hashes - {} == s.hashes && members - {} == members;
  }

  /** The queued `DEL` and `ZREM` of each sid in turn. */
  method DeleteEach(k: Keyspace, user: UserId, sids: seq<Sid>, now: int) returns (k': Keyspace)
    requires Expiring(k)
    ensures Expiring(k') && k'.store == Removed(k.store, user, (set sid | sid in sids), now)
  {
    k' := k;
    ghost var done: set<Sid> := {};
    NothingRemoved(k.store, user, now);
    for i := 0 to |sids|
      invariant Expiring(k') && done == (set sid | sid in sids[..i]) && k'.store == Removed(k.store, user, done, now)
    {
      RemovedOneMore(k.store, user, done, sids[i], now);
      k' := DeleteOne(k', user, sids[i], now);
      assert sids[..i + 1] == sids[..i] + [sids[i]];
      done := done + {sids[i]};
    }
    assert sids[..|sids|] == sids;
  }

  method DeleteOne(k: Keyspace, user: UserId, sid: Sid, now: int) returns (k': Keyspace)
    requires Expiring(k)
    ensures Expiring(k') && k'.store == Removed(k.store, user, {sid}, now)
  {
    k' := Del(k, sid);
    MembersAreRemoved(k', user, {sid}, now, ZRem(k', user, {sid}, now));
    k' := ZRem(k', user, {sid}, now);
  }

  /** `r` lists, in order, the members that are not in `rest`, all of them before `rest`. */
  ghost predicate RankedSoFar(members: map<Sid, int>, r: seq<Sid>, rest: map<Sid, int>) {
    && rest.Keys <= members.Keys && (forall sid :: sid in rest ==> rest[sid] == members[sid])
    && |r| + |rest| == |members| && (forall sid :: sid in r <==> sid in members && sid !in rest)
    && (forall i, j :: 0 <= i < j < |r| ==> r[i] != r[j] && Before(members, r[i], r[j]))
    && (forall a, b :: a in r && b in rest ==> Before(members, a, b))
  }

  lemma RankStep(members: map<Sid, int>, r: seq<Sid>, rest: map<Sid, int>, sid: Sid)
    requires RankedSoFar(members, r, rest) && IsFirst(rest, sid)
    ensures RankedSoFar(members, r + [sid], rest - {sid}) && |rest - {sid}| < |rest|
  {
    assert rest.Keys == {sid} + (rest - {sid}).Keys;
    forall b | b in rest ensures Before(members, sid, b) {
      assert Before(rest, sid, b);
    }
  }

  /** `ZRANGE 0 -1`: the members by score, then by token. */
  method ZRange(members: map<Sid, int>) returns (r: seq<Sid>)
    ensures IsRanking(members, r)
  {
    r := [];
    var rest := members;
    while rest != map[]
      invariant RankedSoFar(members, r, rest)
      decreases |rest|
    {
      ghost var first := FirstExists(rest);
      var sid :| sid in rest && forall b :: b in rest ==> Before(rest, sid, b);
      RankStep(members, r, rest, sid);
      r := r + [sid];
      rest := rest - {sid};
    }
  }

  /** Deletes the first `n` members in index order. */
  method EvictFirst(k: Keyspace, user: UserId, n: nat, now: int) returns (k': Keyspace)
    requires Expiring(k) && n <= |Members(k.store, user, now)|
    ensures Expiring(k') && k'.store == Removed(k.store, user, Oldest(Members(k.store, user, now), n), now)
  {
    var members := ZMembers(k, user, now);
    var ranked := ZRange(members);
    PrefixIsOldest(members, ranked, n);
    OldestUnique(members, n, (set sid | sid in ranked[..n]), Oldest(members, n));
    k' := DeleteEach(k, user, ranked[..n], now);
  }

  /** Keeps at most one session fewer than the cap. */
  method EvictSurplus(cfg: Settings, k: Keyspace, user: UserId, now: int) returns (k': Keyspace)
    requires Expiring(k) && cfg.maxConcurrent >= 1 && cfg.capPolicy == EvictOldest
    ensures Expiring(k') && k'.store == Evicted(cfg, k.store, user, now)
  {
    var toRemove := |ZMembers(k, user, now)| - (cfg.maxConcurrent - 1);
    if toRemove <= 0 {
      return k;
    }
    k' := EvictFirst(k, user, toRemove, now);
  }

  /** The stale members, found by asking after each hash. */
  method FindStale(k: Keyspace, sids: seq<Sid>, now: int) returns (stale: set<Sid>)
    ensures stale == set sid | sid in sids && !HasHash(k, sid, now)
  {
    stale := {};
    for i := 0 to |sids|
      invariant stale == set sid | sid in sids[..i] && !HasHash(k, sid, now)
    {
      assert sids[..i + 1] == sids[..i] + [sids[i]];
      if !HasHash(k, sids[i], now) {
        stale := stale + {sids[i]};
      }
    }
    assert sids[..|sids|] == sids;
  }

  lemma StampOneMore(k: Keyspace, s: Store, sids: set<Sid>, sid: Sid, version: int, now: int)
    requires Expiring(k) && k.store == s.(hashes := StampedHashes(s, sids, version, now)) && sid !in sids
    ensures var k' := SetVersionIfExists(k, sid, version, now);
            Expiring(k') && k'.store == s.(hashes := StampedHashes(s, sids + {sid}, version, now))
  {
    var k' := SetVersionIfExists(k, sid, version, now);
    assert sid in s.hashes <==> sid in k.store.hashes;
    assert k'.store.index == k.store.index;
    forall x | x in s.hashes ensures k'.store.hashes[x] == StampedHashes(s, sids + {sid}, version, now)[x] {
      assert k.store.hashes[x] == StampedHashes(s, sids, version, now)[x];
    }
    assert k'.store.hashes.Keys == k.store.hashes.Keys == StampedHashes(s, sids, version, now).Keys == s.hashes.Keys;
    assert k'.store.hashes == StampedHashes(s, sids + {sid}, version, now);
  }

  /** The script, run for each listed session in turn. */
  method StampEach(k: Keyspace, sids: seq<Sid>, version: int, now: int) returns (k': Keyspace)
    requires Expiring(k) && forall i, j :: 0 <= i < j < |sids| ==> sids[i] != sids[j]
    ensures Expiring(k')
    ensures k'.store == k.store.(hashes := StampedHashes(k.store, (set sid | sid in sids), version, now))
  {
    k' := k;
    ghost var done: set<Sid> := {};
    assert StampedHashes(k.store, {}, version, now) == k.store.hashes;
    for i := 0 to |sids|
      invariant Expiring(k') && done == set sid | sid in sids[..i]
      invariant k'.store == k.store.(hashes := StampedHashes(k.store, done, version, now))
    {
      StampOneMore(k', k.store, done, sids[i], version, now);
      k' := SetVersionIfExists(k', sids[i], version, now);
      assert sids[..i + 1] == sids[..i] + [sids[i]];
      done := done + {sids[i]};
    }
    assert sids[..|sids|] == sids;
  }

  /** The listed sids but the exempted one. */
  method Exempting(sids: seq<Sid>, exempt: Option<Sid>) returns (doomed: seq<Sid>)
    requires forall i, j :: 0 <= i < j < |sids| ==> sids[i] != sids[j]
    ensures (set sid | sid in doomed) == (set sid | sid in sids) - (if exempt.Some? then {exempt.value} else {})
    ensures |doomed| == |set sid | sid in doomed|
  {
    doomed := [];
    for i := 0 to |sids|
      invariant forall sid :: sid in doomed <==> sid in sids[..i] && exempt != Some(sid)
      invariant forall a, b :: 0 <= a < b < |doomed| ==> doomed[a] != doomed[b]
    {
      assert sids[..i + 1] == sids[..i] + [sids[i]];
      if exempt != Some(sids[i]) {
        doomed := doomed + [sids[i]];
      }
    }
    assert sids[..|sids|] == sids;
    DistinctSize(doomed);
  }

  class Sessions {
    const cfg: Settings
    var redis: Keyspace
    ghost var clock: int

    function Contents(): Store
      reads this
    {
      redis.store
    }

    ghost predicate Valid()
      reads this
    {
      Expiring(redis) && Inv(cfg, redis.store, clock)
    }

    constructor (cfg: Settings, now: int)
      ensures Valid() && this.cfg == cfg && clock == now && Contents() == Store(map[], map[])
    {
      this.cfg, redis, clock := cfg, Keyspace(Store(map[], map[]), {}, {}), now;
    }

    /** Records that an operation has run at `now`. */
    ghost method Tick(before: Store, op: Op, now: int)
      requires Inv(cfg, before, clock) && clock <= now && Enabled(before, op)
      requires Expiring(redis) && redis.store == Apply(cfg, before, op, now)
      modifies this`clock
      ensures Valid() && clock == now
    {
      StepKeeps(cfg, before, op, clock, now);
      clock := now;
    }

    method PruneUserIndex(user: UserId, now: int)
      requires Expiring(redis)
      modifies this`redis
      ensures Expiring(redis) && Contents() == Pruned(old(Contents()), user, now)
    {
      var sids := ZRange(ZMembers(redis, user, now));
      var stale := FindStale(redis, sids, now);
      assert stale == set sid | sid in Members(redis.store, user, now) && !Exists(redis.store, sid, now);
      MembersAreRemoved(redis, user, stale, now, ZRem(redis, user, stale, now));
      redis := ZRem(redis, user, stale, now);
    }

    /** True when the login must be refused. */
    method EnforceCap(user: UserId, now: int) returns (full: bool)
      requires Expiring(redis)
      modifies this`redis
      ensures Expiring(redis) && Contents() == Capped(cfg, old(Contents()), user, now)
      ensures full == CapReached(cfg, old(Contents()), user, now)
    {
      if cfg.maxConcurrent < 1 {
        return false;
      }
      PruneUserIndex(user, now);
      if cfg.capPolicy == RejectWhenFull {
        return |ZMembers(redis, user, now)| >= cfg.maxConcurrent;
      }
      redis := EvictSurplus(cfg, redis, user, now);
      return false;
    }

    method CreateSession(sid: Sid, user: UserId, version: int, roles: seq<string>, flags: (bool, bool, bool), now: int)
      returns (rec: Option<Record>)
      requires Valid() && clock <= now && Fresh(Contents(), sid)
      modifies this
      ensures Valid() && clock == now
      ensures Contents() == Created(cfg, old(Contents()), sid, user, version, roles, flags, now)
      ensures rec == if CapReached(cfg, old(Contents()), user, now) then None
                     else Some(NewRecord(user, version, roles, flags, now))
    {
      var full := EnforceCap(user, now);
      rec := None;
      if !full {
        var r := NewRecord(user, version, roles, flags, now);
        AddSession(sid, r, now);
        rec := Some(r);
      }
      Tick(old(Contents()), Login(sid, user, version, roles, flags), now);
    }

    /** `HSET`, `EXPIRE`, `ZADD`, `EXPIRE`. */
    method AddSession(sid: Sid, rec: Record, now: int)
      requires Expiring(redis)
      modifies this`redis
      ensures Expiring(redis) && Contents() == Added(cfg, old(Contents()), sid, rec, now)
    {
      var k := ExpireHash(HSet(redis, sid, rec, now), sid, TtlSeconds(cfg, rec, now), now);
      HashIsWritten(cfg, redis, sid, rec, now, k);
      redis := ExpireIndex(ZAdd(k, rec.userId, sid, now, now), rec.userId, cfg.absoluteSeconds, now);
      MemberIsAdded(cfg, k, rec.userId, sid, now, redis);
    }

    method Delete(sid: Sid, user: Option<UserId>, now: int)
      requires Expiring(redis)
      modifies this`redis
      ensures Expiring(redis) && Contents() == Destroyed(old(Contents()), sid, user, now)
    {
      var owner := if user.Some? then user
                   else if HasHash(redis, sid, now) then Some(redis.store.hashes[sid].rec.userId) else None;
      if owner.Some? {
        redis := DeleteOne(redis, owner.value, sid, now);
      } else {
        redis := Del(redis, sid);
      }
    }

    method DestroySession(sid: Sid, user: Option<UserId>, now: int)
      requires Valid() && clock <= now
      modifies this
      ensures Valid() && clock == now && Contents() == Destroyed(old(Contents()), sid, user, now)
    {
      Delete(sid, user, now);
      Tick(old(Contents()), Destroy(sid, user), now);
    }

    method Load(sid: Sid, now: int) returns (rec: Option<Record>)
      requires Expiring(redis)
      modifies this`redis
      ensures Expiring(redis) && Contents() == Read(cfg, old(Contents()), sid, now)
      ensures rec.Some? <==> Readable(cfg, old(Contents()), sid, now)
      ensures rec.Some? ==> rec.value == old(Contents()).hashes[sid].rec && redis == old(redis)
    {
      if !HasHash(redis, sid, now) {
        return None;
      }
      var r := redis.store.hashes[sid].rec;
      if ExpiryReason(cfg, r.createdAt, r.lastSeenAt, r.tier, now) != Expiry.Valid {
        Delete(sid, Some(r.userId), now);
        return None;
      }
      return Some(r);
    }

    /** Returns exactly the readable sessions; an expired one is destroyed on the way. */
    method GetSessionRecord(sid: Sid, now: int) returns (rec: Option<Record>)
      requires Valid() && clock <= now
      modifies this
      ensures Valid() && clock == now && Contents() == Read(cfg, old(Contents()), sid, now)
      ensures rec.Some? <==> Readable(cfg, old(Contents()), sid, now)
      ensures rec.Some? ==> rec.value == old(Contents()).hashes[sid].rec && Contents() == old(Contents())
    {
      rec := Load(sid, now);
      Tick(old(Contents()), Get(sid), now);
    }

    method TouchSession(sid: Sid, now: int) returns (rec: Option<Record>)
      requires Valid() && clock <= now
      modifies this
      ensures Valid() && clock == now && Contents() == Touched(cfg, old(Contents()), sid, now)
      ensures rec.Some? <==> Readable(cfg, old(Contents()), sid, now)
      ensures rec.Some? ==> rec.value == old(Contents()).hashes[sid].rec.(lastSeenAt := now)
    {
      rec := Load(sid, now);
      if rec.Some? {
        var r := rec.value.(lastSeenAt := now);
        var k := ExpireHash(HSet(redis, sid, r, now), sid, TtlSeconds(cfg, r, now), now);
        HashIsWritten(cfg, redis, sid, r, now, k);
        redis := k;
        rec := Some(r);
      }
      Tick(old(Contents()), Touch(sid), now);
    }

    method RegenerateId(sid: Sid, newSid: Sid, o: Overrides, now: int) returns (rec: Option<Record>)
      requires Valid() && clock <= now && Fresh(Contents(), newSid)
      modifies this
      ensures Valid() && clock == now && Contents() == Rotated(cfg, old(Contents()), sid, newSid, o, now)
      ensures rec.Some? <==> Readable(cfg, old(Contents()), sid, now)
      ensures rec.Some? ==> rec.value == Overridden(old(Contents()).hashes[sid].rec, o)
    {
      rec := Load(sid, now);
      if rec.Some? {
        var r := Overridden(rec.value, o);
        Rotate(sid, newSid, r, now);
        rec := Some(r);
      }
      Tick(old(Contents()), Op.Rotate(sid, newSid, o), now);
    }

    /** `HSET`, `EXPIRE`, `ZADD`, `ZREM`, `DEL`: the index keeps the expiry it has. */
    method Rotate(sid: Sid, newSid: Sid, rec: Record, now: int)
      requires Expiring(redis) && Members(Contents(), rec.userId, now) != map[]
      modifies this`redis
      ensures Expiring(redis)
      ensures var s := old(Contents());
              Contents() == WithMembers(s.(hashes := s.hashes[newSid := Hashed(cfg, rec, now)] - {sid}), rec.userId,
                                        Members(s, rec.userId, now)[newSid := rec.createdAt] - {sid})
    {
      var k := ExpireHash(HSet(redis, newSid, rec, now), newSid, TtlSeconds(cfg, rec, now), now);
      HashIsWritten(cfg, redis, newSid, rec, now, k);
      var k' := ZRem(ZAdd(k, rec.userId, newSid, rec.createdAt, now), rec.userId, {sid}, now);
      MemberIsReplaced(k, rec.userId, sid, newSid, rec.createdAt, now, k');
      redis := Del(k', sid);
    }

    method DestroyAllForUser(user: UserId, exempt: Option<Sid>, now: int) returns (count: nat)
      requires Valid() && clock <= now
      modifies this
      ensures Valid() && clock == now && Contents() == DestroyedAll(old(Contents()), user, exempt, now)
      ensures count == |Members(old(Contents()), user, now).Keys - (if exempt.Some? then {exempt.value} else {})|
    {
      var sids := ZRange(ZMembers(redis, user, now));
      var doomed := Exempting(sids, exempt);
      assert (set sid | sid in sids) == Members(Contents(), user, now).Keys;
      redis := DeleteEach(redis, user, doomed, now);
      Tick(old(Contents()), DestroyAll(user, exempt), now);
      return |doomed|;
    }

    method SetPermissionsVersion(user: UserId, version: int, now: int) returns (count: nat)
      requires Valid() && clock <= now
      modifies this
      ensures Valid() && clock == now && Contents() == Stamped(old(Contents()), user, version, now)
      ensures count == |Members(Contents(), user, now)|
    {
      PruneUserIndex(user, now);
      var sids := ZRange(ZMembers(redis, user, now));
      assert (set sid | sid in sids) == Members(Contents(), user, now).Keys;
      redis := StampEach(redis, sids, version, now);
      Tick(old(Contents()), Stamp(user, version), now);
      return |sids|;
    }
  }
}
