/** The Redis commands the session store queues, on keys that may or may not expire.

    `HSET` and `ZADD` on a missing key make a key that never expires by itself, and `ZREM`
    of the last member removes the key together with its expiry. */
module RedisKeyspace {
  import opened SessionPolicy
  import opened SessionStore

  /** The keys, and which of them carry no expiry; the instant stored for those is void. */
  datatype Keyspace = Keyspace(store: Store, lastingHashes: set<Sid>, lastingIndexes: set<UserId>)

  // ---- commands ------------------------------------------------------------------------------

  predicate HasHash(k: Keyspace, sid: Sid, now: int) {
    sid in k.store.hashes && (sid in k.lastingHashes || now < k.store.hashes[sid].expiresAt)
  }

  predicate HasIndex(k: Keyspace, user: UserId, now: int) {
    user in k.store.index && (user in k.lastingIndexes || now < k.store.index[user].expiresAt)
  }

  function HSet(k: Keyspace, sid: Sid, rec: Record, now: int): Keyspace {
    if HasHash(k, sid, now) then WriteHash(k, sid, k.store.hashes[sid].(rec := rec))
    else WriteHash(k, sid, HashKey(rec, now)).(lastingHashes := k.lastingHashes + {sid})
  }

  function ExpireHash(k: Keyspace, sid: Sid, seconds: int, now: int): Keyspace {
    if !HasHash(k, sid, now) then k
    else
      var h := k.store.hashes[sid].(expiresAt := now + seconds * TICKS);
      WriteHash(k, sid, h).(lastingHashes := k.lastingHashes - {sid})
  }

  function Del(k: Keyspace, sid: Sid): Keyspace {
    Keyspace(k.store.(hashes := k.store.hashes - {sid}), k.lastingHashes - {sid}, k.lastingIndexes)
  }

  function ZMembers(k: Keyspace, user: UserId, now: int): map<Sid, int> {
    if HasIndex(k, user, now) then k.store.index[user].members else map[]
  }

  function ZAdd(k: Keyspace, user: UserId, sid: Sid, score: int, now: int): Keyspace {
    var members := ZMembers(k, user, now)[sid := score];
    if HasIndex(k, user, now) then WriteIndex(k, user, k.store.index[user].(members := members))
    else WriteIndex(k, user, IndexKey(members, now)).(lastingIndexes := k.lastingIndexes + {user})
  }

  function ZRem(k: Keyspace, user: UserId, sids: set<Sid>, now: int): Keyspace {
    var members := ZMembers(k, user, now);
    if members == map[] then k
    else if members - sids == map[] then
      Keyspace(k.store.(index := k.store.index - {user}), k.lastingHashes, k.lastingIndexes - {user})
    else WriteIndex(k, user, k.store.index[user].(members := members - sids))
  }

  function ExpireIndex(k: Keyspace, user: UserId, seconds: int, now: int): Keyspace {
    if !HasIndex(k, user, now) then k
    else
      var i := k.store.index[user].(expiresAt := now + seconds * TICKS);
      WriteIndex(k, user, i).(lastingIndexes := k.lastingIndexes - {user})
  }

  /** The script that sets a field of a hash that exists. */
  function SetVersionIfExists(k: Keyspace, sid: Sid, version: int, now: int): Keyspace {
    if HasHash(k, sid, now) then HSet(k, sid, k.store.hashes[sid].rec.(permissionsVersion := version), now) else k
  }

  function WriteHash(k: Keyspace, sid: Sid, h: HashKey): Keyspace {
    k.(store := k.store.(hashes := k.store.hashes[sid := h]))
  }

  function WriteIndex(k: Keyspace, user: UserId, i: IndexKey): Keyspace {
    k.(store := k.store.(index := k.store.index[user := i]))
  }

  // ---- what sequences of commands do ---------------------------------------------------------------

  /** Every key carries an expiry, so the keys are a store. */
  predicate Expiring(k: Keyspace) {
    k.lastingHashes == {} && k.lastingIndexes == {}
  }

  /** `HSET` and `EXPIRE` write a hash with its lifetime. */
  lemma HashIsWritten(cfg: Settings, k: Keyspace, sid: Sid, rec: Record, now: int, k': Keyspace)
    requires Expiring(k) && k' == ExpireHash(HSet(k, sid, rec, now), sid, TtlSeconds(cfg, rec, now), now)
    ensures Expiring(k') && k'.store == k.store.(hashes := k.store.hashes[sid := Hashed(cfg, rec, now)])
  {
  }

  lemma MembersAreRemoved(k: Keyspace, user: UserId, sids: set<Sid>, now: int, k': Keyspace)
    requires Expiring(k) && k' == ZRem(k, user, sids, now)
    ensures Expiring(k') && k'.store == Unindexed(k.store, user, sids, now)
  {
  }

  /** `ZADD` and `EXPIRE` index a session, whether or not there was an index. */
  lemma MemberIsAdded(cfg: Settings, k: Keyspace, user: UserId, sid: Sid, now: int, k': Keyspace)
    requires Expiring(k) && k' == ExpireIndex(ZAdd(k, user, sid, now, now), user, cfg.absoluteSeconds, now)
    ensures Expiring(k')
    ensures var key := IndexKey(Members(k.store, user, now)[sid := now], AbsoluteExpiry(cfg, now));
            k'.store == k.store.(index := k.store.index[user := key])
  {
  }

  /** `ZADD` and `ZREM` without an `EXPIRE` replace a member of an index that is alive. */
  lemma MemberIsReplaced(k: Keyspace, user: UserId, sid: Sid, newSid: Sid, score: int, now: int, k': Keyspace)
    requires Expiring(k) && k' == ZRem(ZAdd(k, user, newSid, score, now), user, {sid}, now)
    requires Members(k.store, user, now) != map[]
    ensures Expiring(k') && k'.store == WithMembers(k.store, user, Members(k.store, user, now)[newSid := score] - {sid})
  {
    assert newSid in ZMembers(ZAdd(k, user, newSid, score, now), user, now);
  }

  /** On an index that has vanished they would leave a key that never expires. */
  lemma VanishedIndexComesBackForGood(k: Keyspace, user: UserId, sid: Sid, newSid: Sid, score: int, now: int)
    requires !HasIndex(k, user, now) && newSid != sid
    ensures var k' := ZRem(ZAdd(k, user, newSid, score, now), user, {sid}, now);
            user in k'.lastingIndexes && ZMembers(k', user, now) == map[newSid := score]
  {
    var members := map[newSid := score];
    assert newSid in members - {sid} && members - {sid} == members;
  }
}
