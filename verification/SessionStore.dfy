/** The Redis session store: a hash per session and a sorted index per user.

    `Store` is the keyspace. A hash and an index each vanish when the clock reaches their
    own expiry. Each operation of the source is a function on the store, at a time given
    by the one clock that the application and Redis are taken to share. */
module SessionStore {
  import opened Collections
  import opened Ordering
  import opened SessionPolicy

  /** An opaque random token; ties in the index are broken by its text. */
  datatype Sid = Sid(token: string)

  type UserId = int

  datatype Record = Record(
    userId: UserId, permissionsVersion: int, createdAt: int, lastSeenAt: int, lastAuthAt: int, tier: Tier,
    roles: seq<string>, mustChangePassword: bool, mfaSetupRequired: bool, mfaAuthenticated: bool)

  datatype HashKey = HashKey(rec: Record, expiresAt: int)

  datatype IndexKey = IndexKey(members: map<Sid, int>, expiresAt: int)

  datatype Store = Store(hashes: map<Sid, HashKey>, index: map<UserId, IndexKey>)

  // ---- reading the keyspace at an instant ---------------------------------------------

  predicate Exists(s: Store, sid: Sid, now: int) {
    sid in s.hashes && now < s.hashes[sid].expiresAt
  }

  function Members(s: Store, user: UserId, now: int): map<Sid, int> {
    if user in s.index && now < s.index[user].expiresAt then s.index[user].members else map[]
  }

  predicate Expired(cfg: Settings, rec: Record, now: int) {
    ExpiryReason(cfg, rec.createdAt, rec.lastSeenAt, rec.tier, now) != Valid
  }

  /** What a request sees: the hash is there and policy has not expired it. */
  predicate Readable(cfg: Settings, s: Store, sid: Sid, now: int) {
    Exists(s, sid, now) && !Expired(cfg, s.hashes[sid].rec, now)
  }

  function TtlSeconds(cfg: Settings, rec: Record, now: int): int {
    Max(1, Min(IdleSeconds(cfg, rec.tier), WholeSeconds(AbsoluteExpiry(cfg, rec.createdAt) - now)))
  }

  function Hashed(cfg: Settings, rec: Record, now: int): HashKey {
    HashKey(rec, now + TtlSeconds(cfg, rec, now) * TICKS)
  }

  // ---- the index order --------------------------------------------------------------------

  predicate Before(members: map<Sid, int>, a: Sid, b: Sid)
    requires a in members && b in members
  {
    members[a] < members[b] || (members[a] == members[b] && StrLe(a.token, b.token))
  }

  ghost predicate IsFirst(members: map<Sid, int>, a: Sid) {
    a in members && forall b :: b in members ==> Before(members, a, b)
  }

  lemma BeforeTransitive(members: map<Sid, int>, a: Sid, b: Sid, c: Sid)
    requires a in members && b in members && c in members && Before(members, a, b) && Before(members, b, c)
    ensures Before(members, a, c)
  {
    if members[a] == members[b] == members[c] {
      StrLeTransitive(a.token, b.token, c.token);
    }
  }

  lemma FirstExists(members: map<Sid, int>) returns (a: Sid)
    requires members != map[]
    ensures IsFirst(members, a)
    decreases |members|
  {
    assert members.Keys != {};
    a := Pick(members.Keys);
    StrLeTotal(a.token, a.token);
    var rest := members - {a};
    if rest != map[] {
      var b := FirstExists(rest);
      StrLeTotal(a.token, b.token);
      if Before(members, a, b) {
        forall c | c in members ensures Before(members, a, c) {
          if c != a {
            assert Before(rest, b, c);
            BeforeTransitive(members, a, b, c);
          }
        }
      } else {
        forall c | c in members ensures Before(members, b, c) {
          assert c != a ==> Before(rest, b, c);
        }
        a := b;
      }
    } else {
      assert forall c :: c in members ==> c == a;
    }
  }

  /** `r` lists the members in index order. */
  ghost predicate IsRanking(members: map<Sid, int>, r: seq<Sid>) {
    && |r| == |members| && (forall sid :: sid in r <==> sid in members)
    && forall i, j :: 0 <= i < j < |r| ==> r[i] != r[j] && Before(members, r[i], r[j])
  }

  lemma RankingExists(members: map<Sid, int>) returns (r: seq<Sid>)
    ensures IsRanking(members, r)
    decreases |members|
  {
    if members == map[] {
      r := [];
    } else {
      var a := FirstExists(members);
      var rest := members - {a};
      assert members.Keys == {a} + rest.Keys;
      var tail := RankingExists(rest);
      r := [a] + tail;
      forall i, j | 0 <= i < j < |r| ensures r[i] != r[j] && Before(members, r[i], r[j]) {
        assert tail[j - 1] in rest;
        if i > 0 {
          assert Before(rest, tail[i - 1], tail[j - 1]);
        }
      }
    }
  }

  /** `doomed` is `k` members, each of them before every other member. */
  ghost predicate AreOldest(members: map<Sid, int>, k: nat, doomed: set<Sid>) {
    && doomed <= members.Keys && |doomed| == k
    && forall a, b :: a in doomed && b in members && b !in doomed ==> Before(members, a, b)
  }

  ghost function Oldest(members: map<Sid, int>, k: nat): (doomed: set<Sid>)
    requires k <= |members|
    ensures AreOldest(members, k, doomed)
  {
    assert exists doomed :: AreOldest(members, k, doomed) by {
      var r := RankingExists(members);
      PrefixIsOldest(members, r, k);
    }
    var doomed :| AreOldest(members, k, doomed);
    doomed
  }

  lemma PrefixIsOldest(members: map<Sid, int>, r: seq<Sid>, k: nat)
    requires k <= |members| && IsRanking(members, r)
    ensures AreOldest(members, k, set sid | sid in r[..k])
  {
    var doomed := set sid | sid in r[..k];
    forall a, b | a in doomed && b in members && b !in doomed ensures Before(members, a, b) {
      assert forall x :: 0 <= x < k ==> r[..k][x] in doomed;
      var i :| 0 <= i < k && r[i] == a;
      var j :| 0 <= j < |r| && r[j] == b;
    }
    DistinctSize(r[..k]);
  }

  lemma OldestUnique(members: map<Sid, int>, k: nat, a: set<Sid>, b: set<Sid>)
    requires AreOldest(members, k, a) && AreOldest(members, k, b)
    ensures a == b
  {
    if a <= b {
      SubsetSize(a, b);
    } else if b <= a {
      SubsetSize(b, a);
    } else {
      var x :| x in a && x !in b;
      var y :| y in b && y !in a;
      assert Before(members, x, y) && Before(members, y, x);
      StrLeAntisymmetric(x.token, y.token);
    }
  }

  lemma {:induction false} DistinctSize(r: seq<Sid>)
    requires forall i, j :: 0 <= i < j < |r| ==> r[i] != r[j]
    ensures |set sid | sid in r| == |r|
  {
    if r != [] {
      DistinctSize(r[1..]);
      assert (set sid | sid in r) == {r[0]} + (set sid | sid in r[1..]);
      assert r[0] !in r[1..];
    }
  }

  // ---- the operations as functions on the store --------------------------------------------

  /** An index loses its key, and the key its expiry, with its last member. */
  function WithMembers(s: Store, user: UserId, members: map<Sid, int>): Store {
    if user !in s.index then s
    else if members == map[] then s.(index := s.index - {user})
    else s.(index := s.index[user := s.index[user].(members := members)])
  }

  /** `ZREM` of some sids, which does nothing to an index that has vanished. */
  function Unindexed(s: Store, user: UserId, sids: set<Sid>, now: int): Store {
    if Members(s, user, now) == map[] then s else WithMembers(s, user, Members(s, user, now) - sids)
  }

  function Removed(s: Store, user: UserId, sids: set<Sid>, now: int): Store {
    Unindexed(s.(hashes := s.hashes - sids), user, sids, now)
  }

  function Destroyed(s: Store, sid: Sid, user: Option<UserId>, now: int): Store {
    var owner := if user.Some? then user else if Exists(s, sid, now) then Some(s.hashes[sid].rec.userId) else None;
    if owner.None? then s.(hashes := s.hashes - {sid}) else Removed(s, owner.value, {sid}, now)
  }

  /** Reading a session destroys it when policy has expired it. */
  function Read(cfg: Settings, s: Store, sid: Sid, now: int): Store {
    if Exists(s, sid, now) && Expired(cfg, s.hashes[sid].rec, now)
    then Removed(s, s.hashes[sid].rec.userId, {sid}, now) else s
  }

  function Touched(cfg: Settings, s: Store, sid: Sid, now: int): Store {
    if Readable(cfg, s, sid, now)
    then s.(hashes := s.hashes[sid := Hashed(cfg, s.hashes[sid].rec.(lastSeenAt := now), now)])
    else Read(cfg, s, sid, now)
  }

  /** The fields a rotation may change; the creation and last-seen instants are not among them. */
  datatype Overrides = Overrides(
    permissionsVersion: Option<int>, lastAuthAt: Option<int>, roles: Option<seq<string>>, tier: Option<Tier>,
    mustChangePassword: Option<bool>, mfaSetupRequired: Option<bool>, mfaAuthenticated: Option<bool>)

  function Or<T>(o: Option<T>, d: T): T { if o.Some? then o.value else d }

  function Overridden(rec: Record, o: Overrides): Record {
    rec.(permissionsVersion := Or(o.permissionsVersion, rec.permissionsVersion),
         lastAuthAt := Or(o.lastAuthAt, rec.lastAuthAt),
         roles := Or(o.roles, rec.roles),
         tier := Or(o.tier, if o.roles.Some? then TierFor(o.roles.value) else rec.tier),
         mustChangePassword := Or(o.mustChangePassword, rec.mustChangePassword),
         mfaSetupRequired := Or(o.mfaSetupRequired, rec.mfaSetupRequired),
         mfaAuthenticated := Or(o.mfaAuthenticated, rec.mfaAuthenticated))
  }

  function Rotated(cfg: Settings, s: Store, sid: Sid, newSid: Sid, o: Overrides, now: int): Store {
    if !Readable(cfg, s, sid, now) then Read(cfg, s, sid, now)
    else
      var rec := Overridden(s.hashes[sid].rec, o);
      WithMembers(s.(hashes := s.hashes[newSid := Hashed(cfg, rec, now)] - {sid}), rec.userId,
                  Members(s, rec.userId, now)[newSid := rec.createdAt] - {sid})
  }

  function DestroyedAll(s: Store, user: UserId, exempt: Option<Sid>, now: int): Store {
    var doomed := Members(s, user, now).Keys - (if exempt.Some? then {exempt.value} else {});
    Removed(s, user, doomed, now)
  }

  /** Drops the index entries whose hash is gone. */
  function Pruned(s: Store, user: UserId, now: int): Store {
    Unindexed(s, user, (set sid | sid in Members(s, user, now) && !Exists(s, sid, now)), now)
  }

  /** The hashes of `s`, those listed and alive with the new version. */
  function StampedHashes(s: Store, sids: set<Sid>, version: int, now: int): map<Sid, HashKey> {
    map sid | sid in s.hashes ::
      if sid in sids && Exists(s, sid, now)
      then s.hashes[sid].(rec := s.hashes[sid].rec.(permissionsVersion := version)) else s.hashes[sid]
  }

  function Stamped(s: Store, user: UserId, version: int, now: int): Store {
    var p := Pruned(s, user, now);
    p.(hashes := StampedHashes(p, Members(p, user, now).Keys, version, now))
  }

  predicate CapReached(cfg: Settings, s: Store, user: UserId, now: int) {
    cfg.maxConcurrent >= 1 && cfg.capPolicy == RejectWhenFull
    && |Members(Pruned(s, user, now), user, now)| >= cfg.maxConcurrent
  }

  /** The oldest surplus sessions go. */
  ghost function Evicted(cfg: Settings, s: Store, user: UserId, now: int): Store
    requires cfg.maxConcurrent >= 1
  {
    var members := Members(s, user, now);
    if cfg.capPolicy == RejectWhenFull || |members| < cfg.maxConcurrent then s
    else Removed(s, user, Oldest(members, |members| - (cfg.maxConcurrent - 1)), now)
  }

  /** Makes room under the cap: stale entries go first, then the oldest surplus sessions. */
  ghost function Capped(cfg: Settings, s: Store, user: UserId, now: int): Store {
    if cfg.maxConcurrent < 1 then s else Evicted(cfg, Pruned(s, user, now), user, now)
  }

  function NewRecord(user: UserId, version: int, roles: seq<string>, flags: (bool, bool, bool), now: int): Record {
    Record(user, version, now, now, now, TierFor(roles), roles, flags.0, flags.1, flags.2)
  }

  /** A new session, indexed at its creation; the index lives as long as it can. */
  function Added(cfg: Settings, s: Store, sid: Sid, rec: Record, now: int): Store {
    Store(s.hashes[sid := Hashed(cfg, rec, now)],
          s.index[rec.userId := IndexKey(Members(s, rec.userId, now)[sid := now], AbsoluteExpiry(cfg, now))])
  }

  /** A refused login has still pruned the index. */
  ghost function Created(
    cfg: Settings, s: Store, sid: Sid, user: UserId, version: int, roles: seq<string>, flags: (bool, bool, bool),
    now: int): Store
  {
    var c := Capped(cfg, s, user, now);
    if CapReached(cfg, s, user, now) then c
    else Added(cfg, c, sid, NewRecord(user, version, roles, flags, now), now)
  }
}
