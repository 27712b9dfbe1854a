/** How long Redis keeps a session hash, against how long policy lets it live. */
module SessionLifetimes {
  import opened SessionPolicy
  import opened SessionStore
  import opened SessionRuns

  /** The instant at which policy expires a record that is not touched again. */
  function PolicyExpiry(cfg: Settings, rec: Record): int {
    Min(AbsoluteExpiry(cfg, rec.createdAt), rec.lastSeenAt + IdleSeconds(cfg, rec.tier) * TICKS)
  }

  /** The hash goes less than a second before policy would expire it, or later. */
  predicate Lasts(cfg: Settings, h: HashKey, now: int) {
    h.rec.lastSeenAt <= now && PolicyExpiry(cfg, h.rec) - TICKS < h.expiresAt
  }

  ghost predicate AllLast(cfg: Settings, s: Store, now: int) {
    forall sid :: sid in s.hashes ==> Lasts(cfg, s.hashes[sid], now)
  }

  /** The TTL drops the fraction of a second, and nothing more. */
  lemma HashedLasts(cfg: Settings, rec: Record, now: int)
    requires rec.lastSeenAt <= now
    ensures Lasts(cfg, Hashed(cfg, rec, now), now)
  {
    var left := AbsoluteExpiry(cfg, rec.createdAt) - now;
    if left >= 0 {
      assert left - TICKS < WholeSeconds(left) * TICKS <= left;
    }
    var idle := IdleSeconds(cfg, rec.tier);
    var ttl := TtlSeconds(cfg, rec, now);
    assert ttl >= Min(idle, WholeSeconds(left)) && ttl >= 1;
    if idle <= WholeSeconds(left) {
      assert ttl * TICKS >= idle * TICKS;
    } else {
      assert ttl * TICKS >= WholeSeconds(left) * TICKS;
    }
  }

  /** Every hash of `s'` is one of `s`, up to its permissions version, or was set just now. */
  ghost predicate KeptOrSet(cfg: Settings, s: Store, s': Store, sid: Sid, now: int)
    requires sid in s'.hashes
  {
    || (sid in s.hashes && s'.hashes[sid].expiresAt == s.hashes[sid].expiresAt
        && s'.hashes[sid].rec == s.hashes[sid].rec.(permissionsVersion := s'.hashes[sid].rec.permissionsVersion))
    || (s'.hashes[sid].rec.lastSeenAt <= now && s'.hashes[sid] == Hashed(cfg, s'.hashes[sid].rec, now))
  }

  lemma LoginStep(cfg: Settings, s: Store, op: Op, now: int, s': Store, sid: Sid)
    requires op.Login? && s' == Apply(cfg, s, op, now) && sid in s'.hashes
    ensures KeptOrSet(cfg, s, s', sid, now)
  {
    CappingShrinks(cfg, s, op.user, now, Capped(cfg, s, op.user, now));
  }

  lemma WritingStep(cfg: Settings, s: Store, op: Op, now: int, s': Store, sid: Sid)
    requires AllLast(cfg, s, now) && s' == Apply(cfg, s, op, now) && sid in s'.hashes
    requires op.Touch? || op.Rotate? || op.Stamp?
    ensures KeptOrSet(cfg, s, s', sid, now)
  {
    match op
    case Touch(x) => ReadingShrinks(cfg, s, x, now);
    case Rotate(x, _, _) => RotatingShrinks(cfg, s, op, now);
    case Stamp(user, _) =>
      RemovalShrinks(s, user, (set x | x in Members(s, user, now) && !Exists(s, x, now)), now);
    case _ =>
  }

  lemma StepKeepsOrSets(cfg: Settings, s: Store, op: Op, now: int, s': Store, sid: Sid)
    requires AllLast(cfg, s, now) && s' == Apply(cfg, s, op, now) && sid in s'.hashes
    ensures KeptOrSet(cfg, s, s', sid, now)
  {
    if op.Login? {
      LoginStep(cfg, s, op, now, s', sid);
    } else if op.Touch? || op.Rotate? || op.Stamp? {
      WritingStep(cfg, s, op, now, s', sid);
    } else {
      RemovingStep(cfg, s, op, now, s');
    }
  }

  lemma StepLasts(cfg: Settings, s: Store, op: Op, before: int, now: int)
    requires AllLast(cfg, s, before) && before <= now
    ensures AllLast(cfg, Apply(cfg, s, op, now), now)
  {
    assert AllLast(cfg, s, now);
    var s' := Apply(cfg, s, op, now);
    forall sid | sid in s'.hashes ensures Lasts(cfg, s'.hashes[sid], now) {
      StepKeepsOrSets(cfg, s, op, now, s', sid);
      if s'.hashes[sid].rec.lastSeenAt <= now {
        HashedLasts(cfg, s'.hashes[sid].rec, now);
      }
      assert sid in s.hashes ==> Lasts(cfg, s.hashes[sid], now);
    }
  }

  lemma {:induction false} RunLasts(cfg: Settings, run: seq<Event>, now: int)
    requires IsRun(cfg, run) && Follows(run, now)
    ensures AllLast(cfg, After(cfg, run), now)
    decreases |run|
  {
    if run != [] {
      var before, last := run[..|run| - 1], run[|run| - 1];
      RunLasts(cfg, before, last.at);
      StepLasts(cfg, After(cfg, before), last.op, last.at, last.at);
    }
  }

  /** After every run, a session that nobody removed is readable until a second before policy
      expires it, and not readable from then on. */
  lemma OnlyPolicyExpires(cfg: Settings, run: seq<Event>, sid: Sid, now: int)
    requires IsRun(cfg, run) && Follows(run, now) && sid in After(cfg, run).hashes
    ensures var limit := PolicyExpiry(cfg, After(cfg, run).hashes[sid].rec);
            && (now <= limit - TICKS ==> Readable(cfg, After(cfg, run), sid, now))
            && (limit <= now ==> !Readable(cfg, After(cfg, run), sid, now))
  {
    RunLasts(cfg, run, now);
  }
}
