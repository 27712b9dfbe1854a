/** Session timeouts and the records they govern. Instants are microseconds; settings are seconds. */
module SessionPolicy {

  const TICKS: int := 1_000_000

  datatype CapPolicy = EvictOldest | RejectWhenFull

  datatype Settings = Settings(
    absoluteSeconds: int, idlePrivilegedSeconds: int, idleStaffSeconds: int, maxConcurrent: int, capPolicy: CapPolicy)

  datatype Tier = Privileged | Staff

  const PRIVILEGED_ROLES: set<string> := {"system_admin", "approver", "auditor"}

  function TierFor(roles: seq<string>): Tier {
    if exists r :: r in roles && r in PRIVILEGED_ROLES then Privileged else Staff
  }

  function IdleSeconds(cfg: Settings, tier: Tier): int {
    if tier == Privileged then cfg.idlePrivilegedSeconds else cfg.idleStaffSeconds
  }

  function AbsoluteExpiry(cfg: Settings, createdAt: int): int {
    createdAt + cfg.absoluteSeconds * TICKS
  }

  datatype Expiry = Valid | AbsoluteExpired | IdleExpired

  function ExpiryReason(cfg: Settings, createdAt: int, lastSeenAt: int, tier: Tier, now: int): Expiry {
    if now >= AbsoluteExpiry(cfg, createdAt) then AbsoluteExpired
    else if now >= lastSeenAt + IdleSeconds(cfg, tier) * TICKS then IdleExpired
    else Valid
  }

  /** Whole seconds, dropping the fraction toward zero. */
  function WholeSeconds(ticks: int): int {
    if ticks >= 0 then ticks / TICKS else -((-ticks) / TICKS)
  }

  function Max(a: int, b: int): int { if a < b then b else a }
  function Min(a: int, b: int): int { if a < b then a else b }
}
