/** Org-unit ancestry, org-scoped authorization and delegated authority.

    The parent pointers are arbitrary: cycles, dangling parents and soft-deleted
    units are all allowed, and both walks stop at the same depth. */
module OrgScopes {
  import opened Collections

  type UnitId = int
  type UserId = int

  datatype OrgUnit = OrgUnit(parent: Option<UnitId>, deleted: bool)

  type Units = map<UnitId, OrgUnit>

  const MAX_DEPTH: nat := 64

  predicate Live(units: Units, u: UnitId) {
    u in units && !units[u].deleted
  }

  // ---- the two walks -----------------------------------------------------------

  function Up(units: Units, u: UnitId, depth: nat): seq<UnitId>
    decreases depth, u
  {
    if !Live(units, u) then []
    else if depth == 0 || units[u].parent.None? then [u]
    else [u] + Up(units, units[u].parent.value, depth - 1)
  }

  /** The unit and its ancestors, nearest first. */
  function AncestorsOrSelf(units: Units, target: Option<UnitId>): seq<UnitId> {
    if target.None? then [] else Up(units, target.value, MAX_DEPTH)
  }

  /** The live units exactly `depth` levels below `roots`. */
  function Level(units: Units, roots: set<UnitId>, depth: nat): set<UnitId>
    decreases depth, roots
  {
    if depth == 0 then set u | u in roots && Live(units, u)
    else
      var above := Level(units, roots, depth - 1);
      set u | u in units && Live(units, u) && units[u].parent.Some? && units[u].parent.value in above
  }

  function Down(units: Units, roots: set<UnitId>, depth: nat): set<UnitId>
    decreases depth, roots
  {
    if depth == 0 then Level(units, roots, 0)
    else Down(units, roots, depth - 1) + Level(units, roots, depth)
  }

  /** The roots and everything below them. */
  function DescendantsOrSelf(units: Units, roots: set<UnitId>): set<UnitId> {
    Down(units, roots, MAX_DEPTH)
  }

  /** `to` is reached from `u` by `k` parent steps through live units. */
  ghost predicate Climbs(units: Units, u: UnitId, to: UnitId, k: nat)
    decreases k
  {
    && Live(units, u)
    && if k == 0 then u == to
       else units[u].parent.Some? && Climbs(units, units[u].parent.value, to, k - 1)
  }

  lemma {:induction false} UpIsAClimb(units: Units, u: UnitId, to: UnitId, depth: nat) returns (k: nat)
    requires to in Up(units, u, depth)
    ensures k <= depth && Climbs(units, u, to, k)
    decreases depth
  {
    if u == to {
      k := 0;
    } else {
      k := UpIsAClimb(units, units[u].parent.value, to, depth - 1);
      k := k + 1;
    }
  }

  lemma {:induction false} ClimbIsUp(units: Units, u: UnitId, to: UnitId, depth: nat, k: nat)
    requires k <= depth && Climbs(units, u, to, k)
    ensures to in Up(units, u, depth)
    decreases k
  {
    if k > 0 {
      ClimbIsUp(units, units[u].parent.value, to, depth - 1, k - 1);
    }
  }

  lemma {:induction false} LevelIsAClimb(units: Units, roots: set<UnitId>, u: UnitId, depth: nat) returns (r: UnitId)
    requires u in Level(units, roots, depth)
    ensures r in roots && Climbs(units, u, r, depth)
    decreases depth
  {
    if depth == 0 {
      r := u;
    } else {
      r := LevelIsAClimb(units, roots, units[u].parent.value, depth - 1);
    }
  }

  lemma {:induction false} ClimbIsInLevel(units: Units, roots: set<UnitId>, u: UnitId, r: UnitId, depth: nat)
    requires r in roots && Climbs(units, u, r, depth)
    ensures u in Level(units, roots, depth)
    decreases depth
  {
    if depth > 0 {
      ClimbIsInLevel(units, roots, units[u].parent.value, r, depth - 1);
    }
  }

  lemma {:induction false} DownIsALevel(units: Units, roots: set<UnitId>, u: UnitId, depth: nat) returns (k: nat)
    requires u in Down(units, roots, depth)
    ensures k <= depth && u in Level(units, roots, k)
  {
    if u in Level(units, roots, depth) {
      k := depth;
    } else {
      k := DownIsALevel(units, roots, u, depth - 1);
    }
  }

  lemma {:induction false} LevelIsDown(units: Units, roots: set<UnitId>, u: UnitId, depth: nat, k: nat)
    requires k <= depth && u in Level(units, roots, k)
    ensures u in Down(units, roots, depth)
  {
    if k < depth {
      LevelIsDown(units, roots, u, depth - 1, k);
    }
  }

  lemma CoveredIsBelow(units: Units, roots: set<UnitId>, r: UnitId, target: UnitId)
    requires r in roots && r in AncestorsOrSelf(units, Some(target))
    ensures target in DescendantsOrSelf(units, roots)
  {
    var k := UpIsAClimb(units, target, r, MAX_DEPTH);
    ClimbIsInLevel(units, roots, target, r, k);
    LevelIsDown(units, roots, target, MAX_DEPTH, k);
  }

  lemma BelowIsCovered(units: Units, roots: set<UnitId>, target: UnitId) returns (r: UnitId)
    requires target in DescendantsOrSelf(units, roots)
    ensures r in roots && r in AncestorsOrSelf(units, Some(target))
  {
    var k := DownIsALevel(units, roots, target, MAX_DEPTH);
    r := LevelIsAClimb(units, roots, target, k);
    ClimbIsUp(units, target, r, MAX_DEPTH, k);
  }

  /** The walks are dual: a unit lies below the roots exactly when one of the roots
      is on the unit's path to the top. */
  lemma WalksAreDual(units: Units, roots: set<UnitId>, target: UnitId)
    ensures target in DescendantsOrSelf(units, roots)
       <==> exists r :: r in roots && r in AncestorsOrSelf(units, Some(target))
  {
    if target in DescendantsOrSelf(units, roots) {
      var r := BelowIsCovered(units, roots, target);
    }
    forall r | r in roots && r in AncestorsOrSelf(units, Some(target))
      ensures target in DescendantsOrSelf(units, roots)
    {
      CoveredIsBelow(units, roots, r, target);
    }
  }

  // ---- scoped authorization -------------------------------------------------------

  /** One row of the grant/role/permission join. */
  datatype Grant = Grant(
    user: UserId, perm: string, scope: Option<UnitId>, validFrom: Option<int>, validTo: Option<int>, deleted: bool)

  predicate InWindow(g: Grant, now: int) {
    && !g.deleted
    && (g.validFrom.None? || g.validFrom.value <= now)
    && (g.validTo.None? || g.validTo.value > now)
  }

  /** The scopes at which the user holds the permission; `None` is a global grant. */
  function ScopedOrgUnits(grants: set<Grant>, user: UserId, perm: string, now: int): set<Option<UnitId>> {
    set g | g in grants && g.user == user && g.perm == perm && InWindow(g, now) :: g.scope
  }

  predicate AuthorizeScoped(
    units: Units, grants: set<Grant>, user: UserId, perm: string, target: Option<UnitId>, now: int)
  {
    var scopes := ScopedOrgUnits(grants, user, perm, now);
    if scopes == {} then false
    else if None in scopes then true
    else if target.None? then false
    else
      var covered := AncestorsOrSelf(units, target);
      exists s :: s in scopes && s.Some? && s.value in covered
  }

  function UnitsOf(scopes: set<Option<UnitId>>): set<UnitId> {
    set s | s in scopes && s.Some? :: s.value
  }

  /** One request and one list ask the same question: a target passes exactly when
      the permission is held globally or the target is in the subtree of the scopes. */
  lemma AuthorizedIsListed(
    units: Units, grants: set<Grant>, user: UserId, perm: string, target: Option<UnitId>, now: int)
    ensures AuthorizeScoped(units, grants, user, perm, target, now)
       <==> (|| None in ScopedOrgUnits(grants, user, perm, now)
             || (&& target.Some?
                 && target.value in DescendantsOrSelf(units, UnitsOf(ScopedOrgUnits(grants, user, perm, now)))))
  {
    var scopes := ScopedOrgUnits(grants, user, perm, now);
    if target.Some? {
      assert target == Some(target.value);
      if target.value in DescendantsOrSelf(units, UnitsOf(scopes)) {
        var r := BelowIsCovered(units, UnitsOf(scopes), target.value);
        assert Some(r) in scopes && Some(r).value in AncestorsOrSelf(units, target);
      }
      forall s | s in scopes && s.Some? && s.value in AncestorsOrSelf(units, target)
        ensures target.value in DescendantsOrSelf(units, UnitsOf(scopes))
      {
        CoveredIsBelow(units, UnitsOf(scopes), s.value, target.value);
      }
    }
  }

  /** The unit climbs to `to` in at most 64 parent steps through live units. */
  ghost predicate ClimbsWithin64(units: Units, u: UnitId, to: UnitId) {
    exists k: nat :: k <= 64 && Climbs(units, u, to, k)
  }

  lemma UpIsWithin64(units: Units, u: UnitId, to: UnitId)
    ensures to in AncestorsOrSelf(units, Some(u)) <==> ClimbsWithin64(units, u, to)
  {
    if to in AncestorsOrSelf(units, Some(u)) {
      var k := UpIsAClimb(units, u, to, MAX_DEPTH);
    }
    forall k: nat | k <= 64 && Climbs(units, u, to, k) ensures to in AncestorsOrSelf(units, Some(u)) {
      ClimbIsUp(units, u, to, MAX_DEPTH, k);
    }
  }

  /** A grant of the permission to the user, not deleted, started by now and not ended by now,
      and either global or at a unit that the target climbs to. */
  ghost predicate Gives(units: Units, g: Grant, user: UserId, perm: string, target: Option<UnitId>, now: int) {
    && g.user == user && g.perm == perm && !g.deleted
    && (g.validFrom.Some? ==> g.validFrom.value <= now)
    && (g.validTo.Some? ==> now < g.validTo.value)
    && (g.scope.None? || (target.Some? && ClimbsWithin64(units, target.value, g.scope.value)))
  }

  ghost predicate HoldsOver(
    units: Units, grants: set<Grant>, user: UserId, perm: string, target: Option<UnitId>, now: int)
  {
    exists g :: g in grants && Gives(units, g, user, perm, target, now)
  }

  /** A user passes on a target exactly when some grant gives it. */
  lemma AuthorizedIsGiven(
    units: Units, grants: set<Grant>, user: UserId, perm: string, target: Option<UnitId>, now: int)
    ensures AuthorizeScoped(units, grants, user, perm, target, now)
       <==> HoldsOver(units, grants, user, perm, target, now)
  {
    var scopes := ScopedOrgUnits(grants, user, perm, now);
    forall g | g in grants && Gives(units, g, user, perm, target, now)
      ensures AuthorizeScoped(units, grants, user, perm, target, now)
    {
      assert g.scope in scopes;
      if g.scope.Some? {
        UpIsWithin64(units, target.value, g.scope.value);
        assert target == Some(target.value);
      }
    }
    if AuthorizeScoped(units, grants, user, perm, target, now) {
      var s :| s in scopes && (s.None? || (target.Some? && s.value in AncestorsOrSelf(units, target)));
      var g :| g in grants && g.user == user && g.perm == perm && InWindow(g, now) && g.scope == s;
      if s.Some? {
        UpIsWithin64(units, target.value, s.value);
        assert target == Some(target.value);
      }
      assert Gives(units, g, user, perm, target, now);
    }
  }

  // ---- the inverse question: who holds a permission over a target ---------------

  datatype User = User(active: bool, deleted: bool)

  function PermissionHolders(
    units: Units, grants: set<Grant>, users: map<UserId, User>, perm: string, target: Option<UnitId>, now: int)
    : set<(UserId, Option<UnitId>)>
  {
    var covered := AncestorsOrSelf(units, target);
    set g | g in grants && g.perm == perm && InWindow(g, now)
            && g.user in users && users[g.user].active && !users[g.user].deleted
            && (g.scope.None? || g.scope.value in covered)
         :: (g.user, g.scope)
  }

  /** A user is listed as a holder exactly when live, active and authorized, and the
      scopes listed are exactly the covering ones. */
  lemma HoldersAreTheAuthorized(
    units: Units, grants: set<Grant>, users: map<UserId, User>, perm: string, target: Option<UnitId>, now: int,
    user: UserId)
    ensures (exists scope :: (user, scope) in PermissionHolders(units, grants, users, perm, target, now))
       <==> user in users && users[user].active && !users[user].deleted
            && AuthorizeScoped(units, grants, user, perm, target, now)
    ensures forall scope :: (user, scope) in PermissionHolders(units, grants, users, perm, target, now) <==>
              && user in users && users[user].active && !users[user].deleted
              && scope in ScopedOrgUnits(grants, user, perm, now)
              && (scope.None? || scope.value in AncestorsOrSelf(units, target))
  {
    var holders := PermissionHolders(units, grants, users, perm, target, now);
    var scopes := ScopedOrgUnits(grants, user, perm, now);
    if scope :| (user, scope) in holders {
      assert scope in scopes;
    }
    if user in users && users[user].active && !users[user].deleted
       && AuthorizeScoped(units, grants, user, perm, target, now)
    {
      if None in scopes {
        assert (user, None) in holders;
      } else {
        var s :| s in scopes && s.Some? && s.value in AncestorsOrSelf(units, target);
        assert (user, s) in holders;
      }
    }
  }

  // ---- delegated authority -----------------------------------------------------------

  datatype Delegation = Delegation(
    delegate: UserId, delegator: UserId, startsAt: int, endsAt: int,
    definition: Option<int>, scope: Option<UnitId>, deleted: bool)

  datatype Authority = Authority(authorized: bool, onBehalfOf: Option<UserId>)

  /** The delegation query; a unit id of 0 counts as no unit, as in the source. */
  predicate Candidate(
    units: Units, d: Delegation, actor: UserId, target: Option<UnitId>, definition: Option<int>, now: int)
  {
    var covering := if target == Some(0) then [] else AncestorsOrSelf(units, target);
    && !d.deleted && d.delegate == actor && d.startsAt <= now < d.endsAt
    && (d.definition.None? || d.definition == definition)
    && (d.scope.None? || d.scope.value in covering)
  }

  /** The first delegation, in query order, whose delegator is authorized. */
  function FirstDelegation(
    units: Units, grants: set<Grant>, delegations: seq<Delegation>, actor: UserId, perm: string,
    target: Option<UnitId>, definition: Option<int>, now: int, clock: int): Authority
    decreases |delegations|
  {
    if delegations == [] then Authority(false, None)
    else if Candidate(units, delegations[0], actor, target, definition, now)
            && AuthorizeScoped(units, grants, delegations[0].delegator, perm, target, clock)
      then Authority(true, Some(delegations[0].delegator))
    else FirstDelegation(units, grants, delegations[1..], actor, perm, target, definition, now, clock)
  }

  /** `clock` is the time the grant queries read; `now` is the time of the action. */
  function ResolveAuthority(
    units: Units, grants: set<Grant>, delegations: seq<Delegation>, actor: UserId, perm: Option<string>,
    target: Option<UnitId>, definition: Option<int>, now: int, clock: int): Authority
  {
    if perm.None? then Authority(true, None)
    else if AuthorizeScoped(units, grants, actor, perm.value, target, clock) then Authority(true, None)
    else FirstDelegation(units, grants, delegations, actor, perm.value, target, definition, now, clock)
  }

  /** A delegation lends `delegator`'s own authority over the target to the actor. */
  ghost predicate Lends(
    units: Units, grants: set<Grant>, d: Delegation, actor: UserId, perm: string,
    target: Option<UnitId>, definition: Option<int>, now: int, clock: int)
  {
    && !d.deleted && d.delegate == actor && d.startsAt <= now < d.endsAt
    && (d.definition.None? || d.definition == definition)
    && (|| d.scope.None?
        || (target.Some? && target.value != 0 && target.value in DescendantsOrSelf(units, {d.scope.value})))
    && AuthorizeScoped(units, grants, d.delegator, perm, target, clock)
  }

  lemma CandidateLends(
    units: Units, grants: set<Grant>, d: Delegation, actor: UserId, perm: string,
    target: Option<UnitId>, definition: Option<int>, now: int, clock: int)
    ensures Lends(units, grants, d, actor, perm, target, definition, now, clock)
       <==> Candidate(units, d, actor, target, definition, now)
            && AuthorizeScoped(units, grants, d.delegator, perm, target, clock)
  {
    if d.scope.Some? && target.Some? {
      var unit := d.scope.value;
      WalksAreDual(units, {unit}, target.value);
      assert unit in AncestorsOrSelf(units, target) ==> unit in {unit} && unit in AncestorsOrSelf(units, target);
    }
  }

  lemma {:induction false} FirstDelegationLends(
    units: Units, grants: set<Grant>, delegations: seq<Delegation>, actor: UserId, perm: string,
    target: Option<UnitId>, definition: Option<int>, now: int, clock: int, a: Authority)
    requires a == FirstDelegation(units, grants, delegations, actor, perm, target, definition, now, clock)
    ensures a.authorized == a.onBehalfOf.Some?
    ensures a.authorized <==>
              exists d :: d in delegations && Lends(units, grants, d, actor, perm, target, definition, now, clock)
    ensures a.authorized ==>
              exists d :: d in delegations && d.delegator == a.onBehalfOf.value
                          && Lends(units, grants, d, actor, perm, target, definition, now, clock)
    decreases |delegations|
  {
    if delegations != [] {
      CandidateLends(units, grants, delegations[0], actor, perm, target, definition, now, clock);
      var rest := FirstDelegation(units, grants, delegations[1..], actor, perm, target, definition, now, clock);
      FirstDelegationLends(units, grants, delegations[1..], actor, perm, target, definition, now, clock, rest);
      assert forall d :: d in delegations <==> d == delegations[0] || d in delegations[1..];
    }
  }

  /** A named permission is granted exactly to its holders over the target and to the
      delegates of such holders: delegations do not chain. Acting on behalf of someone
      is recorded exactly when the actor does not hold the permission, and then names
      a delegator who does. */
  lemma AuthorityIsHeldOrLent(
    units: Units, grants: set<Grant>, delegations: seq<Delegation>, actor: UserId, perm: string,
    target: Option<UnitId>, definition: Option<int>, now: int, clock: int, a: Authority)
    requires a == ResolveAuthority(units, grants, delegations, actor, Some(perm), target, definition, now, clock)
    ensures a.authorized <==>
              (|| AuthorizeScoped(units, grants, actor, perm, target, clock)
               || exists d :: d in delegations && Lends(units, grants, d, actor, perm, target, definition, now, clock))
    ensures a.authorized && a.onBehalfOf.None? <==> AuthorizeScoped(units, grants, actor, perm, target, clock)
    ensures a.onBehalfOf.Some? ==>
              exists d :: d in delegations && d.delegator == a.onBehalfOf.value
                          && Lends(units, grants, d, actor, perm, target, definition, now, clock)
  {
    var lent := FirstDelegation(units, grants, delegations, actor, perm, target, definition, now, clock);
    FirstDelegationLends(units, grants, delegations, actor, perm, target, definition, now, clock, lent);
  }

  /** A delegation to the actor, not deleted and in its window, for this definition or any, for a
      unit the target climbs to or any, from someone who holds the permission over the target. */
  ghost predicate LendsOver(
    units: Units, grants: set<Grant>, d: Delegation, actor: UserId, perm: string,
    target: Option<UnitId>, definition: Option<int>, now: int, clock: int)
  {
    && !d.deleted && d.delegate == actor && d.startsAt <= now && now < d.endsAt
    && (d.definition.Some? ==> d.definition == definition)
    && (d.scope.Some? ==> target.Some? && target.value != 0 && ClimbsWithin64(units, target.value, d.scope.value))
    && HoldsOver(units, grants, d.delegator, perm, target, clock)
  }

  lemma LendingIsSpelledOut(
    units: Units, grants: set<Grant>, d: Delegation, actor: UserId, perm: string,
    target: Option<UnitId>, definition: Option<int>, now: int, clock: int)
    ensures Lends(units, grants, d, actor, perm, target, definition, now, clock)
       <==> LendsOver(units, grants, d, actor, perm, target, definition, now, clock)
  {
    CandidateLends(units, grants, d, actor, perm, target, definition, now, clock);
    AuthorizedIsGiven(units, grants, d.delegator, perm, target, clock);
    if d.scope.Some? && target.Some? {
      UpIsWithin64(units, target.value, d.scope.value);
      assert target == Some(target.value);
    }
  }

  /** Authority over a permission, from the grants and delegations alone: nothing is asked for, a
      grant gives it to the actor, or a delegation lends it. */
  ghost predicate MayUse(
    units: Units, grants: set<Grant>, delegations: seq<Delegation>, actor: UserId, perm: Option<string>,
    target: Option<UnitId>, definition: Option<int>, now: int, clock: int)
  {
    perm.Some? ==>
      || HoldsOver(units, grants, actor, perm.value, target, clock)
      || exists d :: d in delegations && LendsOver(units, grants, d, actor, perm.value, target, definition, now, clock)
  }

  /** Exactly that is authorized, and somebody is acted for exactly when only a delegation gives
      it: then it is somebody who lends. */
  lemma AuthorityIsSpelledOut(
    units: Units, grants: set<Grant>, delegations: seq<Delegation>, actor: UserId, perm: Option<string>,
    target: Option<UnitId>, definition: Option<int>, now: int, clock: int)
    ensures var a := ResolveAuthority(units, grants, delegations, actor, perm, target, definition, now, clock);
            && (a.authorized <==> MayUse(units, grants, delegations, actor, perm, target, definition, now, clock))
            && (a.authorized ==>
                  (a.onBehalfOf.None? <==> perm.None? || HoldsOver(units, grants, actor, perm.value, target, clock)))
            && (a.authorized && a.onBehalfOf.Some? ==>
                  exists d :: d in delegations && d.delegator == a.onBehalfOf.value
                              && LendsOver(units, grants, d, actor, perm.value, target, definition, now, clock))
  {
    if perm.Some? {
      var a := ResolveAuthority(units, grants, delegations, actor, perm, target, definition, now, clock);
      AuthorityIsHeldOrLent(units, grants, delegations, actor, perm.value, target, definition, now, clock, a);
      AuthorizedIsGiven(units, grants, actor, perm.value, target, clock);
      forall d ensures Lends(units, grants, d, actor, perm.value, target, definition, now, clock)
                  <==> LendsOver(units, grants, d, actor, perm.value, target, definition, now, clock)
      {
        LendingIsSpelledOut(units, grants, d, actor, perm.value, target, definition, now, clock);
      }
    }
  }

  /** One unit, whose holder of a permission delegates it within that unit: the delegate has
      authority there if and only if the unit's id is not 0. */
  lemma DelegationIntoUnitZeroIsLost(u: UnitId)
    ensures var units, grants := map[u := OrgUnit(None, false)], {Grant(1, "sign", Some(u), None, None, false)};
            var delegation := Delegation(2, 1, 0, 10, None, Some(u), false);
            && AuthorizeScoped(units, grants, 1, "sign", Some(u), 5)
            && var a := ResolveAuthority(units, grants, [delegation], 2, Some("sign"), Some(u), None, 5, 5);
               a.authorized <==> u != 0
  {
    var units, held := map[u := OrgUnit(None, false)], Grant(1, "sign", Some(u), None, None, false);
    var delegation := Delegation(2, 1, 0, 10, None, Some(u), false);
    assert held in {held} && Some(u) in ScopedOrgUnits({held}, 1, "sign", 5);
    assert Some(u).value in AncestorsOrSelf(units, Some(u));
    assert ScopedOrgUnits({held}, 2, "sign", 5) == {};
    assert FirstDelegation(units, {held}, [delegation][1..], 2, "sign", Some(u), None, 5, 5) == Authority(false, None);
  }
}
