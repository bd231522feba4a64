/** The permission check: does one of a user's effective bindings grant the permission on the
    target? Expiry, role catalogue and scope are decided binding by binding. */
module Authz {
  import opened Common
  import opened Casbin
  import Orgs

  const SCOPE_GLOBAL := ""
  const SCOPE_ORG := "org"
  const SCOPE_GROUP := "group"

  datatype ScopeTarget = ScopeTarget(kind: string, id: int)

  /** One role assignment that pertains to a user; `expiresAt` is None for a permanent one. */
  datatype EffectiveBinding = EffectiveBinding(
    roleId: int, permissions: set<string>, source: string, sourceId: int,
    scopeType: string, scopeId: int, expiresAt: Option<Time>)

  /** The org tree seen by the engine: whether one org is an ancestor of, or is, another;
      None stands for a failed lookup. */
  type OrgTree = (int, int) -> Option<bool>

  predicate HasPermission(permissions: set<string>, perm: string) {
    WILDCARD in permissions || perm in permissions
  }

  function BindingRoleSubject(b: EffectiveBinding): string {
    if b.roleId == 0 && WILDCARD in b.permissions then SUPER_ADMIN_ROLE else RoleSubject(b.roleId)
  }

  /** The role-to-permission half: delegated to the enforcer when there is one. */
  ghost predicate GrantsPerm(engine: Option<Enforcer>, tenantId: int, b: EffectiveBinding, perm: string) {
    match engine
    case None => HasPermission(b.permissions, perm)
    case Some(e) => Enforces(e, BindingRoleSubject(b), TenantDomain(tenantId), perm)
  }

  /** An enforcer that reports an error grants nothing. */
  method BindingGrantsPerm(engine: Option<Enforcer>, tenantId: int, b: EffectiveBinding, perm: string, fails: bool)
    returns (ok: bool)
    requires engine.Some? ==> Flat(engine.value)
    ensures ok <==> GrantsPerm(engine, tenantId, b, perm) && !(engine.Some? && fails)
  {
    match engine
    case None =>
      ok := HasPermission(b.permissions, perm);
    case Some(e) =>
      if fails {
        return false;
      }
      FlatDecision(e, BindingRoleSubject(b), TenantDomain(tenantId), perm);
      ok := EnforcesFlat(e, BindingRoleSubject(b), TenantDomain(tenantId), perm);
  }

  /** Whether the binding's scope contains the target; None stands for a lookup error. */
  function ScopeCovers(orgTree: Option<OrgTree>, b: EffectiveBinding, target: Option<ScopeTarget>): Option<bool> {
    if b.scopeType == SCOPE_GLOBAL || target.None? then Some(true)
    else if b.scopeType == SCOPE_ORG then
      if target.value.kind != SCOPE_ORG then Some(false)
      else if orgTree.None? then None
      else orgTree.value(b.scopeId, target.value.id)
    else if b.scopeType == SCOPE_GROUP then
      Some(target.value.kind == SCOPE_GROUP && b.scopeId == target.value.id)
    else Some(false)
  }

  predicate Unexpired(b: EffectiveBinding, now: Time) {
    b.expiresAt.Some? ==> now <= b.expiresAt.value
  }

  /** The binding alone is reason enough to allow. */
  ghost predicate Allows(engine: Option<Enforcer>, orgTree: Option<OrgTree>, tenantId: int, b: EffectiveBinding,
                         perm: string, target: Option<ScopeTarget>, now: Time) {
    Unexpired(b, now) && GrantsPerm(engine, tenantId, b, perm) && ScopeCovers(orgTree, b, target) == Some(true)
  }

  /** Some binding allows whose enforcer call goes through; `fails` says for which it does not. */
  ghost predicate CheckAllows(engine: Option<Enforcer>, orgTree: Option<OrgTree>, tenantId: int,
                              binds: seq<EffectiveBinding>, perm: string, target: Option<ScopeTarget>, now: Time,
                              fails: EffectiveBinding -> bool) {
    exists b :: b in binds && Allows(engine, orgTree, tenantId, b, perm, target, now) && !(engine.Some? && fails(b))
  }

  // ---- What a scope reaches ----------------------------------------------------------------

  /** Every answer that the org tree gives is right for these orgs; it may fail to give one. */
  ghost predicate AnswersFrom(orgTree: Option<OrgTree>, orgs: Orgs.Table) {
    orgTree.Some? ==> forall a, d :: orgTree.value(a, d).Some? ==>
      orgTree.value(a, d).value == Orgs.IsAncestorOrSelf(orgs, a, d)
  }

  /** The scope's extent: everything for a global one, the org and all below it, or the one group.
      A check without a target asks for no scope. */
  predicate InScope(orgs: Orgs.Table, b: EffectiveBinding, target: Option<ScopeTarget>) {
    match target
    case None => true
    case Some(t) =>
      || b.scopeType == SCOPE_GLOBAL
      || (b.scopeType == t.kind == SCOPE_ORG && Orgs.IsAncestorOrSelf(orgs, b.scopeId, t.id))
      || (b.scopeType == t.kind == SCOPE_GROUP && b.scopeId == t.id)
  }

  /** The check has to ask the org tree, and gets no answer. */
  predicate Unanswered(orgTree: Option<OrgTree>, b: EffectiveBinding, target: Option<ScopeTarget>) {
    && b.scopeType == SCOPE_ORG && target.Some? && target.value.kind == SCOPE_ORG
    && (orgTree.None? || orgTree.value(b.scopeId, target.value.id).None?)
  }

  lemma CoversExactlyItsScope(orgTree: Option<OrgTree>, orgs: Orgs.Table, b: EffectiveBinding,
                              target: Option<ScopeTarget>)
    requires AnswersFrom(orgTree, orgs)
    ensures ScopeCovers(orgTree, b, target) == Some(true)
            <==> InScope(orgs, b, target) && !Unanswered(orgTree, b, target)
    ensures ScopeCovers(orgTree, b, target).None? <==> Unanswered(orgTree, b, target)
  {
  }

  /** What is allowed on an org is allowed on every org below it, unless the tree gives no answer
      for that one. */
  lemma AllowsBelow(engine: Option<Enforcer>, orgTree: Option<OrgTree>, orgs: Orgs.Table, tenantId: int,
                    b: EffectiveBinding, perm: string, above: int, below: int, now: Time)
    requires AnswersFrom(orgTree, orgs) && Orgs.IsAncestorOrSelf(orgs, above, below)
    requires Allows(engine, orgTree, tenantId, b, perm, Some(ScopeTarget(SCOPE_ORG, above)), now)
    ensures || Allows(engine, orgTree, tenantId, b, perm, Some(ScopeTarget(SCOPE_ORG, below)), now)
            || Unanswered(orgTree, b, Some(ScopeTarget(SCOPE_ORG, below)))
  {
    if b.scopeType == SCOPE_ORG {
      Orgs.AncestryIsTransitive(orgs, b.scopeId, above, below);
    }
  }

  /** A binding scoped to an org is good for that org, whether or not the tree knows it. */
  lemma AllowsItsOwnOrg(engine: Option<Enforcer>, orgTree: Option<OrgTree>, orgs: Orgs.Table, tenantId: int,
                        b: EffectiveBinding, perm: string, now: Time)
    requires AnswersFrom(orgTree, orgs) && b.scopeType == SCOPE_ORG
    requires Allows(engine, orgTree, tenantId, b, perm, None, now)
    ensures || Allows(engine, orgTree, tenantId, b, perm, Some(ScopeTarget(SCOPE_ORG, b.scopeId)), now)
            || Unanswered(orgTree, b, Some(ScopeTarget(SCOPE_ORG, b.scopeId)))
  {
    Orgs.AncestryIsReflexive(orgs, b.scopeId);
  }

  /** The same of the whole check, if the tree answers. */
  lemma CheckAllowsBelow(engine: Option<Enforcer>, tree: OrgTree, orgs: Orgs.Table, tenantId: int,
                         binds: seq<EffectiveBinding>, perm: string, above: int, below: int, now: Time,
                         fails: EffectiveBinding -> bool)
    requires AnswersFrom(Some(tree), orgs) && Orgs.IsAncestorOrSelf(orgs, above, below)
    requires forall b :: b in binds ==> tree(b.scopeId, below).Some?
    requires CheckAllows(engine, Some(tree), tenantId, binds, perm, Some(ScopeTarget(SCOPE_ORG, above)), now, fails)
    ensures CheckAllows(engine, Some(tree), tenantId, binds, perm, Some(ScopeTarget(SCOPE_ORG, below)), now, fails)
  {
    var b :| && b in binds && !(engine.Some? && fails(b))
             && Allows(engine, Some(tree), tenantId, b, perm, Some(ScopeTarget(SCOPE_ORG, above)), now);
    AllowsBelow(engine, Some(tree), orgs, tenantId, b, perm, above, below, now);
  }

  /** A binding scoped to an org is good for no target but that org and those below it, and if it is
      good for one of them it is good for the org itself; one scoped to a group is good for that
      group alone. */
  lemma ReachesNoFurther(engine: Option<Enforcer>, orgTree: Option<OrgTree>, orgs: Orgs.Table, tenantId: int,
                         b: EffectiveBinding, perm: string, target: ScopeTarget, now: Time)
    requires AnswersFrom(orgTree, orgs) && b.scopeType != SCOPE_GLOBAL
    requires Allows(engine, orgTree, tenantId, b, perm, Some(target), now)
    ensures b.scopeType == SCOPE_ORG || b.scopeType == SCOPE_GROUP
    ensures b.scopeType == SCOPE_GROUP ==> target == ScopeTarget(SCOPE_GROUP, b.scopeId)
    ensures b.scopeType == SCOPE_ORG ==>
              && target.kind == SCOPE_ORG && Orgs.IsAncestorOrSelf(orgs, b.scopeId, target.id)
              && (|| Allows(engine, orgTree, tenantId, b, perm, Some(ScopeTarget(SCOPE_ORG, b.scopeId)), now)
                  || Unanswered(orgTree, b, Some(ScopeTarget(SCOPE_ORG, b.scopeId))))
  {
    if b.scopeType == SCOPE_ORG {
      assert Orgs.IsAncestorOrSelf(orgs, b.scopeId, b.scopeId);
    }
  }

  /** One binding is enough, if no enforcer call fails; what the others say does not matter. */
  lemma OneBindingIsEnough(engine: Option<Enforcer>, orgTree: Option<OrgTree>, tenantId: int,
                           binds: seq<EffectiveBinding>, perm: string, target: Option<ScopeTarget>, now: Time,
                           fails: EffectiveBinding -> bool, b: EffectiveBinding)
    requires b in binds && Allows(engine, orgTree, tenantId, b, perm, target, now) && (engine.None? || !fails(b))
    ensures CheckAllows(engine, orgTree, tenantId, binds, perm, target, now, fails)
  {
  }

  /** A binding that allows at one instant allows, as long as the policies stay, at exactly the
      instants up to its expiry. */
  lemma AllowsUntilExpiry(engine: Option<Enforcer>, orgTree: Option<OrgTree>, tenantId: int, b: EffectiveBinding,
                          perm: string, target: Option<ScopeTarget>, now: Time, other: Time)
    requires Allows(engine, orgTree, tenantId, b, perm, target, now)
    ensures Allows(engine, orgTree, tenantId, b, perm, target, other)
            <==> b.expiresAt.None? || other <= b.expiresAt.value
  {
  }

  // ---- The check ----------------------------------------------------------------------------

  /** An error exactly for malformed input or a failed load; otherwise the answer is allow
      exactly when some binding allows, and an enforcer call or a scope lookup that fails counts
      against it. `loaded` is None when no binding provider is configured. */
  method Check(engine: Option<Enforcer>, orgTree: Option<OrgTree>, tenantId: int,
               loaded: Option<Result<seq<EffectiveBinding>>>, perm: string, target: Option<ScopeTarget>, now: Time,
               fails: EffectiveBinding -> bool)
    returns (r: Result<bool>)
    requires engine.Some? ==> Flat(engine.value)
    ensures r.Err? <==> perm == "" || loaded.None? || loaded.value.Err?
    ensures r.Ok? ==>
              (r.value <==> CheckAllows(engine, orgTree, tenantId, loaded.value.value, perm, target, now, fails))
  {
    if perm == "" {
      return Err("authz: empty permission");
    }
    if loaded.None? {
      return Err("authz: binding provider not configured");
    }
    if loaded.value.Err? {
      return Err("load effective bindings: " + loaded.value.message);
    }
    var binds := loaded.value.value;
    for i := 0 to |binds|
      invariant forall k :: 0 <= k < i ==>
                  !Allows(engine, orgTree, tenantId, binds[k], perm, target, now) || (engine.Some? && fails(binds[k]))
    {
      var b := binds[i];
      if b.expiresAt.Some? && b.expiresAt.value < now {
        continue;
      }
      var granted := BindingGrantsPerm(engine, tenantId, b, perm, fails(b));
      if !granted {
        continue;
      }
      var covered := ScopeCovers(orgTree, b, target);
      if covered.None? {
        continue;
      }
      if covered.value {
        assert b in binds;
        return Ok(true);
      }
    }
    return Ok(false);
  }
}
