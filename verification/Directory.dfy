/** The admin tables and the two readings of them: the bindings a user effectively holds, with
    the permission codes inlined, and the role catalogue that the enforcer is rebuilt from. */
module Directory {
  import opened Common
  import opened Casbin
  import opened Authz
  import Orgs

  datatype User = User(tenantId: int, superAdmin: bool, deleted: bool)

  datatype Role = Role(tenantId: int, deleted: bool)

  datatype RoleBinding = RoleBinding(
    roleId: int, subjectType: string, subjectId: int, scopeType: Option<string>, scopeId: Option<int>,
    expiresAt: Option<Time>, status: int)

  /** Tables keyed by id. `rolePermissions` holds (role id, permission id), `members` holds (user id,
      org id), and `groupsOf` gives a user's groups per (tenant, user). */
  datatype Database = Database(
    users: map<int, User>, roles: map<int, Role>, bindings: map<int, RoleBinding>,
    permissions: map<int, string>, rolePermissions: set<(int, int)>,
    groupsOf: map<(int, int), set<int>>, orgs: Orgs.Table, members: set<(int, int)>)

  const BINDING_ACTIVE := 1

  function GroupIds(db: Database, tenantId: int, userId: int): set<int> {
    if (tenantId, userId) in db.groupsOf then db.groupsOf[(tenantId, userId)] else {}
  }

  /** The orgs of the tenant that the user belongs to, with all their ancestors. */
  function OrgIds(db: Database, tenantId: int, userId: int): set<int> {
    Orgs.AncestorIds(db.orgs, db.members, tenantId, userId)
  }

  predicate IsSuperAdmin(db: Database, tenantId: int, userId: int) {
    userId in db.users && db.users[userId] == User(tenantId, true, false)
  }

  predicate LiveRole(db: Database, tenantId: int, roleId: int) {
    roleId in db.roles && db.roles[roleId] == Role(tenantId, false)
  }

  /** The binding's subject is the user, one of their groups, or one of their orgs. */
  predicate Concerns(db: Database, tenantId: int, userId: int, b: RoleBinding) {
    || (b.subjectType == "user" && b.subjectId == userId)
    || (b.subjectType == "group" && b.subjectId in GroupIds(db, tenantId, userId))
    || (b.subjectType == "org" && b.subjectId in OrgIds(db, tenantId, userId))
  }

  predicate InForce(b: RoleBinding, now: Time) {
    b.status == BINDING_ACTIVE && (b.expiresAt.Some? ==> now < b.expiresAt.value)
  }

  predicate Selected(db: Database, tenantId: int, userId: int, now: Time, b: RoleBinding) {
    LiveRole(db, tenantId, b.roleId) && InForce(b, now) && Concerns(db, tenantId, userId, b)
  }

  /** One row of the SELECT DISTINCT over the binding table. */
  datatype Row = Row(
    roleId: int, scopeType: Option<string>, scopeId: Option<int>, source: string, sourceId: int,
    expiresAt: Option<Time>)

  function ToRow(b: RoleBinding): Row {
    var source := if b.subjectType == "group" || b.subjectType == "org" then b.subjectType else "direct";
    Row(b.roleId, b.scopeType, b.scopeId, source, b.subjectId, b.expiresAt)
  }

  function BindingRows(db: Database, tenantId: int, userId: int, now: Time): set<Row> {
    set id | id in db.bindings && Selected(db, tenantId, userId, now, db.bindings[id]) :: ToRow(db.bindings[id])
  }

  function CodesOf(db: Database, roleId: int): set<string> {
    set rp | rp in db.rolePermissions && rp.0 == roleId && rp.1 in db.permissions :: db.permissions[rp.1]
  }

  function ToEffective(row: Row, codes: set<string>): EffectiveBinding {
    EffectiveBinding(row.roleId, codes, row.source, row.sourceId,
                     if row.scopeType.Some? then row.scopeType.value else SCOPE_GLOBAL,
                     if row.scopeId.Some? then row.scopeId.value else 0, row.expiresAt)
  }

  function SuperAdminBinding(userId: int): EffectiveBinding {
    EffectiveBinding(0, {WILDCARD}, "super_admin", userId, SCOPE_GLOBAL, 0, None)
  }

  /** Everything a user holds at an instant. */
  function Effective(db: Database, tenantId: int, userId: int, now: Time): set<EffectiveBinding> {
    if IsSuperAdmin(db, tenantId, userId) then {SuperAdminBinding(userId)}
    else set row | row in BindingRows(db, tenantId, userId, now) :: ToEffective(row, CodesOf(db, row.roleId))
  }

  // ---- Whose rows they are -------------------------------------------------------------------

  /** The row gives the user this binding: it is active and unexpired, its role is one of the tenant's
      that is not deleted, and its subject is the user, one of the user's groups, or an org that the
      user belongs to or that lies above one. */
  ghost predicate Gives(db: Database, tenantId: int, userId: int, now: Time, row: RoleBinding, b: EffectiveBinding) {
    && row.status == 1 && (row.expiresAt.None? || row.expiresAt.value > now)
    && row.roleId in db.roles && db.roles[row.roleId].tenantId == tenantId && !db.roles[row.roleId].deleted
    && b.roleId == row.roleId && b.expiresAt == row.expiresAt && b.sourceId == row.subjectId
    && (row.scopeType == Some(b.scopeType) || (row.scopeType.None? && b.scopeType == SCOPE_GLOBAL))
    && (row.scopeId == Some(b.scopeId) || (row.scopeId.None? && b.scopeId == 0))
    && (match row.subjectType
        case "user" => b.source == "direct" && b.sourceId == userId
        case "group" => b.source == "group" && b.sourceId in GroupIds(db, tenantId, userId)
        case "org" => b.source == "org" && Inherits(db, tenantId, userId, b.sourceId)
        case _ => false)
    && forall code :: code in b.permissions <==>
         exists p :: (row.roleId, p) in db.rolePermissions && p in db.permissions && db.permissions[p] == code
  }

  ghost predicate Inherits(db: Database, tenantId: int, userId: int, org: int) {
    && org in db.orgs && db.orgs[org].tenantId == tenantId
    && exists m :: (userId, m) in db.members && m in db.orgs && Orgs.IsAncestorOrSelf(db.orgs, org, m)
  }

  lemma CodesMean(db: Database, roleId: int, code: string)
    ensures code in CodesOf(db, roleId)
            <==> exists p :: (roleId, p) in db.rolePermissions && p in db.permissions && db.permissions[p] == code
  {
    if code in CodesOf(db, roleId) {
      var rp :| rp in db.rolePermissions && rp.0 == roleId && rp.1 in db.permissions && db.permissions[rp.1] == code;
      var p := rp.1;
      assert (roleId, p) in db.rolePermissions && p in db.permissions;
    } else {
      forall p | (roleId, p) in db.rolePermissions && p in db.permissions
        ensures db.permissions[p] != code
      {
        var rp := (roleId, p);
        assert rp in db.rolePermissions && rp.0 == roleId && rp.1 in db.permissions;
      }
    }
  }

  /** A selected row gives the binding made of it and no other. */
  lemma SelectedGives(db: Database, tenantId: int, userId: int, now: Time, row: RoleBinding, b: EffectiveBinding)
    ensures Gives(db, tenantId, userId, now, row, b)
            <==> Selected(db, tenantId, userId, now, row) && b == ToEffective(ToRow(row), CodesOf(db, row.roleId))
  {
    forall code ensures code in CodesOf(db, row.roleId)
        <==> exists p :: (row.roleId, p) in db.rolePermissions && p in db.permissions && db.permissions[p] == code {
      CodesMean(db, row.roleId, code);
    }
    Orgs.InheritedFrom(db.orgs, db.members, tenantId, userId, row.subjectId);
    if Gives(db, tenantId, userId, now, row, b) {
      assert b.permissions == CodesOf(db, row.roleId);
    }
  }

  /** For a user who is no super admin, every effective binding goes back to a row of the table that
      gives it, and every such row yields its binding. */
  lemma EffectiveIffGiven(db: Database, tenantId: int, userId: int, now: Time, b: EffectiveBinding)
    requires !(userId in db.users && db.users[userId].tenantId == tenantId && db.users[userId].superAdmin
               && !db.users[userId].deleted)
    ensures b in Effective(db, tenantId, userId, now)
            <==> exists id :: id in db.bindings && Gives(db, tenantId, userId, now, db.bindings[id], b)
  {
    forall id | id in db.bindings
      ensures Gives(db, tenantId, userId, now, db.bindings[id], b)
              <==> Selected(db, tenantId, userId, now, db.bindings[id])
                   && b == ToEffective(ToRow(db.bindings[id]), CodesOf(db, db.bindings[id].roleId))
    {
      SelectedGives(db, tenantId, userId, now, db.bindings[id], b);
    }
    if b in Effective(db, tenantId, userId, now) {
      var row :| row in BindingRows(db, tenantId, userId, now) && b == ToEffective(row, CodesOf(db, row.roleId));
      var id :| id in db.bindings && Selected(db, tenantId, userId, now, db.bindings[id])
                && row == ToRow(db.bindings[id]);
    }
    if id :| id in db.bindings && Gives(db, tenantId, userId, now, db.bindings[id], b) {
      assert ToRow(db.bindings[id]) in BindingRows(db, tenantId, userId, now);
    }
  }

  /** A super admin of the tenant holds the one wildcard binding, whatever the binding table says. */
  lemma SuperAdminHoldsEverything(db: Database, tenantId: int, userId: int, now: Time)
    requires userId in db.users && db.users[userId] == User(tenantId, true, false)
    ensures exists b :: Effective(db, tenantId, userId, now) == {b} && b.permissions == {WILDCARD}
                        && b.scopeType == SCOPE_GLOBAL && b.expiresAt.None?
                        && b.source == "super_admin" && b.sourceId == userId
  {
    assert Effective(db, tenantId, userId, now) == {SuperAdminBinding(userId)};
  }

  /** The row is for someone else: another user, a group that is none of the user's, or an org that
      the user does not inherit from. */
  ghost predicate Foreign(db: Database, tenantId: int, userId: int, row: RoleBinding) {
    match row.subjectType
    case "user" => row.subjectId != userId
    case "group" => row.subjectId !in GroupIds(db, tenantId, userId)
    case "org" => !Inherits(db, tenantId, userId, row.subjectId)
    case _ => true
  }

  /** Adding, changing and removing rows that are for someone else changes nothing for the user. */
  lemma ForeignRowsDoNotMatter(db: Database, bindings: map<int, RoleBinding>, tenantId: int, userId: int, now: Time)
    requires forall id :: id in db.bindings && (id !in bindings || bindings[id] != db.bindings[id]) ==>
               Foreign(db, tenantId, userId, db.bindings[id])
    requires forall id :: id in bindings && (id !in db.bindings || bindings[id] != db.bindings[id]) ==>
               Foreign(db, tenantId, userId, bindings[id])
    ensures Effective(db.(bindings := bindings), tenantId, userId, now) == Effective(db, tenantId, userId, now)
  {
    var db' := db.(bindings := bindings);
    if !IsSuperAdmin(db, tenantId, userId) {
      forall b ensures b in Effective(db', tenantId, userId, now) <==> b in Effective(db, tenantId, userId, now) {
        EffectiveIffGiven(db, tenantId, userId, now, b);
        EffectiveIffGiven(db', tenantId, userId, now, b);
        forall row ensures Gives(db', tenantId, userId, now, row, b) <==> Gives(db, tenantId, userId, now, row, b) {
          SelectedGives(db, tenantId, userId, now, row, b);
          SelectedGives(db', tenantId, userId, now, row, b);
        }
      }
    }
  }

  /** Which queries of one lookup succeed. */
  datatype Queries = Queries(user: bool, groups: bool, orgs: bool, bindings: bool, permissions: bool)

  /** The tables as a lookup sees them: a failed query for groups, orgs or permissions finds nothing. */
  function Seen(db: Database, q: Queries): Database {
    db.(groupsOf := if q.groups then db.groupsOf else map[], members := if q.orgs then db.members else {},
        rolePermissions := if q.permissions then db.rolePermissions else {})
  }

  /** A lookup that overlooks failed queries never gives more than one that sees everything: each
      binding it returns is really held, with at least those permissions. */
  lemma OverlookedErrorsOnlyTakeAway(db: Database, q: Queries, tenantId: int, userId: int, now: Time,
      b: EffectiveBinding)
    returns (held: EffectiveBinding)
    requires b in Effective(Seen(db, q), tenantId, userId, now)
    ensures held in Effective(db, tenantId, userId, now) && b.permissions <= held.permissions
    ensures b == held.(permissions := b.permissions)
  {
    held := b;
    if !IsSuperAdmin(db, tenantId, userId) {
      var row :| row in BindingRows(Seen(db, q), tenantId, userId, now)
                 && b == ToEffective(row, CodesOf(Seen(db, q), row.roleId));
      assert row in BindingRows(db, tenantId, userId, now);
      held := ToEffective(row, CodesOf(db, row.roleId));
    }
  }

  /** Reads the bindings, then the permission codes of all their roles in one query, and joins the two
      in memory. Only a failure to read the user or the bindings is reported. */
  method EffectiveBindingsForUser(tables: Database, q: Queries, tenantId: int, userId: int, now: Time)
    returns (r: Result<seq<EffectiveBinding>>)
    ensures r.Err? <==> !q.user || (!IsSuperAdmin(tables, tenantId, userId) && !q.bindings)
    ensures r.Ok? ==> Members(r.value) == Effective(Seen(tables, q), tenantId, userId, now)
  {
    if !q.user {
      return Err("user query failed");
    }
    if IsSuperAdmin(tables, tenantId, userId) {
      return Ok([SuperAdminBinding(userId)]);
    }
    if !q.bindings {
      return Err("binding query failed");
    }
    var out := JoinBindings(Seen(tables, q), tenantId, userId, now);
    return Ok(out);
  }

  method JoinBindings(db: Database, tenantId: int, userId: int, now: Time) returns (out: seq<EffectiveBinding>)
    requires !IsSuperAdmin(db, tenantId, userId)
    ensures Members(out) == Effective(db, tenantId, userId, now)
  {
    var rows := Scan(BindingRows(db, tenantId, userId, now));
    if |rows| == 0 {
      return [];
    }
    var roleSet: set<int> := {};
    for i := 0 to |rows|
      invariant forall k :: 0 <= k < i ==> rows[k].roleId in roleSet
    {
      roleSet := roleSet + {rows[i].roleId};
    }
    var codesByRole := CodesByRole(db, roleSet);
    out := [];
    for i := 0 to |rows|
      invariant |out| == i
      invariant forall k :: 0 <= k < i ==> out[k] == ToEffective(rows[k], CodesOf(db, rows[k].roleId))
    {
      out := out + [ToEffective(rows[i], Codes(codesByRole, rows[i].roleId))];
    }
    JoinedRows(db, tenantId, userId, now, rows, out);
  }

  lemma JoinedRows(db: Database, tenantId: int, userId: int, now: Time, rows: seq<Row>, out: seq<EffectiveBinding>)
    requires !IsSuperAdmin(db, tenantId, userId) && Members(rows) == BindingRows(db, tenantId, userId, now)
    requires |out| == |rows| && forall k :: 0 <= k < |rows| ==>
               out[k] == ToEffective(rows[k], CodesOf(db, rows[k].roleId))
    ensures Members(out) == Effective(db, tenantId, userId, now)
  {
    forall row | row in Members(rows)
      ensures ToEffective(row, CodesOf(db, row.roleId)) in Members(out)
    {
      var k :| 0 <= k < |rows| && rows[k] == row;
      assert out[k] in out;
    }
    forall b | b in Members(out)
      ensures b in Effective(db, tenantId, userId, now)
    {
      var k :| 0 <= k < |out| && out[k] == b;
      assert rows[k] in Members(rows);
    }
  }

  /** The codes of all the roles, by one query and one pass over its rows. */
  method CodesByRole(db: Database, roleSet: set<int>) returns (codesByRole: map<int, set<string>>)
    ensures forall r :: r in roleSet ==> Codes(codesByRole, r) == CodesOf(db, r)
  {
    var permRows := Scan(set rp | rp in db.rolePermissions && rp.0 in roleSet && rp.1 in db.permissions
                             :: (rp.0, db.permissions[rp.1]));
    codesByRole := map[];
    for i := 0 to |permRows|
      invariant forall r :: Codes(codesByRole, r) == CodesIn(permRows[..i], r)
    {
      var p := permRows[i];
      assert permRows[..i + 1] == permRows[..i] + [p];
      var grown := codesByRole[p.0 := Codes(codesByRole, p.0) + {p.1}];
      forall r ensures Codes(grown, r) == CodesIn(permRows[..i + 1], r) {
        CodesInOneMore(permRows[..i], p, r);
      }
      codesByRole := grown;
    }
    assert permRows[..|permRows|] == permRows;
    forall r | r in roleSet
      ensures Codes(codesByRole, r) == CodesOf(db, r)
    {
      JoinedCodes(db, roleSet, permRows, r);
    }
  }

  function Codes(codesByRole: map<int, set<string>>, roleId: int): set<string> {
    if roleId in codesByRole then codesByRole[roleId] else {}
  }

  function CodesIn(permRows: seq<(int, string)>, roleId: int): set<string> {
    set p | p in permRows && p.0 == roleId :: p.1
  }

  lemma CodesInOneMore(permRows: seq<(int, string)>, p: (int, string), roleId: int)
    ensures CodesIn(permRows + [p], roleId) == CodesIn(permRows, roleId) + if p.0 == roleId then {p.1} else {}
  {
  }

  /** Fetching codes for a set of roles and splitting them up again loses none of them. */
  lemma JoinedCodes(db: Database, roleSet: set<int>, permRows: seq<(int, string)>, roleId: int)
    requires roleId in roleSet
    requires Members(permRows) == set rp | rp in db.rolePermissions && rp.0 in roleSet && rp.1 in db.permissions
                                      :: (rp.0, db.permissions[rp.1])
    ensures CodesIn(permRows, roleId) == CodesOf(db, roleId)
  {
    forall p | p in permRows && p.0 == roleId
      ensures p.1 in CodesOf(db, roleId)
    {
      assert p in Members(permRows);
    }
    forall code | code in CodesOf(db, roleId)
      ensures exists p :: p in permRows && p.0 == roleId && p.1 == code
    {
      var rp :| rp in db.rolePermissions && rp.0 == roleId && rp.1 in db.permissions && db.permissions[rp.1] == code;
      assert (rp.0, db.permissions[rp.1]) in Members(permRows);
    }
  }

  // ---- The catalogue for the enforcer -------------------------------------------------

  function PolicySet(db: Database): set<RolePolicy> {
    set rp | rp in db.rolePermissions && rp.0 in db.roles && !db.roles[rp.0].deleted && rp.1 in db.permissions
      :: RolePolicy(db.roles[rp.0].tenantId, rp.0, db.permissions[rp.1])
  }

  function SuperTenants(db: Database): set<int> {
    set id | id in db.users && db.users[id].superAdmin && !db.users[id].deleted :: db.users[id].tenantId
  }

  function EnforcerFor(db: Database): Enforcer { Compile(PolicySet(db), SuperTenants(db)) }

  /** The rows of the join over roles, their permissions and the permission codes. */
  function GrantRows(db: Database): set<(int, int, string)> {
    set rp | rp in db.rolePermissions && rp.0 in db.roles && !db.roles[rp.0].deleted && rp.1 in db.permissions
      :: (db.roles[rp.0].tenantId, rp.0, db.permissions[rp.1])
  }

  /** Reads the catalogue with two queries; either failure is reported. */
  method LoadPolicies(db: Database, grantsRead: bool, tenantsRead: bool)
    returns (r: Result<(seq<RolePolicy>, seq<int>)>)
    ensures r.Ok? <==> grantsRead && tenantsRead
    ensures r.Ok? ==> Members(r.value.0) == PolicySet(db) && Members(r.value.1) == SuperTenants(db)
  {
    if !grantsRead {
      return Err("catalogue query failed");
    }
    var grants := Scan(GrantRows(db));
    var policies: seq<RolePolicy> := [];
    for i := 0 to |grants|
      invariant |policies| == i
      invariant forall k :: 0 <= k < i ==> policies[k] == RolePolicy(grants[k].0, grants[k].1, grants[k].2)
    {
      policies := policies + [RolePolicy(grants[i].0, grants[i].1, grants[i].2)];
    }
    CopiedGrants(db, grants, policies);
    if !tenantsRead {
      return Err("tenant query failed");
    }
    var superTenants := Scan(SuperTenants(db));
    return Ok((policies, superTenants));
  }

  lemma CopiedGrants(db: Database, grants: seq<(int, int, string)>, policies: seq<RolePolicy>)
    requires Members(grants) == GrantRows(db) && |policies| == |grants|
    requires forall k :: 0 <= k < |grants| ==> policies[k] == RolePolicy(grants[k].0, grants[k].1, grants[k].2)
    ensures Members(policies) == PolicySet(db)
  {
    forall p | p in policies
      ensures p in PolicySet(db)
    {
      var k :| 0 <= k < |policies| && policies[k] == p;
      assert grants[k] in Members(grants);
    }
    forall p | p in PolicySet(db)
      ensures p in policies
    {
      assert (p.tenantId, p.roleId, p.permission) in Members(grants);
      var k :| 0 <= k < |grants| && grants[k] == (p.tenantId, p.roleId, p.permission);
      assert policies[k] == p;
    }
  }

  lemma PolicySetContains(db: Database, tenantId: int, roleId: int, code: string)
    ensures RolePolicy(tenantId, roleId, code) in PolicySet(db)
            <==> LiveRole(db, tenantId, roleId) && code in CodesOf(db, roleId)
  {
  }

  /** A role's verdict, read back to the tables. */
  lemma CatalogueVerdict(db: Database, tenantId: int, roleId: int, perm: string)
    requires perm != ""
    ensures Enforces(EnforcerFor(db), RoleSubject(roleId), TenantDomain(tenantId), perm)
            <==> LiveRole(db, tenantId, roleId) && HasPermission(CodesOf(db, roleId), perm)
  {
    RoleVerdict(PolicySet(db), SuperTenants(db), tenantId, roleId, perm);
    PolicySetContains(db, tenantId, roleId, perm);
    PolicySetContains(db, tenantId, roleId, WILDCARD);
  }

  /** The catalogue of this database lets the binding's role do `perm`. */
  predicate HoldsIn(db: Database, tenantId: int, b: EffectiveBinding, perm: string) {
    if b.roleId == 0 && WILDCARD in b.permissions then tenantId in SuperTenants(db)
    else LiveRole(db, tenantId, b.roleId) && HasPermission(CodesOf(db, b.roleId), perm)
  }

  /** The enforcer answers for a binding what the tables say. */
  lemma EnforcerReadsTables(db: Database, tenantId: int, b: EffectiveBinding, perm: string)
    requires perm != ""
    ensures GrantsPerm(Some(EnforcerFor(db)), tenantId, b, perm) <==> HoldsIn(db, tenantId, b, perm)
  {
    SuperAdminVerdict(PolicySet(db), SuperTenants(db), tenantId, perm);
    CatalogueVerdict(db, tenantId, b.roleId, perm);
  }

  /** The two engines disagree about a binding in exactly one situation: it names role id 0,
      that role holds the wildcard, and the tenant has no live super admin. */
  predicate Misread(db: Database, tenantId: int, b: EffectiveBinding) {
    b.roleId == 0 && WILDCARD in b.permissions && tenantId !in SuperTenants(db)
  }

  lemma EffectiveIsSuperOrLive(db: Database, tenantId: int, userId: int, now: Time, b: EffectiveBinding)
    requires b in Effective(db, tenantId, userId, now)
    ensures IsSuperAdmin(db, tenantId, userId) ==> b == SuperAdminBinding(userId) && tenantId in SuperTenants(db)
    ensures !IsSuperAdmin(db, tenantId, userId)
        ==> LiveRole(db, tenantId, b.roleId) && b.permissions == CodesOf(db, b.roleId)
  {
  }

  /** The enforcer and the inlined permission set give the same answer for every permission
      exactly when the binding is not misread. */
  lemma EnforcerAgreesIff(db: Database, tenantId: int, userId: int, now: Time, b: EffectiveBinding)
    requires b in Effective(db, tenantId, userId, now)
    ensures (forall perm :: perm != "" ==> (GrantsPerm(Some(EnforcerFor(db)), tenantId, b, perm)
                                            <==> GrantsPerm(None, tenantId, b, perm)))
            <==> !Misread(db, tenantId, b)
  {
    EffectiveIsSuperOrLive(db, tenantId, userId, now, b);
    forall perm | perm != ""
      ensures GrantsPerm(Some(EnforcerFor(db)), tenantId, b, perm)
              <==> (!Misread(db, tenantId, b) && GrantsPerm(None, tenantId, b, perm))
    {
      EnforcerReadsTables(db, tenantId, b, perm);
    }
    if Misread(db, tenantId, b) {
      assert GrantsPerm(None, tenantId, b, WILDCARD) && WILDCARD != "";
    }
  }

  /** With nonzero role ids, which is what the id generator hands out, the engines agree on
      every binding of every user in every tenant, super admins and wildcards included. */
  lemma EnforcerAgrees(db: Database, tenantId: int, userId: int, now: Time, b: EffectiveBinding, perm: string)
    requires 0 !in db.roles && perm != ""
    requires b in Effective(db, tenantId, userId, now)
    ensures GrantsPerm(Some(EnforcerFor(db)), tenantId, b, perm) <==> GrantsPerm(None, tenantId, b, perm)
  {
    EffectiveIsSuperOrLive(db, tenantId, userId, now, b);
    EnforcerAgreesIff(db, tenantId, userId, now, b);
  }

  /** A database where the disagreement shows: role 0 holds the wildcard, nobody is super admin. */
  lemma MisreadExample() returns (db: Database, b: EffectiveBinding)
    ensures b in Effective(db, 7, 1, 0) && GrantsPerm(None, 7, b, "user.read")
    ensures !GrantsPerm(Some(EnforcerFor(db)), 7, b, "user.read")
  {
    var rb := RoleBinding(0, "user", 1, None, None, None, BINDING_ACTIVE);
    db := Database(map[], map[0 := Role(7, false)], map[5 := rb], map[9 := WILDCARD], {(0, 9)}, map[], map[], {});
    assert Selected(db, 7, 1, 0, db.bindings[5]);
    assert ToRow(rb) in BindingRows(db, 7, 1, 0);
    assert db.permissions[(0, 9).1] in CodesOf(db, 0);
    b := ToEffective(ToRow(rb), CodesOf(db, 0));
    assert b in Effective(db, 7, 1, 0);
    assert SuperTenants(db) == {};
    EnforcerReadsTables(db, 7, b, "user.read");
  }

  /** Two databases that hold the same roles, grants and super-admin presence for a tenant. */
  ghost predicate SameForTenant(db: Database, db': Database, tenantId: int) {
    && (forall r :: LiveRole(db, tenantId, r) <==> LiveRole(db', tenantId, r))
    && (forall r :: LiveRole(db, tenantId, r) ==> CodesOf(db, r) == CodesOf(db', r))
    && (tenantId in SuperTenants(db) <==> tenantId in SuperTenants(db'))
  }

  /** Whatever happens in other tenants, a tenant's verdicts stay as they are. */
  lemma TenantIsolation(db: Database, db': Database, tenantId: int, b: EffectiveBinding, perm: string)
    requires SameForTenant(db, db', tenantId) && perm != ""
    ensures GrantsPerm(Some(EnforcerFor(db)), tenantId, b, perm)
            <==> GrantsPerm(Some(EnforcerFor(db')), tenantId, b, perm)
  {
    EnforcerReadsTables(db, tenantId, b, perm);
    EnforcerReadsTables(db', tenantId, b, perm);
  }
}
