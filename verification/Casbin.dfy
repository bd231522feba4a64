/** The role-to-permission engine: an RBAC-with-domains enforcer rebuilt as a whole from the
    role catalogue. A rule grants a permission to a role inside one tenant's domain; the
    matcher is g(r.sub, p.sub, r.dom) && r.dom == p.dom && (r.obj == p.obj || p.obj == "*"). */
module Casbin {
  import opened Common
  import opened Decimal

  const SUPER_ADMIN_ROLE := "role:super_admin"
  const WILDCARD := "*"

  function RoleSubject(roleId: int): string { "role:" + FormatInt(roleId) }

  function TenantDomain(tenantId: int): string { "t:" + FormatInt(tenantId) }

  datatype RolePolicy = RolePolicy(tenantId: int, roleId: int, permission: string)

  datatype Rule = Rule(sub: string, dom: string, obj: string)

  datatype Edge = Edge(child: string, parent: string, dom: string)

  datatype Enforcer = Enforcer(rules: set<Rule>, edges: set<Edge>)

  /** `path` climbs the role hierarchy of one domain, one grouping edge at a time. */
  ghost predicate Chain(edges: set<Edge>, dom: string, path: seq<string>) {
    forall i :: 0 <= i < |path| - 1 ==> Edge(path[i], path[i + 1], dom) in edges
  }

  /** The matcher's g: a role inherits another over at least one grouping edge. */
  ghost predicate Linked(edges: set<Edge>, child: string, parent: string, dom: string) {
    exists path: seq<string> ::
      |path| >= 2 && path[0] == child && path[|path| - 1] == parent && Chain(edges, dom, path)
  }

  /** Roles are inherited along one edge, or along one edge and then whatever its parent inherits. */
  lemma LinkedIsClosure(edges: set<Edge>, child: string, parent: string, dom: string)
    ensures Linked(edges, child, parent, dom)
            <==> || Edge(child, parent, dom) in edges
                 || exists mid :: Edge(child, mid, dom) in edges && Linked(edges, mid, parent, dom)
  {
    if Linked(edges, child, parent, dom) {
      var path: seq<string> :|
        |path| >= 2 && path[0] == child && path[|path| - 1] == parent && Chain(edges, dom, path);
      assert Edge(path[0], path[0 + 1], dom) in edges;
      if |path| > 2 {
        LinkedByTail(edges, dom, path);
        assert Edge(child, path[1], dom) in edges && Linked(edges, path[1], parent, dom);
      }
    }
    if Edge(child, parent, dom) in edges {
      var path := [child, parent];
      assert Chain(edges, dom, path);
    }
    if mid :| Edge(child, mid, dom) in edges && Linked(edges, mid, parent, dom) {
      LinkedByEdge(edges, child, mid, parent, dom);
    }
  }

  lemma LinkedByTail(edges: set<Edge>, dom: string, path: seq<string>)
    requires |path| > 2 && Chain(edges, dom, path)
    ensures Linked(edges, path[1], path[|path| - 1], dom)
  {
    var rest := path[1..];
    forall i | 0 <= i < |rest| - 1
      ensures Edge(rest[i], rest[i + 1], dom) in edges
    {
      assert Edge(path[i + 1], path[i + 1 + 1], dom) in edges;
    }
    assert Chain(edges, dom, rest);
  }

  lemma LinkedByEdge(edges: set<Edge>, child: string, mid: string, parent: string, dom: string)
    requires Edge(child, mid, dom) in edges && Linked(edges, mid, parent, dom)
    ensures Linked(edges, child, parent, dom)
  {
    var path: seq<string> :|
      |path| >= 2 && path[0] == mid && path[|path| - 1] == parent && Chain(edges, dom, path);
    var longer := [child] + path;
    forall i | 0 <= i < |longer| - 1
      ensures Edge(longer[i], longer[i + 1], dom) in edges
    {
      if i > 0 {
        assert Edge(path[i - 1], path[i - 1 + 1], dom) in edges;
      }
    }
    assert Chain(edges, dom, longer);
  }

  ghost predicate Enforces(e: Enforcer, sub: string, dom: string, obj: string) {
    exists r :: r in e.rules && Linked(e.edges, sub, r.sub, dom) && dom == r.dom && (obj == r.obj || r.obj == WILDCARD)
  }

  /** No role hierarchy: every grouping edge is a self-edge. */
  predicate Flat(e: Enforcer) {
    forall edge :: edge in e.edges ==> edge.child == edge.parent
  }

  /** The enforcer built from a catalogue and from the tenants that have a super admin. */
  function Compile(policies: set<RolePolicy>, superTenants: set<int>): Enforcer {
    var granting := set p | p in policies && p.permission != "";
    Enforcer(
      (set p | p in granting :: Rule(RoleSubject(p.roleId), TenantDomain(p.tenantId), p.permission))
      + (set t | t in superTenants :: Rule(SUPER_ADMIN_ROLE, TenantDomain(t), WILDCARD)),
      (set p | p in granting :: Edge(RoleSubject(p.roleId), RoleSubject(p.roleId), TenantDomain(p.tenantId)))
      + (set t | t in superTenants :: Edge(SUPER_ADMIN_ROLE, SUPER_ADMIN_ROLE, TenantDomain(t))))
  }

  lemma CompileOneMorePolicy(policies: set<RolePolicy>, superTenants: set<int>, p: RolePolicy)
    ensures Compile(policies + {p}, superTenants) ==
            var c := Compile(policies, superTenants);
            if p.permission == "" then c else
              var sub, dom := RoleSubject(p.roleId), TenantDomain(p.tenantId);
              Enforcer(c.rules + {Rule(sub, dom, p.permission)}, c.edges + {Edge(sub, sub, dom)})
  {
    var before := set q | q in policies && q.permission != "";
    var after := set q | q in policies + {p} && q.permission != "";
    assert after == if p.permission == "" then before else before + {p};
    if p.permission != "" {
      var c, c' := Compile(policies, superTenants), Compile(policies + {p}, superTenants);
      var sub, dom := RoleSubject(p.roleId), TenantDomain(p.tenantId);
      assert p in after;
      assert c'.rules == c.rules + {Rule(sub, dom, p.permission)};
      assert c'.edges == c.edges + {Edge(sub, sub, dom)};
    }
  }

  lemma CompileOneMoreTenant(policies: set<RolePolicy>, superTenants: set<int>, t: int)
    ensures Compile(policies, superTenants + {t}) ==
            var c := Compile(policies, superTenants);
            var dom := TenantDomain(t);
            Enforcer(c.rules + {Rule(SUPER_ADMIN_ROLE, dom, WILDCARD)},
                     c.edges + {Edge(SUPER_ADMIN_ROLE, SUPER_ADMIN_ROLE, dom)})
  {
  }

  // ---- Names -----------------------------------------------------------------------

  lemma RoleSubjectInjective(a: int, b: int)
    requires RoleSubject(a) == RoleSubject(b)
    ensures a == b
  {
    assert FormatInt(a) == RoleSubject(a)[5..] == RoleSubject(b)[5..] == FormatInt(b);
    FormatIntInjective(a, b);
  }

  lemma TenantDomainInjective(a: int, b: int)
    requires TenantDomain(a) == TenantDomain(b)
    ensures a == b
  {
    assert FormatInt(a) == TenantDomain(a)[2..] == TenantDomain(b)[2..] == FormatInt(b);
    FormatIntInjective(a, b);
  }

  /** No concrete role can take the super admin's subject. */
  lemma RoleSubjectIsNotSuperAdmin(a: int)
    ensures RoleSubject(a) != SUPER_ADMIN_ROLE
  {
    FormatIntChars(a);
    assert RoleSubject(a)[5] == FormatInt(a)[0] != SUPER_ADMIN_ROLE[5];
  }

  lemma SubjectsHaveNoSeparator(a: int)
    ensures '\0' !in RoleSubject(a) && '\0' !in SUPER_ADMIN_ROLE
  {
  }

  // ---- What a built enforcer answers ------------------------------------------------

  /** On a flat enforcer the hierarchy collapses: a role is linked to itself, and only once
      the catalogue has given it a self-edge in that domain. */
  lemma {:induction false} FlatChain(edges: set<Edge>, dom: string, path: seq<string>, i: nat)
    requires forall edge :: edge in edges ==> edge.child == edge.parent
    requires Chain(edges, dom, path) && i < |path|
    ensures path[i] == path[0]
  {
    if i > 0 {
      FlatChain(edges, dom, path, i - 1);
      assert Edge(path[i - 1], path[i - 1 + 1], dom) in edges;
    }
  }

  lemma FlatLinked(e: Enforcer, child: string, parent: string, dom: string)
    requires Flat(e)
    ensures Linked(e.edges, child, parent, dom) <==> child == parent && Edge(child, child, dom) in e.edges
  {
    if Linked(e.edges, child, parent, dom) {
      var path :| |path| >= 2 && path[0] == child && path[|path| - 1] == parent && Chain(e.edges, dom, path);
      FlatChain(e.edges, dom, path, |path| - 1);
      assert Edge(path[0], path[0 + 1], dom) in e.edges;
    }
    if child == parent && Edge(child, child, dom) in e.edges {
      var path := [child, child];
      assert Chain(e.edges, dom, path);
    }
  }

  /** The decision on a flat enforcer without searching for chains. */
  predicate EnforcesFlat(e: Enforcer, sub: string, dom: string, obj: string) {
    && Edge(sub, sub, dom) in e.edges
    && (Rule(sub, dom, obj) in e.rules || Rule(sub, dom, WILDCARD) in e.rules)
  }

  lemma FlatDecision(e: Enforcer, sub: string, dom: string, obj: string)
    requires Flat(e)
    ensures Enforces(e, sub, dom, obj) <==> EnforcesFlat(e, sub, dom, obj)
  {
    forall r | r in e.rules
      ensures Linked(e.edges, sub, r.sub, dom) <==> sub == r.sub && Edge(sub, sub, dom) in e.edges
    {
      FlatLinked(e, sub, r.sub, dom);
    }
    if EnforcesFlat(e, sub, dom, obj) {
      var r := if Rule(sub, dom, obj) in e.rules then Rule(sub, dom, obj) else Rule(sub, dom, WILDCARD);
      assert r in e.rules && Linked(e.edges, sub, r.sub, dom);
    }
  }

  ghost predicate Granted(policies: set<RolePolicy>, tenantId: int, roleId: int, perm: string) {
    perm != "" && RolePolicy(tenantId, roleId, perm) in policies
  }

  lemma CompiledRule(policies: set<RolePolicy>, superTenants: set<int>, t: int, roleId: int, obj: string)
    ensures Rule(RoleSubject(roleId), TenantDomain(t), obj) in Compile(policies, superTenants).rules
            <==> Granted(policies, t, roleId, obj)
    ensures Granted(policies, t, roleId, obj)
            ==> Edge(RoleSubject(roleId), RoleSubject(roleId), TenantDomain(t)) in Compile(policies, superTenants).edges
  {
    RoleSubjectIsNotSuperAdmin(roleId);
    var rule := Rule(RoleSubject(roleId), TenantDomain(t), obj);
    if rule in Compile(policies, superTenants).rules {
      var p :| p in policies && p.permission != ""
        && rule == Rule(RoleSubject(p.roleId), TenantDomain(p.tenantId), p.permission);
      RoleSubjectInjective(p.roleId, roleId);
      TenantDomainInjective(p.tenantId, t);
      assert p == RolePolicy(t, roleId, obj);
    }
    if Granted(policies, t, roleId, obj) {
      var p := RolePolicy(t, roleId, obj);
      assert p in policies && p.permission != "";
    }
  }

  /** A concrete role holds a permission in a tenant exactly when the catalogue grants it
      there, by name or by the wildcard. */
  lemma RoleVerdict(policies: set<RolePolicy>, superTenants: set<int>, t: int, roleId: int, perm: string)
    requires perm != ""
    ensures Enforces(Compile(policies, superTenants), RoleSubject(roleId), TenantDomain(t), perm)
            <==> Granted(policies, t, roleId, perm) || Granted(policies, t, roleId, WILDCARD)
  {
    FlatDecision(Compile(policies, superTenants), RoleSubject(roleId), TenantDomain(t), perm);
    CompiledRule(policies, superTenants, t, roleId, perm);
    CompiledRule(policies, superTenants, t, roleId, WILDCARD);
  }

  /** The super-admin subject holds everything in the tenants that have a super admin, and
      nothing anywhere else. */
  lemma SuperAdminVerdict(policies: set<RolePolicy>, superTenants: set<int>, t: int, perm: string)
    requires perm != ""
    ensures Enforces(Compile(policies, superTenants), SUPER_ADMIN_ROLE, TenantDomain(t), perm) <==> t in superTenants
  {
    var e := Compile(policies, superTenants);
    FlatDecision(e, SUPER_ADMIN_ROLE, TenantDomain(t), perm);
    if EnforcesFlat(e, SUPER_ADMIN_ROLE, TenantDomain(t), perm) {
      forall p: RolePolicy ensures RoleSubject(p.roleId) != SUPER_ADMIN_ROLE {
        RoleSubjectIsNotSuperAdmin(p.roleId);
      }
      var s :| s in superTenants && TenantDomain(s) == TenantDomain(t);
      TenantDomainInjective(s, t);
    }
    if t in superTenants {
      assert Rule(SUPER_ADMIN_ROLE, TenantDomain(t), WILDCARD) in e.rules;
    }
  }

  // ---- The engine object ------------------------------------------------------------

  class CasbinEngine {
    var e: Option<Enforcer>

    predicate Valid()
      reads this
    {
      e.Some? ==> Flat(e.value)
    }

    constructor ()
      ensures Valid() && e == Some(Enforcer({}, {}))
    {
      e := Some(Enforcer({}, {}));
    }

    /** Adds a role's self-edge once. The pairs already added are remembered under the text
        sub + NUL + dom, so the guard is only sound because no subject contains a NUL. */
    static method AddSelf(selfEdge: set<string>, edges: set<Edge>, sub: string, dom: string)
      returns (selfEdge': set<string>, edges': set<Edge>)
      requires Remembered(selfEdge, edges) && '\0' !in sub
      ensures Remembered(selfEdge', edges') && edges' == edges + {Edge(sub, sub, dom)}
    {
      var key := sub + "\0" + dom;
      if key in selfEdge {
        var edge :| edge in edges && key == edge.child + "\0" + edge.dom;
        SplitAtSeparator(sub, edge.child, '\0', dom, edge.dom);
        assert edge == Edge(sub, sub, dom);
        return selfEdge, edges;
      }
      selfEdge' := selfEdge + {key};
      edges' := edges + {Edge(sub, sub, dom)};
      assert key == Edge(sub, sub, dom).child + "\0" + Edge(sub, sub, dom).dom;
    }

    static ghost predicate Remembered(selfEdge: set<string>, edges: set<Edge>) {
      && (forall edge :: edge in edges ==> edge.child == edge.parent && '\0' !in edge.child)
      && (forall k :: k in selfEdge ==> exists edge :: edge in edges && k == edge.child + "\0" + edge.dom)
    }

    /** Rebuilds the whole enforcer; the running one is swapped only after the new set has
        been persisted, and is left alone otherwise. */
    method ReplacePolicies(policies: seq<RolePolicy>, superTenants: seq<int>, persisted: bool) returns (ok: bool)
      requires Valid()
      modifies this
      ensures Valid() && ok == persisted
      ensures e == if persisted then Some(Compile(Members(policies), Members(superTenants))) else old(e)
    {
      var rules: set<Rule>, edges: set<Edge>, selfEdge: set<string> := {}, {}, {};
      for i := 0 to |policies|
        invariant e == old(e) && Remembered(selfEdge, edges)
        invariant Enforcer(rules, edges) == Compile(Members(policies[..i]), {})
      {
        var p := policies[i];
        assert Members(policies[..i + 1]) == Members(policies[..i]) + {p};
        CompileOneMorePolicy(Members(policies[..i]), {}, p);
        if p.permission == "" {
          continue;
        }
        SubjectsHaveNoSeparator(p.roleId);
        selfEdge, edges := AddSelf(selfEdge, edges, RoleSubject(p.roleId), TenantDomain(p.tenantId));
        rules := rules + {Rule(RoleSubject(p.roleId), TenantDomain(p.tenantId), p.permission)};
      }
      assert policies[..|policies|] == policies;
      for i := 0 to |superTenants|
        invariant e == old(e) && Remembered(selfEdge, edges)
        invariant Enforcer(rules, edges) == Compile(Members(policies), Members(superTenants[..i]))
      {
        var t := superTenants[i];
        assert Members(superTenants[..i + 1]) == Members(superTenants[..i]) + {t};
        CompileOneMoreTenant(Members(policies), Members(superTenants[..i]), t);
        SubjectsHaveNoSeparator(0);
        selfEdge, edges := AddSelf(selfEdge, edges, SUPER_ADMIN_ROLE, TenantDomain(t));
        rules := rules + {Rule(SUPER_ADMIN_ROLE, TenantDomain(t), WILDCARD)};
      }
      assert superTenants[..|superTenants|] == superTenants;
      ok := persisted;
      if persisted {
        e := Some(Enforcer(rules, edges));
      }
    }

    /** Reloads from the catalogue; a failed load keeps the policy set that is running. */
    method Sync(loaded: Result<(seq<RolePolicy>, seq<int>)>, persisted: bool) returns (ok: bool)
      requires Valid()
      modifies this
      ensures Valid() && ok == (loaded.Ok? && persisted)
      ensures e == if ok then Some(Compile(Members(loaded.value.0), Members(loaded.value.1))) else old(e)
    {
      if loaded.Err? {
        return false;
      }
      ok := ReplacePolicies(loaded.value.0, loaded.value.1, persisted);
    }

    /** Denies without an enforcer, and when the enforcer reports an error. */
    method RoleHasPermission(tenantId: int, roleSub: string, perm: string, fails: bool) returns (ok: bool)
      requires Valid()
      ensures ok <==> e.Some? && !fails && Enforces(e.value, roleSub, TenantDomain(tenantId), perm)
    {
      if e.None? || fails {
        return false;
      }
      FlatDecision(e.value, roleSub, TenantDomain(tenantId), perm);
      ok := EnforcesFlat(e.value, roleSub, TenantDomain(tenantId), perm);
    }
  }
}
