/** The organization tree: each org stores the chain of codes from its root down to itself, and
    ancestry is read off these paths. Deleting an org removes its row. */
module Orgs {
  import opened Common

  datatype Org = Org(tenantId: int, code: string, parentId: Option<int>, path: seq<string>)

  type Table = map<int, Org>

  /** Whether one path is the other or a prefix of it, for any two rows; an org is always its own. */
  predicate IsAncestorOrSelf(orgs: Table, ancestor: int, descendant: int) {
    || ancestor == descendant
    || (ancestor in orgs && descendant in orgs && orgs[ancestor].path <= orgs[descendant].path)
  }

  /** The tenant's orgs at or above one that the user is a member of; `members` holds (user, org). */
  function AncestorIds(orgs: Table, members: set<(int, int)>, tenantId: int, userId: int): set<int> {
    set id | id in orgs && orgs[id].tenantId == tenantId && HoldsMember(orgs, members, userId, orgs[id].path)
  }

  /** The user is a member of an org on or below the path. */
  predicate HoldsMember(orgs: Table, members: set<(int, int)>, userId: int, path: seq<string>) {
    exists m :: m in members && m.0 == userId && m.1 in orgs && path <= orgs[m.1].path
  }

  lemma AncestryIsReflexive(orgs: Table, id: int)
    ensures IsAncestorOrSelf(orgs, id, id)
  {
  }

  lemma AncestryIsTransitive(orgs: Table, a: int, b: int, c: int)
    requires IsAncestorOrSelf(orgs, a, b) && IsAncestorOrSelf(orgs, b, c)
    ensures IsAncestorOrSelf(orgs, a, c)
  {
  }

  /** A user's orgs are exactly those of the tenant at or above an org they belong to. */
  lemma InheritedFrom(orgs: Table, members: set<(int, int)>, tenantId: int, userId: int, id: int)
    ensures id in AncestorIds(orgs, members, tenantId, userId)
            <==> id in orgs && orgs[id].tenantId == tenantId
                 && exists m :: (userId, m) in members && m in orgs && IsAncestorOrSelf(orgs, id, m)
  {
    if id in AncestorIds(orgs, members, tenantId, userId) {
      var m :| m in members && m.0 == userId && m.1 in orgs && orgs[id].path <= orgs[m.1].path;
      assert (userId, m.1) in members && IsAncestorOrSelf(orgs, id, m.1);
    } else if id in orgs && orgs[id].tenantId == tenantId {
      assert !HoldsMember(orgs, members, userId, orgs[id].path);
      forall m | (userId, m) in members && m in orgs
        ensures !IsAncestorOrSelf(orgs, id, m)
      {
        assert (userId, m).1 in orgs;
      }
    }
  }

  // ---- Paths and parents -------------------------------------------------------------------

  /** Paths follow the parents, parents are of the same tenant, and a tenant uses a code once. */
  ghost predicate WellFormed(orgs: Table) {
    && (forall id :: id in orgs ==> Placed(orgs, orgs[id]))
    && (forall a, b :: a in orgs && b in orgs && a != b && orgs[a].tenantId == orgs[b].tenantId ==>
          orgs[a].code != orgs[b].code)
  }

  predicate Placed(orgs: Table, org: Org) {
    match org.parentId
    case None => org.path == [org.code]
    case Some(p) => p in orgs && orgs[p].tenantId == org.tenantId && org.path == orgs[p].path + [org.code]
  }

  /** The org itself or one found by going up from parent to parent. */
  ghost predicate Under(orgs: Table, ancestor: int, id: int)
    requires WellFormed(orgs) && id in orgs
    decreases |orgs[id].path|
  {
    || ancestor == id
    || (assert Placed(orgs, orgs[id]); orgs[id].parentId.Some? && Under(orgs, ancestor, orgs[id].parentId.value))
  }

  lemma {:induction false} UnderIsPrefix(orgs: Table, ancestor: int, id: int)
    requires WellFormed(orgs) && id in orgs && Under(orgs, ancestor, id)
    ensures ancestor in orgs && orgs[ancestor].tenantId == orgs[id].tenantId && orgs[ancestor].path <= orgs[id].path
    decreases |orgs[id].path|
  {
    if ancestor != id {
      assert Placed(orgs, orgs[id]);
      UnderIsPrefix(orgs, ancestor, orgs[id].parentId.value);
    }
  }

  lemma {:induction false} PrefixIsUnder(orgs: Table, ancestor: int, id: int)
    requires WellFormed(orgs) && ancestor in orgs && id in orgs && orgs[ancestor].tenantId == orgs[id].tenantId
    requires orgs[ancestor].path <= orgs[id].path
    ensures Under(orgs, ancestor, id)
    decreases |orgs[id].path|
  {
    var a, d := orgs[ancestor], orgs[id];
    assert Placed(orgs, a) && Placed(orgs, d);
    assert a.path[|a.path| - 1] == a.code && d.path[|d.path| - 1] == d.code;
    if |a.path| < |d.path| {
      PrefixIsUnder(orgs, ancestor, d.parentId.value);
    }
  }

  /** In a well-formed table the path test finds the ancestors by parents, exactly; the only
      exception are orgs of different tenants whose codes happen to chain the same way. */
  lemma AncestryIsTheTreeIff(orgs: Table, ancestor: int, id: int)
    requires WellFormed(orgs) && ancestor in orgs && id in orgs
    ensures (IsAncestorOrSelf(orgs, ancestor, id) <==> Under(orgs, ancestor, id))
            <==> orgs[ancestor].tenantId == orgs[id].tenantId || !(orgs[ancestor].path <= orgs[id].path)
  {
    if Under(orgs, ancestor, id) {
      UnderIsPrefix(orgs, ancestor, id);
    } else if orgs[ancestor].tenantId == orgs[id].tenantId && orgs[ancestor].path <= orgs[id].path {
      PrefixIsUnder(orgs, ancestor, id);
    }
  }

  /** Two tenants with a root of the same code: the path test takes the one for an ancestor of the
      other's sub-org. */
  lemma TenantsCanBeConfused() returns (orgs: Table)
    ensures WellFormed(orgs) && 1 in orgs && 3 in orgs
    ensures IsAncestorOrSelf(orgs, 1, 3) && !Under(orgs, 1, 3)
  {
    orgs := map[1 := Org(7, "root", None, ["root"]), 2 := Org(8, "root", None, ["root"]),
                3 := Org(8, "it", Some(2), ["root", "it"])];
    assert ["root"] + ["it"] == ["root", "it"];
    assert Placed(orgs, orgs[1]) && Placed(orgs, orgs[2]) && Placed(orgs, orgs[3]);
    assert !Under(orgs, 1, 2);
  }
}
