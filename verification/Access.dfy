/** Just-in-time privileged access: rules about who may ask for which role, requests, and the two
    binding tables that grants land in. Each repository transaction is a function from tables to
    tables; the Repository object carries them out row by row, with rollback. */
module Access {
  import opened Common

  const CONSOLE := "console"
  const APP := "app"
  const MAX_RULE_TTL := 604800
  const BINDING_ACTIVE := 1
  const RULE_ENABLED := 1

  datatype Status = Pending | Approved | Rejected | Cancelled | Expired | Revoked

  /** Who may request which role, for how long, approved by whom. */
  datatype Rule = Rule(
    tenantId: int, targetKind: string, roleId: int, scopeType: Option<string>, scopeId: Option<int>,
    appId: Option<int>, requesterType: string, requesterId: int, allowedDurations: seq<int>, maxDuration: int,
    approverType: string, approverId: int, requireJustification: bool, requireStepUp: bool, status: int)

  /** The editable part of a rule, as an administrator submits it. */
  datatype RuleInput = RuleInput(
    targetKind: string, roleId: int, scopeType: Option<string>, scopeId: Option<int>, appId: Option<int>,
    requesterType: string, requesterId: int, allowedDurations: seq<int>, maxDuration: int,
    approverType: string, approverId: int, requireJustification: Option<bool>, requireStepUp: Option<bool>)

  datatype Request = Request(
    id: int, tenantId: int, requesterId: int, ruleId: int, targetKind: string, roleId: int,
    scopeType: Option<string>, scopeId: Option<int>, appId: Option<int>, requestedSeconds: int,
    justification: string, status: Status, approverId: Option<int>, decidedAt: Option<Time>,
    activatedAt: Option<Time>, expiresAt: Option<Time>, bindingId: Option<int>)

  /** Whom a binding row gives what: a console role in a scope, or an app role. */
  datatype Target =
    | ConsoleTarget(roleId: int, subjectType: string, subjectId: int, scopeType: Option<string>, scopeId: Option<int>)
    | AppTarget(appId: Option<int>, appGroupId: Option<int>, tenantId: int, roleId: int, subjectType: string,
        subjectId: int)

  /** `grantId` is None for a binding that an administrator made by hand. */
  datatype Binding = Binding(target: Target, grantId: Option<int>, expiresAt: Option<Time>, status: int)

  type Table = map<int, Binding>

  datatype Store = Store(requests: map<int, Request>, rules: map<int, Rule>, roleBindings: Table, appBindings: Table)

  // ---- Rules ------------------------------------------------------------------------

  predicate ValidInput(input: RuleInput) {
    && (input.targetKind == CONSOLE || input.targetKind == APP)
    && (input.targetKind == APP ==> input.appId.Some?)
    && input.allowedDurations != []
    && 0 < input.maxDuration <= MAX_RULE_TTL
    && forall i :: 0 <= i < |input.allowedDurations| ==> 0 < input.allowedDurations[i] <= input.maxDuration
  }

  function OrDefault<T>(v: Option<T>, d: T): T { if v.Some? then v.value else d }

  /** The rule an input describes; omitted flags take the given defaults. */
  function ToRule(input: RuleInput, tenantId: int, justification: bool, stepUp: bool, status: int): Rule {
    Rule(tenantId, input.targetKind, input.roleId, input.scopeType, input.scopeId, input.appId,
         input.requesterType, input.requesterId, input.allowedDurations, input.maxDuration,
         if input.approverType == "" then "role" else input.approverType, input.approverId,
         OrDefault(input.requireJustification, justification), OrDefault(input.requireStepUp, stepUp), status)
  }

  function CreateRule(store: Store, id: int, tenantId: int, input: RuleInput): Result<Store> {
    if !ValidInput(input) then Err("invalid eligibility configuration")
    else Ok(store.(rules := store.rules[id := ToRule(input, tenantId, true, true, RULE_ENABLED)]))
  }

  /** Keeps tenant and status, and the two flags when they are omitted. */
  function UpdateRule(store: Store, id: int, tenantId: int, input: RuleInput): Result<Store> {
    if !ValidInput(input) then Err("invalid eligibility configuration")
    else if id !in store.rules || store.rules[id].tenantId != tenantId then Err("eligibility not found")
    else
      var current := store.rules[id];
      Ok(store.(rules := store.rules[id := ToRule(input, tenantId, current.requireJustification,
                                                         current.requireStepUp, current.status)]))
  }

  /** The outside world's answers at one moment: super admins and group, org and role membership,
      by (tenant, user, subject). */
  datatype Env = Env(
    superAdmin: int -> bool, inGroup: (int, int, int) -> bool, inOrg: (int, int, int) -> bool,
    hasRole: (int, int, int) -> bool)

  predicate RequesterEligible(env: Env, tenantId: int, userId: int, rule: Rule) {
    || rule.requesterType == "any"
    || (rule.requesterType == "user" && rule.requesterId == userId)
    || (rule.requesterType == "group" && env.inGroup(tenantId, userId, rule.requesterId))
    || (rule.requesterType == "org" && env.inOrg(tenantId, userId, rule.requesterId))
  }

  predicate ApproverAllowed(env: Env, tenantId: int, approverId: int, rule: Rule) {
    || env.superAdmin(approverId)
    || rule.approverType == "auto"
    || (rule.approverType == "user" && rule.approverId == approverId)
    || (rule.approverType == "role" && env.hasRole(tenantId, approverId, rule.approverId))
    || (rule.approverType == "group" && env.inGroup(tenantId, approverId, rule.approverId))
  }

  /** A rule is open to the one user it names, to the members of the group or org it names, or to
      anyone; a rule of any other kind to nobody. */
  lemma EligibleByKind(env: Env, tenantId: int, userId: int, rule: Rule)
    ensures RequesterEligible(env, tenantId, userId, rule)
            <==> (if rule.requesterType == "any" then true
                  else if rule.requesterType == "user" then userId == rule.requesterId
                  else if rule.requesterType == "group" then env.inGroup(tenantId, userId, rule.requesterId)
                  else rule.requesterType == "org" && env.inOrg(tenantId, userId, rule.requesterId))
  {
  }

  /** Apart from super admins, a rule's approver is the one user it names, whoever has the role or is in
      the group it names, or anyone; a rule of any other kind has none. */
  lemma ApproverByKind(env: Env, tenantId: int, userId: int, rule: Rule)
    ensures ApproverAllowed(env, tenantId, userId, rule)
            <==> (if env.superAdmin(userId) || rule.approverType == "auto" then true
                  else if rule.approverType == "user" then userId == rule.approverId
                  else if rule.approverType == "role" then env.hasRole(tenantId, userId, rule.approverId)
                  else rule.approverType == "group" && env.inGroup(tenantId, userId, rule.approverId))
  {
  }

  predicate DurationAllowed(rule: Rule, seconds: int) { seconds in rule.allowedDurations }

  function ClampDuration(rule: Rule, seconds: int): int {
    if rule.maxDuration > 0 && seconds > rule.maxDuration then rule.maxDuration else seconds
  }

  // ---- Requests ---------------------------------------------------------------------

  /** What the requester asks for: seconds, and a reason that the rule may insist on. */
  function NewRequest(store: Store, env: Env, id: int, tenantId: int, requesterId: int, ruleId: int,
                      seconds: int, justification: string): Result<Request> {
    if ruleId !in store.rules || store.rules[ruleId].tenantId != tenantId then Err("eligibility not found") else
    var rule := store.rules[ruleId];
    if rule.status != RULE_ENABLED then Err("eligibility is disabled")
    else if !RequesterEligible(env, tenantId, requesterId, rule) then Err("not eligible for this rule")
    else if !DurationAllowed(rule, seconds) then Err("duration is not in the allowed set")
    else if rule.requireJustification && justification == "" then Err("justification is required")
    else Ok(Request(id, tenantId, requesterId, ruleId, rule.targetKind, rule.roleId, rule.scopeType, rule.scopeId,
                    rule.appId, ClampDuration(rule, seconds), justification, Pending, None, None, None, None, None))
  }

  /** The update behind a rejection or a cancellation, which has no condition on the status. */
  function Decided(store: Store, req: Request, status: Status, approverId: Option<int>, now: Time): Store {
    if req.id !in store.requests || store.requests[req.id].tenantId != req.tenantId then store else
    var r := store.requests[req.id];
    store.(requests := store.requests[req.id := r.(
      status := status, decidedAt := Some(now), approverId := if approverId.Some? then approverId else r.approverId)])
  }

  // ---- Grants -----------------------------------------------------------------------

  /** The app role table or the console role table. */
  function TableOf(store: Store, app: bool): Table {
    if app then store.appBindings else store.roleBindings
  }

  function WithTable(store: Store, app: bool, table: Table): Store {
    if app then store.(appBindings := table) else store.(roleBindings := table)
  }

  predicate InAppTable(req: Request) { req.targetKind == APP }

  /** The columns of the table's unique index, NULLs read as '' and 0. */
  function IndexKey(t: Target): Target {
    match t
    case ConsoleTarget(_, _, _, scopeType, scopeId) =>
      t.(scopeType := Some(OrDefault(scopeType, "")), scopeId := Some(OrDefault(scopeId, 0)))
    case AppTarget(appId, appGroupId, _, _, _, _) =>
      t.(appId := Some(OrDefault(appId, 0)), appGroupId := Some(OrDefault(appGroupId, 0)))
  }

  predicate HasTarget(req: Request) {
    req.targetKind == CONSOLE || (req.targetKind == APP && req.appId.Some?)
  }

  function TargetOf(req: Request): Target
    requires HasTarget(req)
  {
    if req.targetKind == APP then AppTarget(req.appId, None, req.tenantId, req.roleId, "user", req.requesterId)
    else ConsoleTarget(req.roleId, "user", req.requesterId, req.scopeType, req.scopeId)
  }

  /** The rows that the grant's DELETE matches: same index key for the console table, same app,
      tenant, role and user with no app group for the app table. */
  predicate Supersedes(target: Target, row: Binding) {
    if target.AppTarget? then row.target == target else IndexKey(row.target) == IndexKey(target)
  }

  function Supersede(table: Table, target: Target): Table {
    map id | id in table && !Supersedes(target, table[id]) :: table[id]
  }

  /** An INSERT that a primary key or unique index would refuse. */
  predicate Clashes(table: Table, id: int, target: Target) {
    id in table || exists k :: k in table && IndexKey(table[k].target) == IndexKey(target)
  }

  function GrantRow(req: Request, expiresAt: Time): Binding
    requires HasTarget(req)
  {
    Binding(TargetOf(req), Some(req.id), Some(expiresAt), BINDING_ACTIVE)
  }

  function InsertBinding(store: Store, req: Request, bindingId: int, expiresAt: Time): Result<Store> {
    if !HasTarget(req) then Err("unknown target_kind or missing app_id") else
    var kept := Supersede(TableOf(store, InAppTable(req)), TargetOf(req));
    if Clashes(kept, bindingId, TargetOf(req)) then Err("unique violation")
    else Ok(WithTable(store, InAppTable(req), kept[bindingId := GrantRow(req, expiresAt)]))
  }

  predicate StillPending(store: Store, req: Request) {
    && req.id in store.requests && store.requests[req.id].tenantId == req.tenantId
    && store.requests[req.id].status == Pending
  }

  /** The tenant has a pending request with this id. */
  predicate StillPendingIn(store: Store, tenantId: int, id: int) {
    && id in store.requests && store.requests[id].id == id && store.requests[id].tenantId == tenantId
    && store.requests[id].status == Pending
  }

  /** The approval transaction: supersede, insert, and mark the request approved provided that it
      is still pending. An error leaves the tables as they were. */
  function ApproveAndGrant(store: Store, req: Request, approverId: int, now: Time, expiresAt: Time,
      bindingId: int): Result<Store> {
    var inserted := InsertBinding(store, req, bindingId, expiresAt);
    if inserted.Err? then inserted
    else if !StillPending(store, req) then Err("request is no longer pending")
    else
      var r := store.requests[req.id];
      Ok(inserted.value.(requests := store.requests[req.id := r.(
        status := Approved, approverId := Some(approverId), decidedAt := Some(now), activatedAt := Some(now),
        expiresAt := Some(expiresAt), bindingId := Some(bindingId))]))
  }

  /** The request is pending, the approver is not its requester, and its rule lets them approve. */
  predicate MayApprove(store: Store, env: Env, tenantId: int, requestId: int, approverId: int) {
    && requestId in store.requests
    && var req := store.requests[requestId];
    && req.tenantId == tenantId && req.status == Pending && req.requesterId != approverId
    && req.ruleId in store.rules && store.rules[req.ruleId].tenantId == tenantId
    && ApproverAllowed(env, tenantId, approverId, store.rules[req.ruleId])
  }

  /** The grant of a request for exactly the seconds it asks for. */
  function Approval(store: Store, requestId: int, approverId: int, now: Time, bindingId: int): Result<Store>
    requires requestId in store.requests
  {
    var req := store.requests[requestId];
    ApproveAndGrant(store, req, approverId, now, now + req.requestedSeconds * SECOND, bindingId)
  }

  /** The ending transaction: delete the row by its id and set the request's status. */
  function EndGrant(store: Store, req: Request, final: Status): Store {
    var gone := if req.bindingId.Some? then {req.bindingId.value} else {};
    var s := WithTable(store, InAppTable(req), TableOf(store, InAppTable(req)) - gone);
    if req.id in s.requests && s.requests[req.id].tenantId == req.tenantId then
      s.(requests := s.requests[req.id := s.requests[req.id].(status := final)])
    else s
  }

  predicate Due(req: Request, now: Time) {
    req.status == Approved && req.expiresAt.Some? && req.expiresAt.value <= now
  }

  function DueSet(store: Store, now: Time): set<int> {
    set id | id in store.requests && Due(store.requests[id], now)
  }

  /** The tables after ending exactly the given requests, each as it was read at the start. */
  function SweptOf(store: Store, ended: set<int>): Store {
    Store(map id | id in store.requests :: if id in ended then store.requests[id].(status := Expired)
        else store.requests[id],
          store.rules,
          store.roleBindings - RowsOf(store, false, ended),
          store.appBindings - RowsOf(store, true, ended))
  }

  lemma SweptNone(store: Store)
    ensures SweptOf(store, {}) == store
  {
  }

  lemma SweptOneMore(store: Store, ended: set<int>, id: int)
    requires id in store.requests && store.requests[id].id == id
    ensures EndGrant(SweptOf(store, ended), store.requests[id], Expired) == SweptOf(store, ended + {id})
  {
    var req, before, after := store.requests[id], SweptOf(store, ended), SweptOf(store, ended + {id});
    var gone := if req.bindingId.Some? then {req.bindingId.value} else {};
    assert RowsOf(store, true, ended + {id}) == RowsOf(store, true, ended) + if req.targetKind == APP then gone else {};
    assert RowsOf(store, false, ended + {id}) == RowsOf(store, false, ended) + if req.targetKind == APP then {}
        else gone;
    assert after.appBindings == before.appBindings - if req.targetKind == APP then gone else {};
    assert after.roleBindings == before.roleBindings - if req.targetKind == APP then {} else gone;
    assert after.requests == before.requests[id := before.requests[id].(status := Expired)];
  }

  function RowsOf(store: Store, app: bool, ended: set<int>): set<int> {
    set id | id in ended && id in store.requests && store.requests[id].bindingId.Some?
             && InAppTable(store.requests[id]) == app
      :: store.requests[id].bindingId.value
  }

  // ---- The repository and service objects ---------------------------------------------

  class Repository {
    var requests: map<int, Request>
    var rules: map<int, Rule>
    var roleBindings: Table
    var appBindings: Table

    ghost function Contents(): Store
      reads this
    {
      Store(requests, rules, roleBindings, appBindings)
    }

    constructor ()
      ensures Contents() == Store(map[], map[], map[], map[])
    {
      requests, rules, roleBindings, appBindings := map[], map[], map[], map[];
    }

    /** Inside a transaction: the delete has already happened when an insert is refused. */
    method InsertBindingTx(req: Request, bindingId: int, expiresAt: Time) returns (ok: bool)
      modifies this`roleBindings, this`appBindings
      ensures ok == InsertBinding(old(Contents()), req, bindingId, expiresAt).Ok?
      ensures ok ==> Contents() == InsertBinding(old(Contents()), req, bindingId, expiresAt).value
    {
      if req.targetKind == CONSOLE {
        var target := ConsoleTarget(req.roleId, "user", req.requesterId, req.scopeType, req.scopeId);
        var rows := roleBindings;
        var kept := map id | id in rows && IndexKey(rows[id].target) != IndexKey(target) :: rows[id];
        assert forall id :: id in rows ==>
          (Supersedes(target, rows[id]) <==> IndexKey(rows[id].target) == IndexKey(target));
        assert kept == Supersede(rows, target);
        roleBindings := kept;
        if Clashes(roleBindings, bindingId, target) {
          return false;
        }
        roleBindings := roleBindings[bindingId := Binding(target, Some(req.id), Some(expiresAt), BINDING_ACTIVE)];
        return true;
      } else if req.targetKind == APP {
        if req.appId.None? {
          return false;
        }
        var target := AppTarget(req.appId, None, req.tenantId, req.roleId, "user", req.requesterId);
        var rows := appBindings;
        var kept := map id | id in rows && rows[id].target != target :: rows[id];
        assert forall id :: id in rows ==> (Supersedes(target, rows[id]) <==> rows[id].target == target);
        assert kept == Supersede(rows, target);
        appBindings := kept;
        if Clashes(appBindings, bindingId, target) {
          return false;
        }
        appBindings := appBindings[bindingId := Binding(target, Some(req.id), Some(expiresAt), BINDING_ACTIVE)];
        return true;
      }
      return false;
    }

    /** Runs the insert and then the guarded update. When the guard finds the request no longer
        pending, the rollback brings back whatever the insert had superseded. */
    method ApproveAndGrantTx(req: Request, approverId: int, now: Time, expiresAt: Time, bindingId: int)
      returns (ok: bool)
      modifies this
      ensures ok == ApproveAndGrant(old(Contents()), req, approverId, now, expiresAt, bindingId).Ok?
      ensures ok ==> Contents() == ApproveAndGrant(old(Contents()), req, approverId, now, expiresAt, bindingId).value
      ensures !ok ==> Contents() == old(Contents())
    {
      var savedRole, savedApp := roleBindings, appBindings;
      ok := InsertBindingTx(req, bindingId, expiresAt);
      if ok {
        if req.id in requests && requests[req.id].tenantId == req.tenantId && requests[req.id].status == Pending {
          requests := requests[req.id := requests[req.id].(
            status := Approved, approverId := Some(approverId), decidedAt := Some(now), activatedAt := Some(now),
            expiresAt := Some(expiresAt), bindingId := Some(bindingId))];
          return;
        }
        ok := false;
      }
      roleBindings, appBindings := savedRole, savedApp;
    }

    method EndGrantTx(req: Request, final: Status)
      modifies this
      ensures Contents() == EndGrant(old(Contents()), req, final)
    {
      if req.bindingId.Some? {
        if req.targetKind == APP {
          appBindings := appBindings - {req.bindingId.value};
        } else {
          roleBindings := roleBindings - {req.bindingId.value};
        }
      }
      if req.id in requests && requests[req.id].tenantId == req.tenantId {
        requests := requests[req.id := requests[req.id].(status := final)];
      }
    }

    /** Turns a pending request down. */
    method Reject(tenantId: int, requestId: int, approverId: int, now: Time) returns (ok: bool)
      modifies this
      ensures ok <==> StillPendingIn(old(Contents()), tenantId, requestId)
      ensures Contents()
              == if ok then Decided(old(Contents()), old(requests[requestId]), Rejected, Some(approverId), now)
                 else old(Contents())
    {
      ok := requestId in requests && requests[requestId].id == requestId && requests[requestId].tenantId == tenantId
            && requests[requestId].status == Pending;
      if ok {
        UpdateRequestStatus(requests[requestId], Rejected, Some(approverId), now);
      }
    }

    /** Lets the requester withdraw a pending request. */
    method Cancel(tenantId: int, requestId: int, requesterId: int, now: Time) returns (ok: bool)
      modifies this
      ensures ok <==> && StillPendingIn(old(Contents()), tenantId, requestId)
                      && old(requests[requestId]).requesterId == requesterId
      ensures Contents() == if ok then Decided(old(Contents()), old(requests[requestId]), Cancelled, None, now)
                            else old(Contents())
    {
      ok := requestId in requests && requests[requestId].id == requestId && requests[requestId].tenantId == tenantId
            && requests[requestId].requesterId == requesterId && requests[requestId].status == Pending;
      if ok {
        UpdateRequestStatus(requests[requestId], Cancelled, None, now);
      }
    }

    method UpdateRequestStatus(req: Request, status: Status, approverId: Option<int>, now: Time)
      modifies this`requests
      ensures Contents() == Decided(old(Contents()), req, status, approverId, now)
    {
      if req.id in requests && requests[req.id].tenantId == req.tenantId {
        var r := requests[req.id].(status := status, decidedAt := Some(now));
        requests := requests[req.id := if approverId.Some? then r.(approverId := approverId) else r];
      }
    }

    /** The whole approval of one request when nothing interferes: refused unless it is pending,
        the approver is someone else, and the rule in force lets them approve. */
    method Approve(env: Env, tenantId: int, requestId: int, approverId: int, now: Time, bindingId: int)
      returns (r: Result<Request>)
      modifies this
      ensures r.Ok? <==> && MayApprove(old(Contents()), env, tenantId, requestId, approverId)
                         && Approval(old(Contents()), requestId, approverId, now, bindingId).Ok?
      ensures r.Ok? ==> && Contents() == Approval(old(Contents()), requestId, approverId, now, bindingId).value
                        && r.value == old(requests[requestId]).(status := Approved, bindingId := Some(bindingId),
                             expiresAt := Some(now + old(requests[requestId]).requestedSeconds * SECOND))
      ensures r.Err? ==> Contents() == old(Contents())
    {
      if requestId !in requests || requests[requestId].tenantId != tenantId {
        return Err("request not found");
      }
      var req := requests[requestId];
      if req.status != Pending {
        return Err("request is no longer pending");
      }
      if approverId == req.requesterId {
        return Err("approver must differ from requester");
      }
      if req.ruleId !in rules || rules[req.ruleId].tenantId != tenantId {
        return Err("eligibility not found");
      }
      if !ApproverAllowed(env, tenantId, approverId, rules[req.ruleId]) {
        return Err("approver is not authorized");
      }
      var expiresAt := now + req.requestedSeconds * SECOND;
      var ok := ApproveAndGrantTx(req, approverId, now, expiresAt, bindingId);
      if !ok {
        return Err("grant failed");
      }
      return Ok(req.(status := Approved, expiresAt := Some(expiresAt), bindingId := Some(bindingId)));
    }

    /** Ends one grant, unless its transaction fails. */
    method ExpireNext(req: Request, fails: bool, n: nat, ghost before: Store, ghost ended: set<int>)
      returns (n': nat, ghost more: set<int>)
      requires req.id in before.requests && before.requests[req.id] == req && Contents() == SweptOf(before, ended)
      requires n == |ended| && req.id !in ended
      modifies this
      ensures more == if fails then ended else ended + {req.id}
      ensures Contents() == SweptOf(before, more) && n' == |more|
    {
      n', more := n, ended;
      if !fails {
        SweptOneMore(before, ended, req.id);
        EndGrantTx(req, Expired);
        n', more := n + 1, ended + {req.id};
      }
    }

    /** Ends the given grants one by one; those whose transaction fails are skipped. */
    method ExpireAll(listed: map<int, Request>, due: set<int>, fails: set<int>) returns (n: nat)
      requires listed == requests && due <= listed.Keys && forall id :: id in due ==> listed[id].id == id
      modifies this
      ensures Contents() == SweptOf(old(Contents()), due - fails) && n == |due - fails|
    {
      ghost var before, ended := Contents(), {};
      SweptNone(before);
      n := 0;
      var rest := due;
      while rest != {}
        invariant rest <= due && n == |ended| && Contents() == SweptOf(before, ended)
        invariant forall id :: id in ended <==> id in due && id !in rest && id !in fails
        decreases |rest|
      {
        var id := Pick(rest);
        rest := rest - {id};
        n, ended := ExpireNext(listed[id], id in fails, n, before, ended);
      }
      EmptyHasNone(rest);
      assert forall id: int :: id in ended <==> id in due - fails;
      SameMembers(ended, due - fails);
    }

    /** Lists the due grants, if they can be read, and ends them. */
    method SweepOnce(now: Time, readable: bool, fails: set<int>) returns (n: nat)
      requires forall id :: id in requests ==> requests[id].id == id
      modifies this
      ensures var ended := if readable then DueSet(old(Contents()), now) - fails else {};
              Contents() == SweptOf(old(Contents()), ended) && n == |ended|
      ensures readable ==>
                forall id :: id in requests && id !in fails && requests[id].status == Approved ==>
                  requests[id].expiresAt.Some? ==> now < requests[id].expiresAt.value
    {
      if !readable {
        SweptNone(Contents());
        return 0;
      }
      var listed := requests;
      var due := set id | id in listed && Due(listed[id], now);
      n := ExpireAll(listed, due, fails);
    }
  }
}
