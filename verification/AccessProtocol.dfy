/** Just-in-time access under concurrency: any number of approvals, rejections, cancellations,
    revocations and sweeps, each split between what it reads and what it then writes, beside new
    requests, rule edits and hand-made bindings. */
module AccessProtocol {
  import opened Common
  import opened Access

  /** A call under way, holding the request row as it read it. */
  datatype Call =
    | Deciding(req: Request, approverId: int)
    | Granting(req: Request, approverId: int, decidedAt: Time, bindingId: int)
    | Ending(req: Request, final: Status)
    | Declining(req: Request, status: Status, decider: Option<int>)

  /** One line of the audit trail for an activated grant. */
  datatype Activation = Activation(requestId: int, approverId: int, decidedAt: Time, activatedAt: Time, expiresAt: Time)

  /** `minted` holds every id the generator has handed out for requests and bindings. */
  datatype World = World(now: Time, store: Store, calls: map<int, Call>, minted: set<int>, trail: seq<Activation>)

  datatype Step =
    | Tick(elapsed: nat)
    | AddRule(id: int, tenantId: int, input: RuleInput)
    | EditRule(id: int, tenantId: int, input: RuleInput)
    | DropRule(id: int)
    | Ask(env: Env, id: int, tenantId: int, requesterId: int, ruleId: int, seconds: int, justification: string)
    | StartDecline(call: int, id: int, status: Status, decider: Option<int>)
    | CommitDecline(call: int)
    | StartApprove(call: int, id: int, approverId: int)
    | CheckApprover(call: int, env: Env, bindingId: int)
    | CommitGrant(call: int)
    | StartRevoke(call: int, id: int)
    | StartExpire(call: int, id: int)
    | CommitEnd(call: int)
    | Abandon(call: int)
    | Bind(app: bool, id: int, row: Binding)
    | Unbind(app: bool, id: int)

  function GrantResult(w: World, c: Call): Result<Store>
    requires c.Granting?
  {
    ApproveAndGrant(w.store, c.req, c.approverId, w.now, ExpiryOf(c), c.bindingId)
  }

  /** Approve adds the requested seconds to its own clock reading. */
  function ExpiryOf(c: Call): Time
    requires c.Granting?
  {
    c.decidedAt + c.req.requestedSeconds * SECOND
  }

  ghost predicate Next(w: World, w': World, step: Step) {
    match step
    case Tick(elapsed) => w' == w.(now := w.now + elapsed)
    case AddRule(id, tenantId, input) =>
      && id !in w.store.rules && CreateRule(w.store, id, tenantId, input).Ok?
      && w' == w.(store := CreateRule(w.store, id, tenantId, input).value)
    case EditRule(id, tenantId, input) =>
      && UpdateRule(w.store, id, tenantId, input).Ok?
      && w' == w.(store := UpdateRule(w.store, id, tenantId, input).value)
    case DropRule(id) => w' == w.(store := w.store.(rules := w.store.rules - {id}))
    case Ask(env, id, tenantId, requesterId, ruleId, seconds, justification) =>
      && id !in w.minted
      && var r := NewRequest(w.store, env, id, tenantId, requesterId, ruleId, seconds, justification);
      && r.Ok?
      && w' == w.(store := w.store.(requests := w.store.requests[id := r.value]), minted := w.minted + {id})
    case StartDecline(call, id, status, decider) =>
      && call !in w.calls && id in w.store.requests && w.store.requests[id].status == Pending
      && (status == Rejected || status == Cancelled)
      && w' == w.(calls := w.calls[call := Declining(w.store.requests[id], status, decider)])
    case CommitDecline(call) =>
      && call in w.calls && w.calls[call].Declining?
      && var c := w.calls[call];
      w' == w.(calls := w.calls - {call}, store := Decided(w.store, c.req, c.status, c.decider, w.now))
    case StartApprove(call, id, approverId) =>
      && call !in w.calls && id in w.store.requests && w.store.requests[id].status == Pending
      && approverId != w.store.requests[id].requesterId
      && w' == w.(calls := w.calls[call := Deciding(w.store.requests[id], approverId)])
    case CheckApprover(call, env, bindingId) =>
      && call in w.calls && w.calls[call].Deciding? && bindingId !in w.minted
      && var c := w.calls[call];
      && c.req.ruleId in w.store.rules && w.store.rules[c.req.ruleId].tenantId == c.req.tenantId
      && ApproverAllowed(env, c.req.tenantId, c.approverId, w.store.rules[c.req.ruleId])
      && w' == w.(calls := w.calls[call := Granting(c.req, c.approverId, w.now, bindingId)],
          minted := w.minted + {bindingId})
    case CommitGrant(call) =>
      && call in w.calls && w.calls[call].Granting?
      && var c := w.calls[call];
      w' == w.(calls := w.calls - {call},
               store := if GrantResult(w, c).Ok? then GrantResult(w, c).value else w.store,
               trail := if GrantResult(w, c).Ok?
                        then w.trail + [Activation(c.req.id, c.approverId, c.decidedAt, w.now, ExpiryOf(c))]
                            else w.trail)
    case StartRevoke(call, id) =>
      && call !in w.calls && id in w.store.requests && w.store.requests[id].status == Approved
      && w' == w.(calls := w.calls[call := Ending(w.store.requests[id], Revoked)])
    case StartExpire(call, id) =>
      && call !in w.calls && id in w.store.requests && Due(w.store.requests[id], w.now)
      && w' == w.(calls := w.calls[call := Ending(w.store.requests[id], Expired)])
    case CommitEnd(call) =>
      && call in w.calls && w.calls[call].Ending?
      && w' == w.(calls := w.calls - {call}, store := EndGrant(w.store, w.calls[call].req, w.calls[call].final))
    case Abandon(call) => w' == w.(calls := w.calls - {call})
    case Bind(app, id, row) =>
      && id !in w.minted && row.grantId.None? && !Clashes(TableOf(w.store, app), id, row.target)
      && row.target.AppTarget? == app && (app ==> row.target.appId.Some? != row.target.appGroupId.Some?)
      && w' == w.(store := WithTable(w.store, app, TableOf(w.store, app)[id := row]), minted := w.minted + {id})
    case Unbind(app, id) => w' == w.(store := WithTable(w.store, app, TableOf(w.store, app) - {id}))
  }

  ghost predicate Init(w: World) {
    w.store == Store(map[], map[], map[], map[]) && w.calls == map[] && w.minted == {} && w.trail == []
  }

  ghost predicate StepAt(run: seq<World>, steps: seq<Step>, i: nat)
    requires i < |steps| < |run|
  {
    Next(run[i], run[i + 1], steps[i])
  }

  ghost predicate Run(run: seq<World>, steps: seq<Step>) {
    && |run| == |steps| + 1 && Init(run[0])
    && forall i: nat :: i < |steps| ==> StepAt(run, steps, i)
  }

  // ---- The invariant ------------------------------------------------------------------

  /** The part of a request that never changes after it is made. */
  predicate SameAsk(a: Request, b: Request) {
    a == b.(status := a.status, approverId := a.approverId, decidedAt := a.decidedAt, activatedAt := a.activatedAt,
            expiresAt := a.expiresAt, bindingId := a.bindingId)
  }

  predicate Declined(status: Status) { status == Rejected || status == Cancelled }

  /** A row that names a grant belongs to that request, which points back and was approved; it may
      have been declined since. */
  predicate RowBacked(s: Store, app: bool, id: int)
    requires id in TableOf(s, app)
  {
    var row := TableOf(s, app)[id];
    row.grantId.Some? ==>
      && row.grantId.value in s.requests
      && var r := s.requests[row.grantId.value];
      && (r.status == Approved || Declined(r.status)) && r.bindingId == Some(id) && InAppTable(r) == app
      && HasTarget(r) && row.target == TargetOf(r) && row.expiresAt == r.expiresAt
  }

  ghost predicate GrantsBacked(s: Store) {
    forall app, id :: id in TableOf(s, app) ==> RowBacked(s, app, id)
  }

  predicate RequestSane(r: Request, id: int) {
    && r.id == id && HasTarget(r) && (r.status == Pending ==> r.bindingId.None?)
    && (r.status == Approved || r.status == Expired || r.status == Revoked ==> r.bindingId.Some?)
  }

  ghost predicate RequestsSane(w: World) {
    && (forall id :: id in w.store.requests ==> id in w.minted && RequestSane(w.store.requests[id], id))
    && (forall id :: id in w.store.requests && w.store.requests[id].bindingId.Some? ==>
          w.store.requests[id].bindingId.value in w.minted)
    && (forall a, b :: a in w.store.requests && b in w.store.requests && a != b && w.store.requests[a].bindingId.Some?
                       ==> w.store.requests[a].bindingId != w.store.requests[b].bindingId)
  }

  ghost predicate RowsMinted(w: World) {
    forall app, id :: id in TableOf(w.store, app) ==> id in w.minted
  }

  /** An id that a Granting call has drawn but not used yet. */
  ghost predicate Reserved(w: World, call: int, bindingId: int) {
    && bindingId in w.minted
    && (forall app :: bindingId !in TableOf(w.store, app))
    && (forall id :: id in w.store.requests ==> w.store.requests[id].bindingId != Some(bindingId))
    && (forall other :: other in w.calls && other != call && w.calls[other].Granting? ==>
          w.calls[other].bindingId != bindingId)
  }

  ghost predicate CallSane(w: World, call: int)
    requires call in w.calls
  {
    var c := w.calls[call];
    && c.req.id in w.store.requests && SameAsk(c.req, w.store.requests[c.req.id])
    && (c.Granting? ==> Reserved(w, call, c.bindingId))
    && (c.Declining? ==> Declined(c.status))
    && (c.Ending? ==> (c.final == Revoked || c.final == Expired)
                      && c.req.bindingId.Some? && w.store.requests[c.req.id].bindingId == c.req.bindingId)
  }

  ghost predicate CallsSane(w: World) {
    forall call :: call in w.calls ==> CallSane(w, call)
  }

  ghost predicate Inv(w: World) {
    GrantsBacked(w.store) && RequestsSane(w) && RowsMinted(w) && CallsSane(w)
  }

  ghost predicate RulesValid(s: Store) {
    forall id :: id in s.rules ==> RuleValid(s.rules[id])
  }

  predicate RuleValid(r: Rule) {
    && (r.targetKind == CONSOLE || (r.targetKind == APP && r.appId.Some?))
    && 0 < r.maxDuration <= MAX_RULE_TTL
    && forall i :: 0 <= i < |r.allowedDurations| ==> 0 < r.allowedDurations[i] <= r.maxDuration
  }

  lemma RulesValidStep(w: World, w': World, step: Step)
    requires RulesValid(w.store) && Next(w, w', step)
    ensures RulesValid(w'.store)
  {
  }

  // What the two transactions do to the tables.

  lemma GrantEffect(s: Store, req: Request, approverId: int, now: Time, expiresAt: Time, bindingId: int)
    requires ApproveAndGrant(s, req, approverId, now, expiresAt, bindingId).Ok?
    ensures StillPending(s, req) && HasTarget(req)
    ensures var s' := ApproveAndGrant(s, req, approverId, now, expiresAt, bindingId).value;
            && s'.rules == s.rules
            && s'.requests == s.requests[req.id := s.requests[req.id].(
                 status := Approved, approverId := Some(approverId), decidedAt := Some(now), activatedAt := Some(now),
                 expiresAt := Some(expiresAt), bindingId := Some(bindingId))]
            && (forall app, id :: id in TableOf(s', app) ==>
                  || (id in TableOf(s, app) && TableOf(s', app)[id] == TableOf(s, app)[id])
                  || (app == InAppTable(req) && id == bindingId && TableOf(s', app)[id] == GrantRow(req, expiresAt)))
  {
  }

  lemma EndEffect(s: Store, req: Request, final: Status)
    requires req.id in s.requests && SameAsk(req, s.requests[req.id]) && req.bindingId.Some?
    ensures var s' := EndGrant(s, req, final);
            && s'.rules == s.rules && s'.requests == s.requests[req.id := s.requests[req.id].(status := final)]
            && (forall app, id :: id in TableOf(s', app) <==>
                  id in TableOf(s, app) && !(app == InAppTable(req) && id == req.bindingId.value))
            && (forall app, id :: id in TableOf(s', app) ==> TableOf(s', app)[id] == TableOf(s, app)[id])
  {
  }

  lemma GrantKeepsRows(w: World, w': World, call: int)
    requires Inv(w) && Next(w, w', CommitGrant(call))
    ensures GrantsBacked(w'.store) && RowsMinted(w')
  {
    var c := w.calls[call];
    assert CallSane(w, call);
    if GrantResult(w, c).Ok? {
      GrantEffect(w.store, c.req, c.approverId, w.now, ExpiryOf(c), c.bindingId);
      assert forall app, id :: id in TableOf(w.store, app) ==> RowBacked(w.store, app, id);
    }
  }

  lemma GrantKeepsRequests(w: World, w': World, call: int)
    requires Inv(w) && Next(w, w', CommitGrant(call))
    ensures RequestsSane(w')
  {
    var c := w.calls[call];
    assert CallSane(w, call);
    if GrantResult(w, c).Ok? {
      GrantEffect(w.store, c.req, c.approverId, w.now, ExpiryOf(c), c.bindingId);
    }
  }

  lemma GrantKeepsInv(w: World, w': World, call: int)
    requires Inv(w) && Next(w, w', CommitGrant(call))
    ensures Inv(w')
  {
    var c := w.calls[call];
    GrantKeepsRows(w, w', call);
    GrantKeepsRequests(w, w', call);
    assert CallSane(w, call);
    assert forall other :: other in w'.calls ==> CallSane(w, other);
    if GrantResult(w, c).Ok? {
      GrantEffect(w.store, c.req, c.approverId, w.now, ExpiryOf(c), c.bindingId);
    }
  }

  lemma EndKeepsInv(w: World, w': World, call: int)
    requires Inv(w) && Next(w, w', CommitEnd(call))
    ensures Inv(w')
  {
    var c := w.calls[call];
    assert CallSane(w, call);
    EndEffect(w.store, c.req, c.final);
    assert forall other :: other in w'.calls ==> CallSane(w, other);
    EndKeepsRows(w, w', call);
  }

  lemma EndKeepsRows(w: World, w': World, call: int)
    requires Inv(w) && Next(w, w', CommitEnd(call))
    ensures GrantsBacked(w'.store) && RowsMinted(w')
  {
    var c := w.calls[call];
    assert CallSane(w, call);
    EndEffect(w.store, c.req, c.final);
    assert forall app, id :: id in TableOf(w.store, app) ==> RowBacked(w.store, app, id);
  }

  lemma HandMadeRowsKeepInv(w: World, w': World, step: Step)
    requires Inv(w) && Next(w, w', step) && (step.Bind? || step.Unbind?)
    ensures Inv(w')
  {
    var table := if step.Bind? then TableOf(w.store, step.app)[step.id := step.row]
        else TableOf(w.store, step.app) - {step.id};
    assert forall app :: TableOf(w'.store, app) == if app == step.app then table else TableOf(w.store, app);
    assert forall call :: call in w.calls ==> CallSane(w, call);
    assert forall app, id :: id in TableOf(w.store, app) ==> RowBacked(w.store, app, id);
  }

  lemma AskKeepsInv(w: World, w': World, step: Step)
    requires Inv(w) && RulesValid(w.store) && Next(w, w', step) && step.Ask?
    ensures Inv(w')
  {
    var id := step.id;
    assert id !in w.store.requests;
    assert w'.store.requests == w.store.requests[id := w'.store.requests[id]] && RequestSane(w'.store.requests[id], id);
    assert forall app :: TableOf(w'.store, app) == TableOf(w.store, app);
    assert GrantsBacked(w'.store) by {
      assert forall app, k :: k in TableOf(w.store, app) ==> RowBacked(w.store, app, k);
    }
    forall call | call in w'.calls
      ensures CallSane(w', call)
    {
      assert CallSane(w, call);
    }
  }

  /** A decline that commits late changes nothing but the request's status and decision. */
  lemma DeclineKeepsInv(w: World, w': World, step: Step)
    requires Inv(w) && Next(w, w', step) && step.CommitDecline?
    ensures Inv(w')
  {
    var id := w.calls[step.call].req.id;
    assert CallSane(w, step.call) && RequestSane(w.store.requests[id], id);
    assert forall app :: TableOf(w'.store, app) == TableOf(w.store, app);
    assert GrantsBacked(w'.store) by {
      assert forall app, k :: k in TableOf(w.store, app) ==> RowBacked(w.store, app, k);
    }
    forall call | call in w'.calls
      ensures CallSane(w', call)
    {
      assert CallSane(w, call);
    }
  }

  /** Steps that start, advance or drop a call, or touch only the rules or the clock. */
  lemma OtherStepsKeepInv(w: World, w': World, step: Step)
    requires Inv(w) && Next(w, w', step)
    requires !step.CommitGrant? && !step.CommitEnd? && !step.Bind? && !step.Unbind? && !step.Ask?
    requires !step.CommitDecline?
    ensures Inv(w')
  {
    assert forall app :: TableOf(w'.store, app) == TableOf(w.store, app);
    assert w'.store.requests == w.store.requests && w.minted <= w'.minted;
    assert GrantsBacked(w'.store) by {
      assert forall app, id :: id in TableOf(w.store, app) ==> RowBacked(w.store, app, id);
    }
    forall call | call in w'.calls
      ensures CallSane(w', call)
    {
      assert call in w.calls ==> CallSane(w, call);
    }
  }

  lemma StepKeepsInv(w: World, w': World, step: Step)
    requires Inv(w) && RulesValid(w.store) && Next(w, w', step)
    ensures Inv(w')
  {
    if step.CommitGrant? {
      GrantKeepsInv(w, w', step.call);
    } else if step.CommitEnd? {
      EndKeepsInv(w, w', step.call);
    } else if step.Bind? || step.Unbind? {
      HandMadeRowsKeepInv(w, w', step);
    } else if step.Ask? {
      AskKeepsInv(w, w', step);
    } else if step.CommitDecline? {
      DeclineKeepsInv(w, w', step);
    } else {
      OtherStepsKeepInv(w, w', step);
    }
  }

  lemma {:induction false} Invariant(run: seq<World>, steps: seq<Step>, i: nat)
    requires Run(run, steps) && i < |run|
    ensures Inv(run[i]) && RulesValid(run[i].store)
  {
    if i > 0 {
      Invariant(run, steps, i - 1);
      assert StepAt(run, steps, i - 1);
      RulesValidStep(run[i - 1], run[i], steps[i - 1]);
      StepKeepsInv(run[i - 1], run[i], steps[i - 1]);
    }
  }

  // ---- Approved at most once -------------------------------------------------------------

  ghost predicate TrailSane(w: World) {
    && (forall k :: 0 <= k < |w.trail| ==> Recorded(w, w.trail[k]))
    && (forall k, l :: 0 <= k < l < |w.trail| ==> w.trail[k].requestId != w.trail[l].requestId)
    && (forall id :: id in w.store.requests && w.store.requests[id].bindingId.Some? ==>
          exists k :: 0 <= k < |w.trail| && w.trail[k].requestId == id)
  }

  /** The request carries what the trail says about its activation. */
  ghost predicate Recorded(w: World, a: Activation) {
    && a.requestId in w.store.requests
    && var r := w.store.requests[a.requestId];
    && r.bindingId.Some? && r.activatedAt == Some(a.activatedAt) && r.expiresAt == Some(a.expiresAt)
  }

  lemma TrailSaneGrant(w: World, w': World, call: int)
    requires Inv(w) && TrailSane(w) && Next(w, w', CommitGrant(call)) && GrantResult(w, w.calls[call]).Ok?
    ensures TrailSane(w')
  {
    var c := w.calls[call];
    assert CallSane(w, call);
    GrantEffect(w.store, c.req, c.approverId, w.now, ExpiryOf(c), c.bindingId);
    assert RequestSane(w.store.requests[c.req.id], c.req.id);
    forall k | 0 <= k < |w.trail|
      ensures w.trail[k].requestId != c.req.id && Recorded(w', w.trail[k])
    {
      assert Recorded(w, w.trail[k]);
    }
    assert w'.trail[|w.trail|].requestId == c.req.id;
    forall id | id in w'.store.requests && w'.store.requests[id].bindingId.Some? && id != c.req.id
      ensures exists k :: 0 <= k < |w'.trail| && w'.trail[k].requestId == id
    {
      var k :| 0 <= k < |w.trail| && w.trail[k].requestId == id;
      assert w'.trail[k].requestId == id;
    }
  }

  /** Outside a successful grant, a request that has a binding keeps its terms; a late decline may
      overwrite who decided and when. */
  lemma DecisionKept(w: World, w': World, step: Step, id: int)
    requires Inv(w) && Next(w, w', step) && id in w.store.requests
    requires !(step.CommitGrant? && GrantResult(w, w.calls[step.call]).Ok?)
    ensures id in w'.store.requests && w'.store.requests[id].bindingId == w.store.requests[id].bindingId
    ensures w.store.requests[id].bindingId.Some? ==>
              var r := w'.store.requests[id];
              r == w.store.requests[id].(status := r.status, approverId := r.approverId, decidedAt := r.decidedAt)
  {
    assert RequestSane(w.store.requests[id], id);
    if step.Ask? {
      assert step.id != id;
    }
  }

  lemma TrailSaneStep(w: World, w': World, step: Step)
    requires Inv(w) && TrailSane(w) && Next(w, w', step)
    ensures TrailSane(w')
  {
    if step.CommitGrant? && GrantResult(w, w.calls[step.call]).Ok? {
      TrailSaneGrant(w, w', step.call);
      return;
    }
    forall k | 0 <= k < |w.trail|
      ensures Recorded(w', w.trail[k])
    {
      assert Recorded(w, w.trail[k]);
      DecisionKept(w, w', step, w.trail[k].requestId);
    }
    forall id | id in w'.store.requests && w'.store.requests[id].bindingId.Some?
      ensures exists k :: 0 <= k < |w.trail| && w.trail[k].requestId == id
    {
      if id in w.store.requests {
        DecisionKept(w, w', step, id);
      }
    }
  }

  /** No request is ever activated twice, and every grant ever made is on the trail. */
  lemma {:induction false} ApprovedAtMostOnce(run: seq<World>, steps: seq<Step>, i: nat)
    requires Run(run, steps) && i < |run|
    ensures TrailSane(run[i])
  {
    if i > 0 {
      ApprovedAtMostOnce(run, steps, i - 1);
      Invariant(run, steps, i - 1);
      assert StepAt(run, steps, i - 1);
      TrailSaneStep(run[i - 1], run[i], steps[i - 1]);
    }
  }

  // ---- Supersession ----------------------------------------------------------------------

  /** Each table holds its own kind of row, obeys its CHECK, and has no two rows under one key. */
  ghost predicate TablesIndexed(s: Store) {
    && (forall app, id :: id in TableOf(s, app) ==> RowShaped(TableOf(s, app)[id], app))
    && (forall app, a, b :: a in TableOf(s, app) && b in TableOf(s, app) && a != b
                            ==> IndexKey(TableOf(s, app)[a].target) != IndexKey(TableOf(s, app)[b].target))
  }

  predicate RowShaped(row: Binding, app: bool) {
    row.target.AppTarget? == app && (app ==> row.target.appId.Some? != row.target.appGroupId.Some?)
  }

  lemma TablesIndexedGrant(s: Store, req: Request, approverId: int, now: Time, expiresAt: Time, bindingId: int)
    requires TablesIndexed(s) && ApproveAndGrant(s, req, approverId, now, expiresAt, bindingId).Ok?
    ensures TablesIndexed(ApproveAndGrant(s, req, approverId, now, expiresAt, bindingId).value)
  {
    var s' := ApproveAndGrant(s, req, approverId, now, expiresAt, bindingId).value;
    var app := InAppTable(req);
    var kept := Supersede(TableOf(s, app), TargetOf(req));
    assert forall other :: TableOf(s', other) == if other == app then kept[bindingId := GrantRow(req, expiresAt)]
        else TableOf(s, other);
    assert forall id :: id in kept ==> id in TableOf(s, app) && kept[id] == TableOf(s, app)[id];
  }

  lemma TablesIndexedStep(w: World, w': World, step: Step)
    requires TablesIndexed(w.store) && Next(w, w', step)
    ensures TablesIndexed(w'.store)
  {
    if step.CommitGrant? {
      var c := w.calls[step.call];
      if GrantResult(w, c).Ok? {
        TablesIndexedGrant(w.store, c.req, c.approverId, w.now, ExpiryOf(c), c.bindingId);
      }
    } else if step.Bind? {
      TablesIndexedBind(w, w', step);
    } else {
      assert forall app, id :: id in TableOf(w'.store, app) ==>
        id in TableOf(w.store, app) && TableOf(w'.store, app)[id] == TableOf(w.store, app)[id];
    }
  }

  lemma TablesIndexedBind(w: World, w': World, step: Step)
    requires TablesIndexed(w.store) && Next(w, w', step) && step.Bind?
    ensures TablesIndexed(w'.store)
  {
    var table := TableOf(w.store, step.app)[step.id := step.row];
    assert forall app :: TableOf(w'.store, app) == if app == step.app then table else TableOf(w.store, app);
  }

  /** At most one row per role, user and scope, and per app, tenant, role and user, in every run. */
  lemma {:induction false} OneRowPerTarget(run: seq<World>, steps: seq<Step>, i: nat)
    requires Run(run, steps) && i < |run|
    ensures TablesIndexed(run[i].store)
  {
    if i > 0 {
      OneRowPerTarget(run, steps, i - 1);
      assert StepAt(run, steps, i - 1);
      TablesIndexedStep(run[i - 1], run[i], steps[i - 1]);
    }
  }

  /** The one row that superseding does not clear although it occupies the same index entry: a
      binding of app group 0, when the grant is for app 0. */
  ghost predicate Blocked(s: Store, req: Request) {
    && InAppTable(req) && req.appId == Some(0)
    && exists id :: id in s.appBindings
                    && s.appBindings[id].target == AppTarget(None, Some(0), req.tenantId, req.roleId, "user",
                        req.requesterId)
  }

  /** Superseding makes room: unless blocked, which takes an app numbered 0, a commit succeeds
      exactly when its request is still pending, so of several racing approvals the first commits
      and the rest change nothing. */
  lemma GrantSucceedsIff(run: seq<World>, steps: seq<Step>, i: nat, call: int)
    requires Run(run, steps) && i < |run| && call in run[i].calls && run[i].calls[call].Granting?
    ensures GrantResult(run[i], run[i].calls[call]).Ok?
            <==> StillPending(run[i].store, run[i].calls[call].req) && !Blocked(run[i].store, run[i].calls[call].req)
  {
    Invariant(run, steps, i);
    OneRowPerTarget(run, steps, i);
    var w, c := run[i], run[i].calls[call];
    assert CallSane(w, call);
    assert RequestSane(w.store.requests[c.req.id], c.req.id);
    RoomIffNotBlocked(w.store, c.req, c.bindingId);
  }

  lemma RoomIffNotBlocked(s: Store, req: Request, bindingId: int)
    requires HasTarget(req) && TablesIndexed(s) && bindingId !in TableOf(s, InAppTable(req))
    ensures Clashes(Supersede(TableOf(s, InAppTable(req)), TargetOf(req)), bindingId, TargetOf(req))
        <==> Blocked(s, req)
  {
    var table := TableOf(s, InAppTable(req));
    forall id | id in table
      ensures IndexKey(table[id].target) == IndexKey(TargetOf(req)) && !Supersedes(TargetOf(req), table[id])
              <==> InAppTable(req) && req.appId == Some(0)
                   && table[id].target == AppTarget(None, Some(0), req.tenantId, req.roleId, "user", req.requesterId)
    {
      assert RowShaped(table[id], InAppTable(req));
    }
    var kept := Supersede(table, TargetOf(req));
    if Blocked(s, req) {
      var id :| id in s.appBindings
                && s.appBindings[id].target == AppTarget(None, Some(0), req.tenantId, req.roleId, "user",
                    req.requesterId);
      assert id in table && id in kept;
    }
  }

  /** A row whose id a request points to is that request's grant. */
  ghost predicate RowsOwned(w: World) {
    forall app, id, r ::
      id in TableOf(w.store, app) && r in w.store.requests && w.store.requests[r].bindingId == Some(id) ==>
        TableOf(w.store, app)[id].grantId == Some(r)
  }

  lemma RowsOwnedGrant(w: World, w': World, call: int)
    requires Inv(w) && RowsOwned(w) && Next(w, w', CommitGrant(call))
    ensures RowsOwned(w')
  {
    var c := w.calls[call];
    assert CallSane(w, call);
    if GrantResult(w, c).Ok? {
      GrantEffect(w.store, c.req, c.approverId, w.now, ExpiryOf(c), c.bindingId);
    }
  }

  lemma RowsOwnedEnd(w: World, w': World, call: int)
    requires Inv(w) && RowsOwned(w) && Next(w, w', CommitEnd(call))
    ensures RowsOwned(w')
  {
    assert CallSane(w, call);
    EndEffect(w.store, w.calls[call].req, w.calls[call].final);
  }

  lemma RowsOwnedBind(w: World, w': World, step: Step)
    requires Inv(w) && RowsOwned(w) && step.Bind? && Next(w, w', step)
    ensures RowsOwned(w')
  {
    var table := TableOf(w.store, step.app)[step.id := step.row];
    assert forall app :: TableOf(w'.store, app) == if app == step.app then table else TableOf(w.store, app);
  }

  lemma RowsOwnedStep(w: World, w': World, step: Step)
    requires Inv(w) && RowsOwned(w) && Next(w, w', step)
    ensures RowsOwned(w')
  {
    if step.CommitGrant? {
      RowsOwnedGrant(w, w', step.call);
    } else if step.CommitEnd? {
      RowsOwnedEnd(w, w', step.call);
    } else if step.Bind? {
      RowsOwnedBind(w, w', step);
    } else {
      assert forall app, id :: id in TableOf(w'.store, app) ==>
        id in TableOf(w.store, app) && TableOf(w'.store, app)[id] == TableOf(w.store, app)[id];
    }
  }

  lemma {:induction false} RowsAlwaysOwned(run: seq<World>, steps: seq<Step>, i: nat)
    requires Run(run, steps) && i < |run|
    ensures RowsOwned(run[i])
  {
    if i > 0 {
      RowsAlwaysOwned(run, steps, i - 1);
      Invariant(run, steps, i - 1);
      assert StepAt(run, steps, i - 1);
      RowsOwnedStep(run[i - 1], run[i], steps[i - 1]);
    }
  }

  /** Ending a request, whenever it commits, removes its own grant from the tables and no other
      row: a newer binding that superseded it stays. */
  lemma EndRemovesOnlyItsGrant(run: seq<World>, steps: seq<Step>, i: nat, app: bool, id: int)
    requires Run(run, steps) && i < |steps| && steps[i].CommitEnd?
    requires id in TableOf(run[i].store, app)
    ensures steps[i].call in run[i].calls
    ensures id in TableOf(run[i + 1].store, app)
            <==> TableOf(run[i].store, app)[id].grantId != Some(run[i].calls[steps[i].call].req.id)
  {
    Invariant(run, steps, i);
    RowsAlwaysOwned(run, steps, i);
    assert StepAt(run, steps, i);
    var w, c := run[i], run[i].calls[steps[i].call];
    assert CallSane(w, steps[i].call) && RowBacked(w.store, app, id);
    EndEffect(w.store, c.req, c.final);
  }

  // ---- The terms of every grant ------------------------------------------------------------

  /** The request was made by step `n` under an enabled rule then in force, by someone eligible, with
      the reason that the rule may insist on, and within its durations. */
  ghost predicate AskedUnder(run: seq<World>, steps: seq<Step>, n: nat, r: Request) {
    && n < |steps| && n < |run| && steps[n].Ask? && r.ruleId in run[n].store.rules
    && r.id == steps[n].id && r.tenantId == steps[n].tenantId && r.requesterId == steps[n].requesterId
    && r.ruleId == steps[n].ruleId && r.requestedSeconds == steps[n].seconds
    && r.justification == steps[n].justification
    && var rule := run[n].store.rules[r.ruleId];
    && rule.tenantId == r.tenantId && rule.status == RULE_ENABLED
    && RequesterEligible(steps[n].env, r.tenantId, r.requesterId, rule)
    && (rule.requireJustification ==> r.justification != "") && DurationAllowed(rule, r.requestedSeconds)
    && 0 < r.requestedSeconds <= rule.maxDuration <= MAX_RULE_TTL
    && r.targetKind == rule.targetKind && r.roleId == rule.roleId && r.appId == rule.appId
    && r.scopeType == rule.scopeType && r.scopeId == rule.scopeId
  }

  ghost predicate RequestsFounded(run: seq<World>, steps: seq<Step>, i: nat)
    requires i < |run|
  {
    forall id :: id in run[i].store.requests ==>
      exists n :: 0 <= n < i && AskedUnder(run, steps, n, run[i].store.requests[id])
  }

  lemma {:induction false} EveryRequestFounded(run: seq<World>, steps: seq<Step>, i: nat)
    requires Run(run, steps) && i < |run|
    ensures RequestsFounded(run, steps, i)
  {
    if i > 0 {
      EveryRequestFounded(run, steps, i - 1);
      Invariant(run, steps, i - 1);
      assert StepAt(run, steps, i - 1);
      forall id | id in run[i].store.requests
        ensures exists n :: 0 <= n < i && AskedUnder(run, steps, n, run[i].store.requests[id])
      {
        if id in run[i - 1].store.requests {
          var n := OldRequestFounded(run, steps, i - 1, id);
        } else {
          NewRequestFounded(run, steps, i - 1, id);
        }
      }
    }
  }

  lemma OldRequestFounded(run: seq<World>, steps: seq<Step>, i: nat, id: int) returns (n: nat)
    requires Run(run, steps) && i < |steps| && Inv(run[i]) && RequestsFounded(run, steps, i)
    requires id in run[i].store.requests
    ensures id in run[i + 1].store.requests
    ensures n < i && AskedUnder(run, steps, n, run[i + 1].store.requests[id])
  {
    assert StepAt(run, steps, i);
    StepKeepsAsk(run[i], run[i + 1], steps[i], id);
    n :| 0 <= n < i && AskedUnder(run, steps, n, run[i].store.requests[id]);
  }

  lemma NewRequestFounded(run: seq<World>, steps: seq<Step>, i: nat, id: int)
    requires Run(run, steps) && i < |steps| && RulesValid(run[i].store)
    requires id in run[i + 1].store.requests && id !in run[i].store.requests
    ensures AskedUnder(run, steps, i, run[i + 1].store.requests[id])
  {
    assert StepAt(run, steps, i);
  }

  lemma StepKeepsAsk(w: World, w': World, step: Step, id: int)
    requires Inv(w) && Next(w, w', step) && id in w.store.requests
    ensures id in w'.store.requests && SameAsk(w'.store.requests[id], w.store.requests[id])
  {
    if step.Ask? {
      assert step.id != id;
    }
  }

  /** At step `d` the approver of this very request was checked against the rule then in force, and
      allowed. */
  ghost predicate AllowedAt(run: seq<World>, steps: seq<Step>, d: nat, r: Request, approverId: int, decidedAt: Time) {
    && d < |steps| && d < |run| && steps[d].CheckApprover? && run[d].now == decidedAt
    && steps[d].call in run[d].calls
    && var c := run[d].calls[steps[d].call];
    && c.Deciding? && c.req.id == r.id && c.approverId == approverId
    && r.ruleId in run[d].store.rules && run[d].store.rules[r.ruleId].tenantId == r.tenantId
    && ApproverAllowed(steps[d].env, r.tenantId, approverId, run[d].store.rules[r.ruleId])
    && approverId != r.requesterId
  }

  ghost predicate CallFounded(run: seq<World>, steps: seq<Step>, i: nat, c: Call) {
    && (c.Deciding? ==> c.approverId != c.req.requesterId)
    && (c.Granting? ==> exists d :: 0 <= d < i && AllowedAt(run, steps, d, c.req, c.approverId, c.decidedAt))
  }

  /** What an activation promises: someone else, allowed by the rule, approved it before it took
      effect, and it ends the requested number of seconds after that decision. */
  ghost predicate ActivationFounded(run: seq<World>, steps: seq<Step>, i: nat, a: Activation)
    requires i < |run|
  {
    && a.requestId in run[i].store.requests
    && var r := run[i].store.requests[a.requestId];
    && a.expiresAt == a.decidedAt + r.requestedSeconds * SECOND && a.decidedAt <= a.activatedAt
    && exists d :: 0 <= d < i && AllowedAt(run, steps, d, r, a.approverId, a.decidedAt)
  }

  lemma {:induction false} ClockMonotone(run: seq<World>, steps: seq<Step>, i: nat, j: nat)
    requires Run(run, steps) && i <= j < |run|
    ensures run[i].now <= run[j].now
  {
    if i < j {
      ClockMonotone(run, steps, i, j - 1);
      assert StepAt(run, steps, j - 1);
    }
  }

  lemma {:induction false} EveryCallFounded(run: seq<World>, steps: seq<Step>, i: nat, call: int)
    requires Run(run, steps) && i < |run| && call in run[i].calls
    ensures CallFounded(run, steps, i, run[i].calls[call])
  {
    if i > 0 {
      assert StepAt(run, steps, i - 1);
      if call in run[i - 1].calls {
        EveryCallFounded(run, steps, i - 1, call);
        if steps[i - 1].CheckApprover? && steps[i - 1].call == call {
          var c := run[i].calls[call];
          assert AllowedAt(run, steps, i - 1, c.req, c.approverId, c.decidedAt);
        }
      }
    }
  }

  lemma {:induction false} EveryActivationFounded(run: seq<World>, steps: seq<Step>, i: nat, k: nat)
    requires Run(run, steps) && i < |run| && k < |run[i].trail|
    ensures ActivationFounded(run, steps, i, run[i].trail[k])
  {
    if i > 0 {
      var w, w' := run[i - 1], run[i];
      assert StepAt(run, steps, i - 1);
      Invariant(run, steps, i - 1);
      if k < |w.trail| {
        EveryActivationFounded(run, steps, i - 1, k);
        StepKeepsAsk(w, w', steps[i - 1], w.trail[k].requestId);
        var r, a := w.store.requests[w.trail[k].requestId], w.trail[k];
        var d :| 0 <= d < i - 1 && AllowedAt(run, steps, d, r, a.approverId, a.decidedAt);
        assert AllowedAt(run, steps, d, w'.store.requests[a.requestId], a.approverId, a.decidedAt);
      } else {
        NewActivationFounded(run, steps, i - 1);
      }
    }
  }

  lemma NewActivationFounded(run: seq<World>, steps: seq<Step>, i: nat)
    requires Run(run, steps) && i < |steps| && Inv(run[i]) && |run[i].trail| < |run[i + 1].trail|
    ensures ActivationFounded(run, steps, i + 1, run[i + 1].trail[|run[i].trail|])
  {
    assert StepAt(run, steps, i);
    var call := steps[i].call;
    var c := run[i].calls[call];
    assert CallSane(run[i], call);
    EveryCallFounded(run, steps, i, call);
    var d :| 0 <= d < i && AllowedAt(run, steps, d, c.req, c.approverId, c.decidedAt);
    ClockMonotone(run, steps, d, i);
    StepKeepsAsk(run[i], run[i + 1], steps[i], c.req.id);
    assert AllowedAt(run, steps, d, run[i + 1].store.requests[c.req.id], c.approverId, c.decidedAt);
  }

  /** Every grant row in every run: its request was approved and points back; the seconds were
      within the rule in force when it was asked for, itself capped at seven days; the approver
      was not the requester and was allowed by the rule in force at the decision; and the row
      expires exactly those seconds after the decision. */
  lemma EveryGrantIsFounded(run: seq<World>, steps: seq<Step>, i: nat, app: bool, id: int) returns (n: nat, k: nat)
    requires Run(run, steps) && i < |run| && id in TableOf(run[i].store, app)
    requires TableOf(run[i].store, app)[id].grantId.Some?
    ensures var row := TableOf(run[i].store, app)[id];
            && row.grantId.value in run[i].store.requests
            && var r := run[i].store.requests[row.grantId.value];
            && (r.status == Approved || Declined(r.status)) && r.bindingId == Some(id)
            && HasTarget(r) && row.target == TargetOf(r)
            && n < i && AskedUnder(run, steps, n, r)
            && k < |run[i].trail| && run[i].trail[k].requestId == row.grantId.value
            && ActivationFounded(run, steps, i, run[i].trail[k])
            && row.expiresAt == Some(run[i].trail[k].decidedAt + r.requestedSeconds * SECOND)
  {
    Invariant(run, steps, i);
    assert RowBacked(run[i].store, app, id);
    var g := TableOf(run[i].store, app)[id].grantId.value;
    EveryRequestFounded(run, steps, i);
    n :| 0 <= n < i && AskedUnder(run, steps, n, run[i].store.requests[g]);
    ApprovedAtMostOnce(run, steps, i);
    k :| 0 <= k < |run[i].trail| && run[i].trail[k].requestId == g;
    assert Recorded(run[i], run[i].trail[k]);
    EveryActivationFounded(run, steps, i, k);
  }

  // ---- The row that superseding does not clear ---------------------------------------------

  const NOBODY := Env(_ => false, (_, _, _) => false, (_, _, _) => false, (_, _, _) => false)

  /** A rule for app 0 that anyone may use and user 2 approves; a binding of app group 0 for user 1;
      user 1 asks, and user 2 approves. */
  const REFUSED: seq<Step> :=
    [AddRule(10, 7, RuleInput(APP, 3, None, None, Some(0), "any", 0, [60], 60, "user", 2, Some(false), Some(false))),
     Bind(true, 20, Binding(AppTarget(None, Some(0), 7, 3, "user", 1), None, None, BINDING_ACTIVE)),
     Ask(NOBODY, 30, 7, 1, 10, 60, ""), StartApprove(1, 30, 2), CheckApprover(1, NOBODY, 40), CommitGrant(1)]

  lemma Extend(run: seq<World>, steps: seq<Step>, w: World, step: Step)
    requires Run(run, steps) && Next(run[|run| - 1], w, step)
    ensures Run(run + [w], steps + [step])
  {
    var run', steps' := run + [w], steps + [step];
    forall i: nat | i < |steps'| ensures StepAt(run', steps', i) {
      if i < |steps| {
        assert StepAt(run, steps, i);
      }
    }
  }

  lemma RuleAndRow() returns (run: seq<World>)
    ensures Run(run, REFUSED[..2]) && |run| == 3 && run[2].now == 0 && run[2].calls == map[] && run[2].trail == []
    ensures run[2].store.requests == map[] && run[2].minted == {20}
    ensures 10 in run[2].store.rules && run[2].store.rules[10] == ToRule(REFUSED[0].input, 7, true, true, RULE_ENABLED)
    ensures run[2].store.appBindings == map[20 := REFUSED[1].row] && run[2].store.roleBindings == map[]
  {
    var w0 := World(0, Store(map[], map[], map[], map[]), map[], {}, []);
    var w1 := w0.(store := CreateRule(w0.store, 10, 7, REFUSED[0].input).value);
    var w2 := w1.(store := WithTable(w1.store, true, map[20 := REFUSED[1].row]), minted := {20});
    Extend([w0], [], w1, REFUSED[0]);
    Extend([w0] + [w1], [] + [REFUSED[0]], w2, REFUSED[1]);
    run := [w0] + [w1] + [w2];
    assert REFUSED[..2] == [] + [REFUSED[0]] + [REFUSED[1]];
  }

  /** The commit is refused although the request is still pending. */
  lemma AppZeroIsRefused() returns (run: seq<World>)
    ensures Run(run, REFUSED) && 1 in run[5].calls && run[5].calls[1].Granting?
    ensures var req := run[5].calls[1].req; StillPending(run[5].store, req) && Blocked(run[5].store, req)
    ensures GrantResult(run[5], run[5].calls[1]).Err? && run[6].store == run[5].store && run[6].trail == []
  {
    run := RuleAndRow();
    var w2 := run[2];
    var asked := NewRequest(w2.store, NOBODY, 30, 7, 1, 10, 60, "").value;
    var w3 := w2.(store := w2.store.(requests := map[30 := asked]), minted := {20, 30});
    Extend(run, REFUSED[..2], w3, REFUSED[2]);
    var w4 := w3.(calls := map[1 := Deciding(asked, 2)]);
    Extend(run + [w3], REFUSED[..2] + [REFUSED[2]], w4, REFUSED[3]);
    var w5 := w3.(calls := map[1 := Granting(asked, 2, 0, 40)], minted := {20, 30, 40});
    Extend(run + [w3] + [w4], REFUSED[..2] + [REFUSED[2]] + [REFUSED[3]], w5, REFUSED[4]);
    BlockedGrantFails(w5, asked);
    var w6 := w5.(calls := map[]);
    run := run + [w3] + [w4] + [w5];
    Extend(run, REFUSED[..2] + [REFUSED[2]] + [REFUSED[3]] + [REFUSED[4]], w6, REFUSED[5]);
    run := run + [w6];
    assert REFUSED == REFUSED[..2] + [REFUSED[2]] + [REFUSED[3]] + [REFUSED[4]] + [REFUSED[5]];
  }

  lemma BlockedGrantFails(w: World, req: Request)
    requires HasTarget(req) && InAppTable(req) && req.appId == Some(0) && 20 in w.store.appBindings
    requires w.store.appBindings[20].target == AppTarget(None, Some(0), req.tenantId, req.roleId, "user",
        req.requesterId)
    ensures Blocked(w.store, req) && GrantResult(w, Granting(req, 2, 0, 40)).Err?
  {
    var kept := Supersede(w.store.appBindings, TargetOf(req));
    assert 20 in kept && IndexKey(kept[20].target) == IndexKey(TargetOf(req));
  }
}
