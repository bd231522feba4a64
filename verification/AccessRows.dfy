/** What comes and goes in the two binding tables, and when a grant is over: which rows an approval
    replaces, which a sweep takes, and which nothing but their owner's step touches. */
module AccessRows {
  import opened Common
  import opened Access
  import opened AccessProtocol

  /** The row gives the requester what the request asks for: the same role in the same scope, an
      absent scope being '' and 0, or the same role of the same app itself. */
  predicate SameHolding(req: Request, row: Binding) {
    match row.target
    case ConsoleTarget(roleId, subjectType, subjectId, scopeType, scopeId) =>
      && !InAppTable(req) && roleId == req.roleId && subjectType == "user" && subjectId == req.requesterId
      && (scopeType == req.scopeType || (Blank(scopeType, "") && Blank(req.scopeType, "")))
      && (scopeId == req.scopeId || (Blank(scopeId, 0) && Blank(req.scopeId, 0)))
    case AppTarget(appId, appGroupId, tenantId, roleId, subjectType, subjectId) =>
      && InAppTable(req) && appId == req.appId && appGroupId.None? && tenantId == req.tenantId
      && roleId == req.roleId && subjectType == "user" && subjectId == req.requesterId
  }

  predicate Blank<T(==)>(v: Option<T>, d: T) { v == None || v == Some(d) }

  lemma SupersedesSameHolding(req: Request, row: Binding)
    requires HasTarget(req) && RowShaped(row, InAppTable(req))
    ensures Supersedes(TargetOf(req), row) <==> SameHolding(req, row)
  {
  }

  /** In every run, a commit that succeeds takes away exactly the rows that give the requester what
      the request asks for; every other row of either table stays as it is. */
  lemma CommitReplacesExactly(run: seq<World>, steps: seq<Step>, i: nat, app: bool, id: int)
    requires Run(run, steps) && i < |steps| && steps[i].CommitGrant? && id in TableOf(run[i].store, app)
    ensures steps[i].call in run[i].calls && run[i].calls[steps[i].call].Granting?
    ensures var c, row := run[i].calls[steps[i].call], TableOf(run[i].store, app)[id];
            && (id in TableOf(run[i + 1].store, app) <==> GrantResult(run[i], c).Err? || !SameHolding(c.req, row))
            && (id in TableOf(run[i + 1].store, app) ==> TableOf(run[i + 1].store, app)[id] == row)
  {
    Invariant(run, steps, i);
    OneRowPerTarget(run, steps, i);
    assert StepAt(run, steps, i);
    var w, c := run[i], run[i].calls[steps[i].call];
    assert CallSane(w, steps[i].call);
    assert RowShaped(TableOf(w.store, app)[id], app);
    if GrantResult(w, c).Ok? && app == InAppTable(c.req) {
      SupersedesSameHolding(c.req, TableOf(w.store, app)[id]);
    }
  }

  /** The step that takes the row away: an administrator's, the end of the grant it was made for, or
      an approval of the same holding. */
  ghost predicate TakesAway(w: World, step: Step, app: bool, id: int)
    requires id in TableOf(w.store, app)
  {
    var row := TableOf(w.store, app)[id];
    || step == Unbind(app, id)
    || (step.CommitEnd? && step.call in w.calls && row.grantId == Some(w.calls[step.call].req.id))
    || (step.CommitGrant? && step.call in w.calls && w.calls[step.call].Granting?
        && GrantResult(w, w.calls[step.call]).Ok? && SameHolding(w.calls[step.call].req, row))
  }

  /** The step that puts the row there. */
  ghost predicate PutsThere(w: World, step: Step, app: bool, id: int, row: Binding) {
    || step == Bind(app, id, row)
    || (&& step.CommitGrant? && step.call in w.calls && w.calls[step.call].Granting?
        && var c := w.calls[step.call];
        && GrantResult(w, c).Ok? && c.bindingId == id && InAppTable(c.req) == app && HasTarget(c.req)
        && row == GrantRow(c.req, ExpiryOf(c)))
  }

  /** Rows leave only by a step that takes them away, never change, and arrive only by a step that
      puts them there. */
  lemma RowsComeAndGo(run: seq<World>, steps: seq<Step>, i: nat, app: bool, id: int)
    requires Run(run, steps) && i < |steps|
    ensures id in TableOf(run[i].store, app) ==>
              && (id in TableOf(run[i + 1].store, app) <==> !TakesAway(run[i], steps[i], app, id))
              && (id in TableOf(run[i + 1].store, app) ==>
                    TableOf(run[i + 1].store, app)[id] == TableOf(run[i].store, app)[id])
    ensures id !in TableOf(run[i].store, app) && id in TableOf(run[i + 1].store, app) ==>
              PutsThere(run[i], steps[i], app, id, TableOf(run[i + 1].store, app)[id])
  {
    assert StepAt(run, steps, i);
    var w, w', step := run[i], run[i + 1], steps[i];
    if step.CommitGrant? {
      if id in TableOf(w.store, app) {
        CommitReplacesExactly(run, steps, i, app, id);
      } else if GrantResult(w, w.calls[step.call]).Ok? {
        var c := w.calls[step.call];
        GrantEffect(w.store, c.req, c.approverId, w.now, ExpiryOf(c), c.bindingId);
      }
    } else if step.CommitEnd? {
      if id in TableOf(w.store, app) {
        EndRemovesOnlyItsGrant(run, steps, i, app, id);
      }
      Invariant(run, steps, i);
      assert CallSane(w, step.call);
      EndEffect(w.store, w.calls[step.call].req, w.calls[step.call].final);
    } else if step.Bind? {
      Invariant(run, steps, i);
    }
  }

  // ---- When a grant is over --------------------------------------------------------------------

  lemma ApprovedHasExpiry(run: seq<World>, steps: seq<Step>, i: nat, g: int) returns (k: nat)
    requires Run(run, steps) && i < |run| && g in run[i].store.requests && run[i].store.requests[g].status == Approved
    ensures k < |run[i].trail| && run[i].trail[k].requestId == g
    ensures var r := run[i].store.requests[g];
            r.expiresAt == Some(run[i].trail[k].decidedAt + r.requestedSeconds * SECOND)
    ensures forall l :: 0 <= l < |run[i].trail| && run[i].trail[l].requestId == g ==> l == k
  {
    Invariant(run, steps, i);
    ApprovedAtMostOnce(run, steps, i);
    assert RequestSane(run[i].store.requests[g], g);
    k :| 0 <= k < |run[i].trail| && run[i].trail[k].requestId == g;
    assert Recorded(run[i], run[i].trail[k]);
    EveryActivationFounded(run, steps, i, k);
  }

  /** A standing grant can be taken up for expiry exactly from the moment at which the requested
      seconds have passed since it was decided. */
  lemma OverAfterTheRequestedSeconds(run: seq<World>, steps: seq<Step>, i: nat, g: int) returns (k: nat)
    requires Run(run, steps) && i < |run| && g in run[i].store.requests && run[i].store.requests[g].status == Approved
    ensures k < |run[i].trail| && run[i].trail[k].requestId == g
    ensures (exists call, w' :: Next(run[i], w', StartExpire(call, g)))
            <==> run[i].trail[k].decidedAt + run[i].store.requests[g].requestedSeconds * SECOND <= run[i].now
  {
    k := ApprovedHasExpiry(run, steps, i, g);
    var w, r := run[i], run[i].store.requests[g];
    if r.expiresAt.value <= w.now {
      var call := Above(w.calls.Keys);
      assert Next(w, w.(calls := w.calls[call := Ending(r, Expired)]), StartExpire(call, g));
    }
  }

  /** The request is approved and its time is up. */
  predicate Overdue(r: Request, now: Time) {
    r.status == Approved && r.expiresAt.Some? && now >= r.expiresAt.value
  }

  /** The row's time is up, and the request it was granted for is still approved. */
  predicate RunOut(s: Store, row: Binding, now: Time) {
    && row.expiresAt.Some? && row.expiresAt.value <= now
    && row.grantId.Some? && row.grantId.value in s.requests && s.requests[row.grantId.value].status == Approved
  }

  /** A sweep marks exactly the overdue requests expired, but those whose transaction fails, and takes
      exactly their rows: of the rows that have run out, only one whose request was declined behind
      its back is left. */
  lemma SweepTakesTheOverdue(run: seq<World>, steps: seq<Step>, i: nat, fails: set<int>)
    requires Run(run, steps) && i < |run|
    ensures var s, now := run[i].store, run[i].now;
            var s' := SweptOf(s, DueSet(s, now) - fails);
            && s'.requests.Keys == s.requests.Keys
            && (forall g :: g in s.requests ==>
                  s'.requests[g] == if Overdue(s.requests[g], now) && g !in fails
                                    then s.requests[g].(status := Expired) else s.requests[g])
            && forall app, id :: id in TableOf(s, app) ==>
                 var row := TableOf(s, app)[id];
                 && (id !in TableOf(s', app) <==> RunOut(s, row, now) && row.grantId.value !in fails)
                 && (id in TableOf(s', app) ==> TableOf(s', app)[id] == row)
  {
    var s, now := run[i].store, run[i].now;
    var ended := DueSet(s, now) - fails;
    var s' := SweptOf(s, ended);
    assert s'.requests.Keys == s.requests.Keys;
    forall app, id | id in TableOf(s, app)
      ensures id in RowsOf(s, app, ended) <==>
                && TableOf(s, app)[id].grantId.Some? && TableOf(s, app)[id].grantId.value in ended
    {
      SweptRow(run, steps, i, ended, app, id);
    }
    Invariant(run, steps, i);
    assert forall app, id :: id in TableOf(s, app) ==> RowBacked(s, app, id);
  }

  lemma SweptRow(run: seq<World>, steps: seq<Step>, i: nat, ended: set<int>, app: bool, id: int)
    requires Run(run, steps) && i < |run| && id in TableOf(run[i].store, app)
    requires ended <= run[i].store.requests.Keys
    ensures var row := TableOf(run[i].store, app)[id];
            id in RowsOf(run[i].store, app, ended) <==> row.grantId.Some? && row.grantId.value in ended
  {
    var s := run[i].store;
    Invariant(run, steps, i);
    RowsAlwaysOwned(run, steps, i);
    assert RowBacked(s, app, id);
    if id in RowsOf(s, app, ended) {
      var g :| g in ended && g in s.requests && s.requests[g].bindingId == Some(id);
      assert TableOf(s, app)[id].grantId == Some(g);
    } else if TableOf(s, app)[id].grantId.Some? {
      var g := TableOf(s, app)[id].grantId.value;
      assert g in s.requests && s.requests[g].bindingId == Some(id) && InAppTable(s.requests[g]) == app;
    }
  }

  /** A grant row that a sweep leaves although its time is up. */
  lemma LeftRow(s: Store, s': Store, now: Time, app: bool, id: int)
    requires id in TableOf(s', app) && id in TableOf(s, app) && RowBacked(s, app, id)
    requires TableOf(s', app)[id] == TableOf(s, app)[id] && !RunOut(s, TableOf(s, app)[id], now)
    requires SweptOf(s, DueSet(s, now)) == s'
    ensures OnlyDeclined(s', now, TableOf(s', app)[id])
  {
    var row := TableOf(s, app)[id];
    if row.grantId.Some? {
      var g := row.grantId.value;
      assert g in s.requests && g in s'.requests;
      assert s.requests[g].status != Approved ==> s'.requests[g] == s.requests[g];
    }
  }

  /** A row for a request whose time is up is there only if the request was declined. */
  predicate OnlyDeclined(s: Store, now: Time, row: Binding) {
    row.grantId.Some? && row.expiresAt.Some? && row.expiresAt.value <= now ==>
      row.grantId.value in s.requests && Declined(s.requests[row.grantId.value].status)
  }

  /** After a sweep that reads the list and fails on none, no request is approved beyond its time, and
      no row of one that was is left. */
  lemma SweepLeavesNothingOverdue(run: seq<World>, steps: seq<Step>, i: nat)
    requires Run(run, steps) && i < |run|
    ensures var now, s' := run[i].now, SweptOf(run[i].store, DueSet(run[i].store, run[i].now));
            && (forall g :: g in s'.requests && s'.requests[g].status == Approved ==>
                  s'.requests[g].expiresAt.Some? && now < s'.requests[g].expiresAt.value)
            && forall app, id :: id in TableOf(s', app) ==> OnlyDeclined(s', now, TableOf(s', app)[id])
  {
    var s, now, none: set<int> := run[i].store, run[i].now, {};
    EmptyHasNone(none);
    SweepTakesTheOverdue(run, steps, i, none);
    assert forall g: int :: g !in none;
    assert DueSet(s, now) - none == DueSet(s, now);
    var s' := SweptOf(s, DueSet(s, now));
    forall g | g in s.requests && s.requests[g].status == Approved
      ensures s.requests[g].expiresAt.Some?
    {
      var k := ApprovedHasExpiry(run, steps, i, g);
    }
    Invariant(run, steps, i);
    forall app, id | id in TableOf(s', app)
      ensures OnlyDeclined(s', now, TableOf(s', app)[id])
    {
      assert id in TableOf(s, app) && RowBacked(s, app, id);
      LeftRow(s, s', now, app, id);
    }
  }
}
