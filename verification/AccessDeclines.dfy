/** A rejection or cancellation reads the request first and then writes without a condition, so it can
    land on a request that was approved in between. What that does to the grant, and exactly when a
    grant is safe from it. */
module AccessDeclines {
  import opened Common
  import opened Access
  import opened AccessProtocol

  ghost predicate Continues(run: seq<World>, steps: seq<Step>) {
    |run| == |steps| + 1 && forall i: nat :: i < |steps| ==> StepAt(run, steps, i)
  }

  /** What holds in every state that a run reaches. */
  ghost predicate Sound(w: World) {
    Inv(w) && RulesValid(w.store) && TablesIndexed(w.store)
  }

  lemma ReachedIsSound(run: seq<World>, steps: seq<Step>, i: nat)
    requires Run(run, steps) && i < |run|
    ensures Sound(run[i])
  {
    Invariant(run, steps, i);
    OneRowPerTarget(run, steps, i);
  }

  lemma SoundStep(w: World, w': World, step: Step)
    requires Sound(w) && Next(w, w', step)
    ensures Sound(w')
  {
    StepKeepsInv(w, w', step);
    RulesValidStep(w, w', step);
    TablesIndexedStep(w, w', step);
  }

  /** A row stands for the request. */
  ghost predicate Standing(s: Store, g: int) {
    exists app, id :: id in TableOf(s, app) && TableOf(s, app)[id].grantId == Some(g)
  }

  /** If a row stands for the request, the request is approved. */
  ghost predicate Backed(s: Store, g: int) {
    Standing(s, g) ==> g in s.requests && s.requests[g].status == Approved
  }

  /** A decline of the request has read it and not written yet. */
  ghost predicate DeclinePending(w: World, g: int) {
    exists call :: call in w.calls && w.calls[call].Declining? && w.calls[call].req.id == g
  }

  // ---- When a grant is safe ----------------------------------------------------------------

  /** Decided, and not to be declined any more while a row stands for it. */
  ghost predicate Safe(w: World, g: int)
    requires g in w.store.requests
  {
    && w.store.requests[g].status != Pending
    && (Standing(w.store, g) ==> w.store.requests[g].status == Approved && !DeclinePending(w, g))
  }

  lemma SafeGrant(w: World, w': World, call: int, g: int)
    requires Sound(w) && g in w.store.requests && Safe(w, g) && Next(w, w', CommitGrant(call))
    ensures g in w'.store.requests && Safe(w', g)
  {
    var c := w.calls[call];
    assert CallSane(w, call);
    if GrantResult(w, c).Ok? {
      GrantEffect(w.store, c.req, c.approverId, w.now, ExpiryOf(c), c.bindingId);
      assert c.req.id != g;
    }
    assert DeclinePending(w', g) ==> DeclinePending(w, g);
    if Standing(w'.store, g) {
      var app, id :| id in TableOf(w'.store, app) && TableOf(w'.store, app)[id].grantId == Some(g);
      assert id in TableOf(w.store, app) && TableOf(w.store, app)[id].grantId == Some(g);
    }
  }

  lemma SafeEnd(w: World, w': World, call: int, g: int)
    requires Sound(w) && g in w.store.requests && Safe(w, g) && Next(w, w', CommitEnd(call))
    ensures g in w'.store.requests && Safe(w', g)
  {
    var c := w.calls[call];
    assert CallSane(w, call);
    EndEffect(w.store, c.req, c.final);
    assert DeclinePending(w', g) ==> DeclinePending(w, g);
    if Standing(w'.store, g) {
      var app, id :| id in TableOf(w'.store, app) && TableOf(w'.store, app)[id].grantId == Some(g);
      assert id in TableOf(w.store, app) && TableOf(w.store, app)[id].grantId == Some(g);
      assert RowBacked(w.store, app, id);
    }
  }

  lemma SafeDecline(w: World, w': World, call: int, g: int)
    requires Sound(w) && g in w.store.requests && Safe(w, g) && Next(w, w', CommitDecline(call))
    ensures g in w'.store.requests && Safe(w', g)
  {
    assert CallSane(w, call);
    assert forall app :: TableOf(w'.store, app) == TableOf(w.store, app);
    assert Standing(w'.store, g) <==> Standing(w.store, g);
    assert DeclinePending(w', g) ==> DeclinePending(w, g);
    assert w.calls[call].req.id == g ==> DeclinePending(w, g);
  }

  lemma SafeStep(w: World, w': World, step: Step, g: int)
    requires Sound(w) && g in w.store.requests && Safe(w, g) && Next(w, w', step)
    ensures g in w'.store.requests && Safe(w', g)
  {
    if step.CommitGrant? {
      SafeGrant(w, w', step.call, g);
    } else if step.CommitEnd? {
      SafeEnd(w, w', step.call, g);
    } else if step.CommitDecline? {
      SafeDecline(w, w', step.call, g);
    } else {
      SafeElse(w, w', step, g);
    }
  }

  /** Only a pending request can be taken up for a decline. */
  lemma NoNewDecline(w: World, w': World, step: Step, g: int)
    requires Inv(w) && g in w.store.requests && w.store.requests[g].status != Pending && Next(w, w', step)
    ensures DeclinePending(w', g) ==> DeclinePending(w, g)
  {
    if step.StartDecline? {
      assert RequestSane(w.store.requests[step.id], step.id) && step.id != g;
    }
    if DeclinePending(w', g) {
      var call :| call in w'.calls && w'.calls[call].Declining? && w'.calls[call].req.id == g;
      assert call in w.calls && w.calls[call] == w'.calls[call];
    }
  }

  lemma SafeElse(w: World, w': World, step: Step, g: int)
    requires Sound(w) && g in w.store.requests && Safe(w, g) && Next(w, w', step)
    requires !step.CommitGrant? && !step.CommitEnd? && !step.CommitDecline?
    ensures g in w'.store.requests && Safe(w', g)
  {
    assert g in w.minted;
    assert w'.store.requests[g] == w.store.requests[g];
    NoNewDecline(w, w', step, g);
    if Standing(w'.store, g) {
      var app, id :| id in TableOf(w'.store, app) && TableOf(w'.store, app)[id].grantId == Some(g);
      assert id in TableOf(w.store, app) && TableOf(w.store, app)[id].grantId == Some(g);
    }
  }

  lemma {:induction false} SafeRun(run: seq<World>, steps: seq<Step>, i: nat, g: int)
    requires Continues(run, steps) && i < |run| && Sound(run[0]) && g in run[0].store.requests && Safe(run[0], g)
    ensures Sound(run[i]) && g in run[i].store.requests && Safe(run[i], g)
  {
    if i > 0 {
      SafeRun(run, steps, i - 1, g);
      assert StepAt(run, steps, i - 1);
      SoundStep(run[i - 1], run[i], steps[i - 1]);
      SafeStep(run[i - 1], run[i], steps[i - 1], g);
    }
  }

  // ---- How a grant is orphaned ----------------------------------------------------------------

  ghost predicate Reaches(w: World, w': World) {
    exists run, steps :: Continues(run, steps) && run[0] == w && run[|steps|] == w'
  }

  lemma ReachesItself(w: World)
    ensures Reaches(w, w)
  {
    assert Continues([w], []);
  }

  lemma ReachesNext(w: World, w': World, w'': World, step: Step)
    requires Reaches(w, w') && Next(w', w'', step)
    ensures Reaches(w, w'')
  {
    var run, steps :| Continues(run, steps) && run[0] == w && run[|steps|] == w';
    var run', steps' := run + [w''], steps + [step];
    forall i: nat | i < |steps'| ensures StepAt(run', steps', i) {
      if i < |steps| {
        assert StepAt(run, steps, i);
      }
    }
    assert Continues(run', steps') && run'[0] == w && run'[|steps'|] == w'';
  }

  /** A decline that is pending when its grant stands lands on it: the row stays, its request is no
      longer approved. */
  lemma LateDeclineOrphans(w: World, g: int) returns (w': World, step: Step)
    requires Sound(w) && Standing(w.store, g) && DeclinePending(w, g)
    ensures Next(w, w', step) && !Backed(w'.store, g)
  {
    var call :| call in w.calls && w.calls[call].Declining? && w.calls[call].req.id == g;
    var c := w.calls[call];
    assert CallSane(w, call);
    w', step := w.(calls := w.calls - {call}, store := Decided(w.store, c.req, c.status, c.decider, w.now)),
                CommitDecline(call);
    assert forall app :: TableOf(w'.store, app) == TableOf(w.store, app);
  }

  const AUTO := RuleInput(CONSOLE, 0, None, None, None, "any", 0, [1], 1, "auto", 0, None, None)

  ghost predicate Approvable(s: Store, r: Request) {
    && r.ruleId in s.rules && s.rules[r.ruleId] == ToRule(AUTO, r.tenantId, true, true, RULE_ENABLED)
  }

  /** The rule of a request can always be replaced by one under which anybody else approves. */
  lemma RuleReplaced(w0: World, w: World, r: Request) returns (w': World)
    requires Reaches(w0, w)
    ensures Reaches(w0, w') && w' == w.(store := w.store.(rules := w'.store.rules)) && Approvable(w'.store, r)
  {
    var mid := w.(store := w.store.(rules := w.store.rules - {r.ruleId}));
    ReachesNext(w0, w, mid, DropRule(r.ruleId));
    w' := mid.(store := CreateRule(mid.store, r.ruleId, r.tenantId, AUTO).value);
    ReachesNext(w0, mid, w', AddRule(r.ruleId, r.tenantId, AUTO));
  }

  /** And a row in the way can be unbound. */
  lemma RoomMade(w0: World, w: World, r: Request) returns (w': World)
    requires Reaches(w0, w) && TablesIndexed(w.store)
    ensures Reaches(w0, w') && w' == w.(store := w.store.(appBindings := w'.store.appBindings)) && !Blocked(w'.store, r)
  {
    w' := w;
    if Blocked(w.store, r) {
      var target := AppTarget(None, Some(0), r.tenantId, r.roleId, "user", r.requesterId);
      var id :| id in w.store.appBindings && w.store.appBindings[id].target == target;
      w' := w.(store := WithTable(w.store, true, TableOf(w.store, true) - {id}));
      ReachesNext(w0, w, w', Unbind(true, id));
      forall other | other in w.store.appBindings && w.store.appBindings[other].target == target
        ensures other == id
      {
        assert TableOf(w.store, true) == w.store.appBindings;
      }
    }
  }

  /** Then somebody approves it. */
  lemma GrantMade(w0: World, w: World, g: int) returns (w': World)
    requires Sound(w) && Reaches(w0, w) && g in w.store.requests && w.store.requests[g].status == Pending
    requires Approvable(w.store, w.store.requests[g]) && !Blocked(w.store, w.store.requests[g])
    ensures Reaches(w0, w') && w'.calls == w.calls && Standing(w'.store, g)
  {
    var r := w.store.requests[g];
    var call := Above(w.calls.Keys);
    var b := Above(w.minted);
    assert RequestSane(r, g);
    var w1 := w.(calls := w.calls[call := Deciding(r, r.requesterId + 1)]);
    ReachesNext(w0, w, w1, StartApprove(call, g, r.requesterId + 1));
    var w2 := w.(calls := w.calls[call := Granting(r, r.requesterId + 1, w.now, b)], minted := w.minted + {b});
    assert w2 == w1.(calls := w1.calls[call := Granting(r, r.requesterId + 1, w.now, b)], minted := w.minted + {b});
    ReachesNext(w0, w1, w2, CheckApprover(call, NOBODY, b));
    w' := GrantCommitted(w0, w2, call);
    assert w2.calls - {call} == w.calls;
  }

  lemma GrantCommitted(w0: World, w: World, call: int) returns (w': World)
    requires Reaches(w0, w) && call in w.calls && w.calls[call].Granting? && TablesIndexed(w.store)
    requires var c := w.calls[call];
             && HasTarget(c.req) && StillPending(w.store, c.req) && !Blocked(w.store, c.req)
             && forall app :: c.bindingId !in TableOf(w.store, app)
    ensures Reaches(w0, w') && w'.calls == w.calls - {call} && Standing(w'.store, w.calls[call].req.id)
  {
    var c := w.calls[call];
    RoomIffNotBlocked(w.store, c.req, c.bindingId);
    var s' := GrantResult(w, c).value;
    w' := w.(calls := w.calls - {call}, store := s',
             trail := w.trail + [Activation(c.req.id, c.approverId, c.decidedAt, w.now, ExpiryOf(c))]);
    ReachesNext(w0, w, w', CommitGrant(call));
    assert c.bindingId in TableOf(s', InAppTable(c.req));
  }

  /** A request that is still pending can always be orphaned: somebody starts to decline it, it is
      approved, and the decline lands. */
  lemma PendingCanBeOrphaned(w: World, g: int) returns (w': World)
    requires Sound(w) && g in w.store.requests && w.store.requests[g].status == Pending
    ensures Reaches(w, w') && !Backed(w'.store, g)
  {
    var r := w.store.requests[g];
    var call := Above(w.calls.Keys);
    var w1 := w.(calls := w.calls[call := Declining(r, Rejected, Some(0))]);
    ReachesItself(w);
    ReachesNext(w, w, w1, StartDecline(call, g, Rejected, Some(0)));
    var w2 := RuleReplaced(w, w1, r);
    ReachedStaysSound(w, w2);
    var w3 := RoomMade(w, w2, r);
    ReachedStaysSound(w, w3);
    var w4 := GrantMade(w, w3, g);
    ReachedStaysSound(w, w4);
    assert RequestSane(r, g) && call in w4.calls && w4.calls[call].Declining? && w4.calls[call].req.id == g;
    var step;
    w', step := LateDeclineOrphans(w4, g);
    ReachesNext(w, w4, w', step);
  }

  lemma {:induction false} SoundRun(run: seq<World>, steps: seq<Step>, i: nat)
    requires Continues(run, steps) && i < |run| && Sound(run[0])
    ensures Sound(run[i])
  {
    if i > 0 {
      SoundRun(run, steps, i - 1);
      assert StepAt(run, steps, i - 1);
      SoundStep(run[i - 1], run[i], steps[i - 1]);
    }
  }

  lemma ReachedStaysSound(w: World, w': World)
    requires Sound(w) && Reaches(w, w')
    ensures Sound(w')
  {
    var run, steps :| Continues(run, steps) && run[0] == w && run[|steps|] == w';
    SoundRun(run, steps, |steps|);
  }

  /** In every continuation a row that stands for the request has an approved request behind it, if and
      only if the request is decided, and, should a row stand for it, approved with no decline pending. */
  lemma BackedForGoodIff(w: World, g: int)
    requires Sound(w) && g in w.store.requests
    ensures (forall w' :: Reaches(w, w') ==> Backed(w'.store, g)) <==> Safe(w, g)
  {
    ReachesItself(w);
    if Safe(w, g) {
      forall w' | Reaches(w, w')
        ensures Backed(w'.store, g)
      {
        var run, steps :| Continues(run, steps) && run[0] == w && run[|steps|] == w';
        SafeRun(run, steps, |steps|, g);
      }
    } else if w.store.requests[g].status == Pending {
      var w' := PendingCanBeOrphaned(w, g);
    } else if w.store.requests[g].status == Approved {
      var w', step := LateDeclineOrphans(w, g);
      ReachesNext(w, w, w', step);
    }
  }

  // ---- What becomes of an orphan --------------------------------------------------------------

  /** The request is declined, and no revocation or sweep holds it from when it was approved. */
  ghost predicate Orphan(w: World, g: int) {
    && g in w.store.requests && Declined(w.store.requests[g].status)
    && forall call :: call in w.calls && w.calls[call].Ending? ==> w.calls[call].req.id != g
  }

  lemma OrphanStep(w: World, w': World, step: Step, g: int)
    requires Sound(w) && Orphan(w, g) && Next(w, w', step)
    ensures Orphan(w', g)
  {
    assert g in w.minted && RequestSane(w.store.requests[g], g);
    if step.StartRevoke? || step.StartExpire? {
      assert RequestSane(w.store.requests[step.id], step.id);
    }
    if step.CommitGrant? || step.CommitEnd? || step.CommitDecline? {
      assert CallSane(w, step.call);
    }
  }

  lemma {:induction false} OrphanRun(run: seq<World>, steps: seq<Step>, i: nat, g: int)
    requires Continues(run, steps) && i < |run| && Sound(run[0]) && Orphan(run[0], g)
    ensures Orphan(run[i], g)
  {
    if i > 0 {
      OrphanRun(run, steps, i - 1, g);
      SoundRun(run, steps, i - 1);
      assert StepAt(run, steps, i - 1);
      OrphanStep(run[i - 1], run[i], steps[i - 1], g);
    }
  }

  /** Nobody can revoke an orphan, and no sweep ever lists it: its request stays declined. */
  lemma OrphanIsOutOfReach(w: World, w': World, g: int)
    requires Sound(w) && Orphan(w, g) && Reaches(w, w')
    ensures g in w'.store.requests && Declined(w'.store.requests[g].status) && !Due(w'.store.requests[g], w'.now)
    ensures forall w'', call :: !Next(w', w'', StartRevoke(call, g)) && !Next(w', w'', StartExpire(call, g))
  {
    var run, steps :| Continues(run, steps) && run[0] == w && run[|steps|] == w';
    OrphanRun(run, steps, |steps|, g);
  }

  /** A run that ends with an orphaned grant, from nothing: a rule, a request, and then the steps of
      `PendingCanBeOrphaned`. */
  lemma GrantOrphaned() returns (run: seq<World>, steps: seq<Step>)
    ensures Run(run, steps)
    ensures var s := run[|steps|].store; 30 in s.requests && Standing(s, 30) && s.requests[30].status != Approved
  {
    var w0 := World(0, Store(map[], map[], map[], map[]), map[], {}, []);
    var input := RuleInput(CONSOLE, 3, None, None, None, "any", 0, [60], 60, "user", 2, Some(false), Some(false));
    var w1 := w0.(store := CreateRule(w0.store, 10, 7, input).value);
    var asked := NewRequest(w1.store, NOBODY, 30, 7, 1, 10, 60, "").value;
    var w2 := w1.(store := w1.store.(requests := map[30 := asked]), minted := {30});
    ReachesItself(w0);
    ReachesNext(w0, w0, w1, AddRule(10, 7, input));
    ReachesNext(w0, w1, w2, Ask(NOBODY, 30, 7, 1, 10, 60, ""));
    ReachedStaysSound(w0, w2);
    var w3 := PendingCanBeOrphaned(w2, 30);
    ReachesOnward(w0, w2, w3);
    run, steps :| Continues(run, steps) && run[0] == w0 && run[|steps|] == w3;
    ReachedStaysSound(w0, w3);
    StandingHasRequest(w3, 30);
  }

  lemma StandingHasRequest(w: World, g: int)
    requires Inv(w) && Standing(w.store, g)
    ensures g in w.store.requests
  {
    var app, id :| id in TableOf(w.store, app) && TableOf(w.store, app)[id].grantId == Some(g);
    assert RowBacked(w.store, app, id);
  }

  lemma ReachesOnward(a: World, b: World, c: World)
    requires Reaches(a, b) && Reaches(b, c)
    ensures Reaches(a, c)
  {
    var run, steps :| Continues(run, steps) && run[0] == b && run[|steps|] == c;
    OnwardFrom(a, run, steps, |steps|);
  }

  lemma {:induction false} OnwardFrom(a: World, run: seq<World>, steps: seq<Step>, i: nat)
    requires Continues(run, steps) && i < |run| && Reaches(a, run[0])
    ensures Reaches(a, run[i])
  {
    if i > 0 {
      OnwardFrom(a, run, steps, i - 1);
      assert StepAt(run, steps, i - 1);
      ReachesNext(a, run[i - 1], run[i], steps[i - 1]);
    }
  }
}
