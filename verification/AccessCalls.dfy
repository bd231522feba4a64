/** The calls of the access service beside the steps of the protocol: a call that nothing comes in
    between is its steps one after the other, and what rules say is what administrators submitted. */
module AccessCalls {
  import opened Common
  import opened Access
  import opened AccessProtocol

  // ---- Approving -------------------------------------------------------------------------------

  /** A new approval gets as far as its transaction. */
  ghost predicate Proceeds(w: World, call: int, env: Env, id: int, approverId: int, bindingId: int, w': World) {
    exists read ::
      Next(w, read, StartApprove(call, id, approverId)) && Next(read, w', CheckApprover(call, env, bindingId))
  }

  /** An approval may be made exactly when the two checks of the protocol let a new call through. */
  lemma MayApproveIff(w: World, call: int, env: Env, id: int, approverId: int, bindingId: int)
    requires Inv(w) && call !in w.calls && bindingId !in w.minted
    ensures (exists tenantId :: MayApprove(w.store, env, tenantId, id, approverId))
            <==> exists w' :: Proceeds(w, call, env, id, approverId, bindingId, w')
    ensures forall tenantId :: MayApprove(w.store, env, tenantId, id, approverId) ==>
              tenantId == w.store.requests[id].tenantId
  {
    if tenantId :| MayApprove(w.store, env, tenantId, id, approverId) {
      var r := w.store.requests[id];
      var read := w.(calls := w.calls[call := Deciding(r, approverId)]);
      var w' := read.(calls := read.calls[call := Granting(r, approverId, w.now, bindingId)],
                      minted := w.minted + {bindingId});
      assert Next(w, read, StartApprove(call, id, approverId)) && Next(read, w', CheckApprover(call, env, bindingId));
      assert Proceeds(w, call, env, id, approverId, bindingId, w');
    }
    if w' :| Proceeds(w, call, env, id, approverId, bindingId, w') {
      assert MayApprove(w.store, env, w.store.requests[id].tenantId, id, approverId);
    }
  }

  /** And if nothing comes in between, it has the outcome of one call: the grant of exactly the
      seconds asked for, or nothing. */
  lemma ApproveInThree(w: World, w': World, w'': World, call: int, env: Env, id: int, approverId: int, bindingId: int)
    requires Inv(w) && Proceeds(w, call, env, id, approverId, bindingId, w') && Next(w', w'', CommitGrant(call))
    ensures id in w.store.requests
    ensures var r := Approval(w.store, id, approverId, w.now, bindingId);
            w''.store == if r.Ok? then r.value else w.store
  {
  }

  /** What an approval that succeeds leaves: the request approved by that person at that time and until
      the requested seconds later, with its row in place. */
  lemma ApprovalGrants(w: World, id: int, approverId: int, now: Time, bindingId: int)
    requires Inv(w) && id in w.store.requests && Approval(w.store, id, approverId, now, bindingId).Ok?
    ensures var s, was := Approval(w.store, id, approverId, now, bindingId).value, w.store.requests[id];
            && was.status == Pending && id in s.requests && SameAsk(s.requests[id], was)
            && var r := s.requests[id];
            && r.status == Approved && r.approverId == Some(approverId) && r.decidedAt == r.activatedAt == Some(now)
            && r.expiresAt == Some(now + was.requestedSeconds * SECOND) && r.bindingId == Some(bindingId)
            && bindingId in TableOf(s, InAppTable(was))
            && var row := TableOf(s, InAppTable(was))[bindingId];
            && row.grantId == Some(id) && row.expiresAt == r.expiresAt && HasTarget(was) && row.target == TargetOf(was)
  {
    assert RequestSane(w.store.requests[id], id);
  }

  // ---- Turning down ------------------------------------------------------------------------------

  /** A rejection or cancellation of a request of the tenant may be made exactly when the protocol lets
      one start, and if nothing comes in between has the outcome of one call. */
  lemma DeclineInTwo(w: World, call: int, tenantId: int, id: int, status: Status, decider: Option<int>)
    requires Inv(w) && call !in w.calls && Declined(status)
    ensures StillPendingIn(w.store, tenantId, id)
            <==> && id in w.store.requests && w.store.requests[id].tenantId == tenantId
                 && exists read :: Next(w, read, StartDecline(call, id, status, decider))
    ensures forall read, w' :: Next(w, read, StartDecline(call, id, status, decider))
                               && Next(read, w', CommitDecline(call)) ==>
              w'.store == Decided(w.store, w.store.requests[id], status, decider, w.now)
  {
    if id in w.store.requests && w.store.requests[id].status == Pending {
      var read := w.(calls := w.calls[call := Declining(w.store.requests[id], status, decider)]);
      assert Next(w, read, StartDecline(call, id, status, decider));
      assert RequestSane(w.store.requests[id], id);
    }
  }

  /** A decline sets the status and the time, and the decider if there is one; it leaves every other
      column, every other request, the rules and the rows. */
  lemma DeclineEffect(w: World, w': World, call: int, id: int)
    requires Inv(w) && Next(w, w', CommitDecline(call)) && id in w.store.requests
    ensures w'.store == w.store.(requests := w'.store.requests) && id in w'.store.requests
    ensures var c, r, was := w.calls[call], w'.store.requests[id], w.store.requests[id];
            && (c.req.id != id ==> r == was)
            && (c.req.id == id ==>
                  && SameAsk(r, was) && r.activatedAt == was.activatedAt && r.expiresAt == was.expiresAt
                  && r.bindingId == was.bindingId && r.status == c.status && r.decidedAt == Some(w.now)
                  && (c.decider.Some? ==> r.approverId == c.decider)
                  && (c.decider.None? ==> r.approverId == was.approverId))
  {
    assert CallSane(w, call);
  }

  // ---- Rules as submitted ------------------------------------------------------------------------

  /** The rule says what the administrator submitted at step `n`, and no approver kind means a role. */
  ghost predicate Submitted(steps: seq<Step>, n: nat, id: int, rule: Rule)
    requires n < |steps|
  {
    && (steps[n].AddRule? || steps[n].EditRule?) && steps[n].id == id && rule.tenantId == steps[n].tenantId
    && var input := steps[n].input;
    && rule.targetKind == input.targetKind && rule.roleId == input.roleId && rule.scopeType == input.scopeType
    && rule.scopeId == input.scopeId && rule.appId == input.appId && rule.requesterType == input.requesterType
    && rule.requesterId == input.requesterId && rule.allowedDurations == input.allowedDurations
    && rule.maxDuration == input.maxDuration && rule.approverId == input.approverId
    && rule.approverType == (if input.approverType == "" then "role" else input.approverType)
    && (input.requireJustification.Some? ==> rule.requireJustification == input.requireJustification.value)
    && (input.requireStepUp.Some? ==> rule.requireStepUp == input.requireStepUp.value)
    && (steps[n].AddRule? ==>
          && rule.status == RULE_ENABLED && (input.requireJustification.None? ==> rule.requireJustification)
          && (input.requireStepUp.None? ==> rule.requireStepUp))
  }

  /** A rule is accepted exactly if it is for the console or for a given app, its longest duration is
      positive and at most seven days, and it offers durations, all of them positive and within that. */
  lemma RuleAcceptedIff(w: World, id: int, tenantId: int, input: RuleInput)
    requires id !in w.store.rules
    ensures (exists w' :: Next(w, w', AddRule(id, tenantId, input)))
            <==> && (input.targetKind == "console" || (input.targetKind == "app" && input.appId.Some?))
                 && 1 <= input.maxDuration <= 7 * 24 * 3600 && |input.allowedDurations| > 0
                 && forall d :: d in input.allowedDurations ==> 1 <= d <= input.maxDuration
  {
    if CreateRule(w.store, id, tenantId, input).Ok? {
      assert Next(w, w.(store := CreateRule(w.store, id, tenantId, input).value), AddRule(id, tenantId, input));
    } else {
      assert forall i :: 0 <= i < |input.allowedDurations| ==> input.allowedDurations[i] in input.allowedDurations;
    }
  }

  /** Every rule in force is as it was last submitted; what an edit leaves out stays as it was. */
  lemma {:induction false} EveryRuleAsSubmitted(run: seq<World>, steps: seq<Step>, i: nat, id: int) returns (n: nat)
    requires Run(run, steps) && i < |run| && id in run[i].store.rules
    ensures n < i && Submitted(steps, n, id, run[i].store.rules[id])
    ensures forall m: nat :: n < m < i ==>
              id in run[m].store.rules && run[m].store.rules[id] == run[i].store.rules[id]
    ensures steps[n].EditRule? ==>
              && id in run[n].store.rules
              && var was, rule, input := run[n].store.rules[id], run[i].store.rules[id], steps[n].input;
              && rule.status == was.status && rule.tenantId == was.tenantId
              && (input.requireJustification.None? ==> rule.requireJustification == was.requireJustification)
              && (input.requireStepUp.None? ==> rule.requireStepUp == was.requireStepUp)
  {
    assert StepAt(run, steps, i - 1);
    var w, w', step := run[i - 1], run[i], steps[i - 1];
    if (step.AddRule? || step.EditRule?) && step.id == id {
      n := i - 1;
    } else {
      assert id in w.store.rules && w.store.rules[id] == w'.store.rules[id];
      n := EveryRuleAsSubmitted(run, steps, i - 1, id);
    }
  }
}
