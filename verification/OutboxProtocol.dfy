/** Outbox workers on many replicas: claims, handler results and settlements interleave freely, and
    a worker may vanish at any point. */
module OutboxProtocol {
  import opened Common
  import opened Outbox

  datatype Config = Config(lease: nat, baseBO: nat, maxBO: nat)

  datatype Stage = Running | Succeeded | Broke(error: string)

  /** A message in a worker's hands, with the counts it had when it was claimed. */
  datatype Claim = Claim(id: int, attempts: int, maxAttempts: int, leaseEnd: Time, stage: Stage)

  /** What happened, in order: a message was claimed, or one dispatch of it ended. */
  datatype Event = Claimed(id: int) | Handled(id: int) | Refused(id: int, attempts: int)

  datatype World = World(now: Time, msgs: Messages, held: map<int, Claim>, log: seq<Event>)

  datatype Step =
    | Tick(elapsed: nat)
    | Enqueue(id: int, kind: string, payload: string, maxAttempts: int, nextAttempt: Option<Time>)
    | Take(claim: int, id: int)
    | Finish(claim: int, stage: Stage)
    | Settle(claim: int)
    | Crash(claim: int)

  function Settlement(cfg: Config, m: Message, c: Claim, now: Time): Message {
    match c.stage
    case Broke(error) => Failed(m, c.attempts, c.maxAttempts, error, now + Delay(cfg.baseBO, cfg.maxBO, c.attempts))
    case _ => Delivered(m)
  }

  ghost predicate Next(cfg: Config, w: World, w': World, step: Step) {
    match step
    case Tick(elapsed) => w' == w.(now := w.now + elapsed)
    case Enqueue(id, kind, payload, maxAttempts, nextAttempt) =>
      && id !in w.msgs
      && w' == w.(msgs := w.msgs[id := Fresh(kind, payload, maxAttempts, nextAttempt, w.now)])
    case Take(claim, id) =>
      && claim !in w.held && id in w.msgs && Claimable(w.msgs[id], w.now)
      && var m := Leased(w.msgs[id], w.now + cfg.lease);
      w' == w.(msgs := w.msgs[id := m], log := w.log + [Claimed(id)],
               held := w.held[claim := Claim(id, m.attempts, m.maxAttempts, m.nextAttempt, Running)])
    case Finish(claim, stage) =>
      && claim in w.held && w.held[claim].stage == Running && stage != Running
      && var c := w.held[claim];
      w' == w.(held := w.held[claim := c.(stage := stage)],
               log := w.log + [if stage.Succeeded? then Handled(c.id) else Refused(c.id, c.attempts)])
    case Settle(claim) =>
      && claim in w.held && w.held[claim].stage != Running && w.held[claim].id in w.msgs
      && var c := w.held[claim];
      w' == w.(held := w.held - {claim}, msgs := w.msgs[c.id := Settlement(cfg, w.msgs[c.id], c, w.now)])
    case Crash(claim) => w' == w.(held := w.held - {claim})
  }

  ghost predicate Init(w: World) { w.msgs == map[] && w.held == map[] && w.log == [] }

  ghost predicate StepAt(cfg: Config, run: seq<World>, steps: seq<Step>, i: nat)
    requires i < |steps| < |run|
  {
    Next(cfg, run[i], run[i + 1], steps[i])
  }

  ghost predicate Run(cfg: Config, run: seq<World>, steps: seq<Step>) {
    && |run| == |steps| + 1 && Init(run[0])
    && forall i: nat :: i < |steps| ==> StepAt(cfg, run, steps, i)
  }

  // ---- What holds under every interleaving and crash -----------------------------------

  function Claims(log: seq<Event>, id: int): nat {
    if log == [] then 0 else Claims(log[..|log| - 1], id) + if log[|log| - 1] == Claimed(id) then 1 else 0
  }

  lemma ClaimsOneMore(log: seq<Event>, e: Event, id: int)
    ensures Claims(log + [e], id) == Claims(log, id) + if e == Claimed(id) then 1 else 0
  {
  }

  ghost predicate Counted(w: World) {
    && (forall id :: id in w.msgs ==> w.msgs[id].attempts == Claims(w.log, id))
    && (forall id :: id !in w.msgs ==> Claims(w.log, id) == 0)
  }

  /** A message that is done was handled; one that is dead failed with its attempts used up. */
  ghost predicate MessageExplained(w: World, id: int)
    requires id in w.msgs
  {
    && (w.msgs[id].status == Done ==> Handled(id) in w.log)
    && (w.msgs[id].status == Dead ==> exists a :: Refused(id, a) in w.log && a >= w.msgs[id].maxAttempts)
  }

  ghost predicate ClaimExplained(w: World, claim: int)
    requires claim in w.held
  {
    var c := w.held[claim];
    && c.id in w.msgs && c.maxAttempts == w.msgs[c.id].maxAttempts && 0 < c.attempts
    && (c.stage.Succeeded? ==> Handled(c.id) in w.log)
    && (c.stage.Broke? ==> Refused(c.id, c.attempts) in w.log)
  }

  /** Once claimed, a pending message is due again at the latest after a lease or a full delay. */
  ghost predicate ReturnsSoon(cfg: Config, w: World, id: int)
    requires id in w.msgs
  {
    w.msgs[id].attempts > 0 ==> w.msgs[id].nextAttempt <= w.now + Max(cfg.lease, cfg.maxBO)
  }

  ghost predicate Inv(cfg: Config, w: World) {
    && Counted(w)
    && (forall id :: id in w.msgs ==> w.msgs[id].attempts >= 0 && MessageExplained(w, id) && ReturnsSoon(cfg, w, id))
    && (forall claim :: claim in w.held ==> ClaimExplained(w, claim))
  }

  lemma CountedStep(cfg: Config, w: World, w': World, step: Step)
    requires Counted(w) && Next(cfg, w, w', step) && (forall claim :: claim in w.held ==> ClaimExplained(w, claim))
    ensures Counted(w')
  {
    if step.Take? || step.Finish? {
      var e := w'.log[|w.log|];
      assert w'.log == w.log + [e];
      forall id
        ensures Claims(w'.log, id) == Claims(w.log, id) + if e == Claimed(id) then 1 else 0
      {
        ClaimsOneMore(w.log, e, id);
      }
    } else {
      assert w'.log == w.log;
    }
  }

  lemma InvStep(cfg: Config, w: World, w': World, step: Step)
    requires Inv(cfg, w) && Next(cfg, w, w', step)
    ensures Inv(cfg, w')
  {
    CountedStep(cfg, w, w', step);
    assert forall e :: e in w.log ==> e in w'.log;
    assert |w'.log| > |w.log| ==> w'.log[|w.log|] in w'.log;
    forall id | id in w'.msgs
      ensures w'.msgs[id].attempts >= 0 && MessageExplained(w', id) && ReturnsSoon(cfg, w', id)
    {
      assert id in w.msgs ==> MessageExplained(w, id) && ReturnsSoon(cfg, w, id);
      if step.Settle? {
        var c := w.held[step.claim];
        assert ClaimExplained(w, step.claim);
        DelayNeverDecreases(cfg.baseBO, cfg.maxBO, c.attempts, c.attempts);
      }
    }
    forall claim | claim in w'.held
      ensures ClaimExplained(w', claim)
    {
      assert claim in w.held ==> ClaimExplained(w, claim);
    }
  }

  /** In every run: attempts count the claims; done means a handler call succeeded; dead means a
      dispatch failed at an attempt no smaller than the limit; nothing else leaves the queue. */
  lemma {:induction false} EveryMessageExplained(cfg: Config, run: seq<World>, steps: seq<Step>, i: nat)
    requires Run(cfg, run, steps) && i < |run|
    ensures Inv(cfg, run[i])
  {
    if i > 0 {
      EveryMessageExplained(cfg, run, steps, i - 1);
      assert StepAt(cfg, run, steps, i - 1);
      InvStep(cfg, run[i - 1], run[i], steps[i - 1]);
    }
  }

  /** No message is lost: one that was ever enqueued is still there, and unless it is done or dead
      a worker can claim it as soon as the clock reaches its next attempt. */
  lemma {:induction false} NeverLost(cfg: Config, run: seq<World>, steps: seq<Step>, i: nat, j: nat, id: int,
      claim: int)
    requires Run(cfg, run, steps) && i <= j < |run| && id in run[i].msgs
    ensures id in run[j].msgs
    ensures run[j].msgs[id].status == Pending && claim !in run[j].held ==>
              var due := run[j].(now := Max(run[j].now, run[j].msgs[id].nextAttempt));
              exists w :: Next(cfg, due, w, Take(claim, id))
  {
    if i < j {
      NeverLost(cfg, run, steps, i, j - 1, id, claim);
      assert StepAt(cfg, run, steps, j - 1);
    }
    var due := run[j].(now := Max(run[j].now, run[j].msgs[id].nextAttempt));
    if run[j].msgs[id].status == Pending && claim !in run[j].held {
      var m := Leased(due.msgs[id], due.now + cfg.lease);
      var w := due.(msgs := due.msgs[id := m], log := due.log + [Claimed(id)],
                    held := due.held[claim := Claim(id, m.attempts, m.maxAttempts, m.nextAttempt, Running)]);
      assert Next(cfg, due, w, Take(claim, id));
    }
  }

  // ---- When every claim is settled before its lease ends -------------------------------

  /** No worker holds a message past its lease. */
  ghost predicate InLease(run: seq<World>) {
    forall i, claim :: 0 <= i < |run| && claim in run[i].held ==> run[i].now < run[i].held[claim].leaseEnd
  }

  /** Nor does a worker vanish with a message in its hands. */
  ghost predicate Timely(run: seq<World>, steps: seq<Step>) {
    InLease(run) && forall i :: 0 <= i < |steps| ==> !steps[i].Crash?
  }

  function Limit(m: Message): int { Max(1, m.maxAttempts) }

  ghost predicate IsHeld(w: World, id: int) { exists claim :: claim in w.held && w.held[claim].id == id }

  /** The holder has the message to itself, as it claimed it. */
  ghost predicate Exclusive(w: World) {
    && (forall claim :: claim in w.held ==>
          var c := w.held[claim];
          && c.id in w.msgs && w.msgs[c.id].status == Pending && w.msgs[c.id].nextAttempt == c.leaseEnd
          && w.msgs[c.id].attempts == c.attempts && w.msgs[c.id].maxAttempts == c.maxAttempts)
    && (forall a, b :: a in w.held && b in w.held && a != b ==> w.held[a].id != w.held[b].id)
  }

  /** A message has attempts left unless it is held for the last one or settled. */
  ghost predicate Limited(w: World) {
    && (forall id :: id in w.msgs ==> w.msgs[id].attempts <= Limit(w.msgs[id]))
    && (forall id :: id in w.msgs && w.msgs[id].status == Pending && !IsHeld(w, id) ==>
          w.msgs[id].attempts < Limit(w.msgs[id]))
  }

  lemma ExclusiveStep(cfg: Config, w: World, w': World, step: Step)
    requires Exclusive(w) && Next(cfg, w, w', step)
    requires forall claim :: claim in w.held ==> w.now < w.held[claim].leaseEnd
    ensures Exclusive(w')
  {
  }

  lemma LimitedStep(cfg: Config, w: World, w': World, step: Step)
    requires Exclusive(w) && Limited(w) && Next(cfg, w, w', step) && !step.Crash?
    requires forall claim :: claim in w.held ==> w.now < w.held[claim].leaseEnd && 0 < w.held[claim].attempts
    ensures Limited(w')
  {
    if step.Take? {
      assert step.claim in w'.held && w'.held[step.claim].id == step.id;
      assert IsHeld(w', step.id);
    }
    forall id | id in w'.msgs && w'.msgs[id].status == Pending && !IsHeld(w', id)
      ensures w'.msgs[id].attempts < Limit(w'.msgs[id])
    {
      if IsHeld(w, id) {
        var claim :| claim in w.held && w.held[claim].id == id;
        assert claim in w'.held ==> IsHeld(w', id);
      }
    }
  }

  lemma {:induction false} AlwaysExclusive(cfg: Config, run: seq<World>, steps: seq<Step>, i: nat)
    requires Run(cfg, run, steps) && InLease(run) && i < |run|
    ensures Exclusive(run[i])
  {
    if i > 0 {
      AlwaysExclusive(cfg, run, steps, i - 1);
      assert StepAt(cfg, run, steps, i - 1);
      ExclusiveStep(cfg, run[i - 1], run[i], steps[i - 1]);
    }
  }

  lemma {:induction false} AlwaysLimited(cfg: Config, run: seq<World>, steps: seq<Step>, i: nat)
    requires Run(cfg, run, steps) && Timely(run, steps) && i < |run|
    ensures Limited(run[i])
  {
    if i > 0 {
      AlwaysLimited(cfg, run, steps, i - 1);
      AlwaysExclusive(cfg, run, steps, i - 1);
      EveryMessageExplained(cfg, run, steps, i - 1);
      assert StepAt(cfg, run, steps, i - 1);
      var w := run[i - 1];
      forall claim | claim in w.held
        ensures w.now < w.held[claim].leaseEnd && 0 < w.held[claim].attempts
      {
        assert ClaimExplained(w, claim);
      }
      LimitedStep(cfg, w, run[i], steps[i - 1]);
    }
  }

  /** No two workers ever hold the same message, whether or not others vanish. */
  lemma HeldByOneWorker(cfg: Config, run: seq<World>, steps: seq<Step>, i: nat, a: int, b: int)
    requires Run(cfg, run, steps) && InLease(run) && i < |run|
    requires a in run[i].held && b in run[i].held && run[i].held[a].id == run[i].held[b].id
    ensures a == b
  {
    AlwaysExclusive(cfg, run, steps, i);
  }

  /** Done and dead are final. */
  lemma {:induction false} SettledForGood(cfg: Config, run: seq<World>, steps: seq<Step>, i: nat, j: nat, id: int)
    requires Run(cfg, run, steps) && InLease(run) && i <= j < |run|
    requires id in run[i].msgs && run[i].msgs[id].status != Pending
    ensures id in run[j].msgs && run[j].msgs[id] == run[i].msgs[id]
  {
    if i < j {
      SettledForGood(cfg, run, steps, i, j - 1, id);
      AlwaysExclusive(cfg, run, steps, j - 1);
      assert StepAt(cfg, run, steps, j - 1);
    }
  }

  /** A message is claimed at most max_attempts times (once, if that is not positive), and after
      the last of those claims is settled it is done or dead. */
  lemma AttemptsAreBounded(cfg: Config, run: seq<World>, steps: seq<Step>, i: nat, id: int)
    requires Run(cfg, run, steps) && Timely(run, steps) && i < |run| && id in run[i].msgs
    ensures Claims(run[i].log, id) <= Limit(run[i].msgs[id])
    ensures Claims(run[i].log, id) == Limit(run[i].msgs[id]) && !IsHeld(run[i], id)
        ==> run[i].msgs[id].status != Pending
  {
    AlwaysLimited(cfg, run, steps, i);
    EveryMessageExplained(cfg, run, steps, i);
  }

  // ---- When a verdict is final, whatever the leases ------------------------------------------

  ghost predicate Continues(cfg: Config, run: seq<World>, steps: seq<Step>) {
    |run| == |steps| + 1 && forall i: nat :: i < |steps| ==> StepAt(cfg, run, steps, i)
  }

  /** A worker still holds the message and could reverse its verdict: bury a delivered one because
      its own attempt was the last, or deliver a dead one. */
  predicate Threatens(c: Claim, m: Message) {
    || (m.status == Done && !c.stage.Succeeded? && c.attempts >= c.maxAttempts)
    || (m.status == Dead && !c.stage.Broke?)
  }

  ghost predicate Unthreatened(w: World, id: int)
    requires id in w.msgs
  {
    forall claim :: claim in w.held && w.held[claim].id == id ==> !Threatens(w.held[claim], w.msgs[id])
  }

  ghost predicate Ends(w: World, id: int, status: Status) { id in w.msgs && w.msgs[id].status == status }

  lemma UnthreatenedStep(cfg: Config, w: World, w': World, step: Step, id: int)
    requires id in w.msgs && w.msgs[id].status != Pending && Unthreatened(w, id) && Next(cfg, w, w', step)
    ensures Ends(w', id, w.msgs[id].status) && Unthreatened(w', id)
  {
  }

  lemma {:induction false} UnthreatenedRun(cfg: Config, run: seq<World>, steps: seq<Step>, i: nat, id: int)
    requires Continues(cfg, run, steps) && i < |run|
    requires id in run[0].msgs && run[0].msgs[id].status != Pending && Unthreatened(run[0], id)
    ensures Ends(run[i], id, run[0].msgs[id].status) && Unthreatened(run[i], id)
  {
    if i > 0 {
      UnthreatenedRun(cfg, run, steps, i - 1, id);
      assert StepAt(cfg, run, steps, i - 1);
      UnthreatenedStep(cfg, run[i - 1], run[i], steps[i - 1], id);
    }
  }

  /** The worker that could reverse the verdict does, in at most two steps. */
  lemma ThreatRealised(cfg: Config, w: World, id: int, claim: int) returns (run: seq<World>, steps: seq<Step>)
    requires id in w.msgs && claim in w.held && w.held[claim].id == id && Threatens(w.held[claim], w.msgs[id])
    ensures Continues(cfg, run, steps) && run[0] == w && !Ends(run[|steps|], id, w.msgs[id].status)
  {
    var c := w.held[claim];
    var stage := if c.stage != Running then c.stage else if w.msgs[id].status == Done then Broke("late") else Succeeded;
    var mid := w.(held := w.held[claim := c.(stage := stage)],
                  log := w.log + [if stage.Succeeded? then Handled(c.id) else Refused(c.id, c.attempts)]);
    var held := if c.stage == Running then mid else w;
    var last := held.(held := held.held - {claim},
        msgs := w.msgs[id := Settlement(cfg, w.msgs[id], held.held[claim], w.now)]);
    assert Next(cfg, held, last, Settle(claim));
    if c.stage == Running {
      run, steps := [w, mid, last], [Finish(claim, stage), Settle(claim)];
      assert StepAt(cfg, run, steps, 0) && StepAt(cfg, run, steps, 1);
    } else {
      run, steps := [w, last], [Settle(claim)];
      assert StepAt(cfg, run, steps, 0);
    }
  }

  /** A verdict stands in every continuation if and only if no worker still threatens it. */
  lemma FinalIffUnthreatened(cfg: Config, w: World, id: int)
    requires id in w.msgs && w.msgs[id].status != Pending
    ensures Unthreatened(w, id) <==>
            forall run, steps :: Continues(cfg, run, steps) && run[0] == w ==> Ends(run[|steps|], id, w.msgs[id].status)
  {
    if Unthreatened(w, id) {
      forall run, steps | Continues(cfg, run, steps) && run[0] == w
        ensures Ends(run[|steps|], id, w.msgs[id].status)
      {
        UnthreatenedRun(cfg, run, steps, |steps|, id);
      }
    } else {
      var claim :| claim in w.held && w.held[claim].id == id && Threatens(w.held[claim], w.msgs[id]);
      var run, steps := ThreatRealised(cfg, w, id, claim);
    }
  }

  // ---- Why the lease matters --------------------------------------------------------------

  const LATE: seq<Step> :=
    [Enqueue(1, "k", "p", 1, None), Take(1, 1), Tick(60), Take(2, 1), Finish(2, Succeeded), Settle(2),
     Finish(1, Broke("late")), Settle(1)]

  lemma RunOfEight(cfg: Config, w0: World, w1: World, w2: World, w3: World, w4: World, w5: World, w6: World, w7: World,
                   w8: World, steps: seq<Step>)
    requires |steps| == 8 && Init(w0)
    requires Next(cfg, w0, w1, steps[0]) && Next(cfg, w1, w2, steps[1]) && Next(cfg, w2, w3, steps[2])
    requires Next(cfg, w3, w4, steps[3]) && Next(cfg, w4, w5, steps[4]) && Next(cfg, w5, w6, steps[5])
    requires Next(cfg, w6, w7, steps[6]) && Next(cfg, w7, w8, steps[7])
    ensures Run(cfg, [w0, w1, w2, w3, w4, w5, w6, w7, w8], steps)
  {
  }

  /** The lease of the first claim runs out and a second worker claims the message. */
  lemma ClaimedTwice(cfg: Config, m2: Message, c1: Claim, c2: Claim)
    returns (w0: World, w1: World, w2: World, w3: World, w4: World)
    requires cfg == Config(60, 10, 1800) && m2 == Leased(Leased(Fresh("k", "p", 1, None, 0), 60), 120)
    requires c1 == Claim(1, 1, 1, 60, Running) && c2 == Claim(1, 2, 1, 120, Running)
    ensures Init(w0) && Next(cfg, w0, w1, LATE[0]) && Next(cfg, w1, w2, LATE[1])
    ensures Next(cfg, w2, w3, LATE[2]) && Next(cfg, w3, w4, LATE[3])
    ensures w4 == World(60, map[1 := m2], map[1 := c1, 2 := c2], [Claimed(1), Claimed(1)])
  {
    var m0 := Fresh("k", "p", 1, None, 0);
    w0 := World(0, map[], map[], []);
    w1 := w0.(msgs := map[1 := m0]);
    w2 := World(0, map[1 := Leased(m0, 60)], map[1 := c1], [Claimed(1)]);
    w3 := w2.(now := 60);
    w4 := World(60, map[1 := m2], map[1 := c1, 2 := c2], w3.log + [Claimed(1)]);
  }

  /** The second worker delivers the message; then the first one reports a failure. */
  lemma DeliveredThenBuried(cfg: Config, m2: Message, c1: Claim, c2: Claim, w4: World)
    returns (w5: World, w6: World, w7: World, w8: World)
    requires m2.status == Pending && m2.maxAttempts == 1
    requires c1 == Claim(1, 1, 1, 60, Running) && c2 == Claim(1, 2, 1, 120, Running)
    requires w4 == World(60, map[1 := m2], map[1 := c1, 2 := c2], [Claimed(1), Claimed(1)])
    ensures Next(cfg, w4, w5, LATE[4]) && Next(cfg, w5, w6, LATE[5])
    ensures Next(cfg, w6, w7, LATE[6]) && Next(cfg, w7, w8, LATE[7])
    ensures 1 in w6.msgs && w6.msgs[1].status == Done && 1 in w8.msgs && w8.msgs[1].status == Dead
  {
    w5 := w4.(held := map[1 := c1, 2 := c2.(stage := Succeeded)], log := w4.log + [Handled(1)]);
    w6 := w5.(held := map[1 := c1], msgs := map[1 := Delivered(m2)]);
    w7 := w6.(held := map[1 := c1.(stage := Broke("late"))], log := w6.log + [Refused(1, 1)]);
    w8 := w7.(held := map[], msgs := map[1 := Settlement(cfg, w7.msgs[1], w7.held[1], 60)]);
  }

  /** A worker that outlives its lease can bury a message that another worker has delivered: after
      step 6 the message is done, two steps later it is dead. */
  lemma LateFailureBuriesDelivered() returns (run: seq<World>)
    ensures Run(Config(60, 10, 1800), run, LATE)
    ensures 1 in run[6].msgs && run[6].msgs[1].status == Done && 1 in run[8].msgs && run[8].msgs[1].status == Dead
  {
    var cfg := Config(60, 10, 1800);
    var c1, c2 := Claim(1, 1, 1, 60, Running), Claim(1, 2, 1, 120, Running);
    var m2 := Leased(Leased(Fresh("k", "p", 1, None, 0), 60), 120);
    var w0, w1, w2, w3, w4 := ClaimedTwice(cfg, m2, c1, c2);
    var w5, w6, w7, w8 := DeliveredThenBuried(cfg, m2, c1, c2, w4);
    run := [w0, w1, w2, w3, w4, w5, w6, w7, w8];
    RunOfEight(cfg, w0, w1, w2, w3, w4, w5, w6, w7, w8, LATE);
  }

  // ---- The worker object and the times it sets ---------------------------------------------------

  function StageOf(m: Message, outcome: Outcome): Stage {
    match outcome
    case Success => Succeeded
    case NoHandler => Broke("no handler for kind " + m.kind)
    case Failure(error) => Broke(error)
  }

  ghost function ConfigOf(worker: Worker): Config { Config(worker.lease, worker.baseBO, worker.maxBO) }

  /** What a worker makes of a message it claims and dispatches without interruption is what the
      protocol's steps make of it: take, finish, wait and settle, or crash if the write is lost. */
  lemma WorkerTakesTheSteps(worker: Worker, w: World, claim: int, id: int, d: Dispatching)
    returns (run: seq<World>, steps: seq<Step>)
    requires id in w.msgs && Claimable(w.msgs[id], w.now) && claim !in w.held && w.now <= d.at
    ensures |run| == |steps| + 1 && run[0] == w
    ensures forall i: nat :: i < |steps| ==> StepAt(ConfigOf(worker), run, steps, i)
    ensures run[|steps|].msgs == w.msgs[id := worker.Handled(w.msgs[id], w.now, Some(d))]
    ensures run[|steps|].held == w.held
  {
    var cfg := ConfigOf(worker);
    var m := Leased(w.msgs[id], w.now + cfg.lease);
    var c := Claim(id, m.attempts, m.maxAttempts, m.nextAttempt, Running);
    var stage := StageOf(m, d.outcome);
    var taken := w.(msgs := w.msgs[id := m], log := w.log + [Claimed(id)], held := w.held[claim := c]);
    var finished := taken.(
      held := taken.held[claim := c.(stage := stage)],
      log := taken.log + [if stage.Succeeded? then Handled(id) else Refused(id, m.attempts)]);
    var waited := finished.(now := d.at);
    var last := if d.saved then Settle(claim) else Crash(claim);
    var end := waited.(
      held := waited.held - {claim},
      msgs := if d.saved then waited.msgs[id := Settlement(cfg, m, c.(stage := stage), d.at)] else waited.msgs);
    run := [w, taken, finished, waited, end];
    steps := [Take(claim, id), Finish(claim, stage), Tick(d.at - w.now), last];
    assert StepAt(cfg, run, steps, 0) && StepAt(cfg, run, steps, 1) && StepAt(cfg, run, steps, 2);
    assert StepAt(cfg, run, steps, 3);
    assert end.held == w.held;
  }

  /** A claim hides its message for exactly the lease. */
  lemma HiddenForTheLease(cfg: Config, w: World, w': World, claim: int, id: int, later: Time)
    requires Next(cfg, w, w', Take(claim, id))
    ensures id in w'.msgs && (Claimable(w'.msgs[id], later) <==> w.now + cfg.lease <= later)
  {
  }

  /** A failure is recorded with its error. One that leaves attempts puts the message off for exactly
      the delay of its attempt; otherwise the message is dead and never claimable. */
  lemma PutOffForTheDelay(cfg: Config, w: World, w': World, claim: int, later: Time)
    requires Next(cfg, w, w', Settle(claim)) && w.held[claim].stage.Broke? && w.msgs[w.held[claim].id].status == Pending
    ensures var c := w.held[claim];
            && c.id in w'.msgs && w'.msgs[c.id].lastError == c.stage.error
            && (w'.msgs[c.id].status == Dead <==> c.attempts >= c.maxAttempts)
            && (Claimable(w'.msgs[c.id], later)
                <==> && c.attempts < c.maxAttempts
                     && w.now + Delay(cfg.baseBO, cfg.maxBO, c.attempts) <= later)
  {
  }

  /** Attempts are counted up by claims and by nothing else. */
  lemma {:induction false} HeldWasCounted(cfg: Config, run: seq<World>, steps: seq<Step>, i: nat, claim: int)
    requires Run(cfg, run, steps) && i < |run| && claim in run[i].held
    ensures run[i].held[claim].id in run[i].msgs
    ensures 0 < run[i].held[claim].attempts <= run[i].msgs[run[i].held[claim].id].attempts
  {
    assert StepAt(cfg, run, steps, i - 1);
    EveryMessageExplained(cfg, run, steps, i - 1);
    if claim in run[i - 1].held {
      HeldWasCounted(cfg, run, steps, i - 1, claim);
    }
  }

  /** The message is what step `n` enqueued: its kind, its payload or an empty object, and its limit
      or eight. */
  ghost predicate EnqueuedAt(steps: seq<Step>, n: nat, id: int, m: Message)
    requires n < |steps|
  {
    match steps[n]
    case Enqueue(id', kind, payload, maxAttempts, _) =>
      && id' == id && m.kind == kind && m.payload == (if |payload| > 0 then payload else "{}")
      && m.maxAttempts == (if maxAttempts != 0 then maxAttempts else 8)
    case _ => false
  }

  /** In every run a message is what was enqueued under its id, once, and it is not claimable before
      the time that was set for it, if one was. */
  lemma {:induction false} MessageKept(cfg: Config, run: seq<World>, steps: seq<Step>, i: nat, id: int) returns (n: nat)
    requires Run(cfg, run, steps) && i < |run| && id in run[i].msgs
    ensures n < i && EnqueuedAt(steps, n, id, run[i].msgs[id])
    ensures run[i].msgs[id].attempts == 0 ==>
              && run[i].msgs[id].status == Pending
              && run[i].msgs[id].nextAttempt == (if steps[n].nextAttempt.Some? then steps[n].nextAttempt.value
                                                 else run[n].now)
  {
    assert StepAt(cfg, run, steps, i - 1);
    EveryMessageExplained(cfg, run, steps, i - 1);
    if id in run[i - 1].msgs {
      n := MessageKept(cfg, run, steps, i - 1, id);
      if steps[i - 1].Settle? {
        HeldWasCounted(cfg, run, steps, i - 1, steps[i - 1].claim);
      }
    } else {
      n := i - 1;
    }
  }
}
