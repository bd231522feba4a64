/** Many pods, one Redis, one database and a clock. Every cache call is split into its read and
    its writes, so calls, mutations and invalidations interleave freely; broadcasts may arrive
    late, out of order, or never. */
module CacheProtocol {
  import opened Common
  import opened Casbin
  import opened Authz
  import opened Directory
  import opened BindingCache

  datatype Config = Config(l1TTL: nat, l2TTL: nat)

  /** `engine` is None for a pod wired without the enforcer. */
  datatype Pod = Pod(l1: L1, engine: Option<Enforcer>)

  /** A lookup that missed L1 and has read its answer, from the database or from Redis, but
      has not returned yet. */
  datatype Call = Call(pod: int, tenantId: int, userId: int, answer: seq<EffectiveBinding>, fromDb: bool, started: Time)

  datatype World = World(
    now: Time, db: Database, pods: map<int, Pod>, l2: L2, calls: map<int, Call>,
    inFlight: multiset<(int, string)>)

  datatype Step =
    | Tick(elapsed: nat)
    | Mutate(db: Database)
    | ReadL2(id: int, pod: int, tenantId: int, userId: int)
    | ReadDb(id: int, pod: int, tenantId: int, userId: int, answer: seq<EffectiveBinding>)
    | FillL1(id: int)
    | FillL2(id: int, payload: seq<Serialized>)
    | Return(id: int)
    | DropL1(pod: int, key: string)
    | ClearL1(pod: int)
    | DropL2(key: string)
    | Publish(message: string)
    | Deliver(pod: int, message: string)
    | Lose(pod: int, message: string)
    | Resync(pod: int)

  function Key(c: Call): string { CacheKey(c.tenantId, c.userId) }

  function WithL1(w: World, pod: int, l1: L1): World
    requires pod in w.pods
  {
    w.(pods := w.pods[pod := w.pods[pod].(l1 := l1)])
  }

  /** The wrapped provider may list the bindings in any order, and overlooks some failed queries. */
  ghost predicate Answers(db: Database, now: Time, tenantId: int, userId: int, answer: seq<EffectiveBinding>) {
    exists q :: Members(answer) == Effective(Seen(db, q), tenantId, userId, now)
  }

  ghost predicate Next(cfg: Config, w: World, w': World, step: Step) {
    match step
    case Tick(elapsed) => w' == w.(now := w.now + elapsed)
    case Mutate(db) => w' == w.(db := db)
    case ReadL2(id, pod, t, u) =>
      && pod in w.pods && id !in w.calls
      && L1Lookup(w.pods[pod].l1, CacheKey(t, u), w.now).None?
      && L2Lookup(w.l2, CacheKey(t, u), w.now).Some?
      && w' == w.(calls := w.calls[id := Call(pod, t, u, L2Lookup(w.l2, CacheKey(t, u), w.now).value, false, w.now)])
    case ReadDb(id, pod, t, u, answer) =>
      && pod in w.pods && id !in w.calls
      && L1Lookup(w.pods[pod].l1, CacheKey(t, u), w.now).None?
      && Answers(w.db, w.now, t, u, answer)
      && w' == w.(calls := w.calls[id := Call(pod, t, u, answer, true, w.now)])
    case FillL1(id) =>
      && id in w.calls && w.calls[id].pod in w.pods
      && var c := w.calls[id];
      w' == WithL1(w, c.pod, w.pods[c.pod].l1[Key(c) := L1Entry(c.answer, w.now + cfg.l1TTL)])
    case FillL2(id, payload) =>
      && id in w.calls && w.calls[id].fromDb && EncodesAll(payload, w.calls[id].answer)
      && w' == w.(l2 := w.l2[Key(w.calls[id]) := L2Entry(payload, w.now + cfg.l2TTL)])
    case Return(id) => w' == w.(calls := w.calls - {id})
    case DropL1(pod, key) => pod in w.pods && w' == WithL1(w, pod, w.pods[pod].l1 - {key})
    case ClearL1(pod) => pod in w.pods && w' == WithL1(w, pod, map[])
    case DropL2(key) => w' == w.(l2 := w.l2 - {key})
    case Publish(message) => w' == w.(inFlight := w.inFlight + multiset(set pod | pod in w.pods :: (pod, message)))
    case Deliver(pod, message) =>
      && pod in w.pods && (pod, message) in w.inFlight
      && var l1 := if message == INVALIDATE_ALL then map[] else w.pods[pod].l1 - {message};
      w' == WithL1(w, pod, l1).(inFlight := w.inFlight - multiset{(pod, message)})
    case Lose(pod, message) => w' == w.(inFlight := w.inFlight - multiset{(pod, message)})
    case Resync(pod) =>
      && pod in w.pods && w.pods[pod].engine.Some?
      && w' == w.(pods := w.pods[pod := w.pods[pod].(engine := Some(EnforcerFor(w.db)))])
  }

  ghost predicate Init(w: World) {
    && w.l2 == map[] && w.calls == map[] && w.inFlight == multiset{}
    && forall p :: p in w.pods ==> w.pods[p].l1 == map[]
                                   && (w.pods[p].engine.Some? ==> w.pods[p].engine.value == Enforcer({}, {}))
  }

  ghost predicate StepAt(cfg: Config, run: seq<World>, steps: seq<Step>, i: nat)
    requires i < |steps| < |run|
  {
    Next(cfg, run[i], run[i + 1], steps[i])
  }

  /** A run: states joined by steps. */
  ghost predicate Run(cfg: Config, run: seq<World>, steps: seq<Step>) {
    && |run| == |steps| + 1 && Init(run[0])
    && forall i: nat :: i < |steps| ==> StepAt(cfg, run, steps, i)
  }

  lemma Extend(cfg: Config, run: seq<World>, steps: seq<Step>, w: World, step: Step)
    requires Run(cfg, run, steps) && Next(cfg, run[|run| - 1], w, step)
    ensures Run(cfg, run + [w], steps + [step])
  {
    var run', steps' := run + [w], steps + [step];
    forall i: nat | i < |steps'| ensures StepAt(cfg, run', steps', i) {
      if i < |steps| {
        assert StepAt(cfg, run, steps, i);
      }
    }
  }

  lemma Prefix(cfg: Config, run: seq<World>, steps: seq<Step>, e: nat)
    requires Run(cfg, run, steps) && e < |run|
    ensures Run(cfg, run[..e + 1], steps[..e])
  {
    var run', steps' := run[..e + 1], steps[..e];
    forall i: nat | i < |steps'| ensures StepAt(cfg, run', steps', i) {
      assert StepAt(cfg, run, steps, i);
    }
  }

  /** No call takes longer than `delay` from its read to its return. */
  ghost predicate Prompt(run: seq<World>, delay: nat) {
    forall i, id :: 0 <= i < |run| && id in run[i].calls ==> run[i].now <= run[i].calls[id].started + delay
  }

  /** A binding set that the pod hands to its caller: an L1 hit, or what a pending call read. */
  ghost predicate Serves(w: World, pod: int, t: int, u: int, v: seq<EffectiveBinding>) {
    && pod in w.pods
    && (|| L1Lookup(w.pods[pod].l1, CacheKey(t, u), w.now) == Some(v)
        || exists id :: Pending(w, id, pod, t, u) && w.calls[id].answer == v)
  }

  ghost predicate Pending(w: World, id: int, pod: int, t: int, u: int) {
    id in w.calls && w.calls[id].pod == pod && w.calls[id].tenantId == t && w.calls[id].userId == u
  }

  /** `v` is what the wrapped provider answers in this state, up to whole-second expiries. */
  ghost predicate ReadFrom(w: World, t: int, u: int, v: seq<EffectiveBinding>) {
    exists a :: Answers(w.db, w.now, t, u, a) && (v == a || v == Truncated(a))
  }

  /** `v` was read in a state of the run no earlier than index `lo` and no earlier than time `since`. */
  ghost predicate Origin(run: seq<World>, lo: nat, hi: nat, t: int, u: int, v: seq<EffectiveBinding>, since: Time) {
    exists j :: lo <= j <= hi && j < |run| && since <= run[j].now && ReadFrom(run[j], t, u, v)
  }

  lemma OriginHere(run: seq<World>, lo: nat, i: nat, t: int, u: int, v: seq<EffectiveBinding>)
    requires lo <= i < |run| && Answers(run[i].db, run[i].now, t, u, v)
    ensures Origin(run, lo, i, t, u, v, run[i].now)
  {
  }

  /** Storing a set in Redis and reading it back does not change where it came from. */
  lemma OriginStored(run: seq<World>, lo: nat, hi: nat, t: int, u: int, v: seq<EffectiveBinding>, since: Time,
                     payload: seq<Serialized>)
    requires Origin(run, lo, hi, t, u, v, since) && EncodesAll(payload, v)
    ensures Origin(run, lo, hi, t, u, Restore(payload), since)
  {
    var j :| lo <= j <= hi && j < |run| && since <= run[j].now && ReadFrom(run[j], t, u, v);
    var a :| Answers(run[j].db, run[j].now, t, u, a) && (v == a || v == Truncated(a));
    StoredRoundTrip(payload, v);
    TruncatedTwice(a);
    assert ReadFrom(run[j], t, u, Restore(payload));
  }

  // ---- Bounded staleness ------------------------------------------------------------

  ghost predicate L1Dated(cfg: Config, delay: nat, run: seq<World>, i: nat)
    requires i < |run|
  {
    forall p, t, u :: p in run[i].pods && CacheKey(t, u) in run[i].pods[p].l1 ==>
      var entry := run[i].pods[p].l1[CacheKey(t, u)];
      Origin(run, 0, i, t, u, entry.bindings, entry.expireAt - cfg.l1TTL - cfg.l2TTL - 2 * delay)
  }

  ghost predicate L2Dated(cfg: Config, delay: nat, run: seq<World>, i: nat)
    requires i < |run|
  {
    forall t, u :: CacheKey(t, u) in run[i].l2 ==>
      var entry := run[i].l2[CacheKey(t, u)];
      Origin(run, 0, i, t, u, Restore(entry.payload), entry.expireAt - cfg.l2TTL - delay)
  }

  function CallSince(cfg: Config, delay: nat, c: Call): Time {
    if c.fromDb then c.started else c.started - cfg.l2TTL - delay
  }

  ghost predicate CallsDated(cfg: Config, delay: nat, run: seq<World>, i: nat)
    requires i < |run|
  {
    forall id :: id in run[i].calls ==>
      var c := run[i].calls[id];
      Origin(run, 0, i, c.tenantId, c.userId, c.answer, CallSince(cfg, delay, c))
  }

  lemma L1DatedStep(cfg: Config, delay: nat, run: seq<World>, steps: seq<Step>, i: nat)
    requires Run(cfg, run, steps) && Prompt(run, delay) && i < |steps|
    requires L1Dated(cfg, delay, run, i) && CallsDated(cfg, delay, run, i)
    ensures L1Dated(cfg, delay, run, i + 1)
  {
    var w, w' := run[i], run[i + 1];
    assert StepAt(cfg, run, steps, i);
    forall p, t, u | p in w'.pods && CacheKey(t, u) in w'.pods[p].l1
      ensures var entry := w'.pods[p].l1[CacheKey(t, u)];
              Origin(run, 0, i + 1, t, u, entry.bindings, entry.expireAt - cfg.l1TTL - cfg.l2TTL - 2 * delay)
    {
      var key := CacheKey(t, u);
      if key in w.pods[p].l1 && w.pods[p].l1[key] == w'.pods[p].l1[key] {
        assert Origin(run, 0, i, t, u, w.pods[p].l1[key].bindings,
                      w.pods[p].l1[key].expireAt - cfg.l1TTL - cfg.l2TTL - 2 * delay);
      } else {
        assert steps[i].FillL1?;
        var c := w.calls[steps[i].id];
        CacheKeyInjective(t, u, c.tenantId, c.userId);
        assert Origin(run, 0, i, t, u, c.answer, CallSince(cfg, delay, c));
      }
    }
  }

  lemma L2DatedStep(cfg: Config, delay: nat, run: seq<World>, steps: seq<Step>, i: nat)
    requires Run(cfg, run, steps) && Prompt(run, delay) && i < |steps|
    requires L2Dated(cfg, delay, run, i) && CallsDated(cfg, delay, run, i)
    ensures L2Dated(cfg, delay, run, i + 1)
  {
    var w, w' := run[i], run[i + 1];
    assert StepAt(cfg, run, steps, i);
    forall t, u | CacheKey(t, u) in w'.l2
      ensures var entry := w'.l2[CacheKey(t, u)];
              Origin(run, 0, i + 1, t, u, Restore(entry.payload), entry.expireAt - cfg.l2TTL - delay)
    {
      var key := CacheKey(t, u);
      if key in w.l2 && w.l2[key] == w'.l2[key] {
        assert Origin(run, 0, i, t, u, Restore(w.l2[key].payload), w.l2[key].expireAt - cfg.l2TTL - delay);
      } else {
        assert steps[i].FillL2?;
        var c := w.calls[steps[i].id];
        CacheKeyInjective(t, u, c.tenantId, c.userId);
        OriginStored(run, 0, i, t, u, c.answer, c.started, steps[i].payload);
      }
    }
  }

  lemma CallsDatedStep(cfg: Config, delay: nat, run: seq<World>, steps: seq<Step>, i: nat)
    requires Run(cfg, run, steps) && i < |steps|
    requires L2Dated(cfg, delay, run, i) && CallsDated(cfg, delay, run, i)
    ensures CallsDated(cfg, delay, run, i + 1)
  {
    var w, w' := run[i], run[i + 1];
    assert StepAt(cfg, run, steps, i);
    forall id | id in w'.calls
      ensures var c := w'.calls[id];
              Origin(run, 0, i + 1, c.tenantId, c.userId, c.answer, CallSince(cfg, delay, c))
    {
      var c := w'.calls[id];
      if id in w.calls && w.calls[id] == c {
        assert Origin(run, 0, i, c.tenantId, c.userId, c.answer, CallSince(cfg, delay, c));
      } else if steps[i].ReadDb? {
        OriginHere(run, 0, i, c.tenantId, c.userId, c.answer);
      } else {
        var entry := w.l2[CacheKey(c.tenantId, c.userId)];
        assert Origin(run, 0, i, c.tenantId, c.userId, Restore(entry.payload), entry.expireAt - cfg.l2TTL - delay);
      }
    }
  }

  ghost predicate Dated(cfg: Config, delay: nat, run: seq<World>, i: nat)
    requires i < |run|
  {
    L1Dated(cfg, delay, run, i) && L2Dated(cfg, delay, run, i) && CallsDated(cfg, delay, run, i)
  }

  lemma DatedStep(cfg: Config, delay: nat, run: seq<World>, steps: seq<Step>, i: nat)
    requires Run(cfg, run, steps) && Prompt(run, delay) && i < |steps| && Dated(cfg, delay, run, i)
    ensures Dated(cfg, delay, run, i + 1)
  {
    L1DatedStep(cfg, delay, run, steps, i);
    L2DatedStep(cfg, delay, run, steps, i);
    CallsDatedStep(cfg, delay, run, steps, i);
  }

  lemma {:induction false} EverythingDated(cfg: Config, delay: nat, run: seq<World>, steps: seq<Step>, i: nat)
    requires Run(cfg, run, steps) && Prompt(run, delay) && i < |run|
    ensures Dated(cfg, delay, run, i)
  {
    if i > 0 {
      EverythingDated(cfg, delay, run, steps, i - 1);
      DatedStep(cfg, delay, run, steps, i - 1);
    }
  }

  /** Even if every broadcast is lost, a served set was the provider's answer at most
      l1TTL + l2TTL + 2 * delay ago; calls that read and fill in one instant have delay 0. Both
      TTLs count because L1 can be refilled from a Redis entry at the end of its life. */
  lemma BoundedStaleness(cfg: Config, delay: nat, run: seq<World>, steps: seq<Step>, i: nat,
                         pod: int, t: int, u: int, v: seq<EffectiveBinding>)
    requires Run(cfg, run, steps) && Prompt(run, delay) && i < |run|
    requires Serves(run[i], pod, t, u, v)
    ensures Origin(run, 0, i, t, u, v, run[i].now - (cfg.l1TTL + cfg.l2TTL + 2 * delay))
  {
    EverythingDated(cfg, delay, run, steps, i);
    if L1Lookup(run[i].pods[pod].l1, CacheKey(t, u), run[i].now) == Some(v) {
      var entry := run[i].pods[pod].l1[CacheKey(t, u)];
      assert Origin(run, 0, i, t, u, entry.bindings, entry.expireAt - cfg.l1TTL - cfg.l2TTL - 2 * delay);
    } else {
      var id :| Pending(run[i], id, pod, t, u) && run[i].calls[id].answer == v;
      var c := run[i].calls[id];
      assert Origin(run, 0, i, t, u, c.answer, CallSince(cfg, delay, c));
    }
  }

  // ---- End-to-end soundness --------------------------------------------------------------

  /** The enforcer in a pod is empty or was built from the tables of some state of the run. */
  ghost predicate EngineDated(run: seq<World>, i: nat, pod: int)
    requires i < |run| && pod in run[i].pods
  {
    var engine := run[i].pods[pod].engine;
    engine.Some? && engine.value != Enforcer({}, {}) ==>
      exists k :: 0 <= k <= i && engine.value == EnforcerFor(run[k].db)
  }

  lemma EngineStep(cfg: Config, w: World, w': World, step: Step, pod: int)
    requires Next(cfg, w, w', step) && pod in w'.pods
    ensures pod in w.pods
    ensures w'.pods[pod].engine == w.pods[pod].engine || w'.pods[pod].engine == Some(EnforcerFor(w.db))
  {
  }

  lemma {:induction false} EnginesDated(cfg: Config, run: seq<World>, steps: seq<Step>, i: nat, pod: int)
    requires Run(cfg, run, steps) && i < |run| && pod in run[i].pods
    ensures EngineDated(run, i, pod)
  {
    if i > 0 {
      var w, w' := run[i - 1], run[i];
      assert StepAt(cfg, run, steps, i - 1);
      EngineStep(cfg, w, w', steps[i - 1], pod);
      EnginesDated(cfg, run, steps, i - 1, pod);
      if w'.pods[pod].engine != w.pods[pod].engine {
        assert w'.pods[pod].engine.value == EnforcerFor(run[i - 1].db);
      }
    }
  }

  /** Why an allowed check was right: the binding was really held in state `j`, the target is in its
      scope by the org tree of state `i`, it has not expired, and its role holds the permission: in the
      inlined set, or, as `served` reads, by the catalogue of state `k` that the pod's enforcer was
      built from. */
  ghost predicate Justified(run: seq<World>, i: nat, j: nat, k: nat, pod: int, t: int, u: int,
                            held: EffectiveBinding, served: EffectiveBinding, perm: string, target: Option<ScopeTarget>)
    requires i < |run| && j < |run| && k < |run| && pod in run[i].pods
  {
    && held in Effective(run[j].db, t, u, run[j].now) && ServedFor(served, held)
    && InScope(run[i].db.orgs, held, target)
    && Unexpired(held, run[i].now)
    && match run[i].pods[pod].engine
       case None => HasPermission(held.permissions, perm)
       case Some(e) => e == EnforcerFor(run[k].db) && HoldsIn(run[k].db, t, served, perm)
  }

  /** What is served for a held binding: perhaps fewer permissions, and a truncated expiry. */
  ghost predicate ServedFor(served: EffectiveBinding, held: EffectiveBinding) {
    && served.permissions <= held.permissions
    && var lesser := held.(permissions := served.permissions);
    served == lesser || served == WholeSeconds(lesser)
  }

  /** Every served binding was really held, up to the truncation of its expiry. */
  lemma ServedBindingWasHeld(cfg: Config, delay: nat, run: seq<World>, steps: seq<Step>, i: nat, pod: int,
                             t: int, u: int, v: seq<EffectiveBinding>, b: EffectiveBinding)
    returns (j: nat, held: EffectiveBinding)
    requires Run(cfg, run, steps) && Prompt(run, delay) && i < |run|
    requires Serves(run[i], pod, t, u, v) && b in v
    ensures j <= i && run[i].now - (cfg.l1TTL + cfg.l2TTL + 2 * delay) <= run[j].now
    ensures held in Effective(run[j].db, t, u, run[j].now) && ServedFor(b, held)
  {
    BoundedStaleness(cfg, delay, run, steps, i, pod, t, u, v);
    j :| 0 <= j <= i && run[i].now - (cfg.l1TTL + cfg.l2TTL + 2 * delay) <= run[j].now && ReadFrom(run[j], t, u, v);
    var a :| Answers(run[j].db, run[j].now, t, u, a) && (v == a || v == Truncated(a));
    var n :| 0 <= n < |v| && v[n] == b;
    var q :| Members(a) == Effective(Seen(run[j].db, q), t, u, run[j].now);
    assert a[n] in Members(a);
    held := OverlookedErrorsOnlyTakeAway(run[j].db, q, t, u, run[j].now, a[n]);
  }

  /** A grant by a pod's enforcer is a grant by the catalogue it was built from. */
  lemma EnforcerGrantIsFounded(cfg: Config, run: seq<World>, steps: seq<Step>, i: nat, pod: int, t: int,
                               b: EffectiveBinding, perm: string)
    returns (k: nat)
    requires Run(cfg, run, steps) && i < |run| && pod in run[i].pods && perm != ""
    requires run[i].pods[pod].engine.Some? && GrantsPerm(run[i].pods[pod].engine, t, b, perm)
    ensures k <= i && run[i].pods[pod].engine.value == EnforcerFor(run[k].db) && HoldsIn(run[k].db, t, b, perm)
  {
    EnginesDated(cfg, run, steps, i, pod);
    k :| 0 <= k <= i && run[i].pods[pod].engine.value == EnforcerFor(run[k].db);
    EnforcerReadsTables(run[k].db, t, b, perm);
  }

  /** If a check on a served set allows, then some binding justifies it, in a database state no
      older than the cache bound. */
  lemma CheckSound(cfg: Config, delay: nat, run: seq<World>, steps: seq<Step>, i: nat, pod: int,
                   orgTree: Option<OrgTree>, t: int, u: int, v: seq<EffectiveBinding>, perm: string,
                   target: Option<ScopeTarget>, fails: EffectiveBinding -> bool)
    returns (j: nat, k: nat, held: EffectiveBinding, b: EffectiveBinding)
    requires Run(cfg, run, steps) && Prompt(run, delay) && i < |run| && perm != ""
    requires Serves(run[i], pod, t, u, v) && AnswersFrom(orgTree, run[i].db.orgs)
    requires CheckAllows(run[i].pods[pod].engine, orgTree, t, v, perm, target, run[i].now, fails)
    ensures b in v
    ensures j <= i && k <= i && run[i].now - (cfg.l1TTL + cfg.l2TTL + 2 * delay) <= run[j].now
    ensures Justified(run, i, j, k, pod, t, u, held, b, perm, target)
  {
    b :| && b in v && Allows(run[i].pods[pod].engine, orgTree, t, b, perm, target, run[i].now)
         && !(run[i].pods[pod].engine.Some? && fails(b));
    j, held := ServedBindingWasHeld(cfg, delay, run, steps, i, pod, t, u, v, b);
    TruncationEndsEarly(held, run[i].now);
    CoversExactlyItsScope(orgTree, run[i].db.orgs, b, target);
    k := i;
    if run[i].pods[pod].engine.Some? {
      k := EnforcerGrantIsFounded(cfg, run, steps, i, pod, t, b, perm);
    }
  }
}
