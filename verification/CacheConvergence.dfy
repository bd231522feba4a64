/** When a targeted invalidation takes hold for good: after it, in every continuation of the run, a
    pod serves only sets that were read since the change. */
module CacheConvergence {
  import opened Common
  import opened Authz
  import opened BindingCache
  import opened CacheProtocol

  lemma ClockStep(cfg: Config, w: World, w': World, step: Step)
    requires Next(cfg, w, w', step)
    ensures w.now <= w'.now
  {
  }

  lemma ClockAt(cfg: Config, run: seq<World>, steps: seq<Step>, i: nat)
    requires Run(cfg, run, steps) && i < |steps|
    ensures run[i].now <= run[i + 1].now
  {
    assert StepAt(cfg, run, steps, i);
    ClockStep(cfg, run[i], run[i + 1], steps[i]);
  }

  lemma {:induction false} ClockMonotone(cfg: Config, run: seq<World>, steps: seq<Step>, i: nat, j: nat)
    requires Run(cfg, run, steps) && i <= j < |run|
    ensures run[i].now <= run[j].now
  {
    if i < j {
      ClockMonotone(cfg, run, steps, i, j - 1);
      ClockAt(cfg, run, steps, j - 1);
    }
  }

  /** `v` was read in state `m` or later. */
  ghost predicate FreshSince(run: seq<World>, m: nat, i: nat, t: int, u: int, v: seq<EffectiveBinding>)
    requires m < |run|
  {
    Origin(run, m, i, t, u, v, run[m].now)
  }

  // ---- What an old answer can still come from --------------------------------------------

  /** A live Redis entry of the user is fresh. */
  ghost predicate LiveEntryFresh(run: seq<World>, m: nat, i: nat, t: int, u: int)
    requires m < |run| && i < |run|
  {
    var found := L2Lookup(run[i].l2, CacheKey(t, u), run[i].now);
    found.Some? ==> FreshSince(run, m, i, t, u, found.value)
  }

  /** What database reads for the user, on any pod, may yet put into Redis is fresh. */
  ghost predicate DbReadsFresh(run: seq<World>, m: nat, i: nat, t: int, u: int)
    requires m < |run| && i < |run|
  {
    forall id :: id in run[i].calls && Pending(run[i], id, run[i].calls[id].pod, t, u) && run[i].calls[id].fromDb
                 ==> FreshSince(run, m, i, t, u, Truncated(run[i].calls[id].answer))
  }

  /** What the pod's own calls for the user hold is fresh. */
  ghost predicate PodCallsFresh(run: seq<World>, m: nat, i: nat, pod: int, t: int, u: int)
    requires m < |run| && i < |run|
  {
    forall id :: Pending(run[i], id, pod, t, u) ==> FreshSince(run, m, i, t, u, run[i].calls[id].answer)
  }

  ghost predicate SharedFresh(run: seq<World>, m: nat, i: nat, t: int, u: int)
    requires m < |run| && i < |run|
  {
    LiveEntryFresh(run, m, i, t, u) && DbReadsFresh(run, m, i, t, u)
  }

  ghost predicate PodFresh(run: seq<World>, m: nat, i: nat, pod: int, t: int, u: int)
    requires m < |run| && i < |run|
  {
    && pod in run[i].pods
    && (var hit := L1Lookup(run[i].pods[pod].l1, CacheKey(t, u), run[i].now);
        hit.Some? ==> FreshSince(run, m, i, t, u, hit.value))
    && PodCallsFresh(run, m, i, pod, t, u)
  }

  // ---- Freshness lasts ---------------------------------------------------------------------

  lemma OriginTruncated(run: seq<World>, lo: nat, hi: nat, t: int, u: int, v: seq<EffectiveBinding>, since: Time)
    requires Origin(run, lo, hi, t, u, v, since)
    ensures Origin(run, lo, hi, t, u, Truncated(v), since)
  {
    var j :| lo <= j <= hi && j < |run| && since <= run[j].now && ReadFrom(run[j], t, u, v);
    var a :| Answers(run[j].db, run[j].now, t, u, a) && (v == a || v == Truncated(a));
    TruncatedTwice(a);
    assert ReadFrom(run[j], t, u, Truncated(v));
  }

  lemma LiveEntryFreshStep(cfg: Config, run: seq<World>, steps: seq<Step>, m: nat, i: nat, t: int, u: int)
    requires Run(cfg, run, steps) && m <= i < |steps| && SharedFresh(run, m, i, t, u)
    ensures LiveEntryFresh(run, m, i + 1, t, u)
  {
    var w, w', key := run[i], run[i + 1], CacheKey(t, u);
    assert StepAt(cfg, run, steps, i);
    ClockStep(cfg, w, w', steps[i]);
    if key in w'.l2 && !(key in w.l2 && w.l2[key] == w'.l2[key]) {
      var c := w.calls[steps[i].id];
      CacheKeyInjective(t, u, c.tenantId, c.userId);
      StoredRoundTrip(steps[i].payload, c.answer);
      assert FreshSince(run, m, i, t, u, Truncated(c.answer));
    }
  }

  lemma DbReadsFreshStep(cfg: Config, run: seq<World>, steps: seq<Step>, m: nat, i: nat, t: int, u: int)
    requires Run(cfg, run, steps) && m <= i < |steps| && DbReadsFresh(run, m, i, t, u)
    ensures DbReadsFresh(run, m, i + 1, t, u)
  {
    var w, w' := run[i], run[i + 1];
    assert StepAt(cfg, run, steps, i);
    forall id | id in w'.calls && Pending(w', id, w'.calls[id].pod, t, u) && w'.calls[id].fromDb
      ensures FreshSince(run, m, i + 1, t, u, Truncated(w'.calls[id].answer))
    {
      if id in w.calls && w.calls[id] == w'.calls[id] {
        assert FreshSince(run, m, i, t, u, Truncated(w.calls[id].answer));
      } else {
        OriginHere(run, m, i, t, u, w'.calls[id].answer);
        OriginTruncated(run, m, i, t, u, w'.calls[id].answer, w.now);
        ClockMonotone(cfg, run, steps, m, i);
      }
    }
  }

  lemma PodCallsFreshStep(cfg: Config, run: seq<World>, steps: seq<Step>, m: nat, i: nat, pod: int, t: int, u: int)
    requires Run(cfg, run, steps) && m <= i < |steps|
    requires LiveEntryFresh(run, m, i, t, u) && PodCallsFresh(run, m, i, pod, t, u)
    ensures PodCallsFresh(run, m, i + 1, pod, t, u)
  {
    var w, w' := run[i], run[i + 1];
    assert StepAt(cfg, run, steps, i);
    forall id | Pending(w', id, pod, t, u)
      ensures FreshSince(run, m, i + 1, t, u, w'.calls[id].answer)
    {
      if id in w.calls && w.calls[id] == w'.calls[id] {
        assert Pending(w, id, pod, t, u);
      } else if steps[i].ReadDb? {
        OriginHere(run, m, i, t, u, w'.calls[id].answer);
        ClockMonotone(cfg, run, steps, m, i);
      }
    }
  }

  lemma PodFreshStep(cfg: Config, run: seq<World>, steps: seq<Step>, m: nat, i: nat, pod: int, t: int, u: int)
    requires Run(cfg, run, steps) && m <= i < |steps|
    requires LiveEntryFresh(run, m, i, t, u) && PodFresh(run, m, i, pod, t, u)
    ensures PodFresh(run, m, i + 1, pod, t, u)
  {
    var w, w', key := run[i], run[i + 1], CacheKey(t, u);
    PodCallsFreshStep(cfg, run, steps, m, i, pod, t, u);
    ClockAt(cfg, run, steps, i);
    assert StepAt(cfg, run, steps, i);
    if key in w'.pods[pod].l1 && !(key in w.pods[pod].l1 && w.pods[pod].l1[key] == w'.pods[pod].l1[key]) {
      var c := w.calls[steps[i].id];
      CacheKeyInjective(t, u, c.tenantId, c.userId);
      assert Pending(w, steps[i].id, pod, t, u);
    }
  }

  lemma {:induction false} SharedFreshFrom(cfg: Config, run: seq<World>, steps: seq<Step>, m: nat, d: nat, i: nat,
                                           t: int, u: int)
    requires Run(cfg, run, steps) && m <= d <= i < |run| && SharedFresh(run, m, d, t, u)
    ensures SharedFresh(run, m, i, t, u)
  {
    if d < i {
      SharedFreshFrom(cfg, run, steps, m, d, i - 1, t, u);
      LiveEntryFreshStep(cfg, run, steps, m, i - 1, t, u);
      DbReadsFreshStep(cfg, run, steps, m, i - 1, t, u);
    }
  }

  lemma PodFreshNext(cfg: Config, run: seq<World>, steps: seq<Step>, m: nat, d: nat, i: nat, pod: int, t: int, u: int)
    requires Run(cfg, run, steps) && m <= d <= i < |steps|
    requires SharedFresh(run, m, d, t, u) && PodFresh(run, m, i, pod, t, u)
    ensures PodFresh(run, m, i + 1, pod, t, u)
  {
    SharedFreshFrom(cfg, run, steps, m, d, i, t, u);
    PodFreshStep(cfg, run, steps, m, i, pod, t, u);
  }

  lemma {:induction false} PodFreshFrom(cfg: Config, run: seq<World>, steps: seq<Step>, m: nat, e: nat, i: nat,
                                        pod: int, t: int, u: int)
    requires Run(cfg, run, steps) && m <= e <= i < |run|
    requires SharedFresh(run, m, e, t, u) && PodFresh(run, m, e, pod, t, u)
    ensures PodFresh(run, m, i, pod, t, u)
  {
    if e < i {
      PodFreshFrom(cfg, run, steps, m, e, i - 1, pod, t, u);
      PodFreshNext(cfg, run, steps, m, e, i - 1, pod, t, u);
    }
  }

  // ---- Over all continuations ------------------------------------------------------------------

  ghost predicate ServesOnlyFresh(run: seq<World>, m: nat, e: nat, pod: int, t: int, u: int)
    requires m < |run|
  {
    forall i, v :: e <= i < |run| && Serves(run[i], pod, t, u, v) ==> FreshSince(run, m, i, t, u, v)
  }

  /** Whatever happens after state `e`, the pod serves the user only sets read at `m` or later. */
  ghost predicate Converges(cfg: Config, run: seq<World>, m: nat, e: nat, pod: int, t: int, u: int)
    requires m <= e < |run|
  {
    forall run', steps' :: Run(cfg, run', steps') && run[..e + 1] <= run' ==> ServesOnlyFresh(run', m, e, pod, t, u)
  }

  /** Where a set came from is settled by the states up to then. */
  lemma SameOrigin(run: seq<World>, run': seq<World>, lo: nat, hi: nat, t: int, u: int, v: seq<EffectiveBinding>,
      since: Time)
    requires hi < |run| && run[..hi + 1] <= run'
    ensures Origin(run, lo, hi, t, u, v, since) <==> Origin(run', lo, hi, t, u, v, since)
  {
    assert forall j :: 0 <= j <= hi ==> run'[j] == run[..hi + 1][j] == run[j];
  }

  lemma FreshConverges(cfg: Config, run: seq<World>, m: nat, e: nat, pod: int, t: int, u: int)
    requires m <= e < |run| && SharedFresh(run, m, e, t, u) && PodFresh(run, m, e, pod, t, u)
    ensures Converges(cfg, run, m, e, pod, t, u)
  {
    forall run', steps' | Run(cfg, run', steps') && run[..e + 1] <= run'
      ensures ServesOnlyFresh(run', m, e, pod, t, u)
    {
      FreshElsewhere(run, run', m, e, pod, t, u);
      forall i, v | e <= i < |run'| && Serves(run'[i], pod, t, u, v)
        ensures FreshSince(run', m, i, t, u, v)
      {
        PodFreshFrom(cfg, run', steps', m, e, i, pod, t, u);
      }
    }
  }

  lemma FreshElsewhere(run: seq<World>, run': seq<World>, m: nat, e: nat, pod: int, t: int, u: int)
    requires m <= e < |run| && run[..e + 1] <= run'
    requires SharedFresh(run, m, e, t, u) && PodFresh(run, m, e, pod, t, u)
    ensures SharedFresh(run', m, e, t, u) && PodFresh(run', m, e, pod, t, u)
  {
    assert run'[e] == run[..e + 1][e] && run'[m] == run[..e + 1][m];
    forall v
      ensures FreshSince(run, m, e, t, u, v) <==> FreshSince(run', m, e, t, u, v)
    {
      SameOrigin(run, run', m, e, t, u, v, run[m].now);
    }
  }

  // ---- Each threat comes true -------------------------------------------------------------------

  /** A step that changes neither database nor clock is no new source of answers. */
  lemma NoNewOrigin(run: seq<World>, w: World, lo: nat, t: int, u: int, v: seq<EffectiveBinding>, since: Time)
    requires run != [] && w.db == run[|run| - 1].db && w.now == run[|run| - 1].now && lo < |run|
    ensures Origin(run + [w], lo, |run|, t, u, v, since) ==> Origin(run, lo, |run| - 1, t, u, v, since)
  {
    var run' := run + [w];
    if j :| lo <= j <= |run| && j < |run'| && since <= run'[j].now && ReadFrom(run'[j], t, u, v) {
      var k := if j == |run| then |run| - 1 else j;
      assert ReadFrom(run[k], t, u, v);
    }
  }

  lemma {:induction false} Listable<T>(s: set<T>) returns (list: seq<T>)
    ensures Members(list) == s
    decreases |s|
  {
    list := [];
    if s != {} {
      var x := PickOne(s);
      list := Listable(s - {x});
      MembersOneMore(list, x);
      list := list + [x];
    }
  }

  lemma {:induction false} Encodable(bs: seq<EffectiveBinding>) returns (payload: seq<Serialized>)
    ensures EncodesAll(payload, bs)
  {
    payload := [];
    if bs != [] {
      var last := bs[|bs| - 1];
      payload := Encodable(bs[..|bs| - 1]);
      var permissions := Listable(last.permissions);
      payload := payload + [Serialized(last.roleId, permissions, last.source, last.sourceId, last.scopeType,
          last.scopeId,
                                       if last.expiresAt.Some? then Some(last.expiresAt.value / SECOND) else None)];
    }
  }

  /** A live Redis entry is read by the pod next. */
  lemma EntryIsServed(cfg: Config, run: seq<World>, steps: seq<Step>, pod: int, t: int, u: int)
    returns (w: World, step: Step)
    requires Run(cfg, run, steps)
    requires var last := run[|run| - 1];
             && pod in last.pods && L1Lookup(last.pods[pod].l1, CacheKey(t, u), last.now).None?
             && L2Lookup(last.l2, CacheKey(t, u), last.now).Some?
    ensures Run(cfg, run + [w], steps + [step]) && w.db == run[|run| - 1].db && w.now == run[|run| - 1].now
    ensures Serves(w, pod, t, u, L2Lookup(run[|run| - 1].l2, CacheKey(t, u), run[|run| - 1].now).value)
  {
    var last := run[|run| - 1];
    var v := L2Lookup(last.l2, CacheKey(t, u), last.now).value;
    var id := Above(last.calls.Keys);
    w, step := last.(calls := last.calls[id := Call(pod, t, u, v, false, last.now)]), ReadL2(id, pod, t, u);
    Extend(cfg, run, steps, w, step);
    assert Pending(w, id, pod, t, u) && w.calls[id].answer == v;
  }

  /** An old entry that is still live is served again. */
  lemma StaleEntryThreat(cfg: Config, run: seq<World>, steps: seq<Step>, m: nat, pod: int, t: int, u: int)
    requires Run(cfg, run, steps) && m < |run|
    requires var last := run[|run| - 1];
             pod in last.pods && L1Lookup(last.pods[pod].l1, CacheKey(t, u), last.now).None?
    requires !LiveEntryFresh(run, m, |run| - 1, t, u)
    ensures !Converges(cfg, run, m, |run| - 1, pod, t, u)
  {
    var e := |run| - 1;
    var v := L2Lookup(run[e].l2, CacheKey(t, u), run[e].now).value;
    var w, step := EntryIsServed(cfg, run, steps, pod, t, u);
    NoNewOrigin(run, w, m, t, u, v, run[m].now);
    assert Serves((run + [w])[e + 1], pod, t, u, v) && !FreshSince(run + [w], m, e + 1, t, u, v);
    assert run[..e + 1] <= run + [w];
  }

  /** A database read under way stores what it read; nothing becomes fresh by that. */
  lemma ReadIsStored(cfg: Config, run: seq<World>, steps: seq<Step>, m: nat, t: int, u: int, id: int)
    returns (w: World, step: Step)
    requires Run(cfg, run, steps) && m < |run| && cfg.l2TTL > 0
    requires var last := run[|run| - 1];
             && id in last.calls && Pending(last, id, last.calls[id].pod, t, u) && last.calls[id].fromDb
             && !FreshSince(run, m, |run| - 1, t, u, Truncated(last.calls[id].answer))
    ensures Run(cfg, run + [w], steps + [step]) && w.pods == run[|run| - 1].pods && w.now == run[|run| - 1].now
    ensures !LiveEntryFresh(run + [w], m, |run|, t, u)
  {
    var last := run[|run| - 1];
    var c := last.calls[id];
    var payload := Encodable(c.answer);
    StoredRoundTrip(payload, c.answer);
    w, step := last.(l2 := last.l2[CacheKey(t, u) := L2Entry(payload, last.now + cfg.l2TTL)]), FillL2(id, payload);
    NoNewOrigin(run, w, m, t, u, Truncated(c.answer), run[m].now);
    Extend(cfg, run, steps, w, step);
  }

  /** An old database read, on whatever pod, is stored in Redis and served from there. */
  lemma StaleReadThreat(cfg: Config, run: seq<World>, steps: seq<Step>, m: nat, pod: int, t: int, u: int)
    requires Run(cfg, run, steps) && m < |run| && cfg.l2TTL > 0
    requires var last := run[|run| - 1];
             pod in last.pods && L1Lookup(last.pods[pod].l1, CacheKey(t, u), last.now).None?
    requires !DbReadsFresh(run, m, |run| - 1, t, u)
    ensures !Converges(cfg, run, m, |run| - 1, pod, t, u)
  {
    var e := |run| - 1;
    var last := run[e];
    var id :| id in last.calls && Pending(last, id, last.calls[id].pod, t, u) && last.calls[id].fromDb
              && !FreshSince(run, m, e, t, u, Truncated(last.calls[id].answer));
    var w, step := ReadIsStored(cfg, run, steps, m, t, u, id);
    StaleEntryThreat(cfg, run + [w], steps + [step], m, pod, t, u);
    ThreatComesSooner(cfg, run, run + [w], m, e, pod, t, u);
  }

  lemma ThreatComesSooner(cfg: Config, run: seq<World>, run': seq<World>, m: nat, e: nat, pod: int, t: int, u: int)
    requires m <= e == |run| - 1 && |run'| == |run| + 1 && run <= run' && !Converges(cfg, run', m, e + 1, pod, t, u)
    ensures !Converges(cfg, run, m, e, pod, t, u)
  {
    var longer, steps :| Run(cfg, longer, steps) && run'[..e + 2] <= longer
        && !ServesOnlyFresh(longer, m, e + 1, pod, t, u);
    assert run[..e + 1] <= longer && !ServesOnlyFresh(longer, m, e, pod, t, u);
  }

  /** What the pod's own call holds is served as it is. */
  lemma StaleCallThreat(cfg: Config, run: seq<World>, steps: seq<Step>, m: nat, pod: int, t: int, u: int)
    requires Run(cfg, run, steps) && m < |run| && pod in run[|run| - 1].pods
    requires !PodCallsFresh(run, m, |run| - 1, pod, t, u)
    ensures !Converges(cfg, run, m, |run| - 1, pod, t, u)
  {
    var last := run[|run| - 1];
    var id :| Pending(last, id, pod, t, u) && !FreshSince(run, m, |run| - 1, t, u, last.calls[id].answer);
    assert Serves(run[|run| - 1], pod, t, u, last.calls[id].answer);
    assert run[..|run|] <= run;
  }

  // ---- The theorems ------------------------------------------------------------------------------

  lemma SameConvergence(cfg: Config, run: seq<World>, m: nat, e: nat, pod: int, t: int, u: int)
    requires m <= e < |run|
    ensures Converges(cfg, run, m, e, pod, t, u) <==> Converges(cfg, run[..e + 1], m, e, pod, t, u)
  {
    assert run[..e + 1][..e + 1] == run[..e + 1];
  }

  /** A pod that holds nothing for the user in L1, as after the delivery of the user's broadcast,
      serves only sets read at `m` or later in every continuation, if and only if no call of its own
      holds an older one, no database read for the user on any pod does, and Redis does not. */
  lemma ConvergesIff(cfg: Config, run: seq<World>, steps: seq<Step>, m: nat, pod: int, t: int, u: int)
    requires Run(cfg, run, steps) && m < |run| && cfg.l2TTL > 0
    requires var last := run[|run| - 1];
             pod in last.pods && L1Lookup(last.pods[pod].l1, CacheKey(t, u), last.now).None?
    ensures var e := |run| - 1;
            Converges(cfg, run, m, e, pod, t, u)
            <==> PodCallsFresh(run, m, e, pod, t, u) && DbReadsFresh(run, m, e, t, u) && LiveEntryFresh(run, m, e, t, u)
  {
    var e := |run| - 1;
    if !PodCallsFresh(run, m, e, pod, t, u) {
      StaleCallThreat(cfg, run, steps, m, pod, t, u);
    } else if !DbReadsFresh(run, m, e, t, u) {
      StaleReadThreat(cfg, run, steps, m, pod, t, u);
    } else if !LiveEntryFresh(run, m, e, t, u) {
      StaleEntryThreat(cfg, run, steps, m, pod, t, u);
    } else {
      FreshConverges(cfg, run, m, e, pod, t, u);
    }
  }

  /** Once the user's key is deleted from Redis, with no older database read under way, Redis and
      the reads under way stay fresh. */
  lemma DeletionHolds(cfg: Config, run: seq<World>, steps: seq<Step>, m: nat, d: nat, i: nat, t: int, u: int)
    requires Run(cfg, run, steps) && m <= d < i < |run|
    requires steps[d] == DropL2(CacheKey(t, u)) && DbReadsFresh(run, m, d + 1, t, u)
    ensures SharedFresh(run, m, i, t, u)
  {
    assert StepAt(cfg, run, steps, d);
    SharedFreshFrom(cfg, run, steps, m, d + 1, i, t, u);
  }

  lemma DeliveryClearsL1(cfg: Config, run: seq<World>, steps: seq<Step>, e: nat, pod: int, t: int, u: int)
    requires Run(cfg, run, steps) && e < |steps| && steps[e] == Deliver(pod, CacheKey(t, u))
    ensures pod in run[e + 1].pods && CacheKey(t, u) !in run[e + 1].pods[pod].l1
  {
    assert StepAt(cfg, run, steps, e);
    CacheKeyInjective(t, u, t, u);
  }

  /** The database changed before state `m`; step `e` delivers the user's broadcast to a pod, which may
      be the sender. From then on, whatever follows, the pod serves only sets read at `m` or later,
      if and only if at that moment neither its own calls, nor any pod's database reads, nor Redis
      hold an older one. */
  lemma InvalidationConverges(cfg: Config, run: seq<World>, steps: seq<Step>, m: nat, e: nat, pod: int, t: int, u: int)
    requires Run(cfg, run, steps) && m <= e < |steps| && cfg.l2TTL > 0 && steps[e] == Deliver(pod, CacheKey(t, u))
    ensures Converges(cfg, run, m, e + 1, pod, t, u)
            <==> && PodCallsFresh(run, m, e + 1, pod, t, u) && DbReadsFresh(run, m, e + 1, t, u)
                 && LiveEntryFresh(run, m, e + 1, t, u)
  {
    var cut, n := run[..e + 2], e + 1;
    Prefix(cfg, run, steps, e + 1);
    DeliveryClearsL1(cfg, run, steps, e, pod, t, u);
    ConvergesIff(cfg, cut, steps[..e + 1], m, pod, t, u);
    SameConvergence(cfg, run, m, e + 1, pod, t, u);
    forall v
      ensures FreshSince(run, m, n, t, u, v) <==> FreshSince(cut, m, n, t, u, v)
    {
      SameOrigin(run, cut, m, n, t, u, v, run[m].now);
    }
  }

  /** If the key was deleted from Redis before, at step `d`, with no older database read under way, all
      that matters is the pod's own calls. */
  lemma DeletedThenDelivered(cfg: Config, run: seq<World>, steps: seq<Step>, m: nat, d: nat, e: nat, pod: int, t: int,
      u: int)
    requires Run(cfg, run, steps) && m <= d < e < |steps| && cfg.l2TTL > 0
    requires steps[d] == DropL2(CacheKey(t, u)) && DbReadsFresh(run, m, d + 1, t, u)
    requires steps[e] == Deliver(pod, CacheKey(t, u))
    ensures Converges(cfg, run, m, e + 1, pod, t, u) <==> PodCallsFresh(run, m, e + 1, pod, t, u)
  {
    DeletionHolds(cfg, run, steps, m, d, e + 1, t, u);
    InvalidationConverges(cfg, run, steps, m, e, pod, t, u);
  }

  /** When reads fill at once, nothing is pending at either moment and the invalidation always holds. */
  lemma AtomicInvalidationConverges(cfg: Config, run: seq<World>, steps: seq<Step>, m: nat, d: nat, e: nat,
                                    pod: int, t: int, u: int)
    requires Run(cfg, run, steps) && m <= d < e < |steps|
    requires steps[d] == DropL2(CacheKey(t, u)) && steps[e] == Deliver(pod, CacheKey(t, u))
    requires run[d + 1].calls == map[] && run[e + 1].calls == map[]
    ensures Converges(cfg, run, m, e + 1, pod, t, u)
  {
    DeletionHolds(cfg, run, steps, m, d, e + 1, t, u);
    DeliveryClearsL1(cfg, run, steps, e, pod, t, u);
    FreshConverges(cfg, run, m, e + 1, pod, t, u);
  }
}
