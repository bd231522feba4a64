/** Runs that show the cache theorems cannot be improved: the staleness bound needs both TTLs,
    and a fill that races an invalidation defeats it. Tenant 7's user 1 starts as super admin
    and then loses everything. */
module CacheLimits {
  import opened Common
  import opened Casbin
  import opened Authz
  import opened Directory
  import opened BindingCache
  import opened CacheProtocol
  import opened CacheConvergence

  const NOTHING := Database(map[], map[], map[], map[], {}, map[], map[], {})
  const GRANTED := NOTHING.(users := map[1 := User(7, true, false)])
  const KEY := CacheKey(7, 1)
  const HELD := [SuperAdminBinding(1)]

  function Start(pods: map<int, Pod>): World { World(0, GRANTED, pods, map[], map[], multiset{}) }

  const IDLE := Pod(map[], None)

  lemma GrantedAnswer(now: Time)
    ensures Answers(GRANTED, now, 7, 1, HELD) && Truncated(HELD) == HELD
  {
    var all := Queries(true, true, true, true, true);
    assert Members(HELD) == Effective(Seen(GRANTED, all), 7, 1, now);
  }

  /** Once the grant is gone, no later state can be the source of the old answer. */
  lemma OldAnswerIsNotFresh(run: seq<World>, lo: nat, hi: nat, since: Time)
    requires hi < |run|
    requires forall j :: lo <= j <= hi && since <= run[j].now ==> run[j].db == NOTHING
    ensures !Origin(run, lo, hi, 7, 1, HELD, since)
  {
    forall w: World, a: seq<EffectiveBinding> | w.db == NOTHING && Answers(w.db, w.now, 7, 1, a)
      ensures a == []
    {
      var q :| Members(a) == Effective(Seen(w.db, q), 7, 1, w.now);
      SomeMember(a);
    }
  }

  const STORED := [Serialized(0, [WILDCARD], "super_admin", 1, SCOPE_GLOBAL, 0, None)]

  lemma StoredAnswer()
    ensures EncodesAll(STORED, HELD) && Restore(STORED) == HELD
  {
  }

  /** Pod 0 reads the grant and stores it in Redis; then the grant is removed. */
  lemma StoreThenRevoke(cfg: Config) returns (run: seq<World>, steps: seq<Step>)
    ensures Run(cfg, run, steps) && |run| == 5 && Prompt(run, 0)
    ensures forall j :: 0 <= j < 5 ==> run[j].now == 0
    ensures run[4] == Start(map[0 := IDLE, 1 := IDLE]).(db := NOTHING, l2 := map[KEY := L2Entry(STORED, cfg.l2TTL)])
  {
    GrantedAnswer(0);
    StoredAnswer();
    var w0 := Start(map[0 := IDLE, 1 := IDLE]);
    var w1 := w0.(calls := map[0 := Call(0, 7, 1, HELD, true, 0)]);
    var w2 := w1.(l2 := map[KEY := L2Entry(STORED, cfg.l2TTL)]);
    var w3 := w2.(calls := map[]);
    var w4 := w3.(db := NOTHING);
    Extend(cfg, [w0], [], w1, ReadDb(0, 0, 7, 1, HELD));
    Extend(cfg, [w0] + [w1], [] + [ReadDb(0, 0, 7, 1, HELD)], w2, FillL2(0, STORED));
    run, steps := [w0] + [w1] + [w2], [] + [ReadDb(0, 0, 7, 1, HELD)] + [FillL2(0, STORED)];
    Extend(cfg, run, steps, w3, Return(0));
    run, steps := run + [w3], steps + [Return(0)];
    Extend(cfg, run, steps, w4, Mutate(NOTHING));
    run, steps := run + [w4], steps + [Mutate(NOTHING)];
  }

  /** A run of instantaneous calls in which the grant is gone from time 1 on. */
  ghost predicate RevokedAtOnce(cfg: Config, run: seq<World>, steps: seq<Step>) {
    Run(cfg, run, steps) && Prompt(run, 0) && forall j :: 0 <= j < |run| && 1 <= run[j].now ==> run[j].db == NOTHING
  }

  /** One more step; only the last state of the longer run matters from here on. */
  lemma Advance(cfg: Config, run: seq<World>, steps: seq<Step>, w: World, step: Step)
    returns (run': seq<World>, steps': seq<Step>)
    requires RevokedAtOnce(cfg, run, steps) && Next(cfg, run[|run| - 1], w, step)
    requires w.db == NOTHING && forall id :: id in w.calls ==> w.now <= w.calls[id].started
    ensures RevokedAtOnce(cfg, run', steps') && run'[|run'| - 1] == w
  {
    Extend(cfg, run, steps, w, step);
    run', steps' := run + [w], steps + [step];
  }

  /** Just before the Redis entry dies, pod 1 copies it into its own L1. */
  lemma RefillAtTheEnd(cfg: Config, run: seq<World>, steps: seq<Step>) returns (run': seq<World>, steps': seq<Step>)
    requires RevokedAtOnce(cfg, run, steps)
    requires var w := run[|run| - 1];
             && cfg.l2TTL > 0 && w.now == cfg.l2TTL - 1 && w.calls == map[] && w.db == NOTHING
             && w.pods == map[0 := IDLE, 1 := IDLE] && w.l2 == map[KEY := L2Entry(STORED, cfg.l2TTL)]
    ensures RevokedAtOnce(cfg, run', steps')
    ensures var w := run[|run| - 1];
            run'[|run'| - 1] == WithL1(w, 1, map[KEY := L1Entry(HELD, w.now + cfg.l1TTL)])
  {
    StoredAnswer();
    var w := run[|run| - 1];
    var w0 := w.(calls := map[1 := Call(1, 7, 1, HELD, false, w.now)]);
    var w1 := WithL1(w0, 1, map[KEY := L1Entry(HELD, w.now + cfg.l1TTL)]);
    run', steps' := Advance(cfg, run, steps, w0, ReadL2(1, 1, 7, 1));
    run', steps' := Advance(cfg, run', steps', w1, FillL1(1));
    run', steps' := Advance(cfg, run', steps', w1.(calls := map[]), Return(1));
  }

  /** For every choice of TTLs there is a run, with instantaneous calls and no broadcast ever
      delivered, that serves a set l1TTL + l2TTL - 1 after it stopped being true. */
  lemma StalenessBoundIsReached(cfg: Config) returns (run: seq<World>, steps: seq<Step>)
    requires cfg.l2TTL > 0
    ensures Run(cfg, run, steps) && Prompt(run, 0)
    ensures var last := |run| - 1;
            && run[last].now == cfg.l1TTL + cfg.l2TTL - 1
            && Serves(run[last], 1, 7, 1, HELD) && !Origin(run, 0, last, 7, 1, HELD, 1)
  {
    run, steps := StoreThenRevoke(cfg);
    run, steps := Advance(cfg, run, steps, run[4].(now := cfg.l2TTL - 1), Tick(cfg.l2TTL - 1));
    run, steps := RefillAtTheEnd(cfg, run, steps);
    var w := run[|run| - 1];
    run, steps := Advance(cfg, run, steps, w.(now := w.now + cfg.l1TTL), Tick(cfg.l1TTL));
    OldAnswerIsNotFresh(run, 0, |run| - 1, 1);
  }

  /** Two more steps of a given list. */
  lemma ExtendTwice(cfg: Config, run: seq<World>, steps: seq<Step>, k: nat, w: World, w': World)
    returns (run': seq<World>)
    requires k + 2 <= |steps| && Run(cfg, run, steps[..k])
    requires Next(cfg, run[|run| - 1], w, steps[k]) && Next(cfg, w, w', steps[k + 1])
    ensures run' == run + [w, w'] && Run(cfg, run', steps[..k + 2])
  {
    Extend(cfg, run, steps[..k], w, steps[k]);
    Extend(cfg, run + [w], steps[..k] + [steps[k]], w', steps[k + 1]);
    run' := run + [w, w'];
    assert run' == run + [w] + [w'] && steps[..k + 2] == steps[..k] + [steps[k]] + [steps[k + 1]];
  }

  /** The steps of a lookup whose fill comes after a whole invalidation. */
  const RACE: seq<Step> :=
    [ReadDb(0, 0, 7, 1, HELD), Mutate(NOTHING), DropL2(KEY), Publish(KEY), Deliver(0, KEY), FillL1(0), Return(0)]

  /** Pod `p`, among the given ones, reads the grant; then it is removed, and the key is deleted. */
  lemma ReadThenRevoke(cfg: Config, pods: map<int, Pod>, p: int, steps: seq<Step>, w1: World) returns (run: seq<World>)
    requires p in pods && (forall q :: q in pods ==> pods[q] == IDLE)
    requires |steps| == 7 && steps[..3] == [ReadDb(0, p, 7, 1, HELD), Mutate(NOTHING), DropL2(KEY)]
    requires w1 == Start(pods).(calls := map[0 := Call(p, 7, 1, HELD, true, 0)])
    ensures run == [Start(pods), w1, w1.(db := NOTHING), w1.(db := NOTHING)] && Run(cfg, run, steps[..3])
  {
    GrantedAnswer(0);
    var w0, w2 := Start(pods), w1.(db := NOTHING);
    assert steps[0] == steps[..3][0] && steps[1] == steps[..3][1] && steps[2] == steps[..3][2];
    run := ExtendTwice(cfg, [w0], steps, 0, w1, w2);
    Extend(cfg, run, steps[..2], w2, steps[2]);
    run := run + [w2];
    assert steps[..3] == steps[..2] + [steps[2]];
  }

  /** A lookup reads the database, the grant is removed, the invalidation runs to its end and
      reaches the pod, and only then does the lookup fill L1: the pod serves the old set again. */
  lemma RacingFillDefeatsInvalidation(cfg: Config) returns (run: seq<World>)
    ensures Run(cfg, run, RACE) && |run| == 8 && run[2].db == NOTHING
    ensures run[7].calls == map[] && Serves(run[7], 0, 7, 1, HELD) && !FreshSince(run, 2, 7, 7, 1, HELD)
  {
    var w1 := Start(map[0 := IDLE]).(calls := map[0 := Call(0, 7, 1, HELD, true, 0)]);
    var w2 := w1.(db := NOTHING);
    run := ReadThenRevoke(cfg, map[0 := IDLE], 0, RACE, w1);
    run := DeliverToOne(cfg, run, w2);
    run := FillLate(cfg, run, w2);
    assert RACE[..7] == RACE;
    OldAnswerIsNotFresh(run, 2, 7, 0);
  }

  lemma DeliverToOne(cfg: Config, run: seq<World>, w: World) returns (run': seq<World>)
    requires Run(cfg, run, RACE[..3]) && run[|run| - 1] == w && w.pods == map[0 := IDLE] && w.inFlight == multiset{}
    ensures run' == run + [w.(inFlight := multiset{(0, KEY)}), w] && Run(cfg, run', RACE[..5])
  {
    CacheKeyInjective(7, 1, 7, 1);
    assert (set pod | pod in w.pods :: (pod, KEY)) == {(0, KEY)};
    run' := ExtendTwice(cfg, run, RACE, 3, w.(inFlight := multiset{(0, KEY)}), w);
  }

  lemma FillLate(cfg: Config, run: seq<World>, w: World) returns (run': seq<World>)
    requires Run(cfg, run, RACE[..5]) && run[|run| - 1] == w && w.pods == map[0 := IDLE] && w.now == 0
    requires w.calls == map[0 := Call(0, 7, 1, HELD, true, 0)]
    ensures Run(cfg, run', RACE[..7]) && run <= run' && |run'| == |run| + 2
    ensures var last := run'[|run| + 1];
            last.calls == map[] && last.db == w.db && run'[|run|].db == w.db && Serves(last, 0, 7, 1, HELD)
  {
    var w6 := WithL1(w, 0, map[KEY := L1Entry(HELD, cfg.l1TTL)]);
    run' := ExtendTwice(cfg, run, RACE, 5, w6, w6.(calls := map[]));
  }

  /** The steps of a lookup on pod 1 whose store into Redis comes after a whole invalidation. */
  const CROSS: seq<Step> :=
    [ReadDb(0, 1, 7, 1, HELD), Mutate(NOTHING), DropL2(KEY), Publish(KEY), Deliver(0, KEY), FillL2(0, STORED),
     ReadL2(1, 0, 7, 1)]

  lemma DeliverToFirst(cfg: Config, run: seq<World>, w: World) returns (run': seq<World>)
    requires Run(cfg, run, CROSS[..3]) && run[|run| - 1] == w && w.inFlight == multiset{}
    requires w.pods == map[0 := IDLE, 1 := IDLE]
    ensures Run(cfg, run', CROSS[..5])
    ensures run' == run + [w.(inFlight := multiset{(0, KEY), (1, KEY)}), w.(inFlight := multiset{(1, KEY)})]
  {
    CacheKeyInjective(7, 1, 7, 1);
    assert (set pod | pod in w.pods :: (pod, KEY)) == {(0, KEY), (1, KEY)};
    assert multiset({(0, KEY), (1, KEY)}) == multiset{(0, KEY), (1, KEY)};
    run' := ExtendTwice(cfg, run, CROSS, 3, w.(inFlight := multiset{(0, KEY), (1, KEY)}),
        w.(inFlight := multiset{(1, KEY)}));
  }

  lemma StoreLate(cfg: Config, run: seq<World>, w: World) returns (run': seq<World>)
    requires Run(cfg, run, CROSS[..5]) && run[|run| - 1] == w && w.pods == map[0 := IDLE, 1 := IDLE]
    requires cfg.l2TTL > 0 && w.now == 0 && w.l2 == map[] && w.calls == map[0 := Call(1, 7, 1, HELD, true, 0)]
    ensures Run(cfg, run', CROSS[..7]) && run <= run' && |run'| == |run| + 2
    ensures run'[|run|].db == run'[|run| + 1].db == w.db && Serves(run'[|run| + 1], 0, 7, 1, HELD)
  {
    StoredAnswer();
    var w6 := w.(l2 := map[KEY := L2Entry(STORED, cfg.l2TTL)]);
    var w7 := w6.(calls := w.calls[1 := Call(0, 7, 1, HELD, false, 0)]);
    run' := ExtendTwice(cfg, run, CROSS, 5, w6, w7);
    assert Pending(w7, 1, 0, 7, 1);
  }

  /** Pod 1 reads the database, the grant is removed, the invalidation runs to its end and reaches
      pod 0, which has nothing under way; then pod 1 stores what it read, and pod 0 serves it. */
  lemma LateStoreDefeatsInvalidation(cfg: Config) returns (run: seq<World>)
    requires cfg.l2TTL > 0
    ensures Run(cfg, run, CROSS) && |run| == 8 && run[2].db == NOTHING && PodCallsFresh(run, 2, 5, 0, 7, 1)
    ensures Serves(run[7], 0, 7, 1, HELD) && !FreshSince(run, 2, 7, 7, 1, HELD)
  {
    var w1 := Start(map[0 := IDLE, 1 := IDLE]).(calls := map[0 := Call(1, 7, 1, HELD, true, 0)]);
    var w2 := w1.(db := NOTHING);
    var w5 := w2.(inFlight := multiset{(1, KEY)});
    run := ReadThenRevoke(cfg, map[0 := IDLE, 1 := IDLE], 1, CROSS, w1);
    run := DeliverToFirst(cfg, run, w2);
    run := StoreLate(cfg, run, w5);
    assert CROSS[..7] == CROSS;
    OldAnswerIsNotFresh(run, 2, 7, 0);
  }
}
