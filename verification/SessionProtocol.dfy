/** Sessions under concurrency: a call that changes a session reads it first and saves it later, and a
    revocation drops the user's set after it has deleted the sessions; other calls come in between. */
module SessionProtocol {
  import opened Common
  import opened Sessions

  /** A call under way: one that will save the session it has changed, or a revocation that has
      deleted what it listed. */
  datatype Call = Saving(x: Session) | Dropping(ns: string, userId: int)

  /** `made` holds every session ever created, as it was then; ids are never drawn twice. */
  datatype World = World(
    now: Time, absolute: int, store: Store, calls: map<int, Call>, made: Made)

  datatype Step =
    | Tick(elapsed: nat)
    | Configure(absolute: int)
    | Create(ns: string, id: string, userId: int, tenantId: int, enroll: bool, pwd: bool)
    | Read(call: int, ns: string, id: string, change: Change)
    | Save(call: int)
    | Get(ns: string, id: string, idle: int)
    | Delete(ns: string, id: string)
    | List(ns: string, userId: int, idle: int)
    | DeleteListed(call: int, ns: string, userId: int, idle: int)
    | DropIndex(call: int)
    | Abandon(call: int)

  ghost predicate Next(w: World, w': World, step: Step) {
    match step
    case Tick(elapsed) => w' == w.(now := w.now + elapsed)
    case Configure(absolute) => w' == w.(absolute := absolute)
    case Create(ns, id, userId, tenantId, enroll, pwd) =>
      && (ns, id) !in w.made
      && var x := NewSession(ns, id, userId, tenantId, w.now, w.absolute, enroll, pwd);
      w' == w.(store := Created(w.store, x, w.now, w.absolute), made := w.made[(ns, id) := x])
    case Read(call, ns, id, change) =>
      && call !in w.calls && change != CarryMFA(None) && Lookup(w.store, ns, id, w.now).Some?
      && w' == w.(calls := w.calls[call := Saving(Changed(Lookup(w.store, ns, id, w.now).value, change, w.now))])
    case Save(call) =>
      && call in w.calls && w.calls[call].Saving?
      && w' == w.(calls := w.calls - {call}, store := Saved(w.store, w.calls[call].x, w.now))
    case Get(ns, id, idle) => w' == w.(store := AfterGet(w.store, ns, id, w.now, idle))
    case Delete(ns, id) => w' == w.(store := Deleted(w.store, ns, {id}))
    case List(ns, userId, idle) => w' == w.(store := AfterList(w.store, ns, userId, w.now, idle))
    case DeleteListed(call, ns, userId, idle) =>
      && call !in w.calls
      && w' == w.(calls := w.calls[call := Dropping(ns, userId)],
                  store := AfterDeleteListed(w.store, ns, userId, w.now, idle))
    case DropIndex(call) =>
      && call in w.calls && w.calls[call].Dropping?
      && w' == w.(calls := w.calls - {call}, store := WithoutIndex(w.store, w.calls[call].ns, w.calls[call].userId))
    case Abandon(call) => w' == w.(calls := w.calls - {call})
  }

  ghost predicate Init(w: World) {
    w.store == Store(map[], map[]) && w.calls == map[] && w.made == map[]
  }

  ghost predicate StepAt(run: seq<World>, steps: seq<Step>, i: nat)
    requires i < |steps| < |run|
  {
    Next(run[i], run[i + 1], steps[i])
  }

  ghost predicate Continues(run: seq<World>, steps: seq<Step>) {
    |run| == |steps| + 1 && forall i: nat :: i < |steps| ==> StepAt(run, steps, i)
  }

  ghost predicate Run(run: seq<World>, steps: seq<Step>) {
    Continues(run, steps) && Init(run[0])
  }

  // ---- What always holds -------------------------------------------------------------------

  /** The same session, whatever has happened to its activity and its flags. */
  predicate Same(x: Session, y: Session) {
    x == y.(lastActiveAt := x.lastActiveAt, mfaVerifiedAt := x.mfaVerifiedAt, enrollPending := x.enrollPending,
            pwdChangePending := x.pwdChangePending)
  }

  type Made = map<(string, string), Session>

  predicate Known(made: Made, x: Session) {
    (x.namespace, x.id) in made && Same(x, made[(x.namespace, x.id)])
  }

  /** No stored session and no copy was active in the future. */
  ghost predicate Dated(w: World) {
    && (forall k :: k in w.store.sessions ==> w.store.sessions[k].session.lastActiveAt <= w.now)
    && (forall call :: call in w.calls && w.calls[call].Saving? ==> w.calls[call].x.lastActiveAt <= w.now)
  }

  ghost predicate MadeSane(made: Made) {
    forall ns, id :: (ns, id) in made ==> made[(ns, id)].namespace == ns && made[(ns, id)].id == id
  }

  ghost predicate IndexSane(s: Store, made: Made) {
    forall ns, u, id :: (ns, u) in s.index && id in s.index[(ns, u)].ids ==>
      (ns, id) in made && made[(ns, id)].userId == u
  }

  ghost predicate SessionsSane(s: Store, made: Made) {
    forall ns, id :: (ns, id) in s.sessions ==> Known(made, s.sessions[(ns, id)].session)
  }

  ghost predicate CallsSane(calls: map<int, Call>, made: Made) {
    forall call :: call in calls && calls[call].Saving? ==> Known(made, calls[call].x)
  }

  /** Stored sessions and copies under way are sessions that were made, whose ids, users and times
      they keep; a user's set lists sessions of that user. */
  ghost predicate Inv(w: World) {
    && MadeSane(w.made)
    && Keyed(w.store) && SessionsSane(w.store, w.made) && IndexSane(w.store, w.made)
    && CallsSane(w.calls, w.made) && Dated(w)
  }

  /** Taking sessions and entries away harms nothing. */
  lemma FewerSane(s: Store, s': Store, made: Made)
    requires Keyed(s) && SessionsSane(s, made) && IndexSane(s, made)
    requires forall ns, id :: (ns, id) in s'.sessions ==>
      (ns, id) in s.sessions && s'.sessions[(ns, id)] == s.sessions[(ns, id)]
    requires forall ns, u :: (ns, u) in s'.index ==>
      (ns, u) in s.index && s'.index[(ns, u)].ids <= s.index[(ns, u)].ids
    ensures Keyed(s') && SessionsSane(s', made) && IndexSane(s', made)
  {
  }

  lemma CreateKeepsInv(w: World, w': World, step: Step)
    requires Inv(w) && Next(w, w', step) && step.Create?
    ensures Inv(w')
  {
    var x := w'.made[(step.ns, step.id)];
    assert forall k :: k in w.made ==> w'.made[k] == w.made[k];
    assert IndexSane(w'.store, w'.made) by {
      forall ns, u, id | (ns, u) in w'.store.index && id in w'.store.index[(ns, u)].ids
        ensures (ns, id) in w'.made && w'.made[(ns, id)].userId == u
      {
        assert (ns, u) == (step.ns, step.userId) ==> id in Listed(w.store, ns, u, w.now) + {step.id};
      }
    }
  }

  lemma SaveKeepsInv(w: World, w': World, step: Step)
    requires Inv(w) && Next(w, w', step) && (step.Save? || step.Read?)
    ensures Inv(w')
  {
  }

  lemma InvStep(w: World, w': World, step: Step)
    requires Inv(w) && Next(w, w', step)
    ensures Inv(w')
  {
    if step.Create? {
      CreateKeepsInv(w, w', step);
    } else if step.Save? || step.Read? {
      SaveKeepsInv(w, w', step);
    } else {
      FewerSane(w.store, w'.store, w.made);
    }
  }

  lemma {:induction false} Invariant(run: seq<World>, steps: seq<Step>, i: nat)
    requires Continues(run, steps) && Inv(run[0]) && i < |run|
    ensures Inv(run[i])
  {
    if i > 0 {
      Invariant(run, steps, i - 1);
      assert StepAt(run, steps, i - 1);
      InvStep(run[i - 1], run[i], steps[i - 1]);
    }
  }

  // ---- When every session can be found through its user -------------------------------------

  /** Nobody's live session would fall out of the user's set. A login must not shorten the set's time
      to live below a session's, a save must find its id in the set, a set must be empty of live
      sessions when it is dropped. */
  ghost predicate Harmless(w: World, step: Step) {
    match step
    case Create(ns, id, userId, tenantId, enroll, pwd) =>
      forall other :: Lookup(w.store, ns, other, w.now).Some?
                      && Lookup(w.store, ns, other, w.now).value.userId == userId ==>
        Lookup(w.store, ns, other, w.now).value.expiresAt <= w.now + w.absolute
    case Save(call) =>
      call in w.calls && w.calls[call].Saving? ==>
        var x := w.calls[call].x;
        || x.expiresAt <= w.now
        || (&& x.id in Listed(w.store, x.namespace, x.userId, w.now)
            && x.expiresAt <= w.store.index[(x.namespace, x.userId)].expireAt)
    case DropIndex(call) =>
      call in w.calls && w.calls[call].Dropping? ==>
        forall id :: Lookup(w.store, w.calls[call].ns, id, w.now).Some? ==>
          Lookup(w.store, w.calls[call].ns, id, w.now).value.userId != w.calls[call].userId
    case _ => true
  }

  lemma CreateCoveredIff(w: World, w': World, step: Step)
    requires Inv(w) && Covered(w.store, w.now) && Next(w, w', step) && step.Create?
    ensures Covered(w'.store, w'.now) <==> Harmless(w, step)
  {
    CreateKeepsCoveredIff(w.store, step.ns, step.id, step.userId, step.tenantId, w.now, w.absolute,
                          step.enroll, step.pwd);
  }

  lemma SaveCoveredIff(w: World, w': World, step: Step)
    requires Inv(w) && Covered(w.store, w.now) && Next(w, w', step) && step.Save?
    ensures Covered(w'.store, w'.now) <==> Harmless(w, step)
  {
    var x := w.calls[step.call].x;
    assert w'.store.index == w.store.index;
    assert forall ns, id :: (ns, id) != (x.namespace, x.id) ==>
        Lookup(w'.store, ns, id, w.now) == Lookup(w.store, ns, id, w.now);
    if x.expiresAt > w.now {
      assert Lookup(w'.store, x.namespace, x.id, w.now) == Some(x);
    } else {
      assert w'.store == w.store;
    }
  }

  lemma DropCoveredIff(w: World, w': World, step: Step)
    requires Inv(w) && Covered(w.store, w.now) && Next(w, w', step) && step.DropIndex?
    ensures Covered(w'.store, w'.now) <==> Harmless(w, step)
  {
    assert forall ns, id :: Lookup(w'.store, ns, id, w.now) == Lookup(w.store, ns, id, w.now);
  }

  /** Listing strikes off the set only what it did not find or has deleted. */
  lemma ListCovered(s: Store, ns: string, userId: int, now: Time, idle: int)
    requires Covered(s, now)
    ensures Covered(AfterList(s, ns, userId, now, idle), now)
    ensures Covered(AfterDeleteListed(s, ns, userId, now, idle), now)
  {
    var ids := Listed(s, ns, userId, now);
    var s' := AfterList(s, ns, userId, now, idle);
    forall n, id | Lookup(s', n, id, now).Some?
      ensures var x := Lookup(s', n, id, now).value;
              id in Listed(s', n, x.userId, now) && x.expiresAt <= s'.index[(n, x.userId)].expireAt
    {
      assert Lookup(s', n, id, now) == Lookup(s, n, id, now);
      if n == ns && id in ids {
        assert Visible(s, ns, id, now, idle).Some?;
      }
    }
    assert forall n, id :: Lookup(AfterDeleteListed(s, ns, userId, now, idle), n, id, now).Some? ==>
        Lookup(s', n, id, now) == Lookup(AfterDeleteListed(s, ns, userId, now, idle), n, id, now);
  }

  /** Every other step leaves each live session where it was found before. */
  lemma RestCovered(w: World, w': World, step: Step)
    requires Inv(w) && Covered(w.store, w.now) && Next(w, w', step)
    requires !step.Create? && !step.Save? && !step.DropIndex?
    ensures Covered(w'.store, w'.now)
  {
    if step.List? || step.DeleteListed? {
      ListCovered(w.store, step.ns, step.userId, w.now, step.idle);
    } else {
      assert w'.store.index == w.store.index;
      assert forall ns, id :: Lookup(w'.store, ns, id, w'.now).Some? ==>
          Lookup(w'.store, ns, id, w'.now) == Lookup(w.store, ns, id, w.now);
    }
  }

  lemma CoveredStepIff(w: World, w': World, step: Step)
    requires Inv(w) && Covered(w.store, w.now) && Next(w, w', step)
    ensures Covered(w'.store, w'.now) <==> Harmless(w, step)
  {
    if step.Create? {
      CreateCoveredIff(w, w', step);
    } else if step.Save? {
      SaveCoveredIff(w, w', step);
    } else if step.DropIndex? {
      DropCoveredIff(w, w', step);
    } else {
      RestCovered(w, w', step);
    }
  }

  lemma {:induction false} CoveredSoFar(run: seq<World>, steps: seq<Step>, i: nat)
    requires Run(run, steps) && i < |run|
    requires forall j: nat :: j < i ==> Harmless(run[j], steps[j])
    ensures Covered(run[i].store, run[i].now)
  {
    if i > 0 {
      CoveredSoFar(run, steps, i - 1);
      Invariant(run, steps, i - 1);
      assert StepAt(run, steps, i - 1);
      CoveredStepIff(run[i - 1], run[i], steps[i - 1]);
    }
  }

  /** In any run, the sets list all live sessions at all times exactly when every step is harmless. */
  lemma CoveredThroughoutIff(run: seq<World>, steps: seq<Step>)
    requires Run(run, steps)
    ensures (forall i: nat :: i < |run| ==> Covered(run[i].store, run[i].now))
            <==> (forall i: nat :: i < |steps| ==> Harmless(run[i], steps[i]))
  {
    if forall i: nat :: i < |steps| ==> Harmless(run[i], steps[i]) {
      forall i: nat | i < |run| ensures Covered(run[i].store, run[i].now) {
        CoveredSoFar(run, steps, i);
      }
    }
    if forall i: nat :: i < |run| ==> Covered(run[i].store, run[i].now) {
      forall i: nat | i < |steps| ensures Harmless(run[i], steps[i]) {
        Invariant(run, steps, i);
        assert StepAt(run, steps, i);
        assert Covered(run[i + 1].store, run[i + 1].now);
        CoveredStepIff(run[i], run[i + 1], steps[i]);
      }
    }
  }

  /** As long as every step is harmless, listing a user's sessions shows exactly those Get returns. */
  lemma ListingIsComplete(run: seq<World>, steps: seq<Step>, i: nat, ns: string, userId: int, idle: int, id: string)
    requires Run(run, steps) && i < |run|
    requires forall j: nat :: j < i ==> Harmless(run[j], steps[j])
    ensures var s, now := run[i].store, run[i].now;
            id in Shown(s, ns, Listed(s, ns, userId, now), now, idle)
            <==> Visible(s, ns, id, now, idle).Some? && Visible(s, ns, id, now, idle).value.userId == userId
  {
    CoveredSoFar(run, steps, i);
    Invariant(run, steps, i);
  }

  // ---- Revocation ---------------------------------------------------------------------------

  /** What a revocation deletes is what the user's set lists, and nothing else. */
  lemma RevocationDeletesListed(w: World, w': World, step: Step, ns: string, id: string)
    requires Next(w, w', step) && step.DeleteListed?
    ensures Lookup(w'.store, ns, id, w'.now)
            == if ns == step.ns && id in Listed(w.store, ns, step.userId, w.now) then None
               else Lookup(w.store, ns, id, w.now)
  {
    if ns == step.ns && id in Listed(w.store, ns, step.userId, w.now) {
      if Lookup(w.store, ns, id, w.now).Some? {
        assert id in Shown(w.store, ns, Listed(w.store, ns, step.userId, w.now), w.now, step.idle)
               || id in Present(w.store, ns, Listed(w.store, ns, step.userId, w.now), w.now);
      }
    }
  }

  /** The user is left without a live session exactly when all of them were listed. */
  lemma RevocationIsCompleteIff(w: World, w': World, step: Step)
    requires Next(w, w', step) && step.DeleteListed?
    ensures (forall id :: Lookup(w'.store, step.ns, id, w'.now).Some? ==>
               Lookup(w'.store, step.ns, id, w'.now).value.userId != step.userId)
            <==> (forall id :: Lookup(w.store, step.ns, id, w.now).Some?
                               && Lookup(w.store, step.ns, id, w.now).value.userId == step.userId ==>
                    id in Listed(w.store, step.ns, step.userId, w.now))
  {
    forall id ensures Lookup(w'.store, step.ns, id, w'.now)
                      == if id in Listed(w.store, step.ns, step.userId, w.now) then None
                         else Lookup(w.store, step.ns, id, w.now) {
      RevocationDeletesListed(w, w', step, step.ns, id);
    }
  }

  /** So it is as long as every step before was harmless, and no other user loses a session. */
  lemma RevocationIsComplete(run: seq<World>, steps: seq<Step>, i: nat, ns: string, id: string)
    requires Run(run, steps) && i < |steps| && steps[i].DeleteListed?
    requires forall j: nat :: j < i ==> Harmless(run[j], steps[j])
    ensures var was := Lookup(run[i].store, ns, id, run[i].now);
            Lookup(run[i + 1].store, ns, id, run[i + 1].now)
            == if was.Some? && ns == steps[i].ns && was.value.userId == steps[i].userId then None else was
  {
    CoveredSoFar(run, steps, i);
    Invariant(run, steps, i);
    assert StepAt(run, steps, i);
    RevocationDeletesListed(run[i], run[i + 1], steps[i], ns, id);
  }

  // ---- What comes back ----------------------------------------------------------------------

  /** A call has read this session before it was removed and can still write it. */
  ghost predicate CopyUnderWay(w: World, ns: string, id: string) {
    exists call :: call in w.calls && w.calls[call].Saving? && Writes(w.calls[call].x, ns, id, w.now)
  }

  predicate Writes(x: Session, ns: string, id: string, now: Time) {
    x.namespace == ns && x.id == id && x.expiresAt > now
  }

  ghost predicate Gone(w: World, ns: string, id: string) {
    (ns, id) in w.made && Lookup(w.store, ns, id, w.now).None? && !CopyUnderWay(w, ns, id)
  }

  lemma CopiesFrom(w: World, w': World, step: Step, ns: string, id: string)
    requires Inv(w) && Next(w, w', step) && Lookup(w.store, ns, id, w.now).None? && CopyUnderWay(w', ns, id)
    ensures CopyUnderWay(w, ns, id)
  {
    var call :| call in w'.calls && w'.calls[call].Saving? && Writes(w'.calls[call].x, ns, id, w'.now);
    assert call in w.calls && w.calls[call] == w'.calls[call];
    assert Writes(w.calls[call].x, ns, id, w.now);
  }

  lemma GoneStep(w: World, w': World, step: Step, ns: string, id: string)
    requires Inv(w) && Gone(w, ns, id) && Next(w, w', step)
    ensures Gone(w', ns, id)
  {
    if CopyUnderWay(w', ns, id) {
      CopiesFrom(w, w', step, ns, id);
    }
    if step.Save? {
      assert !Writes(w.calls[step.call].x, ns, id, w.now);
    }
  }

  lemma {:induction false} GoneRun(run: seq<World>, steps: seq<Step>, i: nat, ns: string, id: string)
    requires Continues(run, steps) && Inv(run[0]) && Gone(run[0], ns, id) && i < |run|
    ensures Gone(run[i], ns, id)
  {
    if i > 0 {
      GoneRun(run, steps, i - 1, ns, id);
      Invariant(run, steps, i - 1);
      assert StepAt(run, steps, i - 1);
      GoneStep(run[i - 1], run[i], steps[i - 1], ns, id);
    }
  }

  ghost predicate Reaches(w: World, w': World) {
    exists run, steps :: Continues(run, steps) && run[0] == w && run[|run| - 1] == w'
  }

  lemma ReachesNext(w: World, w': World, w'': World, step: Step)
    requires Reaches(w, w') && Next(w', w'', step)
    ensures Reaches(w, w'')
  {
    var run, steps :| Continues(run, steps) && run[0] == w && run[|run| - 1] == w';
    var run', steps' := run + [w''], steps + [step];
    forall i: nat | i < |steps'| ensures StepAt(run', steps', i) {
      assert i < |steps| ==> StepAt(run, steps, i);
    }
    assert Continues(run', steps');
  }

  lemma ReachesItself(w: World)
    ensures Reaches(w, w)
  {
    assert Continues([w], []);
  }

  /** The save puts the session back, and touching it makes it visible whatever its age. */
  lemma CopyComesBack(w: World, ns: string, id: string, idle: int) returns (w': World)
    requires Inv(w) && CopyUnderWay(w, ns, id) && idle >= 0
    ensures Reaches(w, w') && Visible(w'.store, ns, id, w'.now, idle).Some?
  {
    var call :| call in w.calls && w.calls[call].Saving? && Writes(w.calls[call].x, ns, id, w.now);
    var x := w.calls[call].x;
    ReachesItself(w);
    var saved := w.(calls := w.calls - {call}, store := Saved(w.store, x, w.now));
    ReachesNext(w, w, saved, Save(call));
    var touched := Changed(x, TouchIt, w.now);
    assert Lookup(saved.store, ns, id, w.now) == Some(x);
    var read := saved.(calls := saved.calls[call := Saving(touched)]);
    ReachesNext(w, saved, read, Read(call, ns, id, TouchIt));
    w' := read.(calls := read.calls - {call}, store := Saved(read.store, touched, w.now));
    ReachesNext(w, read, w', Save(call));
    assert Lookup(w'.store, ns, id, w.now) == Some(touched);
  }

  /** A session that is not there, logged out or revoked or expired, is never returned again exactly
      when no call has a copy of it to save. */
  lemma StaysGoneIff(w: World, ns: string, id: string, idle: int)
    requires Inv(w) && (ns, id) in w.made && Lookup(w.store, ns, id, w.now).None?
    ensures (forall w' :: Reaches(w, w') ==> Visible(w'.store, ns, id, w'.now, idle).None?)
            <==> idle < 0 || !CopyUnderWay(w, ns, id)
  {
    if idle >= 0 && CopyUnderWay(w, ns, id) {
      var w' := CopyComesBack(w, ns, id, idle);
    } else {
      forall w' | Reaches(w, w') ensures Visible(w'.store, ns, id, w'.now, idle).None? {
        var run, steps :| Continues(run, steps) && run[0] == w && run[|run| - 1] == w';
        Invariant(run, steps, |run| - 1);
        if !CopyUnderWay(w, ns, id) {
          GoneRun(run, steps, |run| - 1, ns, id);
        }
      }
    }
  }

  /** None of the sessions a revocation lists is ever returned again, in any continuation, exactly
      when no call under way has read one of them and can still save it. */
  lemma RevocationIsFinalIff(w: World, w': World, step: Step, idle: int)
    requires Inv(w) && Next(w, w', step) && step.DeleteListed?
    ensures (forall w'', id :: Reaches(w', w'') && id in Listed(w.store, step.ns, step.userId, w.now) ==>
               Visible(w''.store, step.ns, id, w''.now, idle).None?)
            <==> idle < 0
                 || (forall id :: id in Listed(w.store, step.ns, step.userId, w.now) ==>
                       !CopyUnderWay(w, step.ns, id))
  {
    InvStep(w, w', step);
    forall id | id in Listed(w.store, step.ns, step.userId, w.now)
      ensures (forall w'' :: Reaches(w', w'') ==> Visible(w''.store, step.ns, id, w''.now, idle).None?)
              <==> idle < 0 || !CopyUnderWay(w, step.ns, id)
    {
      RevocationDeletesListed(w, w', step, step.ns, id);
      StaysGoneIff(w', step.ns, id, idle);
      SameCopies(w, w', step, step.ns, id);
    }
  }

  lemma SameCopies(w: World, w': World, step: Step, ns: string, id: string)
    requires Next(w, w', step) && step.DeleteListed?
    ensures CopyUnderWay(w', ns, id) <==> CopyUnderWay(w, ns, id)
  {
    assert forall call :: call in w.calls ==> call in w'.calls && w'.calls[call] == w.calls[call];
    assert forall call :: call in w'.calls && w'.calls[call].Saving? ==>
        call in w.calls && w'.calls[call] == w.calls[call];
  }

  /** A touch reads the session, its user's sessions are revoked, and the touch is saved: the session
      is back, and listing or revoking the user's sessions does not find it. */
  lemma TouchUndoesRevocation(ns: string, id: string, userId: int, absolute: int, idle: int)
    returns (run: seq<World>, steps: seq<Step>)
    requires absolute > 0 && idle >= 0
    ensures Run(run, steps) && run[0].absolute == absolute
    ensures steps == [Create(ns, id, userId, 0, false, false), Read(0, ns, id, TouchIt),
                      DeleteListed(1, ns, userId, idle), DropIndex(1), Save(0)]
    ensures Visible(run[4].store, ns, id, run[4].now, idle).None?
    ensures Visible(run[5].store, ns, id, run[5].now, idle).Some? && Listed(run[5].store, ns, userId, run[5].now) == {}
  {
    var x := NewSession(ns, id, userId, 0, 0, absolute, false, false);
    var w0 := World(0, absolute, Store(map[], map[]), map[], map[]);
    var w1 := w0.(store := Created(w0.store, x, 0, absolute), made := map[(ns, id) := x]);
    var w2 := w1.(calls := map[0 := Saving(x)]);
    var w3 := w2.(calls := map[0 := Saving(x), 1 := Dropping(ns, userId)],
                  store := AfterDeleteListed(w2.store, ns, userId, 0, idle));
    var w4 := w3.(calls := w3.calls - {1}, store := WithoutIndex(w3.store, ns, userId));
    var w5 := w4.(calls := w4.calls - {0}, store := Saved(w4.store, x, 0));
    run := [w0, w1, w2, w3, w4, w5];
    steps := [Create(ns, id, userId, 0, false, false), Read(0, ns, id, TouchIt),
              DeleteListed(1, ns, userId, idle), DropIndex(1), Save(0)];
    assert Lookup(w1.store, ns, id, 0) == Some(x) && Changed(x, TouchIt, 0) == x;
    assert StepAt(run, steps, 0) && StepAt(run, steps, 1) && StepAt(run, steps, 2);
    assert StepAt(run, steps, 3) && StepAt(run, steps, 4);
    assert id in Listed(w2.store, ns, userId, 0);
    RevocationDeletesListed(w2, w3, steps[2], ns, id);
    assert w4.calls[0] == Saving(x);
  }

  /** A login between the two halves of a revocation: the new session outlives the set that lists it. */
  lemma LoginDuringRevocation(ns: string, id: string, userId: int, absolute: int, idle: int)
    returns (run: seq<World>, steps: seq<Step>)
    requires absolute > 0 && idle >= 0
    ensures Run(run, steps) && run[0].absolute == absolute
    ensures steps == [DeleteListed(0, ns, userId, idle), Create(ns, id, userId, 0, false, false), DropIndex(0)]
    ensures Visible(run[3].store, ns, id, run[3].now, idle).Some? && Listed(run[3].store, ns, userId, run[3].now) == {}
  {
    var x := NewSession(ns, id, userId, 0, 0, absolute, false, false);
    var w0 := World(0, absolute, Store(map[], map[]), map[], map[]);
    var w1 := w0.(calls := map[0 := Dropping(ns, userId)], store := AfterDeleteListed(w0.store, ns, userId, 0, idle));
    var w2 := w1.(store := Created(w1.store, x, 0, absolute), made := map[(ns, id) := x]);
    var w3 := w2.(calls := w2.calls - {0}, store := WithoutIndex(w2.store, ns, userId));
    run := [w0, w1, w2, w3];
    steps := [DeleteListed(0, ns, userId, idle), Create(ns, id, userId, 0, false, false), DropIndex(0)];
    assert StepAt(run, steps, 0) && StepAt(run, steps, 1) && StepAt(run, steps, 2);
    assert Lookup(w3.store, ns, id, 0) == Some(x);
  }

  // ---- Where a session comes from -------------------------------------------------------------

  /** The step that made the session with this id, which no other step did. */
  ghost predicate MadeBy(run: seq<World>, steps: seq<Step>, n: nat, x: Session)
    requires n < |steps| < |run|
  {
    && steps[n].Create? && steps[n].ns == x.namespace && steps[n].id == x.id
    && Same(x, NewSession(x.namespace, x.id, steps[n].userId, steps[n].tenantId, run[n].now, run[n].absolute,
                          steps[n].enroll, steps[n].pwd))
  }

  lemma {:induction false} MadeOnce(run: seq<World>, steps: seq<Step>, i: nat, ns: string, id: string) returns (n: nat)
    requires Run(run, steps) && i < |run| && (ns, id) in run[i].made
    ensures n < i && MadeBy(run, steps, n, run[i].made[(ns, id)]) && run[n].now <= run[i].now
    ensures forall m: nat :: m < i && steps[m].Create? && steps[m].ns == ns && steps[m].id == id ==> m == n
  {
    assert StepAt(run, steps, i - 1);
    Invariant(run, steps, i);
    if (ns, id) in run[i - 1].made {
      n := MadeOnce(run, steps, i - 1, ns, id);
    } else {
      n := i - 1;
      NeverBefore(run, steps, i - 1, ns, id);
    }
  }

  lemma {:induction false} NeverBefore(run: seq<World>, steps: seq<Step>, i: nat, ns: string, id: string)
    requires Run(run, steps) && i < |run| && (ns, id) !in run[i].made
    ensures forall m: nat :: m < i ==> !(steps[m].Create? && steps[m].ns == ns && steps[m].id == id)
  {
    if i > 0 {
      assert StepAt(run, steps, i - 1);
      NeverBefore(run, steps, i - 1, ns, id);
    }
  }

  /** Stored, or about to be. */
  ghost predicate Held(w: World, x: Session) {
    || (exists ns, id :: (ns, id) in w.store.sessions && w.store.sessions[(ns, id)].session == x)
    || (exists call :: call in w.calls && w.calls[call] == Saving(x))
  }

  /** Every stored session, and every copy a call is about to save, was made by one login of the run,
      and still has its user, tenant, creation time and expiry. */
  lemma EverySessionFounded(run: seq<World>, steps: seq<Step>, i: nat, x: Session) returns (n: nat)
    requires Run(run, steps) && i < |run|
    requires Held(run[i], x)
    ensures n < i && MadeBy(run, steps, n, x) && run[n].now <= run[i].now
    ensures forall m: nat :: m < i && steps[m].Create? && steps[m].ns == x.namespace && steps[m].id == x.id ==> m == n
  {
    Invariant(run, steps, i);
    assert Known(run[i].made, x);
    n := MadeOnce(run, steps, i, x.namespace, x.id);
  }

  /** However often it is touched or saved late, no session is returned once the timeout in force at
      its login has passed since then. */
  lemma NeverOutlivesTimeout(run: seq<World>, steps: seq<Step>, i: nat, ns: string, id: string, idle: int)
    returns (n: nat)
    requires Run(run, steps) && i < |run| && Visible(run[i].store, ns, id, run[i].now, idle).Some?
    ensures n < i && MadeBy(run, steps, n, Visible(run[i].store, ns, id, run[i].now, idle).value)
    ensures run[n].now <= run[i].now < run[n].now + run[n].absolute
  {
    Invariant(run, steps, i);
    assert Held(run[i], Visible(run[i].store, ns, id, run[i].now, idle).value);
    n := EverySessionFounded(run, steps, i, Visible(run[i].store, ns, id, run[i].now, idle).value);
  }

  // ---- Activity and flags -------------------------------------------------------------------------

  /** What a login with these verdicts of the two gates sets. */
  predicate AsMade(change: Change, enroll: bool, pwd: bool) {
    match change
    case TouchIt => true
    case MarkMFA => false
    case CarryMFA(at) => at.None?
    case SetEnroll(pending) => pending == enroll
    case SetPwd(pending) => pending == pwd
  }

  /** Step `n` read the session for this change, or made it with what the change would set. */
  ghost predicate SetAt(run: seq<World>, steps: seq<Step>, n: nat, x: Session, change: Change)
    requires n < |steps| < |run|
  {
    match steps[n]
    case Create(ns, id, _, _, enroll, pwd) => (ns, id) == (x.namespace, x.id) && AsMade(change, enroll, pwd)
    case Read(_, ns, id, made) => (ns, id) == (x.namespace, x.id) && made == change
    case _ => false
  }

  /** A session held after a step was made by it, or was held before it, or is what the step's change
      made of one that was. */
  lemma HeldBefore(w: World, w': World, step: Step, x: Session) returns (y: Session)
    requires Inv(w) && Next(w, w', step) && Held(w', x)
    ensures || (&& step.Create?
                && x == NewSession(step.ns, step.id, step.userId, step.tenantId, w.now, w.absolute, step.enroll,
                                   step.pwd))
            || (Held(w, y) && x == y)
            || (&& Held(w, y) && step.Read? && (step.ns, step.id) == (x.namespace, x.id) == (y.namespace, y.id)
                && x == Changed(y, step.change, w.now))
  {
    y := x;
    if step.Read? {
      if Saving(x) == w'.calls[step.call] {
        y := Lookup(w.store, step.ns, step.id, w.now).value;
        assert Held(w, y);
      }
    } else if step.Save? {
      assert Held(w, w.calls[step.call].x);
    }
  }

  /** The last activity of every stored session and pending copy is the time of its login or of a
      touch. */
  lemma {:induction false} ActivityIsReal(run: seq<World>, steps: seq<Step>, i: nat, x: Session) returns (n: nat)
    requires Run(run, steps) && i < |run| && Held(run[i], x)
    ensures n < i && SetAt(run, steps, n, x, TouchIt) && x.lastActiveAt == run[n].now
  {
    assert StepAt(run, steps, i - 1);
    Invariant(run, steps, i - 1);
    var y := HeldBefore(run[i - 1], run[i], steps[i - 1], x);
    if Held(run[i - 1], y) && x.lastActiveAt == y.lastActiveAt && (x.namespace, x.id) == (y.namespace, y.id) {
      n := ActivityIsReal(run, steps, i - 1, y);
    } else {
      n := i - 1;
    }
  }

  /** Its two pending flags are those of its login, or were set by calls of their own. */
  lemma {:induction false} FlagsAreReal(run: seq<World>, steps: seq<Step>, i: nat, x: Session) returns (n: nat, m: nat)
    requires Run(run, steps) && i < |run| && Held(run[i], x)
    ensures n < i && SetAt(run, steps, n, x, SetEnroll(x.enrollPending))
    ensures m < i && SetAt(run, steps, m, x, SetPwd(x.pwdChangePending))
  {
    assert StepAt(run, steps, i - 1);
    Invariant(run, steps, i - 1);
    var step := steps[i - 1];
    var y := HeldBefore(run[i - 1], run[i], step, x);
    if Held(run[i - 1], y) && (x.namespace, x.id) == (y.namespace, y.id) && (x == y || step.Read?) {
      n, m := FlagsAreReal(run, steps, i - 1, y);
      if x != y && step.change.SetEnroll? {
        n := i - 1;
      } else if x != y && step.change.SetPwd? {
        m := i - 1;
      }
    } else {
      n, m := i - 1, i - 1;
    }
  }

  /** Its second factor was never shown, or was marked or carried over by a call at the time it says. */
  lemma {:induction false} MfaIsReal(run: seq<World>, steps: seq<Step>, i: nat, x: Session) returns (n: nat)
    requires Run(run, steps) && i < |run| && Held(run[i], x)
    ensures n < i
    ensures || SetAt(run, steps, n, x, CarryMFA(x.mfaVerifiedAt))
            || (SetAt(run, steps, n, x, MarkMFA) && x.mfaVerifiedAt == Some(run[n].now))
  {
    assert StepAt(run, steps, i - 1);
    Invariant(run, steps, i - 1);
    var step := steps[i - 1];
    var y := HeldBefore(run[i - 1], run[i], step, x);
    if Held(run[i - 1], y) && (x.namespace, x.id) == (y.namespace, y.id) && x.mfaVerifiedAt == y.mfaVerifiedAt {
      n := MfaIsReal(run, steps, i - 1, y);
    } else {
      n := i - 1;
    }
  }

  // ---- The idle timeout ---------------------------------------------------------------------------

  /** A session that is returned was made or touched, in the same run, at most the idle timeout ago. */
  lemma NeverOutlivesIdleness(run: seq<World>, steps: seq<Step>, i: nat, ns: string, id: string, idle: int)
    returns (n: nat)
    requires Run(run, steps) && i < |run| && Visible(run[i].store, ns, id, run[i].now, idle).Some?
    ensures n < i && run[i].now <= run[n].now + idle
    ensures SetAt(run, steps, n, Visible(run[i].store, ns, id, run[i].now, idle).value, TouchIt)
    ensures steps[n].ns == ns && steps[n].id == id && (steps[n].Create? || steps[n].change == TouchIt)
  {
    Invariant(run, steps, i);
    assert Held(run[i], Visible(run[i].store, ns, id, run[i].now, idle).value);
    n := ActivityIsReal(run, steps, i, Visible(run[i].store, ns, id, run[i].now, idle).value);
  }

  /** And a stored session is returned as long as its last activity is no older than that and its
      expiry has not come: these two, and nothing else, end it. */
  lemma ReturnedWhileActive(run: seq<World>, steps: seq<Step>, i: nat, ns: string, id: string, idle: int)
    requires Run(run, steps) && i < |run| && (ns, id) in run[i].store.sessions
    ensures var x := run[i].store.sessions[(ns, id)].session;
            Visible(run[i].store, ns, id, run[i].now, idle)
            == if run[i].now - x.lastActiveAt <= idle && run[i].now < x.expiresAt then Some(x) else None
  {
    Invariant(run, steps, i);
  }

  // ---- One call at a time ---------------------------------------------------------------------------

  /** A change that nothing comes in between is its read and its save. A live session can always be
      read for one, unless there is no time to carry over; otherwise the call does nothing. */
  lemma ModifyInTwo(w: World, call: int, ns: string, id: string, change: Change)
    requires call !in w.calls
    ensures forall read, w' :: Next(w, read, Read(call, ns, id, change)) && Next(read, w', Save(call)) ==>
              w'.store == Modified(w.store, ns, id, change, w.now)
    ensures (exists read :: Next(w, read, Read(call, ns, id, change)))
            <==> Lookup(w.store, ns, id, w.now).Some? && change != CarryMFA(None)
    ensures !(exists read :: Next(w, read, Read(call, ns, id, change))) ==>
              Modified(w.store, ns, id, change, w.now) == w.store
  {
    if Lookup(w.store, ns, id, w.now).Some? && change != CarryMFA(None) {
      var x := Changed(Lookup(w.store, ns, id, w.now).value, change, w.now);
      assert Next(w, w.(calls := w.calls[call := Saving(x)]), Read(call, ns, id, change));
    }
  }
}
