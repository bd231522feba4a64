/** The session store: one Redis key per session, and one set per user that lists the user's
    session ids so that all of them can be found again and revoked. */
module Sessions {
  import opened Common

  datatype Session = Session(
    id: string, userId: int, tenantId: int, namespace: string, createdAt: Time, expiresAt: Time, lastActiveAt: Time,
    mfaVerifiedAt: Option<Time>, enrollPending: bool, pwdChangePending: bool)

  datatype Stored = Stored(session: Session, expireAt: Time)

  datatype Index = Index(ids: set<string>, expireAt: Time)

  /** Redis, keyed by (namespace, session id) and by (namespace, user id). */
  datatype Store = Store(sessions: map<(string, string), Stored>, index: map<(string, int), Index>)

  /** The key's value while it lives. */
  function Lookup(s: Store, ns: string, id: string, now: Time): Option<Session> {
    if (ns, id) in s.sessions && now < s.sessions[(ns, id)].expireAt then Some(s.sessions[(ns, id)].session) else None
  }

  function Listed(s: Store, ns: string, userId: int, now: Time): set<string> {
    if (ns, userId) in s.index && now < s.index[(ns, userId)].expireAt then s.index[(ns, userId)].ids else {}
  }

  predicate Expired(x: Session, now: Time, idle: int) { now > x.expiresAt || now > x.lastActiveAt + idle }

  /** What Get returns. */
  function Visible(s: Store, ns: string, id: string, now: Time, idle: int): Option<Session> {
    var x := Lookup(s, ns, id, now);
    if x.Some? && !Expired(x.value, now, idle) then x else None
  }

  /** Writes a session under its own key, to vanish at its own expiry; a session past it is not written. */
  function Saved(s: Store, x: Session, now: Time): Store {
    if x.expiresAt - now <= 0 then s
    else s.(sessions := s.sessions[(x.namespace, x.id) := Stored(x, x.expiresAt)])
  }

  function NewSession(ns: string, id: string, userId: int, tenantId: int, now: Time, absolute: int,
                      enroll: bool, pwd: bool): Session {
    Session(id, userId, tenantId, ns, now, now + absolute, now, None, enroll, pwd)
  }

  /** Adds the id to the user's set and restarts the set's time to live; one that is not
      positive deletes the set. */
  function Indexed(s: Store, ns: string, userId: int, id: string, now: Time, absolute: int): Store {
    if absolute <= 0 then s.(index := s.index - {(ns, userId)})
    else s.(index := s.index[(ns, userId) := Index(Listed(s, ns, userId, now) + {id}, now + absolute)])
  }

  function Created(s: Store, x: Session, now: Time, absolute: int): Store {
    Indexed(Saved(s, x, now), x.namespace, x.userId, x.id, now, absolute)
  }

  datatype Change = TouchIt | MarkMFA | CarryMFA(at: Option<Time>) | SetEnroll(pending: bool) | SetPwd(pending: bool)

  function Changed(x: Session, change: Change, now: Time): Session {
    match change
    case TouchIt => x.(lastActiveAt := now)
    case MarkMFA => x.(mfaVerifiedAt := Some(now))
    case CarryMFA(at) => x.(mfaVerifiedAt := at)
    case SetEnroll(pending) => x.(enrollPending := pending)
    case SetPwd(pending) => x.(pwdChangePending := pending)
  }

  /** Carrying over an MFA time that was never set does nothing. */
  function Modified(s: Store, ns: string, id: string, change: Change, now: Time): Store {
    var x := Lookup(s, ns, id, now);
    if x.None? || change == CarryMFA(None) then s else Saved(s, Changed(x.value, change, now), now)
  }

  function Deleted(s: Store, ns: string, ids: set<string>): Store {
    s.(sessions := s.sessions - (set id | id in ids :: (ns, id)))
  }

  /** Get deletes what it finds expired. */
  function AfterGet(s: Store, ns: string, id: string, now: Time, idle: int): Store {
    if Lookup(s, ns, id, now).Some? && Visible(s, ns, id, now, idle).None? then Deleted(s, ns, {id}) else s
  }

  function Present(s: Store, ns: string, ids: set<string>, now: Time): set<string> {
    set id | id in ids && Lookup(s, ns, id, now).Some?
  }

  function Shown(s: Store, ns: string, ids: set<string>, now: Time, idle: int): set<string> {
    set id | id in ids && Visible(s, ns, id, now, idle).Some?
  }

  /** Listing, after it has worked through the entries in `done`: those with nothing to show have
      left the set, and those found expired are deleted. */
  function AfterListOf(s: Store, ns: string, userId: int, done: set<string>, now: Time, idle: int): Store {
    var ids := Listed(s, ns, userId, now);
    var shown := Shown(s, ns, ids, now, idle);
    var kept := Deleted(s, ns, Present(s, ns, done, now) - shown);
    if ids == {} then kept
    else kept.(index := kept.index[(ns, userId) := Index(ids - (done - shown), kept.index[(ns, userId)].expireAt)])
  }

  function AfterList(s: Store, ns: string, userId: int, now: Time, idle: int): Store {
    AfterListOf(s, ns, userId, Listed(s, ns, userId, now), now, idle)
  }

  /** A revocation lists the user's sessions and deletes them; the set itself goes last. */
  function AfterDeleteListed(s: Store, ns: string, userId: int, now: Time, idle: int): Store {
    Deleted(AfterList(s, ns, userId, now, idle), ns, Shown(s, ns, Listed(s, ns, userId, now), now, idle))
  }

  function WithoutIndex(s: Store, ns: string, userId: int): Store { s.(index := s.index - {(ns, userId)}) }

  function AfterDeleteAll(s: Store, ns: string, userId: int, now: Time): Store {
    var gone := Deleted(s, ns, Present(s, ns, Listed(s, ns, userId, now), now));
    gone.(index := gone.index - {(ns, userId)})
  }

  lemma DeleteAllInTwo(s: Store, ns: string, userId: int, now: Time, idle: int)
    ensures WithoutIndex(AfterDeleteListed(s, ns, userId, now, idle), ns, userId) == AfterDeleteAll(s, ns, userId, now)
  {
    var ids := Listed(s, ns, userId, now);
    var shown := Shown(s, ns, ids, now, idle);
    assert (Present(s, ns, ids, now) - shown) + shown == Present(s, ns, ids, now);
    var both := WithoutIndex(AfterDeleteListed(s, ns, userId, now, idle), ns, userId);
    assert both.sessions == AfterDeleteAll(s, ns, userId, now).sessions;
    assert both.index == AfterDeleteAll(s, ns, userId, now).index;
  }

  // ---- Every session can be found through its user ---------------------------------------

  /** Each live session is in its user's set, and the set outlives it. */
  ghost predicate Covered(s: Store, now: Time) {
    forall ns, id :: Lookup(s, ns, id, now).Some? ==>
      var x := Lookup(s, ns, id, now).value;
      id in Listed(s, ns, x.userId, now) && x.expiresAt <= s.index[(ns, x.userId)].expireAt
  }

  /** Keys match the sessions under them, which are stored until their own expiry. */
  ghost predicate Keyed(s: Store) {
    forall ns, id :: (ns, id) in s.sessions ==>
      var e := s.sessions[(ns, id)];
      e.session.id == id && e.session.namespace == ns && e.expireAt == e.session.expiresAt
  }

  /** Creating a session keeps the user's others covered exactly when they all end no later than
      the set's new time to live, which a shorter timeout may cut off. */
  lemma CreateKeepsCoveredIff(s: Store, ns: string, id: string, userId: int, tenantId: int, now: Time, absolute: int,
                              enroll: bool, pwd: bool)
    requires Covered(s, now) && (absolute > 0 || Keyed(s)) && (ns, id) !in s.sessions
    ensures Covered(Created(s, NewSession(ns, id, userId, tenantId, now, absolute, enroll, pwd), now, absolute), now)
            <==> (forall other :: Lookup(s, ns, other, now).Some? && Lookup(s, ns, other, now).value.userId == userId
                                  ==> Lookup(s, ns, other, now).value.expiresAt <= now + absolute)
  {
    var x := NewSession(ns, id, userId, tenantId, now, absolute, enroll, pwd);
    var s' := Created(s, x, now, absolute);
    assert Lookup(s', ns, id, now) == if absolute > 0 then Some(x) else None;
    assert forall n, k :: (n, k) != (ns, id) ==> Lookup(s', n, k, now) == Lookup(s, n, k, now);
    assert forall n, u :: (n, u) != (ns, userId) ==> Listed(s', n, u, now) == Listed(s, n, u, now);
    if Covered(s', now) {
      forall other | Lookup(s, ns, other, now).Some? && Lookup(s, ns, other, now).value.userId == userId
        ensures Lookup(s, ns, other, now).value.expiresAt <= now + absolute
      {
        assert Lookup(s', ns, other, now).Some?;
      }
    }
  }

  /** A timeout of 100 and then one of 10: at time 12 the first session is live and its user's set
      is gone, so revoking all of the user's sessions misses it. */
  lemma ShrinkingTimeoutStrandsASession() returns (s: Store)
    ensures var first := Created(Store(map[], map[]), NewSession("ns", "a", 1, 7, 0, 100, false, false), 0, 100);
            s == Created(first, NewSession("ns", "b", 1, 7, 1, 10, false, false), 1, 10)
    ensures Visible(AfterDeleteAll(s, "ns", 1, 12), "ns", "a", 12, 1000).Some?
  {
    var a, b := NewSession("ns", "a", 1, 7, 0, 100, false, false), NewSession("ns", "b", 1, 7, 1, 10, false, false);
    s := Created(Created(Store(map[], map[]), a, 0, 100), b, 1, 10);
    assert Listed(s, "ns", 1, 12) == {};
    assert Lookup(s, "ns", "a", 12) == Some(a);
  }

  /** A login is in its user's set for exactly the timeout in force then. */
  lemma ListedForTheTimeout(s: Store, x: Session, now: Time, absolute: int, later: Time)
    requires now <= later
    ensures x.id in Listed(Created(s, x, now, absolute), x.namespace, x.userId, later) <==> later < now + absolute
  {
  }

  /** Every change sets what it names and leaves the rest of the session. */
  lemma ChangesOneField(x: Session, change: Change, now: Time)
    ensures var y := Changed(x, change, now);
            && (y.id, y.userId, y.tenantId, y.namespace) == (x.id, x.userId, x.tenantId, x.namespace)
            && (y.createdAt, y.expiresAt) == (x.createdAt, x.expiresAt)
            && y.lastActiveAt == (if change.TouchIt? then now else x.lastActiveAt)
            && y.mfaVerifiedAt == (if change.MarkMFA? then Some(now) else if change.CarryMFA? then change.at
                                   else x.mfaVerifiedAt)
            && y.enrollPending == (if change.SetEnroll? then change.pending else x.enrollPending)
            && y.pwdChangePending == (if change.SetPwd? then change.pending else x.pwdChangePending)
  {
  }

  // ---- The manager object ------------------------------------------------------------------

  lemma AfterListStart(s: Store, ns: string, userId: int, now: Time, idle: int)
    ensures AfterListOf(s, ns, userId, {}, now, idle) == s
  {
    var ids := Listed(s, ns, userId, now);
    var none: set<string> := {};
    assert none - Shown(s, ns, ids, now, idle) == {} && Present(s, ns, {}, now) == {};
    assert Deleted(s, ns, {}).sessions == s.sessions;
    if ids != {} {
      assert ids - none == ids;
      assert s.index[(ns, userId) := s.index[(ns, userId)]] == s.index;
    }
  }

  lemma AfterListOneMore(s: Store, ns: string, userId: int, done: set<string>, id: string, now: Time, idle: int)
    requires id in Listed(s, ns, userId, now) && id !in done
    ensures var before, after := AfterListOf(s, ns, userId, done, now, idle),
        AfterListOf(s, ns, userId, done + {id}, now, idle);
            && Lookup(before, ns, id, now) == Lookup(s, ns, id, now)
            && AfterGet(before, ns, id, now, idle).sessions == after.sessions
            && (ns, userId) in before.index && before.index[(ns, userId)].ids <= Listed(s, ns, userId, now)
            && (if Visible(s, ns, id, now, idle).Some? then after.index == before.index
                else after.index == before.index[
                    (ns, userId) := before.index[(ns, userId)].(ids := before.index[(ns, userId)].ids - {id})])
  {
    var ids := Listed(s, ns, userId, now);
    var shown := Shown(s, ns, ids, now, idle);
    var before, after := AfterListOf(s, ns, userId, done, now, idle),
        AfterListOf(s, ns, userId, done + {id}, now, idle);
    if id in shown {
      assert (done + {id}) - shown == done - shown;
      assert Present(s, ns, done + {id}, now) - shown == Present(s, ns, done, now) - shown;
    } else {
      assert ids - ((done + {id}) - shown) == (ids - (done - shown)) - {id};
    }
  }

  function ShownSessions(s: Store, ns: string, ids: set<string>, now: Time, idle: int): set<Session> {
    set id | id in ids && Visible(s, ns, id, now, idle).Some? :: Visible(s, ns, id, now, idle).value
  }

  lemma ShownOneMore(s: Store, ns: string, done: set<string>, id: string, now: Time, idle: int)
    ensures var x := Visible(s, ns, id, now, idle);
            ShownSessions(s, ns, done + {id}, now, idle)
            == ShownSessions(s, ns, done, now, idle) + if x.Some? then {x.value} else {}
  {
  }

  class Manager {
    var sessions: map<(string, string), Stored>
    var index: map<(string, int), Index>

    ghost function Contents(): Store
      reads this
    {
      Store(sessions, index)
    }

    constructor ()
      ensures Contents() == Store(map[], map[])
    {
      sessions, index := map[], map[];
    }

    method Save(x: Session, now: Time)
      modifies this`sessions
      ensures Contents() == Saved(old(Contents()), x, now)
    {
      var ttl := x.expiresAt - now;
      if ttl > 0 {
        sessions := sessions[(x.namespace, x.id) := Stored(x, now + ttl)];
      }
    }

    /** `enroll` and `pwd` are the verdicts of the two login gates for this user. */
    method Create(ns: string, id: string, userId: int, tenantId: int, now: Time, absolute: int, enroll: bool, pwd: bool)
      returns (x: Session)
      modifies this
      ensures x == NewSession(ns, id, userId, tenantId, now, absolute, enroll, pwd)
      ensures Contents() == Created(old(Contents()), x, now, absolute)
    {
      x := Session(id, userId, tenantId, ns, now, now + absolute, now, None, enroll, pwd);
      Save(x, now);
      var listed: set<string> := {};
      if (ns, userId) in index && now < index[(ns, userId)].expireAt {
        listed := index[(ns, userId)].ids;
      }
      if absolute <= 0 {
        index := index - {(ns, userId)};
      } else {
        index := index[(ns, userId) := Index(listed + {id}, now + absolute)];
      }
    }

    method Get(ns: string, id: string, now: Time, idle: int) returns (x: Option<Session>)
      modifies this`sessions
      ensures x == Visible(old(Contents()), ns, id, now, idle)
      ensures Contents() == AfterGet(old(Contents()), ns, id, now, idle)
    {
      if (ns, id) !in sessions || now >= sessions[(ns, id)].expireAt {
        return None;
      }
      var found := sessions[(ns, id)].session;
      if now > found.expiresAt || now > found.lastActiveAt + idle {
        Delete(ns, id);
        return None;
      }
      return Some(found);
    }

    method Delete(ns: string, id: string)
      modifies this`sessions
      ensures Contents() == Deleted(old(Contents()), ns, {id})
    {
      assert (set k | k in {id} :: (ns, k)) == {(ns, id)};
      sessions := sessions - {(ns, id)};
    }

    /** Touch and the four flag updates: read, change one field, save. */
    method Modify(ns: string, id: string, change: Change, now: Time)
      modifies this`sessions
      ensures Contents() == Modified(old(Contents()), ns, id, change, now)
    {
      if change != CarryMFA(None) && (ns, id) in sessions && now < sessions[(ns, id)].expireAt {
        Save(Changed(sessions[(ns, id)].session, change, now), now);
      }
    }

    /** One entry of the user's set: look it up, and take it off the set if there is nothing. */
    method ListOne(ns: string, userId: int, id: string, now: Time, idle: int, ghost s: Store, ghost done: set<string>)
      returns (x: Option<Session>)
      requires id in Listed(s, ns, userId, now) && id !in done
      requires Contents() == AfterListOf(s, ns, userId, done, now, idle)
      modifies this
      ensures x == Visible(s, ns, id, now, idle)
      ensures Contents() == AfterListOf(s, ns, userId, done + {id}, now, idle)
    {
      AfterListOneMore(s, ns, userId, done, id, now, idle);
      x := Get(ns, id, now, idle);
      if x.None? {
        index := index[(ns, userId) := index[(ns, userId)].(ids := index[(ns, userId)].ids - {id})];
      }
    }

    method ListNext(ns: string, userId: int, id: string, now: Time, idle: int, out: seq<Session>,
                    ghost s: Store, ghost done: set<string>) returns (longer: seq<Session>)
      requires id in Listed(s, ns, userId, now) && id !in done
      requires Contents() == AfterListOf(s, ns, userId, done, now, idle)
      requires Members(out) == ShownSessions(s, ns, done, now, idle)
      modifies this
      ensures Contents() == AfterListOf(s, ns, userId, done + {id}, now, idle)
      ensures Members(longer) == ShownSessions(s, ns, done + {id}, now, idle)
    {
      longer := out;
      var x := ListOne(ns, userId, id, now, idle, s, done);
      ShownOneMore(s, ns, done, id, now, idle);
      if x.Some? {
        MembersOneMore(out, x.value);
        longer := out + [x.value];
      }
    }

    method SMembers(ns: string, userId: int, now: Time) returns (ids: set<string>)
      ensures ids == Listed(Contents(), ns, userId, now)
    {
      if (ns, userId) in index && now < index[(ns, userId)].expireAt {
        return index[(ns, userId)].ids;
      }
      return {};
    }

    /** Returns the sessions that Get returns for the ids in the user's set, one by one. */
    method ListByUser(ns: string, userId: int, now: Time, idle: int) returns (out: seq<Session>)
      modifies this
      ensures Members(out) == ShownSessions(old(Contents()), ns, Listed(old(Contents()), ns, userId, now), now, idle)
      ensures Contents() == AfterList(old(Contents()), ns, userId, now, idle)
    {
      var rest := SMembers(ns, userId, now);
      ghost var s, done: set<string> := Contents(), {};
      AfterListStart(s, ns, userId, now, idle);
      out := [];
      while rest != {}
        invariant done !! rest && done + rest == Listed(s, ns, userId, now)
        invariant Contents() == AfterListOf(s, ns, userId, done, now, idle)
        invariant Members(out) == ShownSessions(s, ns, done, now, idle)
        decreases |rest|
      {
        var id := Pick(rest);
        out := ListNext(ns, userId, id, now, idle, out, s, done);
        done, rest := done + {id}, rest - {id};
      }
      assert done == Listed(s, ns, userId, now);
    }

    /** Lists, deletes what is left, and drops the set itself. */
    method DeleteAllByUser(ns: string, userId: int, now: Time, idle: int)
      requires Keyed(Contents())
      modifies this
      ensures Contents() == AfterDeleteAll(old(Contents()), ns, userId, now)
    {
      ghost var s := Contents();
      ghost var ids := Listed(s, ns, userId, now);
      ghost var shown := Shown(s, ns, ids, now, idle);
      var out := ListByUser(ns, userId, now, idle);
      for i := 0 to |out|
        invariant sessions == Deleted(AfterList(s, ns, userId, now, idle), ns, Ids(out[..i])).sessions
        invariant index == AfterList(s, ns, userId, now, idle).index
      {
        assert Ids(out[..i + 1]) == Ids(out[..i]) + {out[i].id};
        Delete(ns, out[i].id);
      }
      assert out[..|out|] == out;
      assert Ids(out) == shown by {
        assert forall id :: id in shown ==> Visible(s, ns, id, now, idle).value in Members(out)
                                            && Visible(s, ns, id, now, idle).value.id == id;
        assert forall x :: x in out ==> x in Members(out);
      }
      index := index - {(ns, userId)};
      DeleteAllInTwo(s, ns, userId, now, idle);
    }
  }

  function Ids(xs: seq<Session>): set<string> { set x | x in xs :: x.id }
}
