/** The transactional outbox: rows are leased to workers, retried with a growing delay, and parked
    once their attempts are used up. */
module Outbox {
  import opened Bits
  import opened Common

  const DEFAULT_MAX_ATTEMPTS := 8

  datatype Status = Pending | Done | Dead

  datatype Message = Message(
    kind: string, payload: string, status: Status, attempts: int, maxAttempts: int, nextAttempt: Time,
        lastError: string)

  type Messages = map<int, Message>

  /** What a producer leaves unset is filled in: eight attempts, due at once, an empty object. */
  function Fresh(kind: string, payload: string, maxAttempts: int, nextAttempt: Option<Time>, now: Time): Message {
    Message(kind, if payload == "" then "{}" else payload, Pending, 0,
            if maxAttempts == 0 then DEFAULT_MAX_ATTEMPTS else maxAttempts,
            if nextAttempt.Some? then nextAttempt.value else now, "")
  }

  predicate Claimable(m: Message, now: Time) { m.status == Pending && m.nextAttempt <= now }

  /** One more attempt, and out of sight until the lease ends. */
  function Leased(m: Message, leaseEnd: Time): Message {
    m.(attempts := m.attempts + 1, nextAttempt := leaseEnd)
  }

  function Delivered(m: Message): Message { m.(status := Done) }

  /** A failed attempt as the claim saw it: parked when attempts are used up, else put off. */
  function Failed(m: Message, attempts: int, maxAttempts: int, error: string, retryAt: Time): Message {
    if attempts >= maxAttempts then m.(status := Dead, lastError := error)
    else m.(nextAttempt := retryAt, lastError := error)
  }

  function LeasedAll(msgs: Messages, ids: set<int>, leaseEnd: Time): Messages {
    map id | id in msgs :: if id in ids then Leased(msgs[id], leaseEnd) else msgs[id]
  }

  // ---- The retry delay ----------------------------------------------------------------

  /** The base doubled once per earlier attempt, up to a cap. */
  function Delay(base: nat, cap: nat, attempts: int): nat {
    Min(cap, base * Pow2(if attempts <= 1 then 0 else attempts - 1))
  }

  lemma {:induction false} Pow2Monotone(a: nat, b: nat)
    requires a <= b
    ensures 1 <= Pow2(a) <= Pow2(b)
  {
    if b > 0 {
      Pow2Monotone(if a < b then a else b - 1, b - 1);
    }
  }

  lemma ScaledMonotone(base: nat, a: nat, b: nat)
    requires a <= b
    ensures base * Pow2(a) <= base * Pow2(b)
  {
  }

  /** Later attempts never wait less. */
  lemma DelayNeverDecreases(base: nat, cap: nat, a: int, b: int)
    requires a <= b
    ensures Delay(base, cap, a) <= Delay(base, cap, b) <= cap
  {
    ScaledMonotone(base, if a <= 1 then 0 else a - 1, if b <= 1 then 0 else b - 1);
  }

  /** The first attempt is followed by the base delay, and each further one by twice the delay before,
      as long as the cap allows. */
  lemma DelayDoubles(base: nat, cap: nat, attempts: int)
    ensures Delay(base, cap, 1) == Min(base, cap)
    ensures attempts >= 1 ==> Delay(base, cap, attempts + 1) == Min(2 * Delay(base, cap, attempts), cap)
    ensures attempts < 1 ==> Delay(base, cap, attempts) == Delay(base, cap, 1)
  {
    if attempts >= 1 {
      assert base * Pow2(attempts) == 2 * (base * Pow2(attempts - 1));
    }
  }

  /** Doubles until the cap is reached or passed, and then takes the cap. */
  method Backoff(base: nat, cap: nat, attempts: int) returns (d: nat)
    ensures d == Delay(base, cap, attempts)
  {
    d := base;
    var i := 1;
    while i < attempts && d < cap
      invariant 1 <= i && (i <= attempts || i == 1)
      invariant d == base * Pow2(i - 1)
    {
      d := d * 2;
      i := i + 1;
    }
    if attempts > 1 {
      ScaledMonotone(base, i - 1, attempts - 1);
    }
    if d > cap {
      d := cap;
    }
  }

  // ---- The repository and the worker -----------------------------------------------------

  datatype Outcome = NoHandler | Success | Failure(error: string)

  class Repository {
    var msgs: Messages

    constructor ()
      ensures msgs == map[]
    {
      msgs := map[];
    }

    method Enqueue(id: int, kind: string, payload: string, maxAttempts: int, nextAttempt: Option<Time>, now: Time)
      returns (ok: bool)
      modifies this
      ensures ok == (id !in old(msgs))
      ensures msgs == if ok then old(msgs)[id := Fresh(kind, payload, maxAttempts, nextAttempt, now)] else old(msgs)
    {
      ok := id !in msgs;
      if ok {
        msgs := msgs[id := Fresh(kind, payload, maxAttempts, nextAttempt, now)];
      }
    }

    /** Leases up to `limit` due messages, earliest first, passing over rows that another
        transaction has locked. */
    method Claim(limit: nat, lease: nat, now: Time, locked: set<int>) returns (ids: set<int>)
      modifies this
      ensures var due := set id | id in old(msgs) && Claimable(old(msgs)[id], now) && id !in locked;
              && ids <= due && |ids| == Min(limit, |due|)
              && forall a, b :: a in ids && b in due - ids ==> old(msgs)[a].nextAttempt <= old(msgs)[b].nextAttempt
      ensures msgs == LeasedAll(old(msgs), ids, now + lease)
    {
      var table := msgs;
      var due := set id | id in table && Claimable(table[id], now) && id !in locked;
      ids := EarliestN(table, due, limit);
      msgs := map id | id in table :: if id in ids then Leased(table[id], now + lease) else table[id];
    }

    /** ORDER BY next_attempt LIMIT n. */
    static method EarliestN(table: Messages, due: set<int>, limit: nat) returns (ids: set<int>)
      requires due <= table.Keys
      ensures ids <= due && |ids| == Min(limit, |due|)
      ensures forall a, b :: a in ids && b in due - ids ==> table[a].nextAttempt <= table[b].nextAttempt
    {
      ids := {};
      var rest := due;
      while |ids| < limit && rest != {}
        invariant rest <= due && ids == due - rest && |ids| == |due| - |rest| && |ids| <= limit
        invariant forall a, b :: a in ids && b in rest ==> table[a].nextAttempt <= table[b].nextAttempt
        decreases |rest|
      {
        var id := EarliestOf(table, rest);
        ids := ids + {id};
        rest := rest - {id};
      }
      assert due - ids == rest;
    }

    static method EarliestOf(table: Messages, candidates: set<int>) returns (best: int)
      requires candidates != {} && candidates <= table.Keys
      ensures best in candidates && forall id :: id in candidates ==> table[best].nextAttempt <= table[id].nextAttempt
    {
      best := Pick(candidates);
      var rest := candidates - {best};
      while rest != {}
        invariant rest <= candidates && best in candidates
        invariant forall id :: id in candidates - rest ==> table[best].nextAttempt <= table[id].nextAttempt
        decreases |rest|
      {
        var id := Pick(rest);
        rest := rest - {id};
        if table[id].nextAttempt < table[best].nextAttempt {
          best := id;
        }
      }
    }

    method MarkDone(id: int)
      modifies this
      ensures msgs == if id in old(msgs) then old(msgs)[id := Delivered(old(msgs)[id])] else old(msgs)
    {
      if id in msgs {
        msgs := msgs[id := msgs[id].(status := Done)];
      }
    }

    /** Decides by the attempts that the claim saw, not by the row's present count. */
    method Fail(id: int, attempts: int, maxAttempts: int, error: string, backoff: nat, now: Time)
      modifies this
      ensures msgs == if id in old(msgs)
          then old(msgs)[id := Failed(old(msgs)[id], attempts, maxAttempts, error, now + backoff)]
                      else old(msgs)
    {
      if id in msgs {
        if attempts >= maxAttempts {
          msgs := msgs[id := msgs[id].(status := Dead, lastError := error)];
        } else {
          msgs := msgs[id := msgs[id].(nextAttempt := now + backoff, lastError := error)];
        }
      }
    }
  }

  /** How the dispatch of one message goes: the handler's outcome, when it is settled, and whether
      that write goes through. */
  datatype Dispatching = Dispatching(outcome: Outcome, at: Time, saved: bool)

  /** The row after it is settled by a worker that claimed it as `m`; it may have changed since. */
  function Settled(row: Message, m: Message, d: Dispatching, base: nat, cap: nat): Message {
    if !d.saved then row else
    match d.outcome
    case Success => Delivered(row)
    case NoHandler =>
      Failed(row, m.attempts, m.maxAttempts, "no handler for kind " + m.kind, d.at + Delay(base, cap, m.attempts))
    case Failure(error) => Failed(row, m.attempts, m.maxAttempts, error, d.at + Delay(base, cap, m.attempts))
  }

  class Worker {
    const repo: Repository
    const batch: nat
    const lease: nat
    const baseBO: nat
    const maxBO: nat

    constructor (repo: Repository)
      ensures this.repo == repo && batch == 20 && lease == 60 * SECOND
      ensures baseBO == 10 * SECOND && maxBO == 1800 * SECOND
    {
      this.repo := repo;
      batch, lease, baseBO, maxBO := 20, 60 * SECOND, 10 * SECOND, 1800 * SECOND;
    }

    method Dispatch(id: int, m: Message, d: Dispatching)
      modifies repo
      ensures repo.msgs == if id in old(repo.msgs)
          then old(repo.msgs)[id := Settled(old(repo.msgs)[id], m, d, baseBO, maxBO)]
                           else old(repo.msgs)
    {
      if !d.saved {
        return;
      }
      var delay := Backoff(baseBO, maxBO, m.attempts);
      match d.outcome
      case NoHandler =>
        repo.Fail(id, m.attempts, m.maxAttempts, "no handler for kind " + m.kind, delay, d.at);
      case Failure(error) =>
        repo.Fail(id, m.attempts, m.maxAttempts, error, delay, d.at);
      case Success =>
        repo.MarkDone(id);
    }

    /** A message after this worker has claimed it, and after it has dispatched it too. */
    function Handled(m: Message, now: Time, d: Option<Dispatching>): Message {
      var leased := Leased(m, now + lease);
      if d.None? then leased else Settled(leased, leased, d.value, baseBO, maxBO)
    }

    /** Claims a batch, if that goes through, and dispatches every message of it, one after the other;
        nothing else is touched. */
    method Tick(now: Time, locked: set<int>, ok: bool, dispatch: int -> Dispatching) returns (claimed: set<int>)
      modifies repo
      ensures !ok ==> claimed == {}
      ensures ok ==>
                var due := set id | id in old(repo.msgs) && Claimable(old(repo.msgs)[id], now) && id !in locked;
                && claimed <= due && |claimed| == Min(batch, |due|)
                && forall a, b :: a in claimed && b in due - claimed ==>
                     old(repo.msgs)[a].nextAttempt <= old(repo.msgs)[b].nextAttempt
      ensures repo.msgs == map id | id in old(repo.msgs) ::
                             if id in claimed then Handled(old(repo.msgs)[id], now, Some(dispatch(id)))
                             else old(repo.msgs)[id]
    {
      claimed := {};
      if !ok {
        return;
      }
      claimed := repo.Claim(batch, lease, now, locked);
      var rest := claimed;
      while rest != {}
        invariant rest <= claimed
        invariant repo.msgs == map id | id in old(repo.msgs) ::
                                 if id in rest then Handled(old(repo.msgs)[id], now, None)
                                 else if id in claimed then Handled(old(repo.msgs)[id], now, Some(dispatch(id)))
                                 else old(repo.msgs)[id]
        decreases |rest|
      {
        var id := Pick(rest);
        Dispatch(id, repo.msgs[id], dispatch(id));
        rest := rest - {id};
      }
    }
  }
}
