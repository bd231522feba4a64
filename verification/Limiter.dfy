/** The brute-force limiter: a failure counter that lives for one window, and a lock that releases
    itself. Redis keys count as gone once their time to live has run out. */
module Limiter {
  import opened Common

  /** Construction replaces anything not positive by 5 attempts, 5 minutes and 15 minutes. */
  datatype Config = Config(maxAttempts: int, window: int, lockout: int, failOpen: bool)

  predicate Valid(cfg: Config) { cfg.maxAttempts >= 1 && cfg.window > 0 && cfg.lockout > 0 }

  function WithDefaults(cfg: Config): (r: Config)
    ensures Valid(r) && r.failOpen == cfg.failOpen
    ensures r.maxAttempts == if cfg.maxAttempts > 0 then cfg.maxAttempts else 5
    ensures r.window == if cfg.window > 0 then cfg.window else 300 * SECOND
    ensures r.lockout == if cfg.lockout > 0 then cfg.lockout else 900 * SECOND
  {
    Config(if cfg.maxAttempts <= 0 then 5 else cfg.maxAttempts,
           if cfg.window <= 0 then 300 * SECOND else cfg.window,
           if cfg.lockout <= 0 then 900 * SECOND else cfg.lockout, cfg.failOpen)
  }

  datatype Counter = Counter(count: int, expireAt: Time)

  /** The two keys of one identifier. */
  datatype Keys = Keys(counter: Option<Counter>, lockEnd: Option<Time>)

  const UNTOUCHED := Keys(None, None)

  predicate Locked(k: Keys, now: Time) { k.lockEnd.Some? && now < k.lockEnd.value }

  predicate Counting(k: Keys, now: Time) { k.counter.Some? && now < k.counter.value.expireAt }

  /** What one recorded failure does: count it in the running window or open a new one, and set
      the lock at the limit unless a lock is already running. */
  function Record(cfg: Config, k: Keys, now: Time): Keys {
    var counter := if Counting(k, now) then k.counter.value.(count := k.counter.value.count + 1)
                   else Counter(1, now + cfg.window);
    var locks := counter.count >= cfg.maxAttempts && !Locked(k, now);
    Keys(Some(counter), if locks then Some(now + cfg.lockout) else k.lockEnd)
  }

  // ---- Failures recorded by any number of concurrent callers ------------------------------

  function RecordAll(cfg: Config, k: Keys, times: seq<Time>): Keys {
    if times == [] then k else Record(cfg, RecordAll(cfg, k, times[..|times| - 1]), times[|times| - 1])
  }

  ghost predicate Ordered(times: seq<Time>) {
    forall i, j :: 0 <= i < j < |times| ==> times[i] <= times[j]
  }

  /** A running lock is never pushed out: whatever is recorded before it ends, it ends then. */
  lemma {:induction false} LockEndIsFixed(cfg: Config, k: Keys, times: seq<Time>, end: Time)
    requires k.lockEnd == Some(end) && forall i :: 0 <= i < |times| ==> times[i] < end
    ensures RecordAll(cfg, k, times).lockEnd == Some(end)
  {
    if times != [] {
      LockEndIsFixed(cfg, k, times[..|times| - 1], end);
    }
  }

  /** Failures inside one window are counted without loss, with or without checks in between. */
  lemma {:induction false} OneLifeCounts(cfg: Config, k: Keys, times: seq<Time>)
    requires Valid(cfg) && times != [] && Ordered(times) && !Counting(k, times[0])
    requires times[|times| - 1] < times[0] + cfg.window
    ensures RecordAll(cfg, k, times).counter == Some(Counter(|times|, times[0] + cfg.window))
  {
    var before := times[..|times| - 1];
    if before != [] {
      OneLifeCounts(cfg, k, before);
    }
  }

  /** From the MaxAttempts-th failure of a counter's life on, the identifier is locked at every
      moment a failure of that life is recorded. */
  lemma LockedFromTheLimit(cfg: Config, k: Keys, times: seq<Time>, n: nat)
    requires Valid(cfg) && times != [] && Ordered(times) && !Counting(k, times[0])
    requires times[|times| - 1] < times[0] + cfg.window
    requires cfg.maxAttempts <= n <= |times|
    ensures Locked(RecordAll(cfg, k, times[..n]), times[n - 1])
  {
    OneLifeCounts(cfg, k, times[..n]);
  }

  // ---- Attempts one after the other, each checked and then recorded ------------------------

  /** A failure that was let through: when, as which of its window, and when the window began. */
  datatype Hit = Hit(time: Time, count: int, begun: Time)

  /** Runs failing attempts at the given times; those that find the lock are turned away. */
  function Admitted(cfg: Config, k: Keys, times: seq<Time>): seq<Hit>
    decreases |times|
  {
    if times == [] then []
    else if Locked(k, times[0]) then Admitted(cfg, k, times[1..])
    else
      var after := Record(cfg, k, times[0]);
      [Hit(times[0], after.counter.value.count, after.counter.value.expireAt - cfg.window)]
      + Admitted(cfg, after, times[1..])
  }

  predicate HitSane(cfg: Config, h: Hit) {
    1 <= h.count <= cfg.maxAttempts && h.begun <= h.time < h.begun + cfg.window && (h.count == 1 ==> h.begun == h.time)
  }

  /** How one admitted failure follows another: as the next of its window, or as the first of a
      new one, which opens after the old one closed and after any lock it ended in. */
  predicate Follows(cfg: Config, h: Hit, next: Hit) {
    && h.time <= next.time
    && if next.count == 1 then next.time >= h.begun + cfg.window
                               && (h.count == cfg.maxAttempts ==> next.time >= h.time + cfg.lockout)
       else next.count == h.count + 1 && next.begun == h.begun
  }

  ghost predicate Chained(cfg: Config, hits: seq<Hit>) {
    && (forall i :: 0 <= i < |hits| ==> HitSane(cfg, hits[i]))
    && (forall i :: 0 <= i < |hits| - 1 ==> Follows(cfg, hits[i], hits[i + 1]))
  }

  /** The keys that `h` left behind. */
  predicate LeftBy(cfg: Config, k: Keys, h: Hit) {
    && k.counter == Some(Counter(h.count, h.begun + cfg.window))
    && (h.count == cfg.maxAttempts ==> k.lockEnd == Some(h.time + cfg.lockout))
  }

  lemma {:induction false} AdmittedChain(cfg: Config, k: Keys, times: seq<Time>, last: Option<Hit>)
    requires Valid(cfg) && cfg.lockout >= cfg.window && Ordered(times)
    requires last.None? ==> k == UNTOUCHED
    requires last.Some? ==> HitSane(cfg, last.value) && LeftBy(cfg, k, last.value)
                            && (times != [] ==> last.value.time <= times[0])
    ensures Chained(cfg, Admitted(cfg, k, times))
    ensures last.Some? && Admitted(cfg, k, times) != [] ==> Follows(cfg, last.value, Admitted(cfg, k, times)[0])
    decreases |times|
  {
    if times == [] {
    } else if Locked(k, times[0]) {
      AdmittedChain(cfg, k, times[1..], last);
    } else {
      var after := Record(cfg, k, times[0]);
      var h := Hit(times[0], after.counter.value.count, after.counter.value.expireAt - cfg.window);
      AdmittedChain(cfg, after, times[1..], Some(h));
    }
  }

  lemma {:induction false} ChainOrdered(cfg: Config, hits: seq<Hit>, i: nat, j: nat)
    requires Chained(cfg, hits) && i <= j < |hits|
    ensures hits[i].time <= hits[j].time
  {
    if i < j {
      ChainOrdered(cfg, hits, i, j - 1);
      assert Follows(cfg, hits[j - 1], hits[j - 1 + 1]);
    }
  }

  /** Where the window of hit `k` is over: the next index whose count restarts, or the end. */
  lemma {:induction false} NextWindow(cfg: Config, hits: seq<Hit>, k: nat) returns (s: nat)
    requires Chained(cfg, hits) && k < |hits|
    ensures k < s <= |hits| && hits[s - 1].count == hits[k].count + (s - 1 - k) && hits[s - 1].begun == hits[k].begun
    ensures s < |hits| ==> hits[s].count == 1 && Follows(cfg, hits[s - 1], hits[s])
    decreases |hits| - k
  {
    s := k + 1;
    if s < |hits| {
      assert Follows(cfg, hits[k], hits[k + 1]);
      if hits[s].count != 1 {
        s := NextWindow(cfg, hits, s);
      }
    }
  }

  /** The most failures that one window's length can hold. The counter can carry nothing over into
      a window that is a single instant. */
  function Most(cfg: Config): int {
    if cfg.window == 1 then cfg.maxAttempts else Max(cfg.maxAttempts, 2 * cfg.maxAttempts - 2)
  }

  lemma SpacedOut(cfg: Config, hits: seq<Hit>, k: nat)
    requires Valid(cfg) && cfg.lockout >= cfg.window && Chained(cfg, hits) && k + Most(cfg) < |hits|
    ensures hits[k + Most(cfg)].time >= hits[k].time + cfg.window
  {
    assert HitSane(cfg, hits[k]);
    var s := NextWindow(cfg, hits, k);
    assert HitSane(cfg, hits[s - 1]);
    ChainOrdered(cfg, hits, k, s - 1);
    ChainOrdered(cfg, hits, s, k + Most(cfg));
    if cfg.window > 1 && hits[k].count > 1 && hits[s - 1].count < cfg.maxAttempts {
      var s' := NextWindow(cfg, hits, s);
      assert HitSane(cfg, hits[s]) && HitSane(cfg, hits[s' - 1]);
      ChainOrdered(cfg, hits, s', k + Most(cfg));
    }
  }

  ghost function Within(hits: seq<Hit>, from: Time, to: Time): set<int> {
    set i | 0 <= i < |hits| && from <= hits[i].time < to
  }

  lemma {:induction false} IntervalSize(s: set<int>, lo: int, n: nat)
    requires forall i :: i in s ==> lo <= i < lo + n
    ensures |s| <= n
  {
    if n == 0 {
      assert forall i: int :: i !in s;
      NoMembers(s);
    } else {
      IntervalSize(s - {lo + n - 1}, lo, n - 1);
      assert s <= (s - {lo + n - 1}) + {lo + n - 1};
      assert |s| <= |(s - {lo + n - 1}) + {lo + n - 1}|;
    }
  }

  ghost predicate BoundHolds(cfg: Config, times: seq<Time>, from: Time) {
    |Within(Admitted(cfg, UNTOUCHED, times), from, from + cfg.window)| <= Most(cfg)
  }

  /** Any half-open interval one window long holds at most max(M, 2M - 2) admitted failures of an
      identifier, which is never more than 2M - 1, where M is MaxAttempts; and at most M if a window
      is a single instant. */
  lemma WindowBound(cfg: Config, times: seq<Time>, from: Time)
    requires Valid(cfg) && cfg.lockout >= cfg.window && Ordered(times)
    ensures BoundHolds(cfg, times, from) && Most(cfg) <= 2 * cfg.maxAttempts - 1
  {
    var hits := Admitted(cfg, UNTOUCHED, times);
    AdmittedChain(cfg, UNTOUCHED, times, None);
    var inside := Within(hits, from, from + cfg.window);
    var first := 0;
    while first < |hits| && first !in inside
      invariant 0 <= first <= |hits|
      invariant forall i :: i in inside ==> first <= i
    {
      first := first + 1;
    }
    forall i | i in inside
      ensures first <= i < first + Most(cfg)
    {
      if i >= first + Most(cfg) {
        SpacedOut(cfg, hits, first);
        ChainOrdered(cfg, hits, first + Most(cfg), i);
      }
    }
    IntervalSize(inside, first, Most(cfg));
  }

  // ---- How good the bound is ------------------------------------------------------------------

  lemma {:induction false} AtLeast(s: set<int>, lo: int, n: nat)
    requires forall i :: lo <= i < lo + n ==> i in s
    ensures |s| >= n
  {
    if n > 0 {
      AtLeast(s - {lo + n - 1}, lo, n - 1);
    }
  }

  function Burst(t: Time, n: nat): (times: seq<Time>)
    ensures |times| == n && forall i :: 0 <= i < n ==> times[i] == t
  {
    seq(n, _ => t)
  }

  /** A burst that the running window still has room for is admitted; if it fills the window up,
      its last failure sets the lock. */
  lemma {:induction false} BurstAdmitted(cfg: Config, k: Keys, t: Time, n: nat, rest: seq<Time>)
    returns (hits: seq<Hit>, after: Keys)
    requires Valid(cfg) && Counting(k, t) && !Locked(k, t) && k.counter.value.count + n <= cfg.maxAttempts
    ensures Admitted(cfg, k, Burst(t, n) + rest) == hits + Admitted(cfg, after, rest)
    ensures |hits| == n && forall i :: 0 <= i < n ==> hits[i].time == t
    ensures after.counter == Some(k.counter.value.(count := k.counter.value.count + n))
    ensures var full := n > 0 && k.counter.value.count + n == cfg.maxAttempts;
            after.lockEnd == if full then Some(t + cfg.lockout) else k.lockEnd
    decreases n
  {
    var times := Burst(t, n) + rest;
    if n == 0 {
      hits, after := [], k;
      assert times == rest;
    } else {
      assert times[1..] == Burst(t, n - 1) + rest;
      var next := Record(cfg, k, t);
      var h := Hit(t, next.counter.value.count, next.counter.value.expireAt - cfg.window);
      if n == 1 {
        hits, after := [h], next;
        assert times[1..] == rest;
      } else {
        hits, after := BurstAdmitted(cfg, next, t, n - 1, rest);
        hits := [h] + hits;
      }
    }
  }

  /** The same for a burst that opens a window. */
  lemma WindowOpened(cfg: Config, k: Keys, t: Time, n: nat, rest: seq<Time>) returns (hits: seq<Hit>, after: Keys)
    requires Valid(cfg) && !Counting(k, t) && !Locked(k, t) && 1 <= n <= cfg.maxAttempts
    ensures Admitted(cfg, k, Burst(t, n) + rest) == hits + Admitted(cfg, after, rest)
    ensures |hits| == n && forall i :: 0 <= i < n ==> hits[i].time == t
    ensures after.counter == Some(Counter(n, t + cfg.window))
    ensures after.lockEnd == if n == cfg.maxAttempts then Some(t + cfg.lockout) else k.lockEnd
  {
    var times := Burst(t, n) + rest;
    var next := Record(cfg, k, t);
    assert times[1..] == Burst(t, n - 1) + rest;
    if n == 1 {
      hits, after := [], next;
      assert times[1..] == rest;
    } else {
      hits, after := BurstAdmitted(cfg, next, t, n - 1, rest);
    }
    hits := [Hit(t, 1, t)] + hits;
  }

  /** Two bursts, one late in a window and one that opens the next, after a first failure that
      starts it all: everything is admitted if the second burst finds the window and any lock over. */
  lemma TwoBursts(cfg: Config, n: nat, late: Time, next: Time) returns (times: seq<Time>, hits: seq<Hit>)
    requires Valid(cfg) && 2 <= cfg.maxAttempts && n < cfg.maxAttempts && 0 <= late < cfg.window <= next
    requires n == cfg.maxAttempts - 1 ==> next >= late + cfg.lockout
    ensures Ordered(times) && hits == Admitted(cfg, UNTOUCHED, times) && |hits| == 1 + n + cfg.maxAttempts
    ensures forall i :: 1 <= i <= n ==> hits[i].time == late
    ensures forall i :: n < i < |hits| ==> hits[i].time == next
  {
    var tail := Burst(next, cfg.maxAttempts);
    times := Burst(0, 1) + (Burst(late, n) + tail);
    var h0, k0 := WindowOpened(cfg, UNTOUCHED, 0, 1, Burst(late, n) + tail);
    var h1, k1 := BurstAdmitted(cfg, k0, late, n, tail);
    var h2, k2 := WindowOpened(cfg, k1, next, cfg.maxAttempts, []);
    assert tail + [] == tail && Admitted(cfg, k2, []) == [];
    hits := h0 + (h1 + h2);
  }

  /** The bound is reached, for every configuration it applies to. */
  lemma WindowBoundIsReached(cfg: Config) returns (times: seq<Time>, from: Time)
    requires Valid(cfg) && cfg.lockout >= cfg.window
    ensures Ordered(times) && |Within(Admitted(cfg, UNTOUCHED, times), from, from + cfg.window)| == Most(cfg)
  {
    var m := cfg.maxAttempts;
    if m <= 2 || cfg.window == 1 {
      times, from := Burst(0, m) + [], 0;
      var hits, _ := WindowOpened(cfg, UNTOUCHED, 0, m, []);
      assert Admitted(cfg, UNTOUCHED, times) == hits;
      AtLeast(Within(hits, 0, cfg.window), 0, m);
    } else {
      var hits;
      times, hits := TwoBursts(cfg, m - 2, cfg.window - 1, cfg.window);
      from := cfg.window - 1;
      AtLeast(Within(hits, from, from + cfg.window), 1, 2 * m - 2);
    }
    WindowBound(cfg, times, from);
  }

  /** With a lockout shorter than the window the bound fails, for every such configuration. */
  lemma ShortLockoutBreaksTheBound(cfg: Config) returns (times: seq<Time>, from: Time)
    requires Valid(cfg) && cfg.lockout < cfg.window
    ensures Ordered(times) && |Within(Admitted(cfg, UNTOUCHED, times), from, from + cfg.window)| > Most(cfg)
  {
    var m := cfg.maxAttempts;
    var hits;
    if m == 1 {
      times, from := [0, cfg.lockout], 0;
      assert times[1..] == [cfg.lockout] && [cfg.lockout][1..] == [];
      hits := Admitted(cfg, UNTOUCHED, times);
      var k := Record(cfg, UNTOUCHED, 0);
      assert Admitted(cfg, k, [cfg.lockout]) == [Hit(cfg.lockout, 2, 0)];
      AtLeast(Within(hits, 0, cfg.window), 0, 2);
    } else {
      times, hits := TwoBursts(cfg, m - 1, cfg.window - 1, cfg.window - 1 + cfg.lockout);
      from := cfg.window - 1;
      AtLeast(Within(hits, from, from + cfg.window), 1, 2 * m - 1);
    }
  }

  /** The bound holds for every sequence of attempts and every interval if and only if the lockout
      is no shorter than the window. */
  lemma BoundHoldsIff(cfg: Config)
    requires Valid(cfg)
    ensures (forall times, from :: Ordered(times) ==> BoundHolds(cfg, times, from)) <==> cfg.lockout >= cfg.window
  {
    if cfg.lockout >= cfg.window {
      forall times, from | Ordered(times)
        ensures BoundHolds(cfg, times, from)
      {
        WindowBound(cfg, times, from);
      }
    } else {
      var times, from := ShortLockoutBreaksTheBound(cfg);
      assert !BoundHolds(cfg, times, from);
    }
  }

  // ---- The limiter object ------------------------------------------------------------------

  /** All identifiers of one purpose. A verdict is None to proceed, or the time to wait. */
  class Limiter {
    const cfg: Config
    var counters: map<string, Counter>
    var locks: map<string, Time>

    constructor (cfg: Config)
      ensures this.cfg == WithDefaults(cfg) && forall id :: Of(id) == UNTOUCHED
    {
      this.cfg := WithDefaults(cfg);
      counters, locks := map[], map[];
    }

    /** Refuses to work without a Redis client or without a purpose. */
    static method New(client: bool, purpose: string, cfg: Config) returns (l: Option<Limiter>)
      ensures l.Some? <==> client && purpose != ""
      ensures l.Some? ==> l.value.cfg == WithDefaults(cfg) && forall id :: l.value.Of(id) == UNTOUCHED
    {
      if !client || purpose == "" {
        return None;
      }
      var limiter := new Limiter(cfg);
      return Some(limiter);
    }

    function Of(id: string): Keys
      reads this
    {
      Keys(if id in counters then Some(counters[id]) else None, if id in locks then Some(locks[id]) else None)
    }

    function StoreError(): Option<int> { if cfg.failOpen then None else Some(cfg.lockout) }

    method Check(id: string, now: Time, reachable: bool) returns (wait: Option<int>)
      ensures id == "" ==> wait.None?
      ensures id != "" && !reachable ==> wait == StoreError()
      ensures id != "" && reachable ==> wait == if Locked(Of(id), now) then Some(locks[id] - now) else None
    {
      if id == "" {
        return None;
      }
      if !reachable {
        return StoreError();
      }
      if id in locks && locks[id] - now > 0 {
        return Some(locks[id] - now);
      }
      return None;
    }

    /** The script runs as a whole: increment, arm the window on the first failure, set the lock
        only where none is running, and report what remains of it. */
    method RecordFailure(id: string, now: Time, reachable: bool) returns (wait: Option<int>)
      modifies this
      ensures id == "" || !reachable ==> counters == old(counters) && locks == old(locks)
      ensures id == "" ==> wait.None?
      ensures id != "" && !reachable ==> wait == StoreError()
      ensures id != "" && reachable ==> Of(id) == Record(cfg, old(Of(id)), now)
      ensures id != "" && reachable ==> wait == if Of(id).counter.value.count >= cfg.maxAttempts && Locked(Of(id), now)
                                                then Some(locks[id] - now) else None
      ensures forall other :: other != id ==> Of(other) == old(Of(other))
    {
      if id == "" {
        return None;
      }
      if !reachable {
        return StoreError();
      }
      var c := if id in counters && now < counters[id].expireAt then counters[id].count + 1 else 1;
      if id in counters && now < counters[id].expireAt {
        counters := counters[id := counters[id].(count := c)];
      } else {
        counters := counters[id := Counter(c, now + cfg.window)];
      }
      wait := None;
      if c >= cfg.maxAttempts {
        if id !in locks || locks[id] <= now {
          locks := locks[id := now + cfg.lockout];
        }
        if locks[id] - now > 0 {
          wait := Some(locks[id] - now);
        }
      }
    }

    method Reset(id: string)
      modifies this
      ensures id != "" ==> Of(id) == UNTOUCHED
      ensures forall other :: other != id || id == "" ==> Of(other) == old(Of(other))
    {
      if id != "" {
        counters, locks := counters - {id}, locks - {id};
      }
    }
  }
}
