/** The two-level cache in front of the binding provider: a map in each pod (L1) and a shared
    Redis (L2), with the shape that a binding set takes on the wire. */
module BindingCache {
  import opened Common
  import opened Decimal
  import opened Authz

  const DEFAULT_L1_TTL: Time := 60 * SECOND
  const DEFAULT_L2_TTL: Time := 300 * SECOND
  const INVALIDATE_ALL := "*"

  function CacheKey(tenantId: int, userId: int): string {
    "authz:bindings:" + (FormatInt(tenantId) + ":" + FormatInt(userId))
  }

  /** Distinct (tenant, user) pairs never share a key, and no key is the clear-all sentinel. */
  lemma CacheKeyInjective(t: int, u: int, t': int, u': int)
    ensures CacheKey(t, u) == CacheKey(t', u') ==> t == t' && u == u'
    ensures CacheKey(t, u) != INVALIDATE_ALL
  {
    if CacheKey(t, u) == CacheKey(t', u') {
      FormatIntChars(t);
      FormatIntChars(t');
      assert CacheKey(t, u)[15..] == FormatInt(t) + ":" + FormatInt(u);
      assert CacheKey(t', u')[15..] == FormatInt(t') + ":" + FormatInt(u');
      SplitAtSeparator(FormatInt(t), FormatInt(t'), ':', FormatInt(u), FormatInt(u'));
      FormatIntInjective(t, t');
      FormatIntInjective(u, u');
    }
  }

  datatype L1Entry = L1Entry(bindings: seq<EffectiveBinding>, expireAt: Time)

  /** The stored form of a binding: permissions as a list, expiry in whole Unix seconds. */
  datatype Serialized = Serialized(
    roleId: int, permissions: seq<string>, source: string, sourceId: int,
    scopeType: string, scopeId: int, expiresAt: Option<int>)

  datatype L2Entry = L2Entry(payload: seq<Serialized>, expireAt: Time)

  type L1 = map<string, L1Entry>
  type L2 = map<string, L2Entry>

  function L1Lookup(l1: L1, key: string, now: Time): Option<seq<EffectiveBinding>> {
    if key in l1 && now <= l1[key].expireAt then Some(l1[key].bindings) else None
  }

  function L2Lookup(l2: L2, key: string, now: Time): Option<seq<EffectiveBinding>> {
    if key in l2 && now < l2[key].expireAt then Some(Restore(l2[key].payload)) else None
  }

  function RestoreOne(s: Serialized): EffectiveBinding {
    EffectiveBinding(s.roleId, Members(s.permissions), s.source, s.sourceId, s.scopeType, s.scopeId,
                     if s.expiresAt.Some? then Some(s.expiresAt.value * SECOND) else None)
  }

  function Restore(payload: seq<Serialized>): seq<EffectiveBinding> {
    seq(|payload|, i requires 0 <= i < |payload| => RestoreOne(payload[i]))
  }

  /** `s` is a stored form of `b`; the permissions may be listed in any order. */
  ghost predicate Encodes(s: Serialized, b: EffectiveBinding) {
    && s == Serialized(b.roleId, s.permissions, b.source, b.sourceId, b.scopeType, b.scopeId,
                       if b.expiresAt.Some? then Some(b.expiresAt.value / SECOND) else None)
    && Members(s.permissions) == b.permissions
  }

  ghost predicate EncodesAll(payload: seq<Serialized>, bs: seq<EffectiveBinding>) {
    |payload| == |bs| && forall i :: 0 <= i < |bs| ==> Encodes(payload[i], bs[i])
  }

  /** The binding as it comes back from Redis: its expiry cut down to the whole second. */
  function WholeSeconds(b: EffectiveBinding): EffectiveBinding {
    b.(expiresAt := if b.expiresAt.Some? then Some(b.expiresAt.value / SECOND * SECOND) else None)
  }

  function Truncated(bs: seq<EffectiveBinding>): (r: seq<EffectiveBinding>) {
    seq(|bs|, i requires 0 <= i < |bs| => WholeSeconds(bs[i]))
  }

  /** A trip through Redis changes nothing but the sub-second part of expiries. */
  lemma StoredRoundTrip(payload: seq<Serialized>, bs: seq<EffectiveBinding>)
    requires EncodesAll(payload, bs)
    ensures Restore(payload) == Truncated(bs)
  {
  }

  lemma TruncatedTwice(bs: seq<EffectiveBinding>)
    ensures Truncated(Truncated(bs)) == Truncated(bs)
  {
  }

  /** Truncation can only end access early, and by less than a second. */
  lemma TruncationEndsEarly(b: EffectiveBinding, now: Time)
    ensures Unexpired(WholeSeconds(b), now) ==> Unexpired(b, now)
    ensures Unexpired(b, now) && !Unexpired(WholeSeconds(b), now) ==> b.expiresAt.value - now < SECOND - 1
  {
  }

  /** An entry is served for its time to live: in L1 up to and including the last instant, in Redis
      before it. */
  lemma ServedForItsTime(l1: L1, l2: L2, key: string, bs: seq<EffectiveBinding>, payload: seq<Serialized>, at: Time,
                         ttl: int, now: Time)
    ensures L1Lookup(l1[key := L1Entry(bs, at + ttl)], key, now) == if now - at <= ttl then Some(bs) else None
    ensures L2Lookup(l2[key := L2Entry(payload, at + ttl)], key, now)
            == if now - at < ttl then Some(Restore(payload)) else None
  {
  }

  /** The shared Redis: the L2 keys, and every message published on the invalidation channel. */
  class Redis {
    var store: L2
    var published: seq<string>

    constructor ()
      ensures store == map[] && published == []
    {
      store, published := map[], [];
    }
  }

  /** What the clock shows at each access of one lookup: reading L1, reading Redis, filling either. */
  datatype Readings = Readings(near: Time, far: Time, fillNear: Time, fillFar: Time)

  class CachedBindingProvider {
    const rdb: Redis?
    const l1TTL: Time
    const l2TTL: Time
    var l1: L1

    constructor (rdb: Redis?, l1TTL: Time, l2TTL: Time)
      ensures this.rdb == rdb && l1 == map[]
      ensures this.l1TTL == if l1TTL <= 0 then DEFAULT_L1_TTL else l1TTL
      ensures this.l2TTL == if l2TTL <= 0 then DEFAULT_L2_TTL else l2TTL
    {
      this.rdb := rdb;
      this.l1TTL := if l1TTL <= 0 then DEFAULT_L1_TTL else l1TTL;
      this.l2TTL := if l2TTL <= 0 then DEFAULT_L2_TTL else l2TTL;
      l1 := map[];
    }

    /** Encodes a binding set for Redis, permission sets in whatever order they iterate. */
    static method Serialize(bindings: seq<EffectiveBinding>) returns (payload: seq<Serialized>)
      ensures EncodesAll(payload, bindings)
    {
      payload := [];
      for i := 0 to |bindings|
        invariant |payload| == i && forall k :: 0 <= k < i ==> Encodes(payload[k], bindings[k])
      {
        var b := bindings[i];
        var perms := Scan(b.permissions);
        var unix := if b.expiresAt.Some? then Some(b.expiresAt.value / SECOND) else None;
        payload := payload + [Serialized(b.roleId, perms, b.source, b.sourceId, b.scopeType, b.scopeId, unix)];
      }
    }

    static method Deserialize(payload: seq<Serialized>) returns (out: seq<EffectiveBinding>)
      ensures out == Restore(payload)
    {
      out := [];
      for i := 0 to |payload|
        invariant out == Restore(payload[..i])
      {
        var s := payload[i];
        var perms: set<string> := {};
        for k := 0 to |s.permissions|
          invariant perms == Members(s.permissions[..k])
        {
          perms := perms + {s.permissions[k]};
          assert Members(s.permissions[..k + 1]) == Members(s.permissions[..k]) + {s.permissions[k]};
        }
        assert s.permissions[..|s.permissions|] == s.permissions;
        var eb := EffectiveBinding(s.roleId, perms, s.source, s.sourceId, s.scopeType, s.scopeId, None);
        if s.expiresAt.Some? {
          eb := eb.(expiresAt := Some(s.expiresAt.value * SECOND));
        }
        out := out + [eb];
      }
      assert payload[..|payload|] == payload;
    }

    /** Answers from L1, then from Redis if it can be read, then from the wrapped provider
        (`inner` is what that would answer). A miss fills L1, and Redis too when the answer is
        new and the write goes through; an error fills nothing. */
    method EffectiveBindingsForUser(tenantId: int, userId: int, at: Readings, inner: Result<seq<EffectiveBinding>>,
                                    readable: bool, writable: bool)
      returns (out: Result<seq<EffectiveBinding>>)
      modifies this`l1, rdb
      ensures rdb != null ==> rdb.published == old(rdb.published)
      ensures var key := CacheKey(tenantId, userId);
              var near := L1Lookup(old(l1), key, at.near);
              var far := if rdb != null && readable then L2Lookup(old(rdb.store), key, at.far) else None;
              && (near.Some? ==> out == Ok(near.value) && l1 == old(l1))
              && (near.None? && far.Some? ==> out == Ok(far.value))
              && (near.None? && far.None? ==> out == inner)
              && (near.None?
                  ==> l1 == if out.Ok? then old(l1)[key := L1Entry(out.value, at.fillNear + l1TTL)] else old(l1))
              && (rdb != null ==>
                  if near.None? && far.None? && inner.Ok? && writable then
                    exists payload :: EncodesAll(payload, inner.value)
                                      && rdb.store == old(rdb.store)[key := L2Entry(payload, at.fillFar + l2TTL)]
                  else rdb.store == old(rdb.store))
    {
      var key := CacheKey(tenantId, userId);
      if key in l1 && at.near <= l1[key].expireAt {
        return Ok(l1[key].bindings);
      }
      if rdb != null && readable && key in rdb.store && at.far < rdb.store[key].expireAt {
        var v := Deserialize(rdb.store[key].payload);
        l1 := l1[key := L1Entry(v, at.fillNear + l1TTL)];
        return Ok(v);
      }
      if inner.Err? {
        return inner;
      }
      l1 := l1[key := L1Entry(inner.value, at.fillNear + l1TTL)];
      if rdb != null {
        var payload := Serialize(inner.value);
        if writable {
          rdb.store := rdb.store[key := L2Entry(payload, at.fillFar + l2TTL)];
        }
      }
      return inner;
    }

    /** Drops the entry here, then in Redis, then tells the other pods; a failing step ends
        the call and leaves the later ones undone. */
    method Invalidate(tenantId: int, userId: int, deleted: bool, sent: bool) returns (ok: bool)
      modifies this`l1, rdb
      ensures ok == (rdb == null || (deleted && sent))
      ensures l1 == old(l1) - {CacheKey(tenantId, userId)}
      ensures rdb != null
          ==> rdb.store == if deleted then old(rdb.store) - {CacheKey(tenantId, userId)} else old(rdb.store)
      ensures rdb != null ==> rdb.published == if deleted && sent then old(rdb.published) + [CacheKey(tenantId, userId)]
                                                                  else old(rdb.published)
    {
      var key := CacheKey(tenantId, userId);
      l1 := l1 - {key};
      if rdb == null {
        return true;
      }
      if !deleted {
        return false;
      }
      rdb.store := rdb.store - {key};
      if !sent {
        return false;
      }
      rdb.published := rdb.published + [key];
      return true;
    }

    /** Clears L1 here and broadcasts the sentinel; the purge of Redis runs later, elsewhere. */
    method InvalidateAll(sent: bool) returns (ok: bool)
      modifies this`l1, rdb
      ensures l1 == map[] && ok == (rdb == null || sent)
      ensures rdb != null ==> rdb.store == old(rdb.store)
      ensures rdb != null
          ==> rdb.published == if sent then old(rdb.published) + [INVALIDATE_ALL] else old(rdb.published)
    {
      l1 := map[];
      if rdb == null {
        return true;
      }
      if sent {
        rdb.published := rdb.published + [INVALIDATE_ALL];
      }
      return sent;
    }

    /** The subscriber: applies broadcasts in order of arrival. What is left is exactly what no
        broadcast named, and nothing at all if any of them was the sentinel. */
    method HandleMessages(messages: seq<string>)
      modifies this`l1
      ensures l1 == map k | k in old(l1) && k !in messages && INVALIDATE_ALL !in messages :: old(l1)[k]
    {
      for i := 0 to |messages|
        invariant l1 == map k | k in old(l1) && k !in messages[..i] && INVALIDATE_ALL !in messages[..i] :: old(l1)[k]
      {
        assert messages[..i + 1] == messages[..i] + [messages[i]];
        if messages[i] == INVALIDATE_ALL {
          l1 := map[];
        } else {
          l1 := l1 - {messages[i]};
        }
      }
      assert messages[..|messages|] == messages;
    }
  }
}
