/** The bearer cache both reconcilers share: what a hit returns, and how often an exchange is made. */
module TokenBroker {
  import opened Wrappers

  const SECOND := 1_000_000_000
  const LEEWAY := 60 * SECOND

  datatype Key = Key(namespace: string, name: string)

  datatype Bearer = Bearer(token: string, expiresAt: int)

  /** What has been done to the cache, under its lock, so far. */
  datatype Event = Put(key: Key, bearer: Bearer, at: int) | Invalidated(key: Key)

  /** The bearer of the latest put for `key`, unless an invalidation came after it. */
  function Latest(events: seq<Event>, key: Key): Option<Bearer>
    decreases |events|
  {
    if events == [] then None else
      var last := events[|events| - 1];
      if last.key != key then Latest(events[..|events| - 1], key)
      else if last.Put? then Some(last.bearer) else None
  }

  /** The puts at `i` and `j` are for one key, with no put or invalidation of it in between. */
  ghost predicate Successive(events: seq<Event>, i: int, j: int) {
    && 0 <= i < j < |events| && events[i].Put? && events[j].Put? && events[i].key == events[j].key
    && forall k | i < k < j :: events[k].key != events[i].key
  }

  /** Successive puts are apart by at least the lifetime of the first bearer less the leeway. */
  ghost predicate Spaced(events: seq<Event>) {
    forall i, j | Successive(events, i, j) ::
      events[j].at - events[i].at >= (events[i].bearer.expiresAt - events[i].at) - LEEWAY
  }

  lemma {:induction false} LatestIsLastPut(events: seq<Event>, key: Key, i: nat)
    requires i < |events| && events[i].Put? && events[i].key == key
    requires forall k | i < k < |events| :: events[k].key != key
    ensures Latest(events, key) == Some(events[i].bearer)
    decreases |events|
  {
    if i < |events| - 1 {
      LatestIsLastPut(events[..|events| - 1], key, i);
    }
  }

  /** What the latest bearer of a key is: put at some point, with no put or invalidation of it since. */
  lemma {:induction false} LatestExactly(events: seq<Event>, key: Key, bearer: Bearer)
    ensures Latest(events, key) == Some(bearer) <==>
              exists i | 0 <= i < |events| :: events[i].Put? && events[i].key == key && events[i].bearer == bearer
                         && forall k | i < k < |events| :: events[k].key != key
    decreases |events|
  {
    if events != [] && events[|events| - 1].key != key {
      LatestExactly(events[..|events| - 1], key, bearer);
    }
    if i :| 0 <= i < |events| && events[i].Put? && events[i].key == key && events[i].bearer == bearer
            && forall k | i < k < |events| :: events[k].key != key {
      LatestIsLastPut(events, key, i);
    }
  }

  /** A put stays apart from the one before it when that one is close to expiry or was invalidated. */
  lemma PutKeepsSpaced(events: seq<Event>, key: Key, bearer: Bearer, at: int)
    requires Spaced(events)
    requires var latest := Latest(events, key); latest.Some? ==> latest.value.expiresAt - at <= LEEWAY
    ensures Spaced(events + [Put(key, bearer, at)])
  {
    var longer := events + [Put(key, bearer, at)];
    forall i, j | Successive(longer, i, j)
      ensures longer[j].at - longer[i].at >= (longer[i].bearer.expiresAt - longer[i].at) - LEEWAY
    {
      assert forall k | i < k < j :: longer[k].key != longer[i].key;
      if j < |events| {
        assert forall k | i < k < j :: longer[k].key == events[k].key;
        assert Successive(events, i, j);
      } else {
        assert forall k | i < k < |events| :: events[k] == longer[k];
        LatestIsLastPut(events, key, i);
      }
    }
  }

  lemma InvalidationKeepsSpaced(events: seq<Event>, key: Key)
    requires Spaced(events)
    ensures Spaced(events + [Invalidated(key)])
  {
    var longer := events + [Invalidated(key)];
    forall i, j | Successive(longer, i, j)
      ensures longer[j].at - longer[i].at >= (longer[i].bearer.expiresAt - longer[i].at) - LEEWAY
    {
      assert forall k | i < k < j :: longer[k].key == events[k].key;
      assert Successive(events, i, j);
    }
  }

  /** How a connection says where its token comes from. */
  datatype Source = Source(tokenSecret: Option<Result<string, string>>, oidc: bool)

  /** What the environment answers to one cache miss: the projected token file, then the exchange. */
  datatype Answer = NoFile | EmptyFile | Rejected | Exchanged(bearer: Bearer)

  class Broker {
    var cache: map<Key, Bearer>
    ghost var events: seq<Event>
    /** The latest time at which the cache was consulted. */
    ghost var clock: int

    /** A cached bearer is the latest put; a missing one is within the leeway of its expiry. */
    ghost predicate Valid()
      reads this
    {
      && (forall key | key in cache :: Latest(events, key) == Some(cache[key]))
      && (forall key | key !in cache && Latest(events, key).Some? ::
            Latest(events, key).value.expiresAt - clock <= LEEWAY)
    }

    constructor (now: int)
      ensures Valid() && events == [] && clock == now
    {
      cache, events, clock := map[], [], now;
    }

    /** `cacheGet`. A hit is the latest put with more than the leeway left; a miss means there is none. */
    method CacheGet(key: Key, now: int) returns (hit: Option<string>)
      requires Valid() && clock <= now
      modifies this
      ensures Valid() && events == old(events) && clock == now
      ensures hit.Some? <==> Latest(events, key).Some? && Latest(events, key).value.expiresAt - now > 60_000_000_000
      ensures hit.Some? ==> hit.value == Latest(events, key).value.token
      ensures forall other | other != key :: (other in cache <==> other in old(cache))
    {
      clock := now;
      if key !in cache {
        return None;
      }
      var entry := cache[key];
      if entry.expiresAt - now <= LEEWAY {
        cache := cache - {key};
        return None;
      }
      return Some(entry.token);
    }

    /** `cachePut`. */
    method CachePut(key: Key, bearer: Bearer, ghost at: int)
      requires Valid()
      modifies this
      ensures Valid() && events == old(events) + [Put(key, bearer, at)] && clock == old(clock)
    {
      cache := cache[key := bearer];
      events := events + [Put(key, bearer, at)];
      assert events[..|events| - 1] == old(events);
    }

    /** `Invalidate`. */
    method Invalidate(key: Key)
      requires Valid()
      modifies this
      ensures Valid() && events == old(events) + [Invalidated(key)] && clock == old(clock)
      ensures old(Spaced(events)) ==> Spaced(events)
    {
      if Spaced(events) {
        InvalidationKeepsSpaced(events, key);
      }
      cache := cache - {key};
      events := events + [Invalidated(key)];
      assert events[..|events| - 1] == old(events);
    }

    /** `loadFromOIDC` by one caller on its own: the cached bearer, or a freshly exchanged one. Calls of
        this kind, for whatever keys, keep the exchanges of each key apart. */
    method LoadFromOIDC(key: Key, now: int, answer: Answer) returns (token: Option<string>)
      requires Valid() && clock <= now
      modifies this
      ensures Valid() && clock == now
      ensures var latest := old(Latest(events, key));
              if latest.Some? && latest.value.expiresAt - now > 60_000_000_000 then
                token == Some(latest.value.token) && events == old(events)
              else if answer.Exchanged? then
                token == Some(answer.bearer.token) && events == old(events) + [Put(key, answer.bearer, now)]
              else token == None && events == old(events)
      ensures old(Spaced(events)) ==> Spaced(events)
    {
      var cached := CacheGet(key, now);
      if cached.Some? {
        return cached;
      }
      match answer {
        case NoFile => return None;
        case EmptyFile => return None;
        case Rejected => return None;
        case Exchanged(bearer) =>
          if Spaced(events) {
            PutKeepsSpaced(events, key, bearer, now);
          }
          CachePut(key, bearer, now);
          return Some(bearer.token);
      }
    }

    /** `TokenFor`: exactly one of the two sources must be configured. */
    method TokenFor(key: Key, source: Source, now: int, answer: Answer) returns (token: Option<string>)
      requires Valid() && clock <= now
      modifies this
      ensures Valid()
      ensures old(Spaced(events)) ==> Spaced(events)
      ensures source.tokenSecret.Some? == source.oidc ==> token.None? && events == old(events)
      ensures source.tokenSecret.Some? && !source.oidc ==>
                && events == old(events)
                && token == match source.tokenSecret.value
                            case Ok(t) => (if t == "" then None else Some(t))
                            case Err(_) => None
      ensures source.tokenSecret.None? && source.oidc ==>
                var latest := old(Latest(events, key));
                if latest.Some? && latest.value.expiresAt - now > 60_000_000_000 then
                  token == Some(latest.value.token) && events == old(events)
                else if answer.Exchanged? then
                  token == Some(answer.bearer.token) && events == old(events) + [Put(key, answer.bearer, now)]
                else token == None && events == old(events)
    {
      match source.tokenSecret {
        case None =>
          if !source.oidc {
            return None;
          }
          token := LoadFromOIDC(key, now, answer);
        case Some(stored) =>
          if source.oidc {
            return None;
          }
          match stored {
            case Ok(t) => return if t == "" then None else Some(t);
            case Err(_) => return None;
          }
      }
    }
  }
}
