/** The session check and the icon-hash cache of the user handlers.
    Clocks are parameters: `nowUnix` in Unix seconds for the session check,
    `now` in nanoseconds (Go's `time.Time`) for the cache. */
module UserHandler {
  import opened Optional

  /** The values a request's session carries, each possibly missing. */
  datatype Session = Session(expires: Option<int>, userId: Option<int>)

  datatype SessionError = MissingExpires | MissingUserId | SessionExpired

  /** `verifyUserSession`: the expiry value must be present, then the user id,
      and the session is expired only once the clock has passed the expiry
      second; the expiry second itself is still valid. */
  function VerifyUserSession(session: Session, nowUnix: int): (err: Option<SessionError>)
    ensures err == None <==>
      session.expires.Some? && session.userId.Some? && nowUnix <= session.expires.value
    ensures err == Some(SessionExpired) <==>
      session.expires.Some? && session.userId.Some? && nowUnix > session.expires.value
    ensures err == Some(MissingExpires) <==> session.expires.None?
  {
    if session.expires.None? then Some(MissingExpires)
    else if session.userId.None? then Some(MissingUserId)
    else if nowUnix > session.expires.value then Some(SessionExpired)
    else None
  }

  /** A session accepted at some second is accepted at every earlier one. */
  lemma SessionValidBeforeExpiry(session: Session, earlier: int, later: int)
    requires earlier <= later
    requires VerifyUserSession(session, later) == None
    ensures VerifyUserSession(session, earlier) == None
  {
  }

  /** The TTL `getIconHashCache` stores hashes with: two seconds. */
  const IconHashTtl: int := 2_000_000_000

  datatype CacheEntry = CacheEntry(value: string, expiration: int)

  /** `time.Now().After(e.expiration)`: strictly after. */
  predicate Expired(e: CacheEntry, now: int) {
    now > e.expiration
  }

  /** What `Get` reports for a key at time `now`. */
  function Lookup(data: map<int, CacheEntry>, key: int, now: int): (r: Option<string>)
    ensures r.Some? <==> key in data && !Expired(data[key], now)
    ensures r.Some? ==> r.value == data[key].value
  {
    if key in data && !Expired(data[key], now) then Some(data[key].value) else None
  }

  /** The cache after `Get`: an expired entry that was read is evicted. */
  function AfterGet(data: map<int, CacheEntry>, key: int, now: int): (r: map<int, CacheEntry>)
    ensures key in data && Expired(data[key], now) ==> r == data - {key}
    ensures !(key in data && Expired(data[key], now)) ==> r == data
  {
    if key in data && Expired(data[key], now) then data - {key} else data
  }

  /** The cache after `Cleanup`. The clock is read again at each entry the
      sweep visits: `visitedAt(k)` is the reading taken at key k. */
  function SweptAt(data: map<int, CacheEntry>, visitedAt: int -> int): (r: map<int, CacheEntry>)
    ensures forall k :: k in r <==> k in data && !Expired(data[k], visitedAt(k))
    ensures forall k :: k in r ==> r[k] == data[k]
  {
    map k | k in data && !Expired(data[k], visitedAt(k)) :: data[k]
  }

  /** `IconHashCache`: a keyed store of hashes, each with its own expiry. */
  class IconHashCache {
    var data: map<int, CacheEntry>

    constructor ()
      ensures data == map[]
    {
      data := map[];
    }

    method Set(key: int, hash: string, ttl: int, now: int)
      modifies this
      ensures data == old(data)[key := CacheEntry(hash, now + ttl)]
    {
      data := data[key := CacheEntry(hash, now + ttl)];
    }

    method Get(key: int, now: int) returns (value: string, ok: bool)
      modifies this
      ensures ok <==> Lookup(old(data), key, now).Some?
      ensures ok ==> value == Lookup(old(data), key, now).value
      ensures !ok ==> value == ""
      ensures data == AfterGet(old(data), key, now)
    {
      if key !in data {
        return "", false;
      }
      var e := data[key];
      if now > e.expiration {
        data := data - {key};
        return "", false;
      }
      return e.value, true;
    }

    method Delete(key: int)
      modifies this
      ensures data == old(data) - {key}
    {
      data := data - {key};
    }

    /** Visits every entry once, reading the clock at each and deleting the
        entry when it has expired by then. */
    method Cleanup(visitedAt: int -> int)
      modifies this
      ensures data == SweptAt(old(data), visitedAt)
    {
      var pending := data.Keys;
      while pending != {}
        invariant pending <= old(data).Keys
        invariant data == map k | k in old(data) && (k in pending || !Expired(old(data)[k], visitedAt(k))) :: old(data)[k]
        decreases pending
      {
        // A non-empty set has a member: this case split is what lets the
        // verifier pick `key` below.
        if forall k :: k !in pending {
          assert false;
        }
        var key :| key in pending;
        var now := visitedAt(key);
        if now > data[key].expiration {
          data := data - {key};
        }
        pending := pending - {key};
      }
    }

    method CleanupAll()
      modifies this
      ensures data == map[]
    {
      var pending := data.Keys;
      while pending != {}
        invariant data.Keys == pending
        decreases pending
      {
        // A non-empty set has a member: this case split is what lets the
        // verifier pick `key` below.
        if forall k :: k !in pending {
          assert false;
        }
        var key :| key in pending;
        data := data - {key};
        pending := pending - {key};
      }
    }
  }

  /** After `Set(k, h, ttl)` at time t, `Get(k)` finds h at every time up to
      and including t + ttl and leaves the cache as it is; later it misses and
      evicts k. */
  lemma SetThenGet(data: map<int, CacheEntry>, key: int, hash: string, ttl: int, setAt: int, now: int)
    ensures var d := data[key := CacheEntry(hash, setAt + ttl)];
      && (now <= setAt + ttl ==> Lookup(d, key, now) == Some(hash) && AfterGet(d, key, now) == d)
      && (now > setAt + ttl ==> Lookup(d, key, now) == None && AfterGet(d, key, now) == data - {key})
  {
    var d := data[key := CacheEntry(hash, setAt + ttl)];
    assert d - {key} == data - {key};
  }

  /** `Set` on a key replaces its value and expiration and no other entry. */
  lemma SetReplacesOnlyItsKey(data: map<int, CacheEntry>, key: int, hash: string, ttl: int, now: int, other: int)
    requires other != key
    ensures Lookup(data[key := CacheEntry(hash, now + ttl)], other, now) == Lookup(data, other, now)
    ensures data[key := CacheEntry(hash, now + ttl)][key] == CacheEntry(hash, now + ttl)
  {
  }

  /** `Get` of an absent key misses and changes nothing; `Get` of an expired
      key misses and removes that key only. */
  lemma GetMisses(data: map<int, CacheEntry>, key: int, now: int)
    ensures key !in data ==> Lookup(data, key, now) == None && AfterGet(data, key, now) == data
    ensures key in data && Expired(data[key], now) ==>
      && Lookup(data, key, now) == None
      && AfterGet(data, key, now).Keys == data.Keys - {key}
      && forall k :: k in AfterGet(data, key, now) ==> AfterGet(data, key, now)[k] == data[k]
  {
  }

  /** A sweep is invisible to a later `Get`: once the clock has passed the
      reading the sweep took at a key, `Get` of that key answers the same
      with or without the sweep. */
  lemma CleanupInvisibleToGet(data: map<int, CacheEntry>, visitedAt: int -> int, now: int, key: int)
    requires visitedAt(key) <= now
    ensures Lookup(SweptAt(data, visitedAt), key, now) == Lookup(data, key, now)
  {
  }

  /** A second sweep with the same readings removes nothing. */
  lemma CleanupIdempotent(data: map<int, CacheEntry>, visitedAt: int -> int)
    ensures SweptAt(SweptAt(data, visitedAt), visitedAt) == SweptAt(data, visitedAt)
  {
  }

  /** A clock that gives the same reading at every entry. */
  function Constantly(now: int): int -> int
  {
    _ => now
  }

  /** Because the clock is read per entry, a sweep can keep an entry that
      expires before another one it deletes: no single clock reading gives
      that result. */
  lemma CleanupReadsClockPerEntry(t0: int)
    ensures var data := map[1 := CacheEntry("a", t0), 2 := CacheEntry("b", t0 + 1)];
      var visitedAt := (k: int) => if k == 1 then t0 else t0 + 2;
      && SweptAt(data, visitedAt) == map[1 := CacheEntry("a", t0)]
      && forall now :: SweptAt(data, Constantly(now)) != SweptAt(data, visitedAt)
  {
    var data := map[1 := CacheEntry("a", t0), 2 := CacheEntry("b", t0 + 1)];
    var visitedAt := (k: int) => if k == 1 then t0 else t0 + 2;
    assert SweptAt(data, visitedAt) == map[1 := CacheEntry("a", t0)];
    forall now ensures SweptAt(data, Constantly(now)) != SweptAt(data, visitedAt) {
      if now <= t0 {
        assert 2 in SweptAt(data, Constantly(now));
      } else {
        assert 1 !in SweptAt(data, Constantly(now));
      }
    }
  }

  /** The outcome of `SELECT image FROM icons WHERE user_id = ?`. */
  datatype IconQuery = IconFound(image: seq<bv8>) | NoIconRow | QueryFailed

  datatype IconHashResult = IconHash(hash: string) | IconQueryError

  /** `getIconHashCache`: read through the cache; on a miss hash the user's
      icon (the fallback image when there is none) with `digest` (SHA-256
      printed in hex, not modelled) and store it for two seconds. `Get` and
      `Set` each read the clock, hence two clock values. */
  method GetIconHash(cache: IconHashCache, userId: int, getNow: int, setNow: int,
                     icon: IconQuery, noImage: seq<bv8>, digest: seq<bv8> -> string)
    returns (r: IconHashResult)
    modifies cache
    ensures Lookup(old(cache.data), userId, getNow).Some? ==>
      r == IconHash(Lookup(old(cache.data), userId, getNow).value) && cache.data == old(cache.data)
    ensures Lookup(old(cache.data), userId, getNow).None? && icon.QueryFailed? ==>
      r == IconQueryError && cache.data == AfterGet(old(cache.data), userId, getNow)
    ensures Lookup(old(cache.data), userId, getNow).None? && !icon.QueryFailed? ==>
      var hash := digest(if icon.IconFound? then icon.image else noImage);
      r == IconHash(hash) && cache.data == old(cache.data)[userId := CacheEntry(hash, setNow + IconHashTtl)]
  {
    var v, ok := cache.Get(userId, getNow);
    if ok {
      return IconHash(v);
    }
    var image: seq<bv8>;
    match icon {
      case IconFound(img) => image := img;
      case NoIconRow => image := noImage;
      case QueryFailed => return IconQueryError;
    }
    var hash := digest(image);
    cache.Set(userId, hash, IconHashTtl, setNow);
    assert AfterGet(old(cache.data), userId, getNow)[userId := CacheEntry(hash, setNow + IconHashTtl)]
        == old(cache.data)[userId := CacheEntry(hash, setNow + IconHashTtl)];
    return IconHash(hash);
  }
}
