/**
  The cache of identity store pages: one dictionary per kind of user, entries of five minutes.

  An expired entry is deleted from the dictionary of users, whichever dictionary it was found in.
 */
module IdcCache {
  import opened Domain

  datatype CacheType = Admin | Manager | User

  datatype UserPage = UserPage(users: seq<Email>, nextPageIdentifier: Option<string>)

  datatype UserCacheEntry = UserCacheEntry(users: UserPage, lastUpdated: int)

  const CACHE_EXPIRATION_MILLI: int := 5 * 60 * 1000

  predicate Expired(entry: Option<UserCacheEntry>, now: int) {
    entry.Some? && now - entry.value.lastUpdated > CACHE_EXPIRATION_MILLI
  }

  // ----- Histories -----

  datatype CacheEvent =
    | Stored(cacheType: CacheType, key: string, users: UserPage, at: int)
    | LookedUp(cacheType: CacheType, key: string, at: int)
    | Cleared(at: int)

  predicate Stores(e: CacheEvent, t: CacheType, key: string) {
    e.Stored? && e.cacheType == t && e.key == key
  }

  /** The ideal cache: what was last stored for the key since the cache was last cleared. */
  function LastStored(history: seq<CacheEvent>, t: CacheType, key: string): Option<UserCacheEntry>
    decreases |history|
  {
    if history == [] then None
    else
      var last := history[|history| - 1];
      if last.Cleared? then None
      else if Stores(last, t, key) then Some(UserCacheEntry(last.users, last.at))
      else LastStored(history[..|history| - 1], t, key)
  }

  /** What the dictionary of `t` holds for the key. */
  function Held(history: seq<CacheEvent>, t: CacheType, key: string): Option<UserCacheEntry>
    decreases |history|
  {
    if history == [] then None
    else
      var last, before := history[|history| - 1], history[..|history| - 1];
      if last.Cleared? then None
      else if Stores(last, t, key) then Some(UserCacheEntry(last.users, last.at))
      else if t.User? && last.LookedUp? && last.key == key && Expired(Held(before, last.cacheType, key), last.at) then None
      else Held(before, t, key)
  }

  class Cache {
    var cachedUsers: map<string, UserCacheEntry>
    var cachedManagers: map<string, UserCacheEntry>
    var cachedAdmins: map<string, UserCacheEntry>
    ghost var history: seq<CacheEvent>

    function GetCacheObject(t: CacheType): map<string, UserCacheEntry>
      reads this
    {
      match t
      case Admin => cachedAdmins
      case Manager => cachedManagers
      case User => cachedUsers
    }

    ghost predicate Valid()
      reads this
    {
      && (forall key: string :: Lookup(cachedUsers, key) == Held(history, User, key))
      && (forall key: string :: Lookup(cachedManagers, key) == Held(history, Manager, key))
      && (forall key: string :: Lookup(cachedAdmins, key) == Held(history, Admin, key))
    }

    constructor ()
      ensures Valid() && history == []
    {
      cachedUsers, cachedManagers, cachedAdmins, history := map[], map[], map[], [];
    }

    /** A hit is what was last stored for the key, at most five minutes ago. */
    method GetCachedObjects(t: CacheType, key: string, now: int) returns (users: Option<UserPage>)
      requires Valid()
      modifies this
      ensures Valid() && history == old(history) + [LookedUp(t, key, now)]
      ensures var held, last := Held(old(history), t, key), LastStored(old(history), t, key);
              && (users.Some? <==> held.Some? && now - held.value.lastUpdated <= 300000)
              && (users.Some? ==> last.Some? && now - last.value.lastUpdated <= 300000 && users.value == last.value.users)
    {
      HeldIsLastStored(history, t, key);
      var cache := GetCacheObject(t);
      assert Lookup(cache, key) == Held(history, t, key);
      assert (history + [LookedUp(t, key, now)])[..|history|] == history;
      history := history + [LookedUp(t, key, now)];
      if key in cache {
        var diff := now - cache[key].lastUpdated;
        if diff > CACHE_EXPIRATION_MILLI {
          cachedUsers := cachedUsers - {key};
          users := None;
        } else {
          users := Some(cache[key].users);
        }
      } else {
        users := None;
      }
    }

    method CacheObjects(t: CacheType, key: string, users: UserPage, now: int)
      requires Valid()
      modifies this
      ensures Valid() && history == old(history) + [Stored(t, key, users, now)]
    {
      assert (history + [Stored(t, key, users, now)])[..|history|] == history;
      history := history + [Stored(t, key, users, now)];
      match t
      case Admin => cachedAdmins := cachedAdmins[key := UserCacheEntry(users, now)];
      case Manager => cachedManagers := cachedManagers[key := UserCacheEntry(users, now)];
      case User => cachedUsers := cachedUsers[key := UserCacheEntry(users, now)];
    }

    method ClearCache(now: int)
      requires Valid()
      modifies this
      ensures Valid() && history == old(history) + [Cleared(now)]
    {
      cachedUsers, cachedManagers, cachedAdmins := map[], map[], map[];
      history := history + [Cleared(now)];
    }
  }

  function Lookup(cache: map<string, UserCacheEntry>, key: string): Option<UserCacheEntry> {
    if key in cache then Some(cache[key]) else None
  }

  // ----- The cache against the ideal one -----

  /** Entry `i` of the history stored the entry, and it was neither cleared nor stored over since. */
  ghost predicate StoredLastAt(history: seq<CacheEvent>, t: CacheType, key: string, entry: UserCacheEntry, i: int) {
    && 0 <= i < |history| && history[i] == Stored(t, key, entry.users, entry.lastUpdated)
    && forall j :: i < j < |history| ==>
         !history[j].Cleared? && !(history[j].Stored? && history[j].cacheType == t && history[j].key == key)
  }

  lemma {:induction false} LastStoredIs(history: seq<CacheEvent>, t: CacheType, key: string, entry: UserCacheEntry)
    ensures LastStored(history, t, key) == Some(entry) <==> exists i :: StoredLastAt(history, t, key, entry, i)
    decreases |history|
  {
    if history != [] {
      var n := |history| - 1;
      var before := history[..n];
      LastStoredIs(before, t, key, entry);
      if !history[n].Cleared? && !Stores(history[n], t, key) {
        assert forall i :: 0 <= i < n ==>
          (StoredLastAt(history, t, key, entry, i) <==> StoredLastAt(before, t, key, entry, i));
      } else if history[n] == Stored(t, key, entry.users, entry.lastUpdated) {
        assert StoredLastAt(history, t, key, entry, n);
      }
    }
  }

  /** An entry is never stale or foreign: the dictionaries only ever lack entries, and only that of users does. */
  lemma {:induction false} HeldIsLastStored(history: seq<CacheEvent>, t: CacheType, key: string)
    ensures Held(history, t, key).Some? ==> Held(history, t, key) == LastStored(history, t, key)
    ensures !t.User? ==> Held(history, t, key) == LastStored(history, t, key)
    decreases |history|
  {
    if history != [] {
      HeldIsLastStored(history[..|history| - 1], t, key);
    }
  }

  /** The lookup at `i` deleted the entry of the key from the dictionary of users, and nothing was stored there since. */
  ghost predicate EvictedAt(history: seq<CacheEvent>, key: string, i: int) {
    && 0 <= i < |history|
    && history[i].LookedUp? && history[i].key == key
    && Untouched(history, key, i)
    && var held := Held(history[..i], history[i].cacheType, key);
       held.Some? && history[i].at - held.value.lastUpdated > 300000
  }

  ghost predicate Untouched(history: seq<CacheEvent>, key: string, i: int) {
    0 <= i <= |history| && forall j :: i <= j < |history| ==> !history[j].Cleared? && !Stores(history[j], User, key)
  }

  lemma {:induction false} UntouchedKeepsLast(history: seq<CacheEvent>, key: string, i: nat)
    requires Untouched(history, key, i)
    ensures LastStored(history, User, key) == LastStored(history[..i], User, key)
    decreases |history|
  {
    if i < |history| {
      var before := history[..|history| - 1];
      assert before[..i] == history[..i];
      UntouchedKeepsLast(before, key, i);
    } else {
      assert history[..i] == history;
    }
  }

  lemma EvictionExtends(before: seq<CacheEvent>, e: CacheEvent, key: string, i: int)
    requires !e.Cleared? && !Stores(e, User, key) && 0 <= i < |before|
    ensures EvictedAt(before + [e], key, i) <==> EvictedAt(before, key, i)
  {
    var history := before + [e];
    assert history[..i] == before[..i] && history[i] == before[i];
    assert forall j :: 0 <= j < |before| ==> history[j] == before[j];
    assert history[|before|] == e;
  }

  /** What the dictionary of users lacks, it lacks because of a lookup that found an expired entry. */
  lemma {:induction false} LackingIffEvicted(history: seq<CacheEvent>, key: string)
    requires LastStored(history, User, key).Some?
    ensures Held(history, User, key).None? <==> exists i :: EvictedAt(history, key, i)
    decreases |history|
  {
    var n := |history| - 1;
    var last, before := history[n], history[..n];
    assert history == before + [last];
    if Stores(last, User, key) {
      assert forall i :: 0 <= i < |history| ==> !Untouched(history, key, i);
    } else {
      LackingIffEvicted(before, key);
      forall i | 0 <= i < n
        ensures EvictedAt(history, key, i) <==> EvictedAt(before, key, i)
      {
        EvictionExtends(before, last, key, i);
      }
      assert EvictedAt(history, key, n) <==>
        last.LookedUp? && last.key == key && Expired(Held(before, last.cacheType, key), last.at);
    }
  }

  ghost predicate ClockAdvances(history: seq<CacheEvent>, now: int) {
    forall i :: 0 <= i < |history| ==> history[i].at <= now
  }

  /**
    Against the ideal cache a lookup misses only for users, and it does so iff an expired page of managers or admins was
    looked up under the same key since the page of users was stored.
   */
  lemma MissesIffCrossEvicted(history: seq<CacheEvent>, t: CacheType, key: string, now: int)
    requires var last := LastStored(history, t, key); last.Some? && now - last.value.lastUpdated <= 300000
    requires ClockAdvances(history, now)
    ensures var held := Held(history, t, key);
            held.None? || now - held.value.lastUpdated > 300000 <==>
              t.User? && exists i :: EvictedAt(history, key, i) && !history[i].cacheType.User?
  {
    HeldIsLastStored(history, t, key);
    if t.User? {
      LackingIffEvicted(history, key);
      forall i | EvictedAt(history, key, i)
        ensures !history[i].cacheType.User?
      {
        UntouchedKeepsLast(history, key, i);
        HeldIsLastStored(history[..i], User, key);
      }
    }
  }
}
