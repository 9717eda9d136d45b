/**
 * RammerheadSessionFilePersistentStore: every session lives in a folder `<id>.rhsession`
 * whose tree holds the session's fields, read and written in place. The store keeps an
 * in-memory `Map` of wrapper objects, each a view of its session's folder: the folder is
 * the authority, and an id whose folder is gone is absent even when a wrapper is cached.
 * The save directory is a map from folder name to the session its tree holds.
 */
module PersistentStores {
  import opened Wrappers
  import opened JsMaps
  import opened Sessions

  /** `_getSessionFolderPath(id)`, without the directory. */
  function FolderOf(id: string): string {
    EntryName(id, FolderExtension)
  }

  /** Ids without slashes have folders of their own. */
  lemma FolderOfInjective(a: string, b: string)
    requires PlainId(a) && PlainId(b) && a != b
    ensures FolderOf(a) != FolderOf(b)
  {
    EntryNameInjective(a, b, FolderExtension);
  }

  /**
   * A cached wrapper object. It holds nothing of its own: every field it serves is read
   * from, and written to, the folder of its id.
   */
  datatype Wrapper = Wrapper

  /** The two tiers of the store: the wrappers and the save directory. */
  datatype Tiers = Tiers(cache: JsMap<string, Wrapper>, folders: map<string, Session>)

  /** The wrappers after `get(id)` has found the folder: a wrapper is cached unless one already was. */
  function WrapperCached(cache: JsMap<string, Wrapper>, id: string): (r: JsMap<string, Wrapper>)
    requires cache.Valid()
    ensures r.Valid() && id in r.entries && r.entries - {id} == cache.entries - {id}
  {
    if id in cache.entries then cache else Set(cache, id, Wrapper)
  }

  /**
   * One turn of `_cleanupRun` for `id`: `get(id, false)`, which caches a wrapper whatever its
   * third argument says, and `delete(id)` when the session has expired. An id whose folder
   * is gone changes nothing, and throws only when an enabled threshold makes the test read a
   * field of `undefined`. Nothing but the id's wrapper and its folder can change.
   */
  function CleanupStep(t: Tiers, id: string, staleTimeout: Option<int>, maxToLive: Option<int>, now: int)
    : (r: Run<Tiers>)
    requires t.cache.Valid()
    ensures r.tiers.cache.Valid()
    ensures r.tiers.cache.entries - {id} == t.cache.entries - {id}
    ensures r.tiers.folders - {FolderOf(id)} == t.folders - {FolderOf(id)}
    ensures FolderOf(id) !in t.folders ==>
      r.tiers == t && (r.thrown == None <==> !Enabled(staleTimeout) && !Enabled(maxToLive))
  {
    if FolderOf(id) !in t.folders then Run(t, Thrown(ExpiryTest(None, now, staleTimeout, maxToLive)))
    else
      var cache := WrapperCached(t.cache, id);
      if Expired(t.folders[FolderOf(id)], now, staleTimeout, maxToLive)
      then Run(Tiers(JsMaps.Delete(cache, id), t.folders - {FolderOf(id)}), None)
      else Run(Tiers(cache, t.folders), None)
  }

  /** The turns of a cleanup run over `ids`, in order, up to the first that throws. */
  function CleanupFold(t: Tiers, ids: seq<string>, staleTimeout: Option<int>, maxToLive: Option<int>, now: int)
    : (r: Run<Tiers>)
    requires t.cache.Valid()
    ensures r.tiers.cache.Valid()
  {
    if |ids| == 0 then Run(t, None)
    else
      var prev := CleanupFold(t, ids[..|ids| - 1], staleTimeout, maxToLive, now);
      if prev.thrown.Some? then prev else CleanupStep(prev.tiers, ids[|ids| - 1], staleTimeout, maxToLive, now)
  }

  /** The run over one more id: the turn for that id, unless an earlier turn threw. */
  lemma CleanupFoldNext(t: Tiers, ids: seq<string>, i: nat, staleTimeout: Option<int>, maxToLive: Option<int>, now: int)
    requires t.cache.Valid() && i < |ids|
    ensures var prev := CleanupFold(t, ids[..i], staleTimeout, maxToLive, now);
      CleanupFold(t, ids[..i + 1], staleTimeout, maxToLive, now) ==
        if prev.thrown.Some? then prev else CleanupStep(prev.tiers, ids[i], staleTimeout, maxToLive, now)
  {
    assert ids[..i + 1][..i] == ids[..i];
  }

  /** Once a turn has thrown, the later ids are never visited. */
  lemma {:induction false} CleanupFoldPropagates(t: Tiers, ids: seq<string>, i: nat, staleTimeout: Option<int>,
                                                 maxToLive: Option<int>, now: int)
    requires t.cache.Valid() && i <= |ids|
    requires CleanupFold(t, ids[..i], staleTimeout, maxToLive, now).thrown.Some?
    ensures CleanupFold(t, ids, staleTimeout, maxToLive, now) == CleanupFold(t, ids[..i], staleTimeout, maxToLive, now)
  {
    if |ids| == i {
      assert ids[..i] == ids;
    } else {
      var init := ids[..|ids| - 1];
      assert init[..i] == ids[..i];
      CleanupFoldPropagates(t, init, i, staleTimeout, maxToLive, now);
    }
  }

  /** The ids a run can visit without throwing: distinct, free of slashes, and each with its folder. */
  ghost predicate Visitable(folders: map<string, Session>, ids: seq<string>) {
    Distinct(ids) && forall id :: id in ids ==> PlainId(id) && FolderOf(id) in folders
  }

  /** A run leaves the wrapper and the folder of an id it does not visit as they were. */
  lemma {:induction false} CleanupFoldElsewhere(t: Tiers, ids: seq<string>, staleTimeout: Option<int>,
                                                maxToLive: Option<int>, now: int, x: string)
    requires t.cache.Valid() && x !in ids && PlainId(x)
    requires forall id :: id in ids ==> PlainId(id)
    ensures var r := CleanupFold(t, ids, staleTimeout, maxToLive, now).tiers;
      && (x in r.cache.entries <==> x in t.cache.entries)
      && (x in r.cache.entries ==> r.cache.entries[x] == t.cache.entries[x])
      && (FolderOf(x) in r.folders <==> FolderOf(x) in t.folders)
      && (FolderOf(x) in r.folders ==> r.folders[FolderOf(x)] == t.folders[FolderOf(x)])
  {
    if |ids| > 0 {
      var init := ids[..|ids| - 1];
      var last := ids[|ids| - 1];
      assert ids == init + [last];
      CleanupFoldElsewhere(t, init, staleTimeout, maxToLive, now, x);
      FolderOfInjective(x, last);
      var prev := CleanupFold(t, init, staleTimeout, maxToLive, now);
      if prev.thrown.None? {
        var r := CleanupStep(prev.tiers, last, staleTimeout, maxToLive, now);
        assert x in r.tiers.cache.entries - {last} <==> x in prev.tiers.cache.entries - {last};
        assert FolderOf(x) in r.tiers.folders - {FolderOf(last)} <==> FolderOf(x) in prev.tiers.folders - {FolderOf(last)};
      }
    }
  }

  /** Over visitable ids a run never throws. */
  lemma {:induction false} CleanupFoldClean(t: Tiers, ids: seq<string>, staleTimeout: Option<int>,
                                            maxToLive: Option<int>, now: int)
    requires t.cache.Valid() && Visitable(t.folders, ids)
    ensures CleanupFold(t, ids, staleTimeout, maxToLive, now).thrown == None
  {
    if |ids| > 0 {
      var init := ids[..|ids| - 1];
      var last := ids[|ids| - 1];
      assert ids == init + [last];
      assert Visitable(t.folders, init) && last !in init;
      CleanupFoldClean(t, init, staleTimeout, maxToLive, now);
      CleanupFoldElsewhere(t, init, staleTimeout, maxToLive, now, last);
    }
  }

  /**
   * What a run from `t` to `r` did to the visited id `x`: wrapper and folder both gone when
   * the session in its folder has expired; otherwise the wrapper cached and the folder as
   * it was.
   */
  ghost predicate CleanedId(t: Tiers, r: Tiers, x: string, staleTimeout: Option<int>, maxToLive: Option<int>, now: int)
    requires FolderOf(x) in t.folders
  {
    var s := t.folders[FolderOf(x)];
    && (Expired(s, now, staleTimeout, maxToLive) ==> x !in r.cache.entries && FolderOf(x) !in r.folders)
    && (!Expired(s, now, staleTimeout, maxToLive) ==>
          x in r.cache.entries && FolderOf(x) in r.folders && r.folders[FolderOf(x)] == s)
  }

  /**
   * With both thresholds disabled a cleanup run throws nothing and deletes no folder,
   * whatever the listing holds: a folder that has gone yields `undefined`, and the
   * short-circuit test never reads a field of it.
   */
  lemma {:induction false} CleanupFoldDisabled(t: Tiers, ids: seq<string>, staleTimeout: Option<int>,
                                               maxToLive: Option<int>, now: int)
    requires t.cache.Valid() && !Enabled(staleTimeout) && !Enabled(maxToLive)
    ensures CleanupFold(t, ids, staleTimeout, maxToLive, now).thrown == None
    ensures CleanupFold(t, ids, staleTimeout, maxToLive, now).tiers.folders == t.folders
  {
    if |ids| > 0 {
      CleanupFoldDisabled(t, ids[..|ids| - 1], staleTimeout, maxToLive, now);
    }
  }

  /** Over visitable ids, every visited id is cleaned as `CleanedId` says. */
  lemma {:induction false} CleanupFoldVisits(t: Tiers, ids: seq<string>, staleTimeout: Option<int>,
                                             maxToLive: Option<int>, now: int, x: string)
    requires t.cache.Valid() && Visitable(t.folders, ids) && x in ids
    ensures CleanedId(t, CleanupFold(t, ids, staleTimeout, maxToLive, now).tiers, x, staleTimeout, maxToLive, now)
  {
    var init := ids[..|ids| - 1];
    var last := ids[|ids| - 1];
    assert ids == init + [last];
    assert Visitable(t.folders, init) && last !in init;
    CleanupFoldClean(t, init, staleTimeout, maxToLive, now);
    var prev := CleanupFold(t, init, staleTimeout, maxToLive, now).tiers;
    var r := CleanupStep(prev, last, staleTimeout, maxToLive, now).tiers;
    if x == last {
      CleanupFoldElsewhere(t, init, staleTimeout, maxToLive, now, x);
    } else {
      assert x in init;
      CleanupFoldVisits(t, init, staleTimeout, maxToLive, now, x);
      FolderOfInjective(x, last);
      assert x in r.cache.entries - {last} <==> x in prev.cache.entries - {last};
      assert FolderOf(x) in r.folders - {FolderOf(last)} <==> FolderOf(x) in prev.folders - {FolderOf(last)};
    }
  }

  /**
   * `_cleanupRun` over a directory whose session folders all belong to ids without slashes:
   * it throws nothing, and each listed session leaves both tiers exactly when it has expired;
   * the others keep their folder and end with a cached wrapper.
   */
  lemma CleanupExact(t: Tiers, names: seq<string>, staleTimeout: Option<int>, maxToLive: Option<int>, now: int)
    requires t.cache.Valid() && Lists(names, t.folders)
    requires forall id :: id in ListedIds(names, FolderExtension) ==> PlainId(id)
    ensures CleanupFold(t, ListedIds(names, FolderExtension), staleTimeout, maxToLive, now).thrown == None
    ensures forall id :: id in ListedIds(names, FolderExtension) ==>
      FolderOf(id) in t.folders &&
      CleanedId(t, CleanupFold(t, ListedIds(names, FolderExtension), staleTimeout, maxToLive, now).tiers, id,
                staleTimeout, maxToLive, now)
  {
    var ids := ListedIds(names, FolderExtension);
    ListedIdsOfDisk(names, t.folders, FolderExtension);
    forall id | id in ids ensures FolderOf(id) in t.folders {
      var n :| n in t.folders && IdOfEntry(n, FolderExtension) == Some(id);
      ListedIdFindsItsEntry(n, FolderExtension);
    }
    assert Visitable(t.folders, ids);
    CleanupFoldClean(t, ids, staleTimeout, maxToLive, now);
    forall id | id in ids
      ensures FolderOf(id) in t.folders
      ensures CleanedId(t, CleanupFold(t, ids, staleTimeout, maxToLive, now).tiers, id, staleTimeout, maxToLive, now)
    {
      CleanupFoldVisits(t, ids, staleTimeout, maxToLive, now, id);
    }
  }

  /**
   * The wrappers `_unloadMemoryRun` keeps: those whose folder still exists and whose
   * session has been idle for at most `timeout`.
   */
  function StaysLoaded(folders: map<string, Session>, now: int, timeout: int): string -> bool {
    id => FolderOf(id) in folders && !(now - folders[FolderOf(id)].lastUsed > timeout)
  }

  /** Every wrapper an unload sweep keeps has its folder. */
  lemma LoadedHaveFolders(m: JsMap<string, Wrapper>, cache: JsMap<string, Wrapper>, folders: map<string, Session>,
                          now: int, timeout: int)
    requires SweptBy(m, cache, StaysLoaded(folders, now, timeout))
    ensures forall id :: id in m.entries ==> FolderOf(id) in folders
  {
    forall id | id in m.entries ensures FolderOf(id) in folders {
      assert StaysLoaded(folders, now, timeout)(id);
    }
  }

  /**
   * The loop of `_unloadMemoryRun` over the wrappers in `cache`, with `folders` the save
   * directory it consults through `has`: the wrappers `StaysLoaded` rejects are dropped,
   * the others kept in their order, each still viewing its folder.
   */
  method UnloadSweep(cache: JsMap<string, Wrapper>, folders: map<string, Session>, unloadMemoryTimeout: int, now: int)
    returns (m: JsMap<string, Wrapper>)
    requires cache.Valid()
    ensures SweptBy(m, cache, StaysLoaded(folders, now, unloadMemoryTimeout))
  {
    ghost var keep := StaysLoaded(folders, now, unloadMemoryTimeout);
    var ids := cache.order;
    m := cache;
    SweepStart(cache, keep);
    var i := 0;
    while i < |ids|
      invariant SweepState(m, cache, i, keep)
    {
      var id := ids[i];
      SweepAdvance(m, cache, i, keep);
      if FolderOf(id) !in folders || now - folders[FolderOf(id)].lastUsed > unloadMemoryTimeout {
        m := JsMaps.Delete(m, id);
      }
      i := i + 1;
    }
    SweepDone(m, cache, keep);
  }

  class PersistentStore {
    /** `this.cachedSessions`: the wrapper objects, by id. */
    var cachedSessions: JsMap<string, Wrapper>
    /** The save directory: folder name to the session its tree holds. */
    var folders: map<string, Session>

    ghost predicate Valid()
      reads this
    {
      cachedSessions.Valid()
    }

    /** A store over an existing directory starts with no wrappers; the timers are left out. */
    constructor (folders: map<string, Session>)
      ensures Valid()
      ensures cachedSessions == Empty() && this.folders == folders
    {
      cachedSessions := Empty();
      this.folders := folders;
    }

    /** `keys()`: the ids of the directory's session folders, in listing order; wrappers play no part. */
    method Keys(names: seq<string>) returns (ids: seq<string>)
      requires Lists(names, folders)
      ensures ids == ListedIds(names, FolderExtension)
      ensures Distinct(ids)
      ensures forall id :: id in ids <==> exists n :: n in folders && IdOfEntry(n, FolderExtension) == Some(id)
    {
      ids := ListedIds(names, FolderExtension);
      ListedIdsOfDisk(names, folders, FolderExtension);
    }

    /** `has(id)`: the folder exists; a cached wrapper does not count. */
    method Has(id: string) returns (b: bool)
      ensures b <==> FolderOf(id) in folders
    {
      b := FolderOf(id) in folders;
    }

    /**
     * `get(id, updateActiveTimestamp)`: undefined when the folder is gone, even with a cached
     * wrapper. A cached wrapper is returned as it is. Otherwise a new wrapper over the folder
     * is cached, and refreshing it writes the new `lastUsed` into the folder.
     */
    method Get(id: string, updateActiveTimestamp: bool, now: int) returns (r: Option<Session>)
      requires Valid()
      modifies this
      ensures Valid()
      ensures FolderOf(id) !in old(folders) ==>
        r == None && cachedSessions == old(cachedSessions) && folders == old(folders)
      ensures FolderOf(id) in old(folders) && id in old(cachedSessions.entries) ==>
        r == Some(old(folders)[FolderOf(id)]) && cachedSessions == old(cachedSessions) && folders == old(folders)
      ensures FolderOf(id) in old(folders) && id !in old(cachedSessions.entries) ==>
        && cachedSessions == Set(old(cachedSessions), id, Wrapper)
        && folders == (if updateActiveTimestamp then old(folders)[FolderOf(id) := Touch(old(folders)[FolderOf(id)], now)]
                       else old(folders))
        && r == Some(folders[FolderOf(id)])
    {
      var has := Has(id);
      if !has {
        return None;
      }
      if id in cachedSessions.entries {
        return Some(folders[FolderOf(id)]);
      }
      var folder := FolderOf(id);
      if updateActiveTimestamp {
        folders := folders[folder := Touch(folders[folder], now)];
      }
      cachedSessions := Set(cachedSessions, id, Wrapper);
      r := Some(folders[folder]);
    }

    /**
     * `add(id)`: throws when the folder exists; otherwise makes an empty folder and returns
     * `get(id)`. Without a cached wrapper, `get` builds a new session on the folder and
     * refreshes it, which leaves a session created and last used at `now`. A wrapper still
     * cached from a folder deleted behind the store's back is returned as it is: nothing
     * writes to the new folder, which then reads as `emptyFolder`, the session a wrapper
     * reads from a folder nothing was written to.
     */
    method Add(id: string, now: int, emptyFolder: Session) returns (r: Result<Session, JsError>)
      requires Valid()
      modifies this
      ensures Valid()
      ensures FolderOf(id) in old(folders) ==>
        && r == Err(Error("session " + id + " already exists"))
        && cachedSessions == old(cachedSessions) && folders == old(folders)
      ensures FolderOf(id) !in old(folders) && id !in old(cachedSessions.entries) ==>
        && r == Ok(NewSession(now))
        && folders == old(folders)[FolderOf(id) := NewSession(now)]
        && cachedSessions == Set(old(cachedSessions), id, Wrapper)
      ensures FolderOf(id) !in old(folders) && id in old(cachedSessions.entries) ==>
        && r == Ok(emptyFolder)
        && folders == old(folders)[FolderOf(id) := emptyFolder]
        && cachedSessions == old(cachedSessions)
    {
      var has := Has(id);
      if has {
        return Err(Error("session " + id + " already exists"));
      }
      if id in cachedSessions.entries {
        folders := folders[FolderOf(id) := emptyFolder];
      } else {
        folders := folders[FolderOf(id) := NewSession(now)];
      }
      var session := Get(id, true, now);
      r := Ok(session.value);
    }

    /**
     * `delete(id)`: removes the folder when it exists and answers whether it did; the
     * wrapper leaves the cache either way.
     */
    method Delete(id: string) returns (b: bool)
      requires Valid()
      modifies this
      ensures Valid()
      ensures b <==> FolderOf(id) in old(folders)
      ensures folders == old(folders) - {FolderOf(id)}
      ensures cachedSessions == JsMaps.Delete(old(cachedSessions), id)
    {
      var has := Has(id);
      if has {
        folders := folders - {FolderOf(id)};
        cachedSessions := JsMaps.Delete(cachedSessions, id);
        return true;
      }
      if id in cachedSessions.entries {
        cachedSessions := JsMaps.Delete(cachedSessions, id);
      } else {
        DeleteAbsent(cachedSessions, id);
      }
      b := false;
    }

    /** The body of `_cleanupRun`'s loop for one id; the error it throws, if any. */
    method CleanupTurn(id: string, staleTimeout: Option<int>, maxToLive: Option<int>, now: int)
      returns (thrown: Option<JsError>)
      requires Valid()
      modifies this
      ensures Valid()
      ensures CleanupStep(Tiers(old(cachedSessions), old(folders)), id, staleTimeout, maxToLive, now)
        == Run(Tiers(cachedSessions, folders), thrown)
    {
      var session := Get(id, false, now);
      var test := ExpiryTest(session, now, staleTimeout, maxToLive);
      if test.Err? {
        return Some(test.error);
      }
      if test.value {
        var _ := Delete(id);
      }
      thrown := None;
    }

    /**
     * `_cleanupRun(staleTimeout, maxToLive)`: for each id of the folder listing, `get(id, false)`
     * and, when the session has expired, `delete(id)`. A listed id whose folder is gone throws
     * when an enabled threshold makes the test read its `undefined`, and that ends the run
     * where it stands.
     */
    method CleanupRun(staleTimeout: Option<int>, maxToLive: Option<int>, now: int, names: seq<string>)
      returns (r: Result<(), JsError>)
      requires Valid() && Lists(names, folders)
      modifies this
      ensures Valid()
      ensures CleanupFold(Tiers(old(cachedSessions), old(folders)), ListedIds(names, FolderExtension),
                          staleTimeout, maxToLive, now)
        == Run(Tiers(cachedSessions, folders), if r.Ok? then None else Some(r.error))
    {
      var ids := Keys(names);
      ghost var t0 := Tiers(cachedSessions, folders);
      var i, thrown := 0, None;
      while i < |ids| && thrown.None?
        invariant i <= |ids| && Valid()
        invariant CleanupFold(t0, ids[..i], staleTimeout, maxToLive, now) == Run(Tiers(cachedSessions, folders), thrown)
      {
        CleanupFoldNext(t0, ids, i, staleTimeout, maxToLive, now);
        thrown := CleanupTurn(ids[i], staleTimeout, maxToLive, now);
        i := i + 1;
      }
      if thrown.Some? {
        CleanupFoldPropagates(t0, ids, i, staleTimeout, maxToLive, now);
        r := Err(thrown.value);
      } else {
        assert ids[..i] == ids;
        r := Ok(());
      }
    }

    /**
     * `_unloadMemoryRun(unloadMemoryTimeout)`: drops every wrapper whose folder is gone or
     * whose session has been idle longer than the timeout; the others stay, in their order.
     * The folders are untouched, and every wrapper left has its folder (`LoadedHaveFolders`).
     */
    method UnloadMemoryRun(unloadMemoryTimeout: int, now: int)
      requires Valid()
      modifies this`cachedSessions
      ensures SweptBy(cachedSessions, old(cachedSessions), StaysLoaded(folders, now, unloadMemoryTimeout))
    {
      var kept := UnloadSweep(cachedSessions, folders, unloadMemoryTimeout, now);
      cachedSessions := kept;
    }
  }
}
