/**
 * RammerheadSessionFileCache and RammerheadSessionMemoryCacheFileStore, which are the same
 * code under two names: an in-memory `Map` of sessions (the hot tier) in front of a
 * directory holding one `<id>.rhfsession` file per session (the cold tier). The
 * directory is a map from file name to the session serialized in that file; reading
 * the directory takes its listing as a parameter.
 */
module FileCacheStores {
  import opened Wrappers
  import opened JsMaps
  import opened Sessions

  /** `_getSessionFilePath(id)`, without the directory. */
  function FileOf(id: string): string {
    EntryName(id, FileExtension)
  }

  /** Ids without slashes have files of their own. */
  lemma FileOfInjective(a: string, b: string)
    requires PlainId(a) && PlainId(b) && a != b
    ensures FileOf(a) != FileOf(b)
  {
    EntryNameInjective(a, b, FileExtension);
  }

  /** Deleting a plain id from the cache and its file from the disk leaves every other cached id on disk. */
  lemma DeleteKeepsOnDisk(cache: JsMap<string, Session>, disk: map<string, Session>, id: string)
    requires cache.Valid() && PlainId(id)
    requires forall x :: x in cache.entries ==> PlainId(x) && FileOf(x) in disk
    ensures forall x :: x in JsMaps.Delete(cache, id).entries ==> PlainId(x) && FileOf(x) in disk - {FileOf(id)}
  {
    forall x | x in JsMaps.Delete(cache, id).entries
      ensures PlainId(x) && FileOf(x) in disk - {FileOf(id)}
    {
      FileOfInjective(x, id);
    }
  }

  /** `has(id)`: the id is cached or its file exists. */
  predicate HasIn(cache: JsMap<string, Session>, disk: map<string, Session>, id: string) {
    id in cache.entries || FileOf(id) in disk
  }

  /**
   * The session `get` returns for a present id: the cached object, otherwise the one read
   * from its file, refreshed to `now` when `updateActiveTimestamp` is set.
   */
  function Loaded(cache: JsMap<string, Session>, disk: map<string, Session>, id: string,
                  updateActiveTimestamp: bool, now: int): Session
    requires HasIn(cache, disk, id)
  {
    if id in cache.entries then cache.entries[id]
    else if updateActiveTimestamp then Touch(disk[FileOf(id)], now)
    else disk[FileOf(id)]
  }

  /** The cached sessions the unload sweep keeps: those idle for at most `timeout`. */
  function StaysCached(entries: map<string, Session>, now: int, timeout: int): string -> bool {
    id => id in entries && !(now - entries[id].lastUsed > timeout)
  }

  /** The directory after the unload sweep has written the evicted sessions of `ids`, in order. */
  function WriteBack(disk: map<string, Session>, ids: seq<string>, entries: map<string, Session>,
                     keep: string -> bool): map<string, Session>
  {
    if |ids| == 0 then disk
    else
      var written := WriteBack(disk, ids[..|ids| - 1], entries, keep);
      var id := ids[|ids| - 1];
      if id in entries && !keep(id) then written[FileOf(id) := entries[id]] else written
  }

  /** The cached ids `keys()` appends: those the directory listing lacks. */
  function Unlisted(listed: seq<string>): string -> bool {
    id => id !in listed
  }

  /**
   * One turn of `keys()`'s loop: with cached ids that do not repeat, `arr.includes(id)`
   * asks only the directory listing, and the id is appended exactly when it is unlisted.
   */
  lemma UnlistedStep(listed: seq<string>, ids: seq<string>, i: nat)
    requires i < |ids| && Distinct(ids)
    ensures ids[i] in listed + Filter(ids[..i], Unlisted(listed)) <==> ids[i] in listed
    ensures ids[i] in listed ==>
      listed + Filter(ids[..i + 1], Unlisted(listed)) == listed + Filter(ids[..i], Unlisted(listed))
    ensures ids[i] !in listed ==>
      listed + Filter(ids[..i + 1], Unlisted(listed)) == listed + Filter(ids[..i], Unlisted(listed)) + [ids[i]]
  {
    assert ids[..i + 1][..i] == ids[..i];
    assert ids[i] !in ids[..i];
  }

  /** The listing followed by the unlisted cached ids holds each id of either once. */
  lemma UnlistedAppended(listed: seq<string>, ids: seq<string>)
    requires Distinct(listed) && Distinct(ids)
    ensures Distinct(listed + Filter(ids, Unlisted(listed)))
    ensures forall id :: id in listed + Filter(ids, Unlisted(listed)) <==> id in listed || id in ids
  {
    FilterDistinct(ids, Unlisted(listed));
    DistinctAppend(listed, Filter(ids, Unlisted(listed)));
  }

  /** `id` is among `ids`, cached, and rejected by `keep`: the sweep writes its session out. */
  predicate Evicted(ids: seq<string>, entries: map<string, Session>, keep: string -> bool, id: string) {
    id in ids && id in entries && !keep(id)
  }

  /** One more id written back (or not) extends the prefix by one. */
  lemma WriteBackStep(disk: map<string, Session>, ids: seq<string>, i: nat, entries: map<string, Session>,
                      keep: string -> bool)
    requires i < |ids|
    ensures WriteBack(disk, ids[..i + 1], entries, keep) ==
      if ids[i] in entries && !keep(ids[i])
      then WriteBack(disk, ids[..i], entries, keep)[FileOf(ids[i]) := entries[ids[i]]]
      else WriteBack(disk, ids[..i], entries, keep)
  {
    assert ids[..i + 1][..i] == ids[..i];
  }

  /** Writing back never removes a file. */
  lemma {:induction false} WriteBackGrows(disk: map<string, Session>, ids: seq<string>,
                                          entries: map<string, Session>, keep: string -> bool)
    ensures disk.Keys <= WriteBack(disk, ids, entries, keep).Keys
  {
    if |ids| > 0 {
      WriteBackGrows(disk, ids[..|ids| - 1], entries, keep);
    }
  }

  /**
   * Every evicted id gets a file; when the ids have no slashes and do not repeat, that
   * file holds the id's cached session.
   */
  lemma {:induction false} WriteBackWrites(disk: map<string, Session>, ids: seq<string>,
                                           entries: map<string, Session>, keep: string -> bool, id: string)
    requires Evicted(ids, entries, keep, id)
    ensures FileOf(id) in WriteBack(disk, ids, entries, keep)
    ensures Distinct(ids) && (forall x :: x in ids ==> PlainId(x)) ==>
      WriteBack(disk, ids, entries, keep)[FileOf(id)] == entries[id]
  {
    var init := ids[..|ids| - 1];
    var last := ids[|ids| - 1];
    assert ids == init + [last];
    if id != last {
      assert id in init;
      WriteBackWrites(disk, init, entries, keep, id);
      if Distinct(ids) && (forall x :: x in ids ==> PlainId(x)) {
        assert Distinct(init);
        FileOfInjective(id, last);
      }
    }
  }

  /** A file that belongs to no evicted id is left as it was. */
  lemma {:induction false} WriteBackUntouched(disk: map<string, Session>, ids: seq<string>,
                                              entries: map<string, Session>, keep: string -> bool, n: string)
    requires forall id :: Evicted(ids, entries, keep, id) ==> FileOf(id) != n
    ensures n in WriteBack(disk, ids, entries, keep) <==> n in disk
    ensures n in disk ==> WriteBack(disk, ids, entries, keep)[n] == disk[n]
  {
    if |ids| > 0 {
      var init := ids[..|ids| - 1];
      var last := ids[|ids| - 1];
      assert ids == init + [last];
      forall id | Evicted(init, entries, keep, id) ensures FileOf(id) != n {
        assert Evicted(ids, entries, keep, id);
      }
      WriteBackUntouched(disk, init, entries, keep, n);
      if last in entries && !keep(last) {
        assert Evicted(ids, entries, keep, last);
      }
    }
  }

  /** The two tiers of the store: the cache and the directory. */
  datatype Tiers = Tiers(cache: JsMap<string, Session>, disk: map<string, Session>)

  /** The error `unlinkSync` throws for a session file that does not exist. */
  function MissingFile(id: string): JsError {
    Error("ENOENT: no such file or directory, unlink '" + FileOf(id) + "'")
  }

  /** The cache after `get(id, false)` has returned `session`: the session is cached unless it already was. */
  function CachedAfterGet(cache: JsMap<string, Session>, id: string, session: Session): (r: JsMap<string, Session>)
    requires cache.Valid()
    ensures r.Valid() && r.entries - {id} == cache.entries - {id}
  {
    if id in cache.entries then cache else Set(cache, id, session)
  }

  /**
   * One turn of `_removeStaleSessions` for `id`: `get(id, false)` caches the session
   * without refreshing it, and an expired session is deleted from both tiers. An id that
   * has gone changes nothing, and throws only when an enabled threshold makes the test read
   * a field of `undefined`. Nothing but the id's cache entry and its file can change.
   */
  function StaleStep(t: Tiers, id: string, staleTimeout: Option<int>, maxToLive: Option<int>, now: int): (r: Run<Tiers>)
    requires t.cache.Valid()
    ensures r.tiers.cache.Valid()
    ensures r.tiers.cache.entries - {id} == t.cache.entries - {id}
    ensures r.tiers.disk - {FileOf(id)} == t.disk - {FileOf(id)}
    ensures !HasIn(t.cache, t.disk, id) ==>
      r.tiers == t && (r.thrown == None <==> !Enabled(staleTimeout) && !Enabled(maxToLive))
  {
    if !HasIn(t.cache, t.disk, id) then Run(t, Thrown(ExpiryTest(None, now, staleTimeout, maxToLive)))
    else
      var session := Loaded(t.cache, t.disk, id, false, now);
      var cache := CachedAfterGet(t.cache, id, session);
      if !Expired(session, now, staleTimeout, maxToLive) then Run(Tiers(cache, t.disk), None)
      else if FileOf(id) !in t.disk then Run(Tiers(cache, t.disk), Some(MissingFile(id)))
      else Run(Tiers(JsMaps.Delete(cache, id), t.disk - {FileOf(id)}), None)
  }

  /** The turns of a stale sweep over `ids`, in order, up to the first that throws. */
  function StaleFold(t: Tiers, ids: seq<string>, staleTimeout: Option<int>, maxToLive: Option<int>, now: int): (r: Run<Tiers>)
    requires t.cache.Valid()
    ensures r.tiers.cache.Valid()
  {
    if |ids| == 0 then Run(t, None)
    else
      var prev := StaleFold(t, ids[..|ids| - 1], staleTimeout, maxToLive, now);
      if prev.thrown.Some? then prev else StaleStep(prev.tiers, ids[|ids| - 1], staleTimeout, maxToLive, now)
  }

  /** The sweep over one more id: the turn for that id, unless an earlier turn threw. */
  lemma StaleFoldNext(t: Tiers, ids: seq<string>, i: nat, staleTimeout: Option<int>, maxToLive: Option<int>, now: int)
    requires t.cache.Valid() && i < |ids|
    ensures var prev := StaleFold(t, ids[..i], staleTimeout, maxToLive, now);
      StaleFold(t, ids[..i + 1], staleTimeout, maxToLive, now) ==
        if prev.thrown.Some? then prev else StaleStep(prev.tiers, ids[i], staleTimeout, maxToLive, now)
  {
    assert ids[..i + 1][..i] == ids[..i];
  }

  /** Once a turn has thrown, the later ids are never visited. */
  lemma {:induction false} StaleFoldPropagates(t: Tiers, ids: seq<string>, i: nat, staleTimeout: Option<int>,
                                               maxToLive: Option<int>, now: int)
    requires t.cache.Valid() && i <= |ids|
    requires StaleFold(t, ids[..i], staleTimeout, maxToLive, now).thrown.Some?
    ensures StaleFold(t, ids, staleTimeout, maxToLive, now) == StaleFold(t, ids[..i], staleTimeout, maxToLive, now)
  {
    if |ids| == i {
      assert ids[..i] == ids;
    } else {
      var init := ids[..|ids| - 1];
      assert init[..i] == ids[..i];
      StaleFoldPropagates(t, init, i, staleTimeout, maxToLive, now);
    }
  }

  /** Every cached id is free of slashes and has its file: `CachedOnDisk` of a pair of tiers. */
  ghost predicate Coherent(t: Tiers) {
    t.cache.Valid() && forall id :: id in t.cache.entries ==> PlainId(id) && FileOf(id) in t.disk
  }

  /** The ids a sweep can visit without throwing: distinct, free of slashes, and each with its file. */
  ghost predicate Visitable(t: Tiers, ids: seq<string>) {
    Distinct(ids) && forall id :: id in ids ==> PlainId(id) && FileOf(id) in t.disk
  }

  /** A sweep leaves the cache entry and the file of an id it does not visit as they were. */
  lemma {:induction false} StaleFoldElsewhere(t: Tiers, ids: seq<string>, staleTimeout: Option<int>,
                                              maxToLive: Option<int>, now: int, x: string)
    requires t.cache.Valid() && x !in ids && PlainId(x)
    requires forall id :: id in ids ==> PlainId(id)
    ensures var r := StaleFold(t, ids, staleTimeout, maxToLive, now).tiers;
      && (x in r.cache.entries <==> x in t.cache.entries)
      && (x in r.cache.entries ==> r.cache.entries[x] == t.cache.entries[x])
      && (FileOf(x) in r.disk <==> FileOf(x) in t.disk)
      && (FileOf(x) in r.disk ==> r.disk[FileOf(x)] == t.disk[FileOf(x)])
  {
    if |ids| > 0 {
      var init := ids[..|ids| - 1];
      var last := ids[|ids| - 1];
      assert ids == init + [last];
      StaleFoldElsewhere(t, init, staleTimeout, maxToLive, now, x);
      FileOfInjective(x, last);
      var prev := StaleFold(t, init, staleTimeout, maxToLive, now);
      if prev.thrown.None? {
        var r := StaleStep(prev.tiers, last, staleTimeout, maxToLive, now);
        assert x in r.tiers.cache.entries - {last} <==> x in prev.tiers.cache.entries - {last};
        assert FileOf(x) in r.tiers.disk - {FileOf(last)} <==> FileOf(x) in prev.tiers.disk - {FileOf(last)};
      }
    }
  }

  /** Over visitable ids, a coherent store never throws and stays coherent. */
  lemma {:induction false} StaleFoldClean(t: Tiers, ids: seq<string>, staleTimeout: Option<int>,
                                          maxToLive: Option<int>, now: int)
    requires Coherent(t) && Visitable(t, ids)
    ensures StaleFold(t, ids, staleTimeout, maxToLive, now).thrown == None
    ensures Coherent(StaleFold(t, ids, staleTimeout, maxToLive, now).tiers)
  {
    if |ids| > 0 {
      var init := ids[..|ids| - 1];
      var last := ids[|ids| - 1];
      assert ids == init + [last];
      assert Visitable(t, init) && last !in init;
      StaleFoldClean(t, init, staleTimeout, maxToLive, now);
      StaleFoldElsewhere(t, init, staleTimeout, maxToLive, now, last);
      var prev := StaleFold(t, init, staleTimeout, maxToLive, now).tiers;
      var r := StaleStep(prev, last, staleTimeout, maxToLive, now).tiers;
      forall id | id in r.cache.entries ensures PlainId(id) && FileOf(id) in r.disk {
        if id != last {
          assert id in r.cache.entries - {last};
          FileOfInjective(id, last);
          assert FileOf(id) in prev.disk - {FileOf(last)};
        }
      }
    }
  }

  /**
   * With both thresholds disabled a stale sweep throws nothing and deletes no file, whatever
   * the listing holds: an id whose session has gone yields `undefined`, and the short-circuit
   * test never reads a field of it.
   */
  lemma {:induction false} StaleFoldDisabled(t: Tiers, ids: seq<string>, staleTimeout: Option<int>,
                                             maxToLive: Option<int>, now: int)
    requires t.cache.Valid() && !Enabled(staleTimeout) && !Enabled(maxToLive)
    ensures StaleFold(t, ids, staleTimeout, maxToLive, now).thrown == None
    ensures StaleFold(t, ids, staleTimeout, maxToLive, now).tiers.disk == t.disk
  {
    if |ids| > 0 {
      StaleFoldDisabled(t, ids[..|ids| - 1], staleTimeout, maxToLive, now);
    }
  }

  /**
   * What a sweep from `t` to `r` did to the visited id `x`: gone from both tiers when the
   * session `get(x, false)` returned has expired, and otherwise cached with that session,
   * its file as it was.
   */
  ghost predicate SweptId(t: Tiers, r: Tiers, x: string, staleTimeout: Option<int>, maxToLive: Option<int>, now: int)
    requires HasIn(t.cache, t.disk, x)
  {
    var s := Loaded(t.cache, t.disk, x, false, now);
    && (Expired(s, now, staleTimeout, maxToLive) ==> x !in r.cache.entries && FileOf(x) !in r.disk)
    && (!Expired(s, now, staleTimeout, maxToLive) ==>
          && x in r.cache.entries && r.cache.entries[x] == s
          && FileOf(x) in t.disk && FileOf(x) in r.disk && r.disk[FileOf(x)] == t.disk[FileOf(x)])
  }

  /** Over visitable ids of a coherent store, every visited id is swept as `SweptId` says. */
  lemma {:induction false} StaleFoldVisits(t: Tiers, ids: seq<string>, staleTimeout: Option<int>,
                                           maxToLive: Option<int>, now: int, x: string)
    requires Coherent(t) && Visitable(t, ids) && x in ids
    ensures SweptId(t, StaleFold(t, ids, staleTimeout, maxToLive, now).tiers, x, staleTimeout, maxToLive, now)
  {
    var init := ids[..|ids| - 1];
    var last := ids[|ids| - 1];
    assert ids == init + [last];
    assert Visitable(t, init) && last !in init;
    StaleFoldClean(t, init, staleTimeout, maxToLive, now);
    var prev := StaleFold(t, init, staleTimeout, maxToLive, now).tiers;
    var r := StaleStep(prev, last, staleTimeout, maxToLive, now).tiers;
    if x == last {
      StaleFoldElsewhere(t, init, staleTimeout, maxToLive, now, x);
      assert Loaded(prev.cache, prev.disk, x, false, now) == Loaded(t.cache, t.disk, x, false, now);
    } else {
      assert x in init;
      StaleFoldVisits(t, init, staleTimeout, maxToLive, now, x);
      FileOfInjective(x, last);
      assert x in r.cache.entries - {last} <==> x in prev.cache.entries - {last};
      assert FileOf(x) in r.disk - {FileOf(last)} <==> FileOf(x) in prev.disk - {FileOf(last)};
    }
  }

  /**
   * `_removeStaleSessions` on a coherent store whose directory holds only files of ids
   * without slashes: it visits every cached id, throws nothing, leaves the store coherent,
   * and removes exactly the expired sessions from both tiers while caching the others.
   */
  lemma StaleSweepExact(t: Tiers, names: seq<string>, staleTimeout: Option<int>, maxToLive: Option<int>, now: int)
    requires Coherent(t) && Lists(names, t.disk)
    requires forall id :: id in ListedIds(names, FileExtension) ==> PlainId(id)
    ensures forall id :: id in t.cache.entries ==> id in ListedIds(names, FileExtension)
    ensures StaleFold(t, ListedIds(names, FileExtension), staleTimeout, maxToLive, now).thrown == None
    ensures Coherent(StaleFold(t, ListedIds(names, FileExtension), staleTimeout, maxToLive, now).tiers)
    ensures forall id :: id in ListedIds(names, FileExtension) ==>
      HasIn(t.cache, t.disk, id) &&
      SweptId(t, StaleFold(t, ListedIds(names, FileExtension), staleTimeout, maxToLive, now).tiers, id,
              staleTimeout, maxToLive, now)
  {
    var ids := ListedIds(names, FileExtension);
    ListedIdsOfDisk(names, t.disk, FileExtension);
    forall id | id in ids ensures FileOf(id) in t.disk {
      var n :| n in t.disk && IdOfEntry(n, FileExtension) == Some(id);
      ListedIdFindsItsEntry(n, FileExtension);
    }
    assert Visitable(t, ids);
    forall id | id in t.cache.entries ensures id in ids {
      EntryRoundTrip(id, FileExtension);
      ListedIdsExactly(names, FileExtension, id);
    }
    StaleFoldClean(t, ids, staleTimeout, maxToLive, now);
    forall id | id in ids
      ensures HasIn(t.cache, t.disk, id)
      ensures SweptId(t, StaleFold(t, ids, staleTimeout, maxToLive, now).tiers, id, staleTimeout, maxToLive, now)
    {
      StaleFoldVisits(t, ids, staleTimeout, maxToLive, now, id);
    }
  }

  class FileCacheStore {
    /** `this.cachedSessions`. */
    var cachedSessions: JsMap<string, Session>
    /** The save directory: file name to the session serialized in that file. */
    var disk: map<string, Session>

    ghost predicate Valid()
      reads this
    {
      cachedSessions.Valid()
    }

    /**
     * Every cached id is free of slashes and has its file on disk. The store's own
     * operations keep this for such ids, so `delete` never meets a cached session
     * whose file is missing.
     */
    ghost predicate CachedOnDisk()
      reads this
    {
      forall id :: id in cachedSessions.entries ==> PlainId(id) && FileOf(id) in disk
    }

    /** A store over an existing directory starts with an empty cache; the timers are left out. */
    constructor (disk: map<string, Session>)
      ensures Valid() && CachedOnDisk()
      ensures cachedSessions == Empty() && this.disk == disk
    {
      cachedSessions := Empty();
      this.disk := disk;
    }

    /** `keysStore()`: the ids of the directory's session files, in listing order. */
    method KeysStore(names: seq<string>) returns (ids: seq<string>)
      requires Lists(names, disk)
      ensures ids == ListedIds(names, FileExtension)
      ensures Distinct(ids)
      ensures forall id :: id in ids <==> exists n :: n in disk && IdOfEntry(n, FileExtension) == Some(id)
    {
      ids := ListedIds(names, FileExtension);
      ListedIdsOfDisk(names, disk, FileExtension);
    }

    /**
     * `keys()`: the directory's ids, then each cached id not among them, in cache order;
     * no id appears twice.
     */
    method Keys(names: seq<string>) returns (arr: seq<string>)
      requires Valid() && Lists(names, disk)
      ensures var listed := ListedIds(names, FileExtension);
        arr == listed + Filter(cachedSessions.order, Unlisted(listed))
      ensures Distinct(arr)
      ensures forall id :: id in arr <==>
        id in cachedSessions.entries || exists n :: n in disk && IdOfEntry(n, FileExtension) == Some(id)
    {
      var listed := KeysStore(names);
      var ids := cachedSessions.order;
      arr := listed;
      var i := 0;
      while i < |ids|
        invariant 0 <= i <= |ids| && Distinct(ids)
        invariant arr == listed + Filter(ids[..i], Unlisted(listed))
      {
        var id := ids[i];
        UnlistedStep(listed, ids, i);
        if id !in arr {
          arr := arr + [id];
        }
        i := i + 1;
      }
      assert ids[..i] == ids;
      UnlistedAppended(listed, ids);
    }

    method Has(id: string) returns (b: bool)
      ensures b == HasIn(cachedSessions, disk, id)
    {
      b := id in cachedSessions.entries || FileOf(id) in disk;
    }

    /**
     * `get(id, updateActiveTimestamp, cacheToMemory)`: undefined for an absent id. A cached
     * id returns the cached object untouched. Otherwise the session is read from its file,
     * refreshed if asked (the file itself is not rewritten), and cached if asked.
     */
    method Get(id: string, updateActiveTimestamp: bool, cacheToMemory: bool, now: int) returns (r: Option<Session>)
      requires Valid()
      modifies this
      ensures Valid() && disk == old(disk)
      ensures !HasIn(old(cachedSessions), old(disk), id) ==> r == None && cachedSessions == old(cachedSessions)
      ensures HasIn(old(cachedSessions), old(disk), id) ==>
        r == Some(Loaded(old(cachedSessions), old(disk), id, updateActiveTimestamp, now))
      ensures id in old(cachedSessions.entries) || !cacheToMemory ==> cachedSessions == old(cachedSessions)
      ensures HasIn(old(cachedSessions), old(disk), id) && id !in old(cachedSessions.entries) && cacheToMemory ==>
        cachedSessions == Set(old(cachedSessions), id, r.value)
      ensures old(CachedOnDisk()) && PlainId(id) ==> CachedOnDisk()
    {
      var has := Has(id);
      if !has {
        return None;
      }
      if id in cachedSessions.entries {
        return Some(cachedSessions.entries[id]);
      }
      var session := disk[FileOf(id)];
      if updateActiveTimestamp {
        session := Touch(session, now);
      }
      if cacheToMemory {
        cachedSessions := Set(cachedSessions, id, session);
      }
      r := Some(session);
    }

    /**
     * `add(id)`: throws for a present id and changes nothing; otherwise writes a new
     * session's file and returns `get(id)`, which caches it: the session is then both on
     * disk and in memory.
     */
    method Add(id: string, now: int) returns (r: Result<Session, JsError>)
      requires Valid()
      modifies this
      ensures Valid()
      ensures HasIn(old(cachedSessions), old(disk), id) ==>
        && r == Err(Error("session " + id + " already exists"))
        && cachedSessions == old(cachedSessions) && disk == old(disk)
      ensures !HasIn(old(cachedSessions), old(disk), id) ==>
        && r == Ok(NewSession(now))
        && disk == old(disk)[FileOf(id) := NewSession(now)]
        && cachedSessions == Set(old(cachedSessions), id, NewSession(now))
      ensures old(CachedOnDisk()) && PlainId(id) ==> CachedOnDisk()
    {
      var has := Has(id);
      if has {
        return Err(Error("session " + id + " already exists"));
      }
      disk := disk[FileOf(id) := NewSession(now)];
      var session := Get(id, true, true, now);
      r := Ok(session.value);
    }

    /**
     * `delete(id)`: false for an absent id; otherwise removes the file and the cache
     * entry and answers true. A cached id whose file is missing makes `unlinkSync` throw
     * before the cache entry is dropped.
     */
    method Delete(id: string) returns (r: Result<bool, JsError>)
      requires Valid()
      modifies this
      ensures Valid()
      ensures !HasIn(old(cachedSessions), old(disk), id) ==>
        r == Ok(false) && cachedSessions == old(cachedSessions) && disk == old(disk)
      ensures HasIn(old(cachedSessions), old(disk), id) && FileOf(id) in old(disk) ==>
        && r == Ok(true)
        && disk == old(disk) - {FileOf(id)}
        && cachedSessions == JsMaps.Delete(old(cachedSessions), id)
      ensures HasIn(old(cachedSessions), old(disk), id) && FileOf(id) !in old(disk) ==>
        r == Err(MissingFile(id)) && cachedSessions == old(cachedSessions) && disk == old(disk)
      ensures old(CachedOnDisk()) ==> r.Ok?
      ensures old(CachedOnDisk()) && PlainId(id) ==> CachedOnDisk()
    {
      var has := Has(id);
      if !has {
        return Ok(false);
      }
      if FileOf(id) !in disk {
        return Err(MissingFile(id));
      }
      if CachedOnDisk() && PlainId(id) {
        DeleteKeepsOnDisk(cachedSessions, disk, id);
      }
      disk := disk - {FileOf(id)};
      cachedSessions := JsMaps.Delete(cachedSessions, id);
      r := Ok(true);
    }

    /**
     * `_saveCacheToDisk(cacheTimeout)` (`_unloadMemoryRun` in the second class): every cached
     * session idle longer than the timeout is written to its file and leaves the cache;
     * the others stay cached, in their order.
     */
    method SaveCacheToDisk(cacheTimeout: int, now: int)
      requires Valid()
      modifies this
      ensures Valid()
      ensures SweptBy(cachedSessions, old(cachedSessions), StaysCached(old(cachedSessions.entries), now, cacheTimeout))
      ensures disk == WriteBack(old(disk), old(cachedSessions.order), old(cachedSessions.entries),
                                StaysCached(old(cachedSessions.entries), now, cacheTimeout))
      ensures old(CachedOnDisk()) ==> CachedOnDisk()
    {
      ghost var before := cachedSessions;
      ghost var keep := StaysCached(before.entries, now, cacheTimeout);
      var ids := cachedSessions.order;
      var m := cachedSessions;
      var d := disk;
      SweepStart(before, keep);
      var i := 0;
      while i < |ids|
        invariant SweepState(m, before, i, keep)
        invariant d == WriteBack(old(disk), ids[..i], before.entries, keep)
      {
        var id := ids[i];
        SweepAdvance(m, before, i, keep);
        WriteBackStep(old(disk), ids, i, before.entries, keep);
        var session := m.entries[id];
        if now - session.lastUsed > cacheTimeout {
          d := d[FileOf(id) := session];
          m := JsMaps.Delete(m, id);
        }
        i := i + 1;
      }
      assert ids[..i] == ids;
      SweepDone(m, before, keep);
      WriteBackGrows(old(disk), ids, before.entries, keep);
      cachedSessions, disk := m, d;
    }

    /**
     * The body of `_removeStaleSessions`' loop for one id: `get(id, false)`, then `delete(id)`
     * when the session has expired; the error the test or the delete throws, if any.
     */
    method StaleTurn(id: string, staleTimeout: Option<int>, maxToLive: Option<int>, now: int)
      returns (thrown: Option<JsError>)
      requires Valid()
      modifies this
      ensures Valid()
      ensures StaleStep(Tiers(old(cachedSessions), old(disk)), id, staleTimeout, maxToLive, now)
        == Run(Tiers(cachedSessions, disk), thrown)
    {
      var session := Get(id, false, true, now);
      var test := ExpiryTest(session, now, staleTimeout, maxToLive);
      if test.Err? {
        return Some(test.error);
      }
      if test.value {
        var deleted := Delete(id);
        if deleted.Err? {
          return Some(deleted.error);
        }
      }
      thrown := None;
    }

    /**
     * `_removeStaleSessions(staleTimeout, maxToLive)`: for each id of the directory listing,
     * `get(id, false)` (which caches it) and, when the session has expired, `delete(id)`.
     * A listed id that is no longer present throws when an enabled threshold makes the test
     * read its `undefined`; that, or a delete whose file is missing, ends the sweep where it
     * stands.
     */
    method RemoveStaleSessions(staleTimeout: Option<int>, maxToLive: Option<int>, now: int, names: seq<string>)
      returns (r: Result<(), JsError>)
      requires Valid() && Lists(names, disk)
      modifies this
      ensures Valid()
      ensures StaleFold(Tiers(old(cachedSessions), old(disk)), ListedIds(names, FileExtension), staleTimeout, maxToLive, now)
        == Run(Tiers(cachedSessions, disk), if r.Ok? then None else Some(r.error))
    {
      var ids := KeysStore(names);
      ghost var t0 := Tiers(cachedSessions, disk);
      var i := 0;
      while i < |ids|
        invariant i <= |ids| && Valid()
        invariant StaleFold(t0, ids[..i], staleTimeout, maxToLive, now) == Run(Tiers(cachedSessions, disk), None)
      {
        StaleFoldNext(t0, ids, i, staleTimeout, maxToLive, now);
        var thrown := StaleTurn(ids[i], staleTimeout, maxToLive, now);
        if thrown.Some? {
          StaleFoldPropagates(t0, ids, i + 1, staleTimeout, maxToLive, now);
          return Err(thrown.value);
        }
        i := i + 1;
      }
      assert ids[..i] == ids;
      r := Ok(());
    }

    /** `close()`: the unload sweep with timeout -1. */
    method Close(now: int)
      requires Valid()
      modifies this
      ensures Valid()
      ensures SweptBy(cachedSessions, old(cachedSessions), StaysCached(old(cachedSessions.entries), now, -1))
      ensures disk == WriteBack(old(disk), old(cachedSessions.order), old(cachedSessions.entries),
                                StaysCached(old(cachedSessions.entries), now, -1))
      ensures old(CachedOnDisk()) ==> CachedOnDisk()
    {
      SaveCacheToDisk(-1, now);
    }
  }

  /**
   * What `close()` achieves when no cached session was used after `now`: the cache ends
   * empty, and, for ids without slashes, every cached session is in its file.
   */
  lemma CloseFlushesAll(cache: JsMap<string, Session>, disk: map<string, Session>, now: int)
    requires cache.Valid()
    requires forall id :: id in cache.entries ==> cache.entries[id].lastUsed <= now && PlainId(id)
    ensures Restrict(cache, StaysCached(cache.entries, now, -1)).entries == map[]
    ensures forall id :: id in cache.entries ==>
      var written := WriteBack(disk, cache.order, cache.entries, StaysCached(cache.entries, now, -1));
      FileOf(id) in written && written[FileOf(id)] == cache.entries[id]
  {
    var keep := StaysCached(cache.entries, now, -1);
    forall id | id in cache.entries
      ensures !keep(id)
      ensures var written := WriteBack(disk, cache.order, cache.entries, keep);
        FileOf(id) in written && written[FileOf(id)] == cache.entries[id]
    {
      assert Evicted(cache.order, cache.entries, keep, id);
      WriteBackWrites(disk, cache.order, cache.entries, keep, id);
    }
  }

  /** Ids that differ only in slashes share one file, so the second one is "already" present. */
  lemma SlashedIdSharesFile()
    ensures FileOf("a/b") == FileOf("ab")
  {
    assert StripSlashes("a/b") == "ab";
  }
}
