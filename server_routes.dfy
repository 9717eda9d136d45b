/**
 * The session routes of src/server.js and its periodic sweep of unused sessions, over the
 * session store it is configured with outside workers: the store of `FileCacheStores`
 * (an in-memory cache in front of one file per session).
 *
 * A request's query parameters come already parsed: `None` is a parameter that is absent,
 * `Some("")` one that is present but empty. The id `/newsession` hands out is generated
 * outside this model and is a parameter, as is the clock.
 */
module ServerRoutes {
  import opened Wrappers
  import opened JsMaps
  import opened Sessions
  import opened FileCacheStores

  /** What a route answers: a refusal, or the bodies passed to `res.end`, in order. */
  datatype Response = Forbidden | BadRequest(reason: string) | Ended(bodies: seq<string>)

  /** A parameter JavaScript treats as truthy: present and not empty. */
  predicate Given(param: Option<string>) {
    param.Some? && param.value != ""
  }

  /**
   * `isNotAuthorized` negated: without a configured password every request passes;
   * otherwise the `pwd` parameter must equal it.
   */
  predicate Authorized(password: string, pwd: Option<string>) {
    password == "" || pwd == Some(password)
  }

  /** `httpProxy` as `/editsession` stores it: one leading `http://` removed. */
  function NormalizeProxy(httpProxy: string): (r: string)
    ensures |r| <= |httpProxy|
  {
    if |httpProxy| >= 7 && httpProxy[..7] == "http://" then httpProxy[7..] else httpProxy
  }

  /**
   * Exactly one leading `http://` is removed, and nothing else: putting it back gives the
   * setting as typed, and a setting without it is stored as typed.
   */
  lemma NormalizeProxyStripsOnce(httpProxy: string, host: string)
    ensures NormalizeProxy("http://" + host) == host
    ensures (|httpProxy| >= 7 && httpProxy[..7] == "http://") ==> "http://" + NormalizeProxy(httpProxy) == httpProxy
    ensures !(|httpProxy| >= 7 && httpProxy[..7] == "http://") ==> NormalizeProxy(httpProxy) == httpProxy
  {
    assert ("http://" + host)[..7] == "http://";
    assert ("http://" + host)[7..] == host;
    if |httpProxy| >= 7 && httpProxy[..7] == "http://" {
      assert httpProxy == httpProxy[..7] + httpProxy[7..];
    }
  }

  /**
   * The session `/editsession` leaves behind: with a non-empty `httpProxy`, the normalized
   * setting becomes its external proxy; with an empty one, the session is left alone.
   */
  function Edited(session: Session, httpProxy: string): (r: Session)
    ensures r.createdAt == session.createdAt && r.lastUsed == session.lastUsed
    ensures httpProxy == "" ==> r == session
    ensures httpProxy != "" ==> r.proxy == Some(NormalizeProxy(httpProxy))
  {
    if httpProxy == "" then session else session.(proxy := Some(NormalizeProxy(httpProxy)))
  }

  /**
   * `GET /newsession`: the generated id is added to the store (which writes its file and
   * caches the new session) and answered. An id that is already present makes `add` throw.
   */
  method NewSessionRoute(store: FileCacheStore, password: string, pwd: Option<string>, id: string, now: int)
    returns (resp: Response, thrown: Option<JsError>)
    requires store.Valid()
    modifies store
    ensures store.Valid()
    ensures !Authorized(password, pwd) ==>
      resp == Forbidden && thrown == None && unchanged(store)
    ensures Authorized(password, pwd) && HasIn(old(store.cachedSessions), old(store.disk), id) ==>
      thrown.Some? && store.cachedSessions == old(store.cachedSessions) && store.disk == old(store.disk)
    ensures Authorized(password, pwd) && !HasIn(old(store.cachedSessions), old(store.disk), id) ==>
      && resp == Ended([id]) && thrown == None
      && store.disk == old(store.disk)[FileOf(id) := NewSession(now)]
      && store.cachedSessions == Set(old(store.cachedSessions), id, NewSession(now))
  {
    if !Authorized(password, pwd) {
      return Forbidden, None;
    }
    var added := store.Add(id, now);
    if added.Err? {
      return Ended([]), Some(added.error);
    }
    return Ended([id]), None;
  }

  /**
   * `GET /editsession`: a missing or unknown id is answered 'not found' and changes
   * nothing. Otherwise `get(id)` loads the session (refreshed and cached when it comes
   * from its file), a non-empty `httpProxy` becomes its external proxy setting, and the
   * answer is 'Success'. The session object is the cached one, so the setting lands in
   * the cache.
   */
  method EditSessionRoute(store: FileCacheStore, password: string, pwd: Option<string>,
                          id: Option<string>, httpProxy: Option<string>, now: int)
    returns (resp: Response)
    requires store.Valid()
    modifies store
    ensures store.Valid()
    ensures !Authorized(password, pwd) ==> resp == Forbidden && unchanged(store)
    ensures Authorized(password, pwd) && !(Given(id) && HasIn(old(store.cachedSessions), old(store.disk), id.value)) ==>
      resp == BadRequest("not found") && unchanged(store)
    ensures Authorized(password, pwd) && Given(id) && HasIn(old(store.cachedSessions), old(store.disk), id.value) ==>
      && resp == Ended(["Success"])
      && store.disk == old(store.disk)
      && store.cachedSessions == Set(old(store.cachedSessions), id.value,
           Edited(Loaded(old(store.cachedSessions), old(store.disk), id.value, true, now),
                  if httpProxy.Some? then httpProxy.value else ""))
  {
    if !Authorized(password, pwd) {
      return Forbidden;
    }
    if !Given(id) {
      return BadRequest("not found");
    }
    var has := store.Has(id.value);
    if !has {
      return BadRequest("not found");
    }
    ghost var before := store.cachedSessions;
    var session := store.Get(id.value, true, true, now);
    ghost var loaded := session.value;
    if id.value in before.entries {
      SetSame(before, id.value);
    }
    if Given(httpProxy) {
      var setting := httpProxy.value;
      if |setting| >= 7 && setting[..7] == "http://" {
        setting := setting[7..];
      }
      store.cachedSessions := Set(store.cachedSessions, id.value, session.value.(proxy := Some(setting)));
      SetTwice(before, id.value, loaded, loaded.(proxy := Some(setting)));
    }
    return Ended(["Success"]);
  }

  /** `GET /sessionexists`: whether the id is present; an id must be given. */
  method SessionExistsRoute(store: FileCacheStore, id: Option<string>) returns (resp: Response)
    ensures !Given(id) ==> resp == BadRequest("Must specify id parameter")
    ensures Given(id) && HasIn(store.cachedSessions, store.disk, id.value) ==> resp == Ended(["exists"])
    ensures Given(id) && !HasIn(store.cachedSessions, store.disk, id.value) ==> resp == Ended(["not found"])
  {
    if !Given(id) {
      return BadRequest("Must specify id parameter");
    }
    var has := store.Has(id.value);
    resp := Ended([if has then "exists" else "not found"]);
  }

  /** The outcome of a route over the two tiers of the store: the answer, the new tiers, the error thrown if any. */
  datatype Outcome = Outcome(resp: Response, tiers: Tiers, thrown: Option<JsError>)

  /** `delete(id)` of the store on its tiers: false for an absent id, the file and the cache entry removed otherwise. */
  function DeleteFrom(t: Tiers, id: string): (r: Run<Tiers>)
    requires t.cache.Valid()
    ensures r.tiers.cache.Valid()
  {
    if !HasIn(t.cache, t.disk, id) then Run(t, None)
    else if FileOf(id) !in t.disk then Run(t, Some(MissingFile(id)))
    else Run(Tiers(JsMaps.Delete(t.cache, id), t.disk - {FileOf(id)}), None)
  }

  /** `undefined.replace(...)`: what `_getSessionFilePath` throws for an absent id. */
  const UndefinedId: JsError := TypeError("Cannot read properties of undefined (reading 'replace')")

  /**
   * `GET /deletesession` as src/server.js writes it: after answering 'not found' the
   * handler does not return, so it goes on to `delete(id)` and calls `res.end('Success')` as well,
   * a write after the end of the response.
   * An absent id then throws inside `delete`.
   */
  function DeleteRouteAsWritten(t: Tiers, id: Option<string>): (r: Outcome)
    requires t.cache.Valid()
  {
    var notFound := !(Given(id) && HasIn(t.cache, t.disk, id.value));
    var first := if notFound then ["not found"] else [];
    if id.None? then Outcome(Ended(first), t, Some(UndefinedId))
    else
      var d := DeleteFrom(t, id.value);
      if d.thrown.Some? then Outcome(Ended(first), d.tiers, d.thrown)
      else Outcome(Ended(first + ["Success"]), d.tiers, None)
  }

  /**
   * The handler as written calls `res.end` twice for an unknown id, throws for a missing one, and
   * for an empty id deletes the file `.rhfsession` of the save directory, which belongs to
   * the empty id, after answering 'not found'.
   */
  lemma DeleteRouteAsWrittenMisbehaves(session: Session)
    ensures DeleteRouteAsWritten(Tiers(Empty(), map[]), Some("x")).resp == Ended(["not found", "Success"])
    ensures DeleteRouteAsWritten(Tiers(Empty(), map[]), None).thrown == Some(UndefinedId)
    ensures var t := Tiers(Empty(), map[FileExtension := session]);
      DeleteRouteAsWritten(t, Some("")).resp == Ended(["not found", "Success"])
      && DeleteRouteAsWritten(t, Some("")).tiers.disk == map[]
  {
    assert StripSlashes("x") == "x";
    assert FileOf("x") != FileExtension;
    assert StripSlashes("") == "";
    assert FileOf("") == FileExtension;
  }

  /**
   * `GET /deletesession` with the `return` after 'not found' that the handler of
   * src/server/setupRoutes.js has: a missing or unknown id is answered 'not found' and
   * changes nothing; a present id is deleted and answered 'Success'.
   */
  function DeleteRoute(t: Tiers, id: Option<string>): (r: Outcome)
    requires t.cache.Valid()
  {
    if !(Given(id) && HasIn(t.cache, t.disk, id.value)) then Outcome(Ended(["not found"]), t, None)
    else
      var d := DeleteFrom(t, id.value);
      if d.thrown.Some? then Outcome(Ended([]), d.tiers, d.thrown) else Outcome(Ended(["Success"]), d.tiers, None)
  }

  /**
   * The corrected route answers at most once and never throws for a consistent store; it
   * changes the store only for a present id, which then is gone from both tiers, while
   * every other id keeps its cache entry and its file.
   */
  lemma DeleteRouteAnswersOnce(t: Tiers, id: Option<string>, other: string)
    requires t.cache.Valid()
    ensures |DeleteRoute(t, id).resp.bodies| <= 1
    ensures Coherent(t) ==> DeleteRoute(t, id).thrown == None && |DeleteRoute(t, id).resp.bodies| == 1
    ensures !(Given(id) && HasIn(t.cache, t.disk, id.value)) ==>
      DeleteRoute(t, id) == Outcome(Ended(["not found"]), t, None)
    ensures Coherent(t) && Given(id) && HasIn(t.cache, t.disk, id.value) ==>
      var r := DeleteRoute(t, id).tiers;
      && DeleteRoute(t, id).resp == Ended(["Success"])
      && id.value !in r.cache.entries && FileOf(id.value) !in r.disk
      && (other != id.value ==>
            (other in r.cache.entries <==> other in t.cache.entries)
            && (other in r.cache.entries ==> r.cache.entries[other] == t.cache.entries[other]))
      && (PlainId(id.value) && PlainId(other) && other != id.value ==>
            (FileOf(other) in r.disk <==> FileOf(other) in t.disk))
  {
    if Coherent(t) && Given(id) && HasIn(t.cache, t.disk, id.value) {
      var x := id.value;
      if x in t.cache.entries {
        assert FileOf(x) in t.disk;
      }
      if PlainId(x) && PlainId(other) && other != x {
        FileOfInjective(other, x);
      }
    }
  }

  /**
   * `GET /deletesession`, with the `return` after 'not found' (see `DeleteRoute`; the
   * handler as src/server.js writes it is `DeleteRouteAsWritten`).
   */
  method DeleteSessionRoute(store: FileCacheStore, password: string, pwd: Option<string>, id: Option<string>)
    returns (resp: Response, thrown: Option<JsError>)
    requires store.Valid()
    modifies store
    ensures store.Valid()
    ensures !Authorized(password, pwd) ==> resp == Forbidden && thrown == None && unchanged(store)
    ensures Authorized(password, pwd) ==>
      DeleteRoute(old(Tiers(store.cachedSessions, store.disk)), id)
        == Outcome(resp, Tiers(store.cachedSessions, store.disk), thrown)
  {
    if !Authorized(password, pwd) {
      return Forbidden, None;
    }
    if !Given(id) {
      return Ended(["not found"]), None;
    }
    var has := store.Has(id.value);
    if !has {
      return Ended(["not found"]), None;
    }
    var deleted := store.Delete(id.value);
    if deleted.Err? {
      return Ended([]), Some(deleted.error);
    }
    return Ended(["Success"]), None;
  }

  /** The test of the unused-session sweep: never used since creation and older than the timeout. */
  predicate Abandoned(s: Session, now: int, unusedTimeout: int) {
    Unused(s) && now - s.lastUsed > unusedTimeout
  }

  /** A session `/newsession` creates and nobody uses is swept exactly once the timeout has passed. */
  lemma NewSessionAbandoned(created: int, now: int, unusedTimeout: int)
    ensures Abandoned(NewSession(created), now, unusedTimeout) <==> now - created > unusedTimeout
    ensures Abandoned(Touch(NewSession(created), now), now, unusedTimeout) ==> now != created || unusedTimeout < 0
  {
  }

  /** The sweep is scheduled only when both the timeout and the interval are truthy. */
  predicate UnusedSweepScheduled(unusedTimeout: Option<int>, unusedInterval: Option<int>) {
    Enabled(unusedTimeout) && Enabled(unusedInterval)
  }

  /**
   * One turn of the unused sweep for `id`: `get(id, false, false)` reads the session
   * without refreshing or caching it, and an abandoned session is deleted from both tiers.
   * An id no longer present makes `session.lastUsed` throw.
   */
  function UnusedStep(t: Tiers, id: string, now: int, unusedTimeout: int): (r: Run<Tiers>)
    requires t.cache.Valid()
    ensures r.tiers.cache.Valid()
    ensures r.tiers.cache.entries - {id} == t.cache.entries - {id}
    ensures r.tiers.disk - {FileOf(id)} == t.disk - {FileOf(id)}
  {
    if !HasIn(t.cache, t.disk, id) then Run(t, Some(MissingSession))
    else if !Abandoned(Loaded(t.cache, t.disk, id, false, now), now, unusedTimeout) then Run(t, None)
    else DeleteFrom(t, id)
  }

  /** The turns of the unused sweep over `ids`, in order, up to the first that throws. */
  function UnusedFold(t: Tiers, ids: seq<string>, now: int, unusedTimeout: int): (r: Run<Tiers>)
    requires t.cache.Valid()
    ensures r.tiers.cache.Valid()
  {
    if |ids| == 0 then Run(t, None)
    else
      var prev := UnusedFold(t, ids[..|ids| - 1], now, unusedTimeout);
      if prev.thrown.Some? then prev else UnusedStep(prev.tiers, ids[|ids| - 1], now, unusedTimeout)
  }

  lemma UnusedFoldNext(t: Tiers, ids: seq<string>, i: nat, now: int, unusedTimeout: int)
    requires t.cache.Valid() && i < |ids|
    ensures var prev := UnusedFold(t, ids[..i], now, unusedTimeout);
      UnusedFold(t, ids[..i + 1], now, unusedTimeout) ==
        if prev.thrown.Some? then prev else UnusedStep(prev.tiers, ids[i], now, unusedTimeout)
  {
    assert ids[..i + 1][..i] == ids[..i];
  }

  /** Once a turn has thrown, the later ids are never visited. */
  lemma {:induction false} UnusedFoldPropagates(t: Tiers, ids: seq<string>, i: nat, now: int, unusedTimeout: int)
    requires t.cache.Valid() && i <= |ids|
    requires UnusedFold(t, ids[..i], now, unusedTimeout).thrown.Some?
    ensures UnusedFold(t, ids, now, unusedTimeout) == UnusedFold(t, ids[..i], now, unusedTimeout)
  {
    if |ids| == i {
      assert ids[..i] == ids;
    } else {
      var init := ids[..|ids| - 1];
      assert init[..i] == ids[..i];
      UnusedFoldPropagates(t, init, i, now, unusedTimeout);
    }
  }

  /** The sweep leaves the cache entry and the file of an id it does not visit as they were. */
  lemma {:induction false} UnusedFoldElsewhere(t: Tiers, ids: seq<string>, now: int, unusedTimeout: int, x: string)
    requires t.cache.Valid() && x !in ids && PlainId(x)
    requires forall id :: id in ids ==> PlainId(id)
    ensures var r := UnusedFold(t, ids, now, unusedTimeout).tiers;
      && (x in r.cache.entries <==> x in t.cache.entries)
      && (x in r.cache.entries ==> r.cache.entries[x] == t.cache.entries[x])
      && (FileOf(x) in r.disk <==> FileOf(x) in t.disk)
      && (FileOf(x) in r.disk ==> r.disk[FileOf(x)] == t.disk[FileOf(x)])
  {
    if |ids| > 0 {
      var init := ids[..|ids| - 1];
      var last := ids[|ids| - 1];
      assert ids == init + [last];
      UnusedFoldElsewhere(t, init, now, unusedTimeout, x);
      FileOfInjective(x, last);
      var prev := UnusedFold(t, init, now, unusedTimeout);
      if prev.thrown.None? {
        var r := UnusedStep(prev.tiers, last, now, unusedTimeout);
        assert x in r.tiers.cache.entries - {last} <==> x in prev.tiers.cache.entries - {last};
        assert FileOf(x) in r.tiers.disk - {FileOf(last)} <==> FileOf(x) in prev.tiers.disk - {FileOf(last)};
      }
    }
  }

  /** Over visitable ids, a coherent store never throws and stays coherent. */
  lemma {:induction false} UnusedFoldClean(t: Tiers, ids: seq<string>, now: int, unusedTimeout: int)
    requires Coherent(t) && Visitable(t, ids)
    ensures UnusedFold(t, ids, now, unusedTimeout).thrown == None
    ensures Coherent(UnusedFold(t, ids, now, unusedTimeout).tiers)
  {
    if |ids| > 0 {
      var init := ids[..|ids| - 1];
      var last := ids[|ids| - 1];
      assert ids == init + [last];
      assert Visitable(t, init) && last !in init;
      UnusedFoldClean(t, init, now, unusedTimeout);
      UnusedFoldElsewhere(t, init, now, unusedTimeout, last);
      var prev := UnusedFold(t, init, now, unusedTimeout).tiers;
      var r := UnusedStep(prev, last, now, unusedTimeout).tiers;
      forall id | id in r.cache.entries ensures PlainId(id) && FileOf(id) in r.disk {
        if id != last {
          assert id in r.cache.entries - {last};
          FileOfInjective(id, last);
          assert FileOf(id) in prev.disk - {FileOf(last)};
        }
      }
    }
  }

  /**
   * What the sweep from `t` to `r` did to the visited id `x`: an abandoned session is gone
   * from both tiers; any other keeps its cache entry (or its absence) and its file.
   */
  ghost predicate SweptUnused(t: Tiers, r: Tiers, x: string, now: int, unusedTimeout: int)
    requires HasIn(t.cache, t.disk, x)
  {
    var s := Loaded(t.cache, t.disk, x, false, now);
    && (Abandoned(s, now, unusedTimeout) ==> x !in r.cache.entries && FileOf(x) !in r.disk)
    && (!Abandoned(s, now, unusedTimeout) ==>
          && (x in r.cache.entries <==> x in t.cache.entries)
          && (x in r.cache.entries ==> r.cache.entries[x] == t.cache.entries[x])
          && (FileOf(x) in r.disk <==> FileOf(x) in t.disk)
          && (FileOf(x) in r.disk ==> r.disk[FileOf(x)] == t.disk[FileOf(x)]))
  }

  /** Over visitable ids of a coherent store, every visited id is swept as `SweptUnused` says. */
  lemma {:induction false} UnusedFoldVisits(t: Tiers, ids: seq<string>, now: int, unusedTimeout: int, x: string)
    requires Coherent(t) && Visitable(t, ids) && x in ids
    ensures SweptUnused(t, UnusedFold(t, ids, now, unusedTimeout).tiers, x, now, unusedTimeout)
  {
    var init := ids[..|ids| - 1];
    var last := ids[|ids| - 1];
    assert ids == init + [last];
    assert Visitable(t, init) && last !in init;
    UnusedFoldClean(t, init, now, unusedTimeout);
    var prev := UnusedFold(t, init, now, unusedTimeout).tiers;
    var r := UnusedStep(prev, last, now, unusedTimeout).tiers;
    if x == last {
      UnusedFoldElsewhere(t, init, now, unusedTimeout, x);
      assert Loaded(prev.cache, prev.disk, x, false, now) == Loaded(t.cache, t.disk, x, false, now);
    } else {
      assert x in init;
      UnusedFoldVisits(t, init, now, unusedTimeout, x);
      FileOfInjective(x, last);
      assert x in r.cache.entries - {last} <==> x in prev.cache.entries - {last};
      assert FileOf(x) in r.disk - {FileOf(last)} <==> FileOf(x) in prev.disk - {FileOf(last)};
    }
  }

  /** `sessionStore.keys()` on the tiers: the ids of the listed files, then the unlisted cached ids. */
  function StoreKeys(t: Tiers, names: seq<string>): seq<string> {
    ListedIds(names, FileExtension) + Filter(t.cache.order, Unlisted(ListedIds(names, FileExtension)))
  }

  /**
   * The unused sweep on a coherent store whose directory holds only files of ids without
   * slashes: it visits every id of the store, throws nothing, leaves the store coherent,
   * and deletes from both tiers exactly the sessions never used and older than the
   * timeout, leaving every other one where it was.
   */
  lemma UnusedSweepExact(t: Tiers, names: seq<string>, now: int, unusedTimeout: int)
    requires Coherent(t) && Lists(names, t.disk)
    requires forall id :: id in ListedIds(names, FileExtension) ==> PlainId(id)
    ensures forall id :: id in StoreKeys(t, names) <==>
      id in t.cache.entries || exists n :: n in t.disk && IdOfEntry(n, FileExtension) == Some(id)
    ensures UnusedFold(t, StoreKeys(t, names), now, unusedTimeout).thrown == None
    ensures Coherent(UnusedFold(t, StoreKeys(t, names), now, unusedTimeout).tiers)
    ensures forall id :: id in StoreKeys(t, names) ==>
      HasIn(t.cache, t.disk, id) &&
      SweptUnused(t, UnusedFold(t, StoreKeys(t, names), now, unusedTimeout).tiers, id, now, unusedTimeout)
  {
    var listed := ListedIds(names, FileExtension);
    var ids := StoreKeys(t, names);
    ListedIdsOfDisk(names, t.disk, FileExtension);
    UnlistedAppended(listed, t.cache.order);
    forall id | id in listed ensures FileOf(id) in t.disk {
      var n :| n in t.disk && IdOfEntry(n, FileExtension) == Some(id);
      ListedIdFindsItsEntry(n, FileExtension);
    }
    assert Visitable(t, ids);
    UnusedFoldClean(t, ids, now, unusedTimeout);
    forall id | id in ids
      ensures HasIn(t.cache, t.disk, id)
      ensures SweptUnused(t, UnusedFold(t, ids, now, unusedTimeout).tiers, id, now, unusedTimeout)
    {
      UnusedFoldVisits(t, ids, now, unusedTimeout, id);
    }
  }

  /** The body of the sweep's loop for one id. */
  method UnusedTurn(store: FileCacheStore, id: string, now: int, unusedTimeout: int) returns (thrown: Option<JsError>)
    requires store.Valid()
    modifies store
    ensures store.Valid()
    ensures UnusedStep(old(Tiers(store.cachedSessions, store.disk)), id, now, unusedTimeout)
      == Run(Tiers(store.cachedSessions, store.disk), thrown)
  {
    var session := store.Get(id, false, false, now);
    if session.None? {
      return Some(MissingSession);
    }
    if Abandoned(session.value, now, unusedTimeout) {
      var deleted := store.Delete(id);
      if deleted.Err? {
        return Some(deleted.error);
      }
    }
    thrown := None;
  }

  /**
   * One run of the unused-session sweep, when it is scheduled: over `keys()` of the store,
   * delete every session never used since creation and idle longer than the timeout. A
   * turn that throws ends the run where it stands. The number deleted only feeds a log.
   */
  method UnusedSweep(store: FileCacheStore, names: seq<string>, now: int,
                     unusedTimeout: Option<int>, unusedInterval: Option<int>)
    returns (thrown: Option<JsError>)
    requires store.Valid() && Lists(names, store.disk)
    modifies store
    ensures store.Valid()
    ensures !UnusedSweepScheduled(unusedTimeout, unusedInterval) ==> thrown == None && unchanged(store)
    ensures UnusedSweepScheduled(unusedTimeout, unusedInterval) ==>
      var t := old(Tiers(store.cachedSessions, store.disk));
      UnusedFold(t, StoreKeys(t, names), now, unusedTimeout.value) == Run(Tiers(store.cachedSessions, store.disk), thrown)
  {
    if !UnusedSweepScheduled(unusedTimeout, unusedInterval) {
      return None;
    }
    var list := store.Keys(names);
    thrown := UnusedRun(store, list, now, unusedTimeout.value);
  }

  /** The loop of the unused sweep over the ids `list`, in order, until a turn throws. */
  method UnusedRun(store: FileCacheStore, list: seq<string>, now: int, unusedTimeout: int)
    returns (thrown: Option<JsError>)
    requires store.Valid()
    modifies store
    ensures store.Valid()
    ensures UnusedFold(old(Tiers(store.cachedSessions, store.disk)), list, now, unusedTimeout)
      == Run(Tiers(store.cachedSessions, store.disk), thrown)
  {
    ghost var t0 := Tiers(store.cachedSessions, store.disk);
    var i := 0;
    while i < |list|
      invariant i <= |list| && store.Valid()
      invariant UnusedFold(t0, list[..i], now, unusedTimeout) == Run(Tiers(store.cachedSessions, store.disk), None)
    {
      UnusedFoldNext(t0, list, i, now, unusedTimeout);
      var turn := UnusedTurn(store, list[i], now, unusedTimeout);
      if turn.Some? {
        UnusedFoldPropagates(t0, list, i + 1, now, unusedTimeout);
        return turn;
      }
      i := i + 1;
    }
    assert list[..i] == list;
    thrown := None;
  }
}
