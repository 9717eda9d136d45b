/**
 * What the session stores need to know about a RammerheadSession, and the rules they
 * share: the expiry test of the periodic sweeps and the mapping from a session id to
 * the name of its file (`.rhfsession`) or folder (`.rhsession`) and back.
 */
module Sessions {
  import opened Wrappers
  import opened JsMaps

  /**
   * The fields of a session that the stores and routes read or write. Its serialized form
   * and the data of the rewriting engine are opaque here.
   */
  datatype Session = Session(createdAt: int, lastUsed: int, proxy: Option<string>)

  /** A session created at time `now`: created and last used at that moment, no upstream proxy. */
  function NewSession(now: int): (s: Session)
    ensures Unused(s) && s.lastUsed == now && s.proxy == None
  {
    Session(now, now, None)
  }

  /** `session.updateLastUsed()` at time `now`. */
  function Touch(s: Session, now: int): (r: Session)
    ensures r.lastUsed == now && r.createdAt == s.createdAt && r.proxy == s.proxy
  {
    s.(lastUsed := now)
  }

  /** Never used since creation: the test of the unused-session sweep of src/server.js. */
  predicate Unused(s: Session) {
    s.lastUsed == s.createdAt
  }

  /** A threshold of a sweep, where JavaScript's `null`, `undefined` and `0` are all falsy. */
  predicate Enabled(threshold: Option<int>) {
    threshold.Some? && threshold.value != 0
  }

  /**
   * The test every cleanup sweep applies:
   * `(staleTimeout && now - lastUsed > staleTimeout) || (maxToLive && now - createdAt > maxToLive)`.
   */
  predicate Expired(s: Session, now: int, staleTimeout: Option<int>, maxToLive: Option<int>) {
    || (Enabled(staleTimeout) && now - s.lastUsed > staleTimeout.value)
    || (Enabled(maxToLive) && now - s.createdAt > maxToLive.value)
  }

  /**
   * Expiry in both directions: a session expires once it is idle longer than an enabled
   * stale timeout or older than an enabled maximum age, and in no other case. Once expired
   * it stays expired as time goes on.
   */
  lemma ExpiredExactly(s: Session, now: int, later: int, staleTimeout: Option<int>, maxToLive: Option<int>)
    requires now <= later
    ensures !Enabled(staleTimeout) && !Enabled(maxToLive) ==> !Expired(s, now, staleTimeout, maxToLive)
    ensures Enabled(staleTimeout) && now - s.lastUsed > staleTimeout.value ==> Expired(s, now, staleTimeout, maxToLive)
    ensures Enabled(maxToLive) && now - s.createdAt > maxToLive.value ==> Expired(s, now, staleTimeout, maxToLive)
    ensures (!Enabled(staleTimeout) || now - s.lastUsed <= staleTimeout.value)
         && (!Enabled(maxToLive) || now - s.createdAt <= maxToLive.value)
         ==> !Expired(s, now, staleTimeout, maxToLive)
    ensures Expired(s, now, staleTimeout, maxToLive) ==> Expired(s, later, staleTimeout, maxToLive)
  {
  }

  /** The ids of `entries` that a cleanup sweep keeps: those whose session is not expired. */
  function Survives(entries: map<string, Session>, now: int, staleTimeout: Option<int>, maxToLive: Option<int>)
    : string -> bool
  {
    id => id in entries && !Expired(entries[id], now, staleTimeout, maxToLive)
  }

  /** `id.replace(/\/|\\/g, '')`: the id with every '/' and '\' removed. */
  function StripSlashes(id: string): (r: string)
    ensures '/' !in r && '\\' !in r
    ensures |r| <= |id|
  {
    if |id| == 0 then ""
    else (if id[0] == '/' || id[0] == '\\' then "" else [id[0]]) + StripSlashes(id[1..])
  }

  /** An id that needs no stripping: it names its file without loss. */
  predicate PlainId(id: string) {
    '/' !in id && '\\' !in id
  }

  /** Stripping changes exactly the ids that hold a slash or a backslash. */
  lemma {:induction false} StripSlashesIdentity(id: string)
    ensures StripSlashes(id) == id <==> PlainId(id)
  {
    if |id| > 0 {
      StripSlashesIdentity(id[1..]);
      assert id == [id[0]] + id[1..];
      if id[0] == '/' || id[0] == '\\' {
        assert |StripSlashes(id)| <= |id[1..]| < |id|;
      }
    }
  }

  /** `sessionFileExtension` of the two file-backed stores. */
  const FileExtension: string := ".rhfsession"

  /** `sessionFolderExtension` of the persistent store. */
  const FolderExtension: string := ".rhsession"

  predicate EndsWith(s: string, suffix: string) {
    |suffix| <= |s| && s[|s| - |suffix|..] == suffix
  }

  /** The last part of `_getSessionFilePath` / `_getSessionFolderPath`: stripped id plus extension. */
  function EntryName(id: string, extension: string): (r: string)
    ensures EndsWith(r, extension) && |r| == |StripSlashes(id)| + |extension|
  {
    StripSlashes(id) + extension
  }

  /**
   * The per-entry step of `keys()`/`keysStore()`: a directory entry ending in the extension
   * stands for the id `name.slice(0, -extension.length)`; any other entry is skipped.
   */
  function IdOfEntry(name: string, extension: string): (r: Option<string>)
    ensures r.Some? <==> EndsWith(name, extension)
    ensures r.Some? ==> r.value + extension == name
  {
    if EndsWith(name, extension) then Some(name[..|name| - |extension|]) else None
  }

  /**
   * Listing the entry of an id gives back the id with its slashes stripped: the id itself
   * exactly when it holds no slash or backslash.
   */
  lemma EntryRoundTrip(id: string, extension: string)
    ensures IdOfEntry(EntryName(id, extension), extension) == Some(StripSlashes(id))
    ensures IdOfEntry(EntryName(id, extension), extension) == Some(id) <==> PlainId(id)
  {
    var name := EntryName(id, extension);
    assert name[|name| - |extension|..] == extension;
    assert name[..|name| - |extension|] == StripSlashes(id);
    StripSlashesIdentity(id);
  }

  /** Ids without slashes have entries of their own. */
  lemma EntryNameInjective(a: string, b: string, extension: string)
    requires PlainId(a) && PlainId(b) && a != b
    ensures EntryName(a, extension) != EntryName(b, extension)
  {
    StripSlashesIdentity(a);
    StripSlashesIdentity(b);
    var ea, eb := EntryName(a, extension), EntryName(b, extension);
    if |a| != |b| {
      assert |ea| != |eb|;
    } else {
      var k :| 0 <= k < |a| && a[k] != b[k];
      assert ea[k] == a[k] && eb[k] == b[k];
    }
  }

  /** An id read back from a directory entry leads to that same entry when it has no backslash. */
  lemma ListedIdFindsItsEntry(name: string, extension: string)
    requires IdOfEntry(name, extension).Some?
    requires PlainId(IdOfEntry(name, extension).value)
    ensures EntryName(IdOfEntry(name, extension).value, extension) == name
  {
    StripSlashesIdentity(IdOfEntry(name, extension).value);
  }

  /** `readdirSync(dir).filter(endsWith(extension)).map(slice)`, over the listing `names`. */
  function ListedIds(names: seq<string>, extension: string): (ids: seq<string>)
    ensures |ids| <= |names|
  {
    if |names| == 0 then []
    else
      var init := ListedIds(names[..|names| - 1], extension);
      match IdOfEntry(names[|names| - 1], extension)
      case Some(id) => init + [id]
      case None => init
  }

  /** An id is listed exactly when some directory entry ending in the extension stands for it. */
  lemma {:induction false} ListedIdsExactly(names: seq<string>, extension: string, id: string)
    ensures id in ListedIds(names, extension) <==>
      exists n :: n in names && IdOfEntry(n, extension) == Some(id)
  {
    if |names| > 0 {
      var init := names[..|names| - 1];
      var last := names[|names| - 1];
      ListedIdsExactly(init, extension, id);
      assert names == init + [last];
      if id in ListedIds(names, extension) && id !in ListedIds(init, extension) {
        assert IdOfEntry(last, extension) == Some(id);
      }
      if exists n :: n in names && IdOfEntry(n, extension) == Some(id) {
        var n :| n in names && IdOfEntry(n, extension) == Some(id);
        if n != last {
          assert n in init;
        }
      }
    }
  }

  /** Different directory entries never stand for the same id. */
  lemma IdOfEntryInjective(n1: string, n2: string, extension: string)
    requires n1 != n2
    ensures IdOfEntry(n1, extension).None? || IdOfEntry(n1, extension) != IdOfEntry(n2, extension)
  {
  }

  /** Different directory entries stand for different ids, so a listing without repetitions lists each id once. */
  lemma {:induction false} ListedIdsDistinct(names: seq<string>, extension: string)
    requires Distinct(names)
    ensures Distinct(ListedIds(names, extension))
  {
    if |names| > 0 {
      var init := names[..|names| - 1];
      var last := names[|names| - 1];
      assert Distinct(init);
      ListedIdsDistinct(init, extension);
      var r := IdOfEntry(last, extension);
      if r.Some? {
        assert last !in init;
        forall n | n in init ensures IdOfEntry(n, extension) != r {
          IdOfEntryInjective(n, last, extension);
        }
        ListedIdsExactly(init, extension, r.value);
        DistinctAppend(ListedIds(init, extension), [r.value]);
      }
    }
  }

  /** Reading `lastUsed` of the `undefined` that a store's `get` returns for an absent id. */
  const MissingSession: JsError := TypeError("Cannot read properties of undefined (reading 'lastUsed')")

  /** Reading `createdAt` of the `undefined` that a store's `get` returns for an absent id. */
  const MissingCreatedAt: JsError := TypeError("Cannot read properties of undefined (reading 'createdAt')")

  /**
   * The cleanup test of a sweep applied to what `get(id, false)` returned, which is `undefined`
   * for an id that has gone. `&&` and `||` short-circuit: `lastUsed` is read only under an
   * enabled stale timeout and `createdAt` only under an enabled maximum age, so with both
   * disabled `undefined` passes as "not expired".
   */
  function ExpiryTest(s: Option<Session>, now: int, staleTimeout: Option<int>, maxToLive: Option<int>)
    : (r: Result<bool, JsError>)
    ensures s.Some? ==> r == Ok(Expired(s.value, now, staleTimeout, maxToLive))
    ensures s.None? && Enabled(staleTimeout) ==> r == Err(MissingSession)
    ensures s.None? && !Enabled(staleTimeout) && Enabled(maxToLive) ==> r == Err(MissingCreatedAt)
    ensures s.None? && !Enabled(staleTimeout) && !Enabled(maxToLive) ==> r == Ok(false)
    ensures r.Err? <==> s.None? && (Enabled(staleTimeout) || Enabled(maxToLive))
  {
    match s
    case Some(session) => Ok(Expired(session, now, staleTimeout, maxToLive))
    case None =>
      if Enabled(staleTimeout) then Err(MissingSession)
      else if Enabled(maxToLive) then Err(MissingCreatedAt)
      else Ok(false)
  }

  /** The error a turn throws when `ExpiryTest` fails. */
  function Thrown(test: Result<bool, JsError>): (r: Option<JsError>)
    ensures r.Some? <==> test.Err?
    ensures test.Err? ==> r == Some(test.error)
  {
    if test.Err? then Some(test.error) else None
  }

  /** The state a sweep over the listed ids has reached, and the error one of its turns threw, if any. */
  datatype Run<T> = Run(tiers: T, thrown: Option<JsError>)

  /** `names` is a listing of the directory `dir`: every entry once. */
  ghost predicate Lists(names: seq<string>, dir: map<string, Session>) {
    Distinct(names) && forall n :: n in names <==> n in dir
  }

  /** The ids read from a listing of a directory are distinct, and are those its entries stand for. */
  lemma ListedIdsOfDisk(names: seq<string>, dir: map<string, Session>, extension: string)
    requires Lists(names, dir)
    ensures Distinct(ListedIds(names, extension))
    ensures forall id :: id in ListedIds(names, extension) <==>
      exists n :: n in dir && IdOfEntry(n, extension) == Some(id)
  {
    ListedIdsDistinct(names, extension);
    forall id ensures id in ListedIds(names, extension) <==> exists n :: n in dir && IdOfEntry(n, extension) == Some(id) {
      ListedIdsExactly(names, extension, id);
    }
  }
}
