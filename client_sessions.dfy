/**
 * The list of sessions the front page keeps in the browser's `localStorage`: the stored
 * list under `rammerhead_sessionids`, the default session id under
 * `rammerhead_default_sessionid`, and the page's `addSession` and `editSession`.
 *
 * JSON is not modelled as text: the stored list is one of the shapes `JSON.parse` can
 * leave it in, and a list of entries is taken to be stored and read back unchanged.
 */
module ClientSessions {
  import opened Wrappers

  const ListKey := "rammerhead_sessionids"
  const DefaultKey := "rammerhead_default_sessionid"

  /** One entry of the list; `httpproxy` and `enableShuffling` are absent until the session is edited. */
  datatype Entry = Entry(id: string, createdOn: string, httpproxy: Option<string>, enableShuffling: Option<bool>)

  /**
   * What `localStorage.getItem(ListKey)` holds: nothing, the empty string, text that does
   * not parse as JSON, JSON that is not an array, or an array of entries.
   */
  datatype Stored = Missing | EmptyText | Unparsable | NotArray | ListOf(entries: seq<Entry>)

  /**
   * The index of the first entry whose id is `id`, if any. This is `findIndex`, and the
   * first element of `filter` on the id.
   */
  function FirstIndex(data: seq<Entry>, id: string): (r: Option<nat>)
    ensures r.Some? ==> r.value < |data| && data[r.value].id == id
    ensures r.Some? ==> forall k :: 0 <= k < r.value ==> data[k].id != id
    ensures r.None? <==> forall k :: 0 <= k < |data| ==> data[k].id != id
  {
    if |data| == 0 then None
    else if data[0].id == id then Some(0)
    else
      match FirstIndex(data[1..], id)
      case None => None
      case Some(j) =>
        assert forall k :: 1 <= k < j + 1 ==> data[k] == data[1..][k - 1];
        Some(j + 1)
  }

  /** The list `editSession` stores: the first entry with the id gets the new proxy and shuffling settings. */
  function EditFirst(data: seq<Entry>, id: string, httpproxy: string, enableShuffling: bool): Option<seq<Entry>> {
    match FirstIndex(data, id)
    case None => None
    case Some(j) => Some(data[j := data[j].(httpproxy := Some(httpproxy), enableShuffling := Some(enableShuffling))])
  }

  /**
   * `editSession` fails exactly when no entry has the id; otherwise it keeps the length,
   * every id and creation time, changes the settings of the first matching entry only,
   * and leaves every other entry as it was.
   */
  lemma EditFirstExactly(data: seq<Entry>, id: string, httpproxy: string, enableShuffling: bool)
    ensures EditFirst(data, id, httpproxy, enableShuffling).None? <==> forall k :: 0 <= k < |data| ==> data[k].id != id
    ensures EditFirst(data, id, httpproxy, enableShuffling).Some? ==>
      var edited := EditFirst(data, id, httpproxy, enableShuffling).value;
      && |edited| == |data|
      && (forall k :: 0 <= k < |data| ==> edited[k].id == data[k].id && edited[k].createdOn == data[k].createdOn)
      && exists j ::
           && 0 <= j < |data| && data[j].id == id
           && (forall k :: 0 <= k < j ==> data[k].id != id)
           && edited[j].httpproxy == Some(httpproxy) && edited[j].enableShuffling == Some(enableShuffling)
           && forall k :: 0 <= k < |data| && k != j ==> edited[k] == data[k]
  {
    match FirstIndex(data, id)
    case None =>
    case Some(j) =>
      var edited := EditFirst(data, id, httpproxy, enableShuffling).value;
      assert edited[j].httpproxy == Some(httpproxy);
  }

  /**
   * `getDefault` as written: the result of `filter` is thrown away, so with a default id set
   * and a non-empty list it answers the first entry of the list, whatever its id.
   */
  function DefaultAsWritten(defaultId: Option<string>, data: seq<Entry>): Option<Entry> {
    if defaultId.Some? && defaultId.value != "" && |data| > 0 then Some(data[0]) else None
  }

  /**
   * With a default id set, the as-written `getDefault` answers the head of the list for
   * every default id: two lists that share their head give the same answer for every id.
   */
  lemma DefaultAsWrittenIgnoresId(id1: string, id2: string, data: seq<Entry>)
    requires id1 != "" && id2 != "" && |data| > 0
    ensures DefaultAsWritten(Some(id1), data) == DefaultAsWritten(Some(id2), data) == Some(data[0])
  {
  }

  /** The stored list `[a, b]` with default `"b"`: the as-written `getDefault` answers `a`. */
  lemma DefaultAsWrittenMisbehaves()
    ensures
      var a := Entry("a", "t0", None, None);
      var b := Entry("b", "t1", None, None);
      && DefaultAsWritten(Some("b"), [a, b]) == Some(a)
      && DefaultAsWritten(Some("b"), [a, b]).value.id != "b"
  {
  }

  /** `getDefault` as evidently intended: the first entry whose id is the default id. */
  function DefaultEntry(defaultId: Option<string>, data: seq<Entry>): (r: Option<Entry>)
    ensures r.Some? ==> defaultId.Some? && r.value.id == defaultId.value && r.value in data
    ensures r.Some? ==> exists j :: 0 <= j < |data| && data[j] == r.value && forall k :: 0 <= k < j ==> data[k].id != r.value.id
    ensures r.None? <==> (defaultId.None? || defaultId.value == "" || forall k :: 0 <= k < |data| ==> data[k].id != defaultId.value)
  {
    if defaultId.None? || defaultId.value == "" then None
    else
      match FirstIndex(data, defaultId.value)
      case None => None
      case Some(j) => Some(data[j])
  }

  /** The session store of the front page, over the two `localStorage` items it owns. */
  class SessionIdsStore {
    /** The item under `ListKey`. */
    var stored: Stored
    /** The item under `DefaultKey`; `None` when it was never set. */
    var defaultId: Option<string>

    constructor (stored: Stored, defaultId: Option<string>)
      ensures this.stored == stored && this.defaultId == defaultId
    {
      this.stored := stored;
      this.defaultId := defaultId;
    }

    /** `sessionIdsStore.get()`: the stored list, or `[]` when nothing usable is stored. */
    method Get() returns (data: seq<Entry>)
      ensures stored.ListOf? ==> data == stored.entries
      ensures (stored.Missing? || stored.EmptyText? || stored.Unparsable? || stored.NotArray?) ==> data == []
    {
      match stored
      case ListOf(entries) => data := entries;
      case _ => data := [];
    }

    /** `sessionIdsStore.set(data)`: the list is stored in place of what was there. */
    method SetList(data: seq<Entry>)
      modifies this
      ensures stored == ListOf(data) && defaultId == old(defaultId)
    {
      stored := ListOf(data);
    }

    /** `sessionIdsStore.setDefault(id)`. */
    method SetDefault(id: string)
      modifies this
      ensures defaultId == Some(id) && stored == old(stored)
    {
      defaultId := Some(id);
    }

    /**
     * `sessionIdsStore.getDefault()`, with the result of the id filter used: the first stored
     * entry whose id is the default id.
     */
    method GetDefault() returns (r: Option<Entry>)
      ensures r == DefaultEntry(defaultId, if stored.ListOf? then stored.entries else [])
      ensures r.Some? ==> defaultId.Some? && r.value.id == defaultId.value && stored.ListOf? && r.value in stored.entries
      ensures r.None? <==>
        (defaultId.None? || defaultId.value == "" || !stored.ListOf?
         || forall k :: 0 <= k < |stored.entries| ==> stored.entries[k].id != defaultId.value)
    {
      r := None;
      if defaultId.Some? && defaultId.value != "" {
        var data := Get();
        r := DefaultEntry(defaultId, data);
      }
    }

    /** `addSession(id)`: a new entry goes in front of the stored list, the others follow in order. */
    method AddSession(id: string, createdOn: string)
      modifies this
      ensures stored.ListOf? && |stored.entries| > 0
      ensures stored.entries[0] == Entry(id, createdOn, None, None)
      ensures old(stored).ListOf? ==> stored.entries[1..] == old(stored).entries
      ensures !old(stored).ListOf? ==> stored.entries == [Entry(id, createdOn, None, None)]
      ensures defaultId == old(defaultId)
    {
      var data := Get();
      SetList([Entry(id, createdOn, None, None)] + data);
    }

    /**
     * `editSession(id, httpproxy, enableShuffling)`: the first stored entry with the id gets
     * the settings and the list is stored again; with no such entry it throws and stores nothing.
     */
    method EditSession(id: string, httpproxy: string, enableShuffling: bool) returns (err: Option<JsError>)
      modifies this
      ensures var data := if old(stored).ListOf? then old(stored).entries else [];
        match EditFirst(data, id, httpproxy, enableShuffling)
        case None => err == Some(TypeError("cannot find " + id)) && stored == old(stored)
        case Some(edited) => err == None && stored == ListOf(edited)
      ensures defaultId == old(defaultId)
    {
      var data := Get();
      var i := 0;
      while i < |data|
        invariant 0 <= i <= |data|
        invariant forall k :: 0 <= k < i ==> data[k].id != id
      {
        if data[i].id == id {
          data := data[i := data[i].(httpproxy := Some(httpproxy), enableShuffling := Some(enableShuffling))];
          SetList(data);
          return None;
        }
        i := i + 1;
      }
      err := Some(TypeError("cannot find " + id));
    }
  }

  /**
   * A session added and then made the default is what the corrected `getDefault` answers,
   * whatever the list held before.
   */
  lemma AddedThenDefault(id: string, createdOn: string, data: seq<Entry>)
    requires id != ""
    ensures DefaultEntry(Some(id), [Entry(id, createdOn, None, None)] + data) == Some(Entry(id, createdOn, None, None))
  {
    assert ([Entry(id, createdOn, None, None)] + data)[0].id == id;
  }
}
