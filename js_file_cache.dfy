/**
 * RammerheadJSFileCache: rewritten scripts kept as files in one directory, with an LRU
 * index from file name to size. Evicting a key from the index deletes its file. In worker
 * mode the master process owns the index; a worker asks the master whether a key is cached
 * and hands writes to it, matching answers to questions by a numeric id.
 *
 * The index is a `JsMap` whose order is recency, least recently used first. Which keys
 * the LRU library evicts, and when, is its own policy: here eviction is an operation of
 * its own on keys the caller chooses.
 */
module JsFileCaches {
  import opened Wrappers
  import opened JsMaps

  /** A directory entry of the cache folder with its size. */
  datatype FileEntry = FileEntry(key: string, size: int)

  /** The entry the library keeps after `lruMarker.set(k, v)` or a `get` of `k`: most recently used. */
  function Bump(m: JsMap<string, int>, k: string, v: int): (r: JsMap<string, int>)
    requires m.Valid()
    ensures r.Valid()
    ensures r.entries == m.entries[k := v]
    ensures r.order == Remove(m.order, k) + [k]
  {
    Set(JsMaps.Delete(m, k), k, v)
  }

  /** The first loop of the startup: every listed file but `.gitkeep`, with its size. */
  function Listed(names: seq<string>, files: map<string, string>): (r: seq<FileEntry>)
    requires forall n :: n in names ==> n in files
    ensures forall e :: e in r <==> e.key in names && e.key != ".gitkeep" && e.size == |files[e.key]|
  {
    if |names| == 0 then []
    else
      var last := names[|names| - 1];
      Listed(names[..|names| - 1], files) + if last == ".gitkeep" then [] else [FileEntry(last, |files[last]|)]
  }

  predicate SortedBySize(s: seq<FileEntry>) {
    forall i, j :: 0 <= i < j < |s| ==> s[i].size <= s[j].size
  }

  /** No two entries share a key. */
  ghost predicate DistinctKeys(s: seq<FileEntry>) {
    forall i, j :: 0 <= i < j < |s| ==> s[i].key != s[j].key
  }

  /** `e` placed before the first entry of `s` that is not smaller, so equal sizes keep their order. */
  function Insert(e: FileEntry, s: seq<FileEntry>): (r: seq<FileEntry>)
    ensures |r| == |s| + 1
  {
    if |s| == 0 || e.size <= s[0].size then [e] + s
    else [s[0]] + Insert(e, s[1..])
  }

  /** `initFileList.sort((a, b) => a.size - b.size)`: a stable sort by ascending size. */
  function SortBySize(s: seq<FileEntry>): (r: seq<FileEntry>)
    ensures |r| == |s|
  {
    if |s| == 0 then [] else Insert(s[0], SortBySize(s[1..]))
  }

  /** Inserting into a sorted sequence keeps it sorted. */
  lemma {:induction false} InsertSorted(e: FileEntry, s: seq<FileEntry>)
    requires SortedBySize(s)
    ensures SortedBySize(Insert(e, s))
  {
    if |s| > 0 && e.size > s[0].size {
      var rest := s[1..];
      assert SortedBySize(rest);
      InsertSorted(e, rest);
      InsertBound(e, rest, s[0].size);
      var t := Insert(e, rest);
      var r := [s[0]] + t;
      forall i, j | 0 <= i < j < |r| ensures r[i].size <= r[j].size {
        assert r[j] == t[j - 1];
        if i > 0 {
          assert r[i] == t[i - 1];
        }
      }
    }
  }

  /** A bound below `e` and every entry of `s` is a bound below every entry of the insertion. */
  lemma {:induction false} InsertBound(e: FileEntry, s: seq<FileEntry>, bound: int)
    requires bound <= e.size
    requires forall k :: 0 <= k < |s| ==> bound <= s[k].size
    ensures forall k :: 0 <= k < |Insert(e, s)| ==> bound <= Insert(e, s)[k].size
  {
    if |s| > 0 && e.size > s[0].size {
      InsertBound(e, s[1..], bound);
    }
  }

  /** Inserting adds exactly the one entry. */
  lemma {:induction false} InsertAdds(e: FileEntry, s: seq<FileEntry>)
    ensures multiset(Insert(e, s)) == multiset(s) + multiset{e}
  {
    if |s| > 0 && e.size > s[0].size {
      InsertAdds(e, s[1..]);
      assert s == [s[0]] + s[1..];
    }
  }

  /** The startup processes the files in ascending size, and processes each of them once. */
  lemma {:induction false} SortBySizeFacts(s: seq<FileEntry>)
    ensures SortedBySize(SortBySize(s))
    ensures multiset(SortBySize(s)) == multiset(s)
  {
    SortBySizeSorted(s);
    SortBySizePermutes(s);
  }

  /** Sorting gives a sequence in ascending size. */
  lemma {:induction false} SortBySizeSorted(s: seq<FileEntry>)
    ensures SortedBySize(SortBySize(s))
  {
    if |s| > 0 {
      SortBySizeSorted(s[1..]);
      InsertSorted(s[0], SortBySize(s[1..]));
    }
  }

  /** Sorting keeps every entry, as often as it occurs. */
  lemma {:induction false} SortBySizePermutes(s: seq<FileEntry>)
    ensures multiset(SortBySize(s)) == multiset(s)
  {
    if |s| > 0 {
      SortBySizePermutes(s[1..]);
      InsertAdds(s[0], SortBySize(s[1..]));
      assert s == [s[0]] + s[1..];
      assert multiset(s) == multiset(s[1..]) + multiset{s[0]};
    }
  }

  /** The files and the index the cache works on. */
  datatype CacheDir = CacheDir(index: JsMap<string, int>, files: map<string, string>)

  /**
   * The second loop of the startup over the first `n` sorted entries: an empty file is
   * deleted as the remains of an interrupted write; any other file is indexed with its
   * size, without a dispose.
   */
  function Reindexed(d: CacheDir, sorted: seq<FileEntry>): (r: CacheDir)
    requires d.index.Valid()
    ensures r.index.Valid()
  {
    if |sorted| == 0 then d
    else
      var prev := Reindexed(d, sorted[..|sorted| - 1]);
      var e := sorted[|sorted| - 1];
      if e.size == 0 then prev.(files := prev.files - {e.key})
      else prev.(index := Bump(prev.index, e.key, e.size))
  }

  lemma ReindexedNext(d: CacheDir, sorted: seq<FileEntry>, i: nat)
    requires d.index.Valid() && i < |sorted|
    ensures var prev := Reindexed(d, sorted[..i]);
      Reindexed(d, sorted[..i + 1]) ==
        if sorted[i].size == 0 then prev.(files := prev.files - {sorted[i].key})
        else prev.(index := Bump(prev.index, sorted[i].key, sorted[i].size))
  {
    assert sorted[..i + 1][..i] == sorted[..i];
  }

  /** The non-empty entries, in their order. */
  function NonEmpty(s: seq<FileEntry>): (r: seq<FileEntry>)
    ensures forall e :: e in r <==> e in s && e.size != 0
  {
    if |s| == 0 then []
    else
      var e := s[|s| - 1];
      assert forall x :: x in s <==> x in s[..|s| - 1] || x == e;
      NonEmpty(s[..|s| - 1]) + if e.size != 0 then [e] else []
  }

  /** Dropping the empty entries keeps the rest sorted. */
  lemma {:induction false} NonEmptySorted(s: seq<FileEntry>)
    requires SortedBySize(s)
    ensures SortedBySize(NonEmpty(s))
  {
    if |s| > 0 {
      var init := s[..|s| - 1];
      var e := s[|s| - 1];
      assert SortedBySize(init);
      NonEmptySorted(init);
      var n := NonEmpty(init);
      if e.size != 0 {
        var r := n + [e];
        forall i, j | 0 <= i < j < |r| ensures r[i].size <= r[j].size {
          if j == |n| {
            assert r[i] in n && r[i] in init;
            var k :| 0 <= k < |init| && init[k] == r[i];
            assert s[k] == r[i];
          }
        }
      }
    }
  }

  /** Appending a non-empty entry appends it to the non-empty entries. */
  lemma NonEmptyNext(s: seq<FileEntry>)
    requires |s| > 0 && s[|s| - 1].size != 0
    ensures NonEmpty(s) == NonEmpty(s[..|s| - 1]) + [s[|s| - 1]]
  {
  }

  /** In a sequence with distinct keys, the last entry's key is not among the others. */
  lemma LastKeyNew(s: seq<FileEntry>)
    requires DistinctKeys(s) && |s| > 0
    ensures DistinctKeys(s[..|s| - 1])
    ensures forall x :: x in s[..|s| - 1] ==> x.key != s[|s| - 1].key
    ensures forall x :: x in s <==> x in s[..|s| - 1] || x == s[|s| - 1]
  {
    var init := s[..|s| - 1];
    forall x | x in init ensures x.key != s[|s| - 1].key {
      var i :| 0 <= i < |init| && init[i] == x;
      assert s[i] == x;
    }
    assert s == init + [s[|s| - 1]];
  }

  /**
   * The index the startup builds over entries with distinct keys, from an empty index:
   * exactly the non-empty entries, with their sizes, in the order processed.
   */
  lemma ReindexedIndex(files: map<string, string>, sorted: seq<FileEntry>)
    requires DistinctKeys(sorted)
    ensures var r := Reindexed(CacheDir(Empty(), files), sorted);
      && |r.index.order| == |NonEmpty(sorted)|
      && (forall i :: 0 <= i < |r.index.order| ==> r.index.order[i] == NonEmpty(sorted)[i].key)
      && (forall e :: e in sorted && e.size != 0 ==> e.key in r.index.entries && r.index.entries[e.key] == e.size)
      && (forall k :: k in r.index.entries ==> exists e :: e in sorted && e.key == k && e.size != 0)
  {
    ReindexedOrder(files, sorted);
    ReindexedSizes(files, sorted);
    ReindexedFrom(files, sorted);
  }

  /** Every key of the index built at startup is the key of a non-empty entry. */
  lemma {:induction false} ReindexedFrom(files: map<string, string>, sorted: seq<FileEntry>)
    ensures forall k :: k in Reindexed(CacheDir(Empty(), files), sorted).index.entries ==>
      exists e :: e in sorted && e.key == k && e.size != 0
  {
    if |sorted| > 0 {
      var init := sorted[..|sorted| - 1];
      var e := sorted[|sorted| - 1];
      assert sorted == init + [e];
      ReindexedFrom(files, init);
      var prev := Reindexed(CacheDir(Empty(), files), init);
      var r := Reindexed(CacheDir(Empty(), files), sorted);
      assert r.index.entries == if e.size == 0 then prev.index.entries else prev.index.entries[e.key := e.size];
      forall k | k in r.index.entries ensures exists x :: x in sorted && x.key == k && x.size != 0 {
        if e.size != 0 && k == e.key {
          assert e in sorted;
        } else {
          assert k in prev.index.entries;
          var x :| x in init && x.key == k && x.size != 0;
          assert x in sorted;
        }
      }
    }
  }

  /** Every non-empty entry met at startup is indexed with its size. */
  lemma {:induction false} ReindexedSizes(files: map<string, string>, sorted: seq<FileEntry>)
    requires DistinctKeys(sorted)
    ensures var r := Reindexed(CacheDir(Empty(), files), sorted);
      forall e :: e in sorted && e.size != 0 ==> e.key in r.index.entries && r.index.entries[e.key] == e.size
  {
    if |sorted| > 0 {
      var init := sorted[..|sorted| - 1];
      LastKeyNew(sorted);
      ReindexedSizes(files, init);
    }
  }

  /** A key that no entry has is not indexed at startup. */
  lemma {:induction false} ReindexedAbsent(files: map<string, string>, sorted: seq<FileEntry>, key: string)
    requires forall x :: x in sorted ==> x.key != key
    ensures key !in Reindexed(CacheDir(Empty(), files), sorted).index.entries
  {
    if |sorted| > 0 {
      var init := sorted[..|sorted| - 1];
      assert forall x :: x in init ==> x in sorted;
      ReindexedAbsent(files, init, key);
    }
  }

  /** The order of the index built at startup is that of the non-empty entries. */
  lemma {:induction false} ReindexedOrder(files: map<string, string>, sorted: seq<FileEntry>)
    requires DistinctKeys(sorted)
    ensures var r := Reindexed(CacheDir(Empty(), files), sorted);
      && |r.index.order| == |NonEmpty(sorted)|
      && (forall i :: 0 <= i < |r.index.order| ==> r.index.order[i] == NonEmpty(sorted)[i].key)
  {
    if |sorted| > 0 {
      var init := sorted[..|sorted| - 1];
      var e := sorted[|sorted| - 1];
      LastKeyNew(sorted);
      ReindexedOrder(files, init);
      if e.size == 0 {
        assert NonEmpty(sorted) == NonEmpty(init);
      } else {
        var prev := Reindexed(CacheDir(Empty(), files), init);
        ReindexedAbsent(files, init, e.key);
        RemoveAbsent(prev.index.order, e.key);
        NonEmptyNext(sorted);
      }
    }
  }

  /** The files the startup leaves: all but the empty ones it met, unchanged. */
  lemma {:induction false} ReindexedFiles(files: map<string, string>, sorted: seq<FileEntry>)
    ensures var r := Reindexed(CacheDir(Empty(), files), sorted);
      && (forall k :: k in r.files <==> k in files && !(exists e :: e in sorted && e.key == k && e.size == 0))
      && (forall k :: k in r.files ==> r.files[k] == files[k])
  {
    if |sorted| > 0 {
      var init := sorted[..|sorted| - 1];
      assert sorted == init + [sorted[|sorted| - 1]];
      ReindexedFiles(files, init);
    }
  }

  /** The index and the files agree: every indexed key has its file. */
  ghost predicate IndexedOnDisk(index: JsMap<string, int>, files: map<string, string>) {
    index.Valid() && forall k :: k in index.entries ==> k in files
  }

  /** `names` lists the cache folder: every file once. */
  ghost predicate Lists(names: seq<string>, files: map<string, string>) {
    Distinct(names) && forall n :: n in names <==> n in files
  }

  /** A listing gives entries with distinct keys, each naming a file of the folder. */
  lemma {:induction false} ListedDistinct(names: seq<string>, files: map<string, string>)
    requires Distinct(names) && forall n :: n in names ==> n in files
    ensures DistinctKeys(Listed(names, files))
  {
    if |names| > 0 {
      var init := names[..|names| - 1];
      var last := names[|names| - 1];
      assert Distinct(init);
      ListedDistinct(init, files);
      var l := Listed(init, files);
      assert last !in init;
      forall x | x in l ensures x.key != last {
      }
    }
  }

  /** Inserting an entry whose key is new keeps the keys distinct. */
  lemma {:induction false} InsertDistinct(e: FileEntry, s: seq<FileEntry>)
    requires DistinctKeys(s) && forall x :: x in s ==> x.key != e.key
    ensures DistinctKeys(Insert(e, s))
  {
    if |s| > 0 && e.size > s[0].size {
      var rest := s[1..];
      assert DistinctKeys(rest);
      assert s[0] in s;
      forall k | 0 <= k < |rest| ensures rest[k].key != s[0].key {
        assert rest[k] == s[k + 1];
      }
      InsertDistinct(e, rest);
      InsertAvoids(e, rest, s[0].key);
      var t := Insert(e, rest);
      var r := [s[0]] + t;
      forall i, j | 0 <= i < j < |r| ensures r[i].key != r[j].key {
        assert r[j] == t[j - 1];
        if i > 0 {
          assert r[i] == t[i - 1];
        }
      }
    }
  }

  /** A key that neither `e` nor any entry of `s` has is not among the keys of the insertion. */
  lemma {:induction false} InsertAvoids(e: FileEntry, s: seq<FileEntry>, key: string)
    requires e.key != key
    requires forall k :: 0 <= k < |s| ==> s[k].key != key
    ensures forall k :: 0 <= k < |Insert(e, s)| ==> Insert(e, s)[k].key != key
  {
    if |s| > 0 && e.size > s[0].size {
      InsertAvoids(e, s[1..], key);
    }
  }

  /** Sorting keeps the keys distinct. */
  lemma {:induction false} SortedDistinct(s: seq<FileEntry>)
    requires DistinctKeys(s)
    ensures DistinctKeys(SortBySize(s))
  {
    if |s| > 0 {
      var tail := s[1..];
      assert DistinctKeys(tail);
      SortedDistinct(tail);
      SortBySizeFacts(tail);
      forall x | x in SortBySize(tail) ensures x.key != s[0].key {
        assert x in multiset(tail);
        var j :| 0 <= j < |tail| && tail[j] == x;
        assert s[j + 1] == x;
      }
      InsertDistinct(s[0], SortBySize(tail));
    }
  }

  /** What the constructor and the startup do over a listing of the folder: the state they leave. */
  function Started(names: seq<string>, files: map<string, string>): (r: CacheDir)
    requires forall n :: n in names ==> n in files
    ensures r.index.Valid()
  {
    Reindexed(CacheDir(Empty(), files), SortBySize(Listed(names, files)))
  }

  /** Every entry of a sorted listing came from the listing. */
  lemma SortedFromListing(names: seq<string>, files: map<string, string>, e: FileEntry)
    requires forall n :: n in names ==> n in files
    requires e in SortBySize(Listed(names, files))
    ensures e in Listed(names, files)
  {
    SortBySizeFacts(Listed(names, files));
    assert e in multiset(SortBySize(Listed(names, files)));
  }

  /** The entries of a sorted listing are those of the listing, with distinct keys. */
  lemma SortedListing(names: seq<string>, files: map<string, string>)
    requires Lists(names, files)
    ensures DistinctKeys(SortBySize(Listed(names, files)))
    ensures SortedBySize(SortBySize(Listed(names, files)))
    ensures forall e :: e in SortBySize(Listed(names, files)) <==>
      e.key in files && e.key != ".gitkeep" && e.size == |files[e.key]|
  {
    var listed := Listed(names, files);
    ListedDistinct(names, files);
    SortedDistinct(listed);
    SortBySizeFacts(listed);
    forall e ensures e in SortBySize(listed) <==> e in listed {
      assert e in SortBySize(listed) <==> e in multiset(SortBySize(listed));
    }
  }

  /**
   * The index the startup builds over a listing of the folder: exactly the files other than
   * `.gitkeep` that are not empty, each with its size.
   */
  lemma StartupIndex(names: seq<string>, files: map<string, string>)
    requires Lists(names, files)
    ensures var r := Started(names, files);
      && (forall k :: k in r.index.entries <==> k in files && k != ".gitkeep" && |files[k]| != 0)
      && (forall k :: k in r.index.entries ==> r.index.entries[k] == |files[k]|)
  {
    var sorted := SortBySize(Listed(names, files));
    var r := Started(names, files);
    SortedListing(names, files);
    ReindexedIndex(files, sorted);
    forall k | k in files && k != ".gitkeep" && |files[k]| != 0 ensures k in r.index.entries {
      assert FileEntry(k, |files[k]|) in sorted;
    }
  }

  /** The startup indexes in ascending order of size: the least recently used entry is the smallest. */
  lemma StartupOrder(names: seq<string>, files: map<string, string>)
    requires Lists(names, files)
    ensures var r := Started(names, files);
      forall i, j :: 0 <= i < j < |r.index.order| ==>
        r.index.entries[r.index.order[i]] <= r.index.entries[r.index.order[j]]
  {
    var sorted := SortBySize(Listed(names, files));
    var r := Started(names, files);
    SortedListing(names, files);
    ReindexedIndex(files, sorted);
    var kept := NonEmpty(sorted);
    NonEmptySorted(sorted);
    forall i | 0 <= i < |kept| ensures r.index.entries[r.index.order[i]] == kept[i].size {
      assert kept[i] in sorted;
    }
  }

  /**
   * The files the startup leaves: the empty ones other than `.gitkeep` are deleted, every
   * other file is kept unchanged, and every indexed key has its file.
   */
  lemma StartupFiles(names: seq<string>, files: map<string, string>)
    requires Lists(names, files)
    ensures var r := Started(names, files);
      && (forall k :: k in r.files <==> k in files && (k == ".gitkeep" || |files[k]| != 0))
      && (forall k :: k in r.files ==> r.files[k] == files[k])
      && IndexedOnDisk(r.index, r.files)
  {
    var sorted := SortBySize(Listed(names, files));
    var r := Started(names, files);
    SortedListing(names, files);
    ReindexedFiles(files, sorted);
    forall k | k in r.files && k != ".gitkeep" ensures |files[k]| != 0 {
      assert FileEntry(k, |files[k]|) in sorted;
    }
    StartupIndex(names, files);
  }

  /** What the folder path names on disk. */
  datatype PathKind = NoEntry | Directory | NotDirectory

  /**
   * The two checks of the constructor: the cache folder must exist and must be a
   * directory; nothing else is refused.
   */
  function CheckFolder(kind: PathKind, path: string): (r: Option<JsError>)
    ensures r.None? <==> kind == Directory
    ensures kind == NoEntry ==> r == Some(TypeError("disk cache folder does not exist: " + path))
    ensures kind == NotDirectory ==> r == Some(TypeError("disk cache folder must be a directory: " + path))
  {
    match kind
    case NoEntry => Some(TypeError("disk cache folder does not exist: " + path))
    case NotDirectory => Some(TypeError("disk cache folder must be a directory: " + path))
    case Directory => None
  }

  /** The `id` field of a message: absent, a number, `NaN`, or a value of another type. */
  datatype IdField = NoId | NumberId(n: int) | NaNId | OtherId

  /**
   * A message between a worker and the master. A missing or empty `key` or `value` is `""`,
   * the falsy value the handlers test for; `cached` is the field `exists`, `None` unless
   * it is a boolean.
   */
  datatype Message = Message(kind: string, key: string, id: IdField, value: string, cached: Option<bool>)

  /** The `type` every message of the cache carries. */
  const Channel: string := "rjc"

  /** What `askMasterGet` sends: a question about `key` under `id`. */
  function AskMessage(key: string, id: int): Message {
    Message(Channel, key, NumberId(id), "", None)
  }

  /** What `askMasterSet` sends: a write of `value` to `key`. */
  function StoreMessage(key: string, value: string): Message {
    Message(Channel, key, NoId, value, None)
  }

  /** The master's answer to the question `id` about `key`. */
  function ReplyMessage(key: string, id: int, cached: bool): Message {
    Message(Channel, key, NumberId(id), "", Some(cached))
  }

  /** What a message asks of the master. */
  datatype Request = Ignore | Read(key: string, id: int) | Write(key: string, value: string)

  /**
   * The master's handler: messages of another type are ignored, a message without a key
   * is refused, one without a value is a question that needs a numeric id, and any other
   * is a write.
   */
  function MasterDecide(msg: Message): (r: Result<Request, JsError>)
    ensures msg.kind != Channel <==> r == Ok(Ignore)
    ensures msg.kind == Channel && msg.key == "" <==> r == Err(TypeError("missing key"))
    ensures r.Ok? && r.value.Read? <==>
      msg.kind == Channel && msg.key != "" && msg.value == "" && msg.id.NumberId?
    ensures r.Ok? && r.value.Read? ==> r.value == Read(msg.key, msg.id.n)
    ensures r.Ok? && r.value.Write? <==> msg.kind == Channel && msg.key != "" && msg.value != ""
    ensures r.Ok? && r.value.Write? ==> r.value == Write(msg.key, msg.value)
  {
    if msg.kind != Channel then Ok(Ignore)
    else if msg.key == "" then Err(TypeError("missing key"))
    else if msg.value == "" then
      if msg.id.NumberId? then Ok(Read(msg.key, msg.id.n)) else Err(TypeError("missing id"))
    else Ok(Write(msg.key, msg.value))
  }

  /** The answer the master's handler hands to the question with this id. */
  datatype Resolution = Resolution(id: int, cached: bool)

  /**
   * The worker's handler: messages of another type are ignored; an answer needs a numeric
   * id and a boolean `exists`.
   */
  function WorkerDecide(msg: Message): (r: Result<Option<Resolution>, JsError>)
    ensures msg.kind != Channel <==> r == Ok(None)
    ensures r.Ok? && r.value.Some? <==> msg.kind == Channel && msg.id.NumberId? && msg.cached.Some?
    ensures r.Ok? && r.value.Some? ==> r.value.value == Resolution(msg.id.n, msg.cached.value)
    ensures msg.kind == Channel && !msg.id.NumberId? ==> r == Err(TypeError("missing id"))
    ensures msg.kind == Channel && msg.id.NumberId? && msg.cached.None? ==> r == Err(TypeError("missing exists"))
  {
    if msg.kind != Channel then Ok(None)
    else if !msg.id.NumberId? then Err(TypeError("missing id"))
    else if msg.cached.None? then Err(TypeError("missing exists"))
    else Ok(Some(Resolution(msg.id.n, msg.cached.value)))
  }

  /**
   * The protocol closes: the master reads a question from a worker as a read of that key
   * under that id (or refuses it for an empty key), reads a write with a value as a write,
   * and the worker reads the master's answer as the resolution of that id.
   */
  lemma AskAnswerRoundTrip(key: string, value: string, id: int, cached: bool)
    ensures key != "" ==> MasterDecide(AskMessage(key, id)) == Ok(Read(key, id))
    ensures key == "" ==> MasterDecide(AskMessage(key, id)) == Err(TypeError("missing key"))
    ensures key != "" && value != "" ==> MasterDecide(StoreMessage(key, value)) == Ok(Write(key, value))
    ensures key != "" && value == "" ==> MasterDecide(StoreMessage(key, value)) == Err(TypeError("missing id"))
    ensures WorkerDecide(ReplyMessage(key, id, cached)) == Ok(Some(Resolution(id, cached)))
  {
  }

  /**
   * `lruMarker.get(key)` as a truth value: the key is indexed with a size other than 0.
   * (A size is never `undefined` once set.)
   */
  predicate Cached(index: JsMap<string, int>, key: string) {
    key in index.entries && index.entries[key] != 0
  }

  /** `lruMarker.get(key)`: a present key becomes the most recently used; an absent one changes nothing. */
  function Touched(index: JsMap<string, int>, key: string): (r: JsMap<string, int>)
    requires index.Valid()
    ensures r.Valid() && r.entries == index.entries
    ensures key in index.entries ==> r.order == Remove(index.order, key) + [key]
    ensures key !in index.entries ==> r == index
  {
    if key in index.entries then Bump(index, key, index.entries[key]) else index
  }

  /** The read at the end of `get`: the file when the key is cached, `undefined` otherwise. */
  function ReadIfCached(files: map<string, string>, key: string, cached: bool): (r: Result<Option<string>, JsError>)
    ensures !cached ==> r == Ok(None)
    ensures cached && key in files ==> r == Ok(Some(files[key]))
    ensures cached && key !in files ==> r.Err?
  {
    if !cached then Ok(None)
    else if key in files then Ok(Some(files[key]))
    else Err(Error("ENOENT: no such file or directory"))
  }

  /** What `get` has reached: the contents read, or a question to the master still open. */
  datatype Fetch = Pending(id: int) | Fetched(content: Option<string>)

  class JsFileCache {
    /** The index of cached keys to sizes, in recency order; `null` in a worker. */
    var lruMarker: Option<JsMap<string, int>>
    /** The files of the cache folder, by name. */
    var files: map<string, string>
    /** The open questions to the master, by id, with the key each `get` waits on. */
    var askPromises: map<int, string>
    var askPromiseId: int
    /** The messages this process has sent, oldest first. */
    var sent: seq<Message>
    const enableWorkerMode: bool
    /** `cluster.isMaster` of the running process. */
    const isMaster: bool

    predicate IsWorker()
    {
      enableWorkerMode && !isMaster
    }

    /**
     * The index exists exactly outside workers and every indexed key has its file; the
     * open questions have ids below the counter.
     */
    ghost predicate Valid()
      reads this
    {
      && (lruMarker.Some? <==> !IsWorker())
      && (lruMarker.Some? ==> IndexedOnDisk(lruMarker.value, files))
      && (forall id :: id in askPromises ==> 0 <= id < askPromiseId)
      && askPromiseId >= 0
    }

    /** The fields before the startup: an empty index outside workers, no open question. */
    constructor(files: map<string, string>, enableWorkerMode: bool, isMaster: bool)
      ensures this.files == files && this.enableWorkerMode == enableWorkerMode && this.isMaster == isMaster
      ensures lruMarker == if IsWorker() then None else Some(Empty())
      ensures askPromises == map[] && askPromiseId == 0 && sent == []
      ensures Valid()
    {
      this.files := files;
      this.enableWorkerMode := enableWorkerMode;
      this.isMaster := isMaster;
      lruMarker := if enableWorkerMode && !isMaster then None else Some(Empty());
      askPromises := map[];
      askPromiseId := 0;
      sent := [];
    }

    /** The first loop of the startup: the listed files other than `.gitkeep`, with their sizes. */
    method ListFolder(names: seq<string>) returns (list: seq<FileEntry>)
      requires forall n :: n in names ==> n in files
      ensures list == Listed(names, files)
    {
      list := [];
      for i := 0 to |names|
        invariant list == Listed(names[..i], files)
      {
        assert names[..i + 1][..i] == names[..i];
        if names[i] != ".gitkeep" {
          list := list + [FileEntry(names[i], |files[names[i]]|)];
        }
      }
      assert names[..|names|] == names;
    }

    /** The second loop of the startup, over the sorted entries. */
    method Reindex(sorted: seq<FileEntry>)
      requires lruMarker.Some? && lruMarker.value.Valid()
      modifies this`lruMarker, this`files
      ensures lruMarker.Some? && CacheDir(lruMarker.value, files) == Reindexed(old(CacheDir(lruMarker.value, files)), sorted)
    {
      ghost var start := CacheDir(lruMarker.value, files);
      for i := 0 to |sorted|
        invariant lruMarker.Some? && lruMarker.value.Valid()
        invariant CacheDir(lruMarker.value, files) == Reindexed(start, sorted[..i])
      {
        ReindexedNext(start, sorted, i);
        var file := sorted[i];
        if file.size == 0 {
          files := files - {file.key};
        } else {
          lruMarker := Some(Bump(lruMarker.value, file.key, file.size));
        }
      }
      assert sorted[..|sorted|] == sorted;
    }

    /**
     * The re-indexing of the constructor over the listing `names` of the folder: list every
     * file but `.gitkeep` with its size, sort by size, delete the empty files and index the
     * others.
     */
    method Startup(names: seq<string>)
      requires lruMarker == Some(Empty()) && Lists(names, files)
      modifies this`lruMarker, this`files
      ensures lruMarker.Some? && CacheDir(lruMarker.value, files) == Started(names, old(files))
    {
      var list := ListFolder(names);
      var sorted := SortBySize(list);
      Reindex(sorted);
    }

    /** `askMasterGet`: a fresh id, an open question under it, and the question sent to the master. */
    method AskMasterGet(key: string) returns (r: Result<int, JsError>)
      requires Valid()
      modifies this`askPromiseId, this`askPromises, this`sent
      ensures Valid()
      ensures !IsWorker() ==> r == Err(TypeError("worker use only")) && unchanged(this)
      ensures IsWorker() ==>
        && r == Ok(old(askPromiseId)) && r.value !in old(askPromises)
        && askPromiseId == old(askPromiseId) + 1
        && askPromises == old(askPromises)[r.value := key]
        && sent == old(sent) + [AskMessage(key, r.value)]
    {
      if !IsWorker() {
        return Err(TypeError("worker use only"));
      }
      var id := askPromiseId;
      askPromiseId := askPromiseId + 1;
      sent := sent + [AskMessage(key, id)];
      askPromises := askPromises[id := key];
      return Ok(id);
    }

    /** `askMasterSet`: the write handed to the master. */
    method AskMasterSet(key: string, value: string) returns (r: Option<JsError>)
      modifies this`sent
      ensures !IsWorker() ==> r == Some(TypeError("worker use only")) && sent == old(sent)
      ensures IsWorker() ==> r == None && sent == old(sent) + [StoreMessage(key, value)]
    {
      if !IsWorker() {
        return Some(TypeError("worker use only"));
      }
      sent := sent + [StoreMessage(key, value)];
      return None;
    }

    /**
     * A worker's message handler: an answer resolves its open question, which leaves the
     * table, and hands the waiting `get` its key and the answer. An answer to no open
     * question calls `undefined`.
     */
    method WorkerReceive(msg: Message) returns (r: Result<Option<(string, bool)>, JsError>)
      requires IsWorker() && Valid()
      modifies this`askPromises
      ensures Valid()
      ensures WorkerDecide(msg).Err? ==> r == Err(WorkerDecide(msg).error) && askPromises == old(askPromises)
      ensures WorkerDecide(msg) == Ok(None) ==> r == Ok(None) && askPromises == old(askPromises)
      ensures WorkerDecide(msg).Ok? && WorkerDecide(msg).value.Some? ==>
        var id := WorkerDecide(msg).value.value.id;
        if id in old(askPromises) then
          r == Ok(Some((old(askPromises)[id], msg.cached.value))) && askPromises == old(askPromises) - {id}
        else
          r.Err? && askPromises == old(askPromises)
    {
      var d := WorkerDecide(msg);
      if d.Err? {
        return Err(d.error);
      }
      if d.value.None? {
        return Ok(None);
      }
      var res := d.value.value;
      if res.id !in askPromises {
        return Err(TypeError("this.askPromises[msg.id] is not a function"));
      }
      var key := askPromises[res.id];
      askPromises := askPromises - {res.id};
      return Ok(Some((key, res.cached)));
    }

    /**
     * `get`: a worker puts the question to the master and waits; elsewhere the index is
     * consulted (and a present key becomes the most recently used), and the file is read
     * when the key is cached. A consistent cache never fails to read.
     */
    method Get(key: string) returns (r: Result<Fetch, JsError>)
      requires Valid()
      modifies this`lruMarker, this`askPromiseId, this`askPromises, this`sent
      ensures Valid() && files == old(files)
      ensures IsWorker() ==>
        && r == Ok(Pending(old(askPromiseId)))
        && askPromises == old(askPromises)[old(askPromiseId) := key]
        && askPromiseId == old(askPromiseId) + 1
        && sent == old(sent) + [AskMessage(key, old(askPromiseId))]
      ensures !IsWorker() ==>
        && lruMarker == Some(Touched(old(lruMarker).value, key))
        && askPromises == old(askPromises) && askPromiseId == old(askPromiseId) && sent == old(sent)
        && (Cached(old(lruMarker).value, key) ==> r == Ok(Fetched(Some(files[key]))))
        && (!Cached(old(lruMarker).value, key) ==> r == Ok(Fetched(None)))
    {
      if IsWorker() {
        var asked := AskMasterGet(key);
        return Ok(Pending(asked.value));
      }
      var index := lruMarker.value;
      var cached := Cached(index, key);
      lruMarker := Some(Touched(index, key));
      var content := ReadIfCached(files, key, cached);
      return Ok(Fetched(content.value));
    }

    /** The end of a worker's `get` once the master has answered: the file if it said the key is cached. */
    method Answered(key: string, cached: bool) returns (r: Result<Option<string>, JsError>)
      ensures r == ReadIfCached(files, key, cached)
    {
      r := ReadIfCached(files, key, cached);
    }

    /**
     * `set`: a worker hands the write to the master; elsewhere the key is indexed as the
     * most recently used with the length of the value, and the file is written.
     */
    method Set(key: string, value: string)
      requires Valid()
      modifies this`lruMarker, this`files, this`sent
      ensures Valid()
      ensures IsWorker() ==>
        sent == old(sent) + [StoreMessage(key, value)] && lruMarker == old(lruMarker) && files == old(files)
      ensures !IsWorker() ==>
        && lruMarker == Some(Bump(old(lruMarker).value, key, |value|))
        && files == old(files)[key := value] && sent == old(sent)
    {
      if IsWorker() {
        var _ := AskMasterSet(key, value);
      } else {
        lruMarker := Some(Bump(lruMarker.value, key, |value|));
        files := files[key := value];
      }
    }

    /**
     * The master's message handler: a question is answered with whether the key is cached
     * (reading it makes it the most recently used), a write goes through `set`.
     */
    method MasterReceive(msg: Message) returns (r: Option<JsError>)
      requires enableWorkerMode && isMaster && Valid()
      modifies this`lruMarker, this`files, this`sent
      ensures Valid()
      ensures MasterDecide(msg).Err? ==> r == Some(MasterDecide(msg).error) && unchanged(this)
      ensures MasterDecide(msg) == Ok(Ignore) ==> r == None && unchanged(this)
      ensures MasterDecide(msg).Ok? && MasterDecide(msg).value.Read? ==>
        && r == None
        && lruMarker == Some(Touched(old(lruMarker).value, msg.key)) && files == old(files)
        && sent == old(sent) + [ReplyMessage(msg.key, msg.id.n, Cached(old(lruMarker).value, msg.key))]
      ensures MasterDecide(msg).Ok? && MasterDecide(msg).value.Write? ==>
        && r == None
        && lruMarker == Some(Bump(old(lruMarker).value, msg.key, |msg.value|))
        && files == old(files)[msg.key := msg.value] && sent == old(sent)
    {
      var d := MasterDecide(msg);
      if d.Err? {
        return Some(d.error);
      }
      r := None;
      match d.value
      case Ignore =>
      case Read(key, id) =>
        var index := lruMarker.value;
        var cached := Cached(index, key);
        lruMarker := Some(Touched(index, key));
        sent := sent + [ReplyMessage(key, id, cached)];
      case Write(key, value) =>
        Set(key, value);
    }

    /**
     * The library evicting `keys` from the index: each disposal deletes the file of its
     * key, so the index stays within the files on disk.
     */
    method Evict(keys: set<string>)
      requires Valid() && !IsWorker()
      requires forall k :: k in keys ==> k in lruMarker.value.entries
      modifies this`lruMarker, this`files
      ensures Valid()
      ensures lruMarker == Some(Restrict(old(lruMarker).value, k => k !in keys))
      ensures files == old(files) - keys
    {
      RestrictValid(lruMarker.value, k => k !in keys);
      lruMarker := Some(Restrict(lruMarker.value, k => k !in keys));
      files := files - keys;
    }
  }

  /**
   * `new RammerheadJSFileCache(...)` over a folder of kind `kind` whose files are `files`,
   * listed as `names`: the folder checks, then the startup outside workers.
   */
  method Open(kind: PathKind, path: string, files: map<string, string>, names: seq<string>,
              enableWorkerMode: bool, isMaster: bool)
    returns (r: Result<JsFileCache, JsError>)
    requires Lists(names, files)
    ensures CheckFolder(kind, path).Some? ==> r == Err(CheckFolder(kind, path).value)
    ensures CheckFolder(kind, path).None? ==>
      && r.Ok? && fresh(r.value) && r.value.Valid()
      && r.value.enableWorkerMode == enableWorkerMode && r.value.isMaster == isMaster
      && r.value.askPromises == map[] && r.value.askPromiseId == 0 && r.value.sent == []
      && (r.value.IsWorker() ==> r.value.lruMarker == None && r.value.files == files)
      && (!r.value.IsWorker() ==>
            r.value.lruMarker.Some? && CacheDir(r.value.lruMarker.value, r.value.files) == Started(names, files))
  {
    var refused := CheckFolder(kind, path);
    if refused.Some? {
      return Err(refused.value);
    }
    var c := new JsFileCache(files, enableWorkerMode, isMaster);
    if !c.IsWorker() {
      c.Startup(names);
      StartupIndex(names, files);
      StartupFiles(names, files);
    }
    return Ok(c);
  }
}
