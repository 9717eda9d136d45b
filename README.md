# Rammerhead session and cipher logic in Dafny

Rammerhead is a session-based web proxy. Every browser session has an id. The server keeps
the session's settings in a session store, and it can disguise the URLs it rewrites with a
per-session "shuffle" cipher. This project models the parts of Rammerhead that hold state
or compute something checkable, and proves what they promise.

- **The URL shuffle cipher.** `StrShuffler` is the server copy in `src/util/StrShuffler.js`.
  `ClientShuffler` covers the two browser copies, in `public/script.js` and
  `src/client/rammerhead.js`. The client copies also pass `%XX` escapes through unchanged.
  Each character of the alphabet at position `i` is replaced by the dictionary character
  `i` places further on. Positions count Unicode characters, where JavaScript counts UTF-16
  code units (see "## Left out"). A marker `_rhs` says a string is already shuffled. The headline
  lemmas are the round trips `unshuffle(shuffle(s)) == s`, for both copies, for every
  dictionary that is a permutation of the alphabet. `generateDictionary` is proved to
  produce such a permutation.
- **The four session stores.**
  - `MemoryStores`: a single in-memory `Map`.
  - `FileCacheStores`: an in-memory cache in front of one `.rhfsession` file per session.
    `RammerheadSessionFileCache` and `RammerheadSessionMemoryCacheFileStore` are this same
    code under two names.
  - `PersistentStores`: one `.rhsession` folder per session.

  Each store has `keys`, `has`, `get`, `add` and `delete`, and periodic sweeps. The sweeps
  are the stale/max-age cleanup, the unload of idle cache entries, and the flush on close.
  Each sweep is proved to remove exactly the sessions its predicate selects and to leave
  the rest alone. For the file cache, the invariant "every cached id has its file" is
  proved to be kept by `get`, `add` and `delete` on ids without a slash. Ids with a slash
  are outside that guarantee: two of them can share one file
  (`FileCacheStores.SlashedIdSharesFile`). No such claim is made for the stale-session sweep. `Sessions` holds what the stores share: the
  session timestamps, the expiry predicate, and the id-to-file-name rule with its inverse.
  `JsMaps` models JavaScript's insertion-ordered `Map`.
- **`ObjectFileStore`** (`ObjectFileStores`). The proxy traps that lay a nested object out
  as a tree of folders and files. The default handler works on a directory, which is
  modelled as a map from paths to nodes. Proved:
  - the depth guard;
  - what `set` lays out, and that it changes nothing outside its path;
  - what `get` then reads back;
  - `deleteProperty`;
  - that the directory stays a tree;
  - that entries are named on disk by `encodeURIComponent` (`UriComponents`), which is
    one-to-one and never yields a slash, so `ownKeys` lists the encoded property names and
    each decodes back to its property.
- **The disk-backed script cache** (`JsFileCaches`). The constructor checks the cache
  folder. Startup then re-indexes the folder in ascending size and deletes empty files.
  Proved:
  - the index and the files on disk stay in step;
  - the worker-to-master question/answer protocol with its table of open questions
    behaves as specified.
- **Front-page helpers** (`ClientSessions`, `ClientSync`):
  - the list of sessions kept in `localStorage`;
  - the tracking of changed `localStorage` keys;
  - the timestamp checks built on `parseInt`;
  - the extraction of the session id from the page path.
- **The server's routing and routes** (`ServerIndex`, `ServerRoutes`):
  - the sticky-routing key: path id, then query `id` / `sessionId`, then the first
    `referer` header, then `' '`;
  - the rule that only the master process sweeps stale sessions;
  - the `/newsession`, `/editsession`, `/deletesession` and `/sessionexists` routes;
  - the sweep of sessions never used.

The model works on explicit state instead of the outside world:

- **Files and folders** are maps. A directory listing is a parameter `names`, and a
  predicate `Lists` ties it to the map.
- **The clock** is a parameter `now`.
- **`Math.random`** is a sequence of picks.
- **The library's LRU evictions** are a set of keys chosen by the caller.
- **A JavaScript throw** is a `Result`, an `Option<JsError>`, or a `Run` / `Outcome` that
  carries the thrown error next to the state reached so far.

Two facts about the cipher that the code settles:

- **The alphabet.** The literal at `src/util/StrShuffler.js:15` has 64 characters, and
  `StrShuffler.BaseLiteral` spells it out.
- **`%XX` escapes.** Only the two client copies pass `%XX` escapes through
  (`public/script.js:25-28`, `src/client/rammerhead.js:227-230`). The server copy treats `%`
  like any other character outside the alphabet and copies it unchanged.

## Model

| member | source | states |
|---|---|---|
| StrShuffler.IndexOf | src/util/StrShuffler.js:36 | `indexOf` gives -1 or a position holding the character (first occurrence: `IndexOfFirst`) |
| StrShuffler.IndexOfFirst | src/util/StrShuffler.js:36-37 | -1 exactly for an absent character; otherwise no earlier occurrence |
| StrShuffler.CharAt | src/util/StrShuffler.js:35 | `charAt` is the one-character string in bounds and `""` outside |
| StrShuffler.BaseLiteral | src/util/StrShuffler.js:15 | the alphabet is the 64-character literal of the source |
| StrShuffler.BaseDistinct | src/util/StrShuffler.js:15 | the alphabet repeats no character and holds no `%` |
| StrShuffler.ModIsEuclidean | src/util/StrShuffler.js:13 | `mod(n, m)` lies in `[0, m)` for every `n`, negative included, and is the Euclidean remainder |
| StrShuffler.GenerateDictionary | src/util/StrShuffler.js:17-24 | for any in-range random picks, the splice loop yields a permutation of the alphabet |
| StrShuffler.PermutationFacts | src/util/StrShuffler.js:17-24 | a permutation of the alphabet is a valid dictionary: the same length and characters, none repeated |
| StrShuffler.ShuffleCharSpec | src/util/StrShuffler.js:34-41 | an alphabet character at index `k`, position `i`, becomes `dictionary[(k+i) mod 64]`; any other character is copied |
| StrShuffler.CharRoundTrip | src/util/StrShuffler.js:40 | unshuffling a shuffled character at the same position gives it back |
| StrShuffler.UnshuffleCharLength | src/util/StrShuffler.js:53-60 | `unshuffle` emits one character per input character |
| StrShuffler.ShuffleUpToAt | src/util/StrShuffler.js:33-43 | after `n` turns the shuffle loop has emitted `n` characters, each the shuffle of its input at that position |
| StrShuffler.UnshuffleUpToAt | src/util/StrShuffler.js:52-62 | after `n` turns the unshuffle loop has emitted `n` characters, each the unshuffle of its input at that position |
| StrShuffler.UpToRoundTrip | src/util/StrShuffler.js:33-62 | the unshuffle loop run over the shuffle loop's output gives back the input |
| StrShuffler.ShuffledSpec | src/util/StrShuffler.js:29-44 | `shuffle(s)` of an unmarked string is `_rhs` then one character per input character, each shuffled at its position |
| StrShuffler.RoundTrip | src/util/StrShuffler.js:29-63 | with a permutation dictionary, `unshuffle(shuffle(s)) == s` for every `s` not starting with `_rhs` |
| StrShuffler.ShuffleIdempotent | src/util/StrShuffler.js:30-32 | shuffling a shuffled string changes nothing, because the marker guard returns it as it is |
| StrShuffler.Shuffled | src/util/StrShuffler.js:29-44 | the value `shuffle` returns is always marked, and a marked input comes back as it is (its body: `ShuffledSpec`) |
| StrShuffler.Unshuffled | src/util/StrShuffler.js:45-63 | the value `unshuffle` returns; an unmarked input comes back as it is (its inverse property: `RoundTrip`) |
| StrShuffler.Shuffler.constructor | src/util/StrShuffler.js:26-28 | the dictionary is the one given |
| StrShuffler.Shuffler.Generated | src/util/StrShuffler.js:26-28 | the default argument yields a permutation of the alphabet |
| StrShuffler.Shuffler.Shuffle | src/util/StrShuffler.js:29-44 | the loop returns `Shuffled(dictionary, str)`, and its result is always marked |
| StrShuffler.Shuffler.Unshuffle | src/util/StrShuffler.js:45-63 | the loop returns `Unshuffled(dictionary, str)`, the identity on unmarked input |
| ClientShuffler.ShuffleFromLength | public/script.js:21-35 | the client shuffle emits exactly one character per input character, `%XX` triples included |
| ClientShuffler.ShuffleCharPercent | public/script.js:29-34 | a shuffled character is `%` exactly when the original was, since `%` is outside the alphabet |
| ClientShuffler.PercentPassthrough | public/script.js:25-28 | a `%` with at least two characters after it is copied as a triple in both directions; a shorter tail is copied as an ordinary character; at `src/client/rammerhead.js:227-230`: the embedded copy passes `%XX` triples through the same way |
| ClientShuffler.RoundTripFrom | public/script.js:21-58 | from any position, unshuffling the shuffled rest gives the rest back |
| ClientShuffler.ClientRoundTrip | public/script.js:17-59 | with a permutation dictionary, `unshuffle(shuffle(s)) == s` for every unmarked `s`, `%` included; the same code at `src/client/rammerhead.js:219-261` |
| ClientShuffler.ClientShuffledLength | public/script.js:17-36 | the client `shuffle` of an unmarked string is `_rhs` and one character per input character |
| ClientShuffler.AgreesWithServer | public/script.js:17-36 | without a `%` the client and server ciphers agree |
| ClientShuffler.AgreesWithServerFrom | public/script.js:21-35 | the agreement holds from every loop position |
| ClientShuffler.ShuffleFromStep | public/script.js:24-34 | one loop turn: a triple at a `%XX`, otherwise one shuffled character |
| ClientShuffler.UnshuffleFromStep | public/script.js:47-57 | one loop turn of `unshuffle`: a triple at a `%XX`, otherwise one unshuffled character |
| ClientShuffler.ShuffleFrom | public/script.js:21-35 | the characters the client shuffle loop appends from a position on; its contract is in `ShuffleFromLength` and `ShuffleFromStep` |
| ClientShuffler.UnshuffleFrom | public/script.js:44-58 | the characters the client unshuffle loop appends from a position on; its inverse property is `RoundTripFrom` |
| ClientShuffler.ClientShuffled | public/script.js:17-36 | the value the client `shuffle` returns is always marked, and a marked input comes back as it is |
| ClientShuffler.ClientUnshuffled | public/script.js:37-59 | the value the client `unshuffle` returns; an unmarked input comes back as it is |
| ClientShuffler.ClientShuffler.constructor | public/script.js:14-16 | the dictionary is the one given |
| ClientShuffler.ClientShuffler.Generated | public/script.js:14-16 | the default argument yields a permutation of the alphabet |
| ClientShuffler.ClientShuffler.Shuffle | public/script.js:17-36 | the loop returns `ClientShuffled`; marked input comes back as it is; the result is marked; at `src/client/rammerhead.js:219-238`: the embedded `shuffle` is the same loop |
| ClientShuffler.ClientShuffler.Unshuffle | public/script.js:37-59 | the loop returns `ClientUnshuffled`; unmarked input comes back as it is; at `src/client/rammerhead.js:239-261`: the embedded `unshuffle` is the same loop |
| ClientSessions.FirstIndex | public/script.js:251-252 | the first index whose entry has the id; none exactly when no entry has it |
| ClientSessions.EditFirst | public/script.js:249-260 | the list `editSession` stores; what it changes is stated by `EditFirstExactly` |
| ClientSessions.DefaultAsWritten | public/script.js:170-180 | `getDefault` as written, answering the head of the list; stated by `DefaultAsWrittenIgnoresId` |
| ClientSessions.EditFirstExactly | public/script.js:249-260 | the edit fails exactly when no entry has the id; otherwise only the first match gets the new settings, and ids, dates and length are kept |
| ClientSessions.DefaultAsWrittenIgnoresId | public/script.js:170-180 | as written, with a default id set, `getDefault` answers the head of the list whatever the id |
| ClientSessions.DefaultAsWrittenMisbehaves | public/script.js:174-177 | list `[a, b]` with default `b`: the as-written `getDefault` answers `a` |
| ClientSessions.DefaultEntry | public/script.js:170-180 | corrected `getDefault`: the first entry with the default id; none exactly when there is no default or no entry matches |
| ClientSessions.AddedThenDefault | public/script.js:243-247 | a session just added and made the default is what the corrected `getDefault` answers |
| ClientSessions.SessionIdsStore.constructor | public/script.js:152-153 | the store starts from the two items in `localStorage` |
| ClientSessions.SessionIdsStore.Get | public/script.js:155-165 | the stored array, or `[]` when nothing, empty text, unparsable text or a non-array is stored |
| ClientSessions.SessionIdsStore.SetList | public/script.js:166-169 | the list replaces the stored item; the default is untouched |
| ClientSessions.SessionIdsStore.SetDefault | public/script.js:181-183 | the default id is set; the list is untouched |
| ClientSessions.SessionIdsStore.GetDefault | public/script.js:170-180 | corrected: the answer is `DefaultEntry` of the stored list, the first entry with the default id; none exactly when no default is set, nothing is stored, or no entry matches |
| ClientSessions.SessionIdsStore.AddSession | public/script.js:243-248 | the new entry goes first and the old list follows in order (just the new entry when nothing usable was stored) |
| ClientSessions.SessionIdsStore.EditSession | public/script.js:249-260 | the loop stores `EditFirst` of the list; with no match it throws `TypeError('cannot find ' + id)` and stores nothing |
| ClientSync.LeadingRun | src/client/rammerhead.js:187 | the longest prefix whose characters are all accepted |
| ClientSync.LeadingRunOf | src/client/rammerhead.js:187 | a run of accepted characters followed by a rejected one is exactly the prefix matched |
| ClientSync.TrimStart | src/client/rammerhead.js:130 | `parseInt` drops leading white space: the result starts with no space |
| ClientSync.DigitValue | src/client/rammerhead.js:130 | a digit's value is below 36 |
| ClientSync.DigitChar | src/client/rammerhead.js:130 | a decimal digit character has the value it stands for |
| ClientSync.Decimal | src/client/rammerhead.js:125 | `String(n)` is non-empty and all decimal digits, with no leading zero |
| ClientSync.DecimalValue | src/client/rammerhead.js:125-130 | the digits of `String(n)` read back as `n` |
| ClientSync.ParseUnsignedDigits | src/client/rammerhead.js:130 | a run of decimal digits that is not `0x`-prefixed parses to its value |
| ClientSync.ParseUnsignedDecimal | src/client/rammerhead.js:130 | `parseInt` of `String(n)`, for `n >= 0`, is `n` |
| ClientSync.ParseIntUnsigned | src/client/rammerhead.js:130 | an unsigned numeral without leading space parses to its value |
| ClientSync.ParseIntMinus | src/client/rammerhead.js:130 | a `-` before an unsigned numeral negates it |
| ClientSync.ParseIntDecimal | src/client/rammerhead.js:130 | `parseInt(String(n)) == n` for natural `n` |
| ClientSync.ParseIntDigits | src/client/rammerhead.js:130 | a run of decimal digits parses to its value |
| ClientSync.ParseIntMinusDecimal | src/client/rammerhead.js:130 | `parseInt("-" + String(n)) == -n` |
| ClientSync.ParseIntNegativeNumber | src/client/rammerhead.js:130 | a negative number's string parses back to it |
| ClientSync.ParseIntNonNegativeNumber | src/client/rammerhead.js:130 | a non-negative number's string parses back to it |
| ClientSync.ParseIntNumber | src/client/rammerhead.js:125-137 | every integer timestamp stored as text reads back as that integer |
| ClientSync.ParseIntUndefined | src/client/rammerhead.js:129-135 | an unset timestamp reads as `undefined`, which `parseInt` rejects |
| ClientSync.ParseInt | src/client/rammerhead.js:130 | `parseInt` without a radix: skip white space, one sign, the longest digit run; its values are stated by `ParseIntNumber` and the `ParseInt…` lemmas |
| ClientSync.SessionIdOfPath | src/client/rammerhead.js:187-191 | the id is the longest alphanumeric run after the first character; there is none exactly when the second character is not alphanumeric |
| ClientSync.SessionIdOfProxyPath | src/client/rammerhead.js:187 | a path `/<id>/...` gives back the id |
| ClientSync.UpdatesExactly | src/client/rammerhead.js:174-177 | the update holds exactly the recorded keys, each with its current value |
| ClientSync.LocalStorageSync.constructor | src/client/rammerhead.js:45-53 | no key recorded, not syncing |
| ClientSync.LocalStorageSync.OnChange | src/client/rammerhead.js:63-66 | a key is recorded once, and never while syncing; the recorded keys stay distinct |
| ClientSync.LocalStorageSync.CompileUpdate | src/client/rammerhead.js:171-181 | `null` exactly when nothing is recorded; otherwise `Updates` of the recorded keys, and the record is emptied |
| ClientSync.LocalStorageSync.Overwrite | src/client/rammerhead.js:115-121 | a non-object throws `TypeError('data must be an object')`; otherwise storage becomes the data, and the change listener records nothing |
| ClientSync.LocalStorageSync.UpdateTimestamp | src/client/rammerhead.js:123-127 | a falsy value or a non-number throws the matching `TypeError`; otherwise its text is stored |
| ClientSync.LocalStorageSync.GetTimestamp | src/client/rammerhead.js:128-138 | `parseInt` of the stored text, `null` when unset or unparsable |
| ClientSync.TimestampRoundTrip | src/client/rammerhead.js:123-138 | a non-zero integer timestamp is accepted, and `getTimestamp` then returns it |
| Sessions.NewSession | src/classes/RammerheadSessionMemoryStore.js:45-46 | a new session is created and last used now, has no proxy, and counts as unused |
| Sessions.Touch | src/classes/RammerheadSessionMemoryStore.js:38-39 | `updateLastUsed` sets only the last use |
| Sessions.ExpiredExactly | src/classes/RammerheadSessionMemoryStore.js:64-67 | expired exactly when an enabled stale or max-age clause holds; a falsy threshold disables its clause; once expired, always expired |
| Sessions.Expired | src/classes/RammerheadSessionFileCache.js:138-141 | the test every sweep applies; `ExpiredExactly` states it in both directions |
| Sessions.ExpiryTest | src/classes/RammerheadSessionFileCache.js:137-141 | the sweep's test on the result of `get`: the expiry of a present session; for an absent one, a throw reading `lastUsed` under an enabled stale timeout, else one reading `createdAt` under an enabled maximum age, else no deletion; at `src/classes/RammerheadSessionFilePersistentStore.js:142-146`: the same test |
| Sessions.Thrown | src/classes/RammerheadSessionFileCache.js:137-141 | a turn's test throws exactly when it is an error, and throws that error |
| Sessions.EntryName | src/classes/RammerheadSessionFileCache.js:122-124 | a file name is the id without slashes followed by the extension |
| Sessions.StripSlashes | src/classes/RammerheadSessionFileCache.js:123 | the stripped id holds no `/` and no `\` |
| Sessions.StripSlashesIdentity | src/classes/RammerheadSessionFileCache.js:123 | stripping changes exactly the ids holding a slash or backslash |
| Sessions.IdOfEntry | src/classes/RammerheadSessionFileCache.js:50-55 | a name yields an id exactly when it ends in the extension, and id + extension is the name |
| Sessions.EntryRoundTrip | src/classes/RammerheadSessionFileCache.js:50-55 | reading back a file name gives the stripped id, so the id itself exactly when it has no slash |
| Sessions.EntryNameInjective | src/classes/RammerheadSessionFileCache.js:122-124 | ids without slashes get different files |
| Sessions.ListedIdFindsItsEntry | src/classes/RammerheadSessionFileCache.js:50-55 | a listed id without slashes leads back to its file |
| Sessions.ListedIds | src/classes/RammerheadSessionFileCache.js:50-55 | `keysStore` lists no more ids than names |
| Sessions.ListedIdsExactly | src/classes/RammerheadSessionFileCache.js:50-55 | an id is listed exactly when some name with the extension stands for it |
| Sessions.IdOfEntryInjective | src/classes/RammerheadSessionFilePersistentStore.js:59-64 | different names stand for different ids |
| Sessions.ListedIdsDistinct | src/classes/RammerheadSessionFilePersistentStore.js:59-64 | a listing without repetitions gives ids without repetitions |
| Sessions.ListedIdsOfDisk | src/classes/RammerheadSessionFileCache.js:50-55 | the ids read from a directory listing are distinct and are exactly those its entries stand for |
| JsMaps.Empty | src/classes/RammerheadSessionMemoryStore.js:23 | a new `Map` has no entries |
| JsMaps.Set | src/classes/RammerheadSessionMemoryStore.js:47 | `set` updates the entry; a new key goes last, an existing key keeps its place |
| JsMaps.SetTwice | src/classes/RammerheadSessionFilePersistentStore.js:92 | setting a key twice is setting it once to the second value |
| JsMaps.SetSame | src/classes/RammerheadSessionFileCache.js:87 | setting a key to its value changes nothing |
| JsMaps.Remove | src/classes/RammerheadSessionMemoryStore.js:51 | removing `k` keeps every other element |
| JsMaps.RemoveSplit | src/classes/RammerheadSessionMemoryStore.js:51 | removing the one occurrence of a key closes the gap |
| JsMaps.RemoveDistinct | src/classes/RammerheadSessionMemoryStore.js:51 | removal keeps the order without repetitions |
| JsMaps.Delete | src/classes/RammerheadSessionMemoryStore.js:51 | `delete` drops the entry and its place; the others keep their order |
| JsMaps.DeleteAbsent | src/classes/RammerheadSessionMemoryStore.js:51 | deleting an absent key changes nothing |
| JsMaps.Filter | src/classes/RammerheadSessionMemoryStore.js:61-70 | the kept elements are those `keep` accepts |
| JsMaps.Restrict | src/classes/RammerheadSessionMemoryStore.js:61-70 | what a deleting sweep leaves: the accepted entries unchanged, in order |
| JsMaps.FilterDistinct | src/classes/RammerheadSessionMemoryStore.js:61-70 | filtering keeps the order without repetitions |
| JsMaps.RestrictValid | src/classes/RammerheadSessionMemoryStore.js:61-70 | a sweep keeps the map well formed |
| JsMaps.SweepStep | src/classes/RammerheadSessionMemoryStore.js:61-70 | one loop turn over the snapshot of ids advances the filtered prefix by one |
| JsMaps.SweepStart | src/classes/RammerheadSessionMemoryStore.js:61 | the sweep starts with nothing looked at |
| JsMaps.SweepAdvance | src/classes/RammerheadSessionMemoryStore.js:62-69 | the current key is still present with its value, and deleting it when rejected advances the sweep |
| JsMaps.SweepDone | src/classes/RammerheadSessionMemoryStore.js:59-74 | a finished sweep leaves exactly the accepted entries |
| MemoryStores.MemoryStore.constructor | src/classes/RammerheadSessionMemoryStore.js:16-24 | the store starts empty |
| MemoryStores.MemoryStore.Keys | src/classes/RammerheadSessionMemoryStore.js:26-28 | exactly the stored ids, each once, in insertion order |
| MemoryStores.MemoryStore.Has | src/classes/RammerheadSessionMemoryStore.js:29-33 | whether the id is stored |
| MemoryStores.MemoryStore.Get | src/classes/RammerheadSessionMemoryStore.js:34-42 | `undefined` and no change for an absent id; otherwise the session, refreshed to `now` only when asked |
| MemoryStores.MemoryStore.Add | src/classes/RammerheadSessionMemoryStore.js:43-49 | a present id throws "the following session already exists: <id>" and changes nothing; otherwise a new session is stored last and returned |
| MemoryStores.MemoryStore.Delete | src/classes/RammerheadSessionMemoryStore.js:50-52 | whether the id was present; only its entry goes |
| MemoryStores.MemoryStore.CleanupRun | src/classes/RammerheadSessionMemoryStore.js:59-74 | deletes exactly the expired sessions; the survivors keep their sessions and order |
| FileCacheStores.FileOfInjective | src/classes/RammerheadSessionFileCache.js:122-124 | ids without slashes have files of their own |
| FileCacheStores.SlashedIdSharesFile | src/classes/RammerheadSessionFileCache.js:122-124 | `a/b` and `ab` share one file |
| FileCacheStores.UnlistedStep | src/classes/RammerheadSessionFileCache.js:58-60 | a cached id is appended to `keys()` exactly when the listing lacks it |
| FileCacheStores.UnlistedAppended | src/classes/RammerheadSessionFileCache.js:56-62 | `keys()` holds each listed or cached id exactly once |
| FileCacheStores.WriteBackStep | src/classes/RammerheadSessionFileCache.js:160-166 | one more id of the unload loop writes its file or not |
| FileCacheStores.WriteBackGrows | src/classes/RammerheadSessionFileCache.js:154-169 | unloading never removes a file |
| FileCacheStores.WriteBackWrites | src/classes/RammerheadSessionFileCache.js:162-165 | every evicted session gets its file, holding that session when ids are plain and distinct |
| FileCacheStores.WriteBackUntouched | src/classes/RammerheadSessionFileCache.js:154-169 | files of ids not evicted are left as they were |
| FileCacheStores.CachedAfterGet | src/classes/RammerheadSessionFileCache.js:84-88 | `get` with caching changes no other cache entry |
| FileCacheStores.Loaded | src/classes/RammerheadSessionFileCache.js:66-91 | the session `get` returns for a present id: cached, else read from its file and refreshed when asked |
| FileCacheStores.WriteBack | src/classes/RammerheadSessionFileCache.js:154-169 | the directory after the evicted sessions are written; stated by `WriteBackGrows`, `WriteBackWrites` and `WriteBackUntouched` |
| FileCacheStores.StaleStep | src/classes/RammerheadSessionFileCache.js:136-143 | one turn of the stale sweep touches only the id's cache entry and file; for an id with no session it changes nothing and throws exactly when a threshold is enabled, as `&&` short-circuits |
| FileCacheStores.StaleFold | src/classes/RammerheadSessionFileCache.js:130-149 | the stale sweep keeps the cache well formed |
| FileCacheStores.StaleFoldNext | src/classes/RammerheadSessionFileCache.js:136-147 | the sweep over one more id is one more turn, unless a turn threw |
| FileCacheStores.StaleFoldPropagates | src/classes/RammerheadSessionFileCache.js:136-147 | after a throw no later id is visited |
| FileCacheStores.StaleFoldElsewhere | src/classes/RammerheadSessionFileCache.js:130-149 | ids not visited keep their cache entry and file |
| FileCacheStores.StaleFoldClean | src/classes/RammerheadSessionFileCache.js:130-149 | over present, plain, distinct ids a coherent store never throws and stays coherent |
| FileCacheStores.StaleFoldVisits | src/classes/RammerheadSessionFileCache.js:137-142 | each visited id is deleted from both tiers when expired, else left cached with its file |
| FileCacheStores.StaleSweepExact | src/classes/RammerheadSessionFileCache.js:130-149 | `_removeStaleSessions` deletes exactly the expired sessions and caches the survivors, without throwing; at `src/classes/RammerheadSessionMemoryCacheFileStore.js:135-154`: `_cleanupRun` behaves the same |
| FileCacheStores.StaleFoldDisabled | src/classes/RammerheadSessionFileCache.js:136-146 | with both thresholds disabled the sweep never throws and deletes no file, missing sessions included |
| FileCacheStores.CloseFlushesAll | src/classes/RammerheadSessionFileCache.js:112-115 | `close` empties the cache and puts every session in its file |
| FileCacheStores.FileCacheStore.constructor | src/classes/RammerheadSessionFileCache.js:25-48 | empty cache over the existing directory, coherent |
| FileCacheStores.FileCacheStore.KeysStore | src/classes/RammerheadSessionFileCache.js:50-55 | the ids of the session files, distinct, exactly those the files stand for |
| FileCacheStores.FileCacheStore.Keys | src/classes/RammerheadSessionFileCache.js:56-62 | the listed ids, then the cached ids not listed; no repetitions; the same code at `src/classes/RammerheadSessionMemoryCacheFileStore.js:61-67` |
| FileCacheStores.FileCacheStore.Has | src/classes/RammerheadSessionFileCache.js:63-65 | cached or its file exists; the same code at `src/classes/RammerheadSessionMemoryCacheFileStore.js:68-70` |
| FileCacheStores.FileCacheStore.Get | src/classes/RammerheadSessionFileCache.js:66-91 | `undefined` when absent; the cached object untouched on a hit; otherwise the file's session, refreshed and cached only when asked; coherence kept; the same code at `src/classes/RammerheadSessionMemoryCacheFileStore.js:71-96` |
| FileCacheStores.FileCacheStore.Add | src/classes/RammerheadSessionFileCache.js:92-100 | a present id throws and changes nothing; otherwise the new session is written and cached and returned; the same code at `src/classes/RammerheadSessionMemoryCacheFileStore.js:97-105` |
| FileCacheStores.FileCacheStore.Delete | src/classes/RammerheadSessionFileCache.js:101-111 | `false` when absent; otherwise file and cache entry go and `true`; a coherent store never throws; the same code at `src/classes/RammerheadSessionMemoryCacheFileStore.js:106-116` |
| FileCacheStores.FileCacheStore.SaveCacheToDisk | src/classes/RammerheadSessionFileCache.js:154-169 | exactly the sessions idle longer than the timeout are written and leave the cache; at `src/classes/RammerheadSessionMemoryCacheFileStore.js:159-176`: `_unloadMemoryRun` is the same sweep |
| FileCacheStores.FileCacheStore.StaleTurn | src/classes/RammerheadSessionFileCache.js:137-143 | one loop turn is `StaleStep`, the throw on a missing session included |
| FileCacheStores.FileCacheStore.RemoveStaleSessions | src/classes/RammerheadSessionFileCache.js:130-149 | the loop over the listing is `StaleFold`, stopping at the first throw, which can only come from a missing session under an enabled threshold; the same code at `src/classes/RammerheadSessionMemoryCacheFileStore.js:135-154` |
| FileCacheStores.FileCacheStore.Close | src/classes/RammerheadSessionFileCache.js:112-115 | the unload sweep with timeout -1, coherence kept; the same code at `src/classes/RammerheadSessionMemoryCacheFileStore.js:117-120` |
| PersistentStores.FolderOfInjective | src/classes/RammerheadSessionFilePersistentStore.js:127-129 | ids without slashes have folders of their own |
| PersistentStores.WrapperCached | src/classes/RammerheadSessionFilePersistentStore.js:75-92 | after `get` finds the folder the id has a cached wrapper, and no other id's wrapper changes |
| PersistentStores.CleanupStep | src/classes/RammerheadSessionFilePersistentStore.js:141-148 | one cleanup turn touches only the id's wrapper and folder; for an id with no folder it changes nothing and throws exactly when a threshold is enabled |
| PersistentStores.CleanupFold | src/classes/RammerheadSessionFilePersistentStore.js:135-153 | the cleanup keeps the cache well formed |
| PersistentStores.CleanupFoldNext | src/classes/RammerheadSessionFilePersistentStore.js:141-148 | the run over one more id is one more turn, unless a turn threw |
| PersistentStores.CleanupFoldPropagates | src/classes/RammerheadSessionFilePersistentStore.js:141-148 | after a throw no later id is visited |
| PersistentStores.CleanupFoldElsewhere | src/classes/RammerheadSessionFilePersistentStore.js:135-153 | ids not visited keep their wrapper and folder |
| PersistentStores.CleanupFoldClean | src/classes/RammerheadSessionFilePersistentStore.js:135-153 | over present, plain, distinct ids the run never throws |
| PersistentStores.CleanupFoldVisits | src/classes/RammerheadSessionFilePersistentStore.js:142-147 | each visited id loses its folder and wrapper exactly when expired |
| PersistentStores.CleanupExact | src/classes/RammerheadSessionFilePersistentStore.js:135-153 | `_cleanupRun` deletes exactly the expired sessions' folders, without throwing |
| PersistentStores.CleanupFoldDisabled | src/classes/RammerheadSessionFilePersistentStore.js:141-150 | with both thresholds disabled the cleanup never throws and deletes no folder, missing sessions included |
| PersistentStores.LoadedHaveFolders | src/classes/RammerheadSessionFilePersistentStore.js:162-167 | every wrapper the unload keeps has its folder |
| PersistentStores.UnloadSweep | src/classes/RammerheadSessionFilePersistentStore.js:158-171 | drops exactly the wrappers whose folder is gone or whose session is idle too long |
| PersistentStores.PersistentStore.constructor | src/classes/RammerheadSessionFilePersistentStore.js:37-57 | no wrappers over the existing directory |
| PersistentStores.PersistentStore.Keys | src/classes/RammerheadSessionFilePersistentStore.js:59-64 | the ids of the session folders, distinct; wrappers play no part |
| PersistentStores.PersistentStore.Has | src/classes/RammerheadSessionFilePersistentStore.js:65-67 | the folder exists; a wrapper alone does not count |
| PersistentStores.PersistentStore.Get | src/classes/RammerheadSessionFilePersistentStore.js:68-96 | `undefined` without the folder even with a wrapper; the cached wrapper on a hit; otherwise a new wrapper, refreshed if asked, and cached |
| PersistentStores.PersistentStore.Add | src/classes/RammerheadSessionFilePersistentStore.js:97-105 | an existing folder throws "session <id> already exists"; otherwise the folder is made and `get(id)` returned: a new refreshed session with its wrapper cached, or, when a wrapper is still cached, that wrapper over the empty folder |
| PersistentStores.PersistentStore.Delete | src/classes/RammerheadSessionFilePersistentStore.js:106-120 | `true` and folder removed exactly when it existed; any wrapper is dropped either way |
| PersistentStores.PersistentStore.CleanupTurn | src/classes/RammerheadSessionFilePersistentStore.js:141-148 | one loop turn is `CleanupStep`, the throw on a missing session included |
| PersistentStores.PersistentStore.CleanupRun | src/classes/RammerheadSessionFilePersistentStore.js:135-153 | the loop over the listing is `CleanupFold`, stopping at the first throw |
| PersistentStores.PersistentStore.UnloadMemoryRun | src/classes/RammerheadSessionFilePersistentStore.js:158-171 | the wrappers are swept as `UnloadSweep` says and the disk is not touched |
| ObjectFileStores.FsError | src/util/ObjectFileDatabase.js:43-55 | a failing file-system call throws an `Error` carrying its code |
| ObjectFileStores.NotFound | src/util/ObjectFileDatabase.js:43-55 | a call on a missing entry throws `ENOTDIR` exactly when a file stands above it, else `ENOENT` |
| ObjectFileStores.Listing | src/util/ObjectFileDatabase.js:37-51 | `readdirSync` lists exactly the encodings of the folder's property names |
| ObjectFileStores.DeleteTree | src/util/ObjectFileDatabase.js:46-47 | `rimraf` removes the entry and everything below it, nothing else |
| ObjectFileStores.Lineage | src/util/ObjectFileDatabase.js:52-53 | the folders `mkdir -p` needs are the path and its non-root ancestors |
| ObjectFileStores.MakeFolder | src/util/ObjectFileDatabase.js:52-53 | succeeds exactly when no file is in the way; adds the lineage as folders |
| ObjectFileStores.WriteFile | src/util/ObjectFileDatabase.js:44-45 | succeeds exactly when the parent is a folder and the path is not, and stores the value; `EISDIR` on a folder, else `ENOTDIR` below a file and `ENOENT` for a missing parent |
| ObjectFileStores.Handle | src/util/ObjectFileDatabase.js:36-59 | an unknown operation throws `TypeError`; queries leave the tree as it was; `has` answers existence; `list` answers the encoded names |
| ObjectFileStores.ReadAfterWrite | src/util/ObjectFileDatabase.js:42-45 | a read after a write returns the value written |
| ObjectFileStores.HandleKeepsTree | src/util/ObjectFileDatabase.js:36-59 | every handler call keeps the directory a tree |
| ObjectFileStores.DeleteKeepsTree | src/util/ObjectFileDatabase.js:46-47 | deletion keeps the directory a tree |
| ObjectFileStores.WriteKeepsTree | src/util/ObjectFileDatabase.js:44-45 | writing keeps the directory a tree |
| ObjectFileStores.MakeFolderKeepsTree | src/util/ObjectFileDatabase.js:52-53 | `mkdir -p` keeps the directory a tree |
| ObjectFileStores.SelectHandler | src/util/ObjectFileDatabase.js:87-95 | a string selects the default handler, a function is used as is, anything else throws `TypeError` |
| ObjectFileStores.SetAtKeepsTree | src/util/ObjectFileDatabase.js:124-156 | `set`, completed or thrown part way, keeps the directory a tree |
| ObjectFileStores.SetPropsKeepsTree | src/util/ObjectFileDatabase.js:141-148 | the property loop keeps the directory a tree |
| ObjectFileStores.ChangedOnlyAtWiden | src/util/ObjectFileDatabase.js:140-146 | a change inside a child path is a change inside the parent |
| ObjectFileStores.SetAtFrame | src/util/ObjectFileDatabase.js:124-156 | `set` at a path changes nothing outside it but the folders above it |
| ObjectFileStores.SetPropsFrame | src/util/ObjectFileDatabase.js:141-148 | the property loop changes nothing outside its folder |
| ObjectFileStores.SetPropsNext | src/util/ObjectFileDatabase.js:141-148 | one more turn sets the next accepted property, unless a turn threw |
| ObjectFileStores.SetPropsPropagates | src/util/ObjectFileDatabase.js:141-148 | after a throw no later property is set |
| ObjectFileStores.ChildrenSame | src/util/ObjectFileDatabase.js:166-168 | trees that agree below a folder list the same names there |
| ObjectFileStores.MirrorsFrame | src/util/ObjectFileDatabase.js:124-156 | whether a value is laid out at a path depends only on the tree below it |
| ObjectFileStores.SetAtMirrors | src/util/ObjectFileDatabase.js:124-156 | a completed `set` lays an accepted object out as a folder of exactly its accepted properties, recursively, and any other value as a file |
| ObjectFileStores.SetPropsMirrors | src/util/ObjectFileDatabase.js:141-148 | after `n` turns the folder holds exactly the first `n` accepted properties, each laid out |
| ObjectFileStores.LaidOutNext | src/util/ObjectFileDatabase.js:142-147 | setting one more accepted property extends the layout |
| ObjectFileStores.LaidOutSkip | src/util/ObjectFileDatabase.js:142-145 | a skipped property leaves the layout as it was |
| ObjectFileStores.AcceptedKeysNext | src/util/ObjectFileDatabase.js:141-148 | the accepted keys grow by the next property when it is accepted |
| ObjectFileStores.SiblingKept | src/util/ObjectFileDatabase.js:146 | setting one property leaves a sibling's layout as it was |
| ObjectFileStores.ChildrenAdded | src/util/ObjectFileDatabase.js:146 | setting a child adds its name to the folder's listing and nothing else |
| ObjectFileStores.GetAt | src/util/ObjectFileDatabase.js:109-123 | a nested view for a folder, the converted value for a file, `undefined` when absent |
| ObjectFileStores.SetThenGet | src/util/ObjectFileDatabase.js:109-156 | after `set`, `get` gives a view whose keys are exactly the accepted properties, listed on disk under their encodings, or the converted value |
| ObjectFileStores.ListingDecodes | src/util/ObjectFileDatabase.js:37-51 | every listed name decodes back to a property of the folder whose encoding it is |
| ObjectFileStores.DeleteThenGet | src/util/ObjectFileDatabase.js:157-165 | after `deleteProperty`, the path and everything below read `undefined`; the rest reads as before |
| ObjectFileStores.ObjectFileStore.Opts | src/util/ObjectFileDatabase.js:83-84 | the options `set` consults are the store's |
| ObjectFileStores.ObjectFileStore.constructor | src/util/ObjectFileDatabase.js:75-90 | the directory and options given; the tree shape holds |
| ObjectFileStores.ObjectFileStore.Call | src/util/ObjectFileDatabase.js:36-59 | a handler call is `Handle`; a throw leaves the directory as it was |
| ObjectFileStores.ObjectFileStore.Has | src/util/ObjectFileDatabase.js:106-108 | whether the entry exists; nothing changes |
| ObjectFileStores.ObjectFileStore.Get | src/util/ObjectFileDatabase.js:109-123 | `GetAt` of the path; nothing changes |
| ObjectFileStores.ObjectFileStore.Set | src/util/ObjectFileDatabase.js:124-156 | the new directory and the throw are `SetAt`, the depth guard included |
| ObjectFileStores.ObjectFileStore.SetObject | src/util/ObjectFileDatabase.js:138-148 | delete, make the folder, then the property loop: `SetFolder` |
| ObjectFileStores.ObjectFileStore.SetScalar | src/util/ObjectFileDatabase.js:150-153 | delete an existing entry, then write the file: `SetFile` |
| ObjectFileStores.ObjectFileStore.FillFolder | src/util/ObjectFileDatabase.js:141-148 | the property loop is `SetProps` over all properties |
| ObjectFileStores.ObjectFileStore.DeleteProperty | src/util/ObjectFileDatabase.js:157-165 | deletes and answers `true` exactly when the entry exists; otherwise `false` and nothing changes |
| ObjectFileStores.ObjectFileStore.OwnKeys | src/util/ObjectFileDatabase.js:166-168 | the names `readdirSync` lists in the folder, which are the encoded property names; `ENOTDIR` for a file, and `ENOENT` or `ENOTDIR` for a missing entry |
| UriComponents.Utf8 | src/util/ObjectFileDatabase.js:77 | one to four bytes, one exactly for ASCII |
| UriComponents.Utf8Bytes | src/util/ObjectFileDatabase.js:77 | beyond ASCII, a lead byte and continuation bytes whose payloads give back the code point |
| UriComponents.Escaped | src/util/ObjectFileDatabase.js:77 | three characters per escaped byte |
| UriComponents.EscapedSafe | src/util/ObjectFileDatabase.js:77 | escapes hold only `%` and hexadecimal digits |
| UriComponents.EncodeChar | src/util/ObjectFileDatabase.js:77 | an encoded character is unreserved or `%`, never empty |
| UriComponents.Encode | src/util/ObjectFileDatabase.js:37 | `encodeURIComponent` yields only unreserved characters and `%`, so no slash, and is no shorter than its input |
| UriComponents.DecodeChar | src/util/ObjectFileDatabase.js:77 | the first character `decodeURIComponent` reads takes one to all of the remaining characters |
| UriComponents.Decode | src/util/ObjectFileDatabase.js:77 | `decodeURIComponent`, the reference inverse; its property is `RoundTrip` |
| UriComponents.MultiByteRoundTrip | src/util/ObjectFileDatabase.js:77 | the escaped UTF-8 of a character beyond ASCII reads back as that character |
| UriComponents.EncodeCharRoundTrip | src/util/ObjectFileDatabase.js:77 | the encoding of one character reads back as it, whatever follows |
| UriComponents.RoundTrip | src/util/ObjectFileDatabase.js:77 | `decodeURIComponent(encodeURIComponent(s)) == s` for every string |
| UriComponents.EncodeInjective | src/util/ObjectFileDatabase.js:37 | two property names never get the same entry name |
| UriComponents.EncodePlain | src/util/ObjectFileDatabase.js:37 | a name of unreserved characters is its own entry name |
| JsFileCaches.Bump | src/classes/RammerheadJSFileCache.js:36-43 | setting a key makes it the most recently used, with its new size |
| JsFileCaches.Listed | src/classes/RammerheadJSFileCache.js:49-54 | every listed file but `.gitkeep`, with its size |
| JsFileCaches.Insert | src/classes/RammerheadJSFileCache.js:55 | insertion adds one entry |
| JsFileCaches.InsertSorted | src/classes/RammerheadJSFileCache.js:55 | insertion keeps the list sorted |
| JsFileCaches.InsertAdds | src/classes/RammerheadJSFileCache.js:55 | insertion adds exactly that entry |
| JsFileCaches.SortBySize | src/classes/RammerheadJSFileCache.js:55 | the sort keeps the length |
| JsFileCaches.SortBySizeFacts | src/classes/RammerheadJSFileCache.js:55 | the sort gives ascending size and a permutation |
| JsFileCaches.SortBySizeSorted | src/classes/RammerheadJSFileCache.js:55 | the sort gives entries in ascending size |
| JsFileCaches.SortBySizePermutes | src/classes/RammerheadJSFileCache.js:55 | the sort keeps every entry as often as it occurs |
| JsFileCaches.Reindexed | src/classes/RammerheadJSFileCache.js:57-66 | the re-index loop keeps the index well formed |
| JsFileCaches.ReindexedNext | src/classes/RammerheadJSFileCache.js:57-66 | one more entry: delete it if empty, index it otherwise |
| JsFileCaches.NonEmpty | src/classes/RammerheadJSFileCache.js:57-66 | the non-empty entries |
| JsFileCaches.NonEmptySorted | src/classes/RammerheadJSFileCache.js:57-66 | dropping the empty entries keeps them sorted |
| JsFileCaches.NonEmptyNext | src/classes/RammerheadJSFileCache.js:57-66 | a non-empty entry extends the non-empty list |
| JsFileCaches.LastKeyNew | src/classes/RammerheadJSFileCache.js:57-66 | with distinct keys, the last key is new |
| JsFileCaches.ReindexedIndex | src/classes/RammerheadJSFileCache.js:57-66 | the index is exactly the non-empty entries, with their sizes, in the order processed |
| JsFileCaches.ReindexedOrder | src/classes/RammerheadJSFileCache.js:57-66 | the index order is the keys of the non-empty entries, in the order processed |
| JsFileCaches.ReindexedSizes | src/classes/RammerheadJSFileCache.js:57-66 | every non-empty entry is indexed with its size |
| JsFileCaches.ReindexedFrom | src/classes/RammerheadJSFileCache.js:57-66 | every indexed key is the key of a non-empty entry |
| JsFileCaches.ReindexedFiles | src/classes/RammerheadJSFileCache.js:58-61 | exactly the empty files met are deleted |
| JsFileCaches.ListedDistinct | src/classes/RammerheadJSFileCache.js:49-54 | the listing gives distinct keys |
| JsFileCaches.InsertDistinct | src/classes/RammerheadJSFileCache.js:55 | insertion of a new key keeps keys distinct |
| JsFileCaches.SortedDistinct | src/classes/RammerheadJSFileCache.js:55 | sorting keeps keys distinct |
| JsFileCaches.Started | src/classes/RammerheadJSFileCache.js:46-67 | the startup leaves a well-formed index |
| JsFileCaches.SortedFromListing | src/classes/RammerheadJSFileCache.js:49-55 | every sorted entry came from the listing |
| JsFileCaches.SortedListing | src/classes/RammerheadJSFileCache.js:49-55 | the sorted listing is sorted, distinct, and has the listing's entries |
| JsFileCaches.StartupIndex | src/classes/RammerheadJSFileCache.js:46-67 | the index holds exactly the non-empty files other than `.gitkeep`, each with its size |
| JsFileCaches.StartupOrder | src/classes/RammerheadJSFileCache.js:55-66 | the index is in ascending size, so the least recently used is the smallest |
| JsFileCaches.StartupFiles | src/classes/RammerheadJSFileCache.js:57-66 | the empty files are deleted, the others kept, and every indexed key has its file |
| JsFileCaches.CheckFolder | src/classes/RammerheadJSFileCache.js:27-32 | a missing path or a non-directory throws its `TypeError`; a directory passes |
| JsFileCaches.ReplyMessage | src/classes/RammerheadJSFileCache.js:80 | the master's answer carries the key, the id and whether the key is cached |
| JsFileCaches.MasterDecide | src/classes/RammerheadJSFileCache.js:73-86 | other channels are ignored; a missing key throws; a message without a value is a read (a missing or NaN id throws); one with a value is a write |
| JsFileCaches.WorkerDecide | src/classes/RammerheadJSFileCache.js:87-96 | other channels are ignored; a missing id or `exists` throws; otherwise it resolves that id |
| JsFileCaches.AskAnswerRoundTrip | src/classes/RammerheadJSFileCache.js:74-122 | a question is read as a read of its key and id, a write as a write, and the answer resolves the question's id |
| JsFileCaches.Touched | src/classes/RammerheadJSFileCache.js:125 | `lruMarker.get` makes a cached key the most recently used and changes nothing else |
| JsFileCaches.ReadIfCached | src/classes/RammerheadJSFileCache.js:125-128 | the file when cached, `undefined` otherwise |
| JsFileCaches.JsFileCache.constructor | src/classes/RammerheadJSFileCache.js:24-46 | an index outside workers only; no open questions |
| JsFileCaches.JsFileCache.ListFolder | src/classes/RammerheadJSFileCache.js:49-54 | the first startup loop yields `Listed` |
| JsFileCaches.JsFileCache.Reindex | src/classes/RammerheadJSFileCache.js:57-66 | the second startup loop yields `Reindexed` |
| JsFileCaches.JsFileCache.Startup | src/classes/RammerheadJSFileCache.js:46-67 | the startup yields `Started` of the listing |
| JsFileCaches.JsFileCache.AskMasterGet | src/classes/RammerheadJSFileCache.js:102-116 | outside a worker it throws and changes nothing; otherwise a fresh id, a new open question under it, and the question sent |
| JsFileCaches.JsFileCache.AskMasterSet | src/classes/RammerheadJSFileCache.js:117-123 | outside a worker it throws; otherwise the write is sent |
| JsFileCaches.JsFileCache.WorkerReceive | src/classes/RammerheadJSFileCache.js:87-96 | an answer resolves and removes its own open question; anything else leaves the table |
| JsFileCaches.JsFileCache.Get | src/classes/RammerheadJSFileCache.js:124-129 | a worker asks the master; otherwise the file when indexed and `undefined` when not, touching the key |
| JsFileCaches.JsFileCache.Answered | src/classes/RammerheadJSFileCache.js:125-128 | the worker reads the file only when the master said the key is cached |
| JsFileCaches.JsFileCache.Set | src/classes/RammerheadJSFileCache.js:130-137 | a worker sends the write; otherwise the key is indexed with its length and the file written |
| JsFileCaches.JsFileCache.MasterReceive | src/classes/RammerheadJSFileCache.js:73-86 | a read is answered with whether the key is cached; a write is `set`; an error changes nothing |
| JsFileCaches.JsFileCache.Evict | src/classes/RammerheadJSFileCache.js:40-42 | each key the library drops loses its index entry and its file; the index stays within the files |
| JsFileCaches.Open | src/classes/RammerheadJSFileCache.js:27-67 | a bad folder throws; otherwise a worker has no index and any other process has the startup index |
| ServerIndex.Param | src/server/index.js:73-76 | the value of the first pair with that name; `""` without such a pair |
| ServerIndex.RoutingKey | src/server/index.js:71-93 | the sticky-routing key; the order of its sources is stated by `RoutingKeyOrder` |
| ServerIndex.LowerAscii | src/server/index.js:80 | `toLowerCase` on A to Z, one character per character |
| ServerIndex.FirstReferer | src/server/index.js:79-84 | the scan stops on a header name |
| ServerIndex.FirstRefererExactly | src/server/index.js:79-84 | the scan finds the first name that is `referer` in any case, and none only when there is none |
| ServerIndex.RoutingKeyOrder | src/server/index.js:71-93 | path id, then `id`, then `sessionId`, then the first referer's id, then `' '`; never empty |
| ServerIndex.CharCodes | src/server/index.js:92 | one code per character, in order |
| ServerIndex.CharCodesInjective | src/server/index.js:92 | the codes determine the key |
| ServerIndex.GeneratePrehashArray | src/server/index.js:71-93 | the loop returns the codes of the routing key |
| ServerIndex.ScheduledCleanup | src/classes/RammerheadSessionFileCache.js:29-42 | left out: the default; `null`: none; an object: itself |
| ServerIndex.OnlyMasterSweeps | src/server/index.js:40-44 | only the master schedules the stale sweep, as configured |
| ServerRoutes.NormalizeProxy | src/server.js:80-82 | stripping never lengthens the setting |
| ServerRoutes.NormalizeProxyStripsOnce | src/server.js:80-82 | exactly one leading `http://` is removed, nothing else |
| ServerRoutes.Edited | src/server.js:79-84 | a non-empty setting becomes the proxy; an empty one leaves the session alone |
| ServerRoutes.NewSessionRoute | src/server.js:61-67 | refused without the password; a new id is added and answered |
| ServerRoutes.EditSessionRoute | src/server.js:68-87 | a missing or unknown id answers 'not found' and changes nothing; otherwise the session is loaded and its proxy edited |
| ServerRoutes.SessionExistsRoute | src/server.js:100-107 | no id is a bad request; otherwise 'exists' or 'not found' |
| ServerRoutes.DeleteFrom | src/classes/RammerheadSessionFileCache.js:101-111 | the store's `delete` keeps the cache well formed |
| ServerRoutes.DeleteRouteAsWritten | src/server.js:88-99 | `/deletesession` as written; stated by `DeleteRouteAsWrittenMisbehaves` |
| ServerRoutes.DeleteRoute | src/server/setupRoutes.js:52-64 | `/deletesession` with the `return` after 'not found'; stated by `DeleteRouteAnswersOnce` |
| ServerRoutes.DeleteRouteAsWrittenMisbehaves | src/server.js:93-98 | as written: an unknown id makes `res.end` be called twice (`not found`, then `Success` after the end), a missing id throws, and an empty id deletes the file `.rhfsession` |
| ServerRoutes.DeleteRouteAnswersOnce | src/server.js:88-99 | corrected: one answer, no throw on a coherent store, and only a present id is deleted |
| ServerRoutes.DeleteSessionRoute | src/server.js:88-99 | refused without the password; otherwise the corrected `DeleteRoute` |
| ServerRoutes.NewSessionAbandoned | src/server.js:123 | a new session nobody uses is swept exactly once the timeout has passed |
| ServerRoutes.UnusedStep | src/server.js:122-127 | one sweep turn touches only the id's cache entry and file |
| ServerRoutes.UnusedFold | src/server.js:121-128 | the sweep keeps the cache well formed |
| ServerRoutes.UnusedFoldNext | src/server.js:121-128 | one more id is one more turn, unless a turn threw |
| ServerRoutes.UnusedFoldPropagates | src/server.js:121-128 | after a throw no later id is visited |
| ServerRoutes.UnusedFoldElsewhere | src/server.js:121-128 | ids not visited keep their entry and file |
| ServerRoutes.UnusedFoldClean | src/server.js:121-128 | over present, plain, distinct ids the sweep never throws |
| ServerRoutes.UnusedFoldVisits | src/server.js:122-127 | each visited id is deleted from both tiers exactly when never used and older than the timeout |
| ServerRoutes.StoreKeys | src/server.js:116-121 | the sweep walks `keys()` of the store |
| ServerRoutes.UnusedSweepExact | src/server.js:113-132 | the sweep deletes exactly the sessions never used and older than the timeout, without throwing |
| ServerRoutes.UnusedTurn | src/server.js:122-127 | one loop turn is `UnusedStep` |
| ServerRoutes.UnusedSweep | src/server.js:113-132 | runs only when timeout and interval are both truthy, and is then `UnusedFold` over `keys()` |
| ServerRoutes.UnusedRun | src/server.js:121-128 | the loop over the ids is `UnusedFold` over them: it stops at the first turn that throws |

## Left out

- **Timers.** `setInterval`, `unref` and `exitHook` scheduling are not modelled. Each sweep
  is a method that the caller runs with `now`.
- **Session serialization.** The session class itself is not part of this model. The model
  does not include its serialization, its proxy setter or `updateLastUsed` beyond the
  timestamps. A serialized session reads back unchanged.
- PersistentStores.PersistentStore.Add: the model takes a new empty session folder, read
  back through a new wrapper of `get` and its `updateLastUsed`, to be a session created and
  last used at `now`. The session class is not part of this model, so this step is assumed.
  When a wrapper is still cached for the id, the folder stays empty, and what a wrapper
  reads from an empty folder is the parameter `emptyFolder`, for the same reason.
- **Persistent-store wrappers.** The persistent store's wrapper objects are views of their
  folder (`PersistentStores.Wrapper` holds nothing). Writes go through to the folder.
- **JSON and dates.** JSON text and `json-date-parser` are not modelled. A stored value is
  the value itself.
- **`ObjectFileStore` options.**
  - `convertObjectToFile` keeps its default, the identity.
  - A custom handler function is only selected, not run.
  - `path.join`'s handling of `.` and `..` is not modelled, and neither is its dropping of
    the empty name; both are unreserved names that `encodeURIComponent` keeps.
  - Entries created in the directory by anything other than the store are not modelled:
    every entry's name is taken to be the encoding of a property name.
  - Neither are the `target[prop]` writes of the traps, since nothing reads them.
- **LRU policy.** The `lru-cache` eviction policy, its capacity, and its `dispose` on
  overwrite are library code. The model instead lets the caller name the evicted keys
  (`JsFileCaches.JsFileCache.Evict`). The weight function `sizeCalculation` is part of
  that policy and is not modelled either.
- ObjectFileStores.ObjectFileStore.OwnKeys: `encodeURIComponent` throws `URIError` for a
  name holding a lone surrogate; Dafny characters are Unicode scalar values, so such a name
  cannot occur in the model and that throw is not modelled. ObjectFileStores.SetThenGet
  leaves it out for the same reason.
- ObjectFileStores.FsError: only Node's error code is modelled, not its message, which also
  names the system call and the full path; the handler's directory is not a string here.
- FileCacheStores.MissingFile: the message names the session file relative to the save
  directory, where Node names the full path; the save directory is not part of the model.
- StrShuffler.Shuffled: the position added to an alphabet index counts Unicode characters; the source's `i` counts UTF-16 code units, so the two differ after a character beyond U+FFFF (`"😀a"` shifts `a` by 1 here, by 2 in JavaScript). Dafny strings hold Unicode scalar values, so code units are not modelled. The round trips hold either way, since both directions use the same positions.
- StrShuffler.Unshuffled: positions count Unicode characters, not UTF-16 code units, as for `StrShuffler.Shuffled`.
- StrShuffler.ShuffledSpec: the position `k` of each character counts Unicode characters, not UTF-16 code units, as for `StrShuffler.Shuffled`.
- StrShuffler.Shuffler.Shuffle: proved equal to `StrShuffler.Shuffled`, so its positions count Unicode characters, not UTF-16 code units.
- StrShuffler.Shuffler.Unshuffle: proved equal to `StrShuffler.Unshuffled`, so its positions count Unicode characters, not UTF-16 code units.
- ClientShuffler.ShuffleFrom: the position `i` and the `str.length - i >= 3` test for a `%XX` triple count Unicode characters, not UTF-16 code units, as for `StrShuffler.Shuffled`.
- ClientShuffler.UnshuffleFrom: the position `i` and the triple test count Unicode characters, not UTF-16 code units, as for `StrShuffler.Shuffled`.
- ClientShuffler.ClientShuffled: built on `ShuffleFrom`, so its positions count Unicode characters, not UTF-16 code units.
- ClientShuffler.ClientUnshuffled: built on `UnshuffleFrom`, so its positions count Unicode characters, not UTF-16 code units.
- ClientShuffler.ClientShuffler.Shuffle: proved equal to `ClientShuffled`, so its positions count Unicode characters, not UTF-16 code units; the same holds for the copy in `src/client/rammerhead.js`.
- ClientShuffler.ClientShuffler.Unshuffle: proved equal to `ClientUnshuffled`, so its positions count Unicode characters, not UTF-16 code units; the same holds for the copy in `src/client/rammerhead.js`.
- **File sizes.** A file's size is the length of its text, in characters, not in bytes.
- **Cluster transport.** Cluster IPC transport, promise resolution order and the sticky
  hash of the prehash array are not modelled. The sent messages are a sequence, and
  answers are delivered by the caller.
- **`getSessionId`.** `getSessionId` of `src/server/index.js` is a parameter, and a request
  URL arrives already split.
- **Character handling.** `toLowerCase` is modelled on A to Z only. Character codes are
  Dafny characters, not UTF-16 code units.
- **Unmodelled server code.**
  - The `/mainport` route, the rate limiter and the deleted-count log line are not modelled.
  - The routes and the unused-session sweep are modelled over the file cache store only.
    The worker configuration (`src/config2.js:17-25`) puts the persistent store behind
    them, and that combination is not modelled.
  - The request pipeline that strips headers, and `rewriteServerHeaders`
    (`src/server.js:42-50`), are not modelled.
- **Front page.** The DOM and the table rendering are not modelled, and neither is the
  delete button's splice of the list.
- **Syncing.** `syncLocalStorage`'s requests and the interval that uploads changes are I/O.
  `ClientSync.LocalStorageSync.Overwrite` takes the server's data as a parameter.
- **`parseInt`.**
  - The white space it skips is the list in `ClientSync.IsSpace`; other Unicode space
    separators are not modelled.
  - Numbers are integers. The exponent form of values of 1e21 and above, and fractions,
    are not modelled.
  - A stored `localStorage` timestamp is text.
- **`sessionIdsStore.set`.** Its non-array check cannot fail for a Dafny sequence. A parsed
  array is taken to hold entries.
- **StrShuffler.GenerateDictionary.** `Math.random` becomes a sequence of picks, each
  within the remaining length.
- **Rate limiting and other code.** The rate limiter, the memory script cache, the vendor
  build script, the library patches and the configuration files are not part of this
  model.

## Findings

| source | as written | input that shows it | evidently intended | confidence | as-written member | corrected member |
|---|---|---|---|---|---|---|
| public/script.js:174-177 | `getDefault` calls `data.filter(...)` and drops the result, then answers `data[0]` | stored list `[a, b]` with default id `b` answers `a` | answer the first entry whose id is the default id | high, not executed | ClientSessions.DefaultAsWrittenMisbehaves | ClientSessions.DefaultEntry |
| src/server.js:93-98 | `/deletesession` calls `res.end('not found')` but does not `return`, so it goes on to `delete(id)` and calls `res.end('Success')` after the end | an unknown id `x` makes `res.end` be called twice, the second a write after end; a missing id throws inside `delete` | return after 'not found', as `src/server/setupRoutes.js` does | high, not executed | ServerRoutes.DeleteRouteAsWrittenMisbehaves | ServerRoutes.DeleteRouteAnswersOnce |
