/**
 * ObjectFileStore: a nested JavaScript object kept as a tree of folders and files. A plain
 * object becomes a folder holding one entry per property; any other value becomes a file
 * holding `{data: value}`. The proxy traps `has`, `get`, `set`, `deleteProperty` and
 * `ownKeys` call a handler with an operation and a path; the default handler carries the
 * operations out on a directory, which is modelled as a map from path to node. The path `[]`
 * is the directory the handler was given; it always exists and is not in the map.
 *
 * The handler names each entry on disk by `encodeURIComponent` of its property name
 * (`UriComponents.Encode`). That naming is one-to-one (`UriComponents.EncodeInjective`) and
 * never yields a slash, so the map is keyed by the property names themselves and the
 * encoding shows where names leave the handler: in the listing of a folder.
 */
module ObjectFileStores {
  import opened Wrappers
  import UriComponents

  /** The property names from the root to an entry. */
  type Path = seq<string>

  /** The values a property can hold, as far as the store tells them apart. */
  datatype Value =
    | Undefined
    | Null
    | Primitive(json: string)
    | Array(items: seq<Value>)
    | Date(time: int)
    | Function
    | Object(props: seq<Prop>)

  /** An own enumerable property, in `for...in` order. */
  datatype Prop = Prop(key: string, value: Value)

  datatype Node = Folder | File(data: Value)

  /** The directory tree below the handler's directory. */
  type Tree = map<Path, Node>

  /** `p` is `q` or one of its ancestors. */
  predicate IsPrefix(p: Path, q: Path) {
    |p| <= |q| && q[..|p|] == p
  }

  /** The entry `q` sits in a folder: the root, or a folder entry one level up. */
  ghost predicate InFolder(fs: Tree, q: Path) {
    q != [] && (|q| == 1 || (q[..|q| - 1] in fs && fs[q[..|q| - 1]] == Folder))
  }

  /** Every entry sits in a folder. */
  ghost predicate TreeShaped(fs: Tree) {
    forall q {:trigger InFolder(fs, q)} :: q in fs ==> InFolder(fs, q)
  }

  predicate IsFolderAt(fs: Tree, p: Path) {
    p == [] || (p in fs && fs[p] == Folder)
  }

  /** `fs.existsSync(fullPath)`. */
  predicate Exists(fs: Tree, p: Path) {
    p == [] || p in fs
  }

  /** The names `fs.readdirSync` lists in the folder `p`. */
  function Children(fs: Tree, p: Path): set<string> {
    set q | q in fs && |q| == |p| + 1 && q[..|p|] == p :: q[|p|]
  }

  /** The error a file-system call throws, by its code. */
  function FsError(code: string): JsError {
    Error(code)
  }

  /** A proper ancestor of `p` is a file, so resolving `p` stops there. */
  predicate FileAbove(fs: Tree, p: Path) {
    exists k :: 1 <= k < |p| && p[..k] in fs && fs[p[..k]].File?
  }

  /**
   * The error of a call on the missing entry `p`: `ENOTDIR` when a file stands where a folder
   * on the way should be, `ENOENT` otherwise. In a tree a file above `p` is the first
   * non-folder on the way, since nothing sits below a file.
   */
  function NotFound(fs: Tree, p: Path): (r: JsError)
    ensures r == FsError("ENOTDIR") || r == FsError("ENOENT")
    ensures r == FsError("ENOTDIR") <==> FileAbove(fs, p)
  {
    if FileAbove(fs, p) then FsError("ENOTDIR") else FsError("ENOENT")
  }

  /** The names `fs.readdirSync` lists for the folder `p`: the encodings of its property names. */
  function Listing(fs: Tree, p: Path): (r: set<string>)
    ensures forall n :: n in Children(fs, p) ==> UriComponents.Encode(n) in r
    ensures forall x :: x in r ==> exists n :: n in Children(fs, p) && UriComponents.Encode(n) == x
  {
    set n | n in Children(fs, p) :: UriComponents.Encode(n)
  }

  /** `rimraf.sync(fullPath)`: the entry and everything below it disappear; a missing entry is no error. */
  function DeleteTree(fs: Tree, p: Path): (r: Tree)
    ensures forall q :: q in r <==> q in fs && !IsPrefix(p, q)
    ensures forall q :: q in r ==> r[q] == fs[q]
  {
    map q | q in fs && !IsPrefix(p, q) :: fs[q]
  }

  /** The non-root folders `mkdir -p` needs for `p`: `p` and its ancestors. */
  function Lineage(p: Path): set<Path> {
    set k | 1 <= k <= |p| :: p[..k]
  }

  /**
   * `fs.mkdirSync(fullPath, {recursive: true})`: creates `p` and every missing ancestor;
   * an existing folder is no error, a file in the way is.
   */
  function MakeFolder(fs: Tree, p: Path): (r: Result<Tree, JsError>)
    ensures r.Ok? <==> forall q :: q in Lineage(p) && q in fs ==> fs[q] == Folder
    ensures r.Ok? ==> forall q :: q in r.value <==> q in fs || q in Lineage(p)
    ensures r.Ok? ==> forall q :: q in r.value ==> r.value[q] == if q in Lineage(p) then Folder else fs[q]
  {
    if |p| >= 1 && p in fs && fs[p].File? then
      assert p[..|p|] == p && p[..|p|] in Lineage(p);
      Err(FsError("EEXIST"))
    else if exists q :: q in Lineage(p) && q in fs && fs[q].File? then Err(FsError("ENOTDIR"))
    else Ok(fs + map q | q in Lineage(p) :: Folder)
  }

  /** `fs.writeFileSync(fullPath, JSON.stringify({data: value}))`: needs a folder above and no folder at `p`. */
  function WriteFile(fs: Tree, p: Path, value: Value): (r: Result<Tree, JsError>)
    ensures r.Ok? <==> !IsFolderAt(fs, p) && |p| >= 1 && IsFolderAt(fs, p[..|p| - 1])
    ensures r.Ok? ==> r.value == fs[p := File(value)]
    ensures IsFolderAt(fs, p) ==> r == Err(FsError("EISDIR"))
    ensures !IsFolderAt(fs, p) && |p| >= 1 && !IsFolderAt(fs, p[..|p| - 1]) ==> r == Err(NotFound(fs, p))
  {
    if IsFolderAt(fs, p) then Err(FsError("EISDIR"))
    else if !IsFolderAt(fs, p[..|p| - 1]) then Err(NotFound(fs, p))
    else Ok(fs[p := File(value)])
  }

  /** The operations a handler is called with; any other name is `UnknownOp`. */
  datatype Operation =
    | ReadOp
    | WriteOp
    | DeleteOp
    | HasOp
    | ListOp
    | CreateFolderOp
    | IsFolderOp
    | UnknownOp(name: string)

  /** What a handler call returns. */
  datatype Reply = Data(value: Value) | Flag(b: bool) | Names(names: set<string>) | Done

  /**
   * `DefaultHandler(filePath)`: the dispatch on the operation. A read returns the `data`
   * of the file, a write stores it, and an unknown operation throws a `TypeError`.
   */
  function Handle(fs: Tree, op: Operation, p: Path, value: Value): (r: Result<(Reply, Tree), JsError>)
    ensures op.UnknownOp? ==> r.Err? && r.error.TypeError?
    ensures r.Ok? && !(op.WriteOp? || op.DeleteOp? || op.CreateFolderOp?) ==> r.value.1 == fs
    ensures r.Ok? && op.HasOp? ==> r.value.0 == Flag(Exists(fs, p))
  {
    match op
    case ReadOp =>
      if p in fs && fs[p].File? then Ok((Data(fs[p].data), fs))
      else if IsFolderAt(fs, p) then Err(FsError("EISDIR"))
      else Err(NotFound(fs, p))
    case WriteOp =>
      (match WriteFile(fs, p, value)
       case Ok(w) => Ok((Done, w))
       case Err(e) => Err(e))
    case DeleteOp => Ok((Done, DeleteTree(fs, p)))
    case HasOp => Ok((Flag(Exists(fs, p)), fs))
    case ListOp =>
      if IsFolderAt(fs, p) then Ok((Names(Listing(fs, p)), fs))
      else if p in fs then Err(FsError("ENOTDIR"))
      else Err(NotFound(fs, p))
    case CreateFolderOp =>
      (match MakeFolder(fs, p)
       case Ok(m) => Ok((Done, m))
       case Err(e) => Err(e))
    case IsFolderOp =>
      if Exists(fs, p) then Ok((Flag(IsFolderAt(fs, p)), fs)) else Err(NotFound(fs, p))
    case UnknownOp(name) => Err(TypeError("unknown operation: " + name))
  }

  /** A write followed by a read of the same path gives back the value written. */
  lemma ReadAfterWrite(fs: Tree, p: Path, value: Value, any: Value)
    requires Handle(fs, WriteOp, p, value).Ok?
    ensures var w := Handle(fs, WriteOp, p, value).value.1;
      Handle(w, ReadOp, p, any) == Ok((Data(value), w))
  {
  }

  /** The handler keeps the directory a tree: every entry it leaves sits in a folder. */
  lemma HandleKeepsTree(fs: Tree, op: Operation, p: Path, value: Value)
    requires TreeShaped(fs)
    requires Handle(fs, op, p, value).Ok?
    ensures TreeShaped(Handle(fs, op, p, value).value.1)
  {
    match op {
      case DeleteOp => DeleteKeepsTree(fs, p);
      case CreateFolderOp => MakeFolderKeepsTree(fs, p);
      case WriteOp => WriteKeepsTree(fs, p, value);
      case _ =>
    }
  }

  lemma DeleteKeepsTree(fs: Tree, p: Path)
    requires TreeShaped(fs)
    ensures TreeShaped(DeleteTree(fs, p))
  {
    var r := DeleteTree(fs, p);
    forall q | q in r ensures InFolder(r, q) {
      assert InFolder(fs, q);
    }
  }

  lemma WriteKeepsTree(fs: Tree, p: Path, value: Value)
    requires TreeShaped(fs) && WriteFile(fs, p, value).Ok?
    ensures TreeShaped(WriteFile(fs, p, value).value)
  {
    var w := WriteFile(fs, p, value).value;
    forall q | q in w ensures InFolder(w, q) {
      if q != p {
        assert InFolder(fs, q);
      }
    }
  }

  lemma MakeFolderKeepsTree(fs: Tree, p: Path)
    requires TreeShaped(fs) && MakeFolder(fs, p).Ok?
    ensures TreeShaped(MakeFolder(fs, p).value)
  {
    var m := MakeFolder(fs, p).value;
    forall q | q in m ensures InFolder(m, q) {
      if q in Lineage(p) {
        var k :| 1 <= k <= |p| && q == p[..k];
        if k > 1 {
          assert q[..|q| - 1] == p[..k - 1];
          assert p[..k - 1] in Lineage(p);
        }
      } else {
        assert q in fs && InFolder(fs, q);
      }
    }
  }

  /** How the `handler` option was given. */
  datatype HandlerOption = HandlerPath(dir: string) | HandlerFunction | OtherHandler(typeName: string)

  datatype Handler = DefaultHandler(dir: string) | CustomHandler

  /**
   * The constructor's choice of handler: a string is the directory of the default handler, a
   * function is used as it is, and anything else throws a `TypeError`.
   */
  function SelectHandler(h: HandlerOption): (r: Result<Handler, JsError>)
    ensures r.Err? <==> h.OtherHandler?
    ensures r.Err? ==> r.error.TypeError?
    ensures h.HandlerPath? ==> r == Ok(DefaultHandler(h.dir))
    ensures h.HandlerFunction? ==> r == Ok(CustomHandler)
  {
    match h
    case HandlerPath(dir) => Ok(DefaultHandler(dir))
    case HandlerFunction => Ok(CustomHandler)
    case OtherHandler(t) =>
      Err(TypeError("handler must be either a string (filepath) or a function handler. received type " + t))
  }

  /** The options the `set` trap consults. */
  datatype Options = Options(maxFolderDepth: int, shouldRecursive: (Path, Value) -> bool)

  const DepthExceeded: JsError := TypeError("max folder depth exceeded")

  /** The depth guard of `set`: `maxFolderDepth !== -1 && fullPath.length > maxFolderDepth`. */
  predicate TooDeep(o: Options, p: Path) {
    o.maxFolderDepth != -1 && |p| > o.maxFolderDepth
  }

  /** `set` stores `value` at `p` as a folder: a plain object that `shouldRecursive` accepts. */
  predicate Recurses(o: Options, p: Path, value: Value) {
    value.Object? && o.shouldRecursive(p, value)
  }

  /** A property the loop of `set` copies into the folder `p`: not a function, and accepted. */
  predicate Accepted(o: Options, p: Path, prop: Prop) {
    !prop.value.Function? && o.shouldRecursive(p, prop.value)
  }

  /** The tree after a trap, and the error it threw, if any. */
  datatype Outcome = Outcome(fs: Tree, thrown: Option<JsError>)

  /**
   * The `set` trap storing `value` at `p`: the depth guard; then a plain object replaces the
   * entry by a new folder filled property by property, and any other value replaces it by
   * a file.
   */
  function SetAt(o: Options, fs: Tree, p: Path, value: Value): (r: Outcome)
    requires |p| >= 1
    decreases value, 2, 0
  {
    if TooDeep(o, p) then Outcome(fs, Some(DepthExceeded))
    else if Recurses(o, p, value) then SetFolder(o, fs, p, value)
    else SetFile(fs, p, value)
  }

  /** The object branch of `set`: delete the entry, make the folder, then the property loop. */
  function SetFolder(o: Options, fs: Tree, p: Path, value: Value): (r: Outcome)
    requires |p| >= 1 && value.Object?
    decreases value, 1, 0
  {
    var cleared := DeleteTree(fs, p);
    match MakeFolder(cleared, p)
    case Err(e) => Outcome(cleared, Some(e))
    case Ok(made) => SetProps(o, made, p, value, |value.props|)
  }

  /** The other branch of `set`: delete an existing entry, then write the file. */
  function SetFile(fs: Tree, p: Path, value: Value): (r: Outcome)
    requires |p| >= 1
  {
    var cleared := if Exists(fs, p) then DeleteTree(fs, p) else fs;
    match WriteFile(cleared, p, value)
    case Err(e) => Outcome(cleared, Some(e))
    case Ok(w) => Outcome(w, None)
  }

  /** The first `n` turns of the property loop of `set` for the object `value` at `p`, up to the first throw. */
  function SetProps(o: Options, fs: Tree, p: Path, value: Value, n: nat): (r: Outcome)
    requires value.Object? && n <= |value.props| && |p| >= 1
    decreases value, 0, n
  {
    if n == 0 then Outcome(fs, None)
    else
      var prev := SetProps(o, fs, p, value, n - 1);
      var prop := value.props[n - 1];
      if prev.thrown.Some? || !Accepted(o, p, prop) then prev
      else SetAt(o, prev.fs, p + [prop.key], prop.value)
  }

  /** `set` keeps the directory a tree, whether it completes or throws part way. */
  lemma {:induction false} SetAtKeepsTree(o: Options, fs: Tree, p: Path, value: Value)
    requires |p| >= 1 && TreeShaped(fs)
    ensures TreeShaped(SetAt(o, fs, p, value).fs)
    decreases value, 2, 0
  {
    if TooDeep(o, p) {
    } else if Recurses(o, p, value) {
      DeleteKeepsTree(fs, p);
      var cleared := DeleteTree(fs, p);
      if MakeFolder(cleared, p).Ok? {
        MakeFolderKeepsTree(cleared, p);
        SetPropsKeepsTree(o, MakeFolder(cleared, p).value, p, value, |value.props|);
      }
    } else {
      DeleteKeepsTree(fs, p);
      var cleared := if Exists(fs, p) then DeleteTree(fs, p) else fs;
      if WriteFile(cleared, p, value).Ok? {
        WriteKeepsTree(cleared, p, value);
      }
    }
  }

  lemma {:induction false} SetPropsKeepsTree(o: Options, fs: Tree, p: Path, value: Value, n: nat)
    requires value.Object? && n <= |value.props| && |p| >= 1 && TreeShaped(fs)
    ensures TreeShaped(SetProps(o, fs, p, value, n).fs)
    decreases value, 0, n
  {
    if n > 0 {
      SetPropsKeepsTree(o, fs, p, value, n - 1);
      var prev := SetProps(o, fs, p, value, n - 1);
      var prop := value.props[n - 1];
      if prev.thrown.None? && Accepted(o, p, prop) {
        SetAtKeepsTree(o, prev.fs, p + [prop.key], prop.value);
      }
    }
  }

  /**
   * From `before` to `after` nothing outside `p` changed, except that folders above `p` may
   * have been created.
   */
  ghost predicate ChangedOnlyAt(before: Tree, after: Tree, p: Path) {
    && (forall q :: q in before && !IsPrefix(p, q) ==> q in after && after[q] == before[q])
    && (forall q :: q in after && q !in before && !IsPrefix(p, q) ==> IsPrefix(q, p))
  }

  /** A change inside `p2` is a change inside any ancestor `p` of `p2`. */
  lemma ChangedOnlyAtWiden(a: Tree, b: Tree, c: Tree, p: Path, p2: Path)
    requires IsPrefix(p, p2)
    requires ChangedOnlyAt(a, b, p) && ChangedOnlyAt(b, c, p2)
    ensures ChangedOnlyAt(a, c, p)
  {
    forall q | q in c && q !in a && !IsPrefix(p, q) ensures IsPrefix(q, p) {
      if q !in b {
        assert !IsPrefix(p2, q);
        assert q == p2[..|q|];
        assert p[..|q|] == p2[..|q|];
      }
    }
  }

  /**
   * `set` at `p` leaves every entry outside `p` as it was and adds no entry outside `p` but
   * the folders above it, whether it completes or throws part way.
   */
  lemma {:induction false} SetAtFrame(o: Options, fs: Tree, p: Path, value: Value)
    requires |p| >= 1
    ensures ChangedOnlyAt(fs, SetAt(o, fs, p, value).fs, p)
    decreases value, 2, 0
  {
    if TooDeep(o, p) {
    } else if Recurses(o, p, value) {
      var cleared := DeleteTree(fs, p);
      if MakeFolder(cleared, p).Ok? {
        var made := MakeFolder(cleared, p).value;
        forall q | q in made && q !in fs && !IsPrefix(p, q) ensures IsPrefix(q, p) {
          assert q in Lineage(p);
        }
        SetPropsFrame(o, made, p, value, |value.props|);
        ChangedOnlyAtWiden(fs, made, SetProps(o, made, p, value, |value.props|).fs, p, p);
      }
    } else {
      assert p[..|p|] == p;
    }
  }

  lemma {:induction false} SetPropsFrame(o: Options, fs: Tree, p: Path, value: Value, n: nat)
    requires value.Object? && n <= |value.props| && |p| >= 1
    ensures ChangedOnlyAt(fs, SetProps(o, fs, p, value, n).fs, p)
    decreases value, 0, n
  {
    if n > 0 {
      SetPropsFrame(o, fs, p, value, n - 1);
      var prev := SetProps(o, fs, p, value, n - 1);
      var prop := value.props[n - 1];
      if prev.thrown.None? && Accepted(o, p, prop) {
        SetAtFrame(o, prev.fs, p + [prop.key], prop.value);
        assert (p + [prop.key])[..|p|] == p;
        ChangedOnlyAtWiden(fs, prev.fs, SetAt(o, prev.fs, p + [prop.key], prop.value).fs, p, p + [prop.key]);
      }
    }
  }

  /** One more turn of the property loop: setting the next property, unless an earlier turn threw or it is not accepted. */
  lemma SetPropsNext(o: Options, fs: Tree, p: Path, value: Value, i: nat)
    requires value.Object? && i < |value.props| && |p| >= 1
    ensures var prev := SetProps(o, fs, p, value, i);
      SetProps(o, fs, p, value, i + 1) ==
        if prev.thrown.Some? || !Accepted(o, p, value.props[i]) then prev
        else SetAt(o, prev.fs, p + [value.props[i].key], value.props[i].value)
  {
  }

  /** Once a turn has thrown, the later properties are never set. */
  lemma {:induction false} SetPropsPropagates(o: Options, fs: Tree, p: Path, value: Value, i: nat, n: nat)
    requires value.Object? && i <= n <= |value.props| && |p| >= 1
    requires SetProps(o, fs, p, value, i).thrown.Some?
    ensures SetProps(o, fs, p, value, n) == SetProps(o, fs, p, value, i)
    decreases n
  {
    if n > i {
      SetPropsPropagates(o, fs, p, value, i, n - 1);
    }
  }

  /** A JavaScript object's own keys are distinct, at every level. */
  ghost predicate UniqueKeys(value: Value)
    decreases value
  {
    value.Object? ==>
      && (forall i, j :: 0 <= i < j < |value.props| ==> value.props[i].key != value.props[j].key)
      && (forall prop :: prop in value.props ==> UniqueKeys(prop.value))
  }

  /** The keys of the properties `set` copies into the folder `p`. */
  function AcceptedKeys(o: Options, p: Path, props: seq<Prop>): set<string> {
    set prop | prop in props && Accepted(o, p, prop) :: prop.key
  }

  /**
   * The tree holds `value` at `p` the way `set` lays it out: a folder whose entries are
   * exactly the accepted properties, each laid out in turn, or a file holding the value.
   */
  ghost predicate Mirrors(o: Options, fs: Tree, p: Path, value: Value)
    decreases value
  {
    if Recurses(o, p, value) then
      && p in fs && fs[p] == Folder
      && Children(fs, p) == AcceptedKeys(o, p, value.props)
      && forall prop :: prop in value.props && Accepted(o, p, prop) ==> Mirrors(o, fs, p + [prop.key], prop.value)
    else p in fs && fs[p] == File(value)
  }

  /** The two trees agree on `p` and everything below it. */
  ghost predicate SameBelow(a: Tree, b: Tree, p: Path) {
    forall q :: IsPrefix(p, q) ==> (q in a <==> q in b) && (q in a ==> a[q] == b[q])
  }

  lemma ChildrenSame(a: Tree, b: Tree, p: Path)
    requires SameBelow(a, b, p)
    ensures Children(a, p) == Children(b, p)
  {
    forall c | c in Children(a, p) ensures c in Children(b, p) {
      var q :| q in a && |q| == |p| + 1 && q[..|p|] == p && q[|p|] == c;
      assert IsPrefix(p, q);
    }
    forall c | c in Children(b, p) ensures c in Children(a, p) {
      var q :| q in b && |q| == |p| + 1 && q[..|p|] == p && q[|p|] == c;
      assert IsPrefix(p, q);
    }
  }

  /** Whether a value is laid out at `p` depends on nothing outside `p`. */
  lemma {:induction false} MirrorsFrame(o: Options, a: Tree, b: Tree, p: Path, value: Value)
    requires SameBelow(a, b, p) && Mirrors(o, a, p, value)
    ensures Mirrors(o, b, p, value)
    decreases value
  {
    assert IsPrefix(p, p);
    if Recurses(o, p, value) {
      ChildrenSame(a, b, p);
      forall prop | prop in value.props && Accepted(o, p, prop) ensures Mirrors(o, b, p + [prop.key], prop.value) {
        var c := p + [prop.key];
        forall q | IsPrefix(c, q) ensures IsPrefix(p, q) {
          assert q[..|p|] == c[..|p|];
        }
        MirrorsFrame(o, a, b, c, prop.value);
      }
    }
  }

  /**
   * A `set` that completes lays the value out at `p`: a plain object it recurses into becomes
   * a folder holding exactly its accepted properties, each laid out in turn; any other value
   * becomes a file holding it.
   */
  lemma {:induction false} SetAtMirrors(o: Options, fs: Tree, p: Path, value: Value)
    requires |p| >= 1 && UniqueKeys(value)
    requires SetAt(o, fs, p, value).thrown == None
    ensures Mirrors(o, SetAt(o, fs, p, value).fs, p, value)
    decreases value, 2, 0
  {
    assert p[..|p|] == p;
    if Recurses(o, p, value) {
      var cleared := DeleteTree(fs, p);
      var made := MakeFolder(cleared, p).value;
      assert p in Lineage(p);
      forall c | c in Children(made, p) ensures false {
        var q :| q in made && |q| == |p| + 1 && q[..|p|] == p && q[|p|] == c;
        assert IsPrefix(p, q);
      }
      SetPropsMirrors(o, made, p, value, |value.props|);
      assert value.props[..|value.props|] == value.props;
      assert LaidOut(o, SetProps(o, made, p, value, |value.props|).fs, p, value, |value.props|);
      var r := SetProps(o, made, p, value, |value.props|).fs;
      forall prop | prop in value.props && Accepted(o, p, prop) ensures Mirrors(o, r, p + [prop.key], prop.value) {
        var j :| 0 <= j < |value.props| && value.props[j] == prop;
      }
    }
  }

  /** The folder `p` after the first `n` turns of the property loop: those properties laid out, nothing else. */
  ghost predicate LaidOut(o: Options, fs: Tree, p: Path, value: Value, n: nat)
    requires value.Object? && n <= |value.props|
  {
    && p in fs && fs[p] == Folder
    && Children(fs, p) == AcceptedKeys(o, p, value.props[..n])
    && forall j :: 0 <= j < n && Accepted(o, p, value.props[j]) ==>
         Mirrors(o, fs, p + [value.props[j].key], value.props[j].value)
  }

  lemma {:induction false} SetPropsMirrors(o: Options, fs: Tree, p: Path, value: Value, n: nat)
    requires value.Object? && n <= |value.props| && |p| >= 1 && UniqueKeys(value)
    requires p in fs && fs[p] == Folder && Children(fs, p) == {}
    requires SetProps(o, fs, p, value, n).thrown == None
    ensures LaidOut(o, SetProps(o, fs, p, value, n).fs, p, value, n)
    decreases value, 0, n
  {
    if n == 0 {
      assert value.props[..0] == [];
    } else {
      var prev := SetProps(o, fs, p, value, n - 1);
      var prop := value.props[n - 1];
      assert prev.thrown == None;
      SetPropsMirrors(o, fs, p, value, n - 1);
      if Accepted(o, p, prop) {
        var c := p + [prop.key];
        var r := SetAt(o, prev.fs, c, prop.value);
        assert SetProps(o, fs, p, value, n) == r;
        assert prop in value.props;
        SetAtMirrors(o, prev.fs, c, prop.value);
        SetAtFrame(o, prev.fs, c, prop.value);
        LaidOutNext(o, prev.fs, r.fs, p, value, n);
      } else {
        assert SetProps(o, fs, p, value, n) == prev;
        LaidOutSkip(o, prev.fs, p, value, n);
      }
    }
  }

  /** One more accepted property, laid out as its own child of `p`, extends the layout of the folder. */
  lemma LaidOutNext(o: Options, prev: Tree, r: Tree, p: Path, value: Value, n: nat)
    requires value.Object? && 0 < n <= |value.props| && UniqueKeys(value)
    requires LaidOut(o, prev, p, value, n - 1) && Accepted(o, p, value.props[n - 1])
    requires ChangedOnlyAt(prev, r, p + [value.props[n - 1].key])
    requires Mirrors(o, r, p + [value.props[n - 1].key], value.props[n - 1].value)
    ensures LaidOut(o, r, p, value, n)
  {
    var prop := value.props[n - 1];
    var c := p + [prop.key];
    AcceptedKeysNext(o, p, value.props, n);
    assert !IsPrefix(c, p);
    assert c in r;
    ChildrenAdded(prev, r, p, prop.key);
    forall j | 0 <= j < n - 1 && Accepted(o, p, value.props[j])
      ensures Mirrors(o, r, p + [value.props[j].key], value.props[j].value)
    {
      SiblingKept(o, prev, r, p, prop.key, value.props[j]);
    }
  }

  /** A property the loop skips leaves the folder's layout as it was. */
  lemma LaidOutSkip(o: Options, fs: Tree, p: Path, value: Value, n: nat)
    requires value.Object? && 0 < n <= |value.props|
    requires LaidOut(o, fs, p, value, n - 1) && !Accepted(o, p, value.props[n - 1])
    ensures LaidOut(o, fs, p, value, n)
  {
    AcceptedKeysNext(o, p, value.props, n);
  }

  lemma AcceptedKeysNext(o: Options, p: Path, props: seq<Prop>, n: nat)
    requires 0 < n <= |props|
    ensures AcceptedKeys(o, p, props[..n]) ==
      AcceptedKeys(o, p, props[..n - 1]) + if Accepted(o, p, props[n - 1]) then {props[n - 1].key} else {}
  {
    assert props[..n] == props[..n - 1] + [props[n - 1]];
  }

  /** Setting the child `k` of `p` leaves a sibling's layout as it was. */
  lemma SiblingKept(o: Options, before: Tree, after: Tree, p: Path, k: string, sibling: Prop)
    requires ChangedOnlyAt(before, after, p + [k]) && sibling.key != k
    requires Mirrors(o, before, p + [sibling.key], sibling.value)
    ensures Mirrors(o, after, p + [sibling.key], sibling.value)
  {
    var c, cj := p + [k], p + [sibling.key];
    forall q | IsPrefix(cj, q) ensures (q in before <==> q in after) && (q in before ==> before[q] == after[q]) {
      assert q[|p|] == sibling.key;
      assert !IsPrefix(c, q) && !IsPrefix(q, c);
    }
    MirrorsFrame(o, before, after, cj, sibling.value);
  }

  /** Setting the child `k` of the folder `p` adds `k` to its listing and changes no other name in it. */
  lemma ChildrenAdded(before: Tree, after: Tree, p: Path, k: string)
    requires ChangedOnlyAt(before, after, p + [k]) && p + [k] in after
    ensures Children(after, p) == Children(before, p) + {k}
  {
    var c := p + [k];
    assert c[..|p|] == p && c[|p|] == k;
    forall x | x in Children(before, p) ensures x in Children(after, p) {
      var q :| q in before && |q| == |p| + 1 && q[..|p|] == p && q[|p|] == x;
      if x != k {
        assert !IsPrefix(c, q);
      }
    }
    forall x | x in Children(after, p) && x != k ensures x in Children(before, p) {
      var q :| q in after && |q| == |p| + 1 && q[..|p|] == p && q[|p|] == x;
      assert !IsPrefix(c, q) && !IsPrefix(q, c);
    }
  }

  /** What the `get` trap returns: a nested view of a folder, the value of a file, or `undefined`. */
  datatype Lookup = Nested(path: Path) | Found(value: Value) | Missing

  /** The answer of the `get` trap for the entry `p`. */
  function GetAt(fs: Tree, p: Path, convertFileToObject: Value -> Value): Lookup {
    if !Exists(fs, p) then Missing
    else if IsFolderAt(fs, p) then Nested(p)
    else Found(convertFileToObject(fs[p].data))
  }

  /** The names a set of property names has on disk. */
  function Encoded(keys: set<string>): set<string> {
    set k | k in keys :: UriComponents.Encode(k)
  }

  /**
   * A listed name decodes back to the property name it stands for, so `ownKeys` reports
   * each property of the folder once, under a name `decodeURIComponent` turns back into it.
   */
  lemma ListingDecodes(fs: Tree, p: Path, x: string)
    requires x in Listing(fs, p)
    ensures UriComponents.Decode(x).Some? && UriComponents.Decode(x).value in Children(fs, p)
    ensures UriComponents.Encode(UriComponents.Decode(x).value) == x
  {
    var n :| n in Children(fs, p) && UriComponents.Encode(n) == x;
    UriComponents.RoundTrip(n);
  }

  /**
   * Reading back what a completed `set` stored: a plain object it recursed into comes back
   * as a nested view whose keys are exactly the properties it accepted; any other value
   * comes back through `convertFileToObject`.
   */
  lemma SetThenGet(o: Options, fs: Tree, p: Path, value: Value, convertFileToObject: Value -> Value)
    requires |p| >= 1 && UniqueKeys(value)
    requires SetAt(o, fs, p, value).thrown == None
    ensures var r := SetAt(o, fs, p, value).fs;
      && (Recurses(o, p, value) ==> GetAt(r, p, convertFileToObject) == Nested(p)
                                    && Children(r, p) == AcceptedKeys(o, p, value.props)
                                    && Listing(r, p) == Encoded(AcceptedKeys(o, p, value.props)))
      && (!Recurses(o, p, value) ==> GetAt(r, p, convertFileToObject) == Found(convertFileToObject(value)))
  {
    SetAtMirrors(o, fs, p, value);
  }

  /** After `deleteProperty`, the entry and everything below it read as `undefined`; the rest reads as before. */
  lemma DeleteThenGet(fs: Tree, p: Path, q: Path, convertFileToObject: Value -> Value)
    requires |p| >= 1
    ensures IsPrefix(p, q) ==> GetAt(DeleteTree(fs, p), q, convertFileToObject) == Missing
    ensures !IsPrefix(p, q) ==> GetAt(DeleteTree(fs, p), q, convertFileToObject) == GetAt(fs, q, convertFileToObject)
  {
    if IsPrefix(p, q) {
      assert q != [];
    } else if q == [] {
    }
  }

  /**
   * An `ObjectFileStore` with the default handler: the directory it was given, and the
   * options its traps consult. `convertObjectToFile` keeps its default, the identity.
   */
  class ObjectFileStore {
    /** The directory below the handler's path. */
    var tree: Tree
    const maxFolderDepth: int
    const shouldRecursive: (Path, Value) -> bool
    const convertFileToObject: Value -> Value

    ghost predicate Valid()
      reads this
    {
      TreeShaped(tree)
    }

    function Opts(): Options {
      Options(maxFolderDepth, shouldRecursive)
    }

    constructor (tree: Tree, maxFolderDepth: int, shouldRecursive: (Path, Value) -> bool,
                 convertFileToObject: Value -> Value)
      requires TreeShaped(tree)
      ensures Valid()
      ensures this.tree == tree && this.maxFolderDepth == maxFolderDepth
      ensures this.shouldRecursive == shouldRecursive && this.convertFileToObject == convertFileToObject
    {
      this.tree := tree;
      this.maxFolderDepth := maxFolderDepth;
      this.shouldRecursive := shouldRecursive;
      this.convertFileToObject := convertFileToObject;
    }

    /** `self.handler(operation, path, value)`: the default handler on the directory; a throw leaves it as it was. */
    method Call(op: Operation, p: Path, value: Value) returns (r: Result<Reply, JsError>)
      requires Valid()
      modifies this
      ensures Valid()
      ensures Handle(old(tree), op, p, value).Ok? ==>
        r == Ok(Handle(old(tree), op, p, value).value.0) && tree == Handle(old(tree), op, p, value).value.1
      ensures Handle(old(tree), op, p, value).Err? ==>
        r == Err(Handle(old(tree), op, p, value).error) && tree == old(tree)
    {
      var h := Handle(tree, op, p, value);
      if h.Ok? {
        HandleKeepsTree(tree, op, p, value);
        tree := h.value.1;
        r := Ok(h.value.0);
      } else {
        r := Err(h.error);
      }
    }

    /** The `has` trap: whether the entry exists. */
    method Has(path: Path, prop: string) returns (b: bool)
      requires Valid()
      modifies this
      ensures Valid() && tree == old(tree)
      ensures b <==> Exists(tree, path + [prop])
    {
      var h := Call(HasOp, path + [prop], Undefined);
      b := h.value.b;
    }

    /**
     * The `get` trap: a nested view for a folder, the converted value for a file, and
     * `undefined` for a missing entry. The directory is not changed.
     */
    method Get(path: Path, prop: string) returns (r: Lookup)
      requires Valid()
      modifies this
      ensures Valid() && tree == old(tree)
      ensures r == GetAt(tree, path + [prop], convertFileToObject)
    {
      var full := path + [prop];
      var has := Call(HasOp, full, Undefined);
      if has.value.b {
        var isFolder := Call(IsFolderOp, full, Undefined);
        if isFolder.value.b {
          return Nested(full);
        }
        var data := Call(ReadOp, full, Undefined);
        return Found(convertFileToObject(data.value.value));
      }
      r := Missing;
    }

    /**
     * The `set` trap: the depth guard, then a plain object becomes a new folder filled by
     * setting each accepted property through the nested view, and any other value replaces
     * the entry by a file. A throw part way leaves what was done so far.
     */
    method Set(path: Path, prop: string, value: Value) returns (thrown: Option<JsError>)
      requires Valid()
      modifies this
      ensures Valid()
      ensures Outcome(tree, thrown) == SetAt(Opts(), old(tree), path + [prop], value)
      decreases value, 2
    {
      var full := path + [prop];
      if maxFolderDepth != -1 && |full| > maxFolderDepth {
        return Some(DepthExceeded);
      }
      if value.Object? && shouldRecursive(full, value) {
        thrown := SetObject(full, value);
      } else {
        thrown := SetScalar(full, value);
      }
    }

    /** `set` of a plain object it recurses into: a new folder at `p`, then the property loop. */
    method SetObject(p: Path, value: Value) returns (thrown: Option<JsError>)
      requires Valid() && |p| >= 1 && value.Object?
      modifies this
      ensures Valid()
      ensures Outcome(tree, thrown) == SetFolder(Opts(), old(tree), p, value)
      decreases value, 1
    {
      var _ := Call(DeleteOp, p, Undefined);
      var created := Call(CreateFolderOp, p, Undefined);
      if created.Err? {
        return Some(created.error);
      }
      thrown := FillFolder(p, value, tree);
    }

    /** `set` of any other value: an existing entry is deleted and the file written. */
    method SetScalar(p: Path, value: Value) returns (thrown: Option<JsError>)
      requires Valid() && |p| >= 1
      modifies this
      ensures Valid()
      ensures Outcome(tree, thrown) == SetFile(old(tree), p, value)
    {
      var has := Call(HasOp, p, Undefined);
      if has.value.b {
        var _ := Call(DeleteOp, p, Undefined);
      }
      var written := Call(WriteOp, p, value);
      if written.Err? {
        return Some(written.error);
      }
      thrown := None;
    }

    /**
     * The loop of the `set` trap over the properties of `value`, once the folder `p` has
     * been made: each accepted property is set through the nested view of `p`; the first
     * throw ends the loop.
     */
    method FillFolder(p: Path, value: Value, ghost made: Tree) returns (thrown: Option<JsError>)
      requires Valid() && value.Object? && |p| >= 1 && tree == made
      modifies this
      ensures Valid()
      ensures SetProps(Opts(), made, p, value, |value.props|) == Outcome(tree, thrown)
      decreases value, 0
    {
      var i := 0;
      while i < |value.props|
        invariant i <= |value.props| && Valid()
        invariant SetProps(Opts(), made, p, value, i) == Outcome(tree, None)
      {
        var each := value.props[i];
        SetPropsNext(Opts(), made, p, value, i);
        if !each.value.Function? && shouldRecursive(p, each.value) {
          var t := Set(p, each.key, each.value);
          if t.Some? {
            SetPropsPropagates(Opts(), made, p, value, i + 1, |value.props|);
            return t;
          }
        }
        i := i + 1;
      }
      thrown := None;
    }

    /** The `deleteProperty` trap: removes an existing entry with everything below it and answers whether there was one. */
    method DeleteProperty(path: Path, prop: string) returns (b: bool)
      requires Valid()
      modifies this
      ensures Valid()
      ensures b <==> Exists(old(tree), path + [prop])
      ensures tree == if b then DeleteTree(old(tree), path + [prop]) else old(tree)
    {
      var full := path + [prop];
      var has := Call(HasOp, full, Undefined);
      if has.value.b {
        var _ := Call(DeleteOp, full, Undefined);
        return true;
      }
      b := false;
    }

    /**
     * The `ownKeys` trap: the names listed in the folder at `path`, which are the encoded
     * property names; the handler throws for a file or a missing entry.
     */
    method OwnKeys(path: Path) returns (r: Result<set<string>, JsError>)
      requires Valid()
      modifies this
      ensures Valid() && tree == old(tree)
      ensures IsFolderAt(tree, path) ==> r == Ok(Listing(tree, path))
      ensures !IsFolderAt(tree, path) && path in tree ==> r == Err(FsError("ENOTDIR"))
      ensures !IsFolderAt(tree, path) && path !in tree ==> r == Err(NotFound(tree, path))
    {
      var listed := Call(ListOp, path, Undefined);
      if listed.Err? {
        return Err(listed.error);
      }
      r := Ok(listed.value.names);
    }
  }
}
