/** `sync_to_irods` of exao_dap_client/data_store.py: one-way mirroring of a local directory tree
    into an iRODS collection. The local tree is what `os.walk` yields, given as a sequence; the
    iRODS file system is a class whose state is each collection's `ls` listing and each data
    object's bytes; the MD5 function is a parameter. */
module DataStore {
  import opened Wrappers
  import opened Json
  import Text
  import Utils

  /** POSIX `os.path.join(a, b)` for two components: an absolute `b` replaces `a`; otherwise a '/'
      goes between them unless `a` is empty or already ends with one. */
  function JoinPath(a: string, b: string): string
  {
    if b != [] && b[0] == '/' then b
    else if a == [] || a[|a| - 1] == '/' then a + b
    else a + "/" + b
  }

  /** The collection a data object path lives in, as the store files it: everything before the
      last '/'. */
  function Collection(p: string): string
  {
    var r := Text.RFind(p, '/');
    if r >= 0 then p[..r] else ""
  }

  /** One entry of `irodsfs.ls(path)`: the full `'name'`, the `'type'` ('file' for a data object)
      and the `'checksum'`. */
  datatype Entry = Entry(name: string, kind: string, checksum: string)
  {
    predicate IsFile() { kind == "file" }
    /** `os.path.basename(entry['name'])`. */
    function Base(): string { Text.Basename(name) }
  }

  /** The remote side: each existing collection with its listing, and each data object's bytes. */
  datatype Store = Store(listing: map<string, seq<Entry>>, data: map<string, Utils.Bytes>)

  /** No two entries of a listing share a base name. */
  predicate DistinctBases(l: seq<Entry>)
  {
    forall i, j :: 0 <= i < j < |l| ==> l[i].Base() != l[j].Base()
  }

  /** A collection holds at most one item per name. */
  predicate Valid(s: Store)
  {
    forall c :: c in s.listing ==> DistinctBases(s.listing[c])
  }

  /** `mkdir(p)`: an empty collection at `p`; an existing one is left as it is. */
  function MkDirState(s: Store, p: string): Store
  {
    s.(listing := s.listing[p := if p in s.listing then s.listing[p] else []])
  }

  /** The first entry of `l` with base name `b`, or `|l|`. */
  function IndexOfBase(l: seq<Entry>, b: string): (i: nat)
    ensures i <= |l|
    ensures i < |l| ==> l[i].Base() == b
    ensures forall j :: 0 <= j < i ==> l[j].Base() != b
  {
    if l == [] then 0
    else if l[0].Base() == b then 0
    else 1 + IndexOfBase(l[1..], b)
  }

  /** A listing after an item named like `e` is written: it replaces the item of that name, or
      comes last. */
  function Upsert(l: seq<Entry>, e: Entry): seq<Entry>
  {
    var i := IndexOfBase(l, e.Base());
    if i < |l| then l[i := e] else l + [e]
  }

  /** `put_file(src, dest)`: `dest` holds `content` and is listed in its collection as a data
      object whose checksum the store computes with `stamp`. */
  function PutState(s: Store, dest: string, content: Utils.Bytes, stamp: Utils.Bytes -> string): Store
  {
    var c := Collection(dest);
    var l := if c in s.listing then s.listing[c] else [];
    Store(s.listing[c := Upsert(l, Entry(dest, "file", stamp(content)))], s.data[dest := content])
  }

  /** The iRODS file system `fsspec.filesystem('irods')`. */
  class RemoteStore {
    var listing: map<string, seq<Entry>>
    var data: map<string, Utils.Bytes>
    /** How the server computes the checksum of the bytes it stores. */
    const stamp: Utils.Bytes -> string

    function State(): Store
      reads this
    {
      Store(listing, data)
    }

    constructor (listing: map<string, seq<Entry>>, data: map<string, Utils.Bytes>, stamp: Utils.Bytes -> string)
      ensures State() == Store(listing, data) && this.stamp == stamp
    {
      this.listing := listing;
      this.data := data;
      this.stamp := stamp;
    }

    /** `isdir(p)`. */
    method IsDir(p: string) returns (b: bool)
      ensures b <==> p in listing
    {
      b := p in listing;
    }

    /** `mkdir(p)`. */
    method MkDir(p: string)
      modifies this
      ensures State() == MkDirState(old(State()), p)
    {
      if p !in listing {
        listing := listing[p := []];
      }
    }

    /** `ls(p)` of an existing collection. */
    method Ls(p: string) returns (contents: seq<Entry>)
      requires p in listing
      ensures contents == listing[p]
    {
      contents := listing[p];
    }

    /** `put_file(src, dest)` of a local file holding `content`. */
    method PutFile(content: Utils.Bytes, dest: string)
      modifies this
      ensures State() == PutState(old(State()), dest, content, stamp)
    {
      var c := Collection(dest);
      var l := if c in listing then listing[c] else [];
      listing := listing[c := Upsert(l, Entry(dest, "file", stamp(content)))];
      data := data[dest := content];
    }
  }

  /** A local file: its name and its bytes, or None when opening it fails. */
  datatype LocalFile = LocalFile(name: string, content: Option<Utils.Bytes>)

  /** One directory `os.walk(src_dir)` yields: `dirpath`, the base name `pathlib` gives it, its
      path relative to `src_dir` ('.' for `src_dir` itself) and its files in order. */
  datatype WalkDir = WalkDir(path: string, name: string, rel: string, files: seq<LocalFile>)

  /** What the sync does that can be observed: collections made and listed, local files opened
      and hashed, uploads. */
  datatype Event =
    | Made(collection: string)
    | Listed(collection: string)
    | Opened(src: string)
    | Hashed(src: string)
    | Uploaded(src: string, dest: string)

  /** Where a run got to: the remote state, the events so far and the exception it raised. */
  datatype Outcome = Outcome(store: Store, trace: seq<Event>, error: Option<PyError>)

  /** The directory-level ignore rule, for a non-empty name. */
  predicate IgnoredDir(name: string)
    requires name != []
  {
    name[0] == '.' || name == "__pycache__"
  }

  /** `existing_files` after the loop over `contents`: each data object under its base name, a
      later entry replacing an earlier one. */
  function ExistingFiles(contents: seq<Entry>): map<string, Entry>
  {
    if contents == [] then map[]
    else
      var m := ExistingFiles(contents[..|contents| - 1]);
      var e := contents[|contents| - 1];
      if e.IsFile() then m[e.Base() := e] else m
  }

  /** The loop over `ls` that fills `existing_files`. */
  method CollectExisting(contents: seq<Entry>) returns (existing: map<string, Entry>)
    ensures existing == ExistingFiles(contents)
  {
    existing := map[];
    for i := 0 to |contents|
      invariant existing == ExistingFiles(contents[..i])
    {
      assert contents[..i + 1][..i] == contents[..i];
      var entry := contents[i];
      if entry.IsFile() {
        var key := entry.Base();
        existing := existing[key := entry];
      }
    }
    assert contents[..|contents|] == contents;
  }

  /** One file of a directory whose collection is `coll`. */
  function SyncFile(s: Store, dirPath: string, coll: string, existing: map<string, Entry>, f: LocalFile,
                    md5: Utils.Bytes -> string, stamp: Utils.Bytes -> string): Outcome
  {
    if f.name == [] then Outcome(s, [], Some(IndexError))
    else if f.name[0] == '.' then Outcome(s, [], None)
    else
      var src := JoinPath(dirPath, f.name);
      var dest := JoinPath(coll, f.name);
      match f.content
      case None => Outcome(s, [], Some(OSError))
      case Some(c) =>
        if f.name in existing && md5(c) == existing[f.name].checksum then
          Outcome(s, [Opened(src), Hashed(src)], None)
        else
          Outcome(PutState(s, dest, c, stamp),
                  [Opened(src)] + (if f.name in existing then [Hashed(src)] else []) + [Uploaded(src, dest)],
                  None)
  }

  /** The file loop from state `s` with events `trace` so far. */
  function SyncFiles(s: Store, trace: seq<Event>, dirPath: string, coll: string, existing: map<string, Entry>,
                     files: seq<LocalFile>, md5: Utils.Bytes -> string, stamp: Utils.Bytes -> string): Outcome
    decreases |files|
  {
    if files == [] then Outcome(s, trace, None)
    else
      var r := SyncFile(s, dirPath, coll, existing, files[0], md5, stamp);
      if r.error.Some? then Outcome(r.store, trace + r.trace, r.error)
      else SyncFiles(r.store, trace + r.trace, dirPath, coll, existing, files[1..], md5, stamp)
  }

  /** One directory of the walk. */
  function SyncDir(s: Store, trace: seq<Event>, dest: string, d: WalkDir,
                   md5: Utils.Bytes -> string, stamp: Utils.Bytes -> string): Outcome
  {
    if d.name == [] then Outcome(s, trace, Some(IndexError))
    else if IgnoredDir(d.name) then Outcome(s, trace, None)
    else
      var coll := JoinPath(dest, d.rel);
      if coll !in s.listing then
        SyncFiles(MkDirState(s, coll), trace + [Made(coll)], d.path, coll, map[], d.files, md5, stamp)
      else
        SyncFiles(s, trace + [Listed(coll)], d.path, coll, ExistingFiles(s.listing[coll]), d.files, md5, stamp)
  }

  /** The walk loop: it stops at the first exception. */
  function SyncWalk(s: Store, trace: seq<Event>, dest: string, walk: seq<WalkDir>,
                    md5: Utils.Bytes -> string, stamp: Utils.Bytes -> string): Outcome
    decreases |walk|
  {
    if walk == [] then Outcome(s, trace, None)
    else
      var o := SyncDir(s, trace, dest, walk[0], md5, stamp);
      if o.error.Some? then o else SyncWalk(o.store, o.trace, dest, walk[1..], md5, stamp)
  }

  /** The outcome of one visible file that opens, as `SyncFile` defines it. */
  lemma SyncFileOpened(s: Store, dirPath: string, coll: string, existing: map<string, Entry>, f: LocalFile,
                       md5: Utils.Bytes -> string, stamp: Utils.Bytes -> string)
    requires VisibleFile(f) && f.content.Some?
    ensures var src := JoinPath(dirPath, f.name);
            var c := f.content.value;
            SyncFile(s, dirPath, coll, existing, f, md5, stamp) ==
            if f.name in existing && md5(c) == existing[f.name].checksum then
              Outcome(s, [Opened(src), Hashed(src)], None)
            else
              Outcome(PutState(s, JoinPath(coll, f.name), c, stamp),
                      [Opened(src)] + (if f.name in existing then [Hashed(src)] else []) +
                      [Uploaded(src, JoinPath(coll, f.name))],
                      None)
  {
  }

  /** The body of the file loop: open `fn`, compare checksums when the name is already in the
      collection, upload unless they match. */
  method SyncOneFile(irods: RemoteStore, dirPath: string, coll: string, existing: map<string, Entry>,
                     f: LocalFile, md5: Utils.Bytes -> string)
    returns (events: seq<Event>, error: Option<PyError>)
    modifies irods
    ensures Outcome(irods.State(), events, error) ==
            SyncFile(old(irods.State()), dirPath, coll, existing, f, md5, irods.stamp)
  {
    if f.name == [] {
      return [], Some(IndexError);
    }
    if f.name[0] == '.' {
      return [], None;
    }
    var src := JoinPath(dirPath, f.name);
    var dest := JoinPath(coll, f.name);
    if f.content.None? {
      return [], Some(OSError);
    }
    SyncFileOpened(irods.State(), dirPath, coll, existing, f, md5, irods.stamp);
    var fh := new Utils.FileHandle(f.content.value);
    events := [Opened(src)];
    if f.name in existing {
      var local := Utils.Md5Sum(Utils.Handle(fh), md5);
      events := events + [Hashed(src)];
      var remote := existing[f.name].checksum;
      if local == remote {
        fh.Close();
        return events, None;
      }
    }
    ghost var before := irods.State();
    irods.PutFile(f.content.value, dest);
    assert irods.State() == PutState(before, dest, f.content.value, irods.stamp);
    events := events + [Uploaded(src, dest)];
    fh.Close();
    error := None;
  }

  /** The body of the walk loop for one directory. */
  method SyncDirectory(irods: RemoteStore, trace: seq<Event>, dest: string, d: WalkDir, md5: Utils.Bytes -> string)
    returns (trace': seq<Event>, error: Option<PyError>)
    modifies irods
    ensures Outcome(irods.State(), trace', error) == SyncDir(old(irods.State()), trace, dest, d, md5, irods.stamp)
  {
    if d.name == [] {
      return trace, Some(IndexError);
    }
    if d.name[0] == '.' || d.name == "__pycache__" {
      return trace, None;
    }
    var coll := JoinPath(dest, d.rel);
    var existing: map<string, Entry>;
    var isdir := irods.IsDir(coll);
    if !isdir {
      irods.MkDir(coll);
      trace' := trace + [Made(coll)];
      existing := map[];
    } else {
      var contents := irods.Ls(coll);
      trace' := trace + [Listed(coll)];
      existing := CollectExisting(contents);
    }
    ghost var goal := SyncDir(old(irods.State()), trace, dest, d, md5, irods.stamp);
    assert goal == SyncFiles(irods.State(), trace', d.path, coll, existing, d.files, md5, irods.stamp);
    for j := 0 to |d.files|
      invariant goal == SyncFiles(irods.State(), trace', d.path, coll, existing, d.files[j..], md5, irods.stamp)
    {
      assert d.files[j..][1..] == d.files[j + 1..];
      var events, err := SyncOneFile(irods, d.path, coll, existing, d.files[j], md5);
      trace' := trace' + events;
      if err.Some? {
        return trace', err;
      }
    }
    error := None;
  }

  /** `sync_to_irods(src_dir, dest_collection)`, with `walk` standing for `os.walk(src_dir)`:
      the remote state it leaves, the events it causes and the exception it raises (if any) are
      those of `SyncWalk`. */
  method SyncToIrods(walk: seq<WalkDir>, destCollection: string, irods: RemoteStore, md5: Utils.Bytes -> string)
    returns (trace: seq<Event>, error: Option<PyError>)
    modifies irods
    ensures Outcome(irods.State(), trace, error) == SyncWalk(old(irods.State()), [], destCollection, walk, md5, irods.stamp)
  {
    trace := [];
    ghost var goal := SyncWalk(irods.State(), [], destCollection, walk, md5, irods.stamp);
    for i := 0 to |walk|
      invariant goal == SyncWalk(irods.State(), trace, destCollection, walk[i..], md5, irods.stamp)
    {
      assert walk[i..][1..] == walk[i + 1..];
      var err;
      trace, err := SyncDirectory(irods, trace, destCollection, walk[i], md5);
      if err.Some? {
        return trace, err;
      }
    }
    error := None;
  }

  /** The index of the last data object listed with base name `b`, or -1. */
  function LastFile(contents: seq<Entry>, b: string): (r: int)
    ensures -1 <= r < |contents|
    ensures r >= 0 ==> contents[r].IsFile() && contents[r].Base() == b
    ensures forall j :: r < j < |contents| ==> !(contents[j].IsFile() && contents[j].Base() == b)
  {
    if contents == [] then -1
    else if contents[|contents| - 1].IsFile() && contents[|contents| - 1].Base() == b then |contents| - 1
    else LastFile(contents[..|contents| - 1], b)
  }

  /** `existing_files` has a key for exactly the base names of the data objects listed, and its
      value is the last of them; sub-collections and other entries never count. */
  lemma {:induction false} ExistingFilesLast(contents: seq<Entry>, b: string)
    ensures b in ExistingFiles(contents) <==> LastFile(contents, b) >= 0
    ensures b in ExistingFiles(contents) ==> ExistingFiles(contents)[b] == contents[LastFile(contents, b)]
    decreases |contents|
  {
    if contents != [] {
      var init := contents[..|contents| - 1];
      ExistingFilesLast(init, b);
      var r := LastFile(init, b);
      if r >= 0 {
        assert contents[r] == init[r];
      }
    }
  }

  /** The same, in terms of the listing alone. */
  lemma ExistingFilesKeys(contents: seq<Entry>, b: string)
    ensures b in ExistingFiles(contents) <==>
            exists i :: 0 <= i < |contents| && contents[i].IsFile() && contents[i].Base() == b
  {
    ExistingFilesLast(contents, b);
  }

  /** With distinct base names, each listed data object is the value under its base name. */
  lemma ExistingFilesAt(l: seq<Entry>, i: nat)
    requires DistinctBases(l) && i < |l| && l[i].IsFile()
    ensures l[i].Base() in ExistingFiles(l)
    ensures ExistingFiles(l)[l[i].Base()] == l[i]
  {
    var r := LastFile(l, l[i].Base());
    assert i <= r;
    assert r == i;
    ExistingFilesLast(l, l[i].Base());
  }

  /** Where `Upsert` writes: at the first item named like `e`, or at the end; every other item
      stays in place and has another name. */
  lemma UpsertShape(l: seq<Entry>, e: Entry)
    requires DistinctBases(l)
    ensures var i := IndexOfBase(l, e.Base());
            var u := Upsert(l, e);
            |u| == (if i < |l| then |l| else |l| + 1) && u[i] == e &&
            forall j :: 0 <= j < |u| && j != i ==> j < |l| && u[j] == l[j] && l[j].Base() != e.Base()
  {
    var i := IndexOfBase(l, e.Base());
    if i < |l| {
      assert forall j :: i < j < |l| ==> l[j].Base() != l[i].Base();
    }
  }

  lemma UpsertDistinct(l: seq<Entry>, e: Entry)
    requires DistinctBases(l)
    ensures DistinctBases(Upsert(l, e))
  {
    UpsertShape(l, e);
  }

  /** A name other than `e`'s keeps its entry of `existing_files`. */
  lemma UpsertOther(l: seq<Entry>, e: Entry, b: string)
    requires DistinctBases(l) && b != e.Base()
    ensures b in ExistingFiles(Upsert(l, e)) <==> b in ExistingFiles(l)
    ensures b in ExistingFiles(l) ==> ExistingFiles(Upsert(l, e))[b] == ExistingFiles(l)[b]
  {
    var u := Upsert(l, e);
    UpsertShape(l, e);
    UpsertDistinct(l, e);
    ExistingFilesKeys(u, b);
    ExistingFilesKeys(l, b);
    if b in ExistingFiles(u) {
      var j :| 0 <= j < |u| && u[j].IsFile() && u[j].Base() == b;
      ExistingFilesAt(u, j);
      ExistingFilesAt(l, j);
    }
  }

  /** Writing a data object into a listing with distinct base names keeps them distinct and puts
      exactly that object under its base name in `existing_files`. */
  lemma UpsertFile(l: seq<Entry>, e: Entry)
    requires DistinctBases(l) && e.IsFile()
    ensures DistinctBases(Upsert(l, e))
    ensures ExistingFiles(Upsert(l, e)) == ExistingFiles(l)[e.Base() := e]
  {
    var u := Upsert(l, e);
    UpsertShape(l, e);
    UpsertDistinct(l, e);
    ExistingFilesAt(u, IndexOfBase(l, e.Base()));
    forall b | b != e.Base()
      ensures (b in ExistingFiles(u) <==> b in ExistingFiles(l))
      ensures b in ExistingFiles(u) ==> ExistingFiles(u)[b] == ExistingFiles(l)[b]
    {
      UpsertOther(l, e, b);
    }
  }

  /** A file the file loop does not skip by name. */
  predicate VisibleFile(f: LocalFile)
  {
    f.name != [] && f.name[0] != '.'
  }

  /** A directory the walk loop does not skip by name. */
  predicate VisibleDir(d: WalkDir)
  {
    d.name != [] && !IgnoredDir(d.name)
  }

  /** `e` is about visible file `f` of directory `dirPath`: its opening, its hashing, or its
      upload to `coll/<f's name>`. */
  predicate FileEventOf(e: Event, dirPath: string, coll: string, f: LocalFile)
  {
    VisibleFile(f) &&
    match e
    case Opened(src) => src == JoinPath(dirPath, f.name)
    case Hashed(src) => src == JoinPath(dirPath, f.name)
    case Uploaded(src, dest) => src == JoinPath(dirPath, f.name) && dest == JoinPath(coll, f.name)
    case _ => false
  }

  /** `e` is about one of the visible files of `files`. */
  predicate FileEvent(e: Event, dirPath: string, coll: string, files: seq<LocalFile>)
  {
    exists j :: 0 <= j < |files| && FileEventOf(e, dirPath, coll, files[j])
  }

  /** `e` is caused by walked directory `d`: `d` is not ignored, and `e` makes or lists its
      collection `dest/rel` or concerns one of its visible files. */
  predicate DirEvent(e: Event, dest: string, d: WalkDir)
  {
    VisibleDir(d) &&
    var coll := JoinPath(dest, d.rel);
    (e == Made(coll) || e == Listed(coll) || FileEvent(e, d.path, coll, d.files))
  }

  /** One file causes only events about itself. */
  lemma SyncFileEvents(s: Store, dirPath: string, coll: string, existing: map<string, Entry>, f: LocalFile,
                       md5: Utils.Bytes -> string, stamp: Utils.Bytes -> string)
    ensures var r := SyncFile(s, dirPath, coll, existing, f, md5, stamp);
            forall k :: 0 <= k < |r.trace| ==> FileEventOf(r.trace[k], dirPath, coll, f)
  {
    if VisibleFile(f) && f.content.Some? {
      var src := JoinPath(dirPath, f.name);
      var dest := JoinPath(coll, f.name);
      var c := f.content.value;
      var r := SyncFile(s, dirPath, coll, existing, f, md5, stamp);
      if f.name in existing && md5(c) == existing[f.name].checksum {
        assert r.trace == [Opened(src), Hashed(src)];
      } else {
        var t := [Opened(src)] + (if f.name in existing then [Hashed(src)] else []) + [Uploaded(src, dest)];
        assert r.trace == t;
        assert forall k :: 0 <= k < |t| ==> t[k] == Opened(src) || t[k] == Hashed(src) || t[k] == Uploaded(src, dest);
      }
    }
  }

  /** The events of the first file followed by those of the rest are all about `files`. */
  lemma FileEventsJoin(trace: seq<Event>, head: seq<Event>, o: seq<Event>, dirPath: string, coll: string,
                       files: seq<LocalFile>)
    requires files != []
    requires forall k :: 0 <= k < |head| ==> FileEventOf(head[k], dirPath, coll, files[0])
    requires |trace + head| <= |o| && o[..|trace + head|] == trace + head
    requires forall k :: |trace + head| <= k < |o| ==> FileEvent(o[k], dirPath, coll, files[1..])
    ensures |trace| <= |o| && o[..|trace|] == trace
    ensures forall k :: |trace| <= k < |o| ==> FileEvent(o[k], dirPath, coll, files)
  {
    var t1 := trace + head;
    forall k | |trace| <= k < |o| ensures FileEvent(o[k], dirPath, coll, files) {
      if k < |t1| {
        assert o[k] == t1[k] == head[k - |trace|];
        assert FileEventOf(o[k], dirPath, coll, files[0]);
      } else {
        var j :| 0 <= j < |files[1..]| && FileEventOf(o[k], dirPath, coll, files[1..][j]);
        assert files[1..][j] == files[j + 1];
      }
    }
    assert o[..|trace|] == t1[..|t1|][..|trace|];
  }

  /** The file loop only adds events about its visible files, each upload going to
      `coll/<the file's name>`. */
  lemma {:induction false} SyncFilesEvents(s: Store, trace: seq<Event>, dirPath: string, coll: string,
                                           existing: map<string, Entry>, files: seq<LocalFile>,
                                           md5: Utils.Bytes -> string, stamp: Utils.Bytes -> string)
    ensures var o := SyncFiles(s, trace, dirPath, coll, existing, files, md5, stamp);
            |trace| <= |o.trace| && o.trace[..|trace|] == trace &&
            forall k :: |trace| <= k < |o.trace| ==> FileEvent(o.trace[k], dirPath, coll, files)
    decreases |files|
  {
    if files != [] {
      var r := SyncFile(s, dirPath, coll, existing, files[0], md5, stamp);
      var t1 := trace + r.trace;
      SyncFileEvents(s, dirPath, coll, existing, files[0], md5, stamp);
      if r.error.Some? {
        assert t1[..|t1|] == t1;
        FileEventsJoin(trace, r.trace, t1, dirPath, coll, files);
      } else {
        SyncFilesEvents(r.store, t1, dirPath, coll, existing, files[1..], md5, stamp);
        var o := SyncFiles(r.store, t1, dirPath, coll, existing, files[1..], md5, stamp);
        FileEventsJoin(trace, r.trace, o.trace, dirPath, coll, files);
      }
    }
  }

  /** Making or listing the collection, followed by file events, are all caused by `d`. */
  lemma DirEventsJoin(trace: seq<Event>, e0: Event, o: seq<Event>, dest: string, d: WalkDir)
    requires VisibleDir(d)
    requires e0 == Made(JoinPath(dest, d.rel)) || e0 == Listed(JoinPath(dest, d.rel))
    requires |trace + [e0]| <= |o| && o[..|trace + [e0]|] == trace + [e0]
    requires forall k :: |trace + [e0]| <= k < |o| ==> FileEvent(o[k], d.path, JoinPath(dest, d.rel), d.files)
    ensures |trace| <= |o| && o[..|trace|] == trace
    ensures forall k :: |trace| <= k < |o| ==> DirEvent(o[k], dest, d)
  {
    var t1 := trace + [e0];
    assert o[..|trace|] == t1[..|t1|][..|trace|];
    assert o[|trace|] == t1[|trace|] == e0;
  }

  /** Every event a directory adds is caused by that directory. */
  lemma SyncDirEvents(s: Store, trace: seq<Event>, dest: string, d: WalkDir,
                      md5: Utils.Bytes -> string, stamp: Utils.Bytes -> string)
    ensures var o := SyncDir(s, trace, dest, d, md5, stamp);
            |trace| <= |o.trace| && o.trace[..|trace|] == trace &&
            forall k :: |trace| <= k < |o.trace| ==> DirEvent(o.trace[k], dest, d)
  {
    if VisibleDir(d) {
      var coll := JoinPath(dest, d.rel);
      var s1 := if coll !in s.listing then MkDirState(s, coll) else s;
      var e0 := if coll !in s.listing then Made(coll) else Listed(coll);
      var ex := if coll !in s.listing then map[] else ExistingFiles(s.listing[coll]);
      assert SyncDir(s, trace, dest, d, md5, stamp) == SyncFiles(s1, trace + [e0], d.path, coll, ex, d.files, md5, stamp);
      SyncFilesEvents(s1, trace + [e0], d.path, coll, ex, d.files, md5, stamp);
      var o := SyncFiles(s1, trace + [e0], d.path, coll, ex, d.files, md5, stamp);
      DirEventsJoin(trace, e0, o.trace, dest, d);
    }
  }

  /** The ignore rule does not prune: an ignored directory is passed over on its own, with no
      mkdir, listing or upload, and the walk goes on with the directories after it, its own
      sub-directories included. */
  lemma IgnoredDirSkipped(s: Store, trace: seq<Event>, dest: string, d: WalkDir, rest: seq<WalkDir>,
                          md5: Utils.Bytes -> string, stamp: Utils.Bytes -> string)
    requires d.name != [] && IgnoredDir(d.name)
    ensures SyncWalk(s, trace, dest, [d] + rest, md5, stamp) == SyncWalk(s, trace, dest, rest, md5, stamp)
  {
    assert ([d] + rest)[1..] == rest;
  }

  /** A visible directory below a hidden one, here `.git/objects` below `.git`, is still
      synced: when its collection is new, it is made and its visible files are uploaded into it. */
  lemma HiddenParentDoesNotPrune(s: Store, dest: string, files: seq<LocalFile>, hiddenFiles: seq<LocalFile>,
                                 md5: Utils.Bytes -> string, stamp: Utils.Bytes -> string)
    requires ReadableFiles(files) && JoinPath(dest, ".git/objects") !in s.listing
    ensures var hidden := WalkDir("src/.git", ".git", ".git", hiddenFiles);
            var sub := WalkDir("src/.git/objects", "objects", ".git/objects", files);
            var coll := JoinPath(dest, ".git/objects");
            var o := SyncWalk(s, [], dest, [hidden, sub], md5, stamp);
            o.error == None && o.trace == [Made(coll)] + FreshEvents("src/.git/objects", coll, files)
  {
    var hidden := WalkDir("src/.git", ".git", ".git", hiddenFiles);
    var sub := WalkDir("src/.git/objects", "objects", ".git/objects", files);
    IgnoredDirSkipped(s, [], dest, hidden, [sub], md5, stamp);
    NewCollectionUploadsAll(s, [], dest, sub, md5, stamp);
    assert [hidden, sub] == [hidden] + [sub];
    assert [sub][1..] == [];
  }

  /** Every event of a sync is caused by one of the walked directories: ignored directories
      cause none, dot files are never opened, hashed or uploaded, and a file `fn` of the
      directory at `rel` only ever goes to `dest_collection/rel/fn`. */
  lemma {:induction false} SyncWalkEvents(s: Store, trace: seq<Event>, dest: string, walk: seq<WalkDir>,
                                          md5: Utils.Bytes -> string, stamp: Utils.Bytes -> string)
    ensures var o := SyncWalk(s, trace, dest, walk, md5, stamp);
            |trace| <= |o.trace| && o.trace[..|trace|] == trace &&
            forall k :: |trace| <= k < |o.trace| ==> exists i :: 0 <= i < |walk| && DirEvent(o.trace[k], dest, walk[i])
    decreases |walk|
  {
    if walk != [] {
      var o1 := SyncDir(s, trace, dest, walk[0], md5, stamp);
      SyncDirEvents(s, trace, dest, walk[0], md5, stamp);
      if o1.error.None? {
        SyncWalkEvents(o1.store, o1.trace, dest, walk[1..], md5, stamp);
        var o := SyncWalk(o1.store, o1.trace, dest, walk[1..], md5, stamp);
        forall k | |trace| <= k < |o.trace| ensures exists i :: 0 <= i < |walk| && DirEvent(o.trace[k], dest, walk[i]) {
          if k < |o1.trace| {
            assert o.trace[k] == o1.trace[k];
            assert DirEvent(o.trace[k], dest, walk[0]);
          } else {
            var i :| 0 <= i < |walk[1..]| && DirEvent(o.trace[k], dest, walk[1..][i]);
            assert walk[i + 1] == walk[1..][i];
          }
        }
        assert o.trace[..|trace|] == o1.trace[..|o1.trace|][..|trace|];
      }
    }
  }

  /** A directory the sync can get through: its name is not empty and, unless it is ignored,
      neither is any of its files' names, and every visible file can be opened. */
  predicate ReadableFiles(files: seq<LocalFile>)
  {
    forall j :: 0 <= j < |files| ==> files[j].name != [] && (VisibleFile(files[j]) ==> files[j].content.Some?)
  }

  predicate ReadableDir(d: WalkDir)
  {
    d.name != [] && (VisibleDir(d) ==> ReadableFiles(d.files))
  }

  predicate Readable(walk: seq<WalkDir>)
  {
    forall i :: 0 <= i < |walk| ==> ReadableDir(walk[i])
  }

  lemma {:induction false} SyncFilesRaises(s: Store, trace: seq<Event>, dirPath: string, coll: string,
                                           existing: map<string, Entry>, files: seq<LocalFile>,
                                           md5: Utils.Bytes -> string, stamp: Utils.Bytes -> string)
    ensures SyncFiles(s, trace, dirPath, coll, existing, files, md5, stamp).error.None? <==> ReadableFiles(files)
    decreases |files|
  {
    if files != [] {
      var r := SyncFile(s, dirPath, coll, existing, files[0], md5, stamp);
      if r.error.None? {
        SyncFilesRaises(r.store, trace + r.trace, dirPath, coll, existing, files[1..], md5, stamp);
        if ReadableFiles(files[1..]) {
          forall j | 0 <= j < |files| ensures files[j].name != [] && (VisibleFile(files[j]) ==> files[j].content.Some?) {
            if j > 0 {
              assert files[j] == files[1..][j - 1];
            }
          }
        }
      }
    }
  }

  /** One directory raises exactly when it is not `ReadableDir`. */
  lemma SyncDirRaises(s: Store, trace: seq<Event>, dest: string, d: WalkDir,
                      md5: Utils.Bytes -> string, stamp: Utils.Bytes -> string)
    ensures SyncDir(s, trace, dest, d, md5, stamp).error.None? <==> ReadableDir(d)
  {
    if VisibleDir(d) {
      var coll := JoinPath(dest, d.rel);
      if coll !in s.listing {
        SyncFilesRaises(MkDirState(s, coll), trace + [Made(coll)], d.path, coll, map[], d.files, md5, stamp);
      } else {
        SyncFilesRaises(s, trace + [Listed(coll)], d.path, coll, ExistingFiles(s.listing[coll]), d.files, md5, stamp);
      }
    }
  }

  /** `sync_to_irods` raises exactly when some directory has an empty name (IndexError at
      `the_dir.name[0]`, as for a `src_dir` of '.'), or a directory it does not ignore has a file
      with an empty name (IndexError) or a visible file it cannot open (OSError). */
  lemma {:induction false} SyncRaisesIff(s: Store, trace: seq<Event>, dest: string, walk: seq<WalkDir>,
                                         md5: Utils.Bytes -> string, stamp: Utils.Bytes -> string)
    ensures SyncWalk(s, trace, dest, walk, md5, stamp).error.None? <==> Readable(walk)
    decreases |walk|
  {
    if walk != [] {
      var d := walk[0];
      var o1 := SyncDir(s, trace, dest, d, md5, stamp);
      SyncDirRaises(s, trace, dest, d, md5, stamp);
      if o1.error.None? {
        SyncRaisesIff(o1.store, o1.trace, dest, walk[1..], md5, stamp);
        if Readable(walk[1..]) {
          forall i | 0 <= i < |walk| ensures ReadableDir(walk[i]) {
            if i > 0 {
              assert walk[i] == walk[1..][i - 1];
            }
          }
        }
      }
    }
  }

  /** The events of uploading one file into a new collection: a visible file is opened and
      then uploaded. */
  function FreshFileEvents(dirPath: string, coll: string, f: LocalFile): seq<Event>
  {
    var src := JoinPath(dirPath, f.name);
    if VisibleFile(f) then [Opened(src), Uploaded(src, JoinPath(coll, f.name))] else []
  }

  /** The same for every file of a directory, in order. */
  function FreshEvents(dirPath: string, coll: string, files: seq<LocalFile>): seq<Event>
    decreases |files|
  {
    if files == [] then []
    else FreshFileEvents(dirPath, coll, files[0]) + FreshEvents(dirPath, coll, files[1..])
  }

  /** Into a new collection every visible file is uploaded, to `coll/fn`, and none is hashed. */
  lemma {:induction false} FreshEventsUploadAll(dirPath: string, coll: string, files: seq<LocalFile>)
    ensures var r := FreshEvents(dirPath, coll, files);
            && (forall k :: 0 <= k < |r| ==> !r[k].Hashed?)
            && (forall j :: 0 <= j < |files| && VisibleFile(files[j]) ==>
                  Uploaded(JoinPath(dirPath, files[j].name), JoinPath(coll, files[j].name)) in r)
    decreases |files|
  {
    if files != [] {
      FreshEventsUploadAll(dirPath, coll, files[1..]);
      var head := FreshFileEvents(dirPath, coll, files[0]);
      var tail := FreshEvents(dirPath, coll, files[1..]);
      assert forall k :: 0 <= k < |head| ==> !head[k].Hashed?;
      assert forall k :: 0 <= k < |head + tail| ==> (head + tail)[k] == if k < |head| then head[k] else tail[k - |head|];
      assert forall j :: 1 <= j < |files| ==> files[j] == files[1..][j - 1];
    }
  }

  /** One file of a directory with no existing data objects. */
  lemma SyncFileFresh(s: Store, dirPath: string, coll: string, f: LocalFile,
                      md5: Utils.Bytes -> string, stamp: Utils.Bytes -> string)
    requires f.name != [] && (VisibleFile(f) ==> f.content.Some?)
    ensures SyncFile(s, dirPath, coll, map[], f, md5, stamp).error == None
    ensures SyncFile(s, dirPath, coll, map[], f, md5, stamp).trace == FreshFileEvents(dirPath, coll, f)
  {
  }

  lemma EventsAssoc(a: seq<Event>, b: seq<Event>, c: seq<Event>)
    ensures (a + b) + c == a + (b + c)
  {
  }

  lemma ReadableTail(files: seq<LocalFile>)
    requires files != [] && ReadableFiles(files)
    ensures files[0].name != [] && (VisibleFile(files[0]) ==> files[0].content.Some?)
    ensures ReadableFiles(files[1..])
  {
    forall j | 0 <= j < |files[1..]| ensures files[1..][j] == files[j + 1] { }
  }

  lemma {:induction false} SyncFilesFresh(s: Store, trace: seq<Event>, dirPath: string, coll: string, files: seq<LocalFile>,
                                          md5: Utils.Bytes -> string, stamp: Utils.Bytes -> string)
    requires ReadableFiles(files)
    ensures var o := SyncFiles(s, trace, dirPath, coll, map[], files, md5, stamp);
            o.error == None && o.trace == trace + FreshEvents(dirPath, coll, files)
    decreases |files|
  {
    if files != [] {
      var r := SyncFile(s, dirPath, coll, map[], files[0], md5, stamp);
      var head := FreshFileEvents(dirPath, coll, files[0]);
      var tail := FreshEvents(dirPath, coll, files[1..]);
      assert r.error == None && r.trace == head by {
        ReadableTail(files);
        SyncFileFresh(s, dirPath, coll, files[0], md5, stamp);
      }
      var o := SyncFiles(r.store, trace + r.trace, dirPath, coll, map[], files[1..], md5, stamp);
      assert o.error == None && o.trace == (trace + head) + tail by {
        ReadableTail(files);
        SyncFilesFresh(r.store, trace + r.trace, dirPath, coll, files[1..], md5, stamp);
      }
      assert SyncFiles(s, trace, dirPath, coll, map[], files, md5, stamp) == o;
      EventsAssoc(trace, head, tail);
    }
  }

  /** A directory whose collection does not exist yet: the collection is made, and then every
      visible file is opened and uploaded, with no checksum computed. */
  lemma NewCollectionUploadsAll(s: Store, trace: seq<Event>, dest: string, d: WalkDir,
                                md5: Utils.Bytes -> string, stamp: Utils.Bytes -> string)
    requires VisibleDir(d) && ReadableFiles(d.files) && JoinPath(dest, d.rel) !in s.listing
    ensures var coll := JoinPath(dest, d.rel);
            var o := SyncDir(s, trace, dest, d, md5, stamp);
            o.error == None && o.trace == trace + [Made(coll)] + FreshEvents(d.path, coll, d.files)
  {
    var coll := JoinPath(dest, d.rel);
    FreshEventsUploadAll(d.path, coll, d.files);
    SyncFilesFresh(MkDirState(s, coll), trace + [Made(coll)], d.path, coll, d.files, md5, stamp);
  }

  /** The destinations of the uploads among `trace`, in order. */
  function Uploads(trace: seq<Event>): (r: seq<string>)
    ensures |r| <= |trace|
    ensures forall x :: x in r <==> exists k :: 0 <= k < |trace| && trace[k].Uploaded? && trace[k].dest == x
    decreases |trace|
  {
    if trace == [] then []
    else
      var r := (if trace[0].Uploaded? then [trace[0].dest] else []) + Uploads(trace[1..]);
      assert forall k :: 1 <= k < |trace| ==> trace[k] == trace[1..][k - 1];
      r
  }

  lemma {:induction false} UploadsConcat(a: seq<Event>, b: seq<Event>)
    ensures Uploads(a + b) == Uploads(a) + Uploads(b)
    decreases |a|
  {
    if a != [] {
      assert (a + b)[1..] == a[1..] + b;
      UploadsConcat(a[1..], b);
    } else {
      assert a + b == b;
    }
  }

  /** The per-file decision: a visible, readable file is skipped (nothing uploaded, nothing
      changed) exactly when its name is among the existing data objects and its MD5 equals that
      object's checksum; otherwise `put_file` is called exactly once, for `coll/fn`. It is hashed
      exactly when its name is among the existing data objects. */
  lemma SkipExactlyWhenChecksumsMatch(s: Store, dirPath: string, coll: string, existing: map<string, Entry>,
                                      f: LocalFile, md5: Utils.Bytes -> string, stamp: Utils.Bytes -> string)
    requires VisibleFile(f) && f.content.Some?
    ensures var o := SyncFile(s, dirPath, coll, existing, f, md5, stamp);
            var matched := f.name in existing && md5(f.content.value) == existing[f.name].checksum;
            var dest := JoinPath(coll, f.name);
            && o.error == None
            && (matched ==> o.store == s && Uploads(o.trace) == [])
            && (!matched ==> o.store == PutState(s, dest, f.content.value, stamp) && Uploads(o.trace) == [dest])
            && ((exists k :: 0 <= k < |o.trace| && o.trace[k].Hashed?) <==> f.name in existing)
  {
    var src := JoinPath(dirPath, f.name);
    var dest := JoinPath(coll, f.name);
    SyncFileCases(s, dirPath, coll, existing, f, md5, stamp);
    UploadsOfFileTraces(src, dest);
    var o := SyncFile(s, dirPath, coll, existing, f, md5, stamp);
    if f.name in existing {
      assert o.trace[1].Hashed?;
    } else {
      assert !o.trace[0].Hashed? && !o.trace[1].Hashed?;
    }
  }

  /** The three outcomes of `SyncFile` for a visible file that can be opened. */
  lemma SyncFileCases(s: Store, dirPath: string, coll: string, existing: map<string, Entry>,
                      f: LocalFile, md5: Utils.Bytes -> string, stamp: Utils.Bytes -> string)
    requires VisibleFile(f) && f.content.Some?
    ensures var src := JoinPath(dirPath, f.name);
            var dest := JoinPath(coll, f.name);
            SyncFile(s, dirPath, coll, existing, f, md5, stamp) ==
              if f.name in existing && md5(f.content.value) == existing[f.name].checksum then
                Outcome(s, [Opened(src), Hashed(src)], None)
              else if f.name in existing then
                Outcome(PutState(s, dest, f.content.value, stamp), [Opened(src), Hashed(src), Uploaded(src, dest)], None)
              else
                Outcome(PutState(s, dest, f.content.value, stamp), [Opened(src), Uploaded(src, dest)], None)
  {
    var src := JoinPath(dirPath, f.name);
    var dest := JoinPath(coll, f.name);
    assert [Opened(src)] + [Hashed(src)] + [Uploaded(src, dest)] == [Opened(src), Hashed(src), Uploaded(src, dest)];
    assert [Opened(src)] + [] + [Uploaded(src, dest)] == [Opened(src), Uploaded(src, dest)];
  }

  /** The uploads recorded by each of the three traces `SyncFile` can leave. */
  lemma UploadsOfFileTraces(src: string, dest: string)
    ensures Uploads([Opened(src), Hashed(src)]) == []
    ensures Uploads([Opened(src), Hashed(src), Uploaded(src, dest)]) == [dest]
    ensures Uploads([Opened(src), Uploaded(src, dest)]) == [dest]
  {
    assert [Hashed(src)][1..] == [] && [Uploaded(src, dest)][1..] == [];
    assert Uploads([Hashed(src)]) == [];
    assert Uploads([Uploaded(src, dest)]) == [dest];
    assert [Opened(src), Hashed(src)][1..] == [Hashed(src)];
    assert [Hashed(src), Uploaded(src, dest)][1..] == [Uploaded(src, dest)];
    assert Uploads([Hashed(src), Uploaded(src, dest)]) == [dest];
    assert [Opened(src), Hashed(src), Uploaded(src, dest)][1..] == [Hashed(src), Uploaded(src, dest)];
    assert [Opened(src), Uploaded(src, dest)][1..] == [Uploaded(src, dest)];
  }

  /** Some upload in `dests` wrote an item named `b` into collection `c`. */
  ghost predicate Overwritten(dests: seq<string>, c: string, b: string)
  {
    exists x :: x in dests && Collection(x) == c && Text.Basename(x) == b
  }

  /** Nothing of `s` is gone from `s'`: every collection is still there; every listed item is
      still listed unless an upload in `dests` wrote an item of the same name into its
      collection; every data object is still there and holds the same bytes unless it is in
      `dests`. */
  ghost predicate Kept(s: Store, s': Store, dests: seq<string>)
  {
    && (forall c :: c in s.listing ==> c in s'.listing)
    && (forall c, e :: c in s.listing && e in s.listing[c] ==>
          c in s'.listing && (e in s'.listing[c] || Overwritten(dests, c, e.Base())))
    && (forall p :: p in s.data ==> p in s'.data && (s'.data[p] == s.data[p] || p in dests))
  }

  lemma KeptTrans(s1: Store, s2: Store, s3: Store, a: seq<string>, b: seq<string>)
    requires Kept(s1, s2, a) && Kept(s2, s3, b)
    ensures Kept(s1, s3, a + b)
  {
    forall c, e | c in s1.listing && e in s1.listing[c]
      ensures c in s3.listing && (e in s3.listing[c] || Overwritten(a + b, c, e.Base()))
    {
      if e !in s2.listing[c] {
        assert Overwritten(a, c, e.Base());
        var x :| x in a && Collection(x) == c && Text.Basename(x) == e.Base();
        assert x in a + b;
      } else if e !in s3.listing[c] {
        var x :| x in b && Collection(x) == c && Text.Basename(x) == e.Base();
        assert x in a + b;
      }
    }
  }

  lemma KeptThen(s1: Store, s2: Store, s3: Store, a: seq<Event>, b: seq<Event>)
    requires Kept(s1, s2, Uploads(a)) && Kept(s2, s3, Uploads(b))
    ensures Kept(s1, s3, Uploads(a + b))
  {
    KeptTrans(s1, s2, s3, Uploads(a), Uploads(b));
    UploadsConcat(a, b);
  }

  /** Upserting only ever replaces the item with the new item's name. */
  lemma UpsertKeeps(l: seq<Entry>, e0: Entry, e: Entry)
    requires e in l
    ensures e in Upsert(l, e0) || e.Base() == e0.Base()
  {
    var i := IndexOfBase(l, e0.Base());
    var k :| 0 <= k < |l| && l[k] == e;
    if i < |l| && k != i {
      assert Upsert(l, e0)[k] == e;
    } else if i == |l| {
      assert Upsert(l, e0)[k] == e;
    }
  }

  lemma PutKept(s: Store, dest: string, content: Utils.Bytes, stamp: Utils.Bytes -> string)
    ensures Kept(s, PutState(s, dest, content, stamp), [dest])
  {
    var s' := PutState(s, dest, content, stamp);
    var e0 := Entry(dest, "file", stamp(content));
    forall c, e | c in s.listing && e in s.listing[c]
      ensures c in s'.listing && (e in s'.listing[c] || Overwritten([dest], c, e.Base()))
    {
      if c == Collection(dest) {
        UpsertKeeps(s.listing[c], e0, e);
        if e !in s'.listing[c] {
          assert dest in [dest];
        }
      }
    }
  }

  lemma SyncFileKept(s: Store, dirPath: string, coll: string, existing: map<string, Entry>,
                      f: LocalFile, md5: Utils.Bytes -> string, stamp: Utils.Bytes -> string)
    ensures var r := SyncFile(s, dirPath, coll, existing, f, md5, stamp);
            Kept(s, r.store, Uploads(r.trace))
  {
    if VisibleFile(f) && f.content.Some? {
      SkipExactlyWhenChecksumsMatch(s, dirPath, coll, existing, f, md5, stamp);
      PutKept(s, JoinPath(coll, f.name), f.content.value, stamp);
    }
  }

  /** A step that keeps `s` in `s2`, followed by a run that keeps `s2` in the final store. */
  lemma KeptStep(s: Store, s2: Store, trace: seq<Event>, rt: seq<Event>, o: Outcome)
    requires |trace + rt| <= |o.trace| && o.trace[..|trace + rt|] == trace + rt
    requires Kept(s, s2, Uploads(rt)) && Kept(s2, o.store, Uploads(o.trace[|trace + rt|..]))
    ensures |trace| <= |o.trace| && Kept(s, o.store, Uploads(o.trace[|trace|..]))
  {
    assert o.trace[|trace|..] == rt + o.trace[|trace + rt|..];
    KeptThen(s, s2, o.store, rt, o.trace[|trace + rt|..]);
  }

  /** The file loop only appends to the events. */
  lemma {:induction false} SyncFilesExtends(s: Store, trace: seq<Event>, dirPath: string, coll: string,
                                            existing: map<string, Entry>, files: seq<LocalFile>,
                                            md5: Utils.Bytes -> string, stamp: Utils.Bytes -> string)
    ensures var o := SyncFiles(s, trace, dirPath, coll, existing, files, md5, stamp);
            |trace| <= |o.trace| && o.trace[..|trace|] == trace
    decreases |files|
  {
    if files != [] {
      var r := SyncFile(s, dirPath, coll, existing, files[0], md5, stamp);
      if r.error.None? {
        var t1 := trace + r.trace;
        SyncFilesExtends(r.store, t1, dirPath, coll, existing, files[1..], md5, stamp);
        var o := SyncFiles(r.store, t1, dirPath, coll, existing, files[1..], md5, stamp);
        assert o.trace[..|trace|] == t1[..|t1|][..|trace|];
      }
    }
  }

  lemma {:induction false} SyncFilesKept(s: Store, trace: seq<Event>, dirPath: string, coll: string,
                                         existing: map<string, Entry>, files: seq<LocalFile>,
                                         md5: Utils.Bytes -> string, stamp: Utils.Bytes -> string)
    ensures var o := SyncFiles(s, trace, dirPath, coll, existing, files, md5, stamp);
            |trace| <= |o.trace| && Kept(s, o.store, Uploads(o.trace[|trace|..]))
    decreases |files|
  {
    SyncFilesExtends(s, trace, dirPath, coll, existing, files, md5, stamp);
    var o := SyncFiles(s, trace, dirPath, coll, existing, files, md5, stamp);
    if files == [] {
      assert o.trace[|trace|..] == [];
    } else {
      var f := files[0];
      var r := SyncFile(s, dirPath, coll, existing, f, md5, stamp);
      SyncFileKept(s, dirPath, coll, existing, f, md5, stamp);
      var t1 := trace + r.trace;
      if r.error.Some? {
        assert o.trace[|trace|..] == r.trace;
      } else {
        SyncFilesKept(r.store, t1, dirPath, coll, existing, files[1..], md5, stamp);
        SyncFilesExtends(r.store, t1, dirPath, coll, existing, files[1..], md5, stamp);
        KeptStep(s, r.store, trace, r.trace, o);
      }
    }
  }

  lemma MkDirKept(s: Store, p: string)
    ensures Kept(s, MkDirState(s, p), [])
  {
  }

  lemma KeptRefl(s: Store)
    ensures Kept(s, s, [])
  {
  }

  /** One directory keeps everything and only appends to the events. */
  lemma SyncDirKept(s: Store, trace: seq<Event>, dest: string, d: WalkDir,
                    md5: Utils.Bytes -> string, stamp: Utils.Bytes -> string)
    ensures var o := SyncDir(s, trace, dest, d, md5, stamp);
            |trace| <= |o.trace| && o.trace[..|trace|] == trace && Kept(s, o.store, Uploads(o.trace[|trace|..]))
  {
    var o := SyncDir(s, trace, dest, d, md5, stamp);
    if d.name == [] || IgnoredDir(d.name) {
      assert o.trace[|trace|..] == [];
      KeptRefl(s);
    } else {
      var coll := JoinPath(dest, d.rel);
      var s1, e, ex := if coll !in s.listing then MkDirState(s, coll) else s,
                       if coll !in s.listing then Made(coll) else Listed(coll),
                       if coll !in s.listing then map[] else ExistingFiles(s.listing[coll]);
      assert o == SyncFiles(s1, trace + [e], d.path, coll, ex, d.files, md5, stamp);
      MkDirKept(s, coll);
      KeptRefl(s);
      assert Kept(s, s1, Uploads([e]));
      SyncFilesKept(s1, trace + [e], d.path, coll, ex, d.files, md5, stamp);
      SyncFilesExtends(s1, trace + [e], d.path, coll, ex, d.files, md5, stamp);
      KeptStep(s, s1, trace, [e], o);
      assert o.trace[..|trace|] == (trace + [e])[..|trace|];
    }
  }

  lemma {:induction false} SyncWalkKept(s: Store, trace: seq<Event>, dest: string, walk: seq<WalkDir>,
                                        md5: Utils.Bytes -> string, stamp: Utils.Bytes -> string)
    ensures var o := SyncWalk(s, trace, dest, walk, md5, stamp);
            |trace| <= |o.trace| && o.trace[..|trace|] == trace && Kept(s, o.store, Uploads(o.trace[|trace|..]))
    decreases |walk|
  {
    var o := SyncWalk(s, trace, dest, walk, md5, stamp);
    if walk == [] {
      assert o.trace[|trace|..] == [];
      KeptRefl(s);
    } else {
      var o1 := SyncDir(s, trace, dest, walk[0], md5, stamp);
      SyncDirKept(s, trace, dest, walk[0], md5, stamp);
      if o1.error.None? {
        SyncWalkKept(o1.store, o1.trace, dest, walk[1..], md5, stamp);
        var rt := o1.trace[|trace|..];
        assert trace + rt == o1.trace;
        KeptStep(s, o1.store, trace, rt, o);
        assert o.trace[..|trace|] == o1.trace[..|trace|];
      }
    }
  }

  /** `sync_to_irods` never deletes: every collection and every listed item of the store it
      started from is still there, except items replaced by an upload of the same name into the
      same collection, and every data object still holds its bytes unless it was uploaded to.
      This holds whether or not the run raised. */
  lemma SyncNeverDeletes(s: Store, dest: string, walk: seq<WalkDir>,
                         md5: Utils.Bytes -> string, stamp: Utils.Bytes -> string)
    ensures var o := SyncWalk(s, [], dest, walk, md5, stamp);
            Kept(s, o.store, Uploads(o.trace))
  {
    SyncWalkKept(s, [], dest, walk, md5, stamp);
    var o := SyncWalk(s, [], dest, walk, md5, stamp);
    assert o.trace[0..] == o.trace;
  }
}
