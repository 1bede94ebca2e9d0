/** Idempotence of `sync_to_irods` (exao_dap_client/data_store.py): when the store stamps each
    uploaded object with the same MD5 the client computes, a second run over an unchanged local
    tree uploads nothing and leaves the store as the first run left it. */
module SyncProperties {
  import opened Wrappers
  import opened DataStore
  import Text
  import Utils

  /** A name `os.walk` can list inside a directory: it holds no '/'. */
  predicate NoSlash(fn: string)
  {
    forall i :: 0 <= i < |fn| ==> fn[i] != '/'
  }

  /** A collection path that `os.path.join` extends with a '/': not empty, no trailing '/'. */
  predicate CollectionPath(c: string)
  {
    c != [] && c[|c| - 1] != '/'
  }

  /** What `os.walk` yields for one directory: file names without '/', no name twice; and a
      destination collection that a file name is joined onto with a '/'. */
  predicate WellFormedDir(dest: string, d: WalkDir)
  {
    && (VisibleDir(d) ==> CollectionPath(JoinPath(dest, d.rel)))
    && (forall j :: 0 <= j < |d.files| ==> NoSlash(d.files[j].name))
    && (forall i, j :: 0 <= i < j < |d.files| ==> d.files[i].name != d.files[j].name)
  }

  /** Every directory well formed, and no two directories the sync visits sharing a collection. */
  predicate WellFormedWalk(dest: string, walk: seq<WalkDir>)
  {
    && (forall i :: 0 <= i < |walk| ==> WellFormedDir(dest, walk[i]))
    && (forall i, j :: 0 <= i < j < |walk| && VisibleDir(walk[i]) && VisibleDir(walk[j]) ==>
          JoinPath(dest, walk[i].rel) != JoinPath(dest, walk[j].rel))
  }

  /** `existing_files` of collection `c` as the sync would collect it from `s`. */
  function Existing(s: Store, c: string): map<string, Entry>
  {
    if c in s.listing then ExistingFiles(s.listing[c]) else map[]
  }

  /** Two maps agree at key `n`. */
  predicate SameAt(m1: map<string, Entry>, m2: map<string, Entry>, n: string)
  {
    (n in m1 <==> n in m2) && (n in m1 ==> m1[n] == m2[n])
  }

  /** The store holds a data object named like `f` in `coll` whose checksum is the MD5 of `f`
      (for a file the sync does not skip). */
  predicate Mirrors(s: Store, coll: string, f: LocalFile, md5: Utils.Bytes -> string)
  {
    VisibleFile(f) && f.content.Some? ==>
      f.name in Existing(s, coll) && Existing(s, coll)[f.name].checksum == md5(f.content.value)
  }

  /** `coll` exists and mirrors every file of `files`. */
  predicate Mirrored(s: Store, coll: string, files: seq<LocalFile>, md5: Utils.Bytes -> string)
  {
    coll in s.listing && forall j :: 0 <= j < |files| ==> Mirrors(s, coll, files[j], md5)
  }

  /** Joining a file name onto a collection path puts the file in that collection under that
      name. */
  lemma JoinChild(coll: string, fn: string)
    requires CollectionPath(coll) && fn != [] && NoSlash(fn)
    ensures JoinPath(coll, fn) == coll + "/" + fn
    ensures Collection(JoinPath(coll, fn)) == coll
    ensures Text.Basename(JoinPath(coll, fn)) == fn
  {
    var p := coll + "/" + fn;
    assert JoinPath(coll, fn) == p;
    assert p[|coll|] == '/';
    assert forall i :: |coll| < i < |p| ==> p[i] == fn[i - |coll| - 1];
    var r := Text.RFind(p, '/');
    assert r == |coll|;
    assert p[..r] == coll;
    var k := Text.BaseStart(p);
    assert k == |coll| + 1;
    assert p[k..] == fn;
  }

  /** One file step, whatever it does: the store stays valid, no collection appears or
      disappears, collections other than `coll` are untouched, and so is `existing_files` of
      `coll` at every name other than the file's. */
  lemma SyncFileFrame(s: Store, dirPath: string, coll: string, existing: map<string, Entry>,
                      f: LocalFile, md5: Utils.Bytes -> string, stamp: Utils.Bytes -> string, n: string)
    requires Valid(s) && coll in s.listing && CollectionPath(coll) && NoSlash(f.name)
    ensures var r := SyncFile(s, dirPath, coll, existing, f, md5, stamp);
            && Valid(r.store)
            && r.store.listing.Keys == s.listing.Keys
            && (forall c :: c in s.listing && c != coll ==> r.store.listing[c] == s.listing[c])
            && (n != f.name ==> SameAt(Existing(s, coll), Existing(r.store, coll), n))
  {
    var r := SyncFile(s, dirPath, coll, existing, f, md5, stamp);
    if r.store != s {
      var c := f.content.value;
      var dest := JoinPath(coll, f.name);
      JoinChild(coll, f.name);
      var e := Entry(dest, "file", stamp(c));
      assert r.store == PutState(s, dest, c, stamp);
      UpsertFile(s.listing[coll], e);
    }
  }

  /** One file step with `existing_files` agreeing with the store at the file's name, and the
      store stamping with `md5`: afterwards the store mirrors the file. */
  lemma SyncFileMirrors(s: Store, dirPath: string, coll: string, existing: map<string, Entry>,
                        f: LocalFile, md5: Utils.Bytes -> string)
    requires Valid(s) && coll in s.listing && CollectionPath(coll) && NoSlash(f.name)
    requires f.name in existing ==> f.name in Existing(s, coll) && Existing(s, coll)[f.name] == existing[f.name]
    ensures Mirrors(SyncFile(s, dirPath, coll, existing, f, md5, md5).store, coll, f, md5)
  {
    if VisibleFile(f) && f.content.Some? {
      var c := f.content.value;
      if !(f.name in existing && md5(c) == existing[f.name].checksum) {
        var dest := JoinPath(coll, f.name);
        JoinChild(coll, f.name);
        UpsertFile(s.listing[coll], Entry(dest, "file", md5(c)));
      }
    }
  }

  /** The file loop keeps what one step keeps; at a name none of the files has,
      `existing_files` of `coll` is untouched. */
  lemma {:induction false} SyncFilesFrame(s: Store, trace: seq<Event>, dirPath: string, coll: string,
                                          existing: map<string, Entry>, files: seq<LocalFile>,
                                          md5: Utils.Bytes -> string, stamp: Utils.Bytes -> string, n: string)
    requires Valid(s) && coll in s.listing && CollectionPath(coll)
    requires forall j :: 0 <= j < |files| ==> NoSlash(files[j].name)
    ensures var o := SyncFiles(s, trace, dirPath, coll, existing, files, md5, stamp);
            && Valid(o.store)
            && o.store.listing.Keys == s.listing.Keys
            && (forall c :: c in s.listing && c != coll ==> o.store.listing[c] == s.listing[c])
            && ((forall j :: 0 <= j < |files| ==> files[j].name != n) ==>
                  SameAt(Existing(s, coll), Existing(o.store, coll), n))
    decreases |files|
  {
    if files != [] {
      var r := SyncFile(s, dirPath, coll, existing, files[0], md5, stamp);
      SyncFileFrame(s, dirPath, coll, existing, files[0], md5, stamp, n);
      if r.error.None? {
        assert forall j :: 0 <= j < |files[1..]| ==> files[1..][j] == files[j + 1];
        SyncFilesFrame(r.store, trace + r.trace, dirPath, coll, existing, files[1..], md5, stamp, n);
      }
    }
  }

  /** The first run over one directory's files: with `existing_files` agreeing with the store at
      every file's name, the store ends up mirroring every file. */
  lemma {:induction false} SyncFilesMirror(s: Store, trace: seq<Event>, dirPath: string, coll: string,
                                           existing: map<string, Entry>, files: seq<LocalFile>,
                                           md5: Utils.Bytes -> string)
    requires Valid(s) && coll in s.listing && CollectionPath(coll) && ReadableFiles(files)
    requires forall j :: 0 <= j < |files| ==> NoSlash(files[j].name)
    requires forall i, j :: 0 <= i < j < |files| ==> files[i].name != files[j].name
    requires forall j :: 0 <= j < |files| && files[j].name in existing ==>
               files[j].name in Existing(s, coll) && Existing(s, coll)[files[j].name] == existing[files[j].name]
    ensures Mirrored(SyncFiles(s, trace, dirPath, coll, existing, files, md5, md5).store, coll, files, md5)
    decreases |files|
  {
    var o := SyncFiles(s, trace, dirPath, coll, existing, files, md5, md5);
    if files != [] {
      var f := files[0];
      var rest := files[1..];
      var r := SyncFile(s, dirPath, coll, existing, f, md5, md5);
      SyncFileMirrors(s, dirPath, coll, existing, f, md5);
      SyncFileFrame(s, dirPath, coll, existing, f, md5, md5, f.name);
      assert r.error.None?;
      assert forall j :: 0 <= j < |rest| ==> rest[j] == files[j + 1];
      forall j | 0 <= j < |rest| && rest[j].name in existing
        ensures rest[j].name in Existing(r.store, coll) && Existing(r.store, coll)[rest[j].name] == existing[rest[j].name]
      {
        SyncFileFrame(s, dirPath, coll, existing, f, md5, md5, rest[j].name);
      }
      SyncFilesMirror(r.store, trace + r.trace, dirPath, coll, existing, rest, md5);
      SyncFilesFrame(r.store, trace + r.trace, dirPath, coll, existing, rest, md5, md5, f.name);
      assert Mirrors(o.store, coll, f, md5);
      forall j | 0 <= j < |files| ensures Mirrors(o.store, coll, files[j], md5) {
        if j > 0 {
          assert files[j] == rest[j - 1];
        }
      }
    }
  }

  /** One directory keeps the store valid, and leaves every collection other than its own as it
      was. */
  lemma SyncDirFrame(s: Store, trace: seq<Event>, dest: string, d: WalkDir,
                     md5: Utils.Bytes -> string, stamp: Utils.Bytes -> string, c: string)
    requires Valid(s) && WellFormedDir(dest, d)
    ensures var o := SyncDir(s, trace, dest, d, md5, stamp);
            && Valid(o.store)
            && (c in s.listing && (VisibleDir(d) ==> c != JoinPath(dest, d.rel)) ==>
                  c in o.store.listing && o.store.listing[c] == s.listing[c])
  {
    if VisibleDir(d) {
      var coll := JoinPath(dest, d.rel);
      if coll !in s.listing {
        SyncFilesFrame(MkDirState(s, coll), trace + [Made(coll)], d.path, coll, map[], d.files, md5, stamp, c);
      } else {
        SyncFilesFrame(s, trace + [Listed(coll)], d.path, coll, ExistingFiles(s.listing[coll]), d.files, md5, stamp, c);
      }
    }
  }

  /** The first run over one directory leaves its collection mirroring its files. */
  lemma SyncDirMirror(s: Store, trace: seq<Event>, dest: string, d: WalkDir, md5: Utils.Bytes -> string)
    requires Valid(s) && WellFormedDir(dest, d) && VisibleDir(d) && ReadableDir(d)
    ensures Mirrored(SyncDir(s, trace, dest, d, md5, md5).store, JoinPath(dest, d.rel), d.files, md5)
  {
    var coll := JoinPath(dest, d.rel);
    if coll !in s.listing {
      SyncFilesMirror(MkDirState(s, coll), trace + [Made(coll)], d.path, coll, map[], d.files, md5);
    } else {
      SyncFilesMirror(s, trace + [Listed(coll)], d.path, coll, ExistingFiles(s.listing[coll]), d.files, md5);
    }
  }

  /** The walk keeps the store valid and leaves alone every collection none of its visited
      directories maps to. */
  lemma {:induction false} SyncWalkFrame(s: Store, trace: seq<Event>, dest: string, walk: seq<WalkDir>,
                                         md5: Utils.Bytes -> string, stamp: Utils.Bytes -> string, c: string)
    requires Valid(s) && forall i :: 0 <= i < |walk| ==> WellFormedDir(dest, walk[i])
    ensures var o := SyncWalk(s, trace, dest, walk, md5, stamp);
            && Valid(o.store)
            && (c in s.listing && (forall i :: 0 <= i < |walk| && VisibleDir(walk[i]) ==> c != JoinPath(dest, walk[i].rel)) ==>
                  c in o.store.listing && o.store.listing[c] == s.listing[c])
    decreases |walk|
  {
    if walk != [] {
      var o1 := SyncDir(s, trace, dest, walk[0], md5, stamp);
      SyncDirFrame(s, trace, dest, walk[0], md5, stamp, c);
      if o1.error.None? {
        assert forall i :: 0 <= i < |walk[1..]| ==> walk[1..][i] == walk[i + 1];
        SyncWalkFrame(o1.store, o1.trace, dest, walk[1..], md5, stamp, c);
      }
    }
  }

  /** After the first run, every directory it visits has its collection mirroring its files. */
  lemma {:induction false} SyncWalkMirror(s: Store, trace: seq<Event>, dest: string, walk: seq<WalkDir>,
                                          md5: Utils.Bytes -> string)
    requires Valid(s) && WellFormedWalk(dest, walk) && Readable(walk)
    ensures var o := SyncWalk(s, trace, dest, walk, md5, md5);
            forall i :: 0 <= i < |walk| && VisibleDir(walk[i]) ==> Mirrored(o.store, JoinPath(dest, walk[i].rel), walk[i].files, md5)
    decreases |walk|
  {
    var o := SyncWalk(s, trace, dest, walk, md5, md5);
    if walk != [] {
      var d := walk[0];
      var rest := walk[1..];
      var o1 := SyncDir(s, trace, dest, d, md5, md5);
      SyncDirRaises(s, trace, dest, d, md5, md5);
      SyncDirFrame(s, trace, dest, d, md5, md5, "");
      assert forall i :: 0 <= i < |rest| ==> rest[i] == walk[i + 1];
      SyncWalkMirror(o1.store, o1.trace, dest, rest, md5);
      if VisibleDir(d) {
        var coll := JoinPath(dest, d.rel);
        SyncDirMirror(s, trace, dest, d, md5);
        SyncWalkFrame(o1.store, o1.trace, dest, rest, md5, md5, coll);
        assert Mirrored(o.store, coll, d.files, md5);
      }
      forall i | 0 <= i < |walk| && VisibleDir(walk[i])
        ensures Mirrored(o.store, JoinPath(dest, walk[i].rel), walk[i].files, md5)
      {
        if i > 0 {
          assert walk[i] == rest[i - 1];
        }
      }
    }
  }

  /** A later run over files all mirrored: every visible file matches its checksum and is
      skipped, so nothing changes and nothing is uploaded. */
  lemma {:induction false} SyncFilesSteady(s: Store, trace: seq<Event>, dirPath: string, coll: string,
                                           existing: map<string, Entry>, files: seq<LocalFile>,
                                           md5: Utils.Bytes -> string, stamp: Utils.Bytes -> string)
    requires ReadableFiles(files)
    requires forall j :: 0 <= j < |files| && VisibleFile(files[j]) ==>
               files[j].name in existing && existing[files[j].name].checksum == md5(files[j].content.value)
    ensures var o := SyncFiles(s, trace, dirPath, coll, existing, files, md5, stamp);
            o.store == s && o.error == None && Uploads(o.trace) == Uploads(trace)
    decreases |files|
  {
    if files != [] {
      var r := SyncFile(s, dirPath, coll, existing, files[0], md5, stamp);
      var src := JoinPath(dirPath, files[0].name);
      assert r.trace == [] || r.trace == [Opened(src), Hashed(src)];
      assert Uploads(r.trace) == [];
      UploadsConcat(trace, r.trace);
      assert forall j :: 0 <= j < |files[1..]| ==> files[1..][j] == files[j + 1];
      SyncFilesSteady(s, trace + r.trace, dirPath, coll, existing, files[1..], md5, stamp);
    }
  }

  lemma {:induction false} SyncWalkSteady(s: Store, trace: seq<Event>, dest: string, walk: seq<WalkDir>,
                                          md5: Utils.Bytes -> string, stamp: Utils.Bytes -> string)
    requires Readable(walk)
    requires forall i :: 0 <= i < |walk| && VisibleDir(walk[i]) ==> Mirrored(s, JoinPath(dest, walk[i].rel), walk[i].files, md5)
    ensures var o := SyncWalk(s, trace, dest, walk, md5, stamp);
            o.store == s && o.error == None && Uploads(o.trace) == Uploads(trace)
    decreases |walk|
  {
    if walk != [] {
      var d := walk[0];
      if VisibleDir(d) {
        var coll := JoinPath(dest, d.rel);
        assert Mirrored(s, coll, d.files, md5);
        UploadsConcat(trace, [Listed(coll)]);
        SyncFilesSteady(s, trace + [Listed(coll)], d.path, coll, ExistingFiles(s.listing[coll]), d.files, md5, stamp);
      }
      assert forall i :: 0 <= i < |walk[1..]| ==> walk[1..][i] == walk[i + 1];
      var o1 := SyncDir(s, trace, dest, d, md5, stamp);
      SyncWalkSteady(s, o1.trace, dest, walk[1..], md5, stamp);
    }
  }

  /** `sync_to_irods` is idempotent when the store stamps uploads with the MD5 the client
      computes: over a well-formed, readable tree, both runs finish without raising, the second
      leaves the store exactly as the first left it, and it uploads nothing. */
  lemma SyncIsIdempotent(s: Store, dest: string, walk: seq<WalkDir>, md5: Utils.Bytes -> string)
    requires Valid(s) && WellFormedWalk(dest, walk) && Readable(walk)
    ensures var o1 := SyncWalk(s, [], dest, walk, md5, md5);
            var o2 := SyncWalk(o1.store, [], dest, walk, md5, md5);
            o1.error == None && o2.error == None && o2.store == o1.store && Uploads(o2.trace) == []
  {
    var o1 := SyncWalk(s, [], dest, walk, md5, md5);
    SyncRaisesIff(s, [], dest, walk, md5, md5);
    SyncWalkMirror(s, [], dest, walk, md5);
    SyncWalkSteady(o1.store, [], dest, walk, md5, md5);
  }
}
