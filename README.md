# exao_dap_client core, modelled in Dafny

This project models the client library of the Extreme Wavefront Control Lab data portal
(`exao_dap_client`). The model covers these parts:

- **One-way sync to iRODS.** `sync_to_irods` mirrors a local directory tree into an iRODS
  collection, uploading only files whose MD5 differs from the remote checksum.
  - `DataStore` (data_store.dfy) holds the walk, the store and the per-file decision.
  - `SyncProperties` (sync_properties.dfy) proves that a second run uploads nothing.
- **Payload assembly.** `merge_payload` (a shallow-copy deep merge), `fits_extractor`,
  `date_extractor` and the extractor fold of `make_payload`, in `Datum` (datum.dfy).
    - `Fits` (fits.dfy) holds the header-card loop that datum.py and metadata.py share.
    - `Json` (json.dfy) models Python dicts as ordered association lists.
- **Chunked reading and MD5.** `read_in_chunks` and `md5sum`, in `Utils` (utils.dfy).
- **Metadata extractors.** `extract_fits`, the extension-keyed `EXTRACTORS` registry,
  `get_extractor` and `extract_metadata`, in `Metadata` (metadata.dfy).
- **Command helpers.** The argparse enum converter and help text of `BaseCommand`, in
  `Commands` (commands_base.dfy), and the `REGISTRY` of commands, in `CommandRegistry`
  (commands_registry.dfy).
- **Configuration.** `get_config`, with its args > environment > default precedence and its
  first-call cache, in `Configuration` (config.dfy).

Several things the code calls are parameters of the model:

- the MD5 function;
- the checksum the store computes on upload;
- astropy's `fits.open`;
- the date parser;
- `size_and_md5sum`;
- the environment.

The local tree is the sequence `os.walk` yields. The iRODS file system is a class whose state is
each collection's `ls` listing and each data object's bytes. Every stateful operation is a
method proved against a pure function of the old state. The properties are lemmas about those
functions.

Python strings are `seq<char>`. `str.lower` is ASCII-only. Python dicts are sequences of fields
in insertion order, so the model keeps the dict iteration order that `date_extractor` relies on.
Exceptions are a `Result` whose error names the Python exception raised.

## Model

| member | source | states |
|---|---|---|
| DataStore.RemoteStore.MkDir | exao_dap_client/data_store.py:33 | `mkdir` adds an empty collection; an existing one is left as it is |
| DataStore.RemoteStore.Ls | exao_dap_client/data_store.py:37 | `ls` of an existing collection returns its listing |
| DataStore.RemoteStore.IsDir | exao_dap_client/data_store.py:31 | `isdir` holds exactly for existing collections |
| DataStore.RemoteStore.PutFile | exao_dap_client/data_store.py:63 | `put_file` stores the bytes at `dest` and lists `dest` in its collection as a data object with the store's checksum, replacing an item of the same name |
| DataStore.JoinPath | exao_dap_client/data_store.py:28 | definition of POSIX `os.path.join` for two parts; `JoinChild` states where a joined file lands |
| DataStore.ExistingFiles | exao_dap_client/data_store.py:38-42 | definition of `existing_files` after the listing loop; stated by `ExistingFilesLast`, `ExistingFilesKeys` and `ExistingFilesAt` |
| DataStore.SyncFile | exao_dap_client/data_store.py:48-63 | definition of one iteration of the file loop; stated by `SyncOneFile`, `SkipExactlyWhenChecksumsMatch`, `SyncFileKept`, `SyncFileFrame` and `SyncFileMirrors` |
| DataStore.SyncFiles | exao_dap_client/data_store.py:48-63 | definition of the file loop, stopping at the first exception; stated by `SyncFilesRaises`, `SyncFilesEvents`, `SyncFilesKept`, `SyncFilesFrame` and `SyncFilesMirror` |
| DataStore.SyncDir | exao_dap_client/data_store.py:24-63 | definition of one walked directory; stated by `SyncDirectory`, `SyncDirRaises`, `SyncDirEvents`, `SyncDirKept`, `SyncDirFrame` and `SyncDirMirror` |
| DataStore.SyncWalk | exao_dap_client/data_store.py:23-63 | definition of the walk loop, stopping at the first exception; stated by `SyncToIrods`, `SyncRaisesIff`, `SyncWalkEvents`, `SyncNeverDeletes`, `SyncWalkMirror` and `SyncIsIdempotent` |
| DataStore.CollectExisting | exao_dap_client/data_store.py:38-42 | the loop that fills `existing_files` gives the `ExistingFiles` map of the listing |
| DataStore.ExistingFilesLast | exao_dap_client/data_store.py:38-42 | a key of `existing_files` exists exactly for the base name of a listed data object; its value is the last such entry |
| DataStore.ExistingFilesKeys | exao_dap_client/data_store.py:39-42 | sub-collections and other non-'file' entries never give a key |
| DataStore.ExistingFilesAt | exao_dap_client/data_store.py:41-42 | with distinct base names, each listed data object is the value under its base name |
| DataStore.UpsertFile | exao_dap_client/data_store.py:63 | writing a data object keeps base names distinct and changes `existing_files` only at the object's name |
| DataStore.SyncOneFile | exao_dap_client/data_store.py:48-63 | one file: a dot file is skipped; the file is opened and hashed only when its name is an existing data object; it is skipped when the MD5s match and uploaded to `coll/fn` otherwise. The new store, the events and the exception are those of `SyncFile` |
| DataStore.SyncDirectory | exao_dap_client/data_store.py:24-63 | one walked directory: an empty name raises IndexError; an ignored name does nothing; otherwise the collection is made or listed and its files are synced |
| DataStore.SyncToIrods | exao_dap_client/data_store.py:13-63 | the whole sync: the store, the events and the exception it ends with are those of the fold `SyncWalk` over the walk |
| DataStore.SkipExactlyWhenChecksumsMatch | exao_dap_client/data_store.py:55-63 | a visible, readable file is skipped (no change, no upload) exactly when its name is an existing data object with an equal checksum; otherwise exactly one `put_file` to `coll/fn`; it is hashed exactly when its name is an existing data object |
| DataStore.NewCollectionUploadsAll | exao_dap_client/data_store.py:31-34 | a directory whose collection is missing makes it, then opens and uploads every visible file, with no checksum computed |
| DataStore.FreshEventsUploadAll | exao_dap_client/data_store.py:55-63 | with no existing data objects, no file is hashed and every visible file is uploaded to `coll/fn` |
| DataStore.SyncFilesFresh | exao_dap_client/data_store.py:48-63 | the file loop over a new collection raises nothing and causes exactly the open/upload events of its visible files |
| DataStore.SyncFilesEvents | exao_dap_client/data_store.py:48-63 | the file loop only appends events, and each is an open, a hash or an upload of one of its visible files, to `coll/fn` |
| DataStore.SyncDirEvents | exao_dap_client/data_store.py:26-34 | a directory's events are all caused by it: none for an ignored directory; otherwise the mkdir or listing of its collection and its visible files' events |
| DataStore.SyncWalkEvents | exao_dap_client/data_store.py:23-63 | every event of a sync is caused by some walked directory, so dot files are never opened, hashed or uploaded, and a file `fn` of the directory at `rel` only goes to `dest/rel/fn` |
| DataStore.IgnoredDirSkipped | exao_dap_client/data_store.py:23-27 | an ignored directory is passed over on its own and the walk goes on with the rest, its sub-directories included (no pruning) |
| DataStore.HiddenParentDoesNotPrune | exao_dap_client/data_store.py:23-27 | `.git/objects` below an ignored `.git` is still synced: its collection is made and its visible files are uploaded |
| DataStore.SyncFilesRaises | exao_dap_client/data_store.py:50-54 | the file loop raises exactly when some file has an empty name or a visible file cannot be opened |
| DataStore.SyncDirRaises | exao_dap_client/data_store.py:26-54 | one directory raises exactly when its name is empty or, when it is not ignored, its files make the file loop raise |
| DataStore.SyncRaisesIff | exao_dap_client/data_store.py:23-63 | the sync raises exactly when some directory has an empty name (as `src_dir` '.' does), or some visited directory has a file with an empty name or a visible file that cannot be opened |
| DataStore.Uploads | exao_dap_client/data_store.py:63 | the destinations of the upload events, in order; a destination is listed exactly when some upload event names it |
| DataStore.UploadsConcat | exao_dap_client/data_store.py:63 | the uploads of two runs of events are the uploads of each, in order |
| DataStore.PutKept | exao_dap_client/data_store.py:63 | `put_file` removes nothing: every collection and every other item stays; only the item named like `dest` in its collection may be replaced |
| DataStore.MkDirKept | exao_dap_client/data_store.py:33 | `mkdir` removes and changes nothing that existed |
| DataStore.SyncFileKept | exao_dap_client/data_store.py:48-63 | one file removes nothing that its own uploads did not overwrite |
| DataStore.SyncFilesKept | exao_dap_client/data_store.py:48-63 | the file loop removes nothing that its uploads did not overwrite |
| DataStore.SyncDirKept | exao_dap_client/data_store.py:28-63 | one directory removes nothing that its uploads did not overwrite |
| DataStore.SyncWalkKept | exao_dap_client/data_store.py:23-63 | the walk loop removes nothing that its uploads did not overwrite, and only appends events |
| DataStore.SyncNeverDeletes | exao_dap_client/data_store.py:13-63 | after a sync, raised or not: every collection is still there; every listed item is still listed unless an upload wrote an item of that name into its collection; every object keeps its bytes unless it was uploaded to |
| SyncProperties.JoinChild | exao_dap_client/data_store.py:53 | `join(coll, fn)` for a file name lands in collection `coll` under base name `fn` |
| SyncProperties.SyncFileFrame | exao_dap_client/data_store.py:48-63 | one file keeps the store valid; it changes no other collection, adds no collection, and changes `existing_files` only at its own name |
| SyncProperties.SyncFileMirrors | exao_dap_client/data_store.py:55-63 | when the store stamps uploads with the client's MD5, and `existing_files` agrees with the store at the file's name: after the step, the collection holds a data object of that name with the file's MD5 |
| SyncProperties.SyncFilesFrame | exao_dap_client/data_store.py:48-63 | the file loop changes no other collection, and leaves `existing_files` alone at names none of its files have |
| SyncProperties.SyncFilesMirror | exao_dap_client/data_store.py:48-63 | after the file loop of a first run, the collection mirrors every visible file with its MD5 |
| SyncProperties.SyncDirFrame | exao_dap_client/data_store.py:28-63 | one directory keeps the store valid and leaves every other collection as it was |
| SyncProperties.SyncDirMirror | exao_dap_client/data_store.py:28-63 | after one directory of a first run, its collection mirrors its files |
| SyncProperties.SyncWalkFrame | exao_dap_client/data_store.py:23-63 | the walk keeps the store valid and leaves alone every collection that none of its visited directories maps to |
| SyncProperties.SyncWalkMirror | exao_dap_client/data_store.py:23-63 | after a first run, every visited directory's collection mirrors its files |
| SyncProperties.SyncFilesSteady | exao_dap_client/data_store.py:55-61 | over mirrored files, every visible file is skipped: no change, no upload, no exception |
| SyncProperties.SyncWalkSteady | exao_dap_client/data_store.py:23-61 | over a mirrored tree, the sync changes nothing, uploads nothing and raises nothing |
| SyncProperties.SyncIsIdempotent | exao_dap_client/data_store.py:13-63 | when `put_file` stamps uploads with the MD5 the client computes, over a well-formed, readable tree: both runs finish without raising, and the second run leaves the store as the first left it and makes no upload |
| Json.Put | exao_dap_client/datum.py:28 | `d[k] = v`: `k` then holds `v`, every other key keeps its value, an existing key keeps its place and a new one goes last |
| Json.PutKeys | exao_dap_client/datum.py:28 | the keys after `d[k] = v`: unchanged when `k` was there, `k` appended otherwise |
| Json.Contains | exao_dap_client/datum.py:99 | `k in x` on a dict holds exactly when `k` is one of its keys |
| Json.Subscript | exao_dap_client/datum.py:100 | `x[k]` succeeds exactly on a dict holding `k`, and then gives the value stored under `k`; KeyError or TypeError otherwise |
| Fits.CardsDictLookup | exao_dap_client/datum.py:62-65 | after the card loop, a keyword holds the value of its last card, and an ignored keyword (EXTNAME included) has no entry |
| Fits.CardsDictKeys | exao_dap_client/datum.py:62-65 | the keys are distinct, and are exactly the non-ignored keywords that occur |
| Fits.HeaderToDict | exao_dap_client/metadata.py:18-21 | the card loop yields `CardsDict` of the cards |
| Fits.ExtensionsLookup | exao_dap_client/metadata.py:15-26 | each extension's card dict lands under its EXTNAME-based or index-based name; a later extension with the same name wins; other keys keep their value |
| Fits.ExtensionsDistinct | exao_dap_client/datum.py:66-78 | the extension loop keeps the keys distinct |
| Fits.ExtensionsAreDicts | exao_dap_client/datum.py:66-78 | every entry the extension loop writes is a dict |
| Fits.PutExtensions | exao_dap_client/metadata.py:15-26 | the `enumerate(hdulist[1:], start=1)` loop yields `ExtensionsUpTo` over all HDUs |
| Datum.ExtendItems | exao_dap_client/datum.py:31 | what `list.extend` appends: a list's items, a dict's keys, a string's characters; TypeError exactly for any other scalar |
| Datum.Merge | exao_dap_client/datum.py:24-36 | definition of `merge_payload` (its result and the caller's mutated original) as a fold; its meaning is stated by `MergeSpec`, `MergeFresh`, `SelfMerge`, `MergeExtendsList`, `MergeDropsNestedUpdate` and `MergeRejectsNonIterable` |
| Datum.MergeFold | exao_dap_client/datum.py:26-35 | definition of the key loop; its meaning against the reference `MergedValue` is stated by `MergeFoldSpec` |
| Datum.MergePayload | exao_dap_client/datum.py:24-36 | the merge loop gives the result and the caller's mutated original that the fold `Merge` gives |
| Datum.MergeFoldSpec | exao_dap_client/datum.py:26-35 | the loop against the per-key reference `MergedValue`. It raises exactly when some key's merge raises. Otherwise each pending key gets its merged value, other keys keep theirs, and new keys come last in order. The caller's original changes exactly where a list or dict was worked on in place |
| Datum.MergeSpec | exao_dap_client/datum.py:24-36 | `merge_payload` against the reference: the result's keys are the original's keys followed by the update's new keys; a key only in the original keeps its value, a key only in the update takes the new value; lists are extended, scalar conflicts take the new value, dict conflicts self-merge; the original's own lists and dicts are changed in place |
| Datum.MergeFresh | exao_dap_client/datum.py:27-28 | merging keys the payload lacks appends them in order and leaves the original alone |
| Datum.SelfMerge | exao_dap_client/datum.py:32-33 | a dict merged with itself (as line 33 does, since `final_payload[key]` aliases `original[key]`) doubles every list below it, in the result and in the original |
| Datum.MergeExtendsList | exao_dap_client/datum.py:30-31 | a list conflict gives the original list followed by the new one, and the caller's list is extended too |
| Datum.MergeDropsNestedUpdate | exao_dap_client/datum.py:32-33 | a dict conflict discards the new nested dict and doubles the original's nested lists |
| Datum.MergeRejectsNonIterable | exao_dap_client/datum.py:30-31 | extending a list with an integer raises TypeError |
| Datum.MatchBody | exao_dap_client/datum.py:57 | `$` matches at the end of the string or before one final newline |
| Datum.FitsPatternIsRegex | exao_dap_client/datum.py:57 | the end-of-name test `FitsPattern` decides exactly the regex `.+\.fits?$` read literally |
| Datum.FitsPatternExamples | exao_dap_client/datum.py:57-58 | 'example.fits', 'a.fit' and 'a.fits\n' match; '.fits', 'X.FITS', 'a.fits.gz', 'a\nb.fits' and 'a.fits\n\n' do not |
| Datum.FitsExtractor | exao_dap_client/datum.py:38-80 | `fits_extractor` returns the payload unchanged for a non-FITS name; otherwise it returns `{'meta': {'fits': data}}`, or the exception raised by `fits.open`, the missing primary HDU or a non-string filename; the handle moves by `FitsAdvance`, past what `fits.open` read, and only for a FITS name |
| Datum.FitsExtract | exao_dap_client/datum.py:38-80 | no 'filename' raises KeyError('filename'); a success is the payload itself or a dict whose one key is 'meta', and the latter only when `fits.open` succeeded with at least one HDU |
| Datum.FitsAdvance | exao_dap_client/datum.py:57-59 | the handle moves no further than its end, and moves at all only when the payload's filename is a string matching the FITS pattern |
| Datum.SeedAdvance | exao_dap_client/datum.py:132-134 | from `{'filename': basename}`, the handle moves by what `fits.open` reads exactly when the base name matches the FITS pattern, and not at all otherwise |
| Datum.FitsDataContents | exao_dap_client/datum.py:61-79 | in `data`, a primary keyword holds the value of its last card unless ignored, `'ext'` holds the extensions, and each extension name holds the cards of the last extension stored under it |
| Datum.FitsDataWellFormed | exao_dap_client/datum.py:61-79 | every dict built has distinct keys |
| Datum.ExtensionNamesExample | exao_dap_client/datum.py:74-78 | a named and an unnamed extension give the keys 'FOO' and 'idx_2' |
| Datum.FirstParse | exao_dap_client/datum.py:101-112 | the reference search: none found exactly when every candidate is a ValueError; a found time is that of a candidate preceded only by ValueErrors |
| Datum.FirstParseAppend | exao_dap_client/datum.py:101-112 | searching two candidate runs is searching the first and then, if nothing parsed, the second |
| Datum.DateSearchOrder | exao_dap_client/datum.py:99-113 | for FITS headers, `date_extractor`'s loops try DATE-OBS before DATE, each in the primary header and then in every extension in order; the first value that parses wins, any other parser exception propagates |
| Datum.DateExtract | exao_dap_client/datum.py:88-113 | no 'meta' raises KeyError('meta'); a 'meta' dict without 'fits' gives `{}`; a success is `{}` or a dict whose one key is 'created_at' |
| Datum.ChecksumSizeExtract | exao_dap_client/datum.py:116-118 | exactly the keys 'checksum' and 'size_bytes', in that order, holding the MD5 and the size of the whole file |
| Datum.ApplyExtractor | exao_dap_client/datum.py:134 | one extractor call sees the bytes from the handle's current position; only `fits_extractor` moves the handle, by `FitsAdvance` |
| Datum.ExtractorFoldStep | exao_dap_client/datum.py:133-135 | one step of the extractor loop gives the extractor's exception, the merge's exception or the merged payload |
| Datum.RunExtractors | exao_dap_client/datum.py:132-135 | the `try` block's loop over `EXTRACTOR_STACK` gives the extractor fold over `{'filename': basename}` of the bytes left in the handle, and moves the handle by `FitsAdvance` of that seed |
| Datum.MakePayload | exao_dap_client/datum.py:126-139 | `make_payload` opens the file when no handle is given, raising OSError if it cannot, and then closes it; a given handle is left open and moved past what `fits.open` read from it when the base name is a FITS name (`FitsAdvance` of `{'filename': basename}`); the result is the extractor fold over `{'filename': basename}` |
| Datum.MakePayloadNonFits | exao_dap_client/datum.py:99 | for a non-FITS name, `date_extractor` finds no `'meta'` and `make_payload` raises KeyError('meta') |
| Datum.MakePayloadFits | exao_dap_client/datum.py:120-139 | for a FITS file, the payload holds the base name, then `'meta'` with the FITS data, then `'created_at'` when a date parses, then the checksum and size, in that order |
| Utils.ReadLength | exao_dap_client/utils.py:5 | `read(n)` returns at most `n` bytes (all of them for a negative `n`), and none only at the end or for `n == 0` |
| Utils.FileHandle.Read | exao_dap_client/utils.py:5 | `read(n)` returns the next bytes and advances the position past them |
| Utils.FileHandle.Seek | exao_dap_client/utils.py:13 | `seek(0)` rewinds |
| Utils.Chunks | exao_dap_client/utils.py:3-8 | every chunk is non-empty and at most `chunk_size` bytes; the chunks concatenate to the rest of the file whatever the chunk size, so hashing them hashes that rest; an exhausted stream yields nothing |
| Utils.ReadInChunks | exao_dap_client/utils.py:3-8 | the generator, run to the end, yields `Chunks` of the bytes from the current position and leaves the position past them |
| Utils.FlattenCons | exao_dap_client/utils.py:14-15 | a chunk followed by more chunks absorbs that chunk's bytes first |
| Utils.Md5Hasher.Update | exao_dap_client/utils.py:15 | `update` appends the bytes to what the hasher has absorbed |
| Utils.Md5Hasher.HexDigest | exao_dap_client/utils.py:18 | `hexdigest` is the MD5 of everything absorbed |
| Utils.Utf8Ascii | exao_dap_client/utils.py:17 | ASCII text encodes to its character codes, one byte each |
| Utils.Utf8Length | exao_dap_client/utils.py:17 | UTF-8 takes one to four bytes per character |
| Utils.Md5Sum | exao_dap_client/utils.py:10-18 | a handle is rewound and its whole content hashed whatever its prior position, and it is left open if it was open (`md5sum` never closes it) and at its end; a string hashes as its UTF-8 bytes, so `md5sum(s)` equals `md5sum` of a handle holding `utf8(s)` |
| Text.SplitExtParts | exao_dap_client/metadata.py:48 | `splitext` splits the path into root and extension; a non-empty extension starts with its dot and holds no other '.' or '/' |
| Text.SplitExt | exao_dap_client/metadata.py:48 | definition of POSIX `os.path.splitext`; stated by `SplitExtParts` and `FindsDottedFits` |
| Text.Basename | exao_dap_client/datum.py:132 | `os.path.basename` holds no '/' |
| Metadata.ExtensionOf | exao_dap_client/metadata.py:48-49 | the lowercased extension is empty or starts with a dot, and is empty exactly when `splitext` gives no extension |
| Metadata.ExtractFits | exao_dap_client/metadata.py:7-27 | `extract_fits` gives `FitsMetadata`: primary cards at the top level, extensions under 'ext_' keys; the `fits.open` exception or IndexError otherwise; the handle moves past the bytes `fits.open` reads, and no further than its end |
| Metadata.FitsMetadataLookup | exao_dap_client/metadata.py:11-26 | each key holds the cards of the last extension named after it, or else the last primary value of that keyword (none for an ignored one); keys are distinct |
| Metadata.ExtensionNamesExample | exao_dap_client/metadata.py:22-26 | an extension named FOO and an unnamed third HDU give 'ext_FOO' and 'ext_2' |
| Metadata.ExtractorRegistry.constructor | exao_dap_client/metadata.py:42-45 | the initial table maps 'fits' and 'fit' to `extract_fits` |
| Metadata.ExtractorRegistry.Register | exao_dap_client/metadata.py:55-57 | `register` sets that one entry, overwriting, and leaves every other entry as it was |
| Metadata.ExtractorRegistry.GetExtractor | exao_dap_client/metadata.py:47-53 | found exactly when the lowercased `splitext` extension is a key; then that extension and its function; otherwise RuntimeError naming the extension |
| Metadata.Advance | exao_dap_client/metadata.py:36 | an extract function moves the handle no further than its end |
| Metadata.ExtractorRegistry.MetadataAdvance | exao_dap_client/metadata.py:35-36 | the handle moves no further than its end, and not at all when no extractor is found for the name |
| Metadata.ExtractorRegistry.ExtractMetadata | exao_dap_client/metadata.py:29-40 | `{ext: extract_func(fh)}` or the exception; with no handle the file is opened (OSError if it cannot be) and closed; a given handle is left open and moved past what the extract function read from it (`MetadataAdvance`), unmoved when no extractor is found |
| Metadata.ApplyExtractFunction | exao_dap_client/metadata.py:36 | the extract function sees the bytes from the handle's current position and moves the handle by `Advance`, what it reads |
| Metadata.DefaultExtractorsMatchNothing | exao_dap_client/metadata.py:42-53 | since `splitext` keeps the dot, the default keys 'fits' and 'fit' never match, and every name raises RuntimeError, in `get_extractor` and `extract_metadata` |
| Metadata.DottedKeyMatches | exao_dap_client/metadata.py:48-51 | a key registered as '.fits' is found for 'x.FITS' and 'x.fits' |
| Metadata.FindsDottedFits | exao_dap_client/metadata.py:48-49 | `splitext` of 'stem.FITS' gives ('stem', '.FITS'), lowercased to '.fits' |
| Commands.EnumHelp | exao_dap_client/commands/base.py:34-39 | `enum_help` gives `Help`: the lowercased names in declaration order joined with ', ' |
| Commands.HelpShape | exao_dap_client/commands/base.py:35-39 | an empty enum gives ''; one member gives its lowercased name; otherwise the first name, ', ' and the rest |
| Commands.FirstMatch | exao_dap_client/commands/base.py:27-29 | the search returns the first member from `i` on whose lowercased name equals the lowercased value, or none when there is no such member |
| Commands.ToEnum | exao_dap_client/commands/base.py:25-32 | the converter returns the first member, in declaration order, equal to the value up to case; when none matches, it raises ArgumentTypeError("Unrecognized value … (must be one of …)") with the help text |
| Commands.ToEnumRoundTrip | exao_dap_client/commands/base.py:27-29 | with distinct lowercased names, any case variant of a member's name converts back to that member |
| Commands.ToEnumIgnoresCase | exao_dap_client/commands/base.py:28 | values equal up to case are accepted or refused together, and give the same member |
| Commands.AcceptedValuesAreListed | exao_dap_client/commands/base.py:27-38 | every accepted value, lowercased, is among the items `enum_help` lists |
| Commands.DatasetSourceLowerNames | exao_dap_client/commands/base.py:37-38 | the items collected for `DatasetSource` are 'on_sky', 'lab' and 'simulation' |
| Commands.DatasetSourceHelp | exao_dap_client/commands/base.py:35-39 | `enum_help(DatasetSource)` is 'on_sky, lab, simulation' |
| Commands.DatasetSourceConversions | exao_dap_client/commands/base.py:26-31 | 'On_Sky' converts to ON_SKY and 'simulation' to SIMULATION; 'sky' raises ArgumentTypeError with the list of accepted names |
| CommandRegistry.RegisterOverwrites | exao_dap_client/commands/__init__.py:6-8 | `register` files the class under its key, overwriting; every other entry is unchanged; at most one key is added |
| CommandRegistry.KeyOfUnnamed | exao_dap_client/commands/__init__.py:7 | a class without a `name` is filed under its lowercased class name |
| CommandRegistry.LoadedKeys | exao_dap_client/commands/__init__.py:10-11 | after `register(Sync)` and `register(Ingest)` the keys are exactly 'sync' and 'ingest', holding those classes |
| CommandRegistry.Registry.Register | exao_dap_client/commands/__init__.py:6-8 | `register` updates `REGISTRY` at `name`, or at the lowercased class name when `name` is None |
| CommandRegistry.Registry.constructor | exao_dap_client/commands/__init__.py:4-11 | loading the package leaves `REGISTRY` with exactly 'sync' (from `Sync.name`) and 'ingest' (from `Ingest`'s class name) |
| Configuration.ArgumentsWin | exao_dap_client/config.py:25-31 | a truthy argument wins over the environment and the default |
| Configuration.FalsyArgumentsNeverOverride | exao_dap_client/config.py:25-31 | None or '' arguments give what no arguments give |
| Configuration.EnvironmentBeatsDefault | exao_dap_client/config.py:20-24 | without arguments, a set DAP_SERVICE_URL / DAP_IRODS_URL / DAP_TOKEN is used, even when empty; otherwise the default URL, and no token |
| Configuration.TokenMayBeAbsent | exao_dap_client/config.py:22 | the token is None exactly when no truthy token argument is given and DAP_TOKEN is not set |
| Configuration.ConfigCache.GetConfig | exao_dap_client/config.py:18-33 | the first call builds a fresh `Config` by the precedence rule and caches it; every later call returns that same object and changes nothing |
| Configuration.CallTwice | exao_dap_client/config.py:19-33 | two calls return the same object, built from the first call's arguments and environment |

## Left out

- File system, network and process I/O:
  - `os.walk` is the input sequence `walk`, and each local file is its name and bytes. A file
    that cannot be opened is `None` and raises OSError.
  - The iRODS `fsspec` driver is the `RemoteStore` class. The `with` block's exceptions and
    the remote server's own failures are not modelled.
- Foreign libraries are parameters:
  - hashlib's MD5 is an arbitrary function on bytes, and the store's checksum on upload is
    another one;
  - astropy's `fits.open` maps the bytes left in the handle to a header list or an exception,
    and its cards come with upper-cased keywords and scalar values. How many of those bytes it
    reads, moving the handle, is another parameter (`fitsRead`), and so is the read length of a
    registered extract function;
  - dateutil's parse and UTC conversion give a Parsed/ValueError/other-exception outcome;
  - `utils.size_and_md5sum` maps the whole content to a size and a digest. It is called at
    exao_dap_client/datum.py:117 but utils.py has no such function, so it is not part of this
    model.
- `data_store.sync`, called by the sync command, does not exist in data_store.py. It is not
  part of this model.
- The CLI and argparse wiring (cli.py and the command modules' `main` and `add_arguments`),
  http.py, logging, setup.py and the remaining enum-only modules are not modelled.
- `threading.local` in config.py is a single cache object (one thread). `if args:` is modelled
  for `None` versus a parsed namespace.
- `str.lower` covers ASCII only. Non-ASCII case mapping is not modelled.
- Python `Enum` aliases are not modelled: an enum is the list of its member names.
- DataStore.RemoteStore: `mkdir` does not add the new collection to its parent's listing, and
  `put_file` appends a new item at the end of its collection's listing. The listing order of a
  real iRODS server is not modelled.
- DataStore.SyncToIrods: the model uses `os.path.join`'s POSIX rules and plain string paths.
  `Path.relative_to` is given as each directory's `rel`. The root directory's `rel` is '.',
  so its collection is `dest/.`, as `os.path.join` writes it.
- SyncProperties.SyncIsIdempotent assumes what `os.walk` guarantees: file names without '/',
  no name twice in a directory, and distinct relative paths. It also needs the destination
  collection paths to be non-empty with no trailing '/'.
- Datum.MergePayload models aliasing through values. It returns the merged dict and the
  caller's original after the merge. The model does not cover aliasing between two different
  arguments that share a nested object.
- Datum.SearchKeywords: iterating an `'ext'` value that is a non-empty list is not modelled
  (NotModelled), since it indexes a list by its own items. `fits_extractor` never builds one.
- Datum.FitsExtractor: EXTNAME is taken to be a string, so the key is the string itself.
- Utils.FileHandle.Read: I/O on a closed handle is not modelled. `read` on a closed handle
  returns bytes, where Python raises ValueError. So a handle passed to `make_payload` or
  `extract_metadata` already closed is read as if it were open. A handle the model opens itself
  is only read before it is closed.
