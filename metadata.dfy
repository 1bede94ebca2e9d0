/** The metadata extractors of exao_dap_client/metadata.py: `extract_fits`, the registry of
    extractors keyed by file extension, `get_extractor` and `extract_metadata`. As in the payload
    code, astropy's `fits.open` is the parameter `fitsOpen`, applied to the bytes left in the
    handle, and `fitsRead` says how many of them it reads, moving the handle past them. */
module Metadata {
  import opened Wrappers
  import opened Json
  import Text
  import Fits
  import Utils

  type FitsReader = Utils.Bytes -> Result<seq<Fits.Header>, PyError>
  type FitsReadLength = Utils.Bytes -> nat

  /** The dict `extract_fits` builds: the primary header's cards at the top level, then each
      extension's cards under `ext_<EXTNAME>` or `ext_<index>`, in the same dict. */
  function FitsMetadata(hdus: seq<Fits.Header>): seq<Field>
    requires hdus != []
  {
    Fits.ExtensionsUpTo(Fits.CardsDict(hdus[0].cards), hdus, |hdus|, "ext_", "ext_")
  }

  /** What `extract_fits(file_handle)` returns when `content` is what `fits.open` reads. */
  function ExtractFitsResult(content: Utils.Bytes, fitsOpen: FitsReader): Result<seq<Field>, PyError>
  {
    match fitsOpen(content)
    case Err(e) => Err(e)
    case Ok(hdus) => if hdus == [] then Err(IndexError) else Ok(FitsMetadata(hdus))
  }

  /** `extract_fits(file_handle)`. */
  method ExtractFits(fh: Utils.FileHandle, fitsOpen: FitsReader, fitsRead: FitsReadLength)
    returns (r: Result<seq<Field>, PyError>)
    modifies fh`pos
    ensures var rest := Utils.Remaining(fh.content, old(fh.pos));
            r == ExtractFitsResult(rest, fitsOpen) && fh.pos == old(fh.pos) + Utils.ReadLength(|rest|, fitsRead(rest))
  {
    var rest := Utils.Remaining(fh.content, fh.pos);
    var hdulist := fitsOpen(rest);
    var read := fh.Read(fitsRead(rest));
    if hdulist.Err? {
      return Err(hdulist.error);
    }
    var hdus := hdulist.value;
    if hdus == [] {
      return Err(IndexError);
    }
    var data := Fits.HeaderToDict(hdus[0].cards);
    data := Fits.PutExtensions(data, hdus, "ext_", "ext_");
    r := Ok(data);
  }

  /** A key of the `extract_fits` dict holds the cards of the last extension stored under it
      when there is one, and otherwise the value of the last primary card with that keyword
      (none for an ignored keyword). The keys are distinct. */
  lemma FitsMetadataLookup(hdus: seq<Fits.Header>, k: string)
    requires hdus != []
    ensures DistinctKeys(FitsMetadata(hdus))
    ensures Get(FitsMetadata(hdus), k) ==
            match Fits.LastExt(hdus, |hdus|, k, "ext_", "ext_")
            case Some(j) => Some(Dict(Fits.CardsDict(hdus[j].cards)))
            case None =>
              if k in Fits.IgnoreKeywords || Fits.LastValue(hdus[0].cards, k).None? then None
              else Some(Scalar(Fits.LastValue(hdus[0].cards, k).value))
  {
    Fits.CardsDictKeys(hdus[0].cards);
    Fits.ExtensionsDistinct(Fits.CardsDict(hdus[0].cards), hdus, |hdus|, "ext_", "ext_");
    Fits.ExtensionsLookup(Fits.CardsDict(hdus[0].cards), hdus, |hdus|, "ext_", "ext_", k);
    Fits.CardsDictLookup(hdus[0].cards, k);
  }

  /** A primary, an extension named FOO and an unnamed third extension give `ext_FOO` and
      `ext_2`, each holding its own header's cards. */
  lemma ExtensionNamesExample(primary: seq<Fits.Card>, foo: seq<Fits.Card>, third: seq<Fits.Card>)
    ensures var hdus := [Fits.Header(primary, None), Fits.Header(foo, Some("FOO")), Fits.Header(third, None)];
            && Get(FitsMetadata(hdus), "ext_FOO") == Some(Dict(Fits.CardsDict(foo)))
            && Get(FitsMetadata(hdus), "ext_2") == Some(Dict(Fits.CardsDict(third)))
  {
    var hdus := [Fits.Header(primary, None), Fits.Header(foo, Some("FOO")), Fits.Header(third, None)];
    assert Text.NatToDecimal(2) == "2";
    assert Fits.ExtName(hdus[1], 1, "ext_", "ext_") == "ext_FOO";
    assert Fits.ExtName(hdus[2], 2, "ext_", "ext_") == "ext_2";
    assert Fits.LastExt(hdus, 3, "ext_FOO", "ext_", "ext_") == Some(1);
    assert Fits.LastExt(hdus, 3, "ext_2", "ext_", "ext_") == Some(2);
    FitsMetadataLookup(hdus, "ext_FOO");
    FitsMetadataLookup(hdus, "ext_2");
  }

  /** A registered extract function: `extract_fits`, or one registered from elsewhere, which
      maps the bytes left in the handle to a JSON value or an exception and reads `readLength`
      of them. */
  datatype ExtractFunction =
    | ExtractFitsFunction
    | Registered(run: Utils.Bytes -> Result<Json, PyError>, readLength: Utils.Bytes -> nat)

  function Apply(f: ExtractFunction, content: Utils.Bytes, fitsOpen: FitsReader): Result<Json, PyError>
  {
    match f
    case ExtractFitsFunction =>
      (match ExtractFitsResult(content, fitsOpen)
       case Err(e) => Err(e)
       case Ok(d) => Ok(Dict(d)))
    case Registered(run, _) => run(content)
  }

  /** How far an extract function moves a handle holding `content`. */
  function Advance(f: ExtractFunction, content: Utils.Bytes, fitsRead: FitsReadLength): (k: nat)
    ensures k <= |content|
  {
    match f
    case ExtractFitsFunction => Utils.ReadLength(|content|, fitsRead(content))
    case Registered(_, n) => Utils.ReadLength(|content|, n(content))
  }

  /** The initial `EXTRACTORS` table. */
  const DefaultExtractors: map<string, ExtractFunction> := map["fits" := ExtractFitsFunction, "fit" := ExtractFitsFunction]

  /** The lower-cased extension `get_extractor` looks up: what `os.path.splitext` gives, its
      leading dot included. */
  function ExtensionOf(filename: string): (r: string)
    ensures r == [] || r[0] == '.'
    ensures r == [] <==> Text.SplitExt(filename).1 == []
  {
    Text.SplitExtParts(filename);
    Text.Lower(Text.SplitExt(filename).1)
  }

  /** The message of the RuntimeError for an extension with no extractor. */
  function NoExtractorMessage(ext: string): string
  {
    "No extractor configured for file extension \"" + ext + "\""
  }

  /** The module-level `EXTRACTORS` dict, which `register` updates in place. */
  class ExtractorRegistry {
    var extractors: map<string, ExtractFunction>

    constructor ()
      ensures extractors == DefaultExtractors
    {
      extractors := DefaultExtractors;
    }

    /** `register(extension, extract_function)`: adds or replaces that one entry. */
    method Register(extension: string, f: ExtractFunction)
      modifies this
      ensures extractors == old(extractors)[extension := f]
    {
      extractors := extractors[extension := f];
    }

    /** `get_extractor(filename)`: the lower-cased extension and its extract function, or
        RuntimeError naming the extension when the table has no entry for it. */
    function GetExtractor(filename: string): (r: Result<(string, ExtractFunction), PyError>)
      reads this
      ensures r.Ok? <==> ExtensionOf(filename) in extractors
      ensures r.Ok? ==> r.value.0 == ExtensionOf(filename) && r.value.1 == extractors[r.value.0]
      ensures r.Err? ==> r.error == RuntimeError(NoExtractorMessage(ExtensionOf(filename)))
    {
      var ext := Text.Lower(Text.SplitExt(filename).1);
      if ext in extractors then Ok((ext, extractors[ext]))
      else Err(RuntimeError(NoExtractorMessage(ext)))
    }

    /** What `extract_metadata` returns when `content` is what the extract function reads:
        `{extension: extract_func(fh)}`. */
    function MetadataResult(filename: string, content: Utils.Bytes, fitsOpen: FitsReader): Result<seq<Field>, PyError>
      reads this
    {
      match GetExtractor(filename)
      case Err(e) => Err(e)
      case Ok((ext, f)) =>
        (match Apply(f, content, fitsOpen)
         case Err(e) => Err(e)
         case Ok(v) => Ok([Field(ext, v)]))
    }

    /** How far `extract_metadata` moves a given handle holding `content`: not at all when
        `get_extractor` raises, otherwise as far as the extract function reads. */
    function MetadataAdvance(filename: string, content: Utils.Bytes, fitsRead: FitsReadLength): (k: nat)
      reads this
      ensures k <= |content|
      ensures GetExtractor(filename).Err? ==> k == 0
    {
      match GetExtractor(filename)
      case Err(_) => 0
      case Ok((_, f)) => Advance(f, content, fitsRead)
    }

    /** `extract_metadata(filename, file_like)`. With no `file_like` the file is opened from
        `disk` (an OSError when it cannot be) and closed afterwards, whatever the outcome; a
        given handle is left open, moved past what the extract function read. The returned
        handle is the one read. */
    method ExtractMetadata(filename: string, fileLike: Utils.FileHandle?, disk: Option<Utils.Bytes>,
                           fitsOpen: FitsReader, fitsRead: FitsReadLength)
      returns (r: Result<seq<Field>, PyError>, fh: Utils.FileHandle?)
      modifies if fileLike == null then {} else {fileLike}
      ensures fileLike == null && disk.None? ==> r == Err(OSError) && fh == null
      ensures fileLike == null && disk.Some? ==>
                fh != null && fresh(fh) && fh.closed && fh.content == disk.value &&
                r == MetadataResult(filename, disk.value, fitsOpen)
      ensures fileLike != null ==>
                var rest := Utils.Remaining(fileLike.content, old(fileLike.pos));
                fh == fileLike && fh.closed == old(fileLike.closed) &&
                fh.pos == old(fileLike.pos) + MetadataAdvance(filename, rest, fitsRead) &&
                r == MetadataResult(filename, rest, fitsOpen)
    {
      if fileLike == null {
        if disk.None? {
          return Err(OSError), null;
        }
        fh := new Utils.FileHandle(disk.value);
      } else {
        fh := fileLike;
      }
      var content := Utils.Remaining(fh.content, fh.pos);
      var found := GetExtractor(filename);
      if found.Err? {
        r := Err(found.error);
      } else {
        var (extension, f) := found.value;
        var v := ApplyExtractFunction(f, fh, fitsOpen, fitsRead);
        r := if v.Err? then Err(v.error) else Ok([Field(extension, v.value)]);
      }
      if fileLike == null {
        assert content == disk.value;
        fh.Close();
      }
    }
  }

  /** Calls an extract function on a handle. */
  method ApplyExtractFunction(f: ExtractFunction, fh: Utils.FileHandle, fitsOpen: FitsReader, fitsRead: FitsReadLength)
    returns (r: Result<Json, PyError>)
    modifies fh`pos
    ensures r == Apply(f, Utils.Remaining(fh.content, old(fh.pos)), fitsOpen)
    ensures fh.pos == old(fh.pos) + Advance(f, Utils.Remaining(fh.content, old(fh.pos)), fitsRead)
  {
    match f
    case ExtractFitsFunction =>
      var d := ExtractFits(fh, fitsOpen, fitsRead);
      r := if d.Err? then Err(d.error) else Ok(Dict(d.value));
    case Registered(run, n) =>
      var rest := Utils.Remaining(fh.content, fh.pos);
      r := run(rest);
      var read := fh.Read(n(rest));
  }

  /** Every extension `splitext` can produce is empty or starts with '.', so the default keys
      'fits' and 'fit' (no dot) never match: every file name raises RuntimeError, in
      `get_extractor` and so in `extract_metadata`. */
  lemma DefaultExtractorsMatchNothing(reg: ExtractorRegistry, filename: string, content: Utils.Bytes, fitsOpen: FitsReader)
    requires reg.extractors == DefaultExtractors
    ensures reg.GetExtractor(filename) == Err(RuntimeError(NoExtractorMessage(ExtensionOf(filename))))
    ensures reg.MetadataResult(filename, content, fitsOpen) == Err(RuntimeError(NoExtractorMessage(ExtensionOf(filename))))
  {
    var ext := ExtensionOf(filename);
    assert ext !in reg.extractors by {
      assert "fits"[0] == 'f' && "fit"[0] == 'f';
    }
  }

  /** A key registered with its dot, such as '.fits', is found whatever the case of the file's
      extension. */
  lemma DottedKeyMatches(reg: ExtractorRegistry, stem: string, f: ExtractFunction)
    requires reg.extractors == DefaultExtractors[".fits" := f]
    requires forall i :: 0 <= i < |stem| ==> stem[i] != '.' && stem[i] != '/'
    requires stem != []
    ensures reg.GetExtractor(stem + ".FITS") == Ok((".fits", f))
    ensures reg.GetExtractor(stem + ".fits") == Ok((".fits", f))
  {
    FindsDottedFits(stem, ".FITS");
    FindsDottedFits(stem, ".fits");
  }

  lemma FindsDottedFits(stem: string, ext: string)
    requires forall i :: 0 <= i < |stem| ==> stem[i] != '.' && stem[i] != '/'
    requires stem != []
    requires ext == ".FITS" || ext == ".fits"
    ensures Text.SplitExt(stem + ext) == (stem, ext)
    ensures ExtensionOf(stem + ext) == ".fits"
  {
    var p := stem + ext;
    DottedExtRFind(ext);
    Text.RFindConcat(stem, ext, '.');
    Text.RFindConcat(stem, ext, '/');
    assert Text.RFind(p, '/') == -1 && Text.RFind(p, '.') == |stem|;
    assert p[0] == stem[0];
    assert p[..|stem|] == stem && p[|stem|..] == ext;
    LowerFits(ext);
  }

  /** In ".FITS" and ".fits" the only '.' is the first character and there is no '/'. */
  lemma DottedExtRFind(ext: string)
    requires ext == ".FITS" || ext == ".fits"
    ensures Text.RFind(ext, '.') == 0 && Text.RFind(ext, '/') == -1
  {
    var t := ext[1..];
    assert t == "FITS" || t == "fits";
    assert forall i :: 0 <= i < |t| ==> t[i] != '.' && t[i] != '/';
    RFindAbsent(t, '.');
    RFindAbsent(t, '/');
    assert Text.RFind(".", '.') == 0 && Text.RFind(".", '/') == -1;
    Text.RFindConcat(".", t, '.');
    Text.RFindConcat(".", t, '/');
    assert "." + t == ext;
  }

  lemma RFindAbsent(s: string, c: char)
    requires forall i :: 0 <= i < |s| ==> s[i] != c
    ensures Text.RFind(s, c) == -1
  {
  }

  lemma LowerFits(ext: string)
    requires ext == ".FITS" || ext == ".fits"
    ensures Text.Lower(ext) == ".fits"
  {
  }
}
