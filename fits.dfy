/** FITS headers as the payload code sees them, and the card loop that both
    exao_dap_client/datum.py and exao_dap_client/metadata.py run over a header. Parsing a FITS
    file into headers (astropy's `fits.open`) is a parameter of the modules that use this one. */
module Fits {
  import opened Wrappers
  import opened Json
  import Text

  /** One header card, keyword already upper-cased as astropy reports it. */
  datatype Card = Card(keyword: string, value: Atom)

  /** One HDU's header: the cards in order, and the value of its EXTNAME card when it has one. */
  datatype Header = Header(cards: seq<Card>, extname: Option<string>)

  /** `_FITS_IGNORE_KEYWORDS`, the same set in both source files. */
  const IgnoreKeywords: set<string> := {"COMMENT", "HISTORY", "SIMPLE", "EXTEND", "GCOUNT", "PCOUNT", "EXTNAME"}

  /** The dict the card loop has built after the given cards. */
  function CardsDict(cards: seq<Card>): seq<Field>
  {
    if cards == [] then []
    else
      var d := CardsDict(cards[..|cards| - 1]);
      var c := cards[|cards| - 1];
      if c.keyword in IgnoreKeywords then d else Put(d, c.keyword, Scalar(c.value))
  }

  /** The value of the last card with keyword `k`, if any. */
  function LastValue(cards: seq<Card>, k: string): Option<Atom>
  {
    if cards == [] then None
    else if cards[|cards| - 1].keyword == k then Some(cards[|cards| - 1].value)
    else LastValue(cards[..|cards| - 1], k)
  }

  /** The card loop: ignored keywords are skipped and a repeated keyword keeps the value of its
      last card. */
  lemma {:induction false} CardsDictLookup(cards: seq<Card>, k: string)
    ensures Get(CardsDict(cards), k) ==
            if k in IgnoreKeywords || LastValue(cards, k).None? then None
            else Some(Scalar(LastValue(cards, k).value))
  {
    if cards != [] {
      CardsDictLookup(cards[..|cards| - 1], k);
    }
  }

  /** The keys are exactly the non-ignored keywords that occur, each once. */
  lemma {:induction false} CardsDictKeys(cards: seq<Card>)
    ensures DistinctKeys(CardsDict(cards))
    ensures forall k :: k in Keys(CardsDict(cards)) <==>
              k !in IgnoreKeywords && exists i :: 0 <= i < |cards| && cards[i].keyword == k
  {
    if cards != [] {
      var init := cards[..|cards| - 1];
      CardsDictKeys(init);
      forall k ensures k in Keys(CardsDict(cards)) <==>
                 k !in IgnoreKeywords && exists i :: 0 <= i < |cards| && cards[i].keyword == k
      {
        if k !in IgnoreKeywords && exists i :: 0 <= i < |cards| && cards[i].keyword == k {
          var i :| 0 <= i < |cards| && cards[i].keyword == k;
          if i < |init| { assert init[i].keyword == k; }
        }
        assert (exists i :: 0 <= i < |init| && init[i].keyword == k) ==>
               exists i :: 0 <= i < |cards| && cards[i].keyword == k by {
          if exists i :: 0 <= i < |init| && init[i].keyword == k {
            var i :| 0 <= i < |init| && init[i].keyword == k;
            assert cards[i].keyword == k;
          }
        }
      }
    }
  }

  /** The `for card in hdr.cards` loop of both source files. */
  method HeaderToDict(cards: seq<Card>) returns (data: seq<Field>)
    ensures data == CardsDict(cards)
  {
    data := [];
    for i := 0 to |cards|
      invariant data == CardsDict(cards[..i])
    {
      assert cards[..i + 1][..i] == cards[..i];
      if cards[i].keyword in IgnoreKeywords {
        continue;
      }
      data := Put(data, cards[i].keyword, Scalar(cards[i].value));
    }
    assert cards[..|cards|] == cards;
  }

  /** The key extension `idx` (counting the primary as 0) is stored under: `namedPrefix` followed by
      its EXTNAME when it has one, otherwise `indexPrefix` followed by `str(idx)`. */
  function ExtName(h: Header, idx: nat, namedPrefix: string, indexPrefix: string): string
  {
    match h.extname
    case Some(name) => namedPrefix + name
    case None => indexPrefix + Text.NatToDecimal(idx)
  }

  /** The dict `d` after the extension loop has visited HDUs 1 .. n-1. */
  function ExtensionsUpTo(d: seq<Field>, hdus: seq<Header>, n: nat, namedPrefix: string, indexPrefix: string): seq<Field>
    requires n <= |hdus|
  {
    if n <= 1 then d
    else Put(ExtensionsUpTo(d, hdus, n - 1, namedPrefix, indexPrefix),
             ExtName(hdus[n - 1], n - 1, namedPrefix, indexPrefix), Dict(CardsDict(hdus[n - 1].cards)))
  }

  /** Every entry the extension loop writes is a header dict. */
  lemma {:induction false} ExtensionsAreDicts(d: seq<Field>, hdus: seq<Header>, n: nat, namedPrefix: string, indexPrefix: string)
    requires n <= |hdus|
    requires DictValues(d)
    ensures DictValues(ExtensionsUpTo(d, hdus, n, namedPrefix, indexPrefix))
  {
    if n > 1 {
      ExtensionsAreDicts(d, hdus, n - 1, namedPrefix, indexPrefix);
      PutDictValues(ExtensionsUpTo(d, hdus, n - 1, namedPrefix, indexPrefix),
                    ExtName(hdus[n - 1], n - 1, namedPrefix, indexPrefix), Dict(CardsDict(hdus[n - 1].cards)));
    }
  }

  /** The last HDU among 1 .. n-1 stored under key `k`, if any. */
  function LastExt(hdus: seq<Header>, n: nat, k: string, namedPrefix: string, indexPrefix: string): (r: Option<nat>)
    requires n <= |hdus|
    ensures r.Some? ==> 1 <= r.value < n && ExtName(hdus[r.value], r.value, namedPrefix, indexPrefix) == k
    ensures r.Some? ==> forall j :: r.value < j < n ==> ExtName(hdus[j], j, namedPrefix, indexPrefix) != k
    ensures r.None? ==> forall j :: 1 <= j < n ==> ExtName(hdus[j], j, namedPrefix, indexPrefix) != k
  {
    if n <= 1 then None
    else if ExtName(hdus[n - 1], n - 1, namedPrefix, indexPrefix) == k then Some(n - 1)
    else LastExt(hdus, n - 1, k, namedPrefix, indexPrefix)
  }

  /** Each extension's header dict lands under its name; a later extension with the same name
      replaces an earlier one, and keys no extension is named after keep their value in `d`. */
  lemma {:induction false} ExtensionsLookup(d: seq<Field>, hdus: seq<Header>, n: nat, namedPrefix: string, indexPrefix: string, k: string)
    requires n <= |hdus|
    ensures Get(ExtensionsUpTo(d, hdus, n, namedPrefix, indexPrefix), k) ==
            match LastExt(hdus, n, k, namedPrefix, indexPrefix)
            case Some(j) => Some(Dict(CardsDict(hdus[j].cards)))
            case None => Get(d, k)
  {
    if n > 1 {
      ExtensionsLookup(d, hdus, n - 1, namedPrefix, indexPrefix, k);
    }
  }

  lemma {:induction false} ExtensionsDistinct(d: seq<Field>, hdus: seq<Header>, n: nat, namedPrefix: string, indexPrefix: string)
    requires n <= |hdus| && DistinctKeys(d)
    ensures DistinctKeys(ExtensionsUpTo(d, hdus, n, namedPrefix, indexPrefix))
  {
    if n > 1 {
      ExtensionsDistinct(d, hdus, n - 1, namedPrefix, indexPrefix);
    }
  }

  /** The `for idx, hdu in enumerate(hdulist[1:], start=1)` loop, storing each extension's header
      dict into `d`. */
  method PutExtensions(d: seq<Field>, hdus: seq<Header>, namedPrefix: string, indexPrefix: string) returns (r: seq<Field>)
    requires hdus != []  // the primary HDU has already been read
    ensures r == ExtensionsUpTo(d, hdus, |hdus|, namedPrefix, indexPrefix)
  {
    r := d;
    for idx := 1 to |hdus|
      invariant r == ExtensionsUpTo(d, hdus, idx, namedPrefix, indexPrefix)
    {
      var extdata := HeaderToDict(hdus[idx].cards);
      var name := if hdus[idx].extname.Some? then namedPrefix + hdus[idx].extname.value
                  else indexPrefix + Text.NatToDecimal(idx);
      ExtensionsUpToStep(d, hdus, idx, namedPrefix, indexPrefix, r, name, extdata);
      r := Put(r, name, Dict(extdata));
    }
  }

  /** One turn of the extension loop stores HDU `idx` under its name. */
  lemma ExtensionsUpToStep(d: seq<Field>, hdus: seq<Header>, idx: nat, namedPrefix: string, indexPrefix: string,
                           r: seq<Field>, name: string, extdata: seq<Field>)
    requires 1 <= idx < |hdus|
    requires r == ExtensionsUpTo(d, hdus, idx, namedPrefix, indexPrefix)
    requires name == if hdus[idx].extname.Some? then namedPrefix + hdus[idx].extname.value
                     else indexPrefix + Text.NatToDecimal(idx)
    requires extdata == CardsDict(hdus[idx].cards)
    ensures Put(r, name, Dict(extdata)) == ExtensionsUpTo(d, hdus, idx + 1, namedPrefix, indexPrefix)
  {
    assert name == ExtName(hdus[idx], idx, namedPrefix, indexPrefix);
  }
}
