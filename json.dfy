/** The Python values that metadata payloads are built from: scalars, lists and insertion-ordered
    dicts with string keys, plus the exceptions the payload code can raise. */
module Json {
  import opened Wrappers
  import Text

  /** Scalar values: FITS card values, checksums and sizes, and the UTC timestamps the date
      extractor produces (microseconds since the epoch). */
  datatype Atom = Null | Bool(b: bool) | Int(i: int) | Real(r: real) | Str(s: string) | Time(utcMicros: int)

  datatype Json = Scalar(atom: Atom) | List(items: seq<Json>) | Dict(fields: seq<Field>)

  /** One key of a dict, in the dict's insertion order. */
  datatype Field = Field(key: string, value: Json)

  /** The Python exceptions the modelled code can raise. */
  datatype PyError =
    | KeyError(key: string)
    | TypeError
    | IndexError
    | RuntimeError(message: string)
    | ArgumentTypeError(message: string)  // argparse's conversion failure
    | DateParseFailure      // a date parser exception other than ValueError
    | OpenFailure           // the FITS reader refused the file
    | OSError               // `open(filename, 'rb')` failed
    | NotModelled           // indexing a list with its own items, left out of the model

  function Keys(fs: seq<Field>): (ks: seq<string>)
    ensures |ks| == |fs| && forall i :: 0 <= i < |fs| ==> ks[i] == fs[i].key
  {
    seq(|fs|, i requires 0 <= i < |fs| => fs[i].key)
  }

  /** A well-formed dict: no key twice. */
  ghost predicate DistinctKeys(fs: seq<Field>)
  {
    forall i, j :: 0 <= i < j < |fs| ==> fs[i].key != fs[j].key
  }

  /** The position of key `k`, or `|fs|` when it is absent. */
  function IndexOf(fs: seq<Field>, k: string): (i: nat)
    ensures i <= |fs|
    ensures i < |fs| ==> fs[i].key == k
    ensures forall j :: 0 <= j < i ==> fs[j].key != k
    ensures i == |fs| <==> k !in Keys(fs)
  {
    if fs == [] then 0
    else if fs[0].key == k then 0
    else
      KeysCons(fs);
      1 + IndexOf(fs[1..], k)
  }

  /** The keys of a non-empty dict: its first key, then the keys of the rest. */
  lemma KeysCons(fs: seq<Field>)
    requires fs != []
    ensures Keys(fs) == [fs[0].key] + Keys(fs[1..])
  {
  }

  /** `d.get(k)`. */
  function Get(fs: seq<Field>, k: string): (r: Option<Json>)
    ensures r.Some? <==> k in Keys(fs)
  {
    var i := IndexOf(fs, k);
    if i < |fs| then Some(fs[i].value) else None
  }

  /** `d[k] = v`: an existing key keeps its place, a new key goes last. */
  function Put(fs: seq<Field>, k: string, v: Json): (r: seq<Field>)
    ensures Get(r, k) == Some(v)
    ensures forall k' {:trigger Get(r, k')} :: k' != k ==> Get(r, k') == Get(fs, k')
    ensures Keys(r) == if k in Keys(fs) then Keys(fs) else Keys(fs) + [k]
    ensures DistinctKeys(fs) ==> DistinctKeys(r)
  {
    var i := IndexOf(fs, k);
    var r := if i < |fs| then fs[i := Field(k, v)] else fs + [Field(k, v)];
    PutKeys(fs, k, v, i, r);
    forall k' | k' != k ensures Get(r, k') == Get(fs, k') {
      PutOther(fs, k, v, i, r, k');
    }
    r
  }

  /** Every value of the dict is itself a dict. */
  predicate DictValues(fs: seq<Field>)
  {
    forall i :: 0 <= i < |fs| ==> fs[i].value.Dict?
  }

  /** Storing a dictionary in a dict of dictionaries keeps every value a dictionary. */
  lemma PutDictValues(fs: seq<Field>, k: string, v: Json)
    requires DictValues(fs) && v.Dict?
    ensures DictValues(Put(fs, k, v))
  {
  }

  lemma PutKeys(fs: seq<Field>, k: string, v: Json, i: nat, r: seq<Field>)
    requires i == IndexOf(fs, k)
    requires r == if i < |fs| then fs[i := Field(k, v)] else fs + [Field(k, v)]
    ensures Keys(r) == if k in Keys(fs) then Keys(fs) else Keys(fs) + [k]
    ensures IndexOf(r, k) == i
    ensures DistinctKeys(fs) ==> DistinctKeys(r)
  {
    if i < |fs| {
      PutKeysReplace(fs, k, v, i);
    } else {
      PutKeysAppend(fs, k, v);
    }
  }

  /** Replacing the value of an existing key keeps every key where it was. */
  lemma PutKeysReplace(fs: seq<Field>, k: string, v: Json, i: nat)
    requires i == IndexOf(fs, k) && i < |fs|
    ensures Keys(fs[i := Field(k, v)]) == Keys(fs)
    ensures IndexOf(fs[i := Field(k, v)], k) == i
    ensures DistinctKeys(fs) ==> DistinctKeys(fs[i := Field(k, v)])
  {
    var r := fs[i := Field(k, v)];
    assert forall j :: 0 <= j < |r| ==> r[j].key == fs[j].key;
    assert Keys(r) == Keys(fs);
  }

  /** Appending a new key puts it last. */
  lemma PutKeysAppend(fs: seq<Field>, k: string, v: Json)
    requires IndexOf(fs, k) == |fs|
    ensures Keys(fs + [Field(k, v)]) == Keys(fs) + [k]
    ensures IndexOf(fs + [Field(k, v)], k) == |fs|
    ensures DistinctKeys(fs) ==> DistinctKeys(fs + [Field(k, v)])
  {
    var r := fs + [Field(k, v)];
    assert forall j :: 0 <= j < |fs| ==> r[j] == fs[j] && fs[j].key != k;
    assert Keys(r) == Keys(fs) + [k];
  }

  lemma PutOther(fs: seq<Field>, k: string, v: Json, i: nat, r: seq<Field>, k': string)
    requires i == IndexOf(fs, k) && k' != k
    requires r == if i < |fs| then fs[i := Field(k, v)] else fs + [Field(k, v)]
    ensures Get(r, k') == Get(fs, k')
  {
    var j := IndexOf(fs, k');
    assert forall m :: 0 <= m < |fs| ==> r[m].key == fs[m].key && (m != i ==> r[m] == fs[m]);
    if j < |fs| {
      PutOtherPresent(fs, r, k', j);
    } else {
      PutOtherAbsent(fs, r, k, k');
    }
  }

  lemma PutOtherPresent(fs: seq<Field>, r: seq<Field>, k': string, j: nat)
    requires j == IndexOf(fs, k') && j < |fs| && j < |r| && r[j] == fs[j]
    requires forall m :: 0 <= m < j ==> r[m].key == fs[m].key
    ensures Get(r, k') == Get(fs, k')
  {
    assert IndexOf(r, k') == j;
  }

  lemma PutOtherAbsent(fs: seq<Field>, r: seq<Field>, k: string, k': string)
    requires IndexOf(fs, k') == |fs| && k' != k
    requires |r| == |fs| || (|r| == |fs| + 1 && r[|fs|].key == k)
    requires forall m :: 0 <= m < |fs| ==> r[m].key == fs[m].key
    ensures Get(r, k') == Get(fs, k')
  {
    assert forall m :: 0 <= m < |r| ==> r[m].key != k';
  }

  /** The first field's value is what `Get` finds in a dict whose keys are distinct. */
  lemma GetAt(fs: seq<Field>, i: nat)
    requires DistinctKeys(fs) && i < |fs|
    ensures Get(fs, fs[i].key) == Some(fs[i].value)
  {
    assert IndexOf(fs, fs[i].key) == i;
  }

  /** Python's `k in x` for a string `k`: dict membership, list membership, substring; every other
      type raises TypeError. */
  function Contains(x: Json, k: string): (r: Result<bool, PyError>)
    ensures x.Dict? ==> r == Ok(k in Keys(x.fields))
  {
    match x
    case Dict(fs) => Ok(k in Keys(fs))
    case List(items) => Ok(Scalar(Str(k)) in items)
    case Scalar(Str(s)) => Ok(Text.IsSubstring(k, s))
    case Scalar(_) => Err(TypeError)
  }

  /** Python's `x[k]` for a string `k`: dict lookup raising KeyError; lists and strings need integer
      indices and scalars are not subscriptable, both TypeError. */
  function Subscript(x: Json, k: string): (r: Result<Json, PyError>)
    ensures r.Ok? <==> x.Dict? && k in Keys(x.fields)
    ensures r.Ok? ==> Some(r.value) == Get(x.fields, k)
  {
    match x
    case Dict(fs) => if k in Keys(fs) then Ok(Get(fs, k).value) else Err(KeyError(k))
    case _ => Err(TypeError)
  }
}
