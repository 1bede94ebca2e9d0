/** Metadata payload assembly (exao_dap_client/datum.py): the deep merge, the FITS and date
    extractors, and the extractor stack folded by `make_payload`. */
module Datum {
  import opened Wrappers
  import opened Json
  import Text
  import Fits
  import Utils

  // ---------------------------------------------------------------------------------------------
  // merge_payload
  // ---------------------------------------------------------------------------------------------

  /** Every dict inside the value, at any depth, has distinct keys (true of every Python dict). */
  ghost predicate WellFormed(j: Json)
  {
    match j
    case Scalar(_) => true
    case List(xs) => forall i :: 0 <= i < |xs| ==> WellFormed(xs[i])
    case Dict(fs) => WellFormedFields(fs)
  }

  ghost predicate WellFormedFields(fs: seq<Field>)
  {
    DistinctKeys(fs) && forall i :: 0 <= i < |fs| ==> WellFormed(fs[i].value)
  }

  /** What `list.extend(v)` appends: a list's items, a dict's keys in order, a string's
      characters; any other value is not iterable. */
  function ExtendItems(v: Json): (r: Result<seq<Json>, PyError>)
    ensures r.Err? <==> v.Scalar? && !v.atom.Str?
    ensures v.List? ==> r == Ok(v.items)
  {
    match v
    case List(xs) => Ok(xs)
    case Dict(fs) => Ok(seq(|fs|, i requires 0 <= i < |fs| => Scalar(Str(fs[i].key))))
    case Scalar(Str(s)) => Ok(seq(|s|, i requires 0 <= i < |s| => Scalar(Str([s[i]]))))
    case Scalar(_) => Err(TypeError)
  }

  /** The merged dict, or the exception the merge raised, together with the value the caller's
      original dict has afterwards: `.copy()` is shallow, so the lists the merge extends, and the
      nested dicts it merges into themselves, are the original's own objects. */
  datatype MergeOutcome = MergeOutcome(result: Result<seq<Field>, PyError>, original: seq<Field>)

  /** `merge_payload(original, update)`: a shallow copy of `original`, then one step per key of `update` (the source's `new_payload`). */
  function Merge(original: seq<Field>, update: seq<Field>): MergeOutcome
    decreases Dict(original), 1
  {
    MergeFold(original, original, original, update)
  }

  /** The loop of `merge_payload` with `final` built so far, `now` the current value of the
      caller's original, and `pending` the keys of `new` still to visit. Decisions look at `o`,
      the original as it was passed in. */
  function MergeFold(o: seq<Field>, final: seq<Field>, now: seq<Field>, pending: seq<Field>): MergeOutcome
    decreases Dict(o), 0, |pending|
  {
    if pending == [] then MergeOutcome(Ok(final), now)
    else
      var key, v := pending[0].key, pending[0].value;
      var i := IndexOf(o, key);
      if i == |o| then MergeFold(o, Put(final, key, v), now, pending[1..])
      else
        match o[i].value
        case List(items) =>
          (match ExtendItems(v)
           case Err(e) => MergeOutcome(Err(e), now)
           case Ok(more) =>
             var l := List(items + more);
             MergeFold(o, Put(final, key, l), Put(now, key, l), pending[1..]))
        case Dict(d) =>
          // merge_payload(original[key], final_payload[key]): both arguments are the same dict
          var inner := Merge(d, d);
          (match inner.result
           case Err(e) => MergeOutcome(Err(e), Put(now, key, Dict(inner.original)))
           case Ok(m) => MergeFold(o, Put(final, key, Dict(m)), Put(now, key, Dict(inner.original)), pending[1..]))
        case Scalar(_) => MergeFold(o, Put(final, key, v), now, pending[1..])
  }

  /** A dict merged into itself: every list, at any depth below dicts, followed by itself. */
  function DoubleLists(fs: seq<Field>): (r: seq<Field>)
    ensures Keys(r) == Keys(fs)
  {
    seq(|fs|, i requires 0 <= i < |fs| => Field(fs[i].key, DoubleValue(fs[i].value)))
  }

  function DoubleValue(v: Json): Json
  {
    match v
    case List(xs) => List(xs + xs)
    case Dict(e) => Dict(DoubleLists(e))
    case Scalar(_) => v
  }

  /** Reference definition of the value the merge gives key `k` when `new` holds `v` there:
      absent from the original, the new value; an original list, extended; an original dict, the
      original merged into itself (the new value is discarded); an original scalar, the new value. */
  function MergedValue(o: seq<Field>, k: string, v: Json): Result<Json, PyError>
  {
    match Get(o, k)
    case None => Ok(v)
    case Some(List(items)) =>
      (match ExtendItems(v)
       case Err(e) => Err(e)
       case Ok(more) => Ok(List(items + more)))
    case Some(Dict(d)) => Ok(Dict(DoubleLists(d)))
    case Some(Scalar(_)) => Ok(v)
  }

  /** Whether the original's value at `k` is a list or a dict, i.e. an object the merge mutates. */
  predicate MutatedInPlace(o: seq<Field>, k: string)
  {
    Get(o, k).Some? && !Get(o, k).value.Scalar?
  }

  /** The keys of `pending` that `ks` lacks, in `pending`'s order. */
  function NewKeys(ks: seq<string>, pending: seq<Field>): seq<string>
  {
    if pending == [] then []
    else (if pending[0].key in ks then [] else [pending[0].key]) + NewKeys(ks, pending[1..])
  }

  // Lemmas about dict fields, used by the merge proofs

  lemma IndexOfSameKeys(a: seq<Field>, b: seq<Field>, k: string)
    requires Keys(a) == Keys(b)
    ensures IndexOf(a, k) == IndexOf(b, k)
  {
    assert |a| == |b|;
  }

  /** Two dicts with the same keys in the same order and the same value at every key are equal. */
  lemma FieldsExt(a: seq<Field>, b: seq<Field>)
    requires Keys(a) == Keys(b) && DistinctKeys(a)
    requires forall k :: Get(a, k) == Get(b, k)
    ensures a == b
  {
    assert |a| == |b|;
    forall i | 0 <= i < |a| ensures a[i] == b[i] {
      FieldsExtAt(a, b, i);
    }
  }

  lemma FieldsExtAt(a: seq<Field>, b: seq<Field>, i: nat)
    requires Keys(a) == Keys(b) && DistinctKeys(a) && i < |a|
    requires Get(a, a[i].key) == Get(b, a[i].key)
    ensures a[i] == b[i]
  {
    assert a[i].key == Keys(a)[i] == Keys(b)[i] == b[i].key;
    IndexOfSameKeys(a, b, a[i].key);
    GetAt(a, i);
  }

  lemma DistinctKeysOfKeys(a: seq<Field>, b: seq<Field>)
    requires Keys(a) == Keys(b) && DistinctKeys(a)
    ensures DistinctKeys(b)
  {
    forall i, j | 0 <= i < j < |b| ensures b[i].key != b[j].key {
      assert Keys(a)[i] == b[i].key && Keys(a)[j] == b[j].key;
    }
  }

  lemma DistinctSuffix(fs: seq<Field>)
    requires DistinctKeys(fs) && fs != []
    ensures DistinctKeys(fs[1..])
    ensures fs[0].key !in Keys(fs[1..])
  {
  }

  /** Looking a key up in `pending` past its first field. */
  lemma GetTail(fs: seq<Field>, k: string)
    requires fs != [] && k != fs[0].key
    ensures Get(fs, k) == Get(fs[1..], k)
    ensures k in Keys(fs) <==> k in Keys(fs[1..])
  {
    assert Keys(fs) == [fs[0].key] + Keys(fs[1..]);
  }

  lemma NewKeysExtend(ks: seq<string>, k: string, pending: seq<Field>)
    requires k !in Keys(pending)
    ensures NewKeys(ks + [k], pending) == NewKeys(ks, pending)
    decreases |pending|
  {
    if pending != [] {
      assert Keys(pending) == [pending[0].key] + Keys(pending[1..]);
      NewKeysExtend(ks, k, pending[1..]);
    }
  }

  lemma {:induction false} NewKeysNone(ks: seq<string>, pending: seq<Field>)
    requires forall i :: 0 <= i < |pending| ==> pending[i].key in ks
    ensures NewKeys(ks, pending) == []
    decreases |pending|
  {
    if pending != [] {
      NewKeysNone(ks, pending[1..]);
    }
  }

  lemma WellFormedAt(fs: seq<Field>, k: string)
    requires WellFormedFields(fs) && Get(fs, k).Some?
    ensures WellFormed(Get(fs, k).value)
  {
  }

  /** What the merge loop needs of its state: `now` agrees with `o` at every key still pending. */
  ghost predicate FoldPre(o: seq<Field>, final: seq<Field>, now: seq<Field>, pending: seq<Field>)
  {
    && WellFormedFields(o) && DistinctKeys(final) && DistinctKeys(pending) && DistinctKeys(now)
    && Keys(now) == Keys(o)
    && forall i :: 0 <= i < |pending| ==> Get(now, pending[i].key) == Get(o, pending[i].key)
  }

  ghost predicate AllMergeable(o: seq<Field>, pending: seq<Field>)
  {
    forall i :: 0 <= i < |pending| ==> MergedValue(o, pending[i].key, pending[i].value).Ok?
  }

  /** Every key of `pending` holds its `MergedValue` in `r`; every other key what `final` had. */
  ghost predicate ResultValues(o: seq<Field>, final: seq<Field>, pending: seq<Field>, r: seq<Field>)
  {
    forall k {:trigger Get(r, k)} :: Get(r, k) ==
      if k in Keys(pending) then Merged(o, pending, k) else Get(final, k)
  }

  /** The merged value of pending key `k`, if its merge does not raise. */
  ghost function Merged(o: seq<Field>, pending: seq<Field>, k: string): Option<Json>
    requires k in Keys(pending)
  {
    match MergedValue(o, k, Get(pending, k).value)
    case Ok(x) => Some(x)
    case Err(_) => None
  }

  /** The caller's original `after` the loop: the merged value where the merge mutated the
      original's own object, what it was before (`now`) everywhere else. */
  ghost predicate OriginalValues(o: seq<Field>, now: seq<Field>, pending: seq<Field>, r: seq<Field>, after: seq<Field>)
  {
    forall k {:trigger Get(after, k)} :: Get(after, k) ==
      if k in Keys(pending) && MutatedInPlace(o, k) then Get(r, k) else Get(now, k)
  }

  /** The merge loop against the reference definition `MergedValue`: it raises exactly when some
      key's `MergedValue` raises; otherwise every key of `pending` gets its `MergedValue`, the other
      keys keep what `final` had, new keys go last in `pending`'s order, and the caller's original
      changes exactly at the keys where the merge extended or self-merged its object. */
  ghost predicate FoldPost(o: seq<Field>, final: seq<Field>, now: seq<Field>, pending: seq<Field>, out: MergeOutcome)
  {
    && (out.result.Ok? <==> AllMergeable(o, pending))
    && (out.result.Ok? ==>
          && Keys(out.result.value) == Keys(final) + NewKeys(Keys(final), pending)
          && DistinctKeys(out.result.value)
          && ResultValues(o, final, pending, out.result.value)
          && Keys(out.original) == Keys(o) && DistinctKeys(out.original)
          && OriginalValues(o, now, pending, out.result.value, out.original))
  }

  /** The loop state after one key whose merged value is `val`. */
  lemma FoldPreStep(o: seq<Field>, final: seq<Field>, now: seq<Field>, pending: seq<Field>, val: Json)
    requires FoldPre(o, final, now, pending) && pending != []
    requires MergedValue(o, pending[0].key, pending[0].value) == Ok(val)
    ensures FoldPre(o, Put(final, pending[0].key, val),
                    if MutatedInPlace(o, pending[0].key) then Put(now, pending[0].key, val) else now,
                    pending[1..])
  {
    var key, rest := pending[0].key, pending[1..];
    DistinctSuffix(pending);
    var now' := if MutatedInPlace(o, key) then Put(now, key, val) else now;
    forall i | 0 <= i < |rest| ensures Get(now', rest[i].key) == Get(o, rest[i].key) {
      assert rest[i] == pending[i + 1];
      assert rest[i].key in Keys(rest);
    }
  }

  lemma AllMergeableStep(o: seq<Field>, pending: seq<Field>)
    requires pending != []
    ensures AllMergeable(o, pending) <==>
              MergedValue(o, pending[0].key, pending[0].value).Ok? && AllMergeable(o, pending[1..])
  {
    var rest := pending[1..];
    if MergedValue(o, pending[0].key, pending[0].value).Ok? && AllMergeable(o, rest) {
      forall i | 0 < i < |pending| ensures MergedValue(o, pending[i].key, pending[i].value).Ok? {
        assert pending[i] == rest[i - 1];
      }
    }
    if AllMergeable(o, pending) {
      forall i | 0 <= i < |rest| ensures MergedValue(o, rest[i].key, rest[i].value).Ok? {
        assert rest[i] == pending[i + 1];
      }
    }
  }

  lemma ResultValuesStep(o: seq<Field>, final: seq<Field>, pending: seq<Field>, val: Json, r: seq<Field>)
    requires DistinctKeys(pending) && pending != []
    requires MergedValue(o, pending[0].key, pending[0].value) == Ok(val)
    requires ResultValues(o, Put(final, pending[0].key, val), pending[1..], r)
    ensures ResultValues(o, final, pending, r)
    ensures Get(r, pending[0].key) == Some(val)
  {
    var key, v, rest := pending[0].key, pending[0].value, pending[1..];
    DistinctSuffix(pending);
    assert Get(pending, key) == Some(v);
    assert key in Keys(pending);
    assert Merged(o, pending, key) == Some(val);
    forall k ensures Get(r, k) == if k in Keys(pending) then Merged(o, pending, k) else Get(final, k) {
      if k != key {
        ResultValuesOther(o, final, pending, val, r, k);
      }
    }
  }

  /** `ResultValuesStep` at a key other than the one visited. */
  lemma ResultValuesOther(o: seq<Field>, final: seq<Field>, pending: seq<Field>, val: Json, r: seq<Field>, k: string)
    requires pending != [] && k != pending[0].key
    requires ResultValues(o, Put(final, pending[0].key, val), pending[1..], r)
    ensures Get(r, k) == if k in Keys(pending) then Merged(o, pending, k) else Get(final, k)
  {
    GetTail(pending, k);
    assert Get(r, k) == if k in Keys(pending[1..]) then Merged(o, pending[1..], k)
                        else Get(Put(final, pending[0].key, val), k);
    if k in Keys(pending) {
      assert Merged(o, pending, k) == Merged(o, pending[1..], k);
    }
  }

  lemma OriginalValuesStep(o: seq<Field>, now: seq<Field>, pending: seq<Field>, val: Json, r: seq<Field>, after: seq<Field>)
    requires DistinctKeys(pending) && pending != []
    requires Get(r, pending[0].key) == Some(val)
    requires OriginalValues(o, if MutatedInPlace(o, pending[0].key) then Put(now, pending[0].key, val) else now,
                            pending[1..], r, after)
    ensures OriginalValues(o, now, pending, r, after)
  {
    var key := pending[0].key;
    DistinctSuffix(pending);
    assert key in Keys(pending);
    forall k ensures Get(after, k) == if k in Keys(pending) && MutatedInPlace(o, k) then Get(r, k) else Get(now, k) {
      if k != key {
        GetTail(pending, k);
      }
    }
  }

  lemma KeysStep(ks: seq<string>, pending: seq<Field>, rk: seq<string>)
    requires pending != [] && pending[0].key !in Keys(pending[1..])
    requires var ks' := if pending[0].key in ks then ks else ks + [pending[0].key];
             rk == ks' + NewKeys(ks', pending[1..])
    ensures rk == ks + NewKeys(ks, pending)
  {
    var key := pending[0].key;
    var tail := NewKeys(ks, pending[1..]);
    assert NewKeys(ks, pending) == (if key in ks then [] else [key]) + tail;
    if key !in ks {
      NewKeysExtend(ks, key, pending[1..]);
      assert (ks + [key]) + tail == ks + ([key] + tail);
    } else {
      assert [] + tail == tail;
    }
  }

  /** One key of the merge loop preserves `FoldPost` backwards: what holds for the rest of the keys
      from the next state holds for all of them from this one. */
  lemma FoldPostStep(o: seq<Field>, final: seq<Field>, now: seq<Field>, pending: seq<Field>, val: Json, out: MergeOutcome)
    requires FoldPre(o, final, now, pending) && pending != []
    requires MergedValue(o, pending[0].key, pending[0].value) == Ok(val)
    requires FoldPost(o, Put(final, pending[0].key, val),
                      if MutatedInPlace(o, pending[0].key) then Put(now, pending[0].key, val) else now,
                      pending[1..], out)
    ensures FoldPost(o, final, now, pending, out)
  {
    DistinctSuffix(pending);
    AllMergeableStep(o, pending);
    if out.result.Ok? {
      var r := out.result.value;
      KeysStep(Keys(final), pending, Keys(r));
      ResultValuesStep(o, final, pending, val, r);
      OriginalValuesStep(o, now, pending, val, r, out.original);
    }
  }

  lemma {:induction false} MergeFoldSpec(o: seq<Field>, final: seq<Field>, now: seq<Field>, pending: seq<Field>)
    requires FoldPre(o, final, now, pending)
    ensures FoldPost(o, final, now, pending, MergeFold(o, final, now, pending))
    decreases Dict(o), 0, |pending|
  {
    if pending != [] {
      var key, v, rest := pending[0].key, pending[0].value, pending[1..];
      var i := IndexOf(o, key);
      var out := MergeFold(o, final, now, pending);
      match MergedValue(o, key, v)
      case Err(e) => {
        MergeFoldErrStep(o, final, now, pending);
        AllMergeableStep(o, pending);
      }
      case Ok(val) => {
        if i < |o| && o[i].value.Dict? {
          assert WellFormed(o[i].value);
          SelfMerge(o[i].value.fields);
        }
        var now' := if MutatedInPlace(o, key) then Put(now, key, val) else now;
        MergeFoldOkStep(o, final, now, pending, val);
        FoldPreStep(o, final, now, pending, val);
        MergeFoldSpec(o, Put(final, key, val), now', rest);
        FoldPostStep(o, final, now, pending, val, out);
      }
    }
  }

  /** One loop step whose key does not merge: the loop raises. */
  lemma MergeFoldErrStep(o: seq<Field>, final: seq<Field>, now: seq<Field>, pending: seq<Field>)
    requires pending != [] && MergedValue(o, pending[0].key, pending[0].value).Err?
    ensures MergeFold(o, final, now, pending).result.Err?
  {
    var i := IndexOf(o, pending[0].key);
    if i < |o| {
      assert Get(o, pending[0].key) == Some(o[i].value);
    }
  }

  /** One loop step whose key merges without an exception: the result gets the merged value, and
      the caller's original too when it was mutated in place. */
  lemma MergeFoldOkStep(o: seq<Field>, final: seq<Field>, now: seq<Field>, pending: seq<Field>, val: Json)
    requires pending != []
    requires MergedValue(o, pending[0].key, pending[0].value) == Ok(val)
    requires var i := IndexOf(o, pending[0].key);
             i < |o| && o[i].value.Dict? ==>
               Merge(o[i].value.fields, o[i].value.fields) ==
               MergeOutcome(Ok(DoubleLists(o[i].value.fields)), DoubleLists(o[i].value.fields))
    ensures var key := pending[0].key;
            var now' := if MutatedInPlace(o, key) then Put(now, key, val) else now;
            MergeFold(o, final, now, pending) == MergeFold(o, Put(final, key, val), now', pending[1..])
  {
    var i := IndexOf(o, pending[0].key);
    if i < |o| {
      assert Get(o, pending[0].key) == Some(o[i].value);
    }
  }

  /** Looking up a key of a dict whose lists are doubled. */
  lemma DoubleListsGet(d: seq<Field>, k: string)
    ensures Get(DoubleLists(d), k) == if k in Keys(d) then Some(DoubleValue(Get(d, k).value)) else None
  {
    IndexOfSameKeys(d, DoubleLists(d), k);
  }

  /** Merging a well-formed dict into itself never raises, and gives every key its doubled value. */
  lemma MergedSelf(d: seq<Field>, k: string)
    requires k in Keys(d)
    ensures MergedValue(d, k, Get(d, k).value) == Ok(DoubleValue(Get(d, k).value))
    ensures Merged(d, d, k) == Some(DoubleValue(Get(d, k).value))
  {
  }

  lemma SelfMergeable(d: seq<Field>)
    requires DistinctKeys(d)
    ensures AllMergeable(d, d)
  {
    forall i | 0 <= i < |d| ensures MergedValue(d, d[i].key, d[i].value).Ok? {
      GetAt(d, i);
      assert d[i].key in Keys(d);
      MergedSelf(d, d[i].key);
    }
  }

  /** A dict merged into itself doubles its lists, and the dict passed in ends up the same way. */
  lemma {:induction false} SelfMerge(d: seq<Field>)
    requires WellFormedFields(d)
    ensures Merge(d, d) == MergeOutcome(Ok(DoubleLists(d)), DoubleLists(d))
    decreases Dict(d), 1
  {
    assert FoldPre(d, d, d, d);
    MergeFoldSpec(d, d, d, d);
    SelfMergeable(d);
    var out := Merge(d, d);
    var dl := DoubleLists(d);
    var r := out.result.value;
    NewKeysNone(Keys(d), d);
    assert Keys(r) == Keys(d);
    forall k ensures Get(dl, k) == Get(r, k) {
      DoubleListsGet(d, k);
      if k in Keys(d) {
        MergedSelf(d, k);
      }
    }
    forall k ensures Get(dl, k) == Get(out.original, k) {
      assert Get(dl, k) == Get(r, k);
      DoubleListsGet(d, k);
    }
    DistinctKeysOfKeys(d, dl);
    FieldsExt(dl, r);
    FieldsExt(dl, out.original);
  }

  /** `merge_payload` against its reference definition: the merge raises exactly when some key of
      `update` meets an original list and a value `list.extend` rejects; otherwise the result has
      the original's keys in their order followed by `update`'s new keys in theirs, each key of
      `update` holds its `MergedValue` and every other key its original value, and the caller's
      original has changed exactly at the keys whose list or dict the merge worked on in place. */
  lemma MergeSpec(original: seq<Field>, update: seq<Field>)
    requires WellFormedFields(original) && DistinctKeys(update)
    ensures var out := Merge(original, update);
            && (out.result.Ok? <==> AllMergeable(original, update))
            && (out.result.Ok? ==>
                  && Keys(out.result.value) == Keys(original) + NewKeys(Keys(original), update)
                  && DistinctKeys(out.result.value)
                  && ResultValues(original, original, update, out.result.value)
                  && Keys(out.original) == Keys(original)
                  && OriginalValues(original, original, update, out.result.value, out.original))
  {
    assert FoldPre(original, original, original, update);
    MergeFoldSpec(original, original, original, update);
  }

  /** A list in the original is extended, and the caller's own list with it. */
  lemma MergeExtendsList()
    ensures var o := [Field("a", List([Scalar(Int(1))]))];
            var l := List([Scalar(Int(1)), Scalar(Int(2))]);
            Merge(o, [Field("a", List([Scalar(Int(2))]))]) == MergeOutcome(Ok([Field("a", l)]), [Field("a", l)])
  {
    var o := [Field("a", List([Scalar(Int(1))]))];
    var u := [Field("a", List([Scalar(Int(2))]))];
    var l := List([Scalar(Int(1)), Scalar(Int(2))]);
    assert IndexOf(o, "a") == 0;
    assert Put(o, "a", l) == [Field("a", l)];
    assert u[1..] == [];
    assert Merge(o, u) == MergeFold(o, o, o, u);
    assert ExtendItems(u[0].value) == Ok([Scalar(Int(2))]);
    assert [Scalar(Int(1))] + [Scalar(Int(2))] == l.items;
    assert MergeFold(o, o, o, u) == MergeFold(o, Put(o, "a", l), Put(o, "a", l), []);
  }

  /** The nested dict `{'x': [1]}` merged with itself gives `{'x': [1, 1]}`, in the result and in
      place. */
  lemma SelfMergeExample()
    ensures var inner := [Field("x", List([Scalar(Int(1))]))];
            var doubled := [Field("x", List([Scalar(Int(1)), Scalar(Int(1))]))];
            Merge(inner, inner) == MergeOutcome(Ok(doubled), doubled)
  {
    var inner := [Field("x", List([Scalar(Int(1))]))];
    var doubled := [Field("x", List([Scalar(Int(1)), Scalar(Int(1))]))];
    assert IndexOf(inner, "x") == 0;
    assert Put(inner, "x", doubled[0].value) == doubled;
    assert inner[1..] == [];
    assert [Scalar(Int(1))] + [Scalar(Int(1))] == doubled[0].value.items;
    assert MergeFold(inner, inner, inner, inner) == MergeFold(inner, doubled, doubled, []);
  }

  /** A dict in the original is merged with itself: the update's dict at that key is dropped and the
      original dict's lists are doubled. */
  lemma MergeDropsNestedUpdate()
    ensures var inner := [Field("x", List([Scalar(Int(1))]))];
            var doubled := [Field("x", List([Scalar(Int(1)), Scalar(Int(1))]))];
            Merge([Field("m", Dict(inner))], [Field("m", Dict([Field("y", Scalar(Int(2)))]))])
              == MergeOutcome(Ok([Field("m", Dict(doubled))]), [Field("m", Dict(doubled))])
  {
    var inner := [Field("x", List([Scalar(Int(1))]))];
    var doubled := [Field("x", List([Scalar(Int(1)), Scalar(Int(1))]))];
    var o := [Field("m", Dict(inner))];
    var u := [Field("m", Dict([Field("y", Scalar(Int(2)))]))];
    var out := [Field("m", Dict(doubled))];
    SelfMergeExample();
    assert u[1..] == [];
    assert IndexOf(o, "m") == 0;
    assert Put(o, "m", Dict(doubled)) == out;
    assert MergeFold(o, o, o, u) == MergeFold(o, out, out, []);
  }

  /** Extending a list with an integer raises TypeError and leaves the original as it was. */
  lemma MergeRejectsNonIterable()
    ensures var o := [Field("a", List([]))];
            Merge(o, [Field("a", Scalar(Int(3)))]) == MergeOutcome(Err(TypeError), o)
  {
    assert IndexOf([Field("a", List([]))], "a") == 0;
  }

  /** `merge_payload(original_payload, new_payload)`, run key by key over `new_payload`. */
  method MergePayload(original: seq<Field>, update: seq<Field>) returns (result: Result<seq<Field>, PyError>, after: seq<Field>)
    ensures MergeOutcome(result, after) == Merge(original, update)
    decreases Dict(original)
  {
    var final := original;
    after := original;
    for i := 0 to |update|
      invariant Merge(original, update) == MergeFold(original, final, after, update[i..])
    {
      var key, v := update[i].key, update[i].value;
      assert update[i..][1..] == update[i + 1..];
      var j := IndexOf(original, key);
      if j == |original| {
        final := Put(final, key, v);
      } else {
        match original[j].value
        case List(items) => {
          var more := ExtendItems(v);
          if more.Err? {
            return Err(more.error), after;
          }
          var l := List(items + more.value);
          final := Put(final, key, l);
          after := Put(after, key, l);
        }
        case Dict(d) => {
          var m, dAfter := MergePayload(d, d);
          if m.Err? {
            return Err(m.error), Put(after, key, Dict(dAfter));
          }
          final := Put(final, key, Dict(m.value));
          after := Put(after, key, Dict(dAfter));
        }
        case Scalar(_) => {
          final := Put(final, key, v);
        }
      }
    }
    result := Ok(final);
  }

  // ---------------------------------------------------------------------------------------------
  // fits_extractor
  // ---------------------------------------------------------------------------------------------

  predicate NoNewline(s: string)
  {
    forall i :: 0 <= i < |s| ==> s[i] != '\n'
  }

  /** What `$` lets the pattern match: the whole string, less one final newline. */
  function MatchBody(s: string): (b: string)
    ensures b == s || (s == b + "\n")
  {
    if s != [] && s[|s| - 1] == '\n' then s[..|s| - 1] else s
  }

  /** `re.match(r'.+\.fits?$', name) is not None`, decided by looking at the end of the string. */
  predicate FitsPattern(name: string)
  {
    var b := MatchBody(name);
    NoNewline(b) && ((|b| >= 5 && b[|b| - 4..] == ".fit") || (|b| >= 6 && b[|b| - 5..] == ".fits"))
  }

  /** What `\.fits?$` accepts after the `.+`. */
  predicate RegexTail(t: string)
  {
    t == ".fit" || t == ".fits" || t == ".fit\n" || t == ".fits\n"
  }

  /** The regular expression read literally: `.+` takes a non-empty run of characters other than a
      newline from the start, then `\.fits?` and `$` (the end, or just before a final newline). */
  ghost predicate FitsRegex(s: string)
  {
    exists k :: 1 <= k <= |s| && NoNewline(s[..k]) && RegexTail(s[k..])
  }

  lemma FitsPatternMatches(s: string)
    requires FitsPattern(s)
    ensures FitsRegex(s)
  {
    var b := MatchBody(s);
    assert b == s[..|b|];
    var k := if |b| >= 5 && b[|b| - 4..] == ".fit" then |b| - 4 else |b| - 5;
    assert s[..k] == b[..k];
    assert b[k..] == ".fit" || b[k..] == ".fits";
    if b == s {
      assert s[k..] == b[k..];
    } else {
      assert s[k..] == b[k..] + "\n";
    }
    assert NoNewline(s[..k]);
    assert RegexTail(s[k..]);
  }

  /** A non-empty newline-free prefix followed by ".fit" or ".fits", with or without one final
      newline, passes `FitsPattern`. */
  lemma SuffixMatches(pre: string, u: string)
    requires |pre| >= 1 && NoNewline(pre) && (u == ".fit" || u == ".fits")
    ensures FitsPattern(pre + u) && FitsPattern(pre + u + "\n")
  {
    var b := pre + u;
    assert MatchBody(b + "\n") == b;
    assert MatchBody(b) == b;
    assert b[|b| - |u|..] == u;
    forall i | 0 <= i < |b| ensures b[i] != '\n' {
      if i < |pre| {
        assert b[i] == pre[i];
      } else {
        assert b[i] == u[i - |pre|];
      }
    }
  }

  lemma RegexMatchesPattern(s: string, k: nat)
    requires 1 <= k <= |s| && NoNewline(s[..k]) && RegexTail(s[k..])
    ensures FitsPattern(s)
  {
    var pre, t := s[..k], s[k..];
    assert s == pre + t;
    if t == ".fit" || t == ".fit\n" {
      SuffixMatches(pre, ".fit");
      assert t == ".fit" || pre + t == pre + ".fit" + "\n";
    } else {
      SuffixMatches(pre, ".fits");
      assert t == ".fits" || pre + t == pre + ".fits" + "\n";
    }
  }

  lemma FitsPatternIsRegex(s: string)
    ensures FitsPattern(s) <==> FitsRegex(s)
  {
    if FitsPattern(s) {
      FitsPatternMatches(s);
    }
    if FitsRegex(s) {
      var k :| 1 <= k <= |s| && NoNewline(s[..k]) && RegexTail(s[k..]);
      RegexMatchesPattern(s, k);
    }
  }

  /** `name` matches: at least one character, then a lower-case ".fit" or ".fits" at the end. */
  lemma FitsPatternExamples()
    ensures FitsPattern("example.fits") && FitsPattern("a.fit") && FitsPattern("a.fits\n")
    ensures !FitsPattern(".fits") && !FitsPattern("X.FITS") && !FitsPattern("a.fits.gz")
    ensures !FitsPattern("a\nb.fits") && !FitsPattern("a.fits\n\n")
  {
    assert "example.fits"[7..] == ".fits";
    assert "a.fit"[1..] == ".fit";
    assert MatchBody("a.fits\n") == "a.fits";
    assert "a.fits"[1..] == ".fits";
    assert MatchBody("a\nb.fits")[1] == '\n';
    assert MatchBody("a.fits\n\n")[6] == '\n';
  }

  /** astropy's `fits.open` applied to the bytes of a file: its HDU headers in order, or the
      exception it raised. */
  type FitsReader = Utils.Bytes -> Result<seq<Fits.Header>, PyError>

  /** How many of the bytes left in the handle `fits.open` reads, moving the handle past them. */
  type FitsReadLength = Utils.Bytes -> nat

  /** The `data` dict `fits_extractor` builds: the primary header's cards, then `'ext'` holding each
      extension's cards under its EXTNAME or `idx_<i>`. */
  function FitsData(hdus: seq<Fits.Header>): seq<Field>
    requires hdus != []
  {
    Put(Fits.CardsDict(hdus[0].cards), "ext", Dict(Fits.ExtensionsUpTo([], hdus, |hdus|, "", "idx_")))
  }

  /** What `fits_extractor(payload, fh)` returns when `content` is what `fits.open` reads from `fh`. */
  function FitsExtract(payload: seq<Field>, content: Utils.Bytes, fitsOpen: FitsReader): (r: Result<seq<Field>, PyError>)
    ensures Get(payload, "filename").None? ==> r == Err(KeyError("filename"))
    ensures r.Ok? ==> r.value == payload || Keys(r.value) == ["meta"]
    ensures r.Ok? && r.value != payload ==> fitsOpen(content).Ok? && fitsOpen(content).value != []
  {
    match Get(payload, "filename")
    case None => Err(KeyError("filename"))
    case Some(Scalar(Str(name))) =>
      if !FitsPattern(name) then Ok(payload)
      else
        (match fitsOpen(content)
         case Err(e) => Err(e)
         case Ok(hdus) =>
           if hdus == [] then Err(IndexError)
           else Ok([Field("meta", Dict([Field("fits", Dict(FitsData(hdus)))]))]))
    case Some(_) => Err(TypeError)  // re.match needs a string
  }

  /** How far `fits_extractor` moves a handle holding `rest`: past what `fits.open` reads when
      the name matches, not at all otherwise (or when it raises before calling `fits.open`). */
  function FitsAdvance(payload: seq<Field>, rest: Utils.Bytes, fitsRead: FitsReadLength): (k: nat)
    ensures k <= |rest|
    ensures k > 0 ==> Get(payload, "filename").Some? && Get(payload, "filename").value.Scalar? &&
                      Get(payload, "filename").value.atom.Str? && FitsPattern(Get(payload, "filename").value.atom.s)
  {
    match Get(payload, "filename")
    case Some(Scalar(Str(name))) => if FitsPattern(name) then Utils.ReadLength(|rest|, fitsRead(rest)) else 0
    case _ => 0
  }

  /** `make_payload`'s first extractor sees `{'filename': basename}`: the handle moves past what
      `fits.open` reads exactly when the base name matches the FITS pattern. */
  lemma SeedAdvance(filename: string, rest: Utils.Bytes, fitsRead: FitsReadLength)
    ensures FitsAdvance(Seed(filename), rest, fitsRead) ==
            if FitsPattern(Text.Basename(filename)) then Utils.ReadLength(|rest|, fitsRead(rest)) else 0
  {
    assert Get(Seed(filename), "filename") == Some(Scalar(Str(Text.Basename(filename))));
  }

  /** `fits_extractor(payload, file_handle)`. */
  method FitsExtractor(payload: seq<Field>, fh: Utils.FileHandle, fitsOpen: FitsReader, fitsRead: FitsReadLength)
    returns (r: Result<seq<Field>, PyError>)
    modifies fh`pos
    ensures r == FitsExtract(payload, Utils.Remaining(fh.content, old(fh.pos)), fitsOpen)
    ensures fh.pos == old(fh.pos) + FitsAdvance(payload, Utils.Remaining(fh.content, old(fh.pos)), fitsRead)
  {
    var filename := Get(payload, "filename");
    if filename.None? {
      return Err(KeyError("filename"));
    }
    if !(filename.value.Scalar? && filename.value.atom.Str?) {
      return Err(TypeError);
    }
    if !FitsPattern(filename.value.atom.s) {
      return Ok(payload);
    }
    var rest := Utils.Remaining(fh.content, fh.pos);
    var hdulist := fitsOpen(rest);
    var read := fh.Read(fitsRead(rest));
    if hdulist.Err? {
      return Err(hdulist.error);
    }
    var hdus := hdulist.value;
    if hdus == [] {
      return Err(IndexError);
    }
    var data := Fits.HeaderToDict(hdus[0].cards);
    var extensions := Fits.PutExtensions([], hdus, "", "idx_");
    data := Put(data, "ext", Dict(extensions));
    r := Ok([Field("meta", Dict([Field("fits", Dict(data))]))]);
  }

  /** The `data` dict: a primary keyword holds the value of its last card unless it is ignored,
      `'ext'` holds the extensions, and extension `name` holds the cards of the last extension
      stored under that name. */
  lemma {:induction false} FitsDataContents(hdus: seq<Fits.Header>)
    requires hdus != []
    ensures var exts := Fits.ExtensionsUpTo([], hdus, |hdus|, "", "idx_");
            && Get(FitsData(hdus), "ext") == Some(Dict(exts))
            && (forall k :: k != "ext" ==>
                  (Get(FitsData(hdus), k) ==
                     if k in Fits.IgnoreKeywords || Fits.LastValue(hdus[0].cards, k).None? then None
                     else Some(Scalar(Fits.LastValue(hdus[0].cards, k).value))))
            && (forall name :: Get(exts, name) ==
                  match Fits.LastExt(hdus, |hdus|, name, "", "idx_")
                  case Some(j) => Some(Dict(Fits.CardsDict(hdus[j].cards)))
                  case None => None)
  {
    forall k | k != "ext" {
      Fits.CardsDictLookup(hdus[0].cards, k);
    }
    forall name {
      Fits.ExtensionsLookup([], hdus, |hdus|, "", "idx_", name);
    }
  }

  /** Every dict of the `data` dict has distinct keys. */
  lemma {:induction false} FitsDataWellFormed(hdus: seq<Fits.Header>)
    requires hdus != []
    ensures WellFormedFields(FitsData(hdus))
  {
    var exts := Fits.ExtensionsUpTo([], hdus, |hdus|, "", "idx_");
    Fits.CardsDictKeys(hdus[0].cards);
    Fits.ExtensionsDistinct([], hdus, |hdus|, "", "idx_");
    ExtensionsWellFormed(hdus, |hdus|);
    CardsWellFormed(hdus[0].cards);
    var data := FitsData(hdus);
    forall i | 0 <= i < |data| ensures WellFormed(data[i].value) {
      GetAt(data, i);
      if data[i].key != "ext" {
        Fits.CardsDictLookup(hdus[0].cards, data[i].key);
      }
    }
  }

  lemma {:induction false} CardsWellFormed(cards: seq<Fits.Card>)
    ensures WellFormedFields(Fits.CardsDict(cards))
  {
    Fits.CardsDictKeys(cards);
    var d := Fits.CardsDict(cards);
    forall i | 0 <= i < |d| ensures WellFormed(d[i].value) {
      GetAt(d, i);
      Fits.CardsDictLookup(cards, d[i].key);
    }
  }

  lemma {:induction false} ExtensionsWellFormed(hdus: seq<Fits.Header>, n: nat)
    requires n <= |hdus|
    ensures WellFormedFields(Fits.ExtensionsUpTo([], hdus, n, "", "idx_"))
  {
    var d := Fits.ExtensionsUpTo([], hdus, n, "", "idx_");
    Fits.ExtensionsDistinct([], hdus, n, "", "idx_");
    forall i | 0 <= i < |d| ensures WellFormed(d[i].value) {
      GetAt(d, i);
      Fits.ExtensionsLookup([], hdus, n, "", "idx_", d[i].key);
      var j := Fits.LastExt(hdus, n, d[i].key, "", "idx_");
      if j.Some? {
        CardsWellFormed(hdus[j.value].cards);
      }
    }
  }

  /** The extension naming of the three-HDU file the test suite builds: the named extension goes
      under its EXTNAME, the unnamed second extension under "idx_2". */
  lemma ExtensionNamesExample(p: seq<Fits.Card>, foo: seq<Fits.Card>, other: seq<Fits.Card>)
    ensures var hdus := [Fits.Header(p, None), Fits.Header(foo, Some("FOO")), Fits.Header(other, None)];
            Keys(Fits.ExtensionsUpTo([], hdus, 3, "", "idx_")) == ["FOO", "idx_2"]
  {
    var hdus := [Fits.Header(p, None), Fits.Header(foo, Some("FOO")), Fits.Header(other, None)];
    assert Text.NatToDecimal(2) == "2";
    assert Fits.ExtName(hdus[1], 1, "", "idx_") == "FOO";
    assert Fits.ExtName(hdus[2], 2, "", "idx_") == "idx_2";
    assert Fits.ExtensionsUpTo([], hdus, 1, "", "idx_") == [];
    var one := Fits.ExtensionsUpTo([], hdus, 2, "", "idx_");
    assert one == Put(Fits.ExtensionsUpTo([], hdus, 1, "", "idx_"), Fits.ExtName(hdus[1], 1, "", "idx_"), Dict(Fits.CardsDict(hdus[1].cards)));
    assert one == Put([], "FOO", Dict(Fits.CardsDict(foo)));
    assert Keys(one) == ["FOO"];
    assert Fits.ExtensionsUpTo([], hdus, 3, "", "idx_") == Put(one, "idx_2", Dict(Fits.CardsDict(other)));
  }

  // ---------------------------------------------------------------------------------------------
  // date_extractor
  // ---------------------------------------------------------------------------------------------

  /** What `_parse_datetime(value)` does with one header value: a UTC time in microseconds since
      the epoch, a ValueError (the value is skipped), or any other exception (it propagates). */
  datatype DateParse = Parsed(utcMicros: int) | NotADate | ParseFailed

  type DateParser = Json -> DateParse

  /** `DATE_KEYWORDS`, in the order they are tried. */
  const DateKeywords: seq<string> := ["DATE-OBS", "DATE"]

  /** One `try: return _parse_datetime(v) except ValueError: pass`. */
  function TryParse(v: Json, parse: DateParser): Result<Option<int>, PyError>
  {
    match parse(v)
    case Parsed(t) => Ok(Some(t))
    case NotADate => Ok(None)
    case ParseFailed => Err(DateParseFailure)
  }

  /** `if kw in x:` followed by the parse of `x[kw]`. */
  function TryHeader(x: Json, kw: string, parse: DateParser): Result<Option<int>, PyError>
  {
    var present :- Contains(x, kw);
    if !present then Ok(None)
    else
      var v :- Subscript(x, kw);
      TryParse(v, parse)
  }

  /** The values `headers['ext'][extkey]` for `extkey in headers['ext']`, in iteration order. */
  function ExtHeaders(ext: Json): Result<seq<Json>, PyError>
  {
    match ext
    case Dict(fs) => Ok(seq(|fs|, i requires 0 <= i < |fs| => fs[i].value))
    case List(xs) => if xs == [] then Ok([]) else Err(NotModelled)
    case Scalar(Str(s)) => if s == "" then Ok([]) else Err(TypeError)  // a str indexed by a str
    case Scalar(_) => Err(TypeError)                                    // not iterable
  }

  /** The inner loop over the extensions, returning at the first value that parses. */
  function SearchExts(exts: seq<Json>, kw: string, parse: DateParser): Result<Option<int>, PyError>
  {
    if exts == [] then Ok(None)
    else
      var r :- TryHeader(exts[0], kw, parse);
      if r.Some? then Ok(r) else SearchExts(exts[1..], kw, parse)
  }

  /** The outer loop over the date keywords: the primary header, then each extension. */
  function SearchKeywords(headers: Json, kws: seq<string>, parse: DateParser): Result<Option<int>, PyError>
  {
    if kws == [] then Ok(None)
    else
      var p :- TryHeader(headers, kws[0], parse);
      if p.Some? then Ok(p)
      else
        var ext :- Subscript(headers, "ext");
        var exts :- ExtHeaders(ext);
        var e :- SearchExts(exts, kws[0], parse);
        if e.Some? then Ok(e) else SearchKeywords(headers, kws[1..], parse)
  }

  /** `date_extractor(payload, file_handle)`: `{'created_at': t}` for the first date found, `{}` when
      there is none or the payload's `'meta'` has no `'fits'`. */
  function DateExtract(payload: seq<Field>, parse: DateParser): (r: Result<seq<Field>, PyError>)
    ensures "meta" !in Keys(payload) ==> r == Err(KeyError("meta"))
    ensures r.Ok? ==> r.value == [] || Keys(r.value) == ["created_at"]
    ensures (Get(payload, "meta").Some? && Get(payload, "meta").value.Dict? &&
             "fits" !in Keys(Get(payload, "meta").value.fields)) ==> r == Ok([])
  {
    var meta :- Subscript(Dict(payload), "meta");
    var hasFits :- Contains(meta, "fits");
    if !hasFits then Ok([])
    else
      var headers :- Subscript(meta, "fits");
      var t :- SearchKeywords(headers, DateKeywords, parse);
      Ok(CreatedAt(t))
  }

  /** The update `date_extractor` returns for the date it found, if any. */
  function CreatedAt(t: Option<int>): seq<Field>
  {
    if t.Some? then [Field("created_at", Scalar(Time(t.value)))] else []
  }

  /** Reference definition of the search: the first candidate that parses wins, a ValueError moves
      on to the next one, any other exception ends the search. */
  function FirstParse(cs: seq<Json>, parse: DateParser): (r: Result<Option<int>, PyError>)
    ensures r == Ok(None) <==> forall i :: 0 <= i < |cs| ==> parse(cs[i]) == NotADate
    ensures r.Ok? && r.value.Some? ==>
              exists i :: 0 <= i < |cs| && parse(cs[i]) == Parsed(r.value.value) &&
                          forall j :: 0 <= j < i ==> parse(cs[j]) == NotADate
  {
    if cs == [] then Ok(None)
    else
      match parse(cs[0])
      case Parsed(t) => Ok(Some(t))
      case NotADate =>
        var r := FirstParse(cs[1..], parse);
        if r.Ok? && r.value.Some? then
          FirstParseShift(cs, parse, r.value.value);
          r
        else r
      case ParseFailed => Err(DateParseFailure)
  }

  lemma FirstParseShift(cs: seq<Json>, parse: DateParser, t: int)
    requires cs != [] && parse(cs[0]) == NotADate
    requires exists i :: 0 <= i < |cs[1..]| && parse(cs[1..][i]) == Parsed(t) &&
                         forall j :: 0 <= j < i ==> parse(cs[1..][j]) == NotADate
    ensures exists i :: 0 <= i < |cs| && parse(cs[i]) == Parsed(t) &&
                        forall j :: 0 <= j < i ==> parse(cs[j]) == NotADate
  {
    var i :| 0 <= i < |cs[1..]| && parse(cs[1..][i]) == Parsed(t) &&
             forall j :: 0 <= j < i ==> parse(cs[1..][j]) == NotADate;
    assert parse(cs[i + 1]) == Parsed(t);
    forall j | 0 <= j < i + 1 ensures parse(cs[j]) == NotADate {
      if j > 0 { assert cs[j] == cs[1..][j - 1]; }
    }
  }

  lemma {:induction false} FirstParseAppend(a: seq<Json>, b: seq<Json>, parse: DateParser)
    ensures FirstParse(a + b, parse) == if FirstParse(a, parse) == Ok(None) then FirstParse(b, parse) else FirstParse(a, parse)
  {
    if a != [] {
      assert (a + b)[0] == a[0];
      assert (a + b)[1..] == a[1..] + b;
      FirstParseAppend(a[1..], b, parse);
    } else {
      assert a + b == b;
    }
  }

  /** The values a dict holds under `kw`: none, or the one value. */
  function At(fs: seq<Field>, kw: string): seq<Json>
  {
    match Get(fs, kw)
    case Some(v) => [v]
    case None => []
  }

  /** The candidates for one keyword: the primary header's value, then each extension's, in the
      extension dict's order. */
  function KeywordCandidates(primary: seq<Field>, exts: seq<seq<Field>>, kw: string): seq<Json>
  {
    At(primary, kw) + ExtCandidates(exts, kw)
  }

  function ExtCandidates(exts: seq<seq<Field>>, kw: string): seq<Json>
  {
    if exts == [] then [] else At(exts[0], kw) + ExtCandidates(exts[1..], kw)
  }

  /** Every date candidate of a FITS payload, in the order `date_extractor` tries them. */
  function DateCandidates(primary: seq<Field>, exts: seq<seq<Field>>): seq<Json>
  {
    KeywordCandidates(primary, exts, "DATE-OBS") + KeywordCandidates(primary, exts, "DATE")
  }

  /** The dicts of an extension dict whose values are all dicts. */
  function ExtDicts(e: seq<Field>): seq<seq<Field>>
  {
    seq(|e|, i requires 0 <= i < |e| => if e[i].value.Dict? then e[i].value.fields else [])
  }

  lemma TryHeaderDict(fs: seq<Field>, kw: string, parse: DateParser)
    ensures TryHeader(Dict(fs), kw, parse) == FirstParse(At(fs, kw), parse)
  {
    if Get(fs, kw).Some? {
      assert At(fs, kw)[1..] == [];
    }
  }

  lemma {:induction false} SearchExtsDicts(exts: seq<seq<Field>>, kw: string, parse: DateParser)
    ensures SearchExts(seq(|exts|, i requires 0 <= i < |exts| => Dict(exts[i])), kw, parse)
            == FirstParse(ExtCandidates(exts, kw), parse)
  {
    var js := seq(|exts|, i requires 0 <= i < |exts| => Dict(exts[i]));
    if exts != [] {
      var tail := seq(|exts[1..]|, i requires 0 <= i < |exts[1..]| => Dict(exts[1..][i]));
      assert js[1..] == tail;
      SearchExtsDicts(exts[1..], kw, parse);
      TryHeaderDict(exts[0], kw, parse);
      FirstParseAppend(At(exts[0], kw), ExtCandidates(exts[1..], kw), parse);
    }
  }

  lemma ExtHeadersOfDicts(e: seq<Field>)
    requires DictValues(e)
    ensures var exts := ExtDicts(e);
            ExtHeaders(Dict(e)) == Ok(seq(|exts|, i requires 0 <= i < |exts| => Dict(exts[i])))
  {
    var exts := ExtDicts(e);
    var js := seq(|exts|, i requires 0 <= i < |exts| => Dict(exts[i]));
    var vs := seq(|e|, i requires 0 <= i < |e| => e[i].value);
    forall i | 0 <= i < |e| ensures vs[i] == js[i] {
      assert exts[i] == e[i].value.fields;
    }
    assert vs == js;
  }

  /** One round of the keyword loop: the primary header, then the extensions, for `kws[0]`. */
  lemma SearchKeywordsStep(fs: seq<Field>, e: seq<Field>, kws: seq<string>, parse: DateParser)
    requires Get(fs, "ext") == Some(Dict(e))
    requires DictValues(e)
    requires kws != []
    ensures var first := FirstParse(KeywordCandidates(fs, ExtDicts(e), kws[0]), parse);
            SearchKeywords(Dict(fs), kws, parse) ==
              if first == Ok(None) then SearchKeywords(Dict(fs), kws[1..], parse) else first
  {
    var exts := ExtDicts(e);
    ExtHeadersOfDicts(e);
    SearchExtsDicts(exts, kws[0], parse);
    TryHeaderDict(fs, kws[0], parse);
    FirstParseAppend(At(fs, kws[0]), ExtCandidates(exts, kws[0]), parse);
  }

  /** For headers shaped as `fits_extractor` builds them (a dict whose `'ext'` is a dict of dicts),
      the search returns what the reference definition gives on the candidates in order: DATE-OBS
      before DATE, and for each keyword the primary header before the extensions. */
  lemma DateSearchOrder(fs: seq<Field>, e: seq<Field>, parse: DateParser)
    requires Get(fs, "ext") == Some(Dict(e))
    requires DictValues(e)
    ensures SearchKeywords(Dict(fs), DateKeywords, parse) == FirstParse(DateCandidates(fs, ExtDicts(e)), parse)
  {
    var exts := ExtDicts(e);
    SearchKeywordsStep(fs, e, DateKeywords, parse);
    SearchKeywordsStep(fs, e, DateKeywords[1..], parse);
    assert DateKeywords[1..] == ["DATE"];
    assert DateKeywords[1..][1..] == [];
    FirstParseAppend(KeywordCandidates(fs, exts, "DATE-OBS"), KeywordCandidates(fs, exts, "DATE"), parse);
  }

  // ---------------------------------------------------------------------------------------------
  // checksum_size_extractor and make_payload
  // ---------------------------------------------------------------------------------------------

  /** `utils.size_and_md5sum(file_handle)`: the size in bytes and the MD5 hex digest of a file. */
  type SizeAndMd5 = Utils.Bytes -> (nat, string)

  /** The outside functions the extractors call. */
  datatype Readers = Readers(fitsOpen: FitsReader, fitsRead: FitsReadLength, parseDate: DateParser, sizeAndMd5: SizeAndMd5)

  /** `checksum_size_extractor(payload, file_handle)`. */
  function ChecksumSizeExtract(whole: Utils.Bytes, sizeAndMd5: SizeAndMd5): (r: seq<Field>)
    ensures Keys(r) == ["checksum", "size_bytes"]
    ensures Get(r, "checksum") == Some(Scalar(Str(sizeAndMd5(whole).1)))
    ensures Get(r, "size_bytes") == Some(Scalar(Int(sizeAndMd5(whole).0)))
  {
    var (size, md5) := sizeAndMd5(whole);
    [Field("checksum", Scalar(Str(md5))), Field("size_bytes", Scalar(Int(size)))]
  }

  datatype Extractor = FitsStep | DateStep | ChecksumSizeStep

  /** `EXTRACTOR_STACK`, in order. */
  const ExtractorStack: seq<Extractor> := [FitsStep, DateStep, ChecksumSizeStep]

  /** One extractor's update for `payload`; `data` is what `fits.open` reads from the handle and
      `whole` the file's full content. */
  function RunExtractor(x: Extractor, payload: seq<Field>, data: Utils.Bytes, whole: Utils.Bytes, rd: Readers): Result<seq<Field>, PyError>
  {
    match x
    case FitsStep => FitsExtract(payload, data, rd.fitsOpen)
    case DateStep => DateExtract(payload, rd.parseDate)
    case ChecksumSizeStep => Ok(ChecksumSizeExtract(whole, rd.sizeAndMd5))
  }

  /** The extractor loop of `make_payload`: each update is merged into the payload. */
  function ExtractorFold(payload: seq<Field>, stack: seq<Extractor>, data: Utils.Bytes, whole: Utils.Bytes, rd: Readers): Result<seq<Field>, PyError>
    decreases |stack|
  {
    if stack == [] then Ok(payload)
    else
      var update :- RunExtractor(stack[0], payload, data, whole, rd);
      var merged :- Merge(payload, update).result;
      ExtractorFold(merged, stack[1..], data, whole, rd)
  }

  /** The payload `make_payload(filename, ...)` starts from. */
  function Seed(filename: string): seq<Field>
  {
    [Field("filename", Scalar(Str(Text.Basename(filename))))]
  }

  /** What `make_payload` returns or raises. */
  function MakePayloadResult(filename: string, data: Utils.Bytes, whole: Utils.Bytes, rd: Readers): Result<seq<Field>, PyError>
  {
    ExtractorFold(Seed(filename), ExtractorStack, data, whole, rd)
  }

  /** The `try` block of `make_payload`: the payload starts as `{'filename': basename}` and each
      extractor of `EXTRACTOR_STACK` in turn reads `fh` and has its update merged in. The first
      exception ends the loop. */
  method RunExtractors(filename: string, fh: Utils.FileHandle, rd: Readers) returns (r: Result<seq<Field>, PyError>)
    modifies fh`pos
    ensures var rest := Utils.Remaining(fh.content, old(fh.pos));
            && fh.pos == old(fh.pos) + FitsAdvance(Seed(filename), rest, rd.fitsRead)
            && r == MakePayloadResult(filename, rest, fh.content, rd)
  {
    var data, whole := Utils.Remaining(fh.content, fh.pos), fh.content;
    ghost var start := fh.pos;
    var payload := Seed(filename);
    r := Ok(payload);
    StackShape();
    for i := 0 to |ExtractorStack|
      invariant MakePayloadResult(filename, data, whole, rd) == ExtractorFold(payload, ExtractorStack[i..], data, whole, rd)
      invariant r == Ok(payload)
      invariant i == 0 ==> payload == Seed(filename) && fh.pos == start
      invariant i > 0 ==> FitsStep !in ExtractorStack[i..] && fh.pos == start + FitsAdvance(Seed(filename), data, rd.fitsRead)
    {
      assert ExtractorStack[i] == ExtractorStack[i..][0];
      var update := ApplyExtractor(ExtractorStack[i], payload, fh, rd, data);
      ExtractorFoldStep(payload, ExtractorStack[i..], data, whole, rd);
      assert ExtractorStack[i..][1..] == ExtractorStack[i + 1..];
      if update.Err? {
        r := Err(update.error);
        break;
      }
      var merged, _ := MergePayload(payload, update.value);
      if merged.Err? {
        r := Err(merged.error);
        break;
      }
      payload := merged.value;
      r := Ok(payload);
    }
  }

  /** `make_payload(filename, file_like)`. With no `file_like`, the file is opened (`disk` is its
      content, or None when `open` fails) and closed again whether or not an extractor raised; a
      given handle is used as it is and left open, moved past what `fits.open` read from it.
      `fh` is the handle the extractors read. */
  method MakePayload(filename: string, fileLike: Utils.FileHandle?, disk: Option<Utils.Bytes>, rd: Readers)
    returns (r: Result<seq<Field>, PyError>, fh: Utils.FileHandle?)
    modifies if fileLike == null then {} else {fileLike}
    ensures fileLike == null && disk.None? ==> r == Err(OSError) && fh == null
    ensures fileLike == null && disk.Some? ==>
              && fh != null && fresh(fh) && fh.closed && fh.content == disk.value
              && r == MakePayloadResult(filename, disk.value, disk.value, rd)
    ensures fileLike != null ==>
              var rest := Utils.Remaining(fileLike.content, old(fileLike.pos));
              && fh == fileLike && fh.closed == old(fh.closed)
              && fh.pos == old(fh.pos) + FitsAdvance(Seed(filename), rest, rd.fitsRead)
              && r == MakePayloadResult(filename, rest, fh.content, rd)
  {
    if fileLike == null {
      if disk.None? {
        return Err(OSError), null;
      }
      fh := new Utils.FileHandle(disk.value);
      assert Utils.Remaining(fh.content, fh.pos) == disk.value;
      r := RunExtractors(filename, fh, rd);
      fh.Close();
    } else {
      fh := fileLike;
      r := RunExtractors(filename, fh, rd);
    }
  }


  /** Only the first extractor of the stack is `fits_extractor`. */
  lemma StackShape()
    ensures ExtractorStack[0] == FitsStep && FitsStep !in ExtractorStack[1..]
  {
    assert ExtractorStack[1..] == [DateStep, ChecksumSizeStep];
  }

  /** `payload_update = extractor_func(payload, fh)`. `data` is what the extractors of the model
      read: the bytes left in `fh`, which only `fits_extractor` reads. */
  method ApplyExtractor(x: Extractor, payload: seq<Field>, fh: Utils.FileHandle, rd: Readers, ghost data: Utils.Bytes)
    returns (update: Result<seq<Field>, PyError>)
    requires x == FitsStep ==> data == Utils.Remaining(fh.content, fh.pos)
    modifies fh`pos
    ensures update == RunExtractor(x, payload, data, fh.content, rd)
    ensures x == FitsStep ==> fh.pos == old(fh.pos) + FitsAdvance(payload, data, rd.fitsRead)
    ensures x != FitsStep ==> fh.pos == old(fh.pos)
  {
    match x
    case FitsStep => {
      update := FitsExtractor(payload, fh, rd.fitsOpen, rd.fitsRead);
    }
    case DateStep => {
      update := DateExtract(payload, rd.parseDate);
    }
    case ChecksumSizeStep => {
      update := Ok(ChecksumSizeExtract(fh.content, rd.sizeAndMd5));
    }
  }

  /** One extractor of the fold: its exception, the merge's exception, or the merged payload. */
  lemma ExtractorFoldStep(payload: seq<Field>, stack: seq<Extractor>, data: Utils.Bytes, whole: Utils.Bytes, rd: Readers)
    requires stack != []
    ensures var update := RunExtractor(stack[0], payload, data, whole, rd);
            ExtractorFold(payload, stack, data, whole, rd) ==
              if update.Err? then Err(update.error)
              else if Merge(payload, update.value).result.Err? then Err(Merge(payload, update.value).result.error)
              else ExtractorFold(Merge(payload, update.value).result.value, stack[1..], data, whole, rd)
  {
  }

  /** One loop step for a key neither the original nor the result has: it is appended. */
  lemma MergeFoldFreshStep(o: seq<Field>, final: seq<Field>, now: seq<Field>, pending: seq<Field>)
    requires pending != [] && pending[0].key !in Keys(o) && pending[0].key !in Keys(final)
    ensures MergeFold(o, final, now, pending) == MergeFold(o, final + [pending[0]], now, pending[1..])
  {
    PutFresh(final, pending[0].key, pending[0].value);
    assert IndexOf(o, pending[0].key) == |o|;
  }

  /** The keys after the first of a fresh run are still fresh once the first is appended. */
  lemma FreshRest(o: seq<Field>, final: seq<Field>, pending: seq<Field>)
    requires pending != [] && DistinctKeys(pending)
    requires forall i :: 0 <= i < |pending| ==> pending[i].key !in Keys(o) && pending[i].key !in Keys(final)
    ensures DistinctKeys(pending[1..])
    ensures forall i :: 0 <= i < |pending[1..]| ==>
              pending[1..][i].key !in Keys(o) && pending[1..][i].key !in Keys(final + [pending[0]])
  {
    var rest := pending[1..];
    KeysSnoc(final, pending[0]);
    forall i | 0 <= i < |rest| ensures rest[i].key !in Keys(o) && rest[i].key !in Keys(final + [pending[0]]) {
      assert rest[i] == pending[i + 1];
      assert rest[i].key != pending[0].key;
    }
  }

  /** Merging in keys the payload lacks appends them, in order, and leaves the original alone. */
  lemma {:induction false} MergeFoldFresh(o: seq<Field>, final: seq<Field>, now: seq<Field>, pending: seq<Field>)
    requires DistinctKeys(pending)
    requires forall i :: 0 <= i < |pending| ==> pending[i].key !in Keys(o) && pending[i].key !in Keys(final)
    ensures MergeFold(o, final, now, pending) == MergeOutcome(Ok(final + pending), now)
    decreases |pending|
  {
    if pending != [] {
      var final' := final + [pending[0]];
      MergeFoldFreshStep(o, final, now, pending);
      FreshRest(o, final, pending);
      MergeFoldFresh(o, final', now, pending[1..]);
      AppendFirst(final, pending);
    } else {
      assert final + pending == final;
    }
  }

  lemma AppendFirst(a: seq<Field>, b: seq<Field>)
    requires b != []
    ensures (a + [b[0]]) + b[1..] == a + b
  {
  }

  lemma PutFresh(fs: seq<Field>, k: string, v: Json)
    requires k !in Keys(fs)
    ensures Put(fs, k, v) == fs + [Field(k, v)]
    ensures Keys(fs + [Field(k, v)]) == Keys(fs) + [k]
  {
    assert IndexOf(fs, k) == |fs|;
  }

  lemma MergeFresh(payload: seq<Field>, update: seq<Field>)
    requires DistinctKeys(update)
    requires forall i :: 0 <= i < |update| ==> update[i].key !in Keys(payload)
    ensures Merge(payload, update) == MergeOutcome(Ok(payload + update), payload)
  {
    MergeFoldFresh(payload, payload, payload, update);
  }

  /** A file whose name is not a FITS name makes `make_payload` raise KeyError('meta'):
      `fits_extractor` hands back the payload, which has no 'meta' for `date_extractor` to read. */
  lemma MakePayloadNonFits(filename: string, data: Utils.Bytes, whole: Utils.Bytes, rd: Readers)
    requires !FitsPattern(Text.Basename(filename))
    ensures MakePayloadResult(filename, data, whole, rd) == Err(KeyError("meta"))
  {
    var seed := Seed(filename);
    assert IndexOf(seed, "filename") == 0;
    assert FitsExtract(seed, data, rd.fitsOpen) == Ok(seed);
    SelfMerge(seed);
    assert DoubleLists(seed) == seed;
    assert "meta" !in Keys(seed);
    ExtractorFoldStep(seed, ExtractorStack, data, whole, rd);
    ExtractorFoldStep(seed, ExtractorStack[1..], data, whole, rd);
  }

  /** The `'meta'` entry `fits_extractor` contributes for the given HDUs. */
  function FitsMeta(fd: seq<Field>): Field
  {
    Field("meta", Dict([Field("fits", Dict(fd))]))
  }

  /** What the first extractor contributes for a FITS name whose file opens. */
  lemma FitsUpdateOfFits(filename: string, data: Utils.Bytes, whole: Utils.Bytes, rd: Readers, hdus: seq<Fits.Header>)
    requires FitsPattern(Text.Basename(filename))
    requires rd.fitsOpen(data) == Ok(hdus) && hdus != []
    ensures RunExtractor(ExtractorStack[0], Seed(filename), data, whole, rd) == Ok([FitsMeta(FitsData(hdus))])
  {
    var seed := Seed(filename);
    assert Get(seed, "filename") == Some(Scalar(Str(Text.Basename(filename)))) by {
      assert IndexOf(seed, "filename") == 0;
    }
    FitsExtractOpened(seed, Text.Basename(filename), data, rd.fitsOpen, hdus);
  }

  /** `fits_extractor` on a FITS name whose file opens: `{'meta': {'fits': data}}`. */
  lemma FitsExtractOpened(payload: seq<Field>, name: string, content: Utils.Bytes, fitsOpen: FitsReader,
                          hdus: seq<Fits.Header>)
    requires Get(payload, "filename") == Some(Scalar(Str(name))) && FitsPattern(name)
    requires fitsOpen(content) == Ok(hdus) && hdus != []
    ensures FitsExtract(payload, content, fitsOpen) == Ok([FitsMeta(FitsData(hdus))])
  {
  }

  lemma FitsStepOfFits(filename: string, data: Utils.Bytes, whole: Utils.Bytes, rd: Readers, hdus: seq<Fits.Header>)
    requires FitsPattern(Text.Basename(filename))
    requires rd.fitsOpen(data) == Ok(hdus) && hdus != []
    ensures MakePayloadResult(filename, data, whole, rd) ==
            ExtractorFold(Seed(filename) + [FitsMeta(FitsData(hdus))], ExtractorStack[1..], data, whole, rd)
  {
    var seed := Seed(filename);
    var m := FitsMeta(FitsData(hdus));
    FitsUpdateOfFits(filename, data, whole, rd, hdus);
    KeysSingleton(seed[0]);
    MergeFresh(seed, [m]);
    ExtractorFoldStep(seed, ExtractorStack, data, whole, rd);
  }

  /** `date_extractor` on a payload whose `'meta'` is `{'fits': headers}`: the keyword search. */
  lemma DateExtractOfHeaders(payload: seq<Field>, fd: seq<Field>, parse: DateParser)
    requires Get(payload, "meta") == Some(Dict([Field("fits", Dict(fd))]))
    ensures DateExtract(payload, parse) ==
              match SearchKeywords(Dict(fd), DateKeywords, parse)
              case Err(e) => Err(e)
              case Ok(t) => Ok(CreatedAt(t))
  {
    var meta := Dict([Field("fits", Dict(fd))]);
    assert Subscript(Dict(payload), "meta") == Ok(meta);
    assert Keys(meta.fields) == ["fits"];
    assert Contains(meta, "fits") == Ok(true);
    assert IndexOf(meta.fields, "fits") == 0;
    assert Subscript(meta, "fits") == Ok(Dict(fd));
  }

  /** `date_extractor` on a payload whose `'meta'` holds FITS data `fd` with extension dict `exts`. */
  lemma DateOfFitsData(payload: seq<Field>, fd: seq<Field>, exts: seq<Field>, parse: DateParser)
    requires Get(payload, "meta") == Some(Dict([Field("fits", Dict(fd))]))
    requires Get(fd, "ext") == Some(Dict(exts))
    requires DictValues(exts)
    ensures DateExtract(payload, parse) ==
              match FirstParse(DateCandidates(fd, ExtDicts(exts)), parse)
              case Err(e) => Err(e)
              case Ok(t) => Ok(CreatedAt(t))
  {
    DateExtractOfHeaders(payload, fd, parse);
    DateSearchOrder(fd, exts, parse);
  }

  /** A key appended to a dict that lacked it is found with its value. */
  lemma GetSnocFresh(fs: seq<Field>, f: Field)
    requires f.key !in Keys(fs)
    ensures Get(fs + [f], f.key) == Some(f.value)
  {
    PutFresh(fs, f.key, f.value);
  }

  lemma DateOfFits(filename: string, fd: seq<Field>, exts: seq<Field>, parse: DateParser)
    requires Get(fd, "ext") == Some(Dict(exts))
    requires DictValues(exts)
    ensures DateExtract(Seed(filename) + [FitsMeta(fd)], parse) ==
              match FirstParse(DateCandidates(fd, ExtDicts(exts)), parse)
              case Err(e) => Err(e)
              case Ok(t) => Ok(CreatedAt(t))
  {
    KeysSingleton(Seed(filename)[0]);
    GetSnocFresh(Seed(filename), FitsMeta(fd));
    DateOfFitsData(Seed(filename) + [FitsMeta(fd)], fd, exts, parse);
  }

  lemma KeysSingleton(f: Field)
    ensures Keys([f]) == [f.key]
  {
  }

  lemma KeysSnoc(fs: seq<Field>, f: Field)
    ensures Keys(fs + [f]) == Keys(fs) + [f.key]
  {
  }

  /** The fold after `fits_extractor` has contributed `'meta'` entry `m`, given what
      `date_extractor` finds. */
  lemma StepsAfterMeta(filename: string, data: Utils.Bytes, whole: Utils.Bytes, rd: Readers, m: Field,
                       date: Result<Option<int>, PyError>)
    requires m.key == "meta"
    requires DateExtract(Seed(filename) + [m], rd.parseDate) ==
             match date
             case Err(e) => Err(e)
             case Ok(t) => Ok(CreatedAt(t))
    ensures ExtractorFold(Seed(filename) + [m], ExtractorStack[1..], data, whole, rd) ==
            match date
            case Err(e) => Err(e)
            case Ok(t) => Ok(Seed(filename) + [m] + CreatedAt(t) + ChecksumSizeExtract(whole, rd.sizeAndMd5))
  {
    var p1 := Seed(filename) + [m];
    KeysSnoc(Seed(filename), m);
    assert ["filename"] + ["meta"] == ["filename", "meta"];
    if date.Ok? {
      DateAndChecksumSteps(p1, data, whole, rd, date.value);
    } else {
      ExtractorFoldStep(p1, ExtractorStack[1..], data, whole, rd);
      assert ExtractorStack[1..][0] == DateStep;
    }
  }

  /** The last two extractors on a payload holding only the base name and `'meta'`. */
  lemma DateAndChecksumSteps(p1: seq<Field>, data: Utils.Bytes, whole: Utils.Bytes, rd: Readers, t: Option<int>)
    requires Keys(p1) == ["filename", "meta"]
    requires DateExtract(p1, rd.parseDate) == Ok(CreatedAt(t))
    ensures ExtractorFold(p1, ExtractorStack[1..], data, whole, rd) ==
            Ok(p1 + CreatedAt(t) + ChecksumSizeExtract(whole, rd.sizeAndMd5))
  {
    var p2 := p1 + CreatedAt(t);
    DateStepMerged(p1, data, whole, rd, t);
    ChecksumKeysFresh(p1, t);
    ChecksumStepMerged(p2, data, whole, rd);
  }

  /** After the date step the payload still has neither 'checksum' nor 'size_bytes'. */
  lemma ChecksumKeysFresh(p1: seq<Field>, t: Option<int>)
    requires Keys(p1) == ["filename", "meta"]
    ensures "checksum" !in Keys(p1 + CreatedAt(t)) && "size_bytes" !in Keys(p1 + CreatedAt(t))
  {
    KeysAppend(p1, CreatedAt(t));
    assert Keys(CreatedAt(t)) == if t.Some? then ["created_at"] else [];
  }

  lemma KeysAppend(a: seq<Field>, b: seq<Field>)
    ensures Keys(a + b) == Keys(a) + Keys(b)
  {
  }

  /** `date_extractor`'s update merges in as a fresh key. */
  lemma DateStepMerged(p1: seq<Field>, data: Utils.Bytes, whole: Utils.Bytes, rd: Readers, t: Option<int>)
    requires Keys(p1) == ["filename", "meta"]
    requires DateExtract(p1, rd.parseDate) == Ok(CreatedAt(t))
    ensures ExtractorFold(p1, ExtractorStack[1..], data, whole, rd) ==
            ExtractorFold(p1 + CreatedAt(t), [ChecksumSizeStep], data, whole, rd)
  {
    ExtractorFoldStep(p1, ExtractorStack[1..], data, whole, rd);
    assert ExtractorStack[1..][0] == DateStep;
    assert ExtractorStack[1..][1..] == [ChecksumSizeStep];
    MergeFresh(p1, CreatedAt(t));
  }

  /** `checksum_size_extractor`'s update merges in as two fresh keys. */
  lemma ChecksumStepMerged(p2: seq<Field>, data: Utils.Bytes, whole: Utils.Bytes, rd: Readers)
    requires "checksum" !in Keys(p2) && "size_bytes" !in Keys(p2)
    ensures ExtractorFold(p2, [ChecksumSizeStep], data, whole, rd) ==
            Ok(p2 + ChecksumSizeExtract(whole, rd.sizeAndMd5))
  {
    var cs := ChecksumSizeExtract(whole, rd.sizeAndMd5);
    MergeFresh(p2, cs);
    ExtractorFoldStep(p2, [ChecksumSizeStep], data, whole, rd);
    assert [ChecksumSizeStep][1..] == [];
  }

  lemma MakePayloadFitsData(filename: string, data: Utils.Bytes, whole: Utils.Bytes, rd: Readers, fd: seq<Field>, exts: seq<Field>)
    requires Get(fd, "ext") == Some(Dict(exts))
    requires DictValues(exts)
    ensures ExtractorFold(Seed(filename) + [FitsMeta(fd)], ExtractorStack[1..], data, whole, rd) ==
              match FirstParse(DateCandidates(fd, ExtDicts(exts)), rd.parseDate)
              case Err(e) => Err(e)
              case Ok(t) => Ok(Seed(filename) + [FitsMeta(fd)] + CreatedAt(t) + ChecksumSizeExtract(whole, rd.sizeAndMd5))
  {
    DateOfFits(filename, fd, exts, rd.parseDate);
    StepsAfterMeta(filename, data, whole, rd, FitsMeta(fd), FirstParse(DateCandidates(fd, ExtDicts(exts)), rd.parseDate));
  }

  /** For a FITS file: the payload is the base name, then `'meta'` with the FITS data, then
      `'created_at'` when a date parses, then the checksum and size, in that order; an exception
      of the date parser other than ValueError propagates. */
  lemma MakePayloadFits(filename: string, data: Utils.Bytes, whole: Utils.Bytes, rd: Readers, hdus: seq<Fits.Header>)
    requires FitsPattern(Text.Basename(filename))
    requires rd.fitsOpen(data) == Ok(hdus) && hdus != []
    ensures var exts := Fits.ExtensionsUpTo([], hdus, |hdus|, "", "idx_");
            MakePayloadResult(filename, data, whole, rd) ==
              match FirstParse(DateCandidates(FitsData(hdus), ExtDicts(exts)), rd.parseDate)
              case Err(e) => Err(e)
              case Ok(t) =>
                Ok(Seed(filename) + [FitsMeta(FitsData(hdus))] + CreatedAt(t) + ChecksumSizeExtract(whole, rd.sizeAndMd5))
  {
    FitsStepOfFits(filename, data, whole, rd, hdus);
    FitsDataExt(hdus);
    MakePayloadFitsData(filename, data, whole, rd, FitsData(hdus), Fits.ExtensionsUpTo([], hdus, |hdus|, "", "idx_"));
  }

  /** The `'ext'` entry of the FITS data: a dict whose values are all dicts. */
  lemma FitsDataExt(hdus: seq<Fits.Header>)
    requires hdus != []
    ensures var exts := Fits.ExtensionsUpTo([], hdus, |hdus|, "", "idx_");
            Get(FitsData(hdus), "ext") == Some(Dict(exts)) && DictValues(exts)
  {
    Fits.ExtensionsAreDicts([], hdus, |hdus|, "", "idx_");
  }
}
