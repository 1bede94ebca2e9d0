/** The argparse helpers of `BaseCommand` (exao_dap_client/commands/base.py): the
    case-insensitive converter `make_to_enum(enum)` and the help text `enum_help(enum)`. An
    `Enum` class is given by its members' names in declaration order; a member is its index. */
module Commands {
  import opened Wrappers
  import opened Json
  import Text

  /** The lowercased member names, in declaration order: the items `enum_help` collects. */
  function LowerNames(names: seq<string>): (r: seq<string>)
    ensures |r| == |names|
    ensures forall i :: 0 <= i < |names| ==> r[i] == Text.Lower(names[i])
  {
    seq(|names|, i requires 0 <= i < |names| => Text.Lower(names[i]))
  }

  /** What `enum_help(enum)` returns. */
  function Help(names: seq<string>): string
  {
    Text.Join(", ", LowerNames(names))
  }

  /** `enum_help(enum)`: collect each member's lowercased name, then join them with ', '. */
  method EnumHelp(names: seq<string>) returns (help: string)
    ensures help == Help(names)
  {
    var items: seq<string> := [];
    for i := 0 to |names|
      invariant items == LowerNames(names[..i])
    {
      items := items + [Text.Lower(names[i])];
    }
    assert names[..|names|] == names;
    help := Text.Join(", ", items);
  }

  /** The message of the `ArgumentTypeError` the converter raises. */
  function UnrecognizedMessage(value: string, help: string): string
  {
    "Unrecognized value " + value + " (must be one of " + help + ")"
  }

  /** The converter's loop from member `i` on. */
  function FirstMatch(names: seq<string>, value: string, i: nat): (r: Option<nat>)
    requires i <= |names|
    ensures r.Some? ==> i <= r.value < |names| && Text.Lower(names[r.value]) == Text.Lower(value)
    ensures r.Some? ==> forall j :: i <= j < r.value ==> Text.Lower(names[j]) != Text.Lower(value)
    ensures r.None? ==> forall j :: i <= j < |names| ==> Text.Lower(names[j]) != Text.Lower(value)
    decreases |names| - i
  {
    if i == |names| then None
    else if Text.Lower(names[i]) == Text.Lower(value) then Some(i)
    else FirstMatch(names, value, i + 1)
  }

  /** `make_to_enum(enum)(value)`: the first member, in declaration order, whose name equals
      `value` up to case; when there is none, an `ArgumentTypeError` naming the value and the
      accepted names. */
  function ToEnum(names: seq<string>, value: string): (r: Result<nat, PyError>)
    ensures r.Ok? ==> r.value < |names| && Text.Lower(names[r.value]) == Text.Lower(value)
    ensures r.Ok? ==> forall j :: 0 <= j < r.value ==> Text.Lower(names[j]) != Text.Lower(value)
    ensures r.Err? <==> forall j :: 0 <= j < |names| ==> Text.Lower(names[j]) != Text.Lower(value)
    ensures r.Err? ==> r.error == ArgumentTypeError(UnrecognizedMessage(value, Help(names)))
  {
    match FirstMatch(names, value, 0)
    case Some(i) => Ok(i)
    case None => Err(ArgumentTypeError(UnrecognizedMessage(value, Help(names))))
  }

  /** No two members share a lowercased name. */
  predicate DistinctLowerNames(names: seq<string>)
  {
    forall i, j :: 0 <= i < j < |names| ==> Text.Lower(names[i]) != Text.Lower(names[j])
  }

  /** Round trip: when the lowercased names are distinct, any case variant of a member's name
      converts back to that member. */
  lemma ToEnumRoundTrip(names: seq<string>, i: nat, value: string)
    requires DistinctLowerNames(names) && i < |names| && Text.Lower(value) == Text.Lower(names[i])
    ensures ToEnum(names, value) == Ok(i)
  {
  }

  /** Two values equal up to case are accepted or refused together, and convert to the same
      member. */
  lemma ToEnumIgnoresCase(names: seq<string>, v: string, w: string)
    requires Text.Lower(v) == Text.Lower(w)
    ensures ToEnum(names, v).Ok? <==> ToEnum(names, w).Ok?
    ensures ToEnum(names, v).Ok? ==> ToEnum(names, v).value == ToEnum(names, w).value
  {
  }

  /** Every accepted value is, lowercased, one of the items `enum_help` lists. */
  lemma AcceptedValuesAreListed(names: seq<string>, value: string)
    requires ToEnum(names, value).Ok?
    ensures Text.Lower(value) in LowerNames(names)
  {
    assert LowerNames(names)[ToEnum(names, value).value] == Text.Lower(value);
  }

  /** `enum_help` of an empty enum is '' and of a single member its lowercased name; otherwise it
      is the first lowercased name, ', ' and the help of the rest. */
  lemma {:induction false} HelpShape(names: seq<string>)
    ensures names == [] ==> Help(names) == ""
    ensures |names| == 1 ==> Help(names) == Text.Lower(names[0])
    ensures |names| > 1 ==> Help(names) == Text.Lower(names[0]) + ", " + Help(names[1..])
  {
    if |names| > 1 {
      assert LowerNames(names)[1..] == LowerNames(names[1..]);
    }
  }

  /** `DatasetSource` (exao_dap_client/dataset.py): ON_SKY, LAB, SIMULATION. */
  const DatasetSourceNames: seq<string> := ["ON_SKY", "LAB", "SIMULATION"]

  lemma DatasetSourceLowerNames()
    ensures LowerNames(DatasetSourceNames) == ["on_sky", "lab", "simulation"]
  {
    assert Text.Lower("ON_SKY") == "on_sky";
    assert Text.Lower("LAB") == "lab";
    assert Text.Lower("SIMULATION") == "simulation";
  }

  /** `enum_help(DatasetSource)`. */
  lemma DatasetSourceHelp()
    ensures Help(DatasetSourceNames) == "on_sky, lab, simulation"
  {
    DatasetSourceLowerNames();
    var items := LowerNames(DatasetSourceNames);
    assert items[1..] == ["lab", "simulation"];
    assert items[1..][1..] == ["simulation"];
  }

  /** Converting to `DatasetSource`: any case is accepted, an unknown value is refused with the
      list of accepted names. */
  lemma DatasetSourceConversions()
    ensures ToEnum(DatasetSourceNames, "On_Sky") == Ok(0)
    ensures ToEnum(DatasetSourceNames, "simulation") == Ok(2)
    ensures ToEnum(DatasetSourceNames, "sky") ==
            Err(ArgumentTypeError(UnrecognizedMessage("sky", "on_sky, lab, simulation")))
  {
    DatasetSourceAccepts();
    DatasetSourceRefuses();
  }

  lemma DatasetSourceAccepts()
    ensures ToEnum(DatasetSourceNames, "On_Sky") == Ok(0)
    ensures ToEnum(DatasetSourceNames, "simulation") == Ok(2)
  {
    DatasetSourceLowered();
    assert DistinctLowerNames(DatasetSourceNames);
    assert Text.Lower("On_Sky") == "on_sky";
    ToEnumRoundTrip(DatasetSourceNames, 0, "On_Sky");
    assert Text.Lower("simulation") == "simulation";
    ToEnumRoundTrip(DatasetSourceNames, 2, "simulation");
  }

  lemma DatasetSourceRefuses()
    ensures ToEnum(DatasetSourceNames, "sky") ==
            Err(ArgumentTypeError(UnrecognizedMessage("sky", "on_sky, lab, simulation")))
  {
    DatasetSourceLowered();
    DatasetSourceHelp();
    assert Text.Lower("sky") == "sky";
  }

  /** Each `DatasetSource` name, lowercased. */
  lemma DatasetSourceLowered()
    ensures Text.Lower(DatasetSourceNames[0]) == "on_sky"
    ensures Text.Lower(DatasetSourceNames[1]) == "lab"
    ensures Text.Lower(DatasetSourceNames[2]) == "simulation"
  {
    DatasetSourceLowerNames();
    assert LowerNames(DatasetSourceNames)[0] == Text.Lower(DatasetSourceNames[0]);
    assert LowerNames(DatasetSourceNames)[1] == Text.Lower(DatasetSourceNames[1]);
    assert LowerNames(DatasetSourceNames)[2] == Text.Lower(DatasetSourceNames[2]);
  }
}
