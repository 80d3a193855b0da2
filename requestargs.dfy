/**
 * Argument derivation of the api.py handlers: the `str2bool` coercion, the
 * first-character `TRUTHS` flag rule, and the parameter records that the
 * overlaps and dataset-type handlers pass on, as pure functions of the
 * query-string arguments.
 */
module RequestArgs {
  import opened Wrappers

  /** Query-string arguments: each name with the list of values it was given. */
  type Args = map<string, seq<string>>

  /** Why a handler raises before it calls into functions.py. */
  datatype ArgError =
    | Missing(name: string)                   // `next(iter(...))` of an absent or empty list
    | NotAnInteger(name: string, text: string) // `int(...)` of text that is not an integer
    | EmptyFlag(name: string)                 // `""[0]`

  // ---------------------------------------------------------------------
  // Text helpers
  // ---------------------------------------------------------------------

  function LowerChar(c: char): char
  {
    if 'A' <= c <= 'Z' then (c as int + 32) as char else c
  }

  function UpperChar(c: char): char
  {
    if 'a' <= c <= 'z' then (c as int - 32) as char else c
  }

  /** `str.lower`, on the characters that can matter here. */
  function Lower(s: string): (t: string)
    ensures |t| == |s|
    ensures forall i | 0 <= i < |s| :: t[i] == LowerChar(s[i])
  {
    seq(|s|, i requires 0 <= i < |s| => LowerChar(s[i]))
  }

  /** The spellings `str2bool` accepts, in lower case. */
  const TrueWords: set<string> := {"yes", "true", "t", "1"}

  /** api.py `str2bool`. */
  predicate Str2Bool(v: string)
  {
    Lower(v) in TrueWords
  }

  /** `v` spells `w` with any of `w`'s letters in either case. */
  predicate SpellsIgnoringCase(v: string, w: string)
  {
    |v| == |w| && forall i | 0 <= i < |v| :: v[i] == w[i] || v[i] == UpperChar(w[i])
  }

  /** A lower-case letter or a digit. */
  predicate IsLowerOrDigit(c: char)
  {
    'a' <= c <= 'z' || '0' <= c <= '9'
  }

  lemma LowerCharTo(c: char, d: char)
    requires IsLowerOrDigit(d)
    ensures LowerChar(c) == d <==> c == d || c == UpperChar(d)
  {
  }

  lemma LowerEquals(v: string, w: string)
    requires forall i | 0 <= i < |w| :: IsLowerOrDigit(w[i])
    ensures Lower(v) == w <==> SpellsIgnoringCase(v, w)
  {
    if Lower(v) == w {
      forall i | 0 <= i < |v| ensures v[i] == w[i] || v[i] == UpperChar(w[i]) {
        LowerCharTo(v[i], w[i]);
      }
    }
    if SpellsIgnoringCase(v, w) {
      forall i | 0 <= i < |v| ensures Lower(v)[i] == w[i] {
        LowerCharTo(v[i], w[i]);
      }
    }
  }

  /** `str2bool` is a case-insensitive match against yes, true, t and 1. */
  lemma Str2BoolIgnoresCase(v: string)
    ensures Str2Bool(v) <==> exists w | w in TrueWords :: SpellsIgnoringCase(v, w)
  {
    LowerEquals(v, "yes");
    LowerEquals(v, "true");
    LowerEquals(v, "t");
    LowerEquals(v, "1");
  }

  lemma Str2BoolExamples()
    ensures Str2Bool("YES") && Str2Bool("True") && Str2Bool("T") && Str2Bool("1")
    ensures !Str2Bool("False") && !Str2Bool("y") && !Str2Bool("1x") && !Str2Bool("")
  {
    assert Lower("YES") == "yes";
    assert Lower("True") == "true";
    assert Lower("T") == "t";
    assert Lower("1") == "1";
    assert Lower("False") == "false";
    assert Lower("y") == "y";
    assert Lower("1x") == "1x";
  }

  // ---------------------------------------------------------------------
  // The TRUTHS flag rule
  // ---------------------------------------------------------------------

  /** api.py `TRUTHS`. */
  const Truths: set<char> := {'t', 'T', '1'}

  /** `text[0] in TRUTHS`; indexing the empty string raises. */
  function FirstCharTruth(name: string, text: string): (r: Result<bool, ArgError>)
    ensures r.Err? <==> text == ""
    ensures r.Err? ==> r.error == EmptyFlag(name)
    ensures r.Ok? ==> (r.value <==> text[0] == 't' || text[0] == 'T' || text[0] == '1')
  {
    if text == "" then Err(EmptyFlag(name)) else Ok(text[0] in Truths)
  }

  /**
   * Only the first character counts, so the flag rule and `str2bool` disagree
   * both ways.
   */
  lemma FlagExamples()
    ensures FirstCharTruth("areas", "yes") == Ok(false) && Str2Bool("yes")
    ensures FirstCharTruth("areas", "tomato") == Ok(true) && !Str2Bool("tomato")
    ensures FirstCharTruth("areas", "1x") == Ok(true) && !Str2Bool("1x")
    ensures FirstCharTruth("areas", "false") == Ok(false)
    ensures FirstCharTruth("areas", "") == Err(EmptyFlag("areas"))
  {
    assert Lower("yes") == "yes";
    assert Lower("tomato") == "tomato";
    assert Lower("1x") == "1x";
  }

  // ---------------------------------------------------------------------
  // Reading one argument
  // ---------------------------------------------------------------------

  /** `next(iter(args.getlist(name, [default])))`. */
  function FirstOr(args: Args, name: string, default: string): Result<string, ArgError>
  {
    if name !in args then Ok(default)
    else if args[name] == [] then Err(Missing(name))
    else Ok(args[name][0])
  }

  /** `next(iter(args.getlist(name)))` with no default. */
  function Required(args: Args, name: string): Result<string, ArgError>
  {
    if name in args && args[name] != [] then Ok(args[name][0]) else Err(Missing(name))
  }

  /** `next(iter(args.getlist(name))) if name in args else None`. */
  function Optional(args: Args, name: string): Result<Option<string>, ArgError>
  {
    if name !in args then Ok(None)
    else if args[name] == [] then Err(Missing(name))
    else Ok(Some(args[name][0]))
  }

  predicate IsDigit(c: char) { '0' <= c <= '9' }

  predicate AllDigits(s: string)
  {
    forall i | 0 <= i < |s| :: IsDigit(s[i])
  }

  /** The number a string of decimal digits denotes. */
  function DigitsValue(s: string): nat
    requires AllDigits(s)
  {
    if s == [] then 0 else DigitsValue(s[..|s| - 1]) * 10 + (s[|s| - 1] as int - '0' as int)
  }

  /** Python `int(text)` on an optional sign followed by decimal digits. */
  function ParseInt(text: string): Option<int>
  {
    if text != [] && (text[0] == '-' || text[0] == '+') then
      var digits := text[1..];
      if digits != [] && AllDigits(digits) then
        var n: int := DigitsValue(digits);
        Some(if text[0] == '-' then -n else n)
      else None
    else if text != [] && AllDigits(text) then Some(DigitsValue(text))
    else None
  }

  function Digit(d: nat): char
    requires d < 10
  {
    ('0' as int + d) as char
  }

  /** Python `str(n)` for a natural number. */
  function NatText(n: nat): (s: string)
    ensures s != [] && AllDigits(s)
  {
    if n < 10 then [Digit(n)] else NatText(n / 10) + [Digit(n % 10)]
  }

  /** Python `str(n)`. */
  function IntText(n: int): string
  {
    if n < 0 then "-" + NatText(-n) else NatText(n)
  }

  lemma {:induction false} NatTextValue(n: nat)
    ensures DigitsValue(NatText(n)) == n
  {
    var s := NatText(n);
    if n >= 10 {
      NatTextValue(n / 10);
      assert s[..|s| - 1] == NatText(n / 10);
    }
  }

  /** `int(str(n)) == n`: every integer's decimal text parses back to it. */
  lemma ParseIntText(n: int)
    ensures ParseInt(IntText(n)) == Some(n)
  {
    if n < 0 {
      NatTextValue(-n);
      assert IntText(n)[1..] == NatText(-n);
    } else {
      NatTextValue(n);
    }
  }

  /** `int(next(iter(args.getlist(name, [default]))))`. */
  function IntArg(args: Args, name: string, default: int): Result<int, ArgError>
  {
    var text :- if name in args then FirstOr(args, name, "") else Ok(IntText(default));
    match ParseInt(text)
    case None => Err(NotAnInteger(name, text))
    case Some(n) => Ok(n)
  }

  const DefaultCount := 1000
  const DefaultOffset := 0

  // ---------------------------------------------------------------------
  // Overlaps.get
  // ---------------------------------------------------------------------

  /** The arguments `Overlaps.get` passes on, in its own order. */
  datatype OverlapsParams = OverlapsParams(
    target: string,
    outputType: Option<string>,
    areas: bool,
    proportion: bool,
    within: bool,
    contains: bool,
    count: int,
    offset: int)

  /** Which overlaps function the handler calls. */
  datatype OverlapsCall =
    | Crosswalk(params: OverlapsParams)
    | Direct(params: OverlapsParams, linkset: Option<string>)

  /**
   * `Overlaps.get` up to the call: every argument is read first (count,
   * offset, uri, output_type, then the five flag texts), then the flags are
   * tested, in that order, and the first failure is the one raised.
   */
  function OverlapsRequest(args: Args): Result<OverlapsCall, ArgError>
  {
    var count :- IntArg(args, "count", DefaultCount);
    var offset :- IntArg(args, "offset", DefaultOffset);
    var target :- Required(args, "uri");
    var outputType :- Optional(args, "output_type");
    var areasText :- FirstOr(args, "areas", "false");
    var proportionText :- FirstOr(args, "proportion", "false");
    var containsText :- FirstOr(args, "contains", "false");
    var withinText :- FirstOr(args, "within", "false");
    var crosswalkText :- FirstOr(args, "crosswalk", "false");
    var areas :- FirstCharTruth("areas", areasText);
    var proportion :- FirstCharTruth("proportion", proportionText);
    var contains :- FirstCharTruth("contains", containsText);
    var within :- FirstCharTruth("within", withinText);
    var crosswalk :- FirstCharTruth("crosswalk", crosswalkText);
    if crosswalk then
      Ok(Crosswalk(OverlapsParams(target, outputType, areas, proportion, false, contains, count, offset)))
    else
      Ok(Direct(OverlapsParams(target, outputType, areas, proportion, within, contains, count, offset), None))
  }

  /** The argument `name` reads as an integer, or is absent. */
  predicate IntOk(args: Args, name: string)
  {
    name in args ==> args[name] != [] && ParseInt(args[name][0]).Some?
  }

  /** The value `IntArg` yields for an argument that satisfies `IntOk`. */
  function IntOf(args: Args, name: string, default: int): int
    requires IntOk(args, name)
  {
    if name in args then ParseInt(args[name][0]).value else default
  }

  /** The flag argument `name` can be tested, or is absent. */
  predicate FlagOk(args: Args, name: string)
  {
    name in args ==> args[name] != [] && args[name][0] != ""
  }

  /** A flag is set exactly when given and its first character is t, T or 1. */
  predicate FlagSet(args: Args, name: string)
    requires FlagOk(args, name)
  {
    name in args && args[name][0][0] in Truths
  }

  predicate OverlapsArgsOk(args: Args)
  {
    && IntOk(args, "count") && IntOk(args, "offset")
    && "uri" in args && args["uri"] != []
    && ("output_type" in args ==> args["output_type"] != [])
    && FlagOk(args, "areas") && FlagOk(args, "proportion") && FlagOk(args, "contains")
    && FlagOk(args, "within") && FlagOk(args, "crosswalk")
  }

  lemma IntArgIs(args: Args, name: string, default: int)
    ensures IntArg(args, name, default).Ok? <==> IntOk(args, name)
    ensures IntOk(args, name) ==> IntArg(args, name, default) == Ok(IntOf(args, name, default))
  {
    if name !in args {
      ParseIntText(default);
    }
  }

  lemma FlagIs(args: Args, name: string)
    ensures (var t := FirstOr(args, name, "false"); t.Ok? && FirstCharTruth(name, t.value).Ok?) <==> FlagOk(args, name)
    ensures FlagOk(args, name) ==> FirstCharTruth(name, FirstOr(args, name, "false").value) == Ok(FlagSet(args, name))
  {
  }

  /**
   * Overlaps.get succeeds exactly on well-formed arguments; the target and
   * output type are passed through, count and offset default to 1000 and 0,
   * each flag is its first-character truth, crosswalk is chosen exactly when
   * its flag is set and then forces `within` off, and otherwise the flags pass
   * unchanged with no linkset.
   */
  lemma OverlapsDispatch(args: Args)
    ensures OverlapsRequest(args).Ok? <==> OverlapsArgsOk(args)
    ensures OverlapsArgsOk(args) ==>
      var call := OverlapsRequest(args).value;
      var p := call.params;
      && p.target == args["uri"][0]
      && p.outputType == (if "output_type" in args then Some(args["output_type"][0]) else None)
      && p.count == IntOf(args, "count", DefaultCount)
      && p.offset == IntOf(args, "offset", DefaultOffset)
      && p.areas == FlagSet(args, "areas")
      && p.proportion == FlagSet(args, "proportion")
      && p.contains == FlagSet(args, "contains")
      && (call.Crosswalk? <==> FlagSet(args, "crosswalk"))
      && (call.Crosswalk? ==> !p.within)
      && (call.Direct? ==> p.within == FlagSet(args, "within") && call.linkset == None)
  {
    IntArgIs(args, "count", DefaultCount);
    IntArgIs(args, "offset", DefaultOffset);
    FlagIs(args, "areas");
    FlagIs(args, "proportion");
    FlagIs(args, "contains");
    FlagIs(args, "within");
    FlagIs(args, "crosswalk");
  }

  /** With only a target, the overlaps handler takes the direct path with every default. */
  lemma OverlapsDefaults(target: string)
    ensures OverlapsRequest(map["uri" := [target]])
      == Ok(Direct(OverlapsParams(target, None, false, false, false, false, 1000, 0), None))
  {
    var args := map["uri" := [target]];
    IntArgIs(args, "count", DefaultCount);
    IntArgIs(args, "offset", DefaultOffset);
  }

  /** The overlaps flags in the order the handler reads and then tests them. */
  const FlagNames: seq<string> := ["areas", "proportion", "contains", "within", "crosswalk"]

  /** The arguments read before the flags (count, offset, uri, output_type) all read successfully. */
  predicate LeadingArgsOk(args: Args)
  {
    && IntOk(args, "count") && IntOk(args, "offset")
    && "uri" in args && args["uri"] != []
    && ("output_type" in args ==> args["output_type"] != [])
  }

  /** Whatever the flags say, a missing target is reported once count and offset read. */
  lemma OverlapsMissingTarget(args: Args)
    requires IntOk(args, "count") && IntOk(args, "offset")
    requires !("uri" in args && args["uri"] != [])
    ensures OverlapsRequest(args) == Err(Missing("uri"))
  {
    IntArgIs(args, "count", DefaultCount);
    IntArgIs(args, "offset", DefaultOffset);
  }

  /**
   * An empty value list for a flag is reported before any empty flag text:
   * the first flag, in reading order, whose list is empty is the error, even
   * when an earlier flag's text is "".
   */
  lemma OverlapsMissingFlag(args: Args, k: nat)
    requires LeadingArgsOk(args)
    requires k < |FlagNames| && FlagNames[k] in args && args[FlagNames[k]] == []
    requires forall j | 0 <= j < k :: FlagNames[j] in args ==> args[FlagNames[j]] != []
    ensures OverlapsRequest(args) == Err(Missing(FlagNames[k]))
  {
    IntArgIs(args, "count", DefaultCount);
    IntArgIs(args, "offset", DefaultOffset);
    assert FlagNames[0] == "areas" && FlagNames[1] == "proportion" && FlagNames[2] == "contains";
    assert FlagNames[3] == "within" && FlagNames[4] == "crosswalk";
  }

  /**
   * Once every argument reads, the first flag in testing order whose text is
   * empty is the error.
   */
  lemma OverlapsEmptyFlag(args: Args, k: nat)
    requires LeadingArgsOk(args)
    requires forall j | 0 <= j < |FlagNames| :: FlagNames[j] in args ==> args[FlagNames[j]] != []
    requires k < |FlagNames| && FlagNames[k] in args && args[FlagNames[k]][0] == ""
    requires forall j | 0 <= j < k :: FlagOk(args, FlagNames[j])
    ensures OverlapsRequest(args) == Err(EmptyFlag(FlagNames[k]))
  {
    IntArgIs(args, "count", DefaultCount);
    IntArgIs(args, "offset", DefaultOffset);
    assert FlagNames[0] == "areas" && FlagNames[1] == "proportion" && FlagNames[2] == "contains";
    assert FlagNames[3] == "within" && FlagNames[4] == "crosswalk";
  }

  // ---------------------------------------------------------------------
  // Datatypes.get
  // ---------------------------------------------------------------------

  /** The arguments `Datatypes.get` passes to `get_dataset_types`. */
  datatype DatasetTypesParams = DatasetTypesParams(
    datasetUri: Option<string>,
    datasetType: Option<string>,
    basetype: bool,
    count: int,
    offset: int)

  /** `Datatypes.get` up to the call; the basetype default `False` reads as the text "False". */
  function DatasetTypesRequest(args: Args): Result<DatasetTypesParams, ArgError>
  {
    var datasetUri :- Optional(args, "datasetUri");
    var datasetType :- Optional(args, "type");
    var basetypeText :- FirstOr(args, "basetype", "False");
    var count :- IntArg(args, "count", DefaultCount);
    var offset :- IntArg(args, "offset", DefaultOffset);
    Ok(DatasetTypesParams(datasetUri, datasetType, Str2Bool(basetypeText), count, offset))
  }

  predicate DatasetTypesArgsOk(args: Args)
  {
    && ("datasetUri" in args ==> args["datasetUri"] != [])
    && ("type" in args ==> args["type"] != [])
    && ("basetype" in args ==> args["basetype"] != [])
    && IntOk(args, "count") && IntOk(args, "offset")
  }

  /**
   * Datatypes.get succeeds exactly on well-formed arguments; absent filters
   * are None, `basetype` is `str2bool` of its text and false when absent, and
   * count and offset default to 1000 and 0.
   */
  lemma DatasetTypesDerivation(args: Args)
    ensures DatasetTypesRequest(args).Ok? <==> DatasetTypesArgsOk(args)
    ensures DatasetTypesArgsOk(args) ==>
      var p := DatasetTypesRequest(args).value;
      && p.datasetUri == (if "datasetUri" in args then Some(args["datasetUri"][0]) else None)
      && p.datasetType == (if "type" in args then Some(args["type"][0]) else None)
      && (p.basetype <==> "basetype" in args && Str2Bool(args["basetype"][0]))
      && p.count == IntOf(args, "count", DefaultCount)
      && p.offset == IntOf(args, "offset", DefaultOffset)
  {
    IntArgIs(args, "count", DefaultCount);
    IntArgIs(args, "offset", DefaultOffset);
    assert Lower("False") == "false";
  }
}
