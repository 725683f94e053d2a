/** The parameter set of exp_management/params.py: a table of raw parameter specifications, the
    samplers compiled from them, and the value each name produced most recently. */
module Params {
  import opened Wrappers
  import opened Values
  import opened PyStr

  /** What calling the closure that _make_function builds does. */
  datatype Sampler =
    | Const(v: Value)                         // a literal, returned unchanged on every call
    | Uni(lowText: string, highText: string)  // !uni(a,b): np.random.uniform(float(a), float(b))
    | RInt(low: int, high: int)               // !rint(a,b): np.random.randint(a, b)
    | Eval(code: string)                      // !eval(code): eval(code)

  /** The exceptions the parameter set raises. */
  datatype ParamError =
    | ReservedName(name: string)                  // "Cannot use ... as a parameter"
    | UnknownDirective(raw: string)               // "Do not know how to make a function from ..."
    | WrongArgumentCount(raw: string, count: nat) // unpacking rng.split(",") into low, high
    | NotAnInteger(text: string)                  // int(low) or int(high)
    | UnknownParameter(name: string)              // "... not in parameters"
    | NoSampler(name: string)                     // KeyError on self.functions[key]
    | UniRaised(lowText: string, highText: string) // np.random.uniform refusing a non-finite range
    | BadRange(low: int, high: int)               // np.random.randint refusing its bounds
    | EvalRaised(code: string)                    // the evaluated expression raised

  /** The directive prefixes _make_function recognises, in the order it tries them. */
  const SpecialStrings: seq<string> := ["!uni", "!rint", "!eval"]

  /** dir(self) as __init__ records it in `_reserved` (CPython 3.11 and 3.12): the members of
      `object`, the methods of the class and the attributes set before `_reserved` itself. */
  const Reserved: set<string> := {
    "__class__", "__delattr__", "__dir__", "__doc__", "__eq__", "__format__", "__ge__",
    "__getattribute__", "__getstate__", "__gt__", "__hash__", "__init__", "__init_subclass__",
    "__le__", "__lt__", "__ne__", "__new__", "__reduce__", "__reduce_ex__", "__repr__",
    "__setattr__", "__sizeof__", "__str__", "__subclasshook__",
    "__dict__", "__module__", "__weakref__", "__getattr__", "__getitem__", "__setitem__",
    "_add_param", "_get_and_save", "_make_function", "dict", "get", "items",
    "last_sample", "functions", "keys", "key_strings", "_special_strings"
  }

  /** A str that starts with the directive sentinel '!'. */
  predicate IsDirective(raw: Value) {
    raw.StrV? && StartsWith(raw.s, "!")
  }

  predicate HasSpecialPrefix(s: string) {
    exists i :: 0 <= i < |SpecialStrings| && StartsWith(s, SpecialStrings[i])
  }

  /** `s[len(verb + "("):-1]`: the text between the verb's opening parenthesis and the last
      character, whatever those two characters are. */
  function ArgumentText(s: string, verb: string): string {
    SliceToLast(s, |verb| + 1)
  }

  /** `low, high = rng.split(",")`: exactly two pieces, or the unpacking fails. */
  function TwoArguments(raw: string, verb: string): Result<(string, string), ParamError> {
    var pieces := Split(ArgumentText(raw, verb), ',');
    if |pieces| == 2 then Ok((pieces[0], pieces[1])) else Err(WrongArgumentCount(raw, |pieces|))
  }

  /** The "!rint" branch of _make_function: two pieces, each read with int(). */
  function RIntFrom(s: string): (r: Result<Sampler, ParamError>)
    ensures r.Ok? ==>
      && r.value.RInt?
      && |Split(ArgumentText(s, "!rint"), ',')| == 2
      && ParseInt(Split(ArgumentText(s, "!rint"), ',')[0]) == Some(r.value.low)
      && ParseInt(Split(ArgumentText(s, "!rint"), ',')[1]) == Some(r.value.high)
    ensures r.Err? ==> r.error.WrongArgumentCount? || r.error.NotAnInteger?
  {
    match TwoArguments(s, "!rint")
    case Err(e) => Err(e)
    case Ok((lowText, highText)) =>
      match (ParseInt(lowText), ParseInt(highText))
      case (None, _) => Err(NotAnInteger(lowText))
      case (Some(_), None) => Err(NotAnInteger(highText))
      case (Some(low), Some(high)) => Ok(RInt(low, high))
  }

  /** The directive half of _make_function, for a str that starts with '!'. */
  function CompileDirective(s: string): (r: Result<Sampler, ParamError>)
    ensures r.Ok? ==> !r.value.Const?
    ensures r.Ok? && r.value.RInt? ==> StartsWith(s, "!rint") && r == RIntFrom(s)
    ensures r == Err(UnknownDirective(s)) <==> !HasSpecialPrefix(s)
    ensures r.Err? && !r.error.UnknownDirective? ==> StartsWith(s, "!uni") || StartsWith(s, "!rint")
    ensures StartsWith(s, "!uni") ==> (r.Ok? <==> |Split(ArgumentText(s, "!uni"), ',')| == 2)
    ensures r.Ok? && r.value.Uni? ==>
      StartsWith(s, "!uni") && [r.value.lowText, r.value.highText] == Split(ArgumentText(s, "!uni"), ',')
    ensures StartsWith(s, "!eval") ==> r == Ok(Eval(ArgumentText(s, "!eval")))
  {
    if StartsWith(s, "!uni") || StartsWith(s, "!rint") || StartsWith(s, "!eval") then
      assert StartsWith(s, SpecialStrings[0]) || StartsWith(s, SpecialStrings[1]) || StartsWith(s, SpecialStrings[2]);
      if StartsWith(s, "!uni") then
        assert s[..4][1] == 'u' && !StartsWith(s, "!eval");
        match TwoArguments(s, "!uni")
        case Err(e) => Err(e)
        case Ok((lowText, highText)) => Ok(Uni(lowText, highText))
      else if StartsWith(s, "!rint") then RIntFrom(s)
      else Ok(Eval(ArgumentText(s, "!eval")))
    else
      Err(UnknownDirective(s))
  }

  /** _make_function: compiles a raw specification into a sampler. */
  function MakeFunction(raw: Value): Result<Sampler, ParamError> {
    if IsDirective(raw) then CompileDirective(raw.s) else Ok(Const(raw))
  }

  /** A value that is not a directive compiles to a constant that returns it; a directive never
      compiles to a constant, fails exactly when its verb is unknown or its arguments are bad,
      and is reported as unknown exactly when no special prefix matches. */
  lemma MakeFunctionCases(raw: Value)
    ensures MakeFunction(raw).Ok? && MakeFunction(raw).value.Const? <==> !IsDirective(raw)
    ensures !IsDirective(raw) ==> MakeFunction(raw) == Ok(Const(raw))
    ensures MakeFunction(raw).Err? ==> IsDirective(raw)
    ensures IsDirective(raw) ==> (MakeFunction(raw) == Err(UnknownDirective(raw.s)) <==> !HasSpecialPrefix(raw.s))
  {
  }

  /** The directive text `verb(args)`. */
  function DirectiveText(verb: string, args: string): string {
    verb + "(" + args + ")"
  }

  lemma {:induction false} DirectiveTextParts(verb: string, args: string)
    ensures StartsWith(DirectiveText(verb, args), verb)
    ensures ArgumentText(DirectiveText(verb, args), verb) == args
  {
    var s := DirectiveText(verb, args);
    assert s[..|verb|] == verb;
    assert s[|verb| + 1..|s| - 1] == args;
  }

  /** "!eval(code)" compiles to an evaluation of exactly `code`. */
  lemma {:induction false} EvalDirectiveCompiles(code: string)
    ensures MakeFunction(StrV(DirectiveText("!eval", code))) == Ok(Eval(code))
  {
    DirectiveTextParts("!eval", code);
    var s := DirectiveText("!eval", code);
    assert s[1] == 'e';
  }

  /** Two comma-free texts around one comma are the two arguments. */
  lemma {:induction false} TwoArgumentsOf(verb: string, a: string, b: string)
    requires ',' !in a && ',' !in b
    ensures TwoArguments(DirectiveText(verb, a + "," + b), verb) == Ok((a, b))
  {
    DirectiveTextParts(verb, a + "," + b);
    assert a + "," + b == a + [','] + b;
    SplitAround(a, b, ',');
  }

  /** str(n): the decimal text of an int. */
  function IntText(n: int): string {
    FormatZeroPadded(n, 0)
  }

  /** A str that starts with "!rint" is compiled by the "!rint" branch. */
  lemma {:induction false} CompilesAsRInt(s: string)
    requires StartsWith(s, "!rint")
    ensures MakeFunction(StrV(s)) == RIntFrom(s)
  {
    assert s[..5] == "!rint";
    assert s[1] == 'r';
    assert s[..1] == "!";
    assert !StartsWith(s, "!uni");
  }

  lemma {:induction false} RIntFromParsed(s: string, a: string, b: string, low: int, high: int)
    requires TwoArguments(s, "!rint") == Ok((a, b))
    requires ParseInt(a) == Some(low) && ParseInt(b) == Some(high)
    ensures RIntFrom(s) == Ok(RInt(low, high))
  {
  }

  /** The decimal text of an int holds no comma. */
  lemma IntTextHasNoComma(n: int)
    ensures ',' !in IntText(n)
  {
    var t := IntText(n);
    FormatZeroPaddedChars(n, 0);
    assert forall i :: 0 <= i < |t| ==> t[i] != ',';
  }

  /** "!rint(a,b)" written with str(a) and str(b) splits back into those two texts. */
  lemma {:induction false} RIntArgumentsOf(low: int, high: int)
    ensures TwoArguments(DirectiveText("!rint", IntText(low) + "," + IntText(high)), "!rint") == Ok((IntText(low), IntText(high)))
  {
    IntTextHasNoComma(low);
    IntTextHasNoComma(high);
    TwoArgumentsOf("!rint", IntText(low), IntText(high));
  }

  /** "!rint(a,b)" written with str(a) and str(b) compiles to exactly those bounds. */
  lemma {:induction false} RIntDirectiveRoundTrip(low: int, high: int)
    ensures MakeFunction(StrV(DirectiveText("!rint", IntText(low) + "," + IntText(high)))) == Ok(RInt(low, high))
  {
    var s := DirectiveText("!rint", IntText(low) + "," + IntText(high));
    DirectiveTextParts("!rint", IntText(low) + "," + IntText(high));
    CompilesAsRInt(s);
    RIntArgumentsOf(low, high);
    ParseFormatRoundTrip(low, 0);
    ParseFormatRoundTrip(high, 0);
    RIntFromParsed(s, IntText(low), IntText(high), low, high);
  }

  /** "!uni(a,b)" keeps its two argument texts whenever neither holds a comma. */
  lemma {:induction false} UniDirectiveArguments(a: string, b: string)
    requires ',' !in a && ',' !in b
    ensures MakeFunction(StrV(DirectiveText("!uni", a + "," + b))) == Ok(Uni(a, b))
  {
    var s := DirectiveText("!uni", a + "," + b);
    DirectiveTextParts("!uni", a + "," + b);
    assert StartsWith(s, "!");
    TwoArgumentsOf("!uni", a, b);
  }

  lemma SmallIntsParse()
    ensures ParseInt("1") == Some(1) && ParseInt("2") == Some(2)
  {
    assert Digits(1) == "1" && Digits(2) == "2";
    ParseFormatRoundTrip(1, 0);
    ParseFormatRoundTrip(2, 0);
  }

  lemma TruncatedArguments()
    ensures TwoArguments("!rint(1,23", "!rint") == Ok(("1", "2"))
  {
    assert ArgumentText("!rint(1,23", "!rint") == "1" + [','] + "2";
    SplitAround("1", "2", ',');
  }

  /** The parenthesis after the argument text is never checked: the last character is dropped
      whatever it is, so "!rint(1,23" compiles to the range [1, 2). */
  lemma UncheckedClosingParenthesis()
    ensures MakeFunction(StrV("!rint(1,23")) == Ok(RInt(1, 2))
  {
    var s := "!rint(1,23";
    assert s[..5] == "!rint";
    CompilesAsRInt(s);
    TruncatedArguments();
    SmallIntsParse();
    RIntFromParsed(s, "1", "2", 1, 2);
  }

  /** One argument where two are unpacked. */
  lemma OneArgumentForTwo()
    ensures MakeFunction(StrV("!uni(1)")) == Err(WrongArgumentCount("!uni(1)", 1))
  {
    var s := "!uni(1)";
    assert s[..1] == "!" && s[..4] == "!uni";
    assert ArgumentText(s, "!uni") == "1";
    assert Split("1", ',') == ["1"];
  }

  /** A verb that is not recognised. */
  lemma UnknownVerb()
    ensures MakeFunction(StrV("!foo(1,2)")) == Err(UnknownDirective("!foo(1,2)"))
  {
    var s := "!foo(1,2)";
    assert s[..1] == "!";
    assert s[1] == 'f';
    assert !StartsWith(s, "!uni") && !StartsWith(s, "!rint") && !StartsWith(s, "!eval");
  }

  /** np.random.randint(low, high) with the default int64 dtype: it raises unless
      low < high and both bounds fit. */
  predicate RIntDrawable(low: int, high: int) {
    -0x8000_0000_0000_0000 <= low < high <= 0x8000_0000_0000_0000
  }

  /** The outcomes one call of a sampler can have. */
  predicate Produces(s: Sampler, r: Result<Value, ParamError>) {
    match s
    case Const(v) => r == Ok(v)
    case Uni(lowText, highText) => (r.Ok? && r.value.FloatV?) || r == Err(UniRaised(lowText, highText))
    case RInt(low, high) =>
      if RIntDrawable(low, high) then r.Ok? && r.value.IntV? && low <= r.value.i < high
      else r == Err(BadRange(low, high))
    case Eval(code) => r.Ok? || r == Err(EvalRaised(code))
  }

  /** Calls a compiled sampler: the random draws and the evaluated expression are chosen freely
      among the outcomes Produces allows. */
  method Draw(s: Sampler) returns (r: Result<Value, ParamError>)
    ensures Produces(s, r)
  {
    match s
    case Const(v) =>
      r := Ok(v);
    case Uni(lowText, highText) =>
      var raised: bool :| true;
      if raised {
        r := Err(UniRaised(lowText, highText));
      } else {
        var x: real :| true;
        r := Ok(FloatV(x));
      }
    case RInt(low, high) =>
      if RIntDrawable(low, high) {
        var k :| low <= k < high;
        r := Ok(IntV(k));
      } else {
        r := Err(BadRange(low, high));
      }
    case Eval(code) =>
      var raised: bool :| true;
      if raised {
        r := Err(EvalRaised(code));
      } else {
        var v: Value :| true;
        r := Ok(v);
      }
  }

  /** A literal compiles to a sampler whose every call gives back exactly that literal. */
  lemma LiteralAlwaysReturned(raw: Value, r: Result<Value, ParamError>)
    requires !IsDirective(raw)
    ensures MakeFunction(raw).Ok? && (Produces(MakeFunction(raw).value, r) <==> r == Ok(raw))
  {
  }

  /** Every value a "!rint(a,b)" parameter yields is an int in [a, b). */
  lemma RIntDrawsInRange(low: int, high: int, s: Sampler, r: Result<Value, ParamError>)
    requires MakeFunction(StrV(DirectiveText("!rint", IntText(low) + "," + IntText(high)))) == Ok(s)
    requires Produces(s, r) && r.Ok?
    ensures r.value.IntV? && low <= r.value.i < high
  {
    RIntDirectiveRoundTrip(low, high);
  }

  /** The names of a list of (name, value) pairs. */
  function Names(pairs: seq<(string, Value)>): set<string> {
    if pairs == [] then {} else Names(pairs[..|pairs| - 1]) + {pairs[|pairs| - 1].0}
  }

  /** One more pair adds its name. */
  lemma NamesOfPrefix(pairs: seq<(string, Value)>, n: nat)
    requires n < |pairs|
    ensures Names(pairs[..n + 1]) == Names(pairs[..n]) + {pairs[n].0}
  {
    assert pairs[..n + 1][..n] == pairs[..n];
  }

  /** Changing an entry inside `names` leaves the map outside `names` as it was. */
  lemma UpdateInside<V>(m: map<string, V>, k: string, v: V, names: set<string>)
    requires k in names
    ensures m[k := v] - names == m - names
  {
  }

  /** The dict of a list of (name, value) pairs, later pairs winning. */
  function MapOf(pairs: seq<(string, Value)>): map<string, Value> {
    if pairs == [] then map[] else MapOf(pairs[..|pairs| - 1])[pairs[|pairs| - 1].0 := pairs[|pairs| - 1].1]
  }

  /** The raw specifications after one more step of the __init__ loop. */
  lemma MapOfStep(init: seq<(string, Value)>, n: nat, ks0: map<string, Value>, ks: map<string, Value>)
    requires n < |init| && ks == ks0 + MapOf(init[..n])
    ensures ks[init[n].0 := init[n].1] == ks0 + MapOf(init[..n + 1])
  {
    assert init[..n + 1][..n] == init[..n];
  }

  /** The names after one more step of the __init__ loop. */
  lemma KeysStep(init: seq<(string, Value)>, n: nat, keys0: set<string>, keys: set<string>)
    requires n < |init| && keys == keys0 + Names(init[..n])
    ensures keys + {init[n].0} == keys0 + Names(init[..n + 1])
  {
    NamesOfPrefix(init, n);
  }

  /** With distinct names, the dict holds each pair's value under its name. */
  lemma {:induction false} MapOfLookup(pairs: seq<(string, Value)>)
    requires forall i, j :: 0 <= i < j < |pairs| ==> pairs[i].0 != pairs[j].0
    ensures forall i :: 0 <= i < |pairs| ==> pairs[i].0 in MapOf(pairs) && MapOf(pairs)[pairs[i].0] == pairs[i].1
  {
    if pairs != [] {
      var n := |pairs| - 1;
      MapOfLookup(pairs[..n]);
      assert forall i :: 0 <= i < n ==> pairs[..n][i] == pairs[i];
    }
  }

  /** The last samples after one more step of the __init__ loop: the new name gets None when
      it had none. */
  lemma AddedStep(init: seq<(string, Value)>, n: nat, ls0: map<string, Value>, ls: map<string, Value>)
    requires n < |init| && init[n].0 !in Names(init[..n])
    requires ls == ls0 + map k | k in Names(init[..n]) && k !in ls0 :: NoneV
    ensures (if init[n].0 in ls then ls else ls[init[n].0 := NoneV]) ==
      ls0 + map k | k in Names(init[..n + 1]) && k !in ls0 :: NoneV
  {
    NamesOfPrefix(init, n);
  }

  /** Where the __init__ loop stops, after `n` pairs and possibly the name `init[n]`, the raw
      specifications and the last samples outside the names of `init` are as they were. */
  lemma AddedFrame(init: seq<(string, Value)>, n: nat, ks0: map<string, Value>, ls0: map<string, Value>,
                   ks: map<string, Value>, ls: map<string, Value>, untouched: bool)
    requires n <= |init|
    requires untouched || n < |init|
    requires var ksn := ks0 + MapOf(init[..n]);
      ks == ksn || (n < |init| && ks == ksn[init[n].0 := init[n].1])
    requires var lsn := ls0 + map k | k in Names(init[..n]) && k !in ls0 :: NoneV;
      ls == lsn || (n < |init| && ls == lsn[init[n].0 := NoneV])
    ensures ks - Names(init) == ks0 - Names(init)
    ensures ls - Names(init) == ls0 - Names(init)
  {
    var names := Names(init);
    NamesOfSlice(init, n);
    MapOfKeys(init[..n]);
    var ksn := ks0 + MapOf(init[..n]);
    var lsn := ls0 + map k | k in Names(init[..n]) && k !in ls0 :: NoneV;
    MergeOutside(ks0, MapOf(init[..n]), names);
    MergeOutside(ls0, map k | k in Names(init[..n]) && k !in ls0 :: NoneV, names);
    if n < |init| {
      NamesMeaning(init, init[n].0);
      assert init[n].0 in names;
      UpdateInside(ksn, init[n].0, init[n].1, names);
      UpdateInside(lsn, init[n].0, NoneV, names);
    }
  }

  /** Merging entries whose names are all inside `names` leaves the map outside `names` as it
      was. */
  lemma MergeOutside(m: map<string, Value>, extra: map<string, Value>, names: set<string>)
    requires extra.Keys <= names
    ensures (m + extra) - names == m - names
  {
  }

  /** The names of a prefix are names of the whole list. */
  lemma NamesOfSlice(pairs: seq<(string, Value)>, n: nat)
    requires n <= |pairs|
    ensures Names(pairs[..n]) <= Names(pairs)
  {
    forall k | k in Names(pairs[..n]) ensures k in Names(pairs) {
      NamesMeaning(pairs[..n], k);
      NamesMeaning(pairs, k);
      var i :| 0 <= i < n && pairs[..n][i].0 == k;
      assert pairs[i].0 == k;
    }
  }

  /** The dict's names are the pairs' names. */
  lemma {:induction false} MapOfKeys(pairs: seq<(string, Value)>)
    ensures MapOf(pairs).Keys == Names(pairs)
  {
    if pairs != [] {
      MapOfKeys(pairs[..|pairs| - 1]);
    }
  }

  /** A name is among the pairs' names exactly when some pair carries it. */
  lemma {:induction false} NamesMeaning(pairs: seq<(string, Value)>, k: string)
    ensures k in Names(pairs) <==> exists i :: 0 <= i < |pairs| && pairs[i].0 == k
  {
    if pairs != [] {
      var init := pairs[..|pairs| - 1];
      NamesMeaning(init, k);
      assert forall i :: 0 <= i < |init| ==> init[i] == pairs[i];
      if k in Names(init) {
        var i :| 0 <= i < |init| && init[i].0 == k;
        assert pairs[i].0 == k;
      }
    }
  }

  /** Every raw specification in `ks` compiles to its sampler in `fs`, except for the names
      in `fl`, whose specification does not compile. */
  ghost predicate CompiledOn(ks: map<string, Value>, fs: map<string, Sampler>, fl: set<string>)
  {
    forall k {:trigger MakeFunction(ks[k])} :: k in ks ==>
      if k in fl then MakeFunction(ks[k]).Err?
      else k in fs && MakeFunction(ks[k]) == Ok(fs[k])
  }

  /** Assigning one specification keeps the table compiled, with the sampler replaced when
      the specification compiles and the name marked failed when it does not. */
  lemma CompiledAfterAssign(ks: map<string, Value>, fs: map<string, Sampler>, fl: set<string>,
                            name: string, raw: Value)
    requires CompiledOn(ks, fs, fl)
    ensures match MakeFunction(raw)
      case Ok(s) => CompiledOn(ks[name := raw], fs[name := s], fl - {name})
      case Err(_) => CompiledOn(ks[name := raw], fs, fl + {name})
  {
    assert forall k :: k in ks && k != name ==> MakeFunction(ks[name := raw][k]) == MakeFunction(ks[k]);
  }

  class Parameters {
    var keys: set<string>
    var keyStrings: map<string, Value>
    var functions: map<string, Sampler>
    var lastSample: map<string, Value>
    /** `_reserved`: the names a parameter may not take. */
    const reserved: set<string>
    /** The names whose latest assignment did not compile: their raw specification is recorded
        but their sampler is the one from before, or missing. */
    ghost var failed: set<string>

    /** The shape of the table: one raw specification and one last sample per name, no
        reserved name, and samplers only for known names. */
    ghost predicate Valid()
      reads this
    {
      && keys == keyStrings.Keys
      && keys == lastSample.Keys
      && keys !! reserved
      && functions.Keys <= keys
      && failed <= keys
    }

    /** The samplers agree with the specifications: a name has the sampler its latest
        specification compiled to, unless that compilation failed. Sampling cannot disturb it. */
    ghost predicate Compiled()
      reads this`keyStrings, this`functions, this`failed
    {
      CompiledOn(keyStrings, functions, failed)
    }

    /** The empty table that __init__ sets up before adding the initial values. */
    constructor ()
      ensures Valid() && Compiled()
      ensures reserved == Reserved
      ensures keys == {} && keyStrings == map[] && functions == map[] && lastSample == map[]
    {
      reserved := Reserved;
      keys := {};
      keyStrings := map[];
      functions := map[];
      lastSample := map[];
      failed := {};
    }

    /** _add_param, which `p[name] = raw` and `p.name = raw` both call. */
    method AddParam(name: string, raw: Value) returns (err: Option<ParamError>)
      requires Valid() && Compiled()
      modifies this
      ensures Valid() && Compiled()
      ensures name in reserved ==> err == Some(ReservedName(name)) && unchanged(this)
      ensures name !in reserved ==>
        && keys == old(keys) + {name}
        && keyStrings == old(keyStrings)[name := raw]
        && lastSample == (if name in old(lastSample) then old(lastSample) else old(lastSample)[name := NoneV])
        && match MakeFunction(raw)
           case Ok(s) => err.None? && functions == old(functions)[name := s] && failed == old(failed) - {name}
           case Err(e) => err == Some(e) && functions == old(functions) && failed == old(failed) + {name}
    {
      if name in reserved {
        return Some(ReservedName(name));
      }
      CompiledAfterAssign(keyStrings, functions, failed, name, raw);
      keys := keys + {name};
      keyStrings := keyStrings[name := raw];
      if name !in lastSample {
        lastSample := lastSample[name := NoneV];
      }
      match MakeFunction(raw)
      case Ok(s) =>
        functions := functions[name := s];
        failed := failed - {name};
        err := None;
      case Err(e) =>
        failed := failed + {name};
        err := Some(e);
    }

    /** The loop of __init__: adds each initial value in the dict's order and stops at the
        first exception. Names outside `init` keep their entries; on success every new name has
        None as its last sample. */
    method AddAll(init: seq<(string, Value)>) returns (err: Option<ParamError>)
      requires Valid() && Compiled()
      requires forall i, j :: 0 <= i < j < |init| ==> init[i].0 != init[j].0
      modifies this
      ensures Valid() && Compiled()
      ensures err.None? <==> forall i :: 0 <= i < |init| ==> init[i].0 !in reserved && MakeFunction(init[i].1).Ok?
      ensures err.None? ==> keys == old(keys) + Names(init)
      ensures err.None? ==> keyStrings == old(keyStrings) + MapOf(init)
      ensures err.None? ==> forall i :: 0 <= i < |init| ==>
        && init[i].0 in keyStrings && keyStrings[init[i].0] == init[i].1
        && init[i].0 in functions && Ok(functions[init[i].0]) == MakeFunction(init[i].1)
      ensures err.None? ==> lastSample == old(lastSample) + map k | k in Names(init) && k !in old(lastSample) :: NoneV
      ensures keyStrings - Names(init) == old(keyStrings) - Names(init)
      ensures functions - Names(init) == old(functions) - Names(init)
      ensures lastSample - Names(init) == old(lastSample) - Names(init)
    {
      var n := 0;
      while n < |init|
        invariant 0 <= n <= |init|
        invariant Valid() && Compiled()
        invariant keys == old(keys) + Names(init[..n])
        invariant forall i :: 0 <= i < n ==> init[i].0 !in reserved && init[i].0 !in failed
        invariant keyStrings == old(keyStrings) + MapOf(init[..n])
        invariant lastSample == old(lastSample) + map k | k in Names(init[..n]) && k !in old(lastSample) :: NoneV
        invariant functions - Names(init) == old(functions) - Names(init)
      {
        var (name, raw) := init[n];
        ghost var ks, fs, ls := keyStrings, functions, lastSample;
        NamesMeaning(init, name);
        NamesMeaning(init[..n], name);
        KeysStep(init, n, old(keys), keys);
        MapOfStep(init, n, old(keyStrings), ks);
        err := AddParam(name, raw);
        if MakeFunction(raw).Ok? && name !in reserved {
          UpdateInside(fs, name, MakeFunction(raw).value, Names(init));
        }
        if err.Some? {
          AddedFrame(init, n, old(keyStrings), old(lastSample), keyStrings, lastSample, name in reserved);
          return;
        }
        AddedStep(init, n, old(lastSample), ls);
        assert name !in reserved && name !in failed;
        n := n + 1;
      }
      assert init[..n] == init;
      AddedFrame(init, n, old(keyStrings), old(lastSample), keyStrings, lastSample, true);
      MapOfLookup(init);
      err := None;
    }

    /** dict(): the raw specifications, which recompile to the samplers in use except where
        the latest assignment failed. */
    function Dict(): (spec: map<string, Value>)
      reads this
      requires Valid() && Compiled()
      ensures spec.Keys == keys
      ensures forall k :: k in spec && k !in failed ==> k in functions && MakeFunction(spec[k]) == Ok(functions[k])
    {
      assert forall k :: k in keyStrings && k !in failed ==> MakeFunction(keyStrings[k]).Ok?;
      keyStrings
    }

    /** _get_and_save: calls the sampler of `key` and records what it produced. */
    method GetAndSave(key: string) returns (r: Result<Value, ParamError>)
      requires Valid()
      modifies this`lastSample
      ensures Valid()
      ensures key !in functions ==> r == Err(NoSampler(key))
      ensures key in functions ==> Produces(functions[key], r)
      ensures lastSample == if r.Ok? then old(lastSample)[key := r.value] else old(lastSample)
    {
      if key !in functions {
        return Err(NoSampler(key));
      }
      r := Draw(functions[key]);
      if r.Ok? {
        lastSample := lastSample[key := r.value];
      }
    }

    /** p[key] (and p.key for a parameter name): a fresh sample of a known name, recorded as
        its last sample; an unknown name raises. */
    method GetItem(key: string) returns (r: Result<Value, ParamError>)
      requires Valid()
      modifies this`lastSample
      ensures Valid()
      ensures key !in keys ==> r == Err(UnknownParameter(key))
      ensures key in keys && key !in functions ==> r == Err(NoSampler(key))
      ensures key in functions ==> Produces(functions[key], r)
      ensures lastSample == if r.Ok? then old(lastSample)[key := r.value] else old(lastSample)
    {
      if key in keys {
        r := GetAndSave(key);
      } else {
        r := Err(UnknownParameter(key));
      }
    }

    /** get(key, default): like p[key] for a known name, `default` otherwise. */
    method Get(key: string, default: Value) returns (r: Result<Value, ParamError>)
      requires Valid()
      modifies this`lastSample
      ensures Valid()
      ensures key !in keys ==> r == Ok(default) && lastSample == old(lastSample)
      ensures key in keys && key !in functions ==> r == Err(NoSampler(key))
      ensures key in functions ==> Produces(functions[key], r)
      ensures key in keys ==> lastSample == if r.Ok? then old(lastSample)[key := r.value] else old(lastSample)
    {
      if key in keys {
        r := GetItem(key);
      } else {
        r := Ok(default);
      }
    }

    /** items(): `self[k]` for each name in the set's iteration order `order`, so each name is
        sampled once and its sample recorded; the first exception ends it, keeping the samples
        recorded so far and leaving the other names' last samples untouched. */
    method Items() returns (r: Result<seq<(string, Value)>, ParamError>, ghost order: seq<string>)
      requires Valid()
      modifies this`lastSample
      ensures Valid()
      ensures forall k :: k in keys <==> k in order
      ensures forall i, j :: 0 <= i < j < |order| ==> order[i] != order[j]
      ensures r.Err? ==> r.error.NoSampler? || r.error.UniRaised? || r.error.BadRange? || r.error.EvalRaised?
      ensures r.Ok? ==> Names(r.value) == keys
      ensures r.Ok? ==> |r.value| == |order| && forall i :: 0 <= i < |r.value| ==>
        && r.value[i].0 == order[i]
        && r.value[i].0 in functions
        && Produces(functions[r.value[i].0], Ok(r.value[i].1))
        && lastSample[r.value[i].0] == r.value[i].1
      ensures r.Err? ==> exists n :: RaisedAt(order, functions, old(lastSample), lastSample, n, r.error)
    {
      var names := Enumerate(keys);
      order := names;
      var sampled: map<string, Value>;
      r, sampled := SampleInOrder(names, functions, lastSample);
      lastSample := sampled;
      if r.Ok? {
        NamesInOrder(r.value, names);
      }
    }
  }

  /** The state `[(k, self[k]) for k in order]` leaves when `self[order[n]]` raises `e`: the
      names before it were sampled and their samples recorded, every other name keeps its last
      sample from `last`. */
  ghost predicate RaisedAt(order: seq<string>, functions: map<string, Sampler>, last: map<string, Value>,
                           sampled: map<string, Value>, n: int, e: ParamError)
  {
    && 0 <= n < |order|
    && (forall i :: 0 <= i < n ==>
          order[i] in functions && order[i] in sampled && Produces(functions[order[i]], Ok(sampled[order[i]])))
    && (if order[n] in functions then Produces(functions[order[n]], Err(e)) else e == NoSampler(order[n]))
    && forall k :: k in last && k !in order[..n] ==> k in sampled && sampled[k] == last[k]
  }

  /** The samples of `[(k, self[k]) for k in order]` against the samplers `functions`, with
      `last` as the record of last samples it updates. */
  method SampleInOrder(order: seq<string>, functions: map<string, Sampler>, last: map<string, Value>)
      returns (r: Result<seq<(string, Value)>, ParamError>, sampled: map<string, Value>)
    requires forall i, j :: 0 <= i < j < |order| ==> order[i] != order[j]
    requires forall i :: 0 <= i < |order| ==> order[i] in last
    ensures sampled.Keys == last.Keys
    ensures r.Err? ==> r.error.NoSampler? || r.error.UniRaised? || r.error.BadRange? || r.error.EvalRaised?
    ensures r.Ok? ==> |r.value| == |order|
    ensures r.Ok? ==> forall i :: 0 <= i < |r.value| ==>
      && r.value[i].0 == order[i]
      && r.value[i].0 in functions
      && Produces(functions[r.value[i].0], Ok(r.value[i].1))
      && sampled[r.value[i].0] == r.value[i].1
    ensures r.Ok? ==> forall k :: k in last && k !in order ==> sampled[k] == last[k]
    ensures r.Err? ==> exists n :: RaisedAt(order, functions, last, sampled, n, r.error)
  {
    sampled := last;
    var pairs: seq<(string, Value)> := [];
    r := Ok([]);
    while |pairs| < |order|
      invariant |pairs| <= |order|
      invariant r.Ok? && sampled.Keys == last.Keys
      invariant forall i :: 0 <= i < |pairs| ==>
        && pairs[i].0 == order[i]
        && pairs[i].0 in functions
        && Produces(functions[pairs[i].0], Ok(pairs[i].1))
        && sampled[pairs[i].0] == pairs[i].1
      invariant forall k :: k in last && k !in order[..|pairs|] ==> sampled[k] == last[k]
    {
      var n := |pairs|;
      var k := order[n];
      if k !in functions {
        r := Err(NoSampler(k));
        assert RaisedAt(order, functions, last, sampled, n, r.error);
        return;
      }
      var v := Draw(functions[k]);
      if v.Err? {
        r := Err(v.error);
        assert RaisedAt(order, functions, last, sampled, n, r.error);
        return;
      }
      assert order[..n + 1] == order[..n] + [k];
      sampled := sampled[k := v.value];
      pairs := pairs + [(k, v.value)];
    }
    assert order[..|pairs|] == order;
    r := Ok(pairs);
  }

  /** A name whose sampler returns a literal never raises, so sampling only literals succeeds. */
  lemma LiteralsNeverRaise(order: seq<string>, functions: map<string, Sampler>, last: map<string, Value>,
                           sampled: map<string, Value>, e: ParamError)
    requires forall i :: 0 <= i < |order| ==> order[i] in functions && functions[order[i]].Const?
    ensures forall n :: !RaisedAt(order, functions, last, sampled, n, e)
  {
  }

  /** Pairs whose names are listed in order have exactly the listed names. */
  lemma {:induction false} NamesInOrder(pairs: seq<(string, Value)>, order: seq<string>)
    requires |pairs| == |order|
    requires forall i :: 0 <= i < |pairs| ==> pairs[i].0 == order[i]
    ensures forall k :: k in Names(pairs) <==> k in order
  {
    if pairs != [] {
      var n := |pairs| - 1;
      NamesInOrder(pairs[..n], order[..n]);
      assert order == order[..n] + [order[n]];
    }
  }

  /** The elements of a set, each once, in an order the set chooses. */
  method Enumerate(s: set<string>) returns (order: seq<string>)
    ensures forall k :: k in s <==> k in order
    ensures forall i, j :: 0 <= i < j < |order| ==> order[i] != order[j]
  {
    order := [];
    var rest := s;
    while rest != {}
      invariant forall k :: k in s <==> k in rest || k in order
      invariant forall k :: k in rest ==> k !in order
      invariant forall i, j :: 0 <= i < j < |order| ==> order[i] != order[j]
      decreases |rest|
    {
      var k :| k in rest;
      order := order + [k];
      rest := rest - {k};
    }
  }
}
