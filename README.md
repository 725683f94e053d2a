# exp_management: parameter sets and the run registry, in Dafny

`exp_management` helps a researcher run experiments reproducibly. It has two parts.

A **parameter set** (`Parameters`, in `exp_management/params.py`) maps parameter names to raw
specifications. A raw specification is either a literal or a directive string:

- `"!uni(a,b)"` draws a float;
- `"!rint(a,b)"` draws an int in `[a, b)`;
- `"!eval(code)"` evaluates an expression.

Each specification is compiled into a sampler when it is assigned. Reading a parameter calls its
sampler, and the value produced is recorded in `last_sample`.

An **experiment manager** (`ExpManager`, in `exp_management/experiment_manager.py`) allocates run
numbers. It scans the results directory, takes the largest integer prefix of the file names, adds
one, and returns a zero-padded file name. It then logs one row per run: the run id, the result's
name and creation time, and the parameters used. The row goes to a csv log either at once or
batched in memory until `write_logs`.

The Dafny model has five modules, one per file:

| file | module | what it holds |
|---|---|---|
| `wrappers.dfy` | `Wrappers` | `Option` and `Result`, used for Python's None and for exceptions |
| `values.dfy` | `Values` | the Python values that parameters and log cells carry |
| `py_str.dfy` | `PyStr` | the Python string built-ins the code relies on, with their round trips proved |
| `params.dfy` | `Params` | the directive compiler, the samplers and the `Parameters` class |
| `experiment_manager.dfy` | `ExperimentManager` | the run-number scan, file naming, logging and `ConfigLoader.write`'s name rule |

The `PyStr` built-ins are `startswith`, `in`, slicing, `split`, `strip`, `int()`,
`"{:0N}".format` and `os.path.splitext`.

`Parameters` is a class whose methods update its fields. Its ghost set `failed` holds the names
whose latest assignment did not compile. Two invariants hold throughout:

- `Valid()`: one raw specification and one last sample per name, and no name is reserved.
- `Compiled()`: every sampler is what its raw specification compiles to, except for the names in
  `failed`.

Sampling only touches `lastSample`, so it cannot disturb `Compiled()`.

`ExpManager` is a class too. Its fields are the in-memory batch log and the rows of the log file.

Random draws and `eval` are nondeterministic choices. `Produces` states their possible outcomes,
including the exceptions that `np.random.randint` and `eval` raise.

Some behaviours of the code are easy to miss. The model follows the code in each of them:

- `_log_experiment`'s flattening tests whether each **key** is a list or a dict. A dict key is
  never either, so nothing is flattened, even for list-valued or dict-valued entries: `Flatten`
  is the identity.
- `_add_param` puts `None` into `last_sample` for every new name, so `last_sample` holds `None`
  for a name that was never read.
- A directive's closing parenthesis is never checked. `v[len("!rint("):-1]` drops the last
  character whatever it is (`UncheckedClosingParenthesis`).
- A second `_log_experiment` call while a batch is held reads `self.df`, which is never assigned,
  and raises `AttributeError`. `write_logs` writes the batch but never clears `log_df`. So once
  one run has been logged in batch mode, every later `_log_experiment` raises `AttributeError`,
  in either mode, for the rest of the manager's life.
- `_get_current_id` returns 0 for a directory with no counted files, and `get_savepath` adds one.
  The first run is therefore numbered 1.
- A saved file whose own name contains `.DS` is skipped by the next scan. The next `get_savepath`
  then returns the same path again (`SavedFileIsNextCurrent`).
- A parameter named `id`, `name` or `time_created` overrides that log column
  (`LogRowColumns`, `AddMetadataColumns`).

## Model

| member | source | states |
|---|---|---|
| PyStr.ContainsOnlyAfter | exp_management/experiment_manager.py:99 | a substring that starts with a character absent from the front part can only occur in the back part |
| PyStr.ContainsAfterPrefix | exp_management/experiment_manager.py:99 | an occurrence of a substring survives putting any text in front |
| PyStr.SplitPiecesFree | exp_management/params.py:112 | no piece of `s.split(c)` contains the separator |
| PyStr.SplitJoin | exp_management/params.py:112 | joining the pieces of `s.split(c)` with `c` gives `s` back |
| PyStr.SplitCount | exp_management/params.py:112 | `s.split(c)` has one more piece than `s` has separators, so `low, high = ...` needs exactly one comma |
| PyStr.SplitAround | exp_management/params.py:117 | text with exactly one separator splits into the text before it and the text after it |
| PyStr.SplitHead | exp_management/experiment_manager.py:101 | the first piece is the text before the first separator |
| PyStr.Digits | exp_management/experiment_manager.py:109-110 | the decimal digits of a natural number denote it and have no leading zero |
| PyStr.FormatZeroPadded | exp_management/experiment_manager.py:109-110 | `"{:0N}".format(n)` is exactly N characters when the digits and sign fit, and otherwise exactly the digits and sign: padding never adds more and never cuts |
| PyStr.FormatZeroPaddedExamples | exp_management/experiment_manager.py:109-110 | with the default width 4, run 1 is written "0001" and -7 is "-007" |
| PyStr.FormatZeroPaddedNeverCuts | exp_management/experiment_manager.py:109-110 | with the default width 4, run 10000 keeps all five digits: "10000" |
| PyStr.FormatZeroPaddedChars | exp_management/experiment_manager.py:109-110 | the formatted id is digits, after a minus sign for a negative id |
| PyStr.LeadingZerosValue | exp_management/experiment_manager.py:102 | leading zeros do not change the value `int()` reads |
| PyStr.ParseBody | exp_management/params.py:118 | `int()` reads a digit body as its value, and with a leading '-' as its negation |
| PyStr.ParseFormatRoundTrip | exp_management/experiment_manager.py:109-110 | `int("{:0N}".format(n)) == n` for every int and every width |
| PyStr.RFind | exp_management/experiment_manager.py:116 | the index of the last occurrence of a character, or -1 when there is none |
| PyStr.SplitExtRootDropsExtension | exp_management/experiment_manager.py:116 | `os.path.splitext("stem.ext")[0] == "stem"` for a single extension |
| PyStr.SplitExtRootNoDot | exp_management/experiment_manager.py:116 | a name without a dot is its own root |
| Params.RIntFrom | exp_management/params.py:115-119 | an "!rint" directive compiles exactly when its argument text has two comma-separated pieces that `int()` accepts, and then to those bounds |
| Params.CompileDirective | exp_management/params.py:108-124 | a directive never compiles to a constant; it is reported as unknown exactly when no special prefix matches; a "!uni" directive compiles exactly when its argument text splits on commas into two pieces, and a uniform sampler comes only from "!uni" and carries exactly those two pieces; a "!eval" directive always compiles to an eval sampler over its argument text |
| Params.MakeFunctionCases | exp_management/params.py:106-129 | a literal compiles to a constant returning it; only a directive can fail, and it fails as unknown exactly when no special prefix matches |
| Params.DirectiveTextParts | exp_management/params.py:111 | `verb(args)` starts with the verb, and slicing off `verb(` and the last character yields `args` |
| Params.EvalDirectiveCompiles | exp_management/params.py:120-122 | "!eval(code)" always compiles, to an eval sampler over exactly `code` |
| Params.TwoArgumentsOf | exp_management/params.py:116-117 | two comma-free texts around one comma unpack into exactly those two arguments |
| Params.CompilesAsRInt | exp_management/params.py:108-119 | a string starting with "!rint" reaches the "!rint" branch |
| Params.RIntFromParsed | exp_management/params.py:117-119 | two arguments that `int()` accepts give a randint sampler over them |
| Params.IntTextHasNoComma | exp_management/params.py:117 | `str(n)` holds no comma |
| Params.RIntArgumentsOf | exp_management/params.py:116-117 | "!rint(str(a),str(b))" unpacks into `str(a)` and `str(b)` |
| Params.RIntDirectiveRoundTrip | exp_management/params.py:115-119 | "!rint(str(a),str(b))" compiles to a randint sampler over exactly `a` and `b` |
| Params.UniDirectiveArguments | exp_management/params.py:110-114 | "!uni(a,b)" with comma-free arguments compiles to a uniform sampler over those two texts |
| Params.TruncatedArguments | exp_management/params.py:116-117 | "!rint(1,23" unpacks into "1" and "2" |
| Params.UncheckedClosingParenthesis | exp_management/params.py:116 | "!rint(1,23" compiles to randint(1, 2): the closing parenthesis is never checked |
| Params.OneArgumentForTwo | exp_management/params.py:111-112 | "!uni(1)" fails because one piece cannot be unpacked into two |
| Params.UnknownVerb | exp_management/params.py:123-124 | "!foo(1,2)" fails as a directive it does not know |
| Params.Draw | exp_management/params.py:114-129 | calling a sampler gives the literal; or, for a uniform sampler, a float or an OverflowError (UniRaised); or an int in `[low, high)` (BadRange unless `low < high` and both fit numpy's int64); or eval's value (or EvalRaised) |
| Params.LiteralAlwaysReturned | exp_management/params.py:126-129 | every call of a literal's sampler returns exactly that literal |
| Params.RIntDrawsInRange | exp_management/params.py:119 | every value an "!rint(a,b)" parameter yields is an int in `[a, b)` |
| Params.NamesMeaning | exp_management/params.py:59 | a name is among the names of a list of pairs exactly when some pair carries it |
| Params.Parameters.constructor | exp_management/params.py:33-38 | the new set is empty, valid and compiled, and reserves `dir(self)` |
| Params.CompiledAfterAssign | exp_management/params.py:80-84 | assigning one raw specification keeps every sampler equal to what its specification compiles to: the name gets the compiled sampler, or is marked failed when compiling raises |
| Params.Parameters.AddParam | exp_management/params.py:75-84 | a reserved name raises and changes nothing; otherwise the name is added, its raw specification is recorded, its last sample is set to None if it had none, and its sampler is replaced by the compiled one or the compile error is raised with the old sampler kept; both invariants are preserved |
| Params.Parameters.AddAll | exp_management/params.py:39-40 | adding the initial values succeeds exactly when no name is reserved and every value compiles; then the names are the old ones plus the initial ones, every initial name holds its raw value and its compiled sampler, and exactly the initial names that had no last sample get None; whatever happens, the specifications, samplers and last samples of names outside the initial values are unchanged |
| Params.Parameters.Dict | exp_management/params.py:55-56 | `dict()` has exactly the parameter names, and each non-failed specification recompiles to the sampler in use |
| Params.Parameters.GetAndSave | exp_management/params.py:70-73 | calls the name's sampler (KeyError when it has none) and records the produced value as its last sample |
| Params.Parameters.GetItem | exp_management/params.py:94-99 | `p[key]` raises for an unknown name; otherwise it samples and records like `_get_and_save` |
| Params.Parameters.Get | exp_management/params.py:101-104 | `get` returns the default without sampling for an unknown name, and samples as `p[key]` otherwise |
| Params.Parameters.Items | exp_management/params.py:58-59 | `items()` goes through every name once, in some iteration order. On success each pair's value is a possible outcome of its sampler and is recorded as the last sample. On an exception, the name that raised is one whose sampler can raise that error (or has no sampler); the names before it are sampled and recorded; every other name keeps its previous last sample |
| Params.SampleInOrder | exp_management/params.py:59 | the list comprehension samples the names in the given order and records each sample, leaving names outside the order untouched; on an exception the earlier names are recorded, the raising name's sampler can raise that error, and all later names are untouched |
| Params.LiteralsNeverRaise | exp_management/params.py:126-129 | no name whose sampler returns a literal can be the one that raises, so `items()` over literals always succeeds |
| Params.NamesInOrder | exp_management/params.py:59 | pairs built name by name from a list have exactly that list's names |
| Params.Enumerate | exp_management/params.py:59 | iterating a set visits each element exactly once |
| ExperimentManager.ScanKeepsFirstError | exp_management/experiment_manager.py:98-102 | once a file's prefix fails `int()`, the scan raises that error whatever follows |
| ExperimentManager.ScanMeaning | exp_management/experiment_manager.py:96-102 | the scan succeeds exactly when no counted file lacks an integer prefix; it then collects exactly the numbered files' ids, and otherwise names the first unnumbered file |
| ExperimentManager.Max | exp_management/experiment_manager.py:103-104 | `max(ids)` is one of the ids and bounds all of them |
| ExperimentManager.CurrentIdOfEntries | exp_management/experiment_manager.py:95-106 | the current id bounds every numbered file's id and equals one of them, or is 0 when none is numbered; the error names the first unnumbered file |
| ExperimentManager.CurrentIdMeaning | exp_management/experiment_manager.py:95-106 | the same in terms of the file names: succeeds exactly when every counted file has an integer prefix; bounds and equals one such prefix; 0 when every file is ignored; the error names an unparsable counted file |
| ExperimentManager.CurrentId | exp_management/experiment_manager.py:95-106 | the loop of `_get_current_id` computes exactly `CurrentIdOf` |
| ExperimentManager.SaveNameReadsBack | exp_management/experiment_manager.py:108-111 | the saved name's prefix reads back as the id it was saved under, and the name is ignored exactly when the caller's file name is |
| ExperimentManager.AllocatedNameIsNew | exp_management/experiment_manager.py:90-92 | the allocated id is no counted file's id, so the returned name is not already in the directory unless the caller's file name contains ".DS" |
| ExperimentManager.SavedFileIsNextCurrent | exp_management/experiment_manager.py:90-92 | once the returned name is saved, the next scan returns the allocated id, so ids increase run by run; for a name containing ".DS" the same id, and so the same name, comes again |
| ExperimentManager.AddMetadataColumns | exp_management/experiment_manager.py:114-120 | the row holds every parameter unchanged, plus the name without its extension and the creation time where no parameter already has those names |
| ExperimentManager.Flatten | exp_management/experiment_manager.py:123-132 | the flattened parameters equal the parameters |
| ExperimentManager.LogRowColumns | exp_management/experiment_manager.py:134-135 | the logged row holds every parameter and the run id, unless a parameter named "id" replaces the run id |
| ExperimentManager.PathJoinParts | exp_management/experiment_manager.py:112 | the joined path ends in the file name and, for a relative file name, starts with the directory |
| ExperimentManager.ExpManager.constructor | exp_management/experiment_manager.py:10-56 | a new manager holds no batched log, and its width is `fsize` (4 unless given) |
| ExperimentManager.ExpManager.LogExperiment | exp_management/experiment_manager.py:122-151 | appends the run's row to the existing log (or to an empty one) and writes it to the file, or keeps it in memory when batching; with a batch already held it raises AttributeError and changes nothing |
| ExperimentManager.ExpManager.GetSavepath | exp_management/experiment_manager.py:79-92 | a listing with an unparsable counted file raises and changes nothing; otherwise the run is logged under current id + 1 with the metadata and the parameter values, and the result path carries that id zero-padded to `fsize` |
| ExperimentManager.ExpManager.WriteLogs | exp_management/experiment_manager.py:153-155 | the file receives the batched log when there is one, and is left alone otherwise |
| ExperimentManager.JsonSuffixMeaning | exp_management/experiment_manager.py:168-170 | the saved name always ends in ".json", equals the given name exactly when that already does, gets ".json" appended otherwise, and a second application changes nothing |

## Left out

- Params.MakeFunction: `float()` on the "!uni" arguments is not modelled. The arguments are kept
  as text, so a "!uni" directive whose texts are not floats compiles here, while the code raises
  ValueError while compiling.
- Params.UniDirectiveArguments: for the same reason it states that "!uni(a,b)" compiles for any
  comma-free texts. The code compiles it only when `float()` accepts both texts.
- Params.Draw: a uniform draw is any float or an OverflowError (`UniRaised`), as
  `np.random.uniform` raises for a non-finite range such as "!uni(0,inf)". The float's range
  `[low, high)` and the exact inputs that raise are not stated, because float parsing and
  floating point are not modelled.
- Params.Draw: `eval` of "!eval" code is a free choice between a value and an exception. The
  expression itself is not interpreted.
- `__getattr__`, `__setattr__` and `__dir__` are not modelled separately. They are Python
  reflection: `p.name` and `p.name = v` behave as `GetItem` and `AddParam`. For a name that is
  not a parameter, `__getattr__` calls `super().__getattr__`, which `object` does not define, so
  that call itself raises AttributeError.
- Reserved names are `dir(self)` as CPython 3.11 and 3.12 report it. Other interpreter versions
  may list more or fewer names.
- Params.Parameters.Items: the set's iteration order is left as any order. Python's string
  hashing makes it vary from run to run.
- `int()` is modelled for ASCII text only. Unicode digits and non-ASCII whitespace are not
  accepted.
- `os.path` is taken to be POSIX (`posixpath`). `SplitExtRoot` and `PathJoin` do not model
  Windows `ntpath`, with its backslash separators and drive letters.
- ExperimentManager.ExpManager.GetSavepath: the listing of the results directory and the
  formatted current time (`datetime.now().strftime(...)`) are parameters, not read from the
  system. The "parameters missing" warning print is left out.
- ExperimentManager.ExpManager.LogExperiment: a pandas DataFrame is modelled as a list of rows.
  - Column order and the union of columns are not modelled.
  - Missing cells are not modelled.
  - Reading back the csv file is taken to return the rows written. Type conversions by
    `read_csv` are ignored.
  - `DataFrame.append` is taken to exist (pandas before 2.0).
- The log file's path and the directory layout built by `__init__` are not modelled. Neither
  are the directories `__init__` creates, the environment variable `HOME`, or the
  `ConfigLoader` objects it builds.
- `fsize` is a natural number. A negative width is a formatting error in Python, and it is not
  modelled.
- `ConfigLoader.reload` and `ConfigLoader.__init__` are left out. `reload` calls `params.load`,
  which exists only inside a string literal in `params.py`. So `reload` raises AttributeError on
  the first file of a non-empty configuration directory. Of `ConfigLoader.write`, only the
  file-name rule is modelled; `config.save` is left out.
- ExperimentManager.ExpManager.constructor: it always succeeds. `__init__` raises AttributeError
  whenever a global or project configuration directory holds a file, because it builds
  `ConfigLoader` objects whose `reload` calls the missing `params.load`.
- `Parameters.save` and `load` are commented out in the source and are not modelled.
- Concurrency: two processes allocating ids in the same directory are not modelled.
- `setup.py` is packaging and is not part of this model.
