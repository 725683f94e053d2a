/** The run registry of exp_management/experiment_manager.py: every saved result gets the next
    free run number as a zero-padded file-name prefix, and each run's parameters are appended as
    one row to the experiment's log. */
module ExperimentManager {
  import opened Wrappers
  import opened Values
  import opened PyStr
  import Params

  /** One row of the experiment log: a cell per column name. */
  type Row = map<string, Value>

  /** The exceptions the manager raises. */
  datatype ManagerError =
    | NonIntegerPrefix(filename: string)  // int(id_str) refusing a file name's prefix
    | MissingAttribute(name: string)      // AttributeError on reading an attribute never set

  // ---------------------------------------------------------------------------------------
  // Run numbers

  /** `any(i in f for i in [".DS"])`: file names that do not take part in numbering. */
  predicate Ignored(f: string) {
    Contains(f, ".DS")
  }

  /** `f.split("_")[0]`: the text before the first underscore. */
  function IdPrefix(f: string): string {
    Split(f, '_')[0]
  }

  /** `int(f.split("_")[0])`, or None where int() raises. */
  function PrefixId(f: string): Option<int> {
    ParseInt(IdPrefix(f))
  }

  /** How _get_current_id treats one file of the results directory. */
  datatype Entry =
    | Skipped          // ignored
    | Numbered(id: int) // counted, with an integer prefix
    | Unnumbered       // counted, but int() raises on its prefix

  function Classify(f: string): (e: Entry)
    ensures e.Skipped? <==> Ignored(f)
    ensures e.Unnumbered? <==> !Ignored(f) && PrefixId(f).None?
    ensures e.Numbered? ==> PrefixId(f) == Some(e.id)
  {
    if Ignored(f) then Skipped
    else match PrefixId(f)
      case None => Unnumbered
      case Some(id) => Numbered(id)
  }

  /** The entries of a directory listing, file by file. */
  function Entries(listing: seq<string>): (es: seq<Entry>)
    ensures |es| == |listing|
  {
    seq(|listing|, i requires 0 <= i < |listing| => Classify(listing[i]))
  }

  /** The ids collected from the files `names`, whose entries are `es`, in order; the first
      counted file whose prefix is not an integer stops the scan. */
  function Scan(names: seq<string>, es: seq<Entry>): Result<seq<int>, ManagerError>
    requires |names| == |es|
  {
    if |es| == 0 then Ok([])
    else
      var n := |es| - 1;
      match Scan(names[..n], es[..n])
      case Err(e) => Err(e)
      case Ok(ids) =>
        match es[n]
        case Skipped => Ok(ids)
        case Unnumbered => Err(NonIntegerPrefix(names[n]))
        case Numbered(id) => Ok(ids + [id])
  }

  /** Once a prefix of the files fails, the whole scan fails with the same error. */
  lemma {:induction false} ScanKeepsFirstError(names: seq<string>, es: seq<Entry>, k: nat)
    requires |names| == |es| && k <= |es|
    requires Scan(names[..k], es[..k]).Err?
    ensures Scan(names, es) == Scan(names[..k], es[..k])
    decreases |es|
  {
    if k < |es| {
      var n := |es| - 1;
      assert names[..n][..k] == names[..k];
      assert es[..n][..k] == es[..k];
      ScanKeepsFirstError(names[..n], es[..n], k);
    } else {
      assert names[..k] == names && es[..k] == es;
    }
  }

  /** The scan of _get_current_id over a listing of the results directory. */
  function ScanIds(listing: seq<string>): Result<seq<int>, ManagerError> {
    Scan(listing, Entries(listing))
  }

  /** The scan succeeds exactly when no counted file lacks an integer prefix, collects exactly
      the ids of the numbered files, and otherwise reports the first unnumbered one. */
  lemma {:induction false} ScanMeaning(names: seq<string>, es: seq<Entry>)
    requires |names| == |es|
    ensures Scan(names, es).Ok? <==> forall i :: 0 <= i < |es| ==> !es[i].Unnumbered?
    ensures Scan(names, es).Ok? ==> forall x :: x in Scan(names, es).value <==>
      exists i :: 0 <= i < |es| && es[i] == Numbered(x)
    ensures Scan(names, es).Err? ==> exists i ::
      && 0 <= i < |es| && es[i].Unnumbered?
      && Scan(names, es).error == NonIntegerPrefix(names[i])
      && forall j :: 0 <= j < i ==> !es[j].Unnumbered?
  {
    if |es| > 0 {
      var n := |es| - 1;
      var front := es[..n];
      ScanMeaning(names[..n], front);
      assert forall i :: 0 <= i < n ==> front[i] == es[i];
      match Scan(names[..n], front)
      case Err(e) =>
        var i :| 0 <= i < n && front[i].Unnumbered? && e == NonIntegerPrefix(names[..n][i])
          && forall j :: 0 <= j < i ==> !front[j].Unnumbered?;
        assert es[i].Unnumbered? && names[..n][i] == names[i];
      case Ok(ids) =>
        match es[n]
        case Unnumbered =>
        case Skipped =>
          forall x ensures x in ids <==> exists i :: 0 <= i < |es| && es[i] == Numbered(x) {
            if exists i :: 0 <= i < |es| && es[i] == Numbered(x) {
              var i :| 0 <= i < |es| && es[i] == Numbered(x);
              assert front[i] == Numbered(x);
            }
          }
        case Numbered(id) =>
          forall x ensures x in ids + [id] <==> exists i :: 0 <= i < |es| && es[i] == Numbered(x) {
            if x in ids {
              var i :| 0 <= i < n && front[i] == Numbered(x);
              assert es[i] == Numbered(x);
            }
            if exists i :: 0 <= i < |es| && es[i] == Numbered(x) {
              var i :| 0 <= i < |es| && es[i] == Numbered(x);
              if i < n {
                assert front[i] == Numbered(x);
              }
            }
          }
    }
  }

  /** Python's max() over a non-empty list. */
  function Max(ids: seq<int>): (m: int)
    requires |ids| > 0
    ensures m in ids
    ensures forall i :: 0 <= i < |ids| ==> ids[i] <= m
  {
    if |ids| == 1 then ids[0]
    else
      var rest := Max(ids[..|ids| - 1]);
      assert rest in ids[..|ids| - 1];
      if ids[|ids| - 1] > rest then ids[|ids| - 1] else rest
  }

  /** What _get_current_id returns for a listing of the results directory: the largest id, or 0
      when no file is counted. */
  function CurrentIdOf(listing: seq<string>): Result<int, ManagerError> {
    match ScanIds(listing)
    case Err(e) => Err(e)
    case Ok(ids) => Ok(if |ids| > 0 then Max(ids) else 0)
  }

  /** The current id bounds every numbered file's id and is one of them, or is 0 when no file
      is numbered; it exists exactly when no counted file lacks an integer prefix, and otherwise
      the error names the first such file. */
  lemma {:induction false} CurrentIdOfEntries(listing: seq<string>)
    ensures CurrentIdOf(listing).Ok? <==> forall i :: 0 <= i < |listing| ==> !Entries(listing)[i].Unnumbered?
    ensures CurrentIdOf(listing).Ok? ==> forall i :: 0 <= i < |listing| && Entries(listing)[i].Numbered? ==>
      Entries(listing)[i].id <= CurrentIdOf(listing).value
    ensures CurrentIdOf(listing).Ok? && (exists i :: 0 <= i < |listing| && Entries(listing)[i].Numbered?) ==>
      exists i :: 0 <= i < |listing| && Entries(listing)[i] == Numbered(CurrentIdOf(listing).value)
    ensures CurrentIdOf(listing).Ok? && (forall i :: 0 <= i < |listing| ==> !Entries(listing)[i].Numbered?) ==>
      CurrentIdOf(listing).value == 0
    ensures CurrentIdOf(listing).Err? ==> exists i ::
      && 0 <= i < |listing| && Entries(listing)[i].Unnumbered?
      && CurrentIdOf(listing).error == NonIntegerPrefix(listing[i])
      && forall j :: 0 <= j < i ==> !Entries(listing)[j].Unnumbered?
  {
    var es := Entries(listing);
    ScanMeaning(listing, es);
    if ScanIds(listing).Ok? {
      var ids := ScanIds(listing).value;
      forall i | 0 <= i < |listing| && es[i].Numbered?
        ensures es[i].id <= CurrentIdOf(listing).value
      {
        assert es[i] == Numbered(es[i].id);
        assert es[i].id in ids;
      }
      if exists i :: 0 <= i < |listing| && es[i].Numbered? {
        var i :| 0 <= i < |listing| && es[i].Numbered?;
        assert es[i] == Numbered(es[i].id);
        assert es[i].id in ids;
        assert Max(ids) in ids;
      }
    }
  }

  /** The same, for the files themselves: a file is counted when it is not ignored, and the
      current id is the largest integer prefix among the counted files, or 0. */
  lemma {:induction false} CurrentIdMeaning(listing: seq<string>)
    ensures CurrentIdOf(listing).Ok? <==>
      forall i :: 0 <= i < |listing| && !Ignored(listing[i]) ==> PrefixId(listing[i]).Some?
    ensures CurrentIdOf(listing).Ok? ==> forall i :: 0 <= i < |listing| && !Ignored(listing[i]) ==>
      PrefixId(listing[i]).value <= CurrentIdOf(listing).value
    ensures CurrentIdOf(listing).Ok? && (exists i :: 0 <= i < |listing| && !Ignored(listing[i])) ==>
      exists i :: 0 <= i < |listing| && !Ignored(listing[i]) && PrefixId(listing[i]) == Some(CurrentIdOf(listing).value)
    ensures (forall i :: 0 <= i < |listing| ==> Ignored(listing[i])) ==> CurrentIdOf(listing) == Ok(0)
    ensures CurrentIdOf(listing).Err? ==> exists i ::
      && 0 <= i < |listing| && !Ignored(listing[i]) && PrefixId(listing[i]).None?
      && CurrentIdOf(listing).error == NonIntegerPrefix(listing[i])
  {
    CurrentIdOfEntries(listing);
    var es := Entries(listing);
    assert forall i :: 0 <= i < |listing| ==> es[i] == Classify(listing[i]);
  }

  /** `"{}_{}".format("{:0<width>}".format(id), filename)`: the saved file's name. */
  function SaveName(width: nat, id: int, filename: string): string {
    FormatZeroPadded(id, width) + "_" + filename
  }

  /** A saved file reads back as the id it was saved under, and it is ignored by the scan exactly
      when the caller's file name is. */
  lemma {:induction false} SaveNameReadsBack(width: nat, id: int, filename: string)
    ensures PrefixId(SaveName(width, id, filename)) == Some(id)
    ensures Ignored(SaveName(width, id, filename)) <==> Ignored(filename)
  {
    var fmt := FormatZeroPadded(id, width);
    FormatZeroPaddedChars(id, width);
    assert '_' !in fmt by {
      forall i | 0 <= i < |fmt| ensures fmt[i] != '_' {
      }
    }
    assert SaveName(width, id, filename) == fmt + ['_'] + filename;
    SplitHead(fmt, filename, '_');
    ParseFormatRoundTrip(id, width);
    assert '.' !in fmt + "_" by {
      forall i | 0 <= i < |fmt + "_"| ensures (fmt + "_")[i] != '.' {
        if i < |fmt| {
          assert (fmt + "_")[i] == fmt[i];
        }
      }
    }
    ContainsOnlyAfter(fmt + "_", filename, ".DS");
    ContainsAfterPrefix(fmt + "_", filename, ".DS");
  }

  /** The id get_savepath allocates is no counted file's id, so the name it returns is not in
      the results directory unless the caller's own file name is ignored by the scan. */
  lemma {:induction false} AllocatedNameIsNew(listing: seq<string>, width: nat, filename: string)
    requires CurrentIdOf(listing).Ok?
    ensures forall i :: 0 <= i < |listing| && !Ignored(listing[i]) ==>
      PrefixId(listing[i]) != Some(CurrentIdOf(listing).value + 1)
    ensures !Ignored(filename) ==> SaveName(width, CurrentIdOf(listing).value + 1, filename) !in listing
  {
    CurrentIdMeaning(listing);
    SaveNameReadsBack(width, CurrentIdOf(listing).value + 1, filename);
  }

  /** A file added at the end of a listing adds its entry at the end. */
  lemma EntriesAppend(listing: seq<string>, f: string)
    ensures Entries(listing + [f]) == Entries(listing) + [Classify(f)]
  {
    assert forall i :: 0 <= i < |listing| ==> (listing + [f])[i] == listing[i];
  }

  /** One more entry: the scan so far, then that entry's effect. */
  lemma ScanAppend(names: seq<string>, es: seq<Entry>, name: string, e: Entry)
    requires |names| == |es|
    ensures Scan(names + [name], es + [e]) ==
      match Scan(names, es)
      case Err(err) => Err(err)
      case Ok(ids) =>
        match e
        case Skipped => Ok(ids)
        case Unnumbered => Err(NonIntegerPrefix(name))
        case Numbered(id) => Ok(ids + [id])
  {
    assert (names + [name])[..|names|] == names;
    assert (es + [e])[..|es|] == es;
  }

  /** An id larger than all others is the maximum. */
  lemma MaxAppendLarger(ids: seq<int>, x: int)
    requires forall i :: 0 <= i < |ids| ==> ids[i] < x
    ensures Max(ids + [x]) == x
  {
    var all := ids + [x];
    assert all[|ids|] == x;
    assert forall k :: 0 <= k < |ids| ==> all[k] == ids[k];
  }

  /** Once the returned name is saved, the next scan counts it and allocates the id after it,
      unless the caller's file name is ignored: then the same id, and the same name, comes again. */
  lemma {:induction false} SavedFileIsNextCurrent(listing: seq<string>, width: nat, filename: string, c: int)
    requires CurrentIdOf(listing) == Ok(c)
    ensures !Ignored(filename) ==> CurrentIdOf(listing + [SaveName(width, c + 1, filename)]) == Ok(c + 1)
    ensures Ignored(filename) ==> CurrentIdOf(listing + [SaveName(width, c + 1, filename)]) == Ok(c)
  {
    var saved := SaveName(width, c + 1, filename);
    SaveNameReadsBack(width, c + 1, filename);
    EntriesAppend(listing, saved);
    ScanAppend(listing, Entries(listing), saved, Classify(saved));
    var ids := ScanIds(listing).value;
    if !Ignored(filename) {
      assert Classify(saved) == Numbered(c + 1);
      MaxAppendLarger(ids, c + 1);
    }
  }

  /** The id _get_current_id returns, computed as its loop does. */
  method CurrentId(listing: seq<string>) returns (r: Result<int, ManagerError>)
    ensures r == CurrentIdOf(listing)
  {
    ghost var es := Entries(listing);
    var ids: seq<int> := [];
    var n := 0;
    while n < |listing|
      invariant 0 <= n <= |listing|
      invariant Scan(listing[..n], es[..n]) == Ok(ids)
    {
      var f := listing[n];
      assert listing[..n + 1][..n] == listing[..n];
      assert es[..n + 1][..n] == es[..n];
      assert es[n] == Classify(f);
      if !Ignored(f) {
        var idStr := Split(f, '_')[0];
        match ParseInt(idStr)
        case None =>
          ScanKeepsFirstError(listing, es, n + 1);
          return Err(NonIntegerPrefix(f));
        case Some(id) =>
          ids := ids + [id];
      }
      n := n + 1;
    }
    assert listing[..n] == listing && es[..n] == es;
    if |ids| > 0 {
      r := Ok(Max(ids));
    } else {
      r := Ok(0);
    }
  }

  // ---------------------------------------------------------------------------------------
  // Log rows

  /** _add_metadata: the run's name (the file name without its extension) and creation time,
      overridden by any parameter of the same name. */
  function AddMetadata(filename: string, timeCreated: string, params: map<string, Value>): Row {
    map["name" := StrV(SplitExtRoot(filename)), "time_created" := StrV(timeCreated)] + params
  }

  /** The metadata row holds every parameter unchanged, plus the name and the creation time
      where no parameter already has those names. */
  lemma AddMetadataColumns(filename: string, timeCreated: string, params: map<string, Value>)
    ensures AddMetadata(filename, timeCreated, params).Keys == params.Keys + {"name", "time_created"}
    ensures forall k :: k in params ==> AddMetadata(filename, timeCreated, params)[k] == params[k]
    ensures "name" !in params ==> AddMetadata(filename, timeCreated, params)["name"] == StrV(SplitExtRoot(filename))
    ensures "time_created" !in params ==> AddMetadata(filename, timeCreated, params)["time_created"] == StrV(timeCreated)
  {
  }

  /** The flattening loop of _log_experiment. It tests whether each KEY is a list or a dict; a
      dict key is never either, so every entry is copied unchanged. */
  method Flatten(params: map<string, Value>) returns (flat: map<string, Value>)
    ensures flat == params
  {
    flat := map[];
    var rest := params.Keys;
    while rest != {}
      invariant rest <= params.Keys
      invariant flat.Keys == params.Keys - rest
      invariant forall k :: k in flat ==> flat[k] == params[k]
      decreases |rest|
    {
      var k :| k in rest;
      flat := flat[k := params[k]];
      rest := rest - {k};
    }
  }

  /** The row _log_experiment appends: the run id, overridden by a parameter named "id". */
  function LogRow(id: int, params: map<string, Value>): Row {
    map["id" := IntV(id)] + params
  }

  /** The logged row holds every parameter unchanged and the run id, unless a parameter is
      itself named "id": that parameter's value then replaces the run id. */
  lemma LogRowColumns(id: int, params: map<string, Value>)
    ensures LogRow(id, params).Keys == params.Keys + {"id"}
    ensures forall k :: k in params ==> LogRow(id, params)[k] == params[k]
    ensures LogRow(id, params)["id"] == if "id" in params then params["id"] else IntV(id)
  {
  }

  /** The rows of the log file as pd.read_csv returns them, or an empty frame when there is no
      file. */
  function Existing(file: Option<seq<Row>>): seq<Row> {
    if file.Some? then file.value else []
  }

  /** What get_savepath is given as `exp_params`. */
  datatype ExpParams =
    | NoParams                              // None: only the metadata is logged
    | FromParameters(p: Params.Parameters)  // a parameter set: its last samples are logged
    | FromDict(values: map<string, Value>)  // any other mapping, logged as it is

  /** The parameter values get_savepath logs for `exp_params`. */
  function ParamValues(exp: ExpParams): map<string, Value>
    reads if exp.FromParameters? then {exp.p} else {}
  {
    match exp
    case NoParams => map[]
    case FromParameters(p) => p.lastSample
    case FromDict(values) => values
  }

  /** os.path.join for two parts. */
  function PathJoin(dir: string, name: string): string {
    if StartsWith(name, "/") then name
    else if dir == [] || EndsWith(dir, "/") then dir + name
    else dir + "/" + name
  }

  /** The joined path ends in the name and, for a relative name, starts with the directory. */
  lemma PathJoinParts(dir: string, name: string)
    ensures EndsWith(PathJoin(dir, name), name)
    ensures !StartsWith(name, "/") ==> StartsWith(PathJoin(dir, name), dir)
  {
  }

  // ---------------------------------------------------------------------------------------
  // The manager

  class ExpManager {
    /** The width run numbers are zero-padded to. */
    const fsize: nat
    /** The results directory of the experiment. */
    const results: string
    /** `log_df`: the log kept in memory while logging in batches, or None. */
    var logDf: Option<seq<Row>>
    /** The rows of the experiment's csv log file, or None while there is no such file. */
    var logFile: Option<seq<Row>>

    /** The fields __init__ sets that the registry uses, with `fsize` defaulting to 4; the
        directories it creates and the configuration loaders it builds are not part of this
        model. */
    constructor(results: string, logFile: Option<seq<Row>>, fsize: nat := 4)
      ensures this.fsize == fsize && this.results == results
      ensures this.logFile == logFile && logDf == None
    {
      this.fsize := fsize;
      this.results := results;
      this.logFile := logFile;
      logDf := None;
    }

    /** _get_savepath: the run's file name, in the results directory. */
    function Savepath(id: int, filename: string): string {
      PathJoin(results, SaveName(fsize, id, filename))
    }

    /** _log_experiment: appends the run's row to the log and either keeps the log in memory
        (batch logging) or writes it to the file. A log already kept in memory is read from
        `self.df`, which is never set, so every call after a batched one raises. */
    method LogExperiment(id: int, params: map<string, Value>, batch: bool) returns (err: Option<ManagerError>)
      modifies this
      ensures old(logDf).Some? ==> err == Some(MissingAttribute("df")) && unchanged(this)
      ensures old(logDf).None? ==> (
        var logs := Existing(old(logFile)) + [LogRow(id, params)];
        && err.None?
        && if batch then logDf == Some(logs) && logFile == old(logFile)
           else logFile == Some(logs) && logDf == None)
    {
      var flat := Flatten(params);
      var row := map["id" := IntV(id)] + flat;
      if logDf.Some? {
        return Some(MissingAttribute("df"));
      }
      var logs := Existing(logFile) + [row];
      if batch {
        logDf := Some(logs);
      } else {
        logFile := Some(logs);
      }
      err := None;
    }

    /** get_savepath: allocates the next run id from the listing of the results directory, logs
        the run and returns the path to save the result under. `timeCreated` is the formatted
        current time. */
    method GetSavepath(filename: string, listing: seq<string>, timeCreated: string,
                       exp: ExpParams := NoParams, batch: bool := false)
      returns (r: Result<string, ManagerError>)
      modifies this
      ensures match CurrentIdOf(listing)
        case Err(e) => r == Err(e) && unchanged(this)
        case Ok(c) =>
          if old(logDf).Some? then r == Err(MissingAttribute("df")) && unchanged(this)
          else
            var logs := Existing(old(logFile)) + [LogRow(c + 1, AddMetadata(filename, timeCreated, old(ParamValues(exp))))];
            && r == Ok(Savepath(c + 1, filename))
            && if batch then logDf == Some(logs) && logFile == old(logFile)
               else logFile == Some(logs) && logDf == None
    {
      var values := ParamValues(exp);
      var withMetadata := AddMetadata(filename, timeCreated, values);
      var current := CurrentId(listing);
      if current.Err? {
        return Err(current.error);
      }
      var id := current.value + 1;
      var err := LogExperiment(id, withMetadata, batch);
      if err.Some? {
        return Err(err.value);
      }
      r := Ok(Savepath(id, filename));
    }

    /** write_logs: writes the log kept in memory, if any, to the log file. */
    method WriteLogs()
      modifies this`logFile
      ensures logFile == if logDf.Some? then logDf else old(logFile)
    {
      if logDf.Some? {
        logFile := logDf;
      }
    }
  }

  // ---------------------------------------------------------------------------------------
  // Configuration file names

  /** `name[-len(".json"):]`: the last five characters, or all of a shorter name. */
  function JsonTail(name: string): string {
    if |name| >= |".json"| then name[|name| - |".json"|..] else name
  }

  /** The file name ConfigLoader.write saves `name` under. */
  function WithJsonSuffix(name: string): string {
    if JsonTail(name) != ".json" then name + ".json" else name
  }

  /** The saved name always ends in ".json", equals the given one exactly when that already ends
      in ".json", and a second application changes nothing. */
  lemma {:induction false} JsonSuffixMeaning(name: string)
    ensures EndsWith(WithJsonSuffix(name), ".json")
    ensures WithJsonSuffix(name) == name <==> EndsWith(name, ".json")
    ensures WithJsonSuffix(name) != name ==> WithJsonSuffix(name) == name + ".json"
    ensures WithJsonSuffix(WithJsonSuffix(name)) == WithJsonSuffix(name)
  {
    var r := name + ".json";
    assert r[|r| - 5..] == ".json";
    if |name| < 5 {
      assert !EndsWith(name, ".json");
    }
  }
}
