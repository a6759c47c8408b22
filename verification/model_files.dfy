/**
 * The model files of the agent and the plan that copies them from the
 * Downloads folder into the app's private files directory. A directory is
 * a map from file name to length in bytes; file contents are not modelled.
 */
module ModelFiles {

  type Dir = map<string, nat>

  /** `modelFiles`, in the order the copy loop visits them. */
  const ModelFileNames: seq<string> := ["phi3.onnx", "phi3.onnx.data", "tokenizer.json"]

  /** `names.all { it exists in dir }`. */
  function AllPresent(names: seq<string>, dir: Dir): (b: bool)
    ensures b <==> forall i :: 0 <= i < |names| ==> names[i] in dir
  {
    names == [] || (names[0] in dir && AllPresent(names[1..], dir))
  }

  /** `areModelsCopied`: all three model files exist in the private files directory. */
  function AreModelsCopied(files: Dir): (b: bool)
    ensures b <==> "phi3.onnx" in files && "phi3.onnx.data" in files && "tokenizer.json" in files
  {
    assert ModelFileNames[0] == "phi3.onnx" && ModelFileNames[1] == "phi3.onnx.data" && ModelFileNames[2] == "tokenizer.json";
    AllPresent(ModelFileNames, files)
  }

  /**
   * The first loop of `copyModelFilesIfNeeded`: looks for a model file that
   * is missing from Downloads and stops at the first one.
   */
  method AnySourceMissing(downloads: Dir) returns (anyMissing: bool)
    ensures anyMissing <==> !AllPresent(ModelFileNames, downloads)
  {
    anyMissing := false;
    var i := 0;
    while i < |ModelFileNames|
      invariant 0 <= i <= |ModelFileNames|
      invariant !anyMissing
      invariant forall j :: 0 <= j < i ==> ModelFileNames[j] in downloads
    {
      if ModelFileNames[i] !in downloads {
        anyMissing := true;
        break;
      }
      i := i + 1;
    }
  }

  /** `!dst.exists() || dst.length() != src.length()`. */
  predicate NeedsCopy(files: Dir, downloads: Dir, name: string)
    requires name in downloads
  {
    name !in files || files[name] != downloads[name]
  }

  /** The files after a copy run, the destinations it opened for writing, and whether it finished without an exception. */
  datatype CopyOutcome = CopyOutcome(files: Dir, written: seq<string>, ok: bool)

  /**
   * The second loop of `copyModelFilesIfNeeded`: every destination that is
   * missing or has another length than its source is rewritten with the
   * source's length, in order. `failing` names the copies that throw and the
   * length each leaves its destination with; the first one ends the run.
   */
  function CopyAll(names: seq<string>, files: Dir, downloads: Dir, failing: Dir): CopyOutcome
    requires AllPresent(names, downloads)
    decreases |names|
  {
    if names == [] then CopyOutcome(files, [], true)
    else
      var name := names[0];
      if !NeedsCopy(files, downloads, name) then CopyAll(names[1..], files, downloads, failing)
      else if name in failing then CopyOutcome(files[name := failing[name]], [name], false)
      else
        var rest := CopyAll(names[1..], files[name := downloads[name]], downloads, failing);
        CopyOutcome(rest.files, [name] + rest.written, rest.ok)
  }

  /** One step of `CopyAll` from position `i`: the visit of `names[i]`, then the rest of the run from `i + 1`. */
  lemma CopyAllStep(names: seq<string>, i: nat, files: Dir, downloads: Dir, failing: Dir)
    requires i < |names| && AllPresent(names[i..], downloads)
    ensures names[i] in downloads && AllPresent(names[i + 1..], downloads)
    ensures !NeedsCopy(files, downloads, names[i]) ==>
      CopyAll(names[i..], files, downloads, failing) == CopyAll(names[i + 1..], files, downloads, failing)
    ensures NeedsCopy(files, downloads, names[i]) && names[i] in failing ==>
      CopyAll(names[i..], files, downloads, failing) == CopyOutcome(files[names[i] := failing[names[i]]], [names[i]], false)
    ensures NeedsCopy(files, downloads, names[i]) && names[i] !in failing ==>
      var rest := CopyAll(names[i + 1..], files[names[i] := downloads[names[i]]], downloads, failing);
      CopyAll(names[i..], files, downloads, failing) == CopyOutcome(rest.files, [names[i]] + rest.written, rest.ok)
  {
    assert names[i..][0] == names[i] && names[i..][1..] == names[i + 1..];
  }

  predicate Distinct(names: seq<string>) {
    forall i, j :: 0 <= i < j < |names| ==> names[i] != names[j]
  }

  /** When no copy throws, the run finishes without an exception. */
  lemma {:induction false} CopyAllSucceeds(names: seq<string>, files: Dir, downloads: Dir, failing: Dir)
    requires AllPresent(names, downloads)
    requires forall i :: 0 <= i < |names| ==> names[i] !in failing
    ensures CopyAll(names, files, downloads, failing).ok
    decreases |names|
  {
    if names != [] {
      var name := names[0];
      var next := if NeedsCopy(files, downloads, name) then files[name := downloads[name]] else files;
      CopyAllSucceeds(names[1..], next, downloads, failing);
    }
  }

  /**
   * A destination is opened for writing only when it was missing or its
   * length differed from its source's; on success, every such destination
   * is rewritten.
   */
  lemma {:induction false} CopyWritesOnlyStale(names: seq<string>, files: Dir, downloads: Dir, failing: Dir)
    requires AllPresent(names, downloads) && Distinct(names)
    ensures forall w :: w in CopyAll(names, files, downloads, failing).written ==>
      w in names && NeedsCopy(files, downloads, w)
    ensures CopyAll(names, files, downloads, failing).ok ==>
      forall i :: 0 <= i < |names| && NeedsCopy(files, downloads, names[i]) ==>
        names[i] in CopyAll(names, files, downloads, failing).written
    decreases |names|
  {
    if names != [] {
      var name := names[0];
      var next := if NeedsCopy(files, downloads, name) then files[name := downloads[name]] else files;
      CopyWritesOnlyStale(names[1..], next, downloads, failing);
      assert forall k :: k in names[1..] ==> k in names && k != name;
      forall k | k in names[1..] ensures (k in next <==> k in files) && (k in files ==> next[k] == files[k]) { }
    }
  }

  /** Running the copy again after a successful run writes nothing and changes nothing, whatever would throw. */
  lemma {:induction false} CopyRerunIsIdle(names: seq<string>, files: Dir, downloads: Dir, failing: Dir, failing': Dir)
    requires AllPresent(names, downloads) && Distinct(names)
    requires CopyAll(names, files, downloads, failing).ok
    ensures CopyAll(names, CopyAll(names, files, downloads, failing).files, downloads, failing')
            == CopyOutcome(CopyAll(names, files, downloads, failing).files, [], true)
  {
    var after := CopyAll(names, files, downloads, failing).files;
    CopyLeavesSourceLengths(names, files, downloads, failing);
    AlreadyCopiedIsIdle(names, after, downloads, failing');
  }

  /** A successful run leaves every model file with its source's length. */
  lemma {:induction false} CopyLeavesSourceLengths(names: seq<string>, files: Dir, downloads: Dir, failing: Dir)
    requires AllPresent(names, downloads) && Distinct(names)
    requires CopyAll(names, files, downloads, failing).ok
    ensures forall i :: 0 <= i < |names| ==>
      names[i] in CopyAll(names, files, downloads, failing).files
      && CopyAll(names, files, downloads, failing).files[names[i]] == downloads[names[i]]
    decreases |names|
  {
    if names != [] {
      var name := names[0];
      var next := if NeedsCopy(files, downloads, name) then files[name := downloads[name]] else files;
      CopyLeavesSourceLengths(names[1..], next, downloads, failing);
      CopyKeepsOthers(names[1..], next, downloads, failing, name);
    }
  }

  /** A run touches only the files it is asked to copy. */
  lemma {:induction false} CopyKeepsOthers(names: seq<string>, files: Dir, downloads: Dir, failing: Dir, k: string)
    requires AllPresent(names, downloads) && k !in names
    ensures (k in CopyAll(names, files, downloads, failing).files <==> k in files)
    ensures k in files ==> CopyAll(names, files, downloads, failing).files[k] == files[k]
    decreases |names|
  {
    if names != [] {
      var name := names[0];
      var next := if NeedsCopy(files, downloads, name) then files[name := downloads[name]] else files;
      assert k !in names[1..];
      if NeedsCopy(files, downloads, name) && name in failing {
      } else {
        CopyKeepsOthers(names[1..], next, downloads, failing, k);
      }
    }
  }

  /** When every destination already has its source's length, a run writes nothing. */
  lemma {:induction false} AlreadyCopiedIsIdle(names: seq<string>, files: Dir, downloads: Dir, failing: Dir)
    requires AllPresent(names, downloads)
    requires forall i :: 0 <= i < |names| ==> names[i] in files && files[names[i]] == downloads[names[i]]
    ensures CopyAll(names, files, downloads, failing) == CopyOutcome(files, [], true)
    decreases |names|
  {
    if names != [] {
      AlreadyCopiedIsIdle(names[1..], files, downloads, failing);
    }
  }

  /**
   * The `catch` half of the copy loop: a destination that is never opened
   * keeps its entry; a run that fails has opened only copies that do not
   * throw before the last one, which throws, leaves its destination with
   * the failed length and ends the run; a run that succeeds opened no
   * throwing copy.
   */
  lemma {:induction false} CopyStopsAtFirstFailure(names: seq<string>, files: Dir, downloads: Dir, failing: Dir)
    requires AllPresent(names, downloads)
    ensures var run := CopyAll(names, files, downloads, failing);
      forall k :: k !in run.written ==> (k in run.files <==> k in files) && (k in files ==> run.files[k] == files[k])
    ensures var run := CopyAll(names, files, downloads, failing);
      run.ok ==> forall w :: w in run.written ==> w !in failing
    ensures var run := CopyAll(names, files, downloads, failing);
      !run.ok ==>
        && run.written != []
        && run.written[|run.written| - 1] in failing
        && run.written[|run.written| - 1] in run.files
        && run.files[run.written[|run.written| - 1]] == failing[run.written[|run.written| - 1]]
        && forall i :: 0 <= i < |run.written| - 1 ==> run.written[i] !in failing
    decreases |names|
  {
    if names != [] {
      var name := names[0];
      if !NeedsCopy(files, downloads, name) {
        CopyStopsAtFirstFailure(names[1..], files, downloads, failing);
      } else if name !in failing {
        var next := files[name := downloads[name]];
        CopyStopsAtFirstFailure(names[1..], next, downloads, failing);
        var rest := CopyAll(names[1..], next, downloads, failing);
        assert CopyAll(names, files, downloads, failing).written == [name] + rest.written;
        forall i | 0 < i < |rest.written| + 1 ensures ([name] + rest.written)[i] == rest.written[i - 1] { }
      }
    }
  }

  /**
   * The check `areModelsCopied` evidently stands for: every model file is
   * present in the private directory with its source's length, so nothing
   * is left to copy.
   */
  function ModelsComplete(files: Dir, downloads: Dir): (b: bool)
    ensures b ==> AreModelsCopied(files) && AllPresent(ModelFileNames, downloads)
  {
    forall i :: 0 <= i < |ModelFileNames| ==>
      ModelFileNames[i] in files && ModelFileNames[i] in downloads && files[ModelFileNames[i]] == downloads[ModelFileNames[i]]
  }

  /** The corrected check holds exactly when a copy run would open no destination and change nothing. */
  lemma CompleteIffNothingToCopy(files: Dir, downloads: Dir, failing: Dir)
    requires AllPresent(ModelFileNames, downloads)
    ensures ModelsComplete(files, downloads) <==> CopyAll(ModelFileNames, files, downloads, failing) == CopyOutcome(files, [], true)
  {
    assert Distinct(ModelFileNames);
    CopyWritesOnlyStale(ModelFileNames, files, downloads, failing);
    if ModelsComplete(files, downloads) {
      AlreadyCopiedIsIdle(ModelFileNames, files, downloads, failing);
    }
  }

  /** Under the corrected check, a run whose throwing copy left a length other than its source's is never taken for complete. */
  lemma FailedCopyIsIncomplete(files: Dir, downloads: Dir, failing: Dir)
    requires AllPresent(ModelFileNames, downloads)
    requires forall k :: k in failing && k in downloads ==> failing[k] != downloads[k]
    ensures !CopyAll(ModelFileNames, files, downloads, failing).ok ==>
      !ModelsComplete(CopyAll(ModelFileNames, files, downloads, failing).files, downloads)
  {
    var run := CopyAll(ModelFileNames, files, downloads, failing);
    assert Distinct(ModelFileNames);
    CopyStopsAtFirstFailure(ModelFileNames, files, downloads, failing);
    CopyWritesOnlyStale(ModelFileNames, files, downloads, failing);
    if !run.ok {
      var w := run.written[|run.written| - 1];
      assert w in run.written;
      assert w in ModelFileNames;
    }
  }

  /**
   * `areModelsCopied` as written checks only that the files exist. A copy
   * whose last file throws after `FileOutputStream` has created it leaves a
   * truncated file, and the check still reports the models as copied.
   */
  lemma FailedCopyLooksCopied()
    ensures var files: Dir := map["phi3.onnx" := 5, "phi3.onnx.data" := 5];
      var downloads: Dir := map["phi3.onnx" := 5, "phi3.onnx.data" := 5, "tokenizer.json" := 5];
      && AllPresent(ModelFileNames, downloads)
      && var run := CopyAll(ModelFileNames, files, downloads, map["tokenizer.json" := 2]);
      && !run.ok
      && AreModelsCopied(run.files)
      && !ModelsComplete(run.files, downloads)
  {
    var files: Dir := map["phi3.onnx" := 5, "phi3.onnx.data" := 5];
    var downloads: Dir := map["phi3.onnx" := 5, "phi3.onnx.data" := 5, "tokenizer.json" := 5];
    var failing: Dir := map["tokenizer.json" := 2];
    assert ModelFileNames[0] == "phi3.onnx" && ModelFileNames[1] == "phi3.onnx.data" && ModelFileNames[2] == "tokenizer.json";
    assert ModelFileNames[1..][1..] == ["tokenizer.json"];
    assert CopyAll(ModelFileNames, files, downloads, failing) == CopyAll(["tokenizer.json"], files, downloads, failing);
  }
}
