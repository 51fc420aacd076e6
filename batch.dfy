/**
 * generateAndSaveKeys, writeKeyToFile and run: the batch that generates
 * `count` keys and saves each one as static/<key>.txt.
 *
 * The output directory is a map from path to file contents. Whether each
 * file write succeeds is an input, indexed by the iteration that attempts it.
 */
module Batch {
  import opened Wrappers
  import opened Config
  import opened KeyGen
  import opened CountPrompt

  /** A directory tree, flattened: path to file contents. */
  type Directory = map<string, string>

  /** What os.Create and file.WriteString do for one write attempt. */
  datatype WriteOutcome =
    | Written                  // both calls succeed
    | CreateFailed             // os.Create fails: nothing is created
    | WriteFailed(written: nat) // the file is created, the write stops after `written` bytes

  datatype SaveError = CreateError | WriteError

  /** One entry of generateAndSaveKeys' error list; `key` is the 1-based key number. */
  datatype BatchError =
    | GenerateFailed(key: nat, keyError: KeyError)
    | FileExists(path: string)
    | SaveFailed(key: nat, saveError: SaveError)

  /** The summary error "<failed> out of <total> keys failed to generate". */
  datatype BatchFailure = BatchFailure(failed: nat, total: int)

  /** The result of writeKeyToFile: its error, and the directory afterwards. */
  datatype FileWrite = FileWrite(err: Option<SaveError>, dir: Directory)

  /**
   * The loop state of generateAndSaveKeys: the error list, the keys reported
   * as saved, the directory and what is left of the random source.
   */
  datatype Progress = Progress(errors: seq<BatchError>, saved: seq<string>, dir: Directory, rest: seq<Draw>)

  /** filepath.Join(outputDir, key + ".txt"); a key holds no separator or dot, so Join adds only "/". */
  function KeyPath(key: string): (p: string)
    ensures |p| == |OutputDir| + |key| + 5 && p[|OutputDir| + 1..|p| - 4] == key
  {
    OutputDir + "/" + key + ".txt"
  }

  /** The paths KeyPath produces. */
  predicate IsKeyPath(p: string)
  {
    |p| >= |OutputDir| + 5 && p[..|OutputDir| + 1] == OutputDir + "/" && p[|p| - 4..] == ".txt"
  }

  /** The key whose file is `p`. */
  function KeyOfPath(p: string): (key: string)
    requires IsKeyPath(p)
    ensures |key| == |p| - |OutputDir| - 5
  {
    p[|OutputDir| + 1..|p| - 4]
  }

  /** KeyPath and KeyOfPath are inverse to each other. */
  lemma KeyPathRoundTrip(key: string)
    ensures IsKeyPath(KeyPath(key)) && KeyOfPath(KeyPath(key)) == key
  {
    var p := KeyPath(key);
    assert p[..|OutputDir| + 1] == OutputDir + "/";
    assert p[|p| - 4..] == ".txt";
    assert p[|OutputDir| + 1..|p| - 4] == key;
  }

  lemma KeyOfPathRoundTrip(p: string)
    requires IsKeyPath(p)
    ensures KeyPath(KeyOfPath(p)) == p
  {
    var key := KeyOfPath(p);
    assert p == p[..|OutputDir| + 1] + key + p[|p| - 4..];
  }

  /** Different keys are saved under different paths. */
  lemma KeyPathInjective(a: string, b: string)
    ensures KeyPath(a) == KeyPath(b) ==> a == b
  {
    if KeyPath(a) == KeyPath(b) {
      KeyPathRoundTrip(a);
      KeyPathRoundTrip(b);
    }
  }

  /**
   * writeKeyToFile(path, key): os.Create makes an empty file (or fails and
   * changes nothing), then WriteString writes the key, perhaps only part of it.
   */
  function WriteKeyToFile(dir: Directory, path: string, key: string, outcome: WriteOutcome): (r: FileWrite)
    ensures r.err.None? <==> outcome.Written?
    ensures outcome.CreateFailed? ==> r.err == Some(CreateError) && r.dir == dir
    ensures outcome.WriteFailed? ==> r.err == Some(WriteError)
    ensures !outcome.CreateFailed? ==>
      && r.dir.Keys == dir.Keys + {path}
      && r.dir[path] <= key
      && (forall p :: p in dir && p != path ==> r.dir[p] == dir[p])
    ensures r.err.None? ==> r.dir[path] == key
  {
    match outcome
    case CreateFailed => FileWrite(Some(CreateError), dir)
    case Written => FileWrite(None, dir[path := key])
    case WriteFailed(n) => FileWrite(Some(WriteError), dir[path := key[..if n < |key| then n else |key|]])
  }

  /** The number of iterations of `for i := 0; i < count; i++`. */
  function Iterations(count: int): nat
  {
    if count > 0 then count else 0
  }

  /**
   * The body of generateAndSaveKeys' loop for iteration `i`, once
   * generateSecureKey has returned `g`: record its error, or skip a key whose
   * file exists, or write the file.
   */
  function Store(i: nat, st: Progress, g: KeyDraw, writes: nat -> WriteOutcome): (r: Progress)
    ensures r.rest == g.rest
    ensures |r.saved| + |r.errors| == |st.saved| + |st.errors| + 1
    ensures r.saved == st.saved || (g.err.None? && r.saved == st.saved + [g.key])
  {
    if g.err.Some? then
      Progress(st.errors + [GenerateFailed(i + 1, g.err.value)], st.saved, st.dir, g.rest)
    else
      var path := KeyPath(g.key);
      if path in st.dir then
        Progress(st.errors + [FileExists(path)], st.saved, st.dir, g.rest)
      else
        var w := WriteKeyToFile(st.dir, path, g.key, writes(i));
        if w.err.Some? then
          Progress(st.errors + [SaveFailed(i + 1, w.err.value)], st.saved, w.dir, g.rest)
        else
          Progress(st.errors, st.saved + [g.key], w.dir, g.rest)
  }

  /** The state after the first `n` iterations, starting from directory `dir` and random source `src`. */
  function SaveKeys(n: nat, src: seq<Draw>, writes: nat -> WriteOutcome, dir: Directory): (r: Progress)
    ensures |r.saved| + |r.errors| == n
  {
    if n == 0 then Progress([], [], dir, src)
    else
      var st := SaveKeys(n - 1, src, writes, dir);
      Store(n - 1, st, SecureKey(st.rest), writes)
  }

  /** A failed WriteString leaves the created file behind, holding part of the key. */
  predicate LeavesPartialFile(e: BatchError)
  {
    e.SaveFailed? && e.saveError == WriteError
  }

  /** The number of errors after which a partly written file stays behind. */
  function PartialFiles(errors: seq<BatchError>): (n: nat)
    ensures n <= |errors|
  {
    if errors == [] then 0
    else PartialFiles(errors[..|errors| - 1]) + (if LeavesPartialFile(errors[|errors| - 1]) then 1 else 0)
  }

  /** No file of `dir0` is removed or changed in `dir`. */
  predicate KeepsFiles(dir0: Directory, dir: Directory)
  {
    forall p :: p in dir0 ==> p in dir && dir[p] == dir0[p]
  }

  /** Each key of `saved` is valid, had no file in `dir0`, and its file in `dir` holds exactly the key. */
  predicate StoresKeys(dir0: Directory, saved: seq<string>, dir: Directory)
  {
    forall i :: 0 <= i < |saved| ==>
      && ValidKey(saved[i])
      && KeyPath(saved[i]) !in dir0
      && KeyPath(saved[i]) in dir
      && dir[KeyPath(saved[i])] == saved[i]
  }

  /** No key is saved twice. */
  predicate Distinct(saved: seq<string>)
  {
    forall i, j :: 0 <= i < j < |saved| ==> saved[i] != saved[j]
  }

  /** Each file of `dir` that `dir0` lacks belongs to a valid key and holds a prefix of it. */
  predicate NewFilesHoldKeys(dir0: Directory, dir: Directory)
  {
    forall p :: p in dir && p !in dir0 ==> IsKeyPath(p) && ValidKey(KeyOfPath(p)) && dir[p] <= KeyOfPath(p)
  }

  /** Unless a save failed, each file of `dir` that `dir0` lacks belongs to a key of `saved`. */
  predicate OnlySavedFiles(dir0: Directory, st: Progress)
  {
    (forall e :: e in st.errors ==> !e.SaveFailed?) ==>
      forall p :: p in st.dir && p !in dir0 ==> IsKeyPath(p) && KeyOfPath(p) in st.saved
  }

  /** One new file per saved key and per partly written file. */
  predicate CountsFiles(dir0: Directory, st: Progress)
  {
    |st.dir.Keys| == |dir0.Keys| + |st.saved| + PartialFiles(st.errors)
  }

  /** What the batch guarantees about the directory `dir0` it started from and its state `st`. */
  predicate Saves(dir0: Directory, st: Progress)
  {
    && KeepsFiles(dir0, st.dir)
    && StoresKeys(dir0, st.saved, st.dir)
    && Distinct(st.saved)
    && NewFilesHoldKeys(dir0, st.dir)
    && OnlySavedFiles(dir0, st)
    && CountsFiles(dir0, st)
  }

  /** A generator result that satisfies generateSecureKey's contract. */
  predicate Generated(g: KeyDraw)
  {
    g.err.None? ==> ValidKey(g.key)
  }

  lemma StoreKeepsFiles(dir0: Directory, i: nat, st: Progress, g: KeyDraw, writes: nat -> WriteOutcome)
    requires KeepsFiles(dir0, st.dir)
    ensures KeepsFiles(dir0, Store(i, st, g, writes).dir)
  {
  }

  lemma StoreStoresKeys(dir0: Directory, i: nat, st: Progress, g: KeyDraw, writes: nat -> WriteOutcome)
    requires Generated(g) && KeepsFiles(dir0, st.dir) && StoresKeys(dir0, st.saved, st.dir)
    ensures StoresKeys(dir0, Store(i, st, g, writes).saved, Store(i, st, g, writes).dir)
  {
    var st' := Store(i, st, g, writes);
    if g.err.None? && KeyPath(g.key) !in st.dir && !writes(i).CreateFailed? {
      forall k | 0 <= k < |st.saved|
        ensures KeyPath(st.saved[k]) != KeyPath(g.key)
      {
      }
    }
  }

  lemma StoreDistinct(dir0: Directory, i: nat, st: Progress, g: KeyDraw, writes: nat -> WriteOutcome)
    requires StoresKeys(dir0, st.saved, st.dir) && Distinct(st.saved)
    ensures Distinct(Store(i, st, g, writes).saved)
  {
    if g.err.None? && KeyPath(g.key) !in st.dir {
      forall k | 0 <= k < |st.saved|
        ensures st.saved[k] != g.key
      {
      }
    }
  }

  lemma StoreNewFiles(dir0: Directory, i: nat, st: Progress, g: KeyDraw, writes: nat -> WriteOutcome)
    requires Generated(g) && NewFilesHoldKeys(dir0, st.dir)
    ensures NewFilesHoldKeys(dir0, Store(i, st, g, writes).dir)
  {
    if g.err.None? {
      KeyPathRoundTrip(g.key);
    }
  }

  lemma StoreOnlySaved(dir0: Directory, i: nat, st: Progress, g: KeyDraw, writes: nat -> WriteOutcome)
    requires NewFilesHoldKeys(dir0, st.dir) && OnlySavedFiles(dir0, st)
    ensures OnlySavedFiles(dir0, Store(i, st, g, writes))
  {
    var st' := Store(i, st, g, writes);
    if g.err.None? && KeyPath(g.key) !in st.dir && writes(i).Written? {
      KeyPathRoundTrip(g.key);
      assert st'.saved == st.saved + [g.key];
      assert st'.errors == st.errors;
    } else if g.err.None? && KeyPath(g.key) !in st.dir && writes(i).WriteFailed? {
      assert st'.errors[|st'.errors| - 1].SaveFailed?;
    }
  }

  /** Appending an error adds one to PartialFiles exactly when it left a partly written file. */
  lemma PartialFilesAppend(errors: seq<BatchError>, e: BatchError)
    ensures PartialFiles(errors + [e]) == PartialFiles(errors) + (if LeavesPartialFile(e) then 1 else 0)
  {
    assert (errors + [e])[..|errors|] == errors;
  }

  lemma StoreCountsFiles(dir0: Directory, i: nat, st: Progress, g: KeyDraw, writes: nat -> WriteOutcome)
    requires CountsFiles(dir0, st)
    ensures CountsFiles(dir0, Store(i, st, g, writes))
  {
    if g.err.Some? {
      PartialFilesAppend(st.errors, GenerateFailed(i + 1, g.err.value));
    } else {
      var path := KeyPath(g.key);
      if path in st.dir {
        PartialFilesAppend(st.errors, FileExists(path));
      } else {
        var w := WriteKeyToFile(st.dir, path, g.key, writes(i));
        if w.err.Some? {
          PartialFilesAppend(st.errors, SaveFailed(i + 1, w.err.value));
        }
        if !writes(i).CreateFailed? {
          assert w.dir.Keys == st.dir.Keys + {path};
        }
      }
    }
  }

  /** One iteration keeps the batch's guarantees. */
  lemma StoreKeepsSaves(dir0: Directory, i: nat, st: Progress, g: KeyDraw, writes: nat -> WriteOutcome)
    requires Generated(g) && Saves(dir0, st)
    ensures Saves(dir0, Store(i, st, g, writes))
  {
    StoreKeepsFiles(dir0, i, st, g, writes);
    StoreStoresKeys(dir0, i, st, g, writes);
    StoreDistinct(dir0, i, st, g, writes);
    StoreNewFiles(dir0, i, st, g, writes);
    StoreOnlySaved(dir0, i, st, g, writes);
    StoreCountsFiles(dir0, i, st, g, writes);
  }

  /**
   * generateAndSaveKeys(count): generate `count` keys, skip those whose file
   * exists, write the others, and collect an error for each key not saved.
   * The result is the summary error when that list is not empty.
   */
  method GenerateAndSaveKeys(count: int, src: seq<Draw>, writes: nat -> WriteOutcome, dir: Directory)
    returns (failure: Option<BatchFailure>, st: Progress)
    ensures st == SaveKeys(Iterations(count), src, writes, dir)
    ensures |st.saved| + |st.errors| == Iterations(count)
    ensures failure.Some? <==> |st.errors| > 0
    ensures failure.Some? ==> failure.value == BatchFailure(|st.errors|, count)
    ensures Saves(dir, st)
  {
    var errors: seq<BatchError> := [];
    var saved: seq<string> := [];
    var fs := dir;
    var rand := src;
    for i := 0 to Iterations(count)
      invariant Progress(errors, saved, fs, rand) == SaveKeys(i, src, writes, dir)
      invariant Saves(dir, Progress(errors, saved, fs, rand))
    {
      var key, err, rest := GenerateSecureKey(rand);
      StoreKeepsSaves(dir, i, Progress(errors, saved, fs, rand), KeyDraw(key, err, rest), writes);
      rand := rest;
      if err.Some? {
        errors := errors + [GenerateFailed(i + 1, err.value)];
        continue;
      }
      var path := KeyPath(key);
      if path in fs {
        errors := errors + [FileExists(path)];
        continue;
      }
      var w := WriteKeyToFile(fs, path, key, writes(i));
      fs := w.dir;
      if w.err.Some? {
        errors := errors + [SaveFailed(i + 1, w.err.value)];
        continue;
      }
      saved := saved + [key];
    }
    st := Progress(errors, saved, fs, rand);
    if |errors| > 0 {
      failure := Some(BatchFailure(|errors|, count));
    } else {
      failure := None;
    }
  }

  /** The error run returns, each wrapping the error of one step. */
  datatype RunError =
    | OutputDirFailed
    | CountFailed(readError: ReadError)
    | KeysFailed(batchFailure: BatchFailure)

  /**
   * run: make sure the output directory exists (`dirReady` is whether
   * ensureOutputDir succeeds), read the count from `input`, then generate and
   * save that many keys.
   */
  method Run(dirReady: bool, input: string, src: seq<Draw>, writes: nat -> WriteOutcome, dir: Directory)
    returns (err: Option<RunError>, saved: seq<string>, fs: Directory)
    ensures !dirReady ==> err == Some(OutputDirFailed) && saved == [] && fs == dir
    ensures dirReady && FirstAccepted(input).Failure? ==>
      err == Some(CountFailed(FirstAccepted(input).error)) && saved == [] && fs == dir
    ensures dirReady && FirstAccepted(input).Success? ==>
      var st := SaveKeys(FirstAccepted(input).value, src, writes, dir);
      && saved == st.saved && fs == st.dir
      && (err.Some? <==> |st.errors| > 0)
      && (err.Some? ==> err.value == KeysFailed(BatchFailure(|st.errors|, FirstAccepted(input).value)))
    ensures forall p :: p in dir ==> p in fs && fs[p] == dir[p]
    ensures forall k :: k in saved ==> ValidKey(k) && KeyPath(k) !in dir && KeyPath(k) in fs && fs[KeyPath(k)] == k
    ensures Distinct(saved)
    ensures err.None? ==>
      && FirstAccepted(input).Success? && |saved| == FirstAccepted(input).value
      && |fs.Keys| == |dir.Keys| + |saved|
      && (forall p :: p in fs && p !in dir ==> IsKeyPath(p) && KeyOfPath(p) in saved)
  {
    if !dirReady {
      return Some(OutputDirFailed), [], dir;
    }
    var count := PromptForKeyCount(input);
    if count.Failure? {
      return Some(CountFailed(count.error)), [], dir;
    }
    var failure, st := GenerateAndSaveKeys(count.value, src, writes, dir);
    saved, fs := st.saved, st.dir;
    if failure.Some? {
      err := Some(KeysFailed(failure.value));
    } else {
      err := None;
      assert st.errors == [];
    }
    forall k | k in saved
      ensures ValidKey(k) && KeyPath(k) !in dir && KeyPath(k) in fs && fs[KeyPath(k)] == k
    {
      var i :| 0 <= i < |saved| && saved[i] == k;
    }
  }
}
