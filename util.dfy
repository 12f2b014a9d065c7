/**
 * Path validation and the reminder state file: `normalize_path`, `get_state_js`,
 * `load_state` and `save_state`, over a file system abstracted as a map from
 * absolute path to what is stored there.
 */
module Util {
  import opened Wrappers

  /** The two file-type expectations `normalize_path` knows. */
  const FILE: string := "file"
  const DIR: string := "dir"

  /** The persisted reminder state: event id to the date string last recorded for it. */
  type State = map<string, string>

  /** What the contents of a regular file decode to: a JSON object of strings, or anything else. */
  datatype Data = StateJson(state: State) | Other

  /** What a path names: a directory, a regular file, or something else that exists (a socket, a device). */
  datatype Entry = Directory | Regular(data: Data) | Special

  /** The file system: absolute path to entry. */
  type FsMap = map<string, Entry>

  predicate IsAbs(path: string)
  {
    |path| > 0 && path[0] == '/'
  }

  /** `os.path.join(a, b)` on POSIX. */
  function Join(a: string, b: string): (p: string)
  {
    if IsAbs(b) then b
    else if a == "" || a[|a| - 1] == '/' then a + b
    else a + "/" + b
  }

  /** `os.path.abspath(path)` for a process whose working directory is `cwd`. */
  function AbsPath(cwd: string, path: string): (abs: string)
  {
    if IsAbs(path) then path else Join(cwd, path)
  }

  /** The `ValueError`s of `normalize_path`, one per message. */
  datatype PathError = NotValid | DoesNotExist | NotAFile | NotADir

  /** `normalize_path(path, filetype=FILE)`; `None` for a path that is Python's `None`. */
  function NormalizePath(fs: FsMap, cwd: string, path: Option<string>, filetype: string := FILE)
    : (r: Result<string, PathError>)
  {
    if path.None? || path.value == "" then Err(NotValid)
    else
      var abs := AbsPath(cwd, path.value);
      if abs !in fs then Err(DoesNotExist)
      else if filetype == FILE && !fs[abs].Regular? then Err(NotAFile)
      else if filetype == DIR && !fs[abs].Directory? then Err(NotADir)
      else Ok(abs)
  }

  /** Each rejection of `normalize_path`, and the condition that leads to it. */
  lemma NormalizePathRejects(fs: FsMap, cwd: string, path: Option<string>, filetype: string)
    ensures NormalizePath(fs, cwd, path, filetype) == Err(NotValid) <==> path.None? || path.value == ""
    ensures NormalizePath(fs, cwd, path, filetype) == Err(DoesNotExist)
      <==> (path.Some? && path.value != "" && AbsPath(cwd, path.value) !in fs)
    ensures NormalizePath(fs, cwd, path, filetype) == Err(NotAFile)
      <==> (path.Some? && path.value != "" && AbsPath(cwd, path.value) in fs
        && filetype == FILE && !fs[AbsPath(cwd, path.value)].Regular?)
    ensures NormalizePath(fs, cwd, path, filetype) == Err(NotADir)
      <==> (path.Some? && path.value != "" && AbsPath(cwd, path.value) in fs
        && filetype == DIR && !fs[AbsPath(cwd, path.value)].Directory?)
  {
  }

  /**
   * `normalize_path` accepts exactly an existing path of the expected kind
   * (any existing path when the expectation is neither FILE nor DIR), and then
   * returns its absolute form.
   */
  lemma NormalizePathAccepts(fs: FsMap, cwd: string, path: string, filetype: string)
    ensures NormalizePath(fs, cwd, Some(path), filetype).Ok?
      <==> (path != "" && AbsPath(cwd, path) in fs
        && (filetype == FILE ==> fs[AbsPath(cwd, path)].Regular?)
        && (filetype == DIR ==> fs[AbsPath(cwd, path)].Directory?))
    ensures NormalizePath(fs, cwd, Some(path), filetype).Ok? ==>
      NormalizePath(fs, cwd, Some(path), filetype).value == AbsPath(cwd, path)
    ensures IsAbs(path) && NormalizePath(fs, cwd, Some(path), filetype).Ok? ==>
      NormalizePath(fs, cwd, Some(path), filetype).value == path
  {
  }

  /** With an absolute working directory, a normalized path normalizes to itself. */
  lemma NormalizePathIdempotent(fs: FsMap, cwd: string, path: Option<string>, filetype: string)
    requires IsAbs(cwd)
    requires NormalizePath(fs, cwd, path, filetype).Ok?
    ensures IsAbs(NormalizePath(fs, cwd, path, filetype).value)
    ensures NormalizePath(fs, cwd, Some(NormalizePath(fs, cwd, path, filetype).value), filetype)
      == NormalizePath(fs, cwd, path, filetype)
  {
    var p := path.value;
    if !IsAbs(p) {
      assert Join(cwd, p)[0] == cwd[0];
    }
  }

  /** `get_state_js(datadir)`: the state file `state.js` inside `datadir`. */
  function StateJs(datadir: string): (path: string)
  {
    Join(datadir, "state.js")
  }

  /** The state file is always named `state.js` and sits directly in `datadir`. */
  lemma StateJsInDatadir(datadir: string)
    ensures exists sep :: (sep == "" || sep == "/") && StateJs(datadir) == datadir + sep + "state.js"
    ensures |StateJs(datadir)| >= 8 && StateJs(datadir)[|StateJs(datadir)| - 8..] == "state.js"
    ensures datadir != "" && datadir[|datadir| - 1] != '/' ==> StateJs(datadir) == datadir + "/state.js"
  {
    if datadir == "" || datadir[|datadir| - 1] == '/' {
      assert StateJs(datadir) == datadir + "" + "state.js";
    } else {
      assert StateJs(datadir) == datadir + "/" + "state.js";
    }
  }

  /** Different data directories (without a trailing slash) have different state files. */
  lemma StateJsInjective(d1: string, d2: string)
    requires d1 != "" && d1[|d1| - 1] != '/'
    requires d2 != "" && d2[|d2| - 1] != '/'
    requires StateJs(d1) == StateJs(d2)
    ensures d1 == d2
  {
    var s1, s2 := StateJs(d1), StateJs(d2);
    assert s1 == d1 + "/state.js" && s2 == d2 + "/state.js";
    assert |d1| == |d2|;
    assert s1[..|d1|] == d1 && s2[..|d2|] == d2;
  }

  /** The I/O failures of the state store: opening for reading or writing, or decoding. */
  datatype StoreError = CannotRead(path: string) | CannotWrite(path: string) | Malformed(path: string)

  /** A snapshot of the file system and what the process may do to it. */
  datatype Disk = Disk(entries: FsMap, cwd: string, denied: set<string>)

  /** `open(path, 'wb')` succeeds: not refused, and not a directory or special file. */
  predicate Writable(d: Disk, abs: string)
  {
    abs !in d.denied && (abs !in d.entries || d.entries[abs].Regular?)
  }

  /** `save_state(datadir, data)`: replace the whole state file with `data`. */
  function SaveStateSpec(d: Disk, datadir: string, data: State): (r: (Result<(), StoreError>, Disk))
  {
    var abs := AbsPath(d.cwd, StateJs(datadir));
    if Writable(d, abs) then (Ok(()), d.(entries := d.entries[abs := Regular(StateJson(data))]))
    else (Err(CannotWrite(StateJs(datadir))), d)
  }

  /** `load_state(datadir)`: read the state file, creating an empty one when there is none. */
  function LoadStateSpec(d: Disk, datadir: string): (r: (Result<State, StoreError>, Disk))
  {
    var path := StateJs(datadir);
    var abs := AbsPath(d.cwd, path);
    if abs !in d.entries then
      var (saved, d') := SaveStateSpec(d, datadir, map[]);
      (if saved.Ok? then Ok(map[]) else Err(saved.error), d')
    else match d.entries[abs]
      case Regular(StateJson(m)) => (Ok(m), d)
      case Regular(Other) => (Err(Malformed(path)), d)
      case _ => (Err(CannotRead(path)), d)
  }

  /** Saving then loading gives back exactly the saved map, and loading changes nothing. */
  lemma SaveThenLoad(d: Disk, datadir: string, data: State)
    requires SaveStateSpec(d, datadir, data).0.Ok?
    ensures LoadStateSpec(SaveStateSpec(d, datadir, data).1, datadir)
      == (Ok(data), SaveStateSpec(d, datadir, data).1)
  {
  }

  /**
   * A save succeeds exactly when the state file can be opened for writing;
   * then the file holds `data` whatever it held before and no other path
   * changes; a failed save changes nothing.
   */
  lemma SaveReplacesWholeFile(d: Disk, datadir: string, data: State)
    ensures var abs := AbsPath(d.cwd, StateJs(datadir));
      var (r, d') := SaveStateSpec(d, datadir, data);
      && (r.Ok? <==> Writable(d, abs))
      && d'.cwd == d.cwd && d'.denied == d.denied
      && (r.Ok? ==> abs in d'.entries && d'.entries[abs] == Regular(StateJson(data)))
      && (r.Ok? ==> forall q :: q != abs ==>
            ((q in d'.entries <==> q in d.entries) && (q in d.entries ==> d'.entries[q] == d.entries[q])))
      && (r.Err? ==> d' == d)
  {
  }

  /**
   * With no state file, loading yields the empty map and leaves an empty state
   * file behind, or fails without any change when that file cannot be written.
   */
  lemma LoadMissingCreatesEmpty(d: Disk, datadir: string)
    requires AbsPath(d.cwd, StateJs(datadir)) !in d.entries
    ensures var abs := AbsPath(d.cwd, StateJs(datadir));
      var (r, d') := LoadStateSpec(d, datadir);
      && (r.Ok? <==> abs !in d.denied)
      && (r.Ok? ==> r.value == map[] && abs in d'.entries && d'.entries[abs] == Regular(StateJson(map[])))
      && (r.Err? ==> r.error == CannotWrite(StateJs(datadir)) && d' == d)
  {
  }

  /** With a state file present, loading only reads: it returns the stored map or fails, and changes nothing. */
  lemma LoadExistingReadsOnly(d: Disk, datadir: string)
    requires AbsPath(d.cwd, StateJs(datadir)) in d.entries
    ensures var abs := AbsPath(d.cwd, StateJs(datadir));
      var (r, d') := LoadStateSpec(d, datadir);
      && d' == d
      && (r.Ok? <==> d.entries[abs].Regular? && d.entries[abs].data.StateJson?)
      && (r.Ok? ==> d.entries[abs] == Regular(StateJson(r.value)))
  {
  }

  /** A successful load leaves a state file holding exactly the map it returned. */
  lemma LoadLeavesStateFile(d: Disk, datadir: string)
    requires LoadStateSpec(d, datadir).0.Ok?
    ensures var abs := AbsPath(d.cwd, StateJs(datadir));
      var (r, d') := LoadStateSpec(d, datadir);
      abs in d'.entries && d'.entries[abs] == Regular(StateJson(r.value))
  {
  }

  /** The file system the process sees: entries change, the working directory and permissions do not. */
  class FileSystem {
    var entries: FsMap
    const cwd: string
    const denied: set<string>

    constructor (entries: FsMap, cwd: string, denied: set<string>)
      ensures Snapshot() == Disk(entries, cwd, denied)
    {
      this.entries := entries;
      this.cwd := cwd;
      this.denied := denied;
    }

    function Snapshot(): (d: Disk)
      reads this
    {
      Disk(entries, cwd, denied)
    }

    /** `save_state`: open the state file for writing and replace its contents. */
    method SaveState(datadir: string, data: State) returns (r: Result<(), StoreError>)
      modifies this
      ensures (r, Snapshot()) == SaveStateSpec(old(Snapshot()), datadir, data)
    {
      var path := StateJs(datadir);
      var abs := AbsPath(cwd, path);
      if abs in denied || (abs in entries && !entries[abs].Regular?) {
        r := Err(CannotWrite(path));
        return;
      }
      entries := entries[abs := Regular(StateJson(data))];
      r := Ok(());
    }

    /** `load_state`: read the state file; write an empty one first when there is none. */
    method LoadState(datadir: string) returns (r: Result<State, StoreError>)
      modifies this
      ensures (r, Snapshot()) == LoadStateSpec(old(Snapshot()), datadir)
    {
      var path := StateJs(datadir);
      var abs := AbsPath(cwd, path);
      if abs !in entries {
        var saved := SaveState(datadir, map[]);
        if saved.Err? {
          r := Err(saved.error);
        } else {
          r := Ok(map[]);
        }
        return;
      }
      match entries[abs]
      case Regular(StateJson(m)) => r := Ok(m);
      case Regular(Other) => r := Err(Malformed(path));
      case _ => r := Err(CannotRead(path));
    }
  }
}
