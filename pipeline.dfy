/** What the two build drivers (c2wasm-api/src/chooks.ts and
    c2wasm-api/src/jshooks.ts) share: the request and response records, the
    per-file validation loop, and the `complete` closure every return goes
    through. */
module Pipeline {

  import opened Wrappers
  import opened Text
  import opened Workspace
  import opened Filename

  /** The workspace directory `dir` of a build with base path `base`. */
  function WorkDir(base: string): string
  {
    base + ".$"
  }

  /** One element of the request's `files`. */
  datatype FileEntry = FileEntry(kind: string, name: string, options: Option<string>, src: string)

  /** The request body, after schema parsing. */
  datatype Request = Request(
    output: string,
    files: seq<FileEntry>,
    linkOptions: Option<string>,
    compress: Option<bool>,
    strip: Option<bool>)

  /** A task record. It is pushed with only its name; the stage then sets
      `success` and `console`. */
  datatype Task = Task(name: string, success: Option<bool>, console: Option<string>)

  /** The response's `output`: none (the initial `''`), or the base64 text of
      `data`, deflated first when `deflated`. */
  datatype Payload = NoOutput | Encoded(data: Content, deflated: bool)

  datatype Response = Response(success: bool, message: string, output: Payload, tasks: seq<Task>)

  /** How `build_project` ends: it returns its record, or an exception
      escapes it. */
  datatype Outcome = Returned(response: Response) | Threw

  /** The outcome together with the disk it leaves behind. */
  datatype Finished = Finished(outcome: Outcome, disk: Disk)

  /** A JavaScript-truthy optional string. */
  predicate Truthy(o: Option<string>)
  {
    o.Some? && o.value != ""
  }

  /** `o || ''`. */
  function OrEmpty(o: Option<string>): (r: string)
    ensures r != "" <==> Truthy(o)
  {
    if o.Some? then o.value else ""
  }

  function Names(tasks: seq<Task>): (r: seq<string>)
    ensures |r| == |tasks| && forall i :: 0 <= i < |tasks| ==> r[i] == tasks[i].name
  {
    seq(|tasks|, i requires 0 <= i < |tasks| => tasks[i].name)
  }

  /** A finished stage. */
  function Done(name: string, success: bool, console: string): Task
  {
    Task(name, Some(success), Some(console))
  }

  // ---------------------------------------------------------------------
  // `complete`

  /** Nothing, or a file, is at `p`: what `unlinkSync` needs after an
      `existsSync` that said yes. */
  predicate NoFolderAt(d: Disk, p: string)
  {
    p in d ==> d[p].File?
  }

  /** `if (!existsSync(dir)) mkdirSync(dir)`. */
  function WithWorkDir(d: Disk, dir: string): Disk
  {
    if dir in d then d else d[dir := Folder]
  }

  /** `complete(success, message)`: remove the workspace `dir` (throwing when
      it does not exist), unlink `result` when it exists (throwing when it is
      not a file), and return the record. It returns exactly when the
      workspace exists and, once it is gone, no directory is left at
      `result`; a returned record always leaves no path under `dir` and no
      `result` behind. */
  function Finish(d: Disk, dir: string, result: string, success: bool, message: string,
                  tasks: seq<Task>, output: Payload): (r: Finished)
    ensures r.outcome.Returned? <==> dir in d && NoFolderAt(Removed(d, dir), result)
    ensures !Under(result, dir) ==> (r.outcome.Returned? <==> dir in d && NoFolderAt(d, result))
    ensures r.outcome.Returned? ==>
      && r.outcome.response == Response(success, message, output, tasks)
      && result !in r.disk
      && (forall p :: p in r.disk ==> !Under(p, dir))
      && (forall p :: p in r.disk <==> p in d && !Under(p, dir) && p != result)
      && (forall p :: p in r.disk ==> r.disk[p] == d[p])
    ensures dir !in d ==> r == Finished(Threw, d)
    ensures dir in d && r.outcome.Threw? ==> r.disk == Removed(d, dir)
  {
    if dir !in d then Finished(Threw, d)
    else
      var d1 := Removed(d, dir);
      if result !in d1 then Finished(Returned(Response(success, message, output, tasks)), d1)
      else if d1[result].Folder? then Finished(Threw, d1)
      else Finished(Returned(Response(success, message, output, tasks)), d1 - {result})
  }

  /** The driver's `build_result` record, updated in place. */
  class BuildResult {
    var success: bool
    var message: string
    var output: Payload
    var tasks: seq<Task>

    constructor()
      ensures success == false && message == "" && output == NoOutput && tasks == []
    {
      success := false;
      message := "";
      output := NoOutput;
      tasks := [];
    }

    /** `build_result.tasks.push({ name })`. */
    method Begin(name: string)
      modifies this
      ensures tasks == old(tasks) + [Task(name, None, None)]
      ensures success == old(success) && message == old(message) && output == old(output)
    {
      tasks := tasks + [Task(name, None, None)];
    }

    /** The stage sets `console` and `success` on the task it was given: the
        last one pushed. */
    method Settle(ok: bool, console: string)
      requires tasks != []
      modifies this
      ensures tasks == old(tasks)[..|old(tasks)| - 1] + [Done(old(tasks)[|old(tasks)| - 1].name, ok, console)]
      ensures success == old(success) && message == old(message) && output == old(output)
    {
      tasks := tasks[..|tasks| - 1] + [Done(tasks[|tasks| - 1].name, ok, console)];
    }

    /** `build_result.output = ...`. */
    method SetOutput(p: Payload)
      modifies this
      ensures output == p
      ensures success == old(success) && message == old(message) && tasks == old(tasks)
    {
      output := p;
    }
  }

  /** The `complete` closure. */
  method Complete(br: BuildResult, fs: FileSystem, dir: string, result: string, success: bool, message: string)
    returns (out: Outcome)
    modifies br, fs
    ensures Finished(out, fs.disk) == Finish(old(fs.disk), dir, result, success, message, old(br.tasks), old(br.output))
  {
    var removed := fs.RemoveTree(dir);
    if !removed {
      return Threw;
    }
    if fs.Exists(result) {
      var unlinked := fs.Unlink(result);
      if !unlinked {
        return Threw;
      }
    }
    br.success := success;
    br.message := message;
    out := Returned(Response(br.success, br.message, br.output, br.tasks));
  }

  // ---------------------------------------------------------------------
  // The per-file validation loop

  /** Where the loop ends: every file written, with the list of workspace
      paths and the options string in effect; or an early return with its
      message. Either way, the disk as the loop left it. */
  datatype Admission =
    | Admitted(sources: seq<string>, options: string, disk: Disk)
    | Rejected(message: string, disk: Disk)

  /** The loop from file `i` on, having collected `sources`, with `options`
      (`''` standing for unset) and the disk `d`. */
  function AdmitFrom(files: seq<FileEntry>, dir: string, i: nat, sources: seq<string>, options: string, d: Disk): Admission
    requires i <= |files|
    decreases |files| - i
  {
    if i == |files| then Admitted(sources, options, d)
    else
      var f := files[i];
      if !ValidName(f.name) then Rejected("Invalid filename " + f.name, d)
      else
        var path := dir + "/" + f.name;
        if options != "" && Truthy(f.options) && f.options.value != options then
          Rejected("Per-file compilation options not supported", d)
        else if f.src == "" then Rejected("Source file " + f.name + " is empty", d)
        else
          var options' := if options == "" then OrEmpty(f.options) else options;
          AdmitFrom(files, dir, i + 1, sources + [path], options', d[path := File(Chars(f.src))])
  }

  /** The whole loop, started on the disk `d`. */
  function Admit(files: seq<FileEntry>, dir: string, d: Disk): Admission
  {
    AdmitFrom(files, dir, 0, [], "", d)
  }

  /** The loop `for (let file of files) { ... writeFileSync(fileName, src); }`
      of both drivers. */
  method AdmitFiles(files: seq<FileEntry>, dir: string, fs: FileSystem)
    returns (ok: bool, sources: seq<string>, options: string, message: string)
    modifies fs
    ensures var a := Admit(files, dir, old(fs.disk));
      && ok == a.Admitted?
      && (ok ==> sources == a.sources && options == a.options)
      && (!ok ==> message == a.message)
      && fs.disk == a.disk
  {
    sources := [];
    options := "";
    message := "";
    for i := 0 to |files|
      invariant Admit(files, dir, old(fs.disk)) == AdmitFrom(files, dir, i, sources, options, fs.disk)
    {
      var f := files[i];
      var name := f.name;
      if !ValidName(name) {
        return false, sources, options, "Invalid filename " + name;
      }
      var fileName := dir + "/" + name;
      var before := sources;
      sources := sources + [fileName];
      if options == "" {
        options := OrEmpty(f.options);
      } else if Truthy(f.options) && f.options.value != options {
        return false, before, options, "Per-file compilation options not supported";
      }
      if f.src == "" {
        return false, sources, options, "Source file " + name + " is empty";
      }
      fs.WriteText(fileName, f.src);
    }
    ok := true;
  }

  // ---------------------------------------------------------------------
  // An independent description of the loop

  /** The options string in effect when file `i` is reached: the first truthy
      `options` before it, or `''`. */
  function OptionsBefore(files: seq<FileEntry>, i: nat): string
    requires i <= |files|
  {
    if i == 0 then ""
    else
      var o := OptionsBefore(files, i - 1);
      if o != "" then o else OrEmpty(files[i - 1].options)
  }

  /** The message file `i` stops the loop with, if any: a bad name, a truthy
      `options` that differs from the one in effect, or an empty source. */
  function Fault(files: seq<FileEntry>, i: nat): Option<string>
    requires i < |files|
  {
    var f := files[i];
    var o := OptionsBefore(files, i);
    if !ValidName(f.name) then Some("Invalid filename " + f.name)
    else if o != "" && Truthy(f.options) && f.options.value != o then Some("Per-file compilation options not supported")
    else if f.src == "" then Some("Source file " + f.name + " is empty")
    else None
  }

  /** The workspace path of each file. */
  function Paths(dir: string, files: seq<FileEntry>): (r: seq<string>)
    ensures |r| == |files| && forall i :: 0 <= i < |files| ==> r[i] == dir + "/" + files[i].name
  {
    seq(|files|, i requires 0 <= i < |files| => dir + "/" + files[i].name)
  }

  /** The disk after writing `files` in order into `dir`. */
  function Written(d: Disk, dir: string, files: seq<FileEntry>): Disk
  {
    if files == [] then d
    else
      var f := files[|files| - 1];
      Written(d, dir, files[..|files| - 1])[dir + "/" + f.name := File(Chars(f.src))]
  }

  /** The first faulty file at or after `i`. */
  function FirstFault(files: seq<FileEntry>, i: nat): (r: Option<nat>)
    requires i <= |files|
    ensures r.Some? ==> i <= r.value < |files| && Fault(files, r.value).Some?
    ensures r.Some? ==> forall j :: i <= j < r.value ==> Fault(files, j).None?
    ensures r.None? ==> forall j :: i <= j < |files| ==> Fault(files, j).None?
    decreases |files| - i
  {
    if i == |files| then None
    else if Fault(files, i).Some? then Some(i)
    else FirstFault(files, i + 1)
  }

  /** What the loop should come to: stop at the first faulty file with its
      message, having written the files before it; otherwise all files
      written, their paths in order, and the first truthy options. */
  function Expected(files: seq<FileEntry>, dir: string, d: Disk): Admission
  {
    match FirstFault(files, 0)
    case Some(k) => Rejected(Fault(files, k).value, Written(d, dir, files[..k]))
    case None => Admitted(Paths(dir, files), OptionsBefore(files, |files|), Written(d, dir, files))
  }

  lemma {:induction false} AdmitFromExpected(files: seq<FileEntry>, dir: string, d: Disk, i: nat)
    requires i <= |files|
    requires forall j :: 0 <= j < i ==> Fault(files, j).None?
    ensures AdmitFrom(files, dir, i, Paths(dir, files[..i]), OptionsBefore(files, i), Written(d, dir, files[..i]))
      == Expected(files, dir, d)
    decreases |files| - i
  {
    var sources, o, di := Paths(dir, files[..i]), OptionsBefore(files, i), Written(d, dir, files[..i]);
    if i == |files| {
      assert files[..i] == files;
    } else {
      var f := files[i];
      if Fault(files, i).None? {
        var path := dir + "/" + f.name;
        assert sources + [path] == Paths(dir, files[..i + 1]);
        assert files[..i + 1][..i] == files[..i];
        assert di[path := File(Chars(f.src))] == Written(d, dir, files[..i + 1]);
        AdmitFromExpected(files, dir, d, i + 1);
        assert FirstFault(files, 0) == FirstFault(files, i + 1) by {
          FirstFaultSkips(files, i + 1);
        }
      } else {
        FirstFaultSkips(files, i);
        AdmitStops(files, dir, i, sources, di);
      }
    }
  }

  /** A faulty file stops the loop with its message, on the disk written so
      far. */
  lemma AdmitStops(files: seq<FileEntry>, dir: string, i: nat, sources: seq<string>, d: Disk)
    requires i < |files| && Fault(files, i).Some?
    ensures AdmitFrom(files, dir, i, sources, OptionsBefore(files, i), d) == Rejected(Fault(files, i).value, d)
  {
  }

  /** Skipping files without faults does not move the first fault. */
  lemma {:induction false} FirstFaultSkips(files: seq<FileEntry>, i: nat)
    requires i <= |files|
    requires forall j :: 0 <= j < i ==> Fault(files, j).None?
    ensures FirstFault(files, 0) == FirstFault(files, i)
    decreases i
  {
    if i > 0 {
      FirstFaultSkips(files, i - 1);
    }
  }

  /** The validation loop is exactly the independent description: the first
      faulty file decides the message, in file order; the loop accepts iff
      no file is faulty, and then the sources are the files' workspace
      paths, in order. */
  lemma AdmitIsExpected(files: seq<FileEntry>, dir: string, d: Disk)
    ensures Admit(files, dir, d) == Expected(files, dir, d)
    ensures Admit(files, dir, d).Admitted? <==> forall j :: 0 <= j < |files| ==> Fault(files, j).None?
  {
    assert files[..0] == [];
    AdmitFromExpected(files, dir, d, 0);
  }

  /** `OptionsBefore` is the first truthy `options` before `i`: `''` iff
      there is none. */
  lemma {:induction false} OptionsBeforeIsFirst(files: seq<FileEntry>, i: nat)
    requires i <= |files|
    ensures OptionsBefore(files, i) == "" <==> forall j :: 0 <= j < i ==> !Truthy(files[j].options)
    ensures forall k ::
              0 <= k < i && Truthy(files[k].options) && (forall j :: 0 <= j < k ==> !Truthy(files[j].options))
              ==> OptionsBefore(files, i) == files[k].options.value
  {
    if i > 0 {
      OptionsBeforeIsFirst(files, i - 1);
    }
  }

  /** A file without truthy options, with a valid name and a non-empty
      source, never stops the loop. */
  lemma NoOptionsNeverFaults(files: seq<FileEntry>, i: nat)
    requires i < |files|
    requires !Truthy(files[i].options) && ValidName(files[i].name) && files[i].src != ""
    ensures Fault(files, i).None?
  {
  }

  /** The options check, stated without the loop: every file passes it iff
      every truthy `options` equals the first truthy one. */
  lemma {:induction false} OptionsAgreeIff(files: seq<FileEntry>, k: nat)
    requires k < |files| && Truthy(files[k].options)
    requires forall j :: 0 <= j < k ==> !Truthy(files[j].options)
    ensures (forall i :: k < i < |files| && Truthy(files[i].options) ==> files[i].options.value == files[k].options.value)
      <==> (forall i :: 0 <= i < |files| && Truthy(files[i].options) && OptionsBefore(files, i) != ""
              ==> files[i].options.value == OptionsBefore(files, i))
  {
    forall i | k < i <= |files|
      ensures OptionsBefore(files, i) == files[k].options.value
    {
      OptionsBeforeIsFirst(files, i);
    }
    forall i | 0 <= i <= k
      ensures OptionsBefore(files, i) == ""
    {
      OptionsBeforeIsFirst(files, i);
    }
  }

  // ---------------------------------------------------------------------
  // What a build touches on disk

  /** `d` and `d'` agree on every path outside the workspace `dir`, except
      perhaps the output file `result`. */
  ghost predicate SameOutside(d: Disk, d': Disk, dir: string, result: string)
  {
    forall p :: !Under(p, dir) && p != result ==>
      (p in d <==> p in d') && (p in d ==> d[p] == d'[p])
  }

  lemma SameOutsideTrans(d1: Disk, d2: Disk, d3: Disk, dir: string, result: string)
    requires SameOutside(d1, d2, dir, result) && SameOutside(d2, d3, dir, result)
    ensures SameOutside(d1, d3, dir, result)
  {
  }

  /** The output file `<base><ext>` lies outside the workspace `<base>.$`,
      and is none of the files written there, for any extension that does
      not start with ".$". */
  lemma OutputOutsideWorkspace(base: string, ext: string)
    requires |ext| >= 2 && ext[0] == '.' && ext[1] != '$'
    ensures !Under(base + ext, WorkDir(base))
    ensures forall name :: base + ext != WorkDir(base) + "/" + name
  {
    var r, w := base + ext, WorkDir(base);
    assert r[|base| + 1] == ext[1];
    assert (w + "/")[|base| + 1] == '$';
    forall name ensures r != w + "/" + name {
      assert (w + "/" + name)[|base| + 1] == '$';
    }
  }

  /** A path built as `dir + '/' + name` lies in the workspace. */
  lemma InsideDir(dir: string, name: string)
    ensures Under(dir + "/" + name, dir)
  {
    assert (dir + "/" + name)[..|dir + "/"|] == dir + "/";
  }

  lemma {:induction false} WrittenStaysInside(d: Disk, dir: string, result: string, files: seq<FileEntry>)
    ensures SameOutside(d, Written(d, dir, files), dir, result)
  {
    if files != [] {
      WrittenStaysInside(d, dir, result, files[..|files| - 1]);
      InsideDir(dir, files[|files| - 1].name);
    }
  }

  /** The validation loop writes only inside the workspace. */
  lemma AdmitStaysInside(files: seq<FileEntry>, dir: string, result: string, d: Disk)
    ensures SameOutside(d, Admit(files, dir, d).disk, dir, result)
  {
    AdmitIsExpected(files, dir, d);
    var k := if FirstFault(files, 0).Some? then FirstFault(files, 0).value else |files|;
    assert files[..|files|] == files;
    WrittenStaysInside(d, dir, result, files[..k]);
  }

  /** Writing files only adds paths. */
  lemma {:induction false} WrittenKeeps(d: Disk, dir: string, files: seq<FileEntry>)
    ensures forall p :: p in d ==> p in Written(d, dir, files)
  {
    if files != [] {
      WrittenKeeps(d, dir, files[..|files| - 1]);
    }
  }

  /** The validation loop removes nothing, in particular not the
      workspace. */
  lemma AdmitKeeps(files: seq<FileEntry>, dir: string, d: Disk)
    ensures forall p :: p in d ==> p in Admit(files, dir, d).disk
  {
    AdmitIsExpected(files, dir, d);
    var k := if FirstFault(files, 0).Some? then FirstFault(files, 0).value else |files|;
    assert files[..|files|] == files;
    WrittenKeeps(d, dir, files[..k]);
  }

  /** A returned build left the disk as it found `d0`, except that the
      workspace and the output file are gone. */
  ghost predicate CleanedUp(f: Finished, d0: Disk, dir: string, result: string)
  {
    f.outcome.Returned? ==>
      forall q :: (q in f.disk <==> q in d0 && !Under(q, dir) && q != result)
        && (q in f.disk ==> f.disk[q] == d0[q])
  }

  /** `complete`, reached on a disk that differs from `d0` only inside the
      workspace and at the output file, restores everything else. */
  lemma FinishCleansUp(d0: Disk, d: Disk, dir: string, result: string, success: bool, message: string,
                       tasks: seq<Task>, output: Payload)
    requires SameOutside(d0, d, dir, result)
    ensures CleanedUp(Finish(d, dir, result, success, message, tasks, output), d0, dir, result)
  {
  }
}
