/** `build_project` of the JavaScript driver (c2wasm-api/src/jshooks.ts:137-209)
    and its one stage `link_js_files` (lines 122-135). A build works in the
    directory `<base>.$`; the compiler leaves C source in `out.c` there, which
    is copied to `<base>.bc`, and the response carries the bytes of the array
    in it. */
module JsHooks {

  import opened Wrappers
  import opened Text
  import opened Workspace
  import opened Filename
  import opened Pipeline
  import opened HexBlock

  /** The output file `result`. */
  function ResultPath(base: string): string
  {
    base + ".bc"
  }

  /** Where `qjsc -c` writes its C source: `out.c` in its working directory. */
  function OutC(base: string): string
  {
    WorkDir(base) + "/out.c"
  }

  /** The log `shell_exec` captures the compiler's output in. */
  function LogPath(base: string): string
  {
    WorkDir(base) + "/out.log"
  }

  /** The command `link_js_files` runs. */
  function LinkCommand(sources: seq<string>): string
  {
    "qjsc" + " " + "-c " + Join(sources, " ")
  }

  /** What stays fixed during one build. */
  datatype Job = Job(base: string, tools: Tools)

  // ---------------------------------------------------------------------
  // The build, as functions

  /** How `link_js_files` ends: whether the copy of `out.c` succeeded (when
      it does not, `copyFileSync` throws out of the build), whether the
      output file then exists, the console text and the disk. */
  datatype LinkRun = LinkRun(copied: bool, ok: bool, console: string, disk: Disk)

  function LinkStage(job: Job, sources: seq<string>, d: Disk): LinkRun
  {
    var log, outc, result := LogPath(job.base), OutC(job.base), ResultPath(job.base);
    var run := job.tools(LinkCommand(sources));
    var d1 := AfterRun(d[log := File(Chars(""))], log, outc, run);
    if outc in d1 && d1[outc].File? && NoFolderAt(d1, result) then
      var d2 := d1[result := d1[outc]];
      LinkRun(true, result in d2, Console(run), d2)
    else LinkRun(false, false, Console(run), d1)
  }

  /** The build after validation: push `'building bc'`, link, and on success
      read the output back and store its bytes. */
  function Link(job: Job, compress: bool, sources: seq<string>, d: Disk): Finished
  {
    var dir, result := WorkDir(job.base), ResultPath(job.base);
    var l := LinkStage(job, sources, d);
    if !l.copied then Finished(Threw, l.disk)
    else
      var tasks := [Done("building bc", l.ok, l.console)];
      if !l.ok then Finish(l.disk, dir, result, false, "Build error", tasks, NoOutput)
      else
        match ReadOf(l.disk, result)
        case None => Finished(Threw, l.disk)
        case Some(c) => Finish(l.disk, dir, result, true, "Success", tasks, Encoded(Bytes(Serialize(c)), compress))
  }

  /** `build_project(req, base)`, with the tools and the disk it starts on. */
  function Build(req: Request, base: string, tools: Tools, d: Disk): Finished
  {
    var dir, result := WorkDir(base), ResultPath(base);
    if req.output != "bc" then Finish(d, dir, result, false, "Invalid output type " + req.output, [], NoOutput)
    else if req.files == [] then Finish(d, dir, result, false, "No source files", [], NoOutput)
    else
      var d1 := WithWorkDir(d, dir);
      match Admit(req.files, dir, d1)
      case Rejected(message, d2) => Finish(d2, dir, result, false, message, [], NoOutput)
      case Admitted(sources, _, d2) => Link(Job(base, tools), req.compress == Some(true), sources, d2)
  }

  // ---------------------------------------------------------------------
  // What the driver promises

  /** Validation runs in order, and the first failure decides the message,
      exactly as in the C driver but for the output kind `bc`. */
  lemma ValidationOrder(req: Request, base: string, tools: Tools, d: Disk)
    ensures var f := Build(req, base, tools, d);
      && (req.output != "bc" ==>
            f.outcome.Returned? ==> f.outcome.response == Response(false, "Invalid output type " + req.output, NoOutput, []))
      && (req.output == "bc" && req.files == [] ==>
            f.outcome.Returned? ==> f.outcome.response == Response(false, "No source files", NoOutput, []))
      && ((req.output != "bc" || req.files == []) && WorkDir(base) !in d ==> f == Finished(Threw, d))
      && ((req.output != "bc" || req.files == []) ==>
            (f.outcome.Returned? <==> WorkDir(base) in d && NoFolderAt(d, ResultPath(base))))
      && (req.output == "bc" && req.files != [] && FirstFault(req.files, 0).Some? ==>
            && (f.outcome.Returned? <==> NoFolderAt(d, ResultPath(base)))
            && (f.outcome.Returned? ==>
                  f.outcome.response == Response(false, Fault(req.files, FirstFault(req.files, 0).value).value, NoOutput, [])))
  {
    var dir := WorkDir(base);
    var d1 := WithWorkDir(d, dir);
    AdmitIsExpected(req.files, dir, d1);
    OutputOutsideWorkspace(base, ".bc");
    AdmitKeeps(req.files, dir, d1);
    AdmitStaysInside(req.files, dir, dir, d1);
  }

  /** The link step, on a disk that has the workspace: it throws exactly
      when the compiler left no `out.c` or a directory sits at the output,
      and then leaves the workspace behind; otherwise it succeeds with the
      bytes of that file, so the source's "Build error" branch is never
      taken. */
  lemma LinkOutcome(job: Job, compress: bool, sources: seq<string>, d: Disk)
    requires WorkDir(job.base) in d
    ensures var log, outc := LogPath(job.base), OutC(job.base);
      var run := job.tools(LinkCommand(sources));
      var d' := AfterRun(d[log := File(Chars(""))], log, outc, run);
      var f := Link(job, compress, sources, d);
      && (f.outcome.Threw? <==> !(outc in d' && d'[outc].File?) || !NoFolderAt(d, ResultPath(job.base)))
      && (f.outcome.Threw? ==> WorkDir(job.base) in f.disk)
      && (f.outcome.Returned? ==>
            f.outcome.response
              == Response(true, "Success", Encoded(Bytes(Serialize(d'[outc].content)), compress),
                          [Done("building bc", true, Console(run))]))
  {
    OutputOutsideWorkspace(job.base, ".bc");
    var dir := WorkDir(job.base);
    var log, outc, result := LogPath(job.base), OutC(job.base), ResultPath(job.base);
    assert |log| > |dir| && |outc| > |dir|;
    assert result != log && result != outc && result != dir;
    var run := job.tools(LinkCommand(sources));
    var d' := AfterRun(d[log := File(Chars(""))], log, outc, run);
    assert dir in d';
    assert NoFolderAt(d', result) <==> NoFolderAt(d, result);
    var l := LinkStage(job, sources, d);
    if l.copied {
      assert l.disk == d'[result := d'[outc]];
      assert ReadOf(l.disk, result) == Some(d'[outc].content);
    }
  }

  /** A request that passes validation runs the compiler on exactly the
      workspace paths of its files, in order (no option of the request
      reaches the command), and the build ends as `LinkOutcome` says. */
  lemma BuildAdmitted(req: Request, base: string, tools: Tools, d: Disk)
    requires req.output == "bc" && req.files != [] && FirstFault(req.files, 0).None?
    ensures var dir := WorkDir(base);
      var a := Admit(req.files, dir, WithWorkDir(d, dir));
      && a.Admitted?
      && a.sources == Paths(dir, req.files)
      && dir in a.disk
      && Build(req, base, tools, d) == Link(Job(base, tools), req.compress == Some(true), Paths(dir, req.files), a.disk)
  {
    var dir := WorkDir(base);
    var d1 := WithWorkDir(d, dir);
    AdmitIsExpected(req.files, dir, d1);
    AdmitKeeps(req.files, dir, d1);
  }

  /** The whole build never completes with "Build error". */
  lemma NeverBuildError(req: Request, base: string, tools: Tools, d: Disk)
    ensures var f := Build(req, base, tools, d);
      f.outcome.Returned? ==> f.outcome.response.message != "Build error"
  {
    var dir := WorkDir(base);
    var d1 := WithWorkDir(d, dir);
    AdmitIsExpected(req.files, dir, d1);
    if req.output == "bc" && req.files != [] && FirstFault(req.files, 0).None? {
      BuildAdmitted(req, base, tools, d);
      var a := Admit(req.files, dir, d1);
      LinkOutcome(Job(base, tools), req.compress == Some(true), Paths(dir, req.files), a.disk);
    } else if req.output == "bc" && req.files != [] {
      var k := FirstFault(req.files, 0).value;
      assert Fault(req.files, k).value != "Build error";
    }
  }

  /** The link step writes only inside the workspace and to the output. */
  lemma LinkStaysInside(job: Job, sources: seq<string>, d: Disk)
    ensures SameOutside(d, LinkStage(job, sources, d).disk, WorkDir(job.base), ResultPath(job.base))
  {
    InsideDir(WorkDir(job.base), "out.log");
    InsideDir(WorkDir(job.base), "out.c");
  }

  /** Cleanup: a build that returns leaves the rest of the disk exactly as
      it found it, with the workspace and the output file gone. */
  lemma ReturnedCleansUp(req: Request, base: string, tools: Tools, d: Disk)
    ensures CleanedUp(Build(req, base, tools, d), d, WorkDir(base), ResultPath(base))
  {
    var dir, result := WorkDir(base), ResultPath(base);
    var d1 := WithWorkDir(d, dir);
    assert SameOutside(d, d1, dir, result);
    if req.output != "bc" || req.files == [] {
      FinishCleansUp(d, d, dir, result, false,
                     if req.output != "bc" then "Invalid output type " + req.output else "No source files", [], NoOutput);
    } else {
      var a := Admit(req.files, dir, d1);
      AdmitStaysInside(req.files, dir, result, d1);
      SameOutsideTrans(d, d1, a.disk, dir, result);
      if a.Admitted? {
        var job := Job(base, tools);
        var l := LinkStage(job, a.sources, a.disk);
        LinkStaysInside(job, a.sources, a.disk);
        SameOutsideTrans(d, a.disk, l.disk, dir, result);
        if l.copied && ReadOf(l.disk, result).Some? {
          FinishCleansUp(d, l.disk, dir, result, l.ok, if l.ok then "Success" else "Build error",
                         [Done("building bc", l.ok, l.console)],
                         if l.ok then Encoded(Bytes(Serialize(ReadOf(l.disk, result).value)), req.compress == Some(true)) else NoOutput);
        } else if l.copied {
          FinishCleansUp(d, l.disk, dir, result, false, "Build error", [Done("building bc", l.ok, l.console)], NoOutput);
        }
      } else {
        FinishCleansUp(d, a.disk, dir, result, false, a.message, [], NoOutput);
      }
    }
  }

  // ---------------------------------------------------------------------
  // The driver, as methods over the file system and the record

  /** `link_js_files`, filling in the task pushed last. When the copy
      throws, the task is left as it was pushed. */
  method LinkJsFiles(br: BuildResult, fs: FileSystem, job: Job, sources: seq<string>)
    returns (copied: bool, ok: bool)
    requires br.tasks != []
    modifies br, fs
    ensures var l := LinkStage(job, sources, old(fs.disk));
      && copied == l.copied && fs.disk == l.disk
      && (copied ==> ok == l.ok)
      && (copied ==> br.tasks == old(br.tasks)[..|old(br.tasks)| - 1] + [Done(old(br.tasks)[|old(br.tasks)| - 1].name, l.ok, l.console)])
      && (!copied ==> br.tasks == old(br.tasks))
    ensures br.output == old(br.output)
  {
    var cwd, output := WorkDir(job.base), ResultPath(job.base);
    var files := Join(sources, " ");
    var cmd := "qjsc" + " " + "-c " + files;
    fs.Open(cwd + "/out.log");
    var out, _ := fs.Run(job.tools, cmd, cwd + "/out.log", cwd + "/out.c");
    copied := fs.Copy(cwd + "/out.c", output);
    if !copied {
      return copied, false;
    }
    ok := fs.Exists(output);
    br.Settle(ok, out);
  }

  /** `build_project`. */
  method BuildProject(req: Request, base: string, tools: Tools, fs: FileSystem) returns (out: Outcome)
    modifies fs
    ensures Finished(out, fs.disk) == Build(req, base, tools, old(fs.disk))
  {
    var job := Job(base, tools);
    var br := new BuildResult();
    var dir, result := WorkDir(base), ResultPath(base);
    if req.output != "bc" {
      out := Complete(br, fs, dir, result, false, "Invalid output type " + req.output);
      return;
    }
    if |req.files| == 0 {
      out := Complete(br, fs, dir, result, false, "No source files");
      return;
    }
    if !fs.Exists(dir) {
      fs.MkDir(dir);
    }
    var ok, sources, _, message := AdmitFiles(req.files, dir, fs);
    if !ok {
      out := Complete(br, fs, dir, result, false, message);
      return;
    }
    out := LinkAndDeliver(br, fs, job, req.compress == Some(true), sources);
  }

  /** `build_project` after the validation loop. */
  method LinkAndDeliver(br: BuildResult, fs: FileSystem, job: Job, compress: bool, sources: seq<string>)
    returns (out: Outcome)
    requires br.tasks == [] && br.output == NoOutput
    modifies br, fs
    ensures Finished(out, fs.disk) == Link(job, compress, sources, old(fs.disk))
  {
    var dir, result := WorkDir(job.base), ResultPath(job.base);
    ghost var l := LinkStage(job, sources, fs.disk);
    br.Begin("building bc");
    var copied, linked := LinkJsFiles(br, fs, job, sources);
    if !copied {
      return Threw;
    }
    // The output file was just copied, so `existsSync(output)` holds and
    // `complete(false, 'Build error')` is never reached.
    assert linked;
    assert br.tasks == [Done("building bc", l.ok, l.console)];
    var content := fs.Read(result);
    assert content.Some?;
    br.SetOutput(Encoded(Bytes(Serialize(content.value)), compress));
    out := Complete(br, fs, dir, result, true, "Success");
  }
}
