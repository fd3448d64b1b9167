/** `build_project` of the C driver (c2wasm-api/src/chooks.ts:228-323) and
    its stages `link_c_files`, `optimize_wasm` and `clean_wasm`. A build
    works in the directory `<base>.$` and produces `<base>.wasm`. */
module CHooks {

  import opened Wrappers
  import opened Text
  import opened Workspace
  import opened Sanitize
  import opened Filename
  import opened Pipeline

  /** `llvmDir`, for the server's working directory `home`. */
  function ToolchainDir(home: string): string
  {
    home + "/clang/wasi-sdk"
  }

  /** `sysroot`. */
  function Sysroot(home: string): string
  {
    ToolchainDir(home) + "/share/wasi-sysroot"
  }

  /** The output file `result`. */
  function ResultPath(base: string): string
  {
    base + ".wasm"
  }

  /** The command `link_c_files` runs. */
  function LinkCommand(home: string, options: string, linkOptions: string, sources: seq<string>, output: string): string
  {
    ToolchainDir(home) + "/bin/clang" + " " + ClangOptions(Sysroot(home), options) + " " + LldOptions(linkOptions)
      + " " + Join(sources, " ") + " -o " + output
  }

  /** The command `optimize_wasm` runs. */
  function OptimizeCommand(opt: string, inplace: string, unopt: string): string
  {
    "wasm-opt " + opt + " -o " + inplace + " " + unopt
  }

  /** The command `clean_wasm` runs. */
  function CleanCommand(inplace: string): string
  {
    "hook-cleaner " + inplace
  }

  /** What stays fixed during one build. */
  datatype Job = Job(home: string, base: string, tools: Tools)

  // ---------------------------------------------------------------------
  // Stages, as functions

  /** How one stage ends: whether it succeeded, its console text, and the
      disk afterwards. */
  datatype StageRun = StageRun(ok: bool, console: string, disk: Disk)

  /** `link_c_files`: run clang, capturing its output in `out.log`; success
      is the existence of the output file afterwards. */
  function LinkStage(job: Job, sources: seq<string>, options: string, linkOptions: string, d: Disk): StageRun
  {
    var result := ResultPath(job.base);
    var run := job.tools(LinkCommand(job.home, options, linkOptions, sources, result));
    var d1 := AfterRun(d[WorkDir(job.base) + "/out.log" := File(Chars(""))], WorkDir(job.base) + "/out.log", result, run);
    StageRun(result in d1, Console(run), d1)
  }

  /** `optimize_wasm`: open `opt.log`, move the output to `unopt.wasm`, run
      wasm-opt back into the output; success is the absence of an
      exception. */
  function OptimizeStage(job: Job, opt: string, d: Disk): StageRun
    requires ResultPath(job.base) in d
  {
    var result, dir := ResultPath(job.base), WorkDir(job.base);
    var unopt, log := dir + "/unopt.wasm", dir + "/opt.log";
    var d1 := d[log := File(Chars(""))];
    var d2 := (d1 - {result})[unopt := d1[result]];
    var run := job.tools(OptimizeCommand(opt, result, unopt));
    StageRun(!run.threw, Console(run), AfterRun(d2, log, result, run))
  }

  /** `clean_wasm`: run hook-cleaner on the output in place, capturing its
      output in `cleanout.log`; success is the absence of an exception. */
  function CleanStage(job: Job, d: Disk): StageRun
  {
    var result, log := ResultPath(job.base), WorkDir(job.base) + "/cleanout.log";
    var run := job.tools(CleanCommand(result));
    StageRun(!run.threw, Console(run), AfterRun(d[log := File(Chars(""))], log, result, run))
  }

  // ---------------------------------------------------------------------
  // The pipeline, as functions

  /** Where the pipeline stands: still going, or stopped with the message
      `complete` will be given. */
  datatype Phase =
    | Going(tasks: seq<Task>, disk: Disk)
    | Stopped(tasks: seq<Task>, disk: Disk, message: string)

  /** One stage run after its task was pushed: the task is filled in, and a
      failure stops the pipeline with `error`. */
  function Step(p: Phase, name: string, error: string, s: StageRun): Phase
  {
    var tasks := p.tasks + [Done(name, s.ok, s.console)];
    if s.ok then Going(tasks, s.disk) else Stopped(tasks, s.disk, error)
  }

  function LinkPhase(job: Job, sources: seq<string>, options: string, linkOptions: string, d: Disk): (p: Phase)
    ensures p.Going? ==> ResultPath(job.base) in p.disk
  {
    Step(Going([], d), "building wasm", "Build error", LinkStage(job, sources, options, linkOptions, d))
  }

  /** The optimisation stage runs only when the options name a level. */
  function OptimizePhase(job: Job, options: string, p: Phase): Phase
    requires p.Going? ==> ResultPath(job.base) in p.disk
  {
    var opt := OptimizationOptions(options);
    if p.Stopped? || opt == "" then p
    else Step(p, "optimizing wasm", "Optimization error", OptimizeStage(job, opt, p.disk))
  }

  /** The cleaning stage runs only when `strip` is set. */
  function CleanPhase(job: Job, strip: bool, p: Phase): Phase
  {
    if p.Stopped? || !strip then p
    else Step(p, "cleaning wasm", "Post-build error", CleanStage(job, p.disk))
  }

  /** The end of the pipeline: a stopped pipeline completes with its
      message; a finished one reads the output (an exception when it is
      missing), stores it and completes with "Success". */
  function Deliver(job: Job, compress: bool, p: Phase): Finished
  {
    var dir, result := WorkDir(job.base), ResultPath(job.base);
    match p
    case Stopped(tasks, d, message) => Finish(d, dir, result, false, message, tasks, NoOutput)
    case Going(tasks, d) =>
      match ReadOf(d, result)
      case None => Finished(Threw, d)
      case Some(content) => Finish(d, dir, result, true, "Success", tasks, Encoded(content, compress))
  }

  /** The phase the three stages leave behind. */
  function Staged(job: Job, req: Request, sources: seq<string>, options: string, d: Disk): Phase
  {
    var linked := LinkPhase(job, sources, options, OrEmpty(req.linkOptions), d);
    CleanPhase(job, req.strip == Some(true), OptimizePhase(job, options, linked))
  }

  /** The stages after validation. */
  function Stages(job: Job, req: Request, sources: seq<string>, options: string, d: Disk): Finished
  {
    Deliver(job, req.compress == Some(true), Staged(job, req, sources, options, d))
  }

  /** `build_project(req, base)`, with the server's working directory
      `home`, the tools, and the disk it starts on. */
  function Build(req: Request, base: string, home: string, tools: Tools, d: Disk): Finished
  {
    var job := Job(home, base, tools);
    var dir, result := WorkDir(base), ResultPath(base);
    if req.output != "wasm" then Finish(d, dir, result, false, "Invalid output type " + req.output, [], NoOutput)
    else if req.files == [] then Finish(d, dir, result, false, "No source files", [], NoOutput)
    else
      var d1 := WithWorkDir(d, dir);
      match Admit(req.files, dir, d1)
      case Rejected(message, d2) => Finish(d2, dir, result, false, message, [], NoOutput)
      case Admitted(sources, options, d2) => Stages(job, req, sources, options, d2)
  }

  // ---------------------------------------------------------------------
  // What the driver promises

  /** The tasks a build that passes validation will push, in order. */
  function Plan(options: string, strip: bool): seq<string>
  {
    ["building wasm"]
      + (if OptimizationOptions(options) != "" then ["optimizing wasm"] else [])
      + (if strip then ["cleaning wasm"] else [])
  }

  /** The message a failed stage completes with. */
  function StageError(name: string): string
  {
    if name == "building wasm" then "Build error"
    else if name == "optimizing wasm" then "Optimization error"
    else "Post-build error"
  }

  /** `p` pushed exactly the tasks `steps`, each one finished: a going
      pipeline with every task successful, a stopped one with its last task
      failed, all earlier ones successful, and that stage's message. */
  predicate Ran(p: Phase, steps: seq<string>)
  {
    && Names(p.tasks) == steps
    && (forall i :: 0 <= i < |p.tasks| ==> p.tasks[i].console.Some? && p.tasks[i].success.Some?)
    && (p.Going? ==> forall i :: 0 <= i < |p.tasks| ==> p.tasks[i].success == Some(true))
    && (p.Stopped? ==>
          && p.tasks != []
          && (forall i :: 0 <= i < |p.tasks| - 1 ==> p.tasks[i].success == Some(true))
          && p.tasks[|p.tasks| - 1].success == Some(false)
          && p.message == StageError(p.tasks[|p.tasks| - 1].name))
  }

  /** `p` ran a prefix of `plan`, and all of it when still going. */
  predicate FollowsPlan(p: Phase, plan: seq<string>)
  {
    && |p.tasks| <= |plan|
    && Ran(p, plan[..|p.tasks|])
    && (p.Going? ==> |p.tasks| == |plan|)
  }

  lemma NamesSnoc(tasks: seq<Task>, t: Task)
    ensures Names(tasks + [t]) == Names(tasks) + [t.name]
  {
  }

  /** One more stage extends what was run by its name. */
  lemma StepRan(p: Phase, steps: seq<string>, name: string, s: StageRun)
    requires p.Going? && Ran(p, steps)
    ensures Ran(Step(p, name, StageError(name), s), steps + [name])
  {
    NamesSnoc(p.tasks, Done(name, s.ok, s.console));
  }

  lemma LinkRan(job: Job, sources: seq<string>, options: string, linkOptions: string, d: Disk)
    ensures Ran(LinkPhase(job, sources, options, linkOptions, d), ["building wasm"])
  {
    var p0 := Going([], d);
    assert Ran(p0, []);
    StepRan(p0, [], "building wasm", LinkStage(job, sources, options, linkOptions, d));
  }

  lemma OptimizeRan(job: Job, options: string, p: Phase, steps: seq<string>)
    requires p.Going? ==> ResultPath(job.base) in p.disk
    requires Ran(p, steps)
    ensures Ran(OptimizePhase(job, options, p),
                if p.Going? && OptimizationOptions(options) != "" then steps + ["optimizing wasm"] else steps)
  {
    var opt := OptimizationOptions(options);
    if p.Going? && opt != "" {
      StepRan(p, steps, "optimizing wasm", OptimizeStage(job, opt, p.disk));
    }
  }

  lemma CleanRan(job: Job, strip: bool, p: Phase, steps: seq<string>)
    requires Ran(p, steps)
    ensures Ran(CleanPhase(job, strip, p), if p.Going? && strip then steps + ["cleaning wasm"] else steps)
  {
    if p.Going? && strip {
      StepRan(p, steps, "cleaning wasm", CleanStage(job, p.disk));
    }
  }

  /** The steps run form a prefix of the plan, all of it when the pipeline
      is still going. */
  lemma PlanPrefix(options: string, strip: bool, linked: bool, optimized: bool, s3: seq<string>)
    requires optimized ==> linked
    requires s3 == ["building wasm"]
      + (if linked && OptimizationOptions(options) != "" then ["optimizing wasm"] else [])
      + (if optimized && strip then ["cleaning wasm"] else [])
    ensures |s3| <= |Plan(options, strip)| && Plan(options, strip)[..|s3|] == s3
    ensures optimized ==> s3 == Plan(options, strip)
  {
  }

  /** After a link phase that ran its one task, the remaining stages run
      a prefix of the plan, all of it when the pipeline is still going. */
  lemma RestFollowsPlan(job: Job, options: string, strip: bool, p1: Phase)
    requires p1.Going? ==> ResultPath(job.base) in p1.disk
    requires Ran(p1, ["building wasm"])
    ensures FollowsPlan(CleanPhase(job, strip, OptimizePhase(job, options, p1)), Plan(options, strip))
  {
    var opt := OptimizationOptions(options);
    var p2 := OptimizePhase(job, options, p1);
    var s2 := if p1.Going? && opt != "" then ["building wasm", "optimizing wasm"] else ["building wasm"];
    OptimizeRan(job, options, p1, ["building wasm"]);
    var s3 := if p2.Going? && strip then s2 + ["cleaning wasm"] else s2;
    CleanRan(job, strip, p2, s2);
    PlanPrefix(options, strip, p1.Going?, p2.Going?, s3);
  }

  /** The stages run in the order of the plan, each only after the previous
      one succeeded; the first failure stops the pipeline with its stage's
      message and no later task is pushed. */
  lemma PipelineFollowsPlan(job: Job, sources: seq<string>, options: string, linkOptions: string, strip: bool, d: Disk)
    ensures FollowsPlan(CleanPhase(job, strip, OptimizePhase(job, options, LinkPhase(job, sources, options, linkOptions, d))),
                        Plan(options, strip))
  {
    LinkRan(job, sources, options, linkOptions, d);
    RestFollowsPlan(job, options, strip, LinkPhase(job, sources, options, linkOptions, d));
  }

  /** Validation runs in order, and the first failure decides the message:
      the output kind, then the file list, then each file in turn. The first
      two rejections come before the workspace is created, so when it does
      not already exist, `complete`'s `rmSync` throws and nothing changes on
      disk. */
  lemma ValidationOrder(req: Request, base: string, home: string, tools: Tools, d: Disk)
    ensures var f := Build(req, base, home, tools, d);
      && (req.output != "wasm" ==>
            f.outcome.Returned? ==> f.outcome.response == Response(false, "Invalid output type " + req.output, NoOutput, []))
      && (req.output == "wasm" && req.files == [] ==>
            f.outcome.Returned? ==> f.outcome.response == Response(false, "No source files", NoOutput, []))
      && ((req.output != "wasm" || req.files == []) && WorkDir(base) !in d ==> f == Finished(Threw, d))
      && ((req.output != "wasm" || req.files == []) ==>
            (f.outcome.Returned? <==> WorkDir(base) in d && NoFolderAt(d, ResultPath(base))))
      && (req.output == "wasm" && req.files != [] && FirstFault(req.files, 0).Some? ==>
            && (f.outcome.Returned? <==> NoFolderAt(d, ResultPath(base)))
            && (f.outcome.Returned? ==>
                  f.outcome.response == Response(false, Fault(req.files, FirstFault(req.files, 0).value).value, NoOutput, [])))
  {
    var dir := WorkDir(base);
    var d1 := WithWorkDir(d, dir);
    AdmitIsExpected(req.files, dir, d1);
    OutputOutsideWorkspace(base, ".wasm");
    AdmitKeeps(req.files, dir, d1);
    AdmitStaysInside(req.files, dir, dir, d1);
  }

  /** A request that passes validation runs the stages on the disk the
      validation loop left. */
  lemma BuildAdmitted(req: Request, base: string, home: string, tools: Tools, d: Disk)
    requires req.output == "wasm" && req.files != []
    requires var dir := WorkDir(base); Admit(req.files, dir, WithWorkDir(d, dir)).Admitted?
    ensures var dir := WorkDir(base); var a := Admit(req.files, dir, WithWorkDir(d, dir));
      var job := Job(home, base, tools);
      Build(req, base, home, tools, d)
        == Deliver(job, req.compress == Some(true),
             CleanPhase(job, req.strip == Some(true),
               OptimizePhase(job, a.options, LinkPhase(job, a.sources, a.options, OrEmpty(req.linkOptions), a.disk))))
  {
  }

  /** What a build's response says about the stages, given the plan it
      followed: its tasks are a prefix of the plan; it is "Success" with an
      output exactly when every planned stage passed; otherwise it carries
      the message of the first failed stage, which is its last task, and no
      output. */
  predicate Reported(f: Finished, plan: seq<string>, compress: bool)
  {
    f.outcome.Returned? ==>
      var r := f.outcome.response;
      && |r.tasks| <= |plan| && Names(r.tasks) == plan[..|r.tasks|]
      && (r.success <==> r.message == "Success")
      && (r.success <==> r.output.Encoded?)
      && (r.success ==> Names(r.tasks) == plan && forall i :: 0 <= i < |r.tasks| ==> r.tasks[i].success == Some(true))
      && (r.output.Encoded? ==> r.output.deflated == compress)
      && (!r.success ==>
            && r.tasks != []
            && (forall i :: 0 <= i < |r.tasks| - 1 ==> r.tasks[i].success == Some(true))
            && r.tasks[|r.tasks| - 1].success == Some(false)
            && r.message == StageError(r.tasks[|r.tasks| - 1].name))
  }

  /** The response of a pipeline that followed `plan`. */
  lemma DeliverReport(job: Job, compress: bool, p: Phase, plan: seq<string>)
    requires FollowsPlan(p, plan)
    ensures Reported(Deliver(job, compress, p), plan, compress)
  {
    if p.Stopped? {
      assert StageError(p.tasks[|p.tasks| - 1].name) != "Success";
    }
  }

  /** A build that passes validation pushes the tasks of its plan in order
      and stops at the first failure; the response is "Success" with an
      output exactly when every stage passed, and otherwise carries the
      message of the first failed stage and no output. */
  lemma BuildReport(req: Request, base: string, home: string, tools: Tools, d: Disk)
    requires req.output == "wasm" && req.files != [] && FirstFault(req.files, 0).None?
    ensures Reported(Build(req, base, home, tools, d),
                     Plan(OptionsBefore(req.files, |req.files|), req.strip == Some(true)),
                     req.compress == Some(true))
  {
    var dir := WorkDir(base);
    var d1 := WithWorkDir(d, dir);
    AdmitIsExpected(req.files, dir, d1);
    var a := Admit(req.files, dir, d1);
    var job := Job(home, base, tools);
    var strip, compress := req.strip == Some(true), req.compress == Some(true);
    var p := CleanPhase(job, strip, OptimizePhase(job, a.options, LinkPhase(job, a.sources, a.options, OrEmpty(req.linkOptions), a.disk)));
    PipelineFollowsPlan(job, a.sources, a.options, OrEmpty(req.linkOptions), strip, a.disk);
    BuildAdmitted(req, base, home, tools, d);
    DeliverReport(job, compress, p, Plan(a.options, strip));
  }

  /** The workspace exists and no directory sits at the output file, so
      `complete` can return. */
  predicate Intact(job: Job, d: Disk)
  {
    WorkDir(job.base) in d && NoFolderAt(d, ResultPath(job.base))
  }

  /** A tool run with its log in the workspace keeps the disk intact. */
  lemma RunIntact(job: Job, d: Disk, log: string, run: ToolRun)
    requires Intact(job, d)
    ensures Intact(job, AfterRun(d[WorkDir(job.base) + "/" + log := File(Chars(""))],
                                 WorkDir(job.base) + "/" + log, ResultPath(job.base), run))
  {
    OutputOutsideWorkspace(job.base, ".wasm");
    assert |WorkDir(job.base) + "/" + log| > |WorkDir(job.base)|;
  }

  /** The stages keep the disk intact: they never remove the workspace and
      leave only a file, if anything, at the output. */
  lemma StagedIntact(job: Job, req: Request, sources: seq<string>, options: string, d: Disk)
    requires Intact(job, d)
    ensures Intact(job, Staged(job, req, sources, options, d).disk)
  {
    var p1 := LinkPhase(job, sources, options, OrEmpty(req.linkOptions), d);
    LinkIntact(job, sources, options, OrEmpty(req.linkOptions), d);
    var p2 := OptimizePhase(job, options, p1);
    OptimizeIntact(job, options, p1);
    CleanIntact(job, req.strip == Some(true), p2);
    assert Staged(job, req, sources, options, d) == CleanPhase(job, req.strip == Some(true), p2);
  }

  lemma LinkIntact(job: Job, sources: seq<string>, options: string, linkOptions: string, d: Disk)
    requires Intact(job, d)
    ensures Intact(job, LinkPhase(job, sources, options, linkOptions, d).disk)
  {
    var result := ResultPath(job.base);
    RunIntact(job, d, "out.log", job.tools(LinkCommand(job.home, options, linkOptions, sources, result)));
  }

  lemma CleanIntact(job: Job, strip: bool, p: Phase)
    requires Intact(job, p.disk)
    ensures Intact(job, CleanPhase(job, strip, p).disk)
  {
    if p.Going? && strip {
      RunIntact(job, p.disk, "cleanout.log", job.tools(CleanCommand(ResultPath(job.base))));
    }
  }

  /** Optimising moves the output away and lets wasm-opt write it back. */
  lemma OptimizeIntact(job: Job, options: string, p: Phase)
    requires p.Going? ==> ResultPath(job.base) in p.disk
    requires Intact(job, p.disk)
    ensures Intact(job, OptimizePhase(job, options, p).disk)
  {
    var opt := OptimizationOptions(options);
    if p.Going? && opt != "" {
      var result, dir := ResultPath(job.base), WorkDir(job.base);
      OutputOutsideWorkspace(job.base, ".wasm");
      var unopt, log := dir + "/unopt.wasm", dir + "/opt.log";
      assert |unopt| > |dir| && |log| > |dir|;
      var d1 := p.disk[log := File(Chars(""))];
      var d2 := (d1 - {result})[unopt := d1[result]];
      assert dir in d2 && result !in d2;
      var run := job.tools(OptimizeCommand(opt, result, unopt));
      assert OptimizePhase(job, options, p).disk == AfterRun(d2, log, result, run);
    }
  }

  /** On an intact disk, `Deliver` throws exactly when every stage passed
      but the output file is missing, and then leaves the disk, workspace
      included, as the stages left it. */
  lemma DeliverThrows(job: Job, compress: bool, p: Phase)
    requires Intact(job, p.disk)
    ensures var f := Deliver(job, compress, p);
      && (f.outcome.Threw? <==> p.Going? && ResultPath(job.base) !in p.disk)
      && (f.outcome.Threw? ==> f.disk == p.disk)
  {
    OutputOutsideWorkspace(job.base, ".wasm");
  }

  /** When answers are given: for a request that passes validation, and no
      directory at `<base>.wasm`, a stopped stage and a finished pipeline
      whose output can be read both return; the build throws only when
      every stage passed but the output file is missing, and then leaves
      the workspace behind. */
  lemma BuildAnswers(req: Request, base: string, home: string, tools: Tools, d: Disk)
    requires req.output == "wasm" && req.files != [] && FirstFault(req.files, 0).None?
    ensures var dir := WorkDir(base);
      var a := Admit(req.files, dir, WithWorkDir(d, dir));
      && a.Admitted?
      && (NoFolderAt(d, ResultPath(base)) ==>
            var p := Staged(Job(home, base, tools), req, a.sources, a.options, a.disk);
            var f := Build(req, base, home, tools, d);
            && (f.outcome.Threw? <==> p.Going? && ResultPath(base) !in p.disk)
            && (f.outcome.Threw? ==> f.disk == p.disk && dir in f.disk))
  {
    var dir, result := WorkDir(base), ResultPath(base);
    var d1 := WithWorkDir(d, dir);
    AdmitIsExpected(req.files, dir, d1);
    var a := Admit(req.files, dir, d1);
    var job := Job(home, base, tools);
    if NoFolderAt(d, result) {
      OutputOutsideWorkspace(base, ".wasm");
      AdmitKeeps(req.files, dir, d1);
      AdmitStaysInside(req.files, dir, dir, d1);
      assert Intact(job, a.disk);
      StagedIntact(job, req, a.sources, a.options, a.disk);
      DeliverThrows(job, req.compress == Some(true), Staged(job, req, a.sources, a.options, a.disk));
    }
  }

  lemma RunStaysInside(d: Disk, base: string, log: string, run: ToolRun)
    ensures SameOutside(d, AfterRun(d[WorkDir(base) + "/" + log := File(Chars(""))], WorkDir(base) + "/" + log, ResultPath(base), run), WorkDir(base), ResultPath(base))
  {
    InsideDir(WorkDir(base), log);
  }

  lemma LinkStaysInside(job: Job, sources: seq<string>, options: string, linkOptions: string, d: Disk)
    ensures SameOutside(d, LinkPhase(job, sources, options, linkOptions, d).disk, WorkDir(job.base), ResultPath(job.base))
  {
    var result := ResultPath(job.base);
    RunStaysInside(d, job.base, "out.log", job.tools(LinkCommand(job.home, options, linkOptions, sources, result)));
  }

  lemma OptimizeStaysInside(job: Job, options: string, p: Phase)
    requires p.Going? ==> ResultPath(job.base) in p.disk
    ensures SameOutside(p.disk, OptimizePhase(job, options, p).disk, WorkDir(job.base), ResultPath(job.base))
  {
    var opt := OptimizationOptions(options);
    if p.Going? && opt != "" {
      var result, dir := ResultPath(job.base), WorkDir(job.base);
      var unopt, log := dir + "/unopt.wasm", dir + "/opt.log";
      InsideDir(dir, "opt.log");
      InsideDir(dir, "unopt.wasm");
      var d1 := p.disk[log := File(Chars(""))];
      var d2 := (d1 - {result})[unopt := d1[result]];
      assert SameOutside(p.disk, d2, WorkDir(job.base), ResultPath(job.base));
      var run := job.tools(OptimizeCommand(opt, result, unopt));
      assert OptimizePhase(job, options, p).disk == AfterRun(d2, log, result, run);
    }
  }

  lemma CleanStaysInside(job: Job, strip: bool, p: Phase)
    ensures SameOutside(p.disk, CleanPhase(job, strip, p).disk, WorkDir(job.base), ResultPath(job.base))
  {
    if p.Going? && strip {
      RunStaysInside(p.disk, job.base, "cleanout.log", job.tools(CleanCommand(ResultPath(job.base))));
    }
  }

  lemma PipelineStaysInside(job: Job, sources: seq<string>, options: string, linkOptions: string, strip: bool, d: Disk)
    ensures SameOutside(d, CleanPhase(job, strip, OptimizePhase(job, options, LinkPhase(job, sources, options, linkOptions, d))).disk,
                        WorkDir(job.base), ResultPath(job.base))
  {
    var p1 := LinkPhase(job, sources, options, linkOptions, d);
    var p2 := OptimizePhase(job, options, p1);
    LinkStaysInside(job, sources, options, linkOptions, d);
    OptimizeStaysInside(job, options, p1);
    CleanStaysInside(job, strip, p2);
    SameOutsideTrans(d, p1.disk, p2.disk, WorkDir(job.base), ResultPath(job.base));
    SameOutsideTrans(d, p2.disk, CleanPhase(job, strip, p2).disk, WorkDir(job.base), ResultPath(job.base));
  }

  /** What `Deliver` returns, for a pipeline that stayed inside the
      workspace since the disk `d0`. */
  lemma DeliverCleansUp(job: Job, compress: bool, p: Phase, d0: Disk)
    requires SameOutside(d0, p.disk, WorkDir(job.base), ResultPath(job.base))
    ensures CleanedUp(Deliver(job, compress, p), d0, WorkDir(job.base), ResultPath(job.base))
  {
  }

  /** Cleanup: a build that returns leaves the rest of the disk exactly as
      it found it, with the workspace and the output file gone. */
  lemma ReturnedCleansUp(req: Request, base: string, home: string, tools: Tools, d: Disk)
    ensures CleanedUp(Build(req, base, home, tools, d), d, WorkDir(base), ResultPath(base))
  {
    var dir := WorkDir(base);
    var d1 := WithWorkDir(d, dir);
    assert SameOutside(d, d1, WorkDir(base), ResultPath(base));
    if req.output != "wasm" || req.files == [] {
      FinishCleansUp(d, d, dir, ResultPath(base), false,
                     if req.output != "wasm" then "Invalid output type " + req.output else "No source files", [], NoOutput);
    } else {
      var a := Admit(req.files, dir, d1);
      AdmitStaysInside(req.files, dir, ResultPath(base), d1);
      SameOutsideTrans(d, d1, a.disk, WorkDir(base), ResultPath(base));
      if a.Admitted? {
        var job := Job(home, base, tools);
        var strip, compress := req.strip == Some(true), req.compress == Some(true);
        var p := CleanPhase(job, strip, OptimizePhase(job, a.options, LinkPhase(job, a.sources, a.options, OrEmpty(req.linkOptions), a.disk)));
        PipelineStaysInside(job, a.sources, a.options, OrEmpty(req.linkOptions), strip, a.disk);
        SameOutsideTrans(d, a.disk, p.disk, WorkDir(base), ResultPath(base));
        BuildAdmitted(req, base, home, tools, d);
        DeliverCleansUp(job, compress, p, d);
      } else {
        FinishCleansUp(d, a.disk, dir, ResultPath(base), false, a.message, [], NoOutput);
      }
    }
  }

  /** The compiler command takes nothing from the request except the file
      paths and which allow-listed flags the two option strings match: two
      requests that agree on those get the same command. */
  lemma LinkCommandDependsOnlyOnMatches(home: string, o1: string, o2: string, l1: string, l2: string,
                                         sources: seq<string>, output: string)
    requires forall f :: f in ClangFlags ==> (Keeps(Clang, o1, f) <==> Keeps(Clang, o2, f))
    requires forall f :: f in LinkFlags ==> (Contains(l1, f) <==> Contains(l2, f))
    ensures LinkCommand(home, o1, l1, sources, output) == LinkCommand(home, o2, l2, sources, output)
  {
    KeptDependsOnlyOnMatches(Clang, o1, o2, ClangFlags);
    KeptDependsOnlyOnMatches(Link, l1, l2, LinkFlags);
    LldOptionsSpec(l1);
    LldOptionsSpec(l2);
  }

  // ---------------------------------------------------------------------
  // The driver, as methods over the file system and the record

  /** `link_c_files`, filling in the task pushed last. */
  method LinkCFiles(br: BuildResult, fs: FileSystem, job: Job, sources: seq<string>, options: string, linkOptions: string)
    returns (ok: bool)
    requires br.tasks != []
    modifies br, fs
    ensures var s := LinkStage(job, sources, options, linkOptions, old(fs.disk));
      && ok == s.ok && fs.disk == s.disk
      && br.tasks == old(br.tasks)[..|old(br.tasks)| - 1] + [Done(old(br.tasks)[|old(br.tasks)| - 1].name, s.ok, s.console)]
    ensures br.output == old(br.output)
  {
    OutputOutsideWorkspace(job.base, ".wasm");
    var cwd, output := WorkDir(job.base), ResultPath(job.base);
    var cmd := LinkCommand(job.home, options, linkOptions, sources, output);
    fs.Open(cwd + "/out.log");
    var console, _ := fs.Run(job.tools, cmd, cwd + "/out.log", output);
    ok := fs.Exists(output);
    br.Settle(ok, console);
  }

  /** `optimize_wasm`, filling in the task pushed last. */
  method OptimizeWasm(br: BuildResult, fs: FileSystem, job: Job, opt: string) returns (ok: bool)
    requires br.tasks != [] && ResultPath(job.base) in fs.disk
    modifies br, fs
    ensures var s := OptimizeStage(job, opt, old(fs.disk));
      && ok == s.ok && fs.disk == s.disk
      && br.tasks == old(br.tasks)[..|old(br.tasks)| - 1] + [Done(old(br.tasks)[|old(br.tasks)| - 1].name, s.ok, s.console)]
    ensures br.output == old(br.output)
  {
    OutputOutsideWorkspace(job.base, ".wasm");
    var cwd, inplace := WorkDir(job.base), ResultPath(job.base);
    var unopt := cwd + "/unopt.wasm";
    var cmd := OptimizeCommand(opt, inplace, unopt);
    fs.Open(cwd + "/opt.log");
    fs.Rename(inplace, unopt);
    var console, threw := fs.Run(job.tools, cmd, cwd + "/opt.log", inplace);
    ok := !threw;
    br.Settle(ok, console);
  }

  /** `clean_wasm`, filling in the task pushed last. */
  method CleanWasm(br: BuildResult, fs: FileSystem, job: Job) returns (ok: bool)
    requires br.tasks != []
    modifies br, fs
    ensures var s := CleanStage(job, old(fs.disk));
      && ok == s.ok && fs.disk == s.disk
      && br.tasks == old(br.tasks)[..|old(br.tasks)| - 1] + [Done(old(br.tasks)[|old(br.tasks)| - 1].name, s.ok, s.console)]
    ensures br.output == old(br.output)
  {
    OutputOutsideWorkspace(job.base, ".wasm");
    var cwd, inplace := WorkDir(job.base), ResultPath(job.base);
    fs.Open(cwd + "/cleanout.log");
    var console, threw := fs.Run(job.tools, CleanCommand(inplace), cwd + "/cleanout.log", inplace);
    ok := !threw;
    br.Settle(ok, console);
  }

  /** `build_project`. */
  method BuildProject(req: Request, base: string, home: string, tools: Tools, fs: FileSystem) returns (out: Outcome)
    modifies fs
    ensures Finished(out, fs.disk) == Build(req, base, home, tools, old(fs.disk))
  {
    var job := Job(home, base, tools);
    var br := new BuildResult();
    var dir, result := WorkDir(base), ResultPath(base);
    if req.output != "wasm" {
      out := Complete(br, fs, dir, result, false, "Invalid output type " + req.output);
      return;
    }
    if |req.files| == 0 {
      out := Complete(br, fs, dir, result, false, "No source files");
      return;
    }
    if !fs.Exists(dir) {
      fs.MkDir(dir);
    }
    ghost var d1 := fs.disk;
    var ok, sources, options, message := AdmitFiles(req.files, dir, fs);
    if !ok {
      out := Complete(br, fs, dir, result, false, message);
      return;
    }
    out := RunStages(br, fs, job, req, sources, options);
  }

  /** A stopped pipeline runs no further stage. */
  lemma StoppedStays(job: Job, options: string, strip: bool, p: Phase)
    requires p.Stopped?
    ensures CleanPhase(job, strip, OptimizePhase(job, options, p)) == p
  {
  }

  /** Pushing `'building wasm'` and linking. */
  method LinkStep(br: BuildResult, fs: FileSystem, job: Job, sources: seq<string>, options: string, linkOptions: string)
    returns (ok: bool)
    requires br.tasks == [] && br.output == NoOutput
    modifies br, fs
    ensures var p := LinkPhase(job, sources, options, linkOptions, old(fs.disk));
      br.tasks == p.tasks && fs.disk == p.disk && ok == p.Going? && (!ok ==> p.message == "Build error")
    ensures br.output == NoOutput
  {
    br.Begin("building wasm");
    ok := LinkCFiles(br, fs, job, sources, options, linkOptions);
  }

  /** Pushing `'optimizing wasm'` and optimising, when the options name a
      level. */
  method OptimizeStep(br: BuildResult, fs: FileSystem, job: Job, options: string, ghost p: Phase)
    returns (ok: bool)
    requires p.Going? && br.tasks == p.tasks && fs.disk == p.disk && ResultPath(job.base) in p.disk
    modifies br, fs
    ensures var q := OptimizePhase(job, options, p);
      br.tasks == q.tasks && fs.disk == q.disk && ok == q.Going? && (!ok ==> q.message == "Optimization error")
    ensures br.output == old(br.output)
  {
    var opt := GetOptimizationOptions(options);
    ok := true;
    if opt != "" {
      br.Begin("optimizing wasm");
      ok := OptimizeWasm(br, fs, job, opt);
    }
  }

  /** Pushing `'cleaning wasm'` and cleaning, when `strip` is set. */
  method CleanStep(br: BuildResult, fs: FileSystem, job: Job, strip: bool, ghost p: Phase)
    returns (ok: bool)
    requires p.Going? && br.tasks == p.tasks && fs.disk == p.disk
    modifies br, fs
    ensures var q := CleanPhase(job, strip, p);
      br.tasks == q.tasks && fs.disk == q.disk && ok == q.Going? && (!ok ==> q.message == "Post-build error")
    ensures br.output == old(br.output)
  {
    ok := true;
    if strip {
      br.Begin("cleaning wasm");
      ok := CleanWasm(br, fs, job);
    }
  }

  /** `build_project` after the validation loop: push each task, run its
      stage, stop at the first failure; then store the output. */
  method RunStages(br: BuildResult, fs: FileSystem, job: Job, req: Request, sources: seq<string>, options: string)
    returns (out: Outcome)
    requires br.tasks == [] && br.output == NoOutput
    modifies br, fs
    ensures Finished(out, fs.disk) == Stages(job, req, sources, options, old(fs.disk))
  {
    var dir, result := WorkDir(job.base), ResultPath(job.base);
    var linkOptions := OrEmpty(req.linkOptions);
    var compress, strip := req.compress == Some(true), req.strip == Some(true);
    ghost var p1 := LinkPhase(job, sources, options, linkOptions, old(fs.disk));
    var ok := LinkStep(br, fs, job, sources, options, linkOptions);
    if !ok {
      StoppedStays(job, options, strip, p1);
      out := Complete(br, fs, dir, result, false, "Build error");
      return;
    }
    ghost var p2 := OptimizePhase(job, options, p1);
    ok := OptimizeStep(br, fs, job, options, p1);
    if !ok {
      assert CleanPhase(job, strip, p2) == p2;
      out := Complete(br, fs, dir, result, false, "Optimization error");
      return;
    }
    ghost var p3 := CleanPhase(job, strip, p2);
    ok := CleanStep(br, fs, job, strip, p2);
    if !ok {
      out := Complete(br, fs, dir, result, false, "Post-build error");
      return;
    }
    var content := fs.Read(result);
    if content.None? {
      return Threw;
    }
    br.SetOutput(Encoded(content.value, compress));
    out := Complete(br, fs, dir, result, true, "Success");
  }
}
