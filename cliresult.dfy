/** What the command-line clients do with the server's answer
    (c2wasm-cli/src/build.ts:126-213, repeated in
    js2wasm-cli/src/build.ts:120-206): normalise it, collect the consoles of
    the failed tasks, and write either the binary or a log. */
module CliResult {

  import opened Wrappers
  import opened Text
  import opened Workspace
  import Pipeline

  /** The response as the client receives it. Its fields are whatever the
      JSON held; only `=== true` counts as success. */
  datatype Wire = Wire(success: Option<bool>, message: string, output: Pipeline.Payload, tasks: seq<Pipeline.Task>)

  /** A task after normalisation: `{ name, console, success: success === true }`. */
  datatype Task = Task(name: string, console: Option<string>, success: bool)

  /** The client's `BuildResult`. */
  datatype BuildResult = BuildResult(success: bool, message: string, output: Pipeline.Payload, tasks: seq<Task>)

  /** The server's record as it arrives: every field present, as sent. */
  function Sent(r: Pipeline.Response): (w: Wire)
    ensures w.success == Some(r.success) && w.output == r.output && w.tasks == r.tasks
  {
    Wire(Some(r.success), r.message, r.output, r.tasks)
  }

  function NormalizeTask(t: Pipeline.Task): (r: Task)
    ensures r.name == t.name && r.console == t.console
    ensures r.success <==> t.success == Some(true)
  {
    Task(t.name, t.console, t.success == Some(true))
  }

  /** The normalisation in `buildWasm`: success only when it is exactly
      `true`, the output kept only then, every task normalised in order. */
  function Normalize(w: Wire): (r: BuildResult)
    ensures r.success <==> w.success == Some(true)
    ensures r.message == w.message
    ensures r.success ==> r.output == w.output
    ensures !r.success ==> r.output == Pipeline.NoOutput
    ensures |r.tasks| == |w.tasks|
    ensures forall i :: 0 <= i < |w.tasks| ==> r.tasks[i] == NormalizeTask(w.tasks[i])
  {
    var tasks := seq(|w.tasks|, i requires 0 <= i < |w.tasks| => NormalizeTask(w.tasks[i]));
    var success := w.success == Some(true);
    BuildResult(success, w.message, if success then w.output else Pipeline.NoOutput, tasks)
  }

  /** A response that went through the wire keeps the server's verdict, and
      a task counts as passed exactly when the server set it to `true`. */
  lemma NormalizeSent(r: Pipeline.Response)
    ensures Normalize(Sent(r)).success == r.success
    ensures r.success ==> Normalize(Sent(r)).output == r.output
    ensures forall i :: 0 <= i < |r.tasks| ==>
      (Normalize(Sent(r)).tasks[i].success <==> r.tasks[i].success == Some(true))
  {
  }

  /** The console texts `parseBuildResult` collects: one per failed task, in
      task order; a missing console joins as `""`. */
  function FailedConsoles(tasks: seq<Task>): (r: seq<string>)
    ensures |r| <= |tasks|
  {
    if tasks == [] then []
    else
      var last := tasks[|tasks| - 1];
      FailedConsoles(tasks[..|tasks| - 1]) + (if last.success then [] else [Pipeline.OrEmpty(last.console)])
  }

  /** Collecting over two lists one after the other. */
  lemma {:induction false} FailedConsolesAppend(a: seq<Task>, b: seq<Task>)
    ensures FailedConsoles(a + b) == FailedConsoles(a) + FailedConsoles(b)
    decreases |b|
  {
    if b == [] {
      assert a + b == a;
    } else {
      var b' := b[..|b| - 1];
      assert (a + b)[..|a + b| - 1] == a + b';
      FailedConsolesAppend(a, b');
    }
  }

  /** Nothing is collected exactly when every task passed. */
  lemma {:induction false} NoFailureIff(tasks: seq<Task>)
    ensures FailedConsoles(tasks) == [] <==> forall i :: 0 <= i < |tasks| ==> tasks[i].success
  {
    if tasks != [] {
      var front := tasks[..|tasks| - 1];
      NoFailureIff(front);
      assert forall i :: 0 <= i < |front| ==> front[i] == tasks[i];
    }
  }

  /** The collected texts are exactly the consoles of failed tasks. */
  lemma {:induction false} FailedConsolesMembers(tasks: seq<Task>, x: string)
    ensures x in FailedConsoles(tasks) <==>
      exists i :: 0 <= i < |tasks| && !tasks[i].success && Pipeline.OrEmpty(tasks[i].console) == x
  {
    if tasks != [] {
      var front := tasks[..|tasks| - 1];
      FailedConsolesMembers(front, x);
      assert forall i :: 0 <= i < |front| ==> front[i] == tasks[i];
      if x in FailedConsoles(tasks) && x !in FailedConsoles(front) {
        assert !tasks[|tasks| - 1].success && Pipeline.OrEmpty(tasks[|tasks| - 1].console) == x;
      }
    }
  }

  /** A task that passed contributes nothing, wherever it stands. */
  lemma PassedTaskInvisible(a: seq<Task>, t: Task, b: seq<Task>)
    requires t.success
    ensures FailedConsoles(a + [t] + b) == FailedConsoles(a + b)
  {
    FailedConsolesAppend(a + [t], b);
    FailedConsolesAppend(a, [t]);
    FailedConsolesAppend(a, b);
    assert FailedConsoles([t]) == [] by {
      assert [t][..0] == [];
    }
  }

  /** `parseBuildResult(result)`: the consoles of the failed tasks joined by
      newlines, `""` when none failed. */
  method ParseBuildResult(result: BuildResult) returns (text: string)
    ensures text == Join(FailedConsoles(result.tasks), "\n")
  {
    var errorConsole: seq<string> := [];
    var i := 0;
    while i < |result.tasks|
      invariant i <= |result.tasks|
      invariant errorConsole == FailedConsoles(result.tasks[..i])
    {
      var task := result.tasks[i];
      assert result.tasks[..i + 1][..i] == result.tasks[..i];
      if !task.success {
        errorConsole := errorConsole + [Pipeline.OrEmpty(task.console)];
      }
      i := i + 1;
    }
    assert result.tasks[..i] == result.tasks;
    if |errorConsole| > 0 {
      text := Join(errorConsole, "\n");
    } else {
      text := "";
    }
  }

  /** The text is empty exactly when no task failed or a single task failed
      with an empty or missing console. */
  lemma ParsedEmptyIff(tasks: seq<Task>)
    ensures Join(FailedConsoles(tasks), "\n") == "" <==>
      (forall i :: 0 <= i < |tasks| ==> tasks[i].success) || FailedConsoles(tasks) == [""]
  {
    JoinEmptyIff(FailedConsoles(tasks), "\n");
    NoFailureIff(tasks);
  }

  /** So an empty text does not mean that every task passed. */
  lemma EmptyTextDespiteFailure()
    ensures var tasks := [Task("building wasm", None, false)];
      Join(FailedConsoles(tasks), "\n") == "" && !tasks[0].success
  {
    var tasks := [Task("building wasm", None, false)];
    assert tasks[..0] == [];
    assert FailedConsoles(tasks) == [""];
  }

  /** Where `saveFileOrError` writes: `<outDir>/<stem><ext>` for the binary,
      `<outDir>/<stem>.log` for the failure log. */
  function OutputPath(outDir: string, stem: string, ext: string): string
  {
    outDir + "/" + stem + ext
  }

  /** `saveFileOrError(outDir, stem, result)`. On failure it writes the
      collected consoles to the log and throws with the response's message;
      on success it writes the decoded binary, `binary` standing for what
      the decoding produced. */
  method SaveFileOrError(fs: FileSystem, outDir: string, stem: string, ext: string, result: BuildResult, binary: seq<byte>)
    returns (thrown: Option<string>)
    modifies fs
    ensures thrown == if result.success then None else Some(result.message)
    ensures !result.success ==>
      fs.disk == old(fs.disk)[OutputPath(outDir, stem, ".log") := File(Chars(Join(FailedConsoles(result.tasks), "\n")))]
    ensures result.success ==> fs.disk == old(fs.disk)[OutputPath(outDir, stem, ext) := File(Bytes(binary))]
  {
    if !result.success {
      var log := ParseBuildResult(result);
      fs.WriteText(OutputPath(outDir, stem, ".log"), log);
      thrown := Some(result.message);
    } else {
      fs.WriteBytes(OutputPath(outDir, stem, ext), binary);
      thrown := None;
    }
  }

  /** What the end of `buildWasm` leaves behind, from the disk `d0`: with
      no reply, nothing; otherwise `outDir` created when missing, then the
      binary or the log written, and the response's message thrown on
      failure. */
  predicate Saved(d0: Disk, d: Disk, outDir: string, stem: string, ext: string,
                  reply: Option<Wire>, binary: seq<byte>, thrown: Option<string>)
  {
    match reply
    case None => thrown.None? && d == d0
    case Some(w) =>
      var r := Normalize(w);
      var d1 := if outDir in d0 then d0 else d0[outDir := Folder];
      && thrown == (if r.success then None else Some(r.message))
      && d == if r.success then d1[OutputPath(outDir, stem, ext) := File(Bytes(binary))]
              else d1[OutputPath(outDir, stem, ".log") := File(Chars(Join(FailedConsoles(r.tasks), "\n")))]
  }

  /** The end of `buildWasm` once the reply is in: normalise it, create
      `outDir` when it is missing (`fs.mkdir`, whose error is ignored), then
      save. A failed request (`reply` is None) is only reported. */
  method Receive(fs: FileSystem, outDir: string, stem: string, ext: string, reply: Option<Wire>, binary: seq<byte>)
    returns (thrown: Option<string>)
    modifies fs
    ensures Saved(old(fs.disk), fs.disk, outDir, stem, ext, reply, binary, thrown)
  {
    if reply.None? {
      return None;
    }
    var result := Normalize(reply.value);
    if outDir !in fs.disk {
      fs.MkDir(outDir);
    }
    thrown := SaveFileOrError(fs, outDir, stem, ext, result, binary);
  }

  /** After a reply, the binary is where the client looks for it exactly
      when the server said `true`; otherwise the log is there, holding the
      consoles of the failed tasks. */
  lemma SavedOutcome(d0: Disk, d: Disk, outDir: string, stem: string, ext: string,
                     w: Wire, binary: seq<byte>, thrown: Option<string>)
    requires ext != ".log"
    requires Saved(d0, d, outDir, stem, ext, Some(w), binary, thrown)
    ensures thrown.None? <==> w.success == Some(true)
    ensures outDir in d
    ensures w.success == Some(true) ==> d[OutputPath(outDir, stem, ext)] == File(Bytes(binary))
    ensures w.success != Some(true) ==>
      && d[OutputPath(outDir, stem, ".log")] == File(Chars(Join(FailedConsoles(Normalize(w).tasks), "\n")))
      && thrown == Some(w.message)
  {
    var p, l := OutputPath(outDir, stem, ext), OutputPath(outDir, stem, ".log");
    assert outDir != p && outDir != l by {
      assert |outDir| < |p| && |outDir| < |l|;
    }
  }
}
