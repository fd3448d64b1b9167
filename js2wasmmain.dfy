/** The entry point of the JavaScript command-line tool
    (js2wasm-cli/src/main.ts): `validateExportContent`, its own `clean`,
    which refuses a bundle without an acceptable `export { … }` line, and
    the decisions `main` takes on its arguments and paths before handing a
    file to `buildFile`. */
module Js2WasmMain {

  import opened Wrappers
  import opened Text
  import opened Workspace
  import opened Paths
  import LinePatterns
  import Js2WasmCli
  import CliResult

  const HookRequired: string := "Invalid export: Hook is required"
  const OnlyHookAndCallback: string := "Invalid export: Only Hook and Callback are allowed"
  const NoExport: string := "Invalid export: No export found"
  const OnlyFiles: string := "JS2Wasm Can ONLY build files"
  const InputRequired: string := "Input path is required."
  const OutputRequired: string := "Output directory path is required."
  const NotADirectory: string := "Output path must be a directory."

  // ---------------------------------------------------------------------
  // validateExportContent

  /** `.map((word) => word.trim())`. */
  function Trimmed(parts: seq<string>): (r: seq<string>)
    ensures |r| == |parts| && forall i :: 0 <= i < |parts| ==> r[i] == Trim(parts[i])
  {
    seq(|parts|, i requires 0 <= i < |parts| => Trim(parts[i]))
  }

  /** `.filter((word) => word.length > 0)`. */
  function NonEmpty(parts: seq<string>): seq<string>
  {
    if parts == [] then []
    else NonEmpty(parts[..|parts| - 1]) + (if parts[|parts| - 1] != "" then [parts[|parts| - 1]] else [])
  }

  /** The words of the export list: split on commas, trimmed, empty ones
      dropped. */
  function Words(content: string): seq<string>
  {
    NonEmpty(Trimmed(Split(content, ',')))
  }

  predicate Allowed(w: string)
  {
    w == "Hook" || w == "Callback"
  }

  /** `validateExportContent`: the message it throws, if any. The check for
      `Hook` comes first. */
  function ValidateExportContent(content: string): Option<string>
  {
    var words := Words(content);
    if "Hook" !in words then Some(HookRequired)
    else if exists w :: w in words && !Allowed(w) then Some(OnlyHookAndCallback)
    else None
  }

  /** The filter keeps exactly the non-empty parts. */
  lemma {:induction false} NonEmptyMembers(parts: seq<string>)
    ensures forall w :: w in NonEmpty(parts) <==> w in parts && w != ""
  {
    if parts != [] {
      var front := parts[..|parts| - 1];
      NonEmptyMembers(front);
      assert parts == front + [parts[|parts| - 1]];
    }
  }

  /** The filter of two lists one after the other. */
  lemma {:induction false} NonEmptyAppend(a: seq<string>, b: seq<string>)
    ensures NonEmpty(a + b) == NonEmpty(a) + NonEmpty(b)
    decreases |b|
  {
    if b == [] {
      assert a + b == a;
    } else {
      var front := b[..|b| - 1];
      NonEmptyAppend(a, front);
      assert (a + b)[..|a + b| - 1] == a + front;
    }
  }

  /** Splitting at a separator that is present: the pieces of each side. */
  lemma {:induction false} SplitAppend(x: string, c: char, y: string)
    ensures Split(x + [c] + y, c) == Split(x, c) + Split(y, c)
    decreases |x|
  {
    var s := x + [c] + y;
    if c in x {
      var i := FirstOf(x, c);
      var rest := x[i + 1..];
      FirstOfPrefix(x, [c] + y, c);
      assert s == x + ([c] + y);
      assert s[..i] == x[..i];
      assert s[i + 1..] == rest + [c] + y;
      SplitAppend(rest, c, y);
      assert Split(s, c) == [x[..i]] + (Split(rest, c) + Split(y, c));
      assert Split(x, c) == [x[..i]] + Split(rest, c);
    } else {
      SplitAtFirst(x, c, y);
    }
  }

  /** Splitting at the first separator. */
  lemma SplitAtFirst(x: string, c: char, y: string)
    requires c !in x
    ensures Split(x + [c] + y, c) == [x] + Split(y, c)
  {
    var s := x + [c] + y;
    assert s[|x|] == c;
    forall k | 0 <= k < |x| ensures s[k] != c {
      assert s[k] == x[k];
    }
    assert FirstOf(s, c) == |x|;
    assert s[..|x|] == x && s[|x| + 1..] == y;
  }

  /** The first separator of a text that has one is also the first of any
      extension of it. */
  lemma FirstOfPrefix(x: string, y: string, c: char)
    requires c in x
    ensures FirstOf(x + y, c) == FirstOf(x, c)
  {
    var i := FirstOf(x, c);
    assert (x + y)[i] == c;
    assert (x + y)[..i] == x[..i];
    var j := FirstOf(x + y, c);
    assert j <= i;
    assert (x + y)[..j] == x[..j];
  }

  /** The words of `x,y` are the words of `x` followed by those of `y`. */
  lemma WordsJoin(x: string, y: string)
    ensures Words(x + "," + y) == Words(x) + Words(y)
  {
    assert x + "," + y == x + [','] + y;
    SplitAppend(x, ',', y);
    var a, b := Split(x, ','), Split(y, ',');
    assert Trimmed(a + b) == Trimmed(a) + Trimmed(b);
    NonEmptyAppend(Trimmed(a), Trimmed(b));
  }

  /** The check only asks which words occur. */
  lemma ValidateBySet(a: string, b: string)
    requires forall w :: w in Words(a) <==> w in Words(b)
    ensures ValidateExportContent(a) == ValidateExportContent(b)
  {
  }

  /** Neither order nor repetition matters: `x,y` and `y,x` get the same
      verdict, and so do `x,x` and `x`. */
  lemma ValidateOrderFree(x: string, y: string)
    ensures ValidateExportContent(x + "," + y) == ValidateExportContent(y + "," + x)
    ensures ValidateExportContent(x + "," + x) == ValidateExportContent(x)
  {
    WordsJoin(x, y);
    WordsJoin(y, x);
    WordsJoin(x, x);
    ValidateBySet(x + "," + y, y + "," + x);
    ValidateBySet(x + "," + x, x);
  }

  /** The verdict in terms of the words, both ways: passing means `Hook`
      is among them and every one is `Hook` or `Callback`; a missing
      `Hook` is reported even when other words are wrong too. */
  lemma ValidateSpec(content: string)
    ensures ValidateExportContent(content).None? <==>
      "Hook" in Words(content) && forall w :: w in Words(content) ==> Allowed(w)
    ensures ValidateExportContent(content) == Some(HookRequired) <==> "Hook" !in Words(content)
    ensures ValidateExportContent(content) == Some(OnlyHookAndCallback) <==>
      "Hook" in Words(content) && exists w :: w in Words(content) && !Allowed(w)
  {
    MessagesDiffer();
  }

  /** The messages are told apart by their lengths. */
  lemma MessagesDiffer()
    ensures |HookRequired| == 32 && |OnlyHookAndCallback| == 50 && |NoExport| == 31
    ensures |InputRequired| == 23 && |OutputRequired| == 34 && |NotADirectory| == 32
  {
  }

  /** A word's spaces do not count, and empty entries are dropped: the
      words of a list are the trimmed non-empty pieces between commas. */
  lemma WordsMembers(content: string, w: string)
    ensures w in Words(content) <==> w != "" && exists k :: 0 <= k < |Split(content, ',')| && Trim(Split(content, ',')[k]) == w
  {
    var parts := Split(content, ',');
    var t := Trimmed(parts);
    NonEmptyMembers(t);
    if w in t {
      var k :| 0 <= k < |t| && t[k] == w;
      assert Trim(parts[k]) == w;
    }
    if exists k :: 0 <= k < |parts| && Trim(parts[k]) == w {
      var k :| 0 <= k < |parts| && Trim(parts[k]) == w;
      assert t[k] == w;
    }
  }

  /** A single word alone passes exactly when it is `Hook`; any other word
      alone is refused for the missing `Hook`, not as an unknown word. */
  lemma ValidateAlone(w: string)
    requires w != [] && ',' !in w && !IsSpace(w[0]) && !IsSpace(w[|w| - 1])
    ensures ValidateExportContent(w) == if w == "Hook" then None else Some(HookRequired)
  {
    WordsOfPlain(w);
  }

  /** A single word without commas or surrounding spaces is the whole
      list. */
  lemma WordsOfPlain(w: string)
    requires w != [] && ',' !in w && !IsSpace(w[0]) && !IsSpace(w[|w| - 1])
    ensures Words(w) == [w]
  {
    assert Split(w, ',') == [w];
    TrimPlain(w);
    assert Trimmed([w]) == [w];
    assert [w][..0] == [];
    assert NonEmpty([w]) == NonEmpty([]) + [w];
  }

  /** Text with no white space at either end is its own trim. */
  lemma TrimPlain(s: string)
    requires s != [] && !IsSpace(s[0]) && !IsSpace(s[|s| - 1])
    ensures Trim(s) == s
  {
    assert SkipSpace(s, 0) == 0;
    var b := TrimEndAt(s, 0, |s|);
    assert b == |s|;
    assert s[0..|s|] == s;
  }

  // ---------------------------------------------------------------------
  // main.ts's clean

  /** Where `exportPattern.exec` finds its first match, scanning from `i`. */
  function FirstExport(s: string, i: nat): (r: Option<nat>)
    requires i <= |s|
    ensures r.Some? ==> i <= r.value <= |s| && LinePatterns.ExportAt(s, r.value).Some?
    ensures r.Some? ==> forall m :: i <= m < r.value ==> LinePatterns.ExportAt(s, m).None?
    ensures r.None? ==> forall m :: i <= m <= |s| ==> LinePatterns.ExportAt(s, m).None?
    decreases |s| - i
  {
    if LinePatterns.ExportAt(s, i).Some? then Some(i)
    else if i == |s| then None
    else FirstExport(s, i + 1)
  }

  /** What `clean` comes to: the cleaned code, or the message it throws. */
  datatype Checked = Passed(code: string) | Failed(message: string)

  /** The export list of the first export line: the text between its
      braces (`match[1]`). */
  function FirstExportList(s: string): Option<string>
  {
    match FirstExport(s, 0)
    case None => None
    case Some(i) =>
      var m := LinePatterns.ExportAt(s, i).value;
      Some(s[m.open + 1..m.close])
  }

  /** `clean(filePath, outputPath)` of main.ts on the text read: the first
      export line is required and its list validated; then the text is
      cleaned as build.ts's `clean` does. */
  function CleanChecked(s: string): Checked
  {
    match FirstExportList(s)
    case None => Failed(NoExport)
    case Some(list) =>
      match ValidateExportContent(list)
      case Some(msg) => Failed(msg)
      case None => Passed(LinePatterns.Clean(s))
  }

  /** The check refuses a text exactly when it has no export line or the
      first one's list fails validation; otherwise the result is what
      build.ts's `clean` makes of the same text. */
  lemma CleanCheckedSpec(s: string)
    ensures CleanChecked(s) == Failed(NoExport) <==> forall m :: 0 <= m <= |s| ==> LinePatterns.ExportAt(s, m).None?
    ensures CleanChecked(s).Passed? <==>
      FirstExportList(s).Some? && ValidateExportContent(FirstExportList(s).value).None?
    ensures CleanChecked(s).Passed? ==> CleanChecked(s).code == LinePatterns.Clean(s)
  {
    MessagesDiffer();
    if FirstExport(s, 0).None? {
      assert FirstExportList(s).None?;
    }
  }

  /** An `export { … };` line that ends its line and comes before any
      other export line decides the check: its list between the braces is
      the one validated. */
  lemma ExportLineChecked(s: string, i: nat, close: nat)
    requires i + 8 <= close && close + 1 < |s|
    requires LinePatterns.LineStart(s, i) && OccursAt(s, "export {", i) && s[close] == '}' && s[close + 1] == ';'
    requires forall m :: i + 8 <= m < close ==> s[m] != '}'
    requires LinePatterns.BreakAt(s, close + 2)
    requires forall m :: 0 <= m < i ==> LinePatterns.ExportAt(s, m).None?
    ensures FirstExportList(s) == Some(s[i + 8..close])
    ensures CleanChecked(s).Passed? <==> ValidateExportContent(s[i + 8..close]).None?
  {
    LinePatterns.ExportAtLine(s, i, close);
    FirstExportAt(s, 0, i);
  }

  /** The scan from `j` stops at the first match. */
  lemma FirstExportAt(s: string, j: nat, i: nat)
    requires j <= i <= |s| && LinePatterns.ExportAt(s, i).Some?
    requires forall m :: j <= m < i ==> LinePatterns.ExportAt(s, m).None?
    ensures FirstExport(s, j) == Some(i)
  {
    var r := FirstExport(s, j);
    assert r.Some?;
    assert r.value == i;
  }


  // ---------------------------------------------------------------------
  // main

  /** `program.args[0]`, with `""` for a missing argument. */
  function InPath(args: seq<string>): string
  {
    if |args| > 0 then args[0] else ""
  }

  /** `program.args[1] || "build"`. */
  function OutDir(args: seq<string>): (r: string)
  {
    if |args| > 1 && args[1] != "" then args[1] else "build"
  }

  /** Where `main` stands once it knows which file `buildFile` gets: a
      thrown error, or the path handed on, each with the disk. */
  datatype Started = Halted(stop: Js2WasmCli.Stop, disk: Disk) | Handed(path: string, disk: Disk)

  /** `main` from the extension check on: a ".ts" input is bundled to the
      rewritten path, checked and cleaned there, and the bundle handed on;
      anything else must exist and not be a directory. */
  function Start(inPath: string, bundler: Js2WasmCli.Bundler, d: Disk): Started
  {
    if ExtName(inPath) == ".ts" then
      var newPath := TsOutputPath(inPath);
      match bundler(inPath, d)
      case None => Halted(Js2WasmCli.BundleFailed(inPath), d)
      case Some(b) =>
        var d1 := d[newPath := File(Chars(b))];
        match CleanChecked(b)
        case Failed(msg) => Halted(Js2WasmCli.Refused(msg), d1)
        case Passed(code) => Handed(newPath, d1[newPath := File(Chars(code))])
    else if inPath !in d then Halted(Js2WasmCli.Unreadable(inPath), d)
    else if d[inPath].Folder? then Halted(Js2WasmCli.Refused(OnlyFiles), d)
    else Handed(inPath, d)
  }

  /** What one run of `main` did, from the disk `d0` to the disk `d`: an
      exit with a message, a thrown error, or the hand-over to `buildFile`
      and what that did. */
  predicate MainRan(d0: Disk, d: Disk, args: seq<string>, bundler: Js2WasmCli.Bundler,
                    reply: Option<CliResult.Wire>, binary: seq<byte>,
                    exit: Option<string>, stop: Option<Js2WasmCli.Stop>, sent: Option<Js2WasmCli.Body>,
                    thrown: Option<string>)
  {
    var inPath := InPath(args);
    var outDir := OutDir(args);
    if inPath == "" then exit == Some(InputRequired) && stop.None? && sent.None? && thrown.None? && d == d0
    else if outDir in d0 && d0[outDir] != Folder then
      exit == Some(NotADirectory) && stop.None? && sent.None? && thrown.None? && d == d0
    else
      var d1 := if outDir in d0 then d0 else d0[outDir := Folder];
      && exit.None?
      && match Start(inPath, bundler, d1)
         case Halted(s, d2) => stop == Some(s) && sent.None? && thrown.None? && d == d2
         case Handed(path, d2) => Js2WasmCli.FileBuilt(d2, d, path, outDir, bundler, reply, binary, stop, sent, thrown)
  }

  /** `main()`, after commander has parsed the arguments into `args`. */
  method Run(fs: FileSystem, args: seq<string>, bundler: Js2WasmCli.Bundler,
              reply: Option<CliResult.Wire>, binary: seq<byte>)
    returns (exit: Option<string>, stop: Option<Js2WasmCli.Stop>, sent: Option<Js2WasmCli.Body>, thrown: Option<string>)
    modifies fs
    ensures MainRan(old(fs.disk), fs.disk, args, bundler, reply, binary, exit, stop, sent, thrown)
  {
    exit, stop, sent, thrown := None, None, None, None;
    var inPath := if |args| > 0 then args[0] else "";
    var outDir := if |args| > 1 && args[1] != "" then args[1] else "build";
    if inPath == "" {
      return Some(InputRequired), None, None, None;
    }
    if outDir == "" {
      // never taken: `|| "build"` does not give ""
      assert false;
    }
    if outDir in fs.disk {
      if fs.disk[outDir] != Folder {
        return Some(NotADirectory), None, None, None;
      }
    } else {
      fs.MkDir(outDir);
    }
    var path := inPath;
    if ExtName(inPath) == ".ts" {
      var file := LastPiece(inPath, '/');
      var filename := Before(file, ".ts");
      var newPath := ReplaceFirst(inPath, file, "dist/" + filename + ".js");
      var bundle := bundler(inPath, fs.disk);
      if bundle.None? {
        return None, Some(Js2WasmCli.BundleFailed(inPath)), None, None;
      }
      fs.WriteText(newPath, bundle.value);
      TsOutputPathNonEmpty(inPath);
      var checked := CleanFile(fs, newPath, newPath);
      if checked.Failed? {
        return None, Some(Js2WasmCli.Refused(checked.message)), None, None;
      }
      path := newPath;
    } else {
      if inPath !in fs.disk {
        return None, Some(Js2WasmCli.Unreadable(inPath)), None, None;
      }
      if fs.disk[inPath].Folder? {
        return None, Some(Js2WasmCli.Refused(OnlyFiles)), None, None;
      }
    }
    stop, sent, thrown := Js2WasmCli.BuildFile(fs, path, outDir, bundler, reply, binary);
  }

  /** main.ts's `clean(filePath, outputPath)` on a file that is present:
      check, clean, and write the result when an output path is given. */
  method CleanFile(fs: FileSystem, filePath: string, outputPath: string) returns (checked: Checked)
    requires filePath in fs.disk && fs.disk[filePath].File?
    modifies fs
    ensures checked == CleanChecked(AsText(old(fs.disk)[filePath].content))
    ensures fs.disk == if checked.Passed? && outputPath != "" then old(fs.disk)[outputPath := File(Chars(checked.code))]
                       else old(fs.disk)
  {
    var content := fs.Read(filePath);
    var tsCode := AsText(content.value);
    var list := FirstExportList(tsCode);
    if list.None? {
      return Failed(NoExport);
    }
    var problem := ValidateExportContent(list.value);
    if problem.Some? {
      return Failed(problem.value);
    }
    var cleanedCode := LinePatterns.Clean(tsCode);
    if outputPath != "" {
      fs.WriteText(outputPath, cleanedCode);
    }
    checked := Passed(cleanedCode);
  }

  /** The arguments' defaults: the output directory is "build" when the
      second argument is missing or empty, so "Output directory path is
      required." is never printed, and a run exits with a message exactly
      when the input path is missing or empty, or the output path exists
      and is not a directory. */
  lemma MainExits(d0: Disk, d: Disk, args: seq<string>, bundler: Js2WasmCli.Bundler,
                  reply: Option<CliResult.Wire>, binary: seq<byte>,
                  exit: Option<string>, stop: Option<Js2WasmCli.Stop>, sent: Option<Js2WasmCli.Body>, thrown: Option<string>)
    requires MainRan(d0, d, args, bundler, reply, binary, exit, stop, sent, thrown)
    ensures OutDir(args) != "" && (|args| < 2 || args[1] == "" ==> OutDir(args) == "build")
    ensures exit != Some(OutputRequired)
    ensures exit.Some? <==> InPath(args) == "" || (OutDir(args) in d0 && d0[OutDir(args)] != Folder)
    ensures exit.Some? ==> d == d0 && sent.None?
  {
    MessagesDiffer();
  }
}
