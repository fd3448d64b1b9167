/** The JavaScript command-line client (js2wasm-cli/src/build.ts):
    `buildFile` checks the path, bundles a TypeScript entry point with
    esbuild and cleans the bundle in place, then posts one file;
    `buildDir` posts every `.js`/`.ts` file of a tree; `buildWasm` saves
    what comes back. esbuild, the post and the decoding of the reply are
    not modelled: their results are parameters. */
module Js2WasmCli {

  import opened Wrappers
  import opened Text
  import opened Workspace
  import opened Pipeline
  import opened Paths
  import Filename
  import SourceTree
  import CliResult
  import LinePatterns

  /** The JSON body `buildWasm` posts to `/api/build/js`. */
  datatype Body = Body(output: string, compress: bool, strip: bool, files: seq<FileEntry>)

  /** esbuild: the bundle it writes for an entry point on a disk, or `None`
      when the build fails (its promise rejects). */
  type Bundler = (string, Disk) -> Option<string>

  /** How `buildFile` ends before anything is posted. */
  datatype Stop =
    | Refused(message: string)     // an `Error` thrown with this message
    | BundleFailed(entry: string)  // esbuild rejected this entry point
    | Unreadable(path: string)     // `readFileSync` threw on this path

  /** Where `buildFile` stands once the file is read, with the disk. */
  datatype Prepared = Ready(entry: FileEntry, disk: Disk) | Stopped(stop: Stop, disk: Disk)

  const InvalidType: string := "Invalid file type. must be .js or .ts file"

  /** `buildWasm`'s output stem: the name up to its first dot. */
  function Stem(name: string): string
  {
    Split(name, '.')[0]
  }

  /** The file type: the text after the last dot of the name. */
  function FileType(name: string): string
  {
    LastPiece(name, '.')
  }

  /** The type check: the path mentions ".js" or ".ts" anywhere. */
  predicate Accepted(path: string)
  {
    Contains(path, ".js") || Contains(path, ".ts")
  }

  /** The file object `buildFile` sends for the text read at `path`. */
  function EntryFor(path: string, text: string): FileEntry
  {
    var name := LastPiece(path, '/');
    FileEntry(FileType(name), name, Some("-O3"), text)
  }

  function BodyFor(entry: FileEntry): Body
  {
    Body("bc", true, true, [entry])
  }

  /** What the server's schema reads from a body: no link options. */
  function Received(b: Body): Request
  {
    Request(b.output, b.files, None, Some(b.compress), Some(b.strip))
  }

  /** The text `readFileSync(p, "utf-8")` returns, if `p` is a file. */
  function TextAt(d: Disk, p: string): Option<string>
  {
    match ReadOf(d, p)
    case None => None
    case Some(c) => Some(AsText(c))
  }

  /** The disk after `compileTs`: the bundle written to the rewritten path,
      then replaced there by its cleaned text. */
  function Compiled(tsPath: string, bundle: string, d: Disk): Disk
  {
    d[TsOutputPath(tsPath) := File(Chars(LinePatterns.Clean(bundle)))]
  }

  /** `buildFile` up to the post: the type check, then `compileTs` when the
      path mentions ".ts", then reading the file to send. */
  function Prepare(path: string, bundler: Bundler, d: Disk): Prepared
  {
    if !Accepted(path) then Stopped(Refused(InvalidType), d)
    else if Contains(path, ".ts") then
      match bundler(path, d)
      case None => Stopped(BundleFailed(path), d)
      case Some(b) =>
        var p := TsOutputPath(path);
        Ready(EntryFor(p, LinePatterns.Clean(b)), Compiled(path, b, d))
    else
      match TextAt(d, path)
      case None => Stopped(Unreadable(path), d)
      case Some(t) => Ready(EntryFor(path, t), d)
  }

  /** What `buildFile` did, on the disk `d0` it started from and the disk
      `d` it left: stopped before posting with the disk as the preparation
      left it, or posted the prepared entry and saved the reply under the
      entry's stem with ".bc". */
  predicate FileBuilt(d0: Disk, d: Disk, path: string, outDir: string, bundler: Bundler,
                      reply: Option<CliResult.Wire>, binary: seq<byte>,
                      stop: Option<Stop>, sent: Option<Body>, thrown: Option<string>)
  {
    match Prepare(path, bundler, d0)
    case Stopped(s, d1) => stop == Some(s) && sent.None? && thrown.None? && d == d1
    case Ready(e, d1) =>
      && stop.None? && sent == Some(BodyFor(e))
      && CliResult.Saved(d1, d, outDir, Stem(e.name), ".bc", reply, binary, thrown)
  }

  /** The file sent is named by the last segment of the path it was read
      from, its type is the text after that name's last dot, and its
      options are "-O3". A path without ".js" or ".ts" is refused; one with
      ".ts" is sent as its cleaned bundle, never read as written; any other
      accepted path is sent with the text read from it, unchanged on disk,
      and stops when it cannot be read. Nothing is written before a stop. */
  lemma PrepareSpec(path: string, bundler: Bundler, d: Disk)
    ensures Prepare(path, bundler, d) == Stopped(Refused(InvalidType), d) <==> !Accepted(path)
    ensures Prepare(path, bundler, d).Ready? ==> Shaped(Prepare(path, bundler, d).entry)
    ensures Prepare(path, bundler, d).Stopped? ==> Prepare(path, bundler, d).disk == d
    ensures Accepted(path) && Contains(path, ".ts") ==>
      (Prepare(path, bundler, d).Ready? <==> bundler(path, d).Some?) &&
      (bundler(path, d).Some? ==> Prepare(path, bundler, d).entry.src == LinePatterns.Clean(bundler(path, d).value))
    ensures Accepted(path) && !Contains(path, ".ts") ==>
      (Prepare(path, bundler, d) == Stopped(Unreadable(path), d) <==> TextAt(d, path).None?)
    ensures Accepted(path) && !Contains(path, ".ts") && TextAt(d, path).Some? ==>
      var p := Prepare(path, bundler, d);
      p.Ready? && p.entry.src == TextAt(d, path).value && p.disk == d && EndsWith(path, p.entry.name)
  {
    if Accepted(path) {
      if Contains(path, ".ts") {
        match bundler(path, d)
        case None =>
        case Some(b) => EntryShape(TsOutputPath(path), LinePatterns.Clean(b));
      } else {
        match TextAt(d, path)
        case None =>
        case Some(t) => EntryShape(path, t);
      }
    }
  }

  /** An entry named by a last path segment, typed by the text after the
      last dot of its name, with options "-O3". */
  predicate Shaped(e: FileEntry)
  {
    && '/' !in e.name && '.' !in e.kind && e.options == Some("-O3")
    && (e.kind == e.name || (|e.kind| < |e.name| && e.name[|e.name| - |e.kind| - 1] == '.'))
    && EndsWith(e.name, e.kind)
  }

  /** The entry for any path and text has that shape. */
  lemma EntryShape(path: string, text: string)
    ensures Shaped(EntryFor(path, text)) && EntryFor(path, text).src == text
    ensures EndsWith(path, EntryFor(path, text).name)
  {
  }

  /** A file's stem is its name up to the first dot: `<x>.<y>` gives `x`
      whatever `y` holds, so "hook.test.js" and "hook.js" both save to
      "hook.bc". */
  lemma StemCutsAtFirstDot(x: string, y: string)
    requires '.' !in x
    ensures Stem(x + "." + y) == x
  {
    var s := x + "." + y;
    assert s[|x|] == '.';
    var i := FirstOf(s, '.');
    forall k | 0 <= k < |x| ensures s[k] != '.' {
      assert s[k] == x[k];
    }
    assert i == |x|;
    assert s[..|x|] == x;
  }

  /** The type check accepts more than it names: a ".json" file mentions
      ".js", passes, and is sent with type "json". */
  lemma JsonPasses(x: string, text: string, bundler: Bundler, d: Disk)
    requires '.' !in x && '/' !in x
    requires TextAt(d, x + ".json") == Some(text)
    ensures Prepare(x + ".json", bundler, d) == Ready(FileEntry("json", x + ".json", Some("-O3"), text), d)
  {
    JsonName(x);
  }

  /** `<x>.json` mentions ".js" but not ".ts", and is its own last segment
      with "json" after its last dot. */
  lemma JsonName(x: string)
    requires '.' !in x && '/' !in x
    ensures var p := x + ".json";
      Contains(p, ".js") && !Contains(p, ".ts") && LastPiece(p, '/') == p && LastPiece(p, '.') == "json"
  {
    var p := x + ".json";
    assert OccursAt(p, ".js", |x|);
    ContainsIff(p, ".js");
    ContainsIff(p, ".ts");
    forall i: nat | i + 3 <= |p| ensures !OccursAt(p, ".ts", i) {
      assert p[i..i + 3][0] == p[i] && p[i..i + 3][1] == p[i + 1];
      if i < |x| {
        assert p[i] == x[i];
      } else if i > |x| {
        assert p[i] == ".json"[i - |x|];
      }
    }
    JsonPieces(x);
  }

  lemma JsonPieces(x: string)
    requires '.' !in x && '/' !in x
    ensures LastPiece(x + ".json", '/') == x + ".json" && LastPiece(x + ".json", '.') == "json"
  {
    assert '/' !in x + ".json";
    DotJson(x);
    LastPieceAfter(x, '.', "json");
  }

  lemma DotJson(x: string)
    ensures x + ".json" == x + ['.'] + "json"
  {
    assert ".json" == ['.'] + "json";
  }

  /** An ordinary TypeScript file `<dir>/<x>.ts` is bundled to
      `<dir>/dist/<y>.js`, which is cleaned in place and sent as a "js"
      file named `<y>.js`, saved under the stem `y`; `y` is `x` with the
      `$` patterns of `replace` expanded (`Paths.DistStem`), so `x` itself
      when it has no `$`. */
  lemma TypeScriptRoute(dir: string, x: string, bundler: Bundler, d: Disk)
    requires '/' !in x && '.' !in x && !Contains(dir, x + ".ts")
    requires '/' !in DistStem(dir, x) && '.' !in DistStem(dir, x)
    requires bundler(dir + "/" + x + ".ts", d).Some?
    ensures var path := dir + "/" + x + ".ts";
      var code := LinePatterns.Clean(bundler(path, d).value);
      var y := DistStem(dir, x);
      && Prepare(path, bundler, d)
           == Ready(FileEntry("js", y + ".js", Some("-O3"), code), d[dir + "/dist/" + y + ".js" := File(Chars(code))])
      && Stem(y + ".js") == y
  {
    var path := dir + "/" + x + ".ts";
    TsPath(dir, x);
    JsEntry(dir, DistStem(dir, x), LinePatterns.Clean(bundler(path, d).value));
  }

  /** The path names a TypeScript file and is rewritten to the `dist`
      directory beside it. */
  lemma TsPath(dir: string, x: string)
    requires '/' !in x && '.' !in x && !Contains(dir, x + ".ts")
    ensures var path := dir + "/" + x + ".ts";
      Accepted(path) && Contains(path, ".ts") && TsOutputPath(path) == dir + "/dist/" + DistStem(dir, x) + ".js"
  {
    var path := dir + "/" + x + ".ts";
    NoDotNoTs(x);
    assert OccursAt(path, ".ts", |path| - 3);
    ContainsIff(path, ".ts");
    TsOutputPathOrdinary(dir, x);
  }

  /** The bundle's path gives a "js" entry named `<x>.js` with stem `x`. */
  lemma JsEntry(dir: string, x: string, code: string)
    requires '/' !in x && '.' !in x
    ensures EntryFor(dir + "/dist/" + x + ".js", code) == FileEntry("js", x + ".js", Some("-O3"), code)
    ensures Stem(x + ".js") == x
  {
    BundleName(dir, x);
    BundleType(x);
    StemCutsAtFirstDot(x, "js");
  }

  lemma BundleName(dir: string, x: string)
    requires '/' !in x && '.' !in x
    ensures LastPiece(dir + "/dist/" + x + ".js", '/') == x + ".js"
  {
    assert dir + "/dist/" + x + ".js" == (dir + "/dist") + ['/'] + (x + ".js");
    LastPieceAfter(dir + "/dist", '/', x + ".js");
  }

  lemma BundleType(x: string)
    requires '.' !in x
    ensures LastPiece(x + ".js", '.') == "js"
  {
    DotJs(x);
    LastPieceAfter(x, '.', "js");
  }

  lemma DotJs(x: string)
    ensures x + ".js" == x + ['.'] + "js" == x + "." + "js"
  {
    assert ".js" == ['.'] + "js";
  }

  /** A directory whose name mentions ".ts" sends every path below it to
      `compileTs`, a JavaScript file included: its bundle is what is read
      and sent, not the file. */
  lemma TsDirectoryRebundles(dir: string, rest: string, bundler: Bundler, d: Disk)
    requires Contains(dir, ".ts")
    ensures var path := dir + rest;
      && Prepare(path, bundler, d).Ready? == bundler(path, d).Some?
      && (bundler(path, d).Some? ==> Prepare(path, bundler, d).disk == Compiled(path, bundler(path, d).value, d))
  {
    var path := dir + rest;
    ContainsPrefix(dir, rest, ".ts");
    assert Accepted(path) && Contains(path, ".ts");
    match bundler(path, d)
    case None =>
      assert Prepare(path, bundler, d) == Stopped(BundleFailed(path), d);
    case Some(b) =>
      assert Prepare(path, bundler, d).disk == Compiled(path, b, d);
  }

  /** What the server makes of a request of the client: one file with
      options "-O3", admitted exactly when its name passes the server's
      filename check and its text is not empty. */
  lemma ServerView(entry: FileEntry, dir: string, d: Disk)
    requires entry.options == Some("-O3")
    ensures var req := Received(BodyFor(entry));
      && req.output == "bc" && req.files == [entry]
      && req.compress == Some(true) && req.strip == Some(true) && req.linkOptions.None?
      && (Admit(req.files, dir, d).Admitted? <==> Filename.ValidName(entry.name) && entry.src != "")
      && (Admit(req.files, dir, d).Admitted? ==> Admit(req.files, dir, d).options == "-O3")
  {
    var files := [entry];
    if Filename.ValidName(entry.name) && entry.src != "" {
      var path := dir + "/" + entry.name;
      assert OrEmpty(entry.options) == "-O3";
      assert Admit(files, dir, d) == AdmitFrom(files, dir, 1, [] + [path], "-O3", d[path := File(Chars(entry.src))]);
    }
  }

  /** `buildDir`: one body per collected entry, in the order `readFiles`
      lists them. */
  function DirBodies(entries: seq<FileEntry>): (r: seq<Body>)
    ensures |r| == |entries|
    ensures forall i :: 0 <= i < |entries| ==> r[i].files == [entries[i]] && r[i].output == "bc"
  {
    seq(|entries|, i requires 0 <= i < |entries| => BodyFor(entries[i]))
  }

  /** `clean(filePath, outputPath)` of build.ts: read the file, remove the
      import, export and comment lines, trim, and write the result when an
      output path is given. `None` when the read throws. */
  method CleanFile(fs: FileSystem, filePath: string, outputPath: string) returns (cleaned: Option<string>)
    modifies fs
    ensures cleaned == (match TextAt(old(fs.disk), filePath)
                        case None => None
                        case Some(t) => Some(LinePatterns.Clean(t)))
    ensures fs.disk == if cleaned.Some? && outputPath != "" then old(fs.disk)[outputPath := File(Chars(cleaned.value))]
                       else old(fs.disk)
  {
    var content := fs.Read(filePath);
    if content.None? {
      return None;
    }
    var tsCode := AsText(content.value);
    var cleanedCode := LinePatterns.Clean(tsCode);
    if outputPath != "" {
      fs.WriteText(outputPath, cleanedCode);
    }
    cleaned := Some(cleanedCode);
  }

  /** `compileTs(tsFilePath)`: bundle to the rewritten path, then clean the
      bundle in place. */
  method CompileTs(fs: FileSystem, tsFilePath: string, bundler: Bundler) returns (newPath: string, ok: bool)
    modifies fs
    ensures newPath == TsOutputPath(tsFilePath)
    ensures ok <==> bundler(tsFilePath, old(fs.disk)).Some?
    ensures fs.disk == if ok then Compiled(tsFilePath, bundler(tsFilePath, old(fs.disk)).value, old(fs.disk)) else old(fs.disk)
  {
    var file := LastPiece(tsFilePath, '/');
    var filename := Before(file, ".ts");
    newPath := ReplaceFirst(tsFilePath, file, "dist/" + filename + ".js");
    var bundle := bundler(tsFilePath, fs.disk);
    if bundle.None? {
      return newPath, false;
    }
    fs.WriteText(newPath, bundle.value);
    TsOutputPathNonEmpty(tsFilePath);
    var _ := CleanFile(fs, newPath, newPath);
    ok := true;
  }

  /** `buildWasm(fileObject, outDir)`: post the body, then save the reply
      under the stem with ".bc". */
  method BuildWasm(fs: FileSystem, entry: FileEntry, outDir: string, reply: Option<CliResult.Wire>, binary: seq<byte>)
    returns (sent: Body, thrown: Option<string>)
    modifies fs
    ensures sent == BodyFor(entry)
    ensures CliResult.Saved(old(fs.disk), fs.disk, outDir, Stem(entry.name), ".bc", reply, binary, thrown)
  {
    var filename := Split(entry.name, '.')[0];
    sent := Body("bc", true, true, [entry]);
    thrown := CliResult.Receive(fs, outDir, filename, ".bc", reply, binary);
  }

  /** The end of `buildFile`: read the file at `path` and post it. */
  method SendFile(fs: FileSystem, path: string, outDir: string, reply: Option<CliResult.Wire>, binary: seq<byte>)
    returns (stop: Option<Stop>, sent: Option<Body>, thrown: Option<string>)
    modifies fs
    ensures match TextAt(old(fs.disk), path)
      case None => stop == Some(Unreadable(path)) && sent.None? && thrown.None? && fs.disk == old(fs.disk)
      case Some(t) =>
        var e := EntryFor(path, t);
        && stop.None? && sent == Some(BodyFor(e))
        && CliResult.Saved(old(fs.disk), fs.disk, outDir, Stem(e.name), ".bc", reply, binary, thrown)
  {
    var content := fs.Read(path);
    if content.None? {
      return Some(Unreadable(path)), None, None;
    }
    var fileContent := AsText(content.value);
    var filename := LastPiece(path, '/');
    var filetype := LastPiece(filename, '.');
    var fileObject := FileEntry(filetype, filename, Some("-O3"), fileContent);
    var body;
    body, thrown := BuildWasm(fs, fileObject, outDir, reply, binary);
    stop, sent := None, Some(body);
  }

  /** `buildFile(dirPath, outDir)`. */
  method BuildFile(fs: FileSystem, dirPath: string, outDir: string, bundler: Bundler,
                   reply: Option<CliResult.Wire>, binary: seq<byte>)
    returns (stop: Option<Stop>, sent: Option<Body>, thrown: Option<string>)
    modifies fs
    ensures FileBuilt(old(fs.disk), fs.disk, dirPath, outDir, bundler, reply, binary, stop, sent, thrown)
  {
    ghost var d0 := fs.disk;
    if !Contains(dirPath, ".js") && !Contains(dirPath, ".ts") {
      return Some(Refused(InvalidType)), None, None;
    }
    var path := dirPath;
    if Contains(dirPath, ".ts") {
      var ok;
      path, ok := CompileTs(fs, dirPath, bundler);
      if !ok {
        return Some(BundleFailed(dirPath)), None, None;
      }
      ghost var code := LinePatterns.Clean(bundler(dirPath, d0).value);
      assert TextAt(fs.disk, path) == Some(code);
      assert Prepare(dirPath, bundler, d0) == Ready(EntryFor(path, code), fs.disk);
      stop, sent, thrown := SendFile(fs, path, outDir, reply, binary);
      return;
    }
    stop, sent, thrown := SendFile(fs, path, outDir, reply, binary);
  }
}
