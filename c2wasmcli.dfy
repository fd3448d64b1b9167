/** The C command-line client (c2wasm-cli/src/build.ts): `buildFile` and
    `buildDir` turn source files into requests of one file each, and
    `buildWasm` posts each request and saves what comes back. The post
    itself is not modelled: its reply, if any, is a parameter, and so are
    the bytes the client decodes from it. */
module C2WasmCli {

  import opened Wrappers
  import opened Text
  import opened Workspace
  import opened Pipeline
  import opened Paths
  import Filename
  import Sanitize
  import CHooks
  import SourceTree
  import CliResult

  /** The JSON body `buildWasm` posts to `/api/build`. */
  datatype Body = Body(output: string, compress: bool, strip: bool, files: seq<FileEntry>, headers: seq<FileEntry>)

  /** How `buildFile` ends before anything is posted: `readFileSync` threw on
      the path, or the type check threw its message. */
  datatype Stop = Unreadable(path: string) | Refused(message: string)

  /** Where `buildFile` stands once the file is read and checked. */
  datatype Prepared = Ready(entry: FileEntry) | Stopped(stop: Stop)

  const InvalidType: string := "Invalid file type. must be .c file"

  /** `buildWasm`'s output stem: the file name up to its first ".c"
      (`name.split(".c")[0]`). */
  function Stem(name: string): string
  {
    Before(name, ".c")
  }

  /** The body posted for one entry, with the header entries. */
  function BodyFor(entry: FileEntry, headers: seq<FileEntry>): Body
  {
    Body("wasm", true, true, [entry], headers)
  }

  /** What the server's schema keeps of a body: it has no `headers` field,
      and the client sends no link options. */
  function Received(b: Body): Request
  {
    Request(b.output, b.files, None, Some(b.compress), Some(b.strip))
  }

  /** `buildFile` up to the post: read the file (this comes first, so a
      missing file fails before its type is looked at), check that the
      path contains ".c", and describe the file by the last segment of the
      path. */
  function Prepare(path: string, text: Option<string>): Prepared
  {
    if text.None? then Stopped(Unreadable(path))
    else if !Contains(path, ".c") then Stopped(Refused(InvalidType))
    else Ready(FileEntry("c", LastPiece(path, '/'), Some("-O3"), text.value))
  }

  /** The text `readFileSync(p, "utf-8")` returns, if `p` is a file. */
  function TextAt(d: Disk, p: string): Option<string>
  {
    match ReadOf(d, p)
    case None => None
    case Some(c) => Some(AsText(c))
  }

  /** The header entries: none without a header path, otherwise what
      `readFiles` collects from it. */
  function Headers(headerTree: Option<seq<SourceTree.Node>>): seq<FileEntry>
  {
    if headerTree.None? then [] else SourceTree.Collected(SourceTree.CFiles, headerTree.value)
  }

  /** `buildFile` stops exactly on an unreadable file and then on a path
      without ".c"; otherwise it sends a "c" entry with options "-O3" and
      the file's text, named by the last segment of the path. */
  lemma PrepareSpec(path: string, text: Option<string>)
    ensures text.None? ==> Prepare(path, text) == Stopped(Unreadable(path))
    ensures text.Some? ==> (Prepare(path, text) == Stopped(Refused(InvalidType)) <==> !Contains(path, ".c"))
    ensures Prepare(path, text).Ready? ==>
      var e := Prepare(path, text).entry;
      && e.kind == "c" && e.options == Some("-O3") && e.src == text.value
      && '/' !in e.name && EndsWith(path, e.name)
      && (|e.name| < |path| ==> path[|path| - |e.name| - 1] == '/')
  {
  }

  /** The type check looks at the whole path, not at the extension: a file
      in a directory whose name contains ".c" passes whatever its own name,
      and is sent as C source under that name. */
  lemma DirectoryPassesTypeCheck(dir: string, name: string, text: string)
    requires Contains(dir, ".c") && '/' !in name
    ensures Prepare(dir + "/" + name, Some(text)) == Ready(FileEntry("c", name, Some("-O3"), text))
  {
    ContainsPrefix(dir, "/" + name, ".c");
    assert dir + "/" + name == dir + ("/" + name);
    LastPieceAfterSlash(dir, name);
  }

  /** The stem is cut at the FIRST ".c" of the name: `<x>.c<y>` gives `x`
      when `x` has no ".c", so "hook.c" gives "hook", "hook.cpp" gives
      "hook" as well, and "my.cool.c" gives "my". */
  lemma StemCutsAtFirst(x: string, y: string)
    requires !Contains(x, ".c")
    ensures Stem(x + ".c" + y) == x
  {
    var s := x + ".c" + y;
    var r := Stem(s);
    ContainsIff(x, ".c");
    ContainsIff(r, ".c");
    assert OccursAt(s, ".c", |x|);
    assert s[..|x|] == x;
    // no occurrence starts inside x, so r is at least x
    forall j: nat | j < |x| ensures !OccursAt(s, ".c", j) {
      if j + 2 <= |x| {
        assert s[j..j + 2] == x[j..j + 2];
        assert !OccursAt(x, ".c", j);
      } else {
        assert s[j..j + 2][1] == '.';
      }
    }
    // none starts right after its dot
    assert s[|x| + 1] == 'c';
  }

  /** A name without ".c" is its own stem, so a header file "x.h" would be
      saved as "x.h.wasm". */
  lemma StemWithoutC(name: string)
    requires !Contains(name, ".c")
    ensures Stem(name) == name
  {
  }

  /** What the server makes of a request of the client: one "c" entry with
      options "-O3". It admits it exactly when the name passes the
      server's filename check and the text is not empty; the options in
      effect are then "-O3", which selects an optimisation level, and the
      request asks for stripping, so all three stages are planned. */
  lemma ServerView(entry: FileEntry, headers: seq<FileEntry>, dir: string, d: Disk)
    requires entry.kind == "c" && entry.options == Some("-O3")
    ensures var req := Received(BodyFor(entry, headers));
      && req.output == "wasm" && req.files == [entry]
      && req.compress == Some(true) && req.strip == Some(true) && req.linkOptions.None?
      && (Admit(req.files, dir, d).Admitted? <==> Filename.ValidName(entry.name) && entry.src != "")
      && (Admit(req.files, dir, d).Admitted? ==> Admit(req.files, dir, d).options == "-O3")
  {
    var files := [entry];
    if Filename.ValidName(entry.name) && entry.src != "" {
      var path := dir + "/" + entry.name;
      assert OrEmpty(entry.options) == "-O3";
      assert Admit(files, dir, d) == AdmitFrom(files, dir, 1, [] + [path], "-O3", d[path := File(Chars(entry.src))]);
    }
    PlanO3();
  }

  /** "-O3" names an optimisation level, so a stripped build of the client
      runs all three stages. */
  lemma PlanO3()
    ensures CHooks.Plan("-O3", true) == ["building wasm", "optimizing wasm", "cleaning wasm"]
  {
    assert Sanitize.OptimizationOptions("-O3") != "" by {
      assert Sanitize.OptimizationFlags[2] == "-O3";
      assert OccursAt("-O3", "-O3", 0);
      ContainsIff("-O3", "-O3");
      Sanitize.OptimizationOptionsEmptyIff("-O3");
    }
  }

  /** `buildDir`: one body per collected entry, in the order `readFiles`
      lists them, header files included, each with the same headers. */
  function DirBodies(entries: seq<FileEntry>, headers: seq<FileEntry>): (r: seq<Body>)
    ensures |r| == |entries|
    ensures forall i :: 0 <= i < |entries| ==> r[i].files == [entries[i]] && r[i].headers == headers && r[i].output == "wasm"
  {
    seq(|entries|, i requires 0 <= i < |entries| => BodyFor(entries[i], headers))
  }

  /** A header file in the tree is posted on its own, as an "h" entry
      without options, like any C file. */
  lemma HeaderPostedAlone(listing: seq<SourceTree.Node>, k: nat, headers: seq<FileEntry>)
    requires k < |listing| && listing[k].FileNode? && ExtName(listing[k].name) == ".h"
    ensures var bodies := DirBodies(SourceTree.Collected(SourceTree.CFiles, listing), headers);
      exists i :: 0 <= i < |bodies| && bodies[i].files == [FileEntry("h", listing[k].name, None, listing[k].src)]
  {
    SourceTree.FileCollected(SourceTree.CFiles, listing, k);
    var entries := SourceTree.Collected(SourceTree.CFiles, listing);
    var e := SourceTree.Classify(SourceTree.CFiles, listing[k].name, listing[k].src).value;
    assert e == FileEntry("h", listing[k].name, None, listing[k].src);
    var i :| 0 <= i < |entries| && entries[i] == e;
    var bodies := DirBodies(entries, headers);
    assert bodies[i].files == [e];
  }

  /** `buildWasm(fileObject, headerObjects, outDir)`: post the body, then
      save the reply under the stem with ".wasm". */
  method BuildWasm(fs: FileSystem, entry: FileEntry, headers: seq<FileEntry>, outDir: string,
                   reply: Option<CliResult.Wire>, binary: seq<byte>)
    returns (sent: Body, thrown: Option<string>)
    modifies fs
    ensures sent == BodyFor(entry, headers)
    ensures CliResult.Saved(old(fs.disk), fs.disk, outDir, Stem(entry.name), ".wasm", reply, binary, thrown)
  {
    var filename := Stem(entry.name);
    sent := Body("wasm", true, true, [entry], headers);
    thrown := CliResult.Receive(fs, outDir, filename, ".wasm", reply, binary);
  }

  /** `buildFile(filePath, outDir, headerPath)`: read the file, check its
      type, collect the headers, and build. */
  method BuildFile(fs: FileSystem, filePath: string, outDir: string, headerTree: Option<seq<SourceTree.Node>>,
                   reply: Option<CliResult.Wire>, binary: seq<byte>)
    returns (stop: Option<Stop>, sent: Option<Body>, thrown: Option<string>)
    modifies fs
    ensures var p := Prepare(filePath, TextAt(old(fs.disk), filePath));
      && (p.Stopped? ==> stop == Some(p.stop) && sent.None? && thrown.None? && fs.disk == old(fs.disk))
      && (p.Ready? ==>
            && stop.None? && sent == Some(BodyFor(p.entry, Headers(headerTree)))
            && CliResult.Saved(old(fs.disk), fs.disk, outDir, Stem(p.entry.name), ".wasm", reply, binary, thrown))
  {
    var content := fs.Read(filePath);
    if content.None? {
      return Some(Unreadable(filePath)), None, None;
    }
    var fileContent := AsText(content.value);
    if !Contains(filePath, ".c") {
      return Some(Refused(InvalidType)), None, None;
    }
    var filename := LastPiece(filePath, '/');
    var fileObject := FileEntry("c", filename, Some("-O3"), fileContent);
    var headerObjects: seq<FileEntry> := [];
    if headerTree.Some? {
      headerObjects := SourceTree.ReadFiles(SourceTree.CFiles, headerTree.value);
    }
    var body;
    body, thrown := BuildWasm(fs, fileObject, headerObjects, outDir, reply, binary);
    stop, sent := None, Some(body);
  }
}
