/** `readFiles(dirPath)` of both command-line tools
    (c2wasm-cli/src/build.ts:95-124, js2wasm-cli/src/build.ts:91-118): a
    walk of a directory tree that turns the source files it recognises into
    request file entries, in listing order, splicing in each sub-directory's
    entries where the sub-directory is listed. The tree is given as a value:
    a directory's children are what `readdirSync` lists, in that order. */
module SourceTree {

  import opened Wrappers
  import opened Paths
  import opened Pipeline

  datatype Node = FileNode(name: string, src: string) | DirNode(name: string, children: seq<Node>)

  /** Which tool walks the tree: the C tool keeps `.c` and `.h` files and
      skips a few well-known directories; the JavaScript tool keeps `.js` and
      `.ts` files and descends everywhere. */
  datatype Scheme = CFiles | JsFiles

  /** Directories the C tool does not descend into. */
  const Ignored: seq<string> := ["node_modules", ".git", ".vscode", ".idea", ".DS_Store"]

  predicate Descends(scheme: Scheme, dirName: string)
  {
    scheme == JsFiles || dirName !in Ignored
  }

  /** What an entry the walk produces looks like: its kind and options
      follow from the extension of its name. */
  predicate Kept(scheme: Scheme, e: FileEntry)
  {
    match scheme
    case CFiles =>
      (e.kind == "c" && e.options == Some("-O3") && ExtName(e.name) == ".c") ||
      (e.kind == "h" && e.options.None? && ExtName(e.name) == ".h")
    case JsFiles =>
      ((e.kind == "js" && ExtName(e.name) == ".js") || (e.kind == "ts" && ExtName(e.name) == ".ts")) &&
      e.options == Some("-O3")
  }

  /** The extensions a scheme recognises. */
  predicate Recognised(scheme: Scheme, ext: string)
  {
    if scheme == CFiles then ext == ".c" || ext == ".h" else ext == ".js" || ext == ".ts"
  }

  /** The entry for one listed file, if its extension is recognised. */
  function Classify(scheme: Scheme, name: string, src: string): Option<FileEntry>
  {
    var ext := ExtName(name);
    match scheme
    case CFiles =>
      if ext == ".c" then Some(FileEntry("c", name, Some("-O3"), src))
      else if ext == ".h" then Some(FileEntry("h", name, None, src))
      else None
    case JsFiles =>
      if ext == ".js" then Some(FileEntry("js", name, Some("-O3"), src))
      else if ext == ".ts" then Some(FileEntry("ts", name, Some("-O3"), src))
      else None
  }

  /** A file yields an entry exactly when its extension is recognised, and
      that entry is the file under its own name with its kind and options. */
  lemma ClassifyKept(scheme: Scheme, name: string, src: string)
    ensures Classify(scheme, name, src).Some? <==> Recognised(scheme, ExtName(name))
    ensures Classify(scheme, name, src).Some? ==>
      var e := Classify(scheme, name, src).value;
      Kept(scheme, e) && e.name == name && e.src == src
  {
  }

  /** What the walk produces for a listing: each node's contribution, in
      order. */
  function Collected(scheme: Scheme, listing: seq<Node>): seq<FileEntry>
    decreases listing
  {
    if listing == [] then []
    else Collected(scheme, listing[..|listing| - 1]) + Contribution(scheme, listing[|listing| - 1])
  }

  /** What one listed node contributes: a recognised file its entry, a
      directory the walk descends into the entries below it. */
  function Contribution(scheme: Scheme, n: Node): seq<FileEntry>
    decreases n
  {
    match n
    case FileNode(name, src) =>
      var e := Classify(scheme, name, src);
      if e.Some? then [e.value] else []
    case DirNode(name, children) =>
      if Descends(scheme, name) then Collected(scheme, children) else []
  }

  /** `readFiles`: the loop over the listing. */
  method ReadFiles(scheme: Scheme, listing: seq<Node>) returns (files: seq<FileEntry>)
    ensures files == Collected(scheme, listing)
    decreases listing, 1
  {
    files := [];
    var i := 0;
    ghost var done: seq<Node> := [];
    while i < |listing|
      invariant i <= |listing| && done == listing[..i]
      invariant files == Collected(scheme, done)
    {
      var node := listing[i];
      var more := ReadNode(scheme, node);
      CollectedSnoc(scheme, done, node);
      files := files + more;
      done := done + [node];
      i := i + 1;
    }
    assert done == listing;
  }

  /** The loop body for one listed node: recurse into a directory unless it
      is ignored, classify a file. */
  method ReadNode(scheme: Scheme, node: Node) returns (entries: seq<FileEntry>)
    ensures entries == Contribution(scheme, node)
    decreases node, 0
  {
    match node {
      case DirNode(name, children) =>
        entries := [];
        if Descends(scheme, name) {
          entries := ReadFiles(scheme, children);
        }
      case FileNode(name, src) =>
        var entry := Classify(scheme, name, src);
        entries := if entry.Some? then [entry.value] else [];
    }
  }

  /** One more listed node adds its contribution at the end. */
  lemma CollectedSnoc(scheme: Scheme, listing: seq<Node>, n: Node)
    ensures Collected(scheme, listing + [n]) == Collected(scheme, listing) + Contribution(scheme, n)
  {
    assert (listing + [n])[..|listing|] == listing;
  }

  lemma AppendStep(scheme: Scheme, a: seq<Node>, front: seq<Node>, last: Node)
    requires Collected(scheme, a + front) == Collected(scheme, a) + Collected(scheme, front)
    ensures Collected(scheme, a + (front + [last])) == Collected(scheme, a) + Collected(scheme, front + [last])
  {
    var x := Contribution(scheme, last);
    calc {
      Collected(scheme, a + (front + [last]));
      { assert a + (front + [last]) == (a + front) + [last]; }
      Collected(scheme, (a + front) + [last]);
      { CollectedSnoc(scheme, a + front, last); }
      Collected(scheme, a + front) + x;
      Collected(scheme, a) + Collected(scheme, front) + x;
      Collected(scheme, a) + (Collected(scheme, front) + x);
      { CollectedSnoc(scheme, front, last); }
      Collected(scheme, a) + Collected(scheme, front + [last]);
    }
  }

  /** The entries of two listings one after the other: a directory's
      entries are spliced in at its place in the listing. */
  lemma {:induction false} CollectedAppend(scheme: Scheme, a: seq<Node>, b: seq<Node>)
    ensures Collected(scheme, a + b) == Collected(scheme, a) + Collected(scheme, b)
    decreases |b|
  {
    if b == [] {
      assert a + b == a;
    } else {
      var front, last := b[..|b| - 1], b[|b| - 1];
      assert b == front + [last];
      CollectedAppend(scheme, a, front);
      AppendStep(scheme, a, front, last);
    }
  }

  /** Every entry the walk produces, at any depth, has the kind and options
      its extension calls for. */
  lemma {:induction false} CollectedKept(scheme: Scheme, listing: seq<Node>)
    ensures forall e :: e in Collected(scheme, listing) ==> Kept(scheme, e)
    decreases listing, 1
  {
    if listing != [] {
      CollectedKept(scheme, listing[..|listing| - 1]);
      ContributionKept(scheme, listing[|listing| - 1]);
    }
  }

  lemma {:induction false} ContributionKept(scheme: Scheme, n: Node)
    ensures forall e :: e in Contribution(scheme, n) ==> Kept(scheme, e)
    decreases n, 0
  {
    match n
    case FileNode(name, src) =>
      ClassifyKept(scheme, name, src);
    case DirNode(name, children) =>
      if Descends(scheme, name) {
        CollectedKept(scheme, children);
      }
  }

  /** The walk skips nothing it recognises at its own level: a listed file
      with a recognised extension yields its entry. */
  lemma FileCollected(scheme: Scheme, listing: seq<Node>, k: nat)
    requires k < |listing| && listing[k].FileNode?
    requires Recognised(scheme, ExtName(listing[k].name))
    ensures Classify(scheme, listing[k].name, listing[k].src).value in Collected(scheme, listing)
  {
    ClassifyKept(scheme, listing[k].name, listing[k].src);
    assert listing == listing[..k] + [listing[k]] + listing[k + 1..];
    CollectedAppend(scheme, listing[..k] + [listing[k]], listing[k + 1..]);
    CollectedSnoc(scheme, listing[..k], listing[k]);
  }

  /** The C tool's walk yields nothing from a directory on its ignore list,
      whatever it holds, while the JavaScript tool's walk takes the
      directory's entries whatever its name. */
  lemma IgnoredDirectory(listing: seq<Node>, name: string, children: seq<Node>)
    ensures name in Ignored ==>
      Collected(CFiles, listing + [DirNode(name, children)]) == Collected(CFiles, listing)
    ensures Collected(JsFiles, listing + [DirNode(name, children)]) ==
      Collected(JsFiles, listing) + Collected(JsFiles, children)
  {
    CollectedSnoc(CFiles, listing, DirNode(name, children));
    CollectedSnoc(JsFiles, listing, DirNode(name, children));
  }
}
