/** Path handling used by the command-line tools: Node's `path.extname`,
    the first-occurrence `String.prototype.replace` with a string pattern,
    and the rewrite of a TypeScript entry point to its bundle path
    (js2wasm-cli/src/build.ts:223-226, repeated in
    js2wasm-cli/src/main.ts:85-88). */
module Paths {

  import opened Wrappers
  import opened Text

  /** The path without its trailing slashes. */
  function StripTrailingSlashes(p: string): string
  {
    if p != [] && p[|p| - 1] == '/' then StripTrailingSlashes(p[..|p| - 1]) else p
  }

  /** The text after the last `/`. */
  function Segment(s: string): string
  {
    if s == [] || s[|s| - 1] == '/' then [] else Segment(s[..|s| - 1]) + [s[|s| - 1]]
  }

  /** The last segment of the path, as `path.basename` sees it. */
  function Basename(p: string): string
  {
    Segment(StripTrailingSlashes(p))
  }

  /** Offset of the last `.` in `b`, or -1 when there is none. */
  function LastDot(b: string): (k: int)
    ensures -1 <= k < |b|
  {
    if b == [] then -1 else if b[|b| - 1] == '.' then |b| - 1 else LastDot(b[..|b| - 1])
  }

  /** `path.extname(p)`: from the last `.` of the last segment to its end;
      `''` when that segment has no dot, starts with its only dot (`.bashrc`)
      or is `..`. */
  function ExtName(p: string): string
  {
    var b := Basename(p);
    var k := LastDot(b);
    if k <= 0 || b == ".." then "" else b[k..]
  }

  /** The segment is a slash-free end of the text, preceded by a slash when
      it is not all of it. */
  lemma {:induction false} SegmentSpec(s: string)
    ensures '/' !in Segment(s) && EndsWith(s, Segment(s))
    ensures var r := Segment(s); |r| < |s| ==> s[|s| - |r| - 1] == '/'
    decreases |s|
  {
    if s != [] && s[|s| - 1] != '/' {
      var front := s[..|s| - 1];
      var last := s[|s| - 1];
      SegmentSpec(front);
      var r := Segment(front);
      assert Segment(s) == r + [last];
      assert s == front + [last];
      assert front[|front| - |r|..] == r;
      assert s[|s| - |r| - 1..] == front[|front| - |r|..] + [last];
      assert '/' !in r + [last];
      if |r| < |front| {
        assert s[|s| - |r| - 2] == front[|front| - |r| - 1];
      }
    }
  }

  /** The last dot: a dot with none after it, -1 exactly when there is no
      dot at all. */
  lemma {:induction false} LastDotSpec(b: string)
    ensures LastDot(b) >= 0 ==> b[LastDot(b)] == '.' && '.' !in b[LastDot(b) + 1..]
    ensures LastDot(b) == -1 <==> '.' !in b
    decreases |b|
  {
    if b != [] && b[|b| - 1] != '.' {
      var last := b[|b| - 1];
      var front := b[..|b| - 1];
      LastDotSpec(front);
      var k := LastDot(front);
      assert LastDot(b) == k;
      assert b == front + [last];
      if k >= 0 {
        assert b[k] == front[k];
        assert b[k + 1..] == front[k + 1..] + [last];
      } else {
        assert '.' !in front + [last];
      }
    }
  }

  /** The dot the scan finds is the one with no dot after it. */
  lemma {:induction false} LastDotIs(b: string, k: nat)
    requires k < |b| && b[k] == '.' && '.' !in b[k + 1..]
    ensures LastDot(b) == k
    decreases |b|
  {
    if k < |b| - 1 {
      var front := b[..|b| - 1];
      assert b[|b| - 1] == b[k + 1..][|b| - k - 2];
      assert front[k + 1..] == b[k + 1..|b| - 1];
      LastDotIs(front, k);
    }
  }

  /** A name without slashes is its own base name. */
  lemma {:induction false} BasenameOfName(n: string)
    requires '/' !in n
    ensures Basename(n) == n
    decreases |n|
  {
    if n != [] {
      assert n[|n| - 1] in n;
      var front := n[..|n| - 1];
      assert '/' !in front by {
        forall j | 0 <= j < |front| ensures front[j] != '/' {
          assert front[j] == n[j];
        }
      }
      BasenameOfName(front);
      assert StripTrailingSlashes(front) == front;
    }
  }

  /** An extension is empty, or one dot followed by neither dots nor
      slashes. */
  lemma ExtNameShape(p: string)
    ensures var r := ExtName(p); r == "" || (r[0] == '.' && '.' !in r[1..] && '/' !in r)
  {
    var b := Basename(p);
    var k := LastDot(b);
    if k > 0 && b != ".." {
      SegmentSpec(StripTrailingSlashes(p));
      DotSuffixShape(b);
    }
  }

  /** From the last dot on, a slash-free text is one dot followed by
      neither dots nor slashes. */
  lemma DotSuffixShape(b: string)
    requires LastDot(b) >= 0 && '/' !in b
    ensures var r := b[LastDot(b)..]; r[0] == '.' && '.' !in r[1..] && '/' !in r
  {
    var k := LastDot(b);
    var r := b[k..];
    LastDotSpec(b);
    assert r[1..] == b[k + 1..];
    forall j | 0 <= j < |r| ensures r[j] != '/' {
      assert r[j] == b[k + j];
    }
  }


  /** For a plain file name (no `/`), the extension is `.x` exactly when the
      name ends with `.x` and has something before it. */
  lemma ExtNameOfName(n: string, x: string)
    requires '/' !in n && x != [] && '.' !in x && '/' !in x
    ensures ExtName(n) == "." + x <==> EndsWith(n, "." + x) && |n| > |x| + 1
  {
    var e := "." + x;
    BasenameOfName(n);
    LastDotSpec(n);
    if EndsWith(n, e) && |n| > |x| + 1 {
      var k := |n| - |e|;
      assert n[k..] == e;
      assert n[k + 1..] == x;
      LastDotIs(n, k);
    }
    if ExtName(n) == e {
      var k := LastDot(n);
      assert n[k..] == e;
    }
  }

  /** The base name of `dir/n` is `n` when `n` is a non-empty name
      without slashes. */
  lemma BasenameAfterDir(dir: string, n: string)
    requires n != [] && '/' !in n
    ensures Basename(dir + "/" + n) == n
  {
    var p := dir + "/" + n;
    assert p[|p| - 1] == n[|n| - 1];
    assert StripTrailingSlashes(p) == p;
    SegmentSpec(p);
    var r := Segment(p);
    var m := |p| - |r|;
    assert p[m..] == r;
    assert p[|dir|] == '/';
    assert m > |dir| by {
      forall k | m <= k < |p| ensures p[k] != '/' {
        assert p[k] == r[k - m];
      }
    }
    assert m <= |dir| + 1 by {
      forall k | |dir| < k < |p| ensures p[k] != '/' {
        assert p[k] == n[k - |dir| - 1];
      }
    }
    assert p[|dir| + 1..] == n;
  }

  /** A TypeScript file `<dir>/<x>.ts` has the extension ".ts". */
  lemma TsExtension(dir: string, x: string)
    requires x != [] && '/' !in x
    ensures ExtName(dir + "/" + x + ".ts") == ".ts"
  {
    var n := x + ".ts";
    assert dir + "/" + x + ".ts" == dir + "/" + n;
    assert '/' !in n;
    BasenameAfterDir(dir, n);
    BasenameOfName(n);
    assert n[|n| - 3..] == ".ts";
    ExtNameOfName(n, "ts");
  }

  /** The characters that give a `$` in a replacement string its special
      meaning when they follow it. */
  predicate Special(c: char)
  {
    c == '$' || c == '&' || c == '`' || c == '\''
  }

  /** What `$c` stands for, `c` being special. */
  function Expansion(c: char, matched: string, before: string, after: string): string
  {
    if c == '$' then "$" else if c == '&' then matched else if c == '`' then before else after
  }

  /** The replacement string as `replace` with a string pattern expands it
      (the GetSubstitution operation of ECMA-262, with no capture groups):
      `$$` is `$`, `$&` the matched text, `` $` `` the text before the match
      and `$'` the text after it; every other character, a lone `$` and `$1`
      included, stands for itself. */
  function Substitute(rep: string, matched: string, before: string, after: string): string
    decreases |rep|
  {
    if rep == [] then []
    else if rep[0] == '$' && |rep| >= 2 && Special(rep[1]) then
      Expansion(rep[1], matched, before, after) + Substitute(rep[2..], matched, before, after)
    else [rep[0]] + Substitute(rep[1..], matched, before, after)
  }

  /** A replacement without `$` is used as written. */
  lemma {:induction false} SubstitutePlain(rep: string, matched: string, before: string, after: string)
    ensures '$' !in rep ==> Substitute(rep, matched, before, after) == rep
    decreases |rep|
  {
    if rep != [] && '$' !in rep {
      assert rep[0] in rep;
      assert '$' !in rep[1..] by {
        forall k | 0 <= k < |rep| - 1 ensures rep[1..][k] != '$' {
          assert rep[1..][k] == rep[k + 1];
        }
      }
      SubstitutePlain(rep[1..], matched, before, after);
    }
  }

  /** The expansion of a concatenation is the concatenation of the
      expansions, unless a `$` at the end of the first part is followed by
      a special character. */
  lemma {:induction false} SubstituteAppend(a: string, b: string, matched: string, before: string, after: string)
    requires '$' !in a || b == [] || !Special(b[0])
    ensures Substitute(a + b, matched, before, after)
         == Substitute(a, matched, before, after) + Substitute(b, matched, before, after)
    decreases |a|
  {
    if a == [] {
      assert a + b == b;
    } else if a[0] == '$' && |a| >= 2 && Special(a[1]) {
      assert (a + b)[2..] == a[2..] + b;
      SubstituteAppend(a[2..], b, matched, before, after);
    } else if a[0] == '$' && |a| == 1 && b != [] {
      assert (a + b)[1..] == b;
      assert !Special((a + b)[1]);
    } else {
      assert (a + b)[1..] == a[1..] + b;
      SubstituteAppend(a[1..], b, matched, before, after);
    }
  }

  /** `s.replace(pat, rep)` with a string pattern: the first occurrence is
      replaced by the expansion of `rep`; an empty pattern matches at the
      front; an absent pattern changes nothing. */
  function ReplaceFirst(s: string, pat: string, rep: string): (r: string)
    ensures pat == "" ==> r == Substitute(rep, "", "", s) + s
    ensures !Contains(s, pat) ==> r == s
  {
    EmptyAtFront(s);
    match IndexOf(s, pat)
    case None => s
    case Some(i) => s[..i] + Substitute(rep, pat, s[..i], s[i + |pat|..]) + s[i + |pat|..]
  }

  /** The first occurrence of the pattern, wherever it is, is replaced by
      the expansion of `rep`, which sees the pattern as the match, the text
      before it and the text after it. */
  lemma ReplaceFirstSpec(s: string, pat: string, rep: string)
    ensures forall i: nat :: FirstOccurrence(s, pat, i) ==>
              ReplaceFirst(s, pat, rep) == s[..i] + Substitute(rep, pat, s[..i], s[i + |pat|..]) + s[i + |pat|..]
  {
    FirstOccurrenceFound(s, pat);
  }

  /** `indexOf` finds the first occurrence, whichever it is. */
  lemma FirstOccurrenceFound(s: string, t: string)
    ensures forall i: nat :: FirstOccurrence(s, t, i) ==> IndexOf(s, t) == Some(i)
  {
  }

  /** The empty pattern is found at the front, with all of the text after
      it. */
  lemma EmptyAtFront(s: string)
    ensures IndexOf(s, "") == Some(0) && s[..0] == "" && s[0..] == s
  {
  }

  /** A text without a dot does not contain `.ts`. */
  lemma NoDotNoTs(x: string)
    requires '.' !in x
    ensures !Contains(x, ".ts")
  {
    ContainsIff(x, ".ts");
    forall i: nat | i + 3 <= |x| ensures !OccursAt(x, ".ts", i) {
      assert x[i..i + 3][0] == x[i];
    }
  }

  /** The path `compileTs` and `main` bundle a TypeScript entry point to:
      the first occurrence of its last segment replaced by
      `dist/<stem>.js`, the stem being the segment's text before `.ts`. */
  function TsOutputPath(p: string): string
  {
    var file := LastPiece(p, '/');
    ReplaceFirst(p, file, "dist/" + Before(file, ".ts") + ".js")
  }

  /** The stem of `<stem>.ts` is `<stem>` when `.ts` does not occur in it. */
  lemma BeforeTs(stem: string)
    requires !Contains(stem, ".ts")
    ensures Before(stem + ".ts", ".ts") == stem
  {
    var s := stem + ".ts";
    ContainsIff(stem, ".ts");
    ContainsIff(s, ".ts");
    assert OccursAt(s, ".ts", |stem|);
    forall i: nat | i < |stem| ensures !OccursAt(s, ".ts", i) {
      if i + 3 <= |stem| {
        assert s[i..i + 3] == stem[i..i + 3];
        assert !OccursAt(stem, ".ts", i);
      } else if i + 2 == |stem| {
        assert s[i..i + 3][2] == '.';
      } else {
        assert s[i..i + 3][1] == '.';
      }
    }
  }

  /** The last piece of `dir/file` is `file` when `file` has no slash. */
  lemma LastPieceAfterSlash(dir: string, file: string)
    requires '/' !in file
    ensures LastPiece(dir + "/" + file, '/') == file
  {
    LastPieceAfter(dir, '/', file);
  }

  /** The first occurrence of a slash-free `file` in `dir + "/" + file` is
      the last segment itself when `dir` does not contain it. */
  lemma FirstOccurrenceIsLast(dir: string, file: string)
    requires file != "" && '/' !in file && !Contains(dir, file)
    ensures IndexOf(dir + "/" + file, file) == Some(|dir| + 1)
  {
    var s := dir + "/" + file;
    ContainsIff(dir, file);
    assert OccursAt(s, file, |dir| + 1);
    forall j: nat | j <= |dir| ensures !OccursAt(s, file, j) {
      if j + |file| <= |dir| {
        assert dir[j..j + |file|] == s[j..j + |file|];
        assert !OccursAt(dir, file, j);
      } else if j + |file| <= |s| {
        assert s[j..j + |file|][|dir| - j] == '/';
        assert file[|dir| - j] != '/';
      }
    }
  }

  lemma DistPath(dir: string, y: string)
    ensures dir + "/" + ("dist/" + y + ".js") == dir + "/dist/" + y + ".js"
  {
    assert "/" + "dist/" == "/dist/";
  }

  /** The replacement `dist/<stem>.js` expands to `dist/`, the expanded
      stem, and `.js`. */
  lemma DistReplacement(stem: string, matched: string, before: string, after: string)
    ensures Substitute("dist/" + stem + ".js", matched, before, after)
         == "dist/" + Substitute(stem, matched, before, after) + ".js"
  {
    SubstituteAppend("dist/" + stem, ".js", matched, before, after);
    SubstituteAppend("dist/", stem, matched, before, after);
    SubstitutePlain("dist/", matched, before, after);
    SubstitutePlain(".js", matched, before, after);
  }

  /** The name the bundle of `<dir>/<stem>.ts` takes in place of the stem:
      the stem with the replacement's `$` patterns expanded, the match being
      the file name, with the directory and its slash before it and nothing
      after it. */
  function DistStem(dir: string, stem: string): (y: string)
    ensures '$' !in stem ==> y == stem
  {
    SubstitutePlain(stem, stem + ".ts", dir + "/", "");
    Substitute(stem, stem + ".ts", dir + "/", "")
  }

  /** A replacement that does not start with `$` expands to a text that
      starts with the same character. */
  lemma SubstituteHead(rep: string, matched: string, before: string, after: string)
    requires rep != [] && rep[0] != '$'
    ensures Substitute(rep, matched, before, after) != []
    ensures Substitute(rep, matched, before, after)[0] == rep[0]
  {
  }

  /** The bundle path is never empty: `dist/` starts the expanded
      replacement, and when the file name is not found the path is kept,
      which then is not empty either. */
  lemma TsOutputPathNonEmpty(p: string)
    ensures TsOutputPath(p) != ""
  {
    var file := LastPiece(p, '/');
    var rep := "dist/" + Before(file, ".ts") + ".js";
    assert rep[0] == 'd';
    match IndexOf(p, file)
    case None =>
      if p == "" {
        EmptyAtFront(p);
      }
    case Some(i) =>
      SubstituteHead(rep, file, p[..i], p[i + |file|..]);
  }

  /** The rewrite in terms of its two ingredients. */
  lemma TsOutputPathFrom(p: string, file: string, stem: string)
    requires LastPiece(p, '/') == file && Before(file, ".ts") == stem
    ensures TsOutputPath(p) == ReplaceFirst(p, file, "dist/" + stem + ".js")
  {
  }

  /** Replacing an occurrence found at `i`. */
  lemma ReplaceFirstAt(s: string, pat: string, rep: string, i: nat)
    requires IndexOf(s, pat) == Some(i)
    ensures i + |pat| <= |s|
    ensures ReplaceFirst(s, pat, rep) == s[..i] + Substitute(rep, pat, s[..i], s[i + |pat|..]) + s[i + |pat|..]
  {
  }

  /** The rewrite, once the file name is found after the directory. */
  lemma RewriteAfterDir(p: string, dir: string, file: string, stem: string)
    requires p == dir + "/" + file && file != ""
    requires LastPiece(p, '/') == file && Before(file, ".ts") == stem
    requires IndexOf(p, file) == Some(|dir| + 1)
    ensures TsOutputPath(p) == dir + "/" + ("dist/" + Substitute(stem, file, dir + "/", "") + ".js")
  {
    var rep := "dist/" + stem + ".js";
    TsOutputPathFrom(p, file, stem);
    ReplaceFirstAt(p, file, rep, |dir| + 1);
    assert p[..|dir| + 1] == dir + "/";
    assert p[|dir| + 1 + |file|..] == "";
    DistReplacement(stem, file, dir + "/", "");
  }

  /** For an ordinary path `<dir>/<stem>.ts`, where neither `dir` contains
      the file name nor the stem contains `.ts`, the bundle goes to
      `<dir>/dist/<y>.js`, `y` being the stem with the replacement's `$`
      patterns expanded: the stem itself when it has no `$`. */
  lemma TsOutputPathOrdinary(dir: string, stem: string)
    requires '/' !in stem && !Contains(stem, ".ts") && !Contains(dir, stem + ".ts")
    ensures TsOutputPath(dir + "/" + stem + ".ts") == dir + "/dist/" + DistStem(dir, stem) + ".js"
    ensures '$' !in stem ==> TsOutputPath(dir + "/" + stem + ".ts") == dir + "/dist/" + stem + ".js"
  {
    var file := stem + ".ts";
    var p := dir + "/" + file;
    assert dir + "/" + stem + ".ts" == p;
    LastPieceAfterSlash(dir, file);
    BeforeTs(stem);
    FirstOccurrenceIsLast(dir, file);
    RewriteAfterDir(p, dir, file, stem);
    DistPath(dir, DistStem(dir, stem));
  }

  /** Without a directory part the file name is the whole path, and nothing
      stands before or after the match. */
  lemma TsOutputPathBare(stem: string)
    requires '/' !in stem && !Contains(stem, ".ts")
    ensures TsOutputPath(stem + ".ts") == "dist/" + Substitute(stem, stem + ".ts", "", "") + ".js"
    ensures '$' !in stem ==> TsOutputPath(stem + ".ts") == "dist/" + stem + ".js"
  {
    var file := stem + ".ts";
    assert '/' !in file;
    BeforeTs(stem);
    assert file[..|file|] == file;
    RewriteAtFront(file, file, stem);
    assert file[|file|..] == "";
    SubstitutePlain(stem, file, "", "");
  }

  lemma HitPath(stem: string, y: string)
    ensures stem + ".ts.d/" + stem + ".ts" == (stem + ".ts" + ".d") + "/" + (stem + ".ts")
    ensures var p := stem + ".ts.d/" + stem + ".ts";
      p[|stem + ".ts"|..] == ".d/" + stem + ".ts"
      && "dist/" + y + ".js" + p[|stem + ".ts"|..] == "dist/" + y + ".js.d/" + stem + ".ts"
  {
    var p := stem + ".ts.d/" + stem + ".ts";
    assert p[|stem + ".ts"|..] == ".d/" + stem + ".ts";
  }

  /** The rewrite of a path that starts with its own file name. */
  lemma RewriteAtFront(p: string, file: string, stem: string)
    requires file != "" && StartsWith(p, file)
    requires LastPiece(p, '/') == file && Before(file, ".ts") == stem
    ensures TsOutputPath(p) == "dist/" + Substitute(stem, file, "", p[|file|..]) + ".js" + p[|file|..]
  {
    var rep := "dist/" + stem + ".js";
    assert p[0..|file|] == file;
    assert IndexFrom(p, file, 0) == Some(0);
    TsOutputPathFrom(p, file, stem);
    ReplaceAtFront(p, file, rep);
    DistReplacement(stem, file, "", p[|file|..]);
  }

  /** Replacing an occurrence found at the front. */
  lemma ReplaceAtFront(s: string, pat: string, rep: string)
    requires IndexOf(s, pat) == Some(0)
    ensures ReplaceFirst(s, pat, rep) == Substitute(rep, pat, "", s[|pat|..]) + s[|pat|..]
  {
    ReplaceFirstAt(s, pat, rep, 0);
    assert s[..0] == "";
  }

  /** Because the replacement hits the first occurrence of the file name, a
      directory whose name starts with it takes the rewrite instead:
      `hook.ts.d/hook.ts` is bundled to `dist/hook.js.d/hook.ts`; the
      expansion of `$` patterns sees the rest of the path after the match. */
  lemma TsOutputPathHitsDirectory(stem: string)
    requires '/' !in stem && !Contains(stem, ".ts")
    ensures TsOutputPath(stem + ".ts.d/" + stem + ".ts")
         == "dist/" + Substitute(stem, stem + ".ts", "", ".d/" + stem + ".ts") + ".js.d/" + stem + ".ts"
    ensures '$' !in stem ==> TsOutputPath(stem + ".ts.d/" + stem + ".ts") == "dist/" + stem + ".js.d/" + stem + ".ts"
  {
    var file := stem + ".ts";
    var q := (file + ".d") + "/" + file;
    var y := Substitute(stem, file, "", ".d/" + stem + ".ts");
    assert '/' !in file;
    BeforeTs(stem);
    FileUnderItself(file, ".d");
    RewriteAtFront(q, file, stem);
    HitPath(stem, y);
    SubstitutePlain(stem, file, "", ".d/" + stem + ".ts");
  }

  /** `$$` in the stem comes out as one `$`: `src/a$$b.ts` is bundled to
      `src/dist/a$b.js`. */
  lemma DoubleDollarStem(dir: string, x: string, y: string)
    requires '$' !in x && '$' !in y && '/' !in x + y && '.' !in x + y
    requires !Contains(dir, x + "$$" + y + ".ts")
    ensures TsOutputPath(dir + "/" + x + "$$" + y + ".ts") == dir + "/dist/" + x + "$" + y + ".js"
  {
    var stem := x + "$$" + y;
    NoSlashNoDot(x, y, "$$");
    DollarExpands(x, y, '$', stem + ".ts", dir + "/", "");
    TsOutputPathIs(dir, stem, x + "$" + y);
    PathAssoc(dir, x, "$$", y);
  }

  /** `$&` in the stem brings in the file name: `src/a$&b.ts` is bundled to
      `src/dist/aa$&b.tsb.js`. */
  lemma MatchDollarStem(dir: string, x: string, y: string)
    requires '$' !in x && '$' !in y && '/' !in x + y && '.' !in x + y
    requires !Contains(dir, x + "$&" + y + ".ts")
    ensures var file := x + "$&" + y + ".ts";
      TsOutputPath(dir + "/" + file) == dir + "/dist/" + x + file + y + ".js"
  {
    var stem := x + "$&" + y;
    var file := stem + ".ts";
    NoSlashNoDot(x, y, "$&");
    DollarExpands(x, y, '&', file, dir + "/", "");
    TsOutputPathIs(dir, stem, x + file + y);
    PathAssoc(dir, x, "$&", y);
  }

  /** The ordinary rewrite, with the expanded stem named. */
  lemma TsOutputPathIs(dir: string, stem: string, y: string)
    requires '/' !in stem && !Contains(stem, ".ts") && !Contains(dir, stem + ".ts")
    requires DistStem(dir, stem) == y
    ensures TsOutputPath(dir + "/" + stem + ".ts") == dir + "/dist/" + y + ".js"
  {
    TsOutputPathOrdinary(dir, stem);
  }

  /** One `$c` pattern between two `$`-free texts expands to what `c`
      stands for. */
  lemma DollarExpands(x: string, y: string, c: char, matched: string, before: string, after: string)
    requires '$' !in x && '$' !in y && Special(c)
    ensures Substitute(x + ['$', c] + y, matched, before, after)
         == x + Expansion(c, matched, before, after) + y
  {
    var rest := ['$', c] + y;
    assert x + ['$', c] + y == x + rest;
    SubstituteAppend(x, rest, matched, before, after);
    assert rest[2..] == y;
    SubstitutePlain(x, matched, before, after);
    SubstitutePlain(y, matched, before, after);
  }

  lemma PathAssoc(dir: string, x: string, m: string, y: string)
    ensures dir + "/" + x + m + y + ".ts" == dir + "/" + (x + m + y) + ".ts"
    ensures dir + "/" + (x + m + y + ".ts") == dir + "/" + (x + m + y) + ".ts"
    ensures forall e :: dir + "/dist/" + (x + e + y) + ".js" == dir + "/dist/" + x + e + y + ".js"
  {
  }

  /** Two dot- and slash-free texts around a two-character middle without
      dots or slashes make a stem the ordinary rewrite applies to. */
  lemma NoSlashNoDot(x: string, y: string, mid: string)
    requires '/' !in x + y && '.' !in x + y && '/' !in mid && '.' !in mid
    ensures '/' !in x + mid + y && '.' !in x + mid + y && !Contains(x + mid + y, ".ts")
  {
    assert forall c :: c in x + mid + y ==> c in x + y || c in mid;
    NoDotNoTs(x + mid + y);
  }

  /** In `<file><d>/<file>` the last segment is `file`, which is also the
      start of the path. */
  lemma FileUnderItself(file: string, d: string)
    requires '/' !in file
    ensures LastPiece((file + d) + "/" + file, '/') == file
    ensures StartsWith((file + d) + "/" + file, file)
  {
    LastPieceAfterSlash(file + d, file);
    assert ((file + d) + "/" + file)[..|file|] == file;
  }

}
