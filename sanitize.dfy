/** The allow-list option builders of the C driver
    (c2wasm-api/src/chooks.ts:100-147). Each walks a fixed list of known-good
    flags and, for every flag whose text occurs in the user's option string,
    appends the flag's OWN text (never the user's) to `safe_options`. */
module Sanitize {

  import opened Text

  /** Which builder is deciding: they differ in how a flag is matched. */
  datatype Builder = Optimization | Clang | Link

  /** `get_optimization_options`'s list; the default `-O0` is not on it. */
  const OptimizationFlags: seq<string> := ["-O1", "-O2", "-O3", "-O4", "-Os"]

  /** `get_clang_options`'s `miscellaneous_options`. */
  const ClangFlags: seq<string> := ["-ffast-math", "-fno-inline", "-std=c99", "-std=c89"]

  /** `get_lld_options`'s `available_options`, each passed on as `-Wl,<flag>`. */
  const LinkFlags: seq<string> := ["--import-memory", "-g"]

  /** The fixed compiler prefix, for the toolchain's `sysroot`. */
  function ClangPrefix(sysroot: string): string
  {
    "--sysroot=" + sysroot + CompileFlags
  }

  const CompileFlags: string := " -xc -I/app/clang/includes -fdiagnostics-print-source-range-info -Werror=implicit-function-declaration"

  /** The fixed linker prefix: no standard library, no start files, undefined
      symbols allowed, no entry point, every symbol exported. */
  const LinkPrefix: string := "--no-standard-libraries -nostartfiles -Wl,--allow-undefined,--no-entry,--export-all"

  /** Whether `builder` keeps `flag` for the user string `options`. The
      compiler builder also keeps a `-std=` flag found in the lower-cased
      options (its `else if` branch). */
  predicate Keeps(builder: Builder, options: string, flag: string)
  {
    match builder
    case Optimization => Contains(options, flag)
    case Link => Contains(options, flag)
    case Clang =>
      Contains(options, flag) || (Contains(flag, "-std=") && Contains(ToLower(options), flag))
  }

  /** The flags of `flags` that `builder` keeps, in list order. */
  function Kept(builder: Builder, options: string, flags: seq<string>): seq<string>
  {
    if flags == [] then []
    else
      var last := flags[|flags| - 1];
      Kept(builder, options, flags[..|flags| - 1]) + (if Keeps(builder, options, last) then [last] else [])
  }

  /** The text the builder's loop accumulates: `lead + flag` per kept flag. */
  function Spaced(flags: seq<string>, lead: string): string
  {
    if flags == [] then ""
    else Spaced(flags[..|flags| - 1], lead) + lead + flags[|flags| - 1]
  }

  /** One more kept flag adds its lead and its text at the end. */
  lemma SpacedSnoc(flags: seq<string>, x: string, lead: string)
    ensures Spaced(flags + [x], lead) == Spaced(flags, lead) + lead + x
  {
    assert (flags + [x])[..|flags|] == flags;
  }

  /** Deciding one more flag of the list. */
  lemma KeptStep(builder: Builder, options: string, flags: seq<string>, i: nat)
    requires i < |flags|
    ensures Kept(builder, options, flags[..i + 1])
      == Kept(builder, options, flags[..i]) + (if Keeps(builder, options, flags[i]) then [flags[i]] else [])
    ensures !Keeps(builder, options, flags[i]) ==> Kept(builder, options, flags[..i + 1]) == Kept(builder, options, flags[..i])
  {
    assert flags[..i + 1][..i] == flags[..i];
  }

  /** What `get_optimization_options` returns. */
  function OptimizationOptions(options: string): string
  {
    Spaced(Kept(Optimization, options, OptimizationFlags), " ")
  }

  /** What `get_clang_options` returns. */
  function ClangOptions(sysroot: string, options: string): string
  {
    ClangPrefix(sysroot) + Spaced(Kept(Clang, options, ClangFlags), " ")
  }

  /** What `get_lld_options` returns: the prefix alone for an empty string
      (its early return), else the prefix and ` -Wl,<flag>` per kept flag. */
  function LldOptions(options: string): string
  {
    if options == "" then LinkPrefix
    else LinkPrefix + Spaced(Kept(Link, options, LinkFlags), " -Wl,")
  }

  /** `get_optimization_options` (chooks.ts:100-113). */
  method GetOptimizationOptions(options: string) returns (safe: string)
    ensures safe == OptimizationOptions(options)
  {
    var flags := OptimizationFlags;
    safe := "";
    for i := 0 to |flags|
      invariant safe == Spaced(Kept(Optimization, options, flags[..i]), " ")
    {
      var o := flags[i];
      KeptStep(Optimization, options, flags, i);
      SpacedSnoc(Kept(Optimization, options, flags[..i]), o, " ");
      if Contains(options, o) {
        safe := safe + " " + o;
      }
    }
    assert flags[..|flags|] == flags;
  }

  /** `get_clang_options` (chooks.ts:115-131), for the toolchain's
      `sysroot`. */
  method GetClangOptions(sysroot: string, options: string) returns (r: string)
    ensures r == ClangOptions(sysroot, options)
  {
    var flags := ClangFlags;
    var safe := "";
    for i := 0 to |flags|
      invariant safe == Spaced(Kept(Clang, options, flags[..i]), " ")
    {
      var o := flags[i];
      KeptStep(Clang, options, flags, i);
      SpacedSnoc(Kept(Clang, options, flags[..i]), o, " ");
      if Contains(options, o) {
        safe := safe + " " + o;
      } else if Contains(o, "-std=") && Contains(ToLower(options), o) {
        safe := safe + " " + o;
      }
    }
    assert flags[..|flags|] == flags;
    r := ClangPrefix(sysroot) + safe;
  }

  /** `get_lld_options` (chooks.ts:133-147). */
  method GetLldOptions(options: string) returns (r: string)
    ensures r == LldOptions(options)
  {
    if options == "" {
      return LinkPrefix;
    }
    var flags := LinkFlags;
    var safe := "";
    for i := 0 to |flags|
      invariant safe == Spaced(Kept(Link, options, flags[..i]), " -Wl,")
    {
      var o := flags[i];
      KeptStep(Link, options, flags, i);
      SpacedSnoc(Kept(Link, options, flags[..i]), o, " -Wl,");
      if Contains(options, o) {
        safe := safe + " -Wl," + o;
      }
    }
    assert flags[..|flags|] == flags;
    r := LinkPrefix + safe;
  }

  /** Position of `f` in `flags` (the first one). */
  function Rank(flags: seq<string>, f: string): nat
    requires f in flags
    ensures Rank(flags, f) < |flags| && flags[Rank(flags, f)] == f
  {
    if flags[0] == f then 0 else 1 + Rank(flags[1..], f)
  }

  predicate Distinct(flags: seq<string>)
  {
    forall i, j :: 0 <= i < j < |flags| ==> flags[i] != flags[j]
  }

  /** Every element of `sub` is in `flags`, and `sub` lists them in the
      order `flags` has them, each once. */
  predicate InOrder(sub: seq<string>, flags: seq<string>)
  {
    && (forall f :: f in sub ==> f in flags)
    && forall i, j :: 0 <= i < j < |sub| ==> Rank(flags, sub[i]) < Rank(flags, sub[j])
  }

  /** No allow-list repeats a flag. */
  lemma AllowListsDistinct()
    ensures Distinct(OptimizationFlags) && Distinct(ClangFlags) && Distinct(LinkFlags)
  {
    var o := OptimizationFlags;
    assert forall i :: 0 <= i < |o| ==> |o[i]| == 3 && o[i][..2] == "-O";
    assert o[0][2] == '1' && o[1][2] == '2' && o[2][2] == '3' && o[3][2] == '4' && o[4][2] == 's';
    var c := ClangFlags;
    assert c[0][1] == 'f' && c[1][1] == 'f' && c[2][1] == 's' && c[3][1] == 's';
    assert c[0][2] == 'f' && c[1][2] == 'n';
    assert c[2][6] == '9' && c[3][6] == '8';
    assert |LinkFlags[0]| != |LinkFlags[1]|;
  }

  /** The rank of an element does not change when the list grows at the end. */
  lemma {:induction false} RankSnoc(flags: seq<string>, x: string, f: string)
    requires f in flags
    ensures Rank(flags + [x], f) == Rank(flags, f)
  {
    if flags[0] != f {
      assert (flags + [x])[1..] == flags[1..] + [x];
      RankSnoc(flags[1..], x, f);
    }
  }

  /** A flag not yet in the list ranks after every earlier flag. */
  lemma {:induction false} RankLast(flags: seq<string>, x: string)
    requires x !in flags
    ensures Rank(flags + [x], x) == |flags|
  {
    if flags != [] {
      assert (flags + [x])[1..] == flags[1..] + [x];
      RankLast(flags[1..], x);
    }
  }

  /** Allow-list soundness and completeness: a flag is emitted iff it is on
      the list and matched; emitted flags keep the list's order, so on a list
      without repeats each appears at most once. */
  lemma {:induction false} KeptExactly(builder: Builder, options: string, flags: seq<string>)
    ensures forall f :: f in Kept(builder, options, flags) <==> f in flags && Keeps(builder, options, f)
    ensures Distinct(flags) ==> InOrder(Kept(builder, options, flags), flags)
  {
    if flags != [] {
      var init, last := flags[..|flags| - 1], flags[|flags| - 1];
      assert flags == init + [last];
      KeptExactly(builder, options, init);
      var k0 := Kept(builder, options, init);
      var k := Kept(builder, options, flags);
      if Distinct(flags) {
        assert Distinct(init);
        forall f | f in k0 ensures Rank(flags, f) == Rank(init, f) {
          RankSnoc(init, last, f);
        }
        if Keeps(builder, options, last) {
          assert last !in init;
          RankLast(init, last);
          assert k == k0 + [last];
          forall i, j | 0 <= i < j < |k| ensures Rank(flags, k[i]) < Rank(flags, k[j]) {
            assert k[i] == k0[i] && k0[i] in k0;
            if j < |k0| {
              assert k[j] == k0[j] && k0[j] in k0;
            } else {
              assert k[j] == last;
              assert Rank(flags, k[i]) == Rank(init, k0[i]) < |init|;
            }
          }
        } else {
          assert k == k0;
          forall i, j | 0 <= i < j < |k| ensures Rank(flags, k[i]) < Rank(flags, k[j]) {
            assert k[i] == k0[i] && k0[i] in k0;
            assert k[j] == k0[j] && k0[j] in k0;
            assert InOrder(k0, init);
            assert Rank(init, k0[i]) < Rank(init, k0[j]);
          }
        }
      }
    }
  }

  /** The builders' text depends on the user string only through which
      allow-listed flags it matches: two strings matching the same flags give
      the same text, so no other part of the user's text can reach it. */
  lemma {:induction false} KeptDependsOnlyOnMatches(builder: Builder, o1: string, o2: string, flags: seq<string>)
    requires forall f :: f in flags ==> (Keeps(builder, o1, f) <==> Keeps(builder, o2, f))
    ensures Kept(builder, o1, flags) == Kept(builder, o2, flags)
  {
    if flags != [] {
      KeptDependsOnlyOnMatches(builder, o1, o2, flags[..|flags| - 1]);
    }
  }

  /** With a non-empty lead, the accumulated text is empty iff nothing was
      kept. */
  lemma {:induction false} SpacedEmptyIff(flags: seq<string>, lead: string)
    requires lead != ""
    ensures Spaced(flags, lead) == "" <==> flags == []
  {
    if flags != [] {
      assert |Spaced(flags, lead)| >= |lead|;
    }
  }

  /** Nothing is kept exactly when no flag of the list matches. */
  lemma KeptEmptyIff(builder: Builder, options: string, flags: seq<string>)
    ensures Kept(builder, options, flags) == [] <==> forall f :: f in flags ==> !Keeps(builder, options, f)
  {
    KeptExactly(builder, options, flags);
    var k := Kept(builder, options, flags);
    if k != [] {
      assert k[0] in k;
    }
  }

  /** `get_optimization_options` returns `''` exactly when no level of the
      list occurs in the options. */
  lemma OptimizationOptionsEmptyIff(options: string)
    ensures OptimizationOptions(options) == "" <==> forall f :: f in OptimizationFlags ==> !Contains(options, f)
  {
    var flags := OptimizationFlags;
    KeptEmptyIff(Optimization, options, flags);
    SpacedEmptyIff(Kept(Optimization, options, flags), " ");
  }

  /** `get_optimization_options` never emits `-O0`; it emits each level
      found, and only those, in the order `-O1,-O2,-O3,-O4,-Os`. */
  lemma OptimizationOptionsSpec(options: string)
    ensures "-O0" !in Kept(Optimization, options, OptimizationFlags)
    ensures forall f :: f in Kept(Optimization, options, OptimizationFlags) <==> f in OptimizationFlags && Contains(options, f)
    ensures InOrder(Kept(Optimization, options, OptimizationFlags), OptimizationFlags)
  {
    var flags := OptimizationFlags;
    AllowListsDistinct();
    KeptExactly(Optimization, options, flags);
    assert "-O0" !in flags by {
      assert forall i :: 0 <= i < |flags| ==> flags[i][2] != '0';
    }
  }

  /** The compiler options always start with the fixed prefix; every
      appended token is an allow-listed flag the options matched; `-std=`
      flags also match case-insensitively. */
  lemma ClangOptionsSpec(sysroot: string, options: string)
    ensures StartsWith(ClangOptions(sysroot, options), ClangPrefix(sysroot))
    ensures forall f :: f in Kept(Clang, options, ClangFlags) <==> f in ClangFlags && Keeps(Clang, options, f)
    ensures Contains(ToLower(options), "-std=c99") ==> "-std=c99" in Kept(Clang, options, ClangFlags)
    ensures Contains(ToLower(options), "-std=c89") ==> "-std=c89" in Kept(Clang, options, ClangFlags)
    ensures InOrder(Kept(Clang, options, ClangFlags), ClangFlags)
  {
    AllowListsDistinct();
    KeptExactly(Clang, options, ClangFlags);
    assert OccursAt("-std=c99", "-std=", 0) && OccursAt("-std=c89", "-std=", 0);
    var c := ClangOptions(sysroot, options);
    assert c[..|ClangPrefix(sysroot)|] == ClangPrefix(sysroot);
  }

  /** The linker options always start with the fixed prefix; empty options
      give exactly the prefix; otherwise each appended `-Wl,` token is an
      allow-listed flag the options matched, in list order. The early
      return for empty options agrees with the loop: no flag occurs in "". */
  lemma LldOptionsSpec(options: string)
    ensures StartsWith(LldOptions(options), LinkPrefix)
    ensures options == "" ==> LldOptions(options) == LinkPrefix
    ensures LldOptions(options) == LinkPrefix + Spaced(Kept(Link, options, LinkFlags), " -Wl,")
    ensures forall f :: f in Kept(Link, options, LinkFlags) <==> f in LinkFlags && Contains(options, f)
    ensures InOrder(Kept(Link, options, LinkFlags), LinkFlags)
  {
    AllowListsDistinct();
    KeptExactly(Link, options, LinkFlags);
    if options == "" {
      assert !Contains("", "--import-memory") && !Contains("", "-g");
      assert Kept(Link, options, LinkFlags) == [];
    }
    var l := LldOptions(options);
    assert l[..|LinkPrefix|] == LinkPrefix;
  }
}
