/** The file-name check both build drivers apply to every submitted source
    file: `validate_filename` (c2wasm-api/src/chooks.ts:157-168, copied
    verbatim in c2wasm-api/src/jshooks.ts:109-120). A name passes when it
    matches `^[A-Za-z0-9_-]+[.][A-Za-z0-9]{1,4}$` and, once split on `/`, has
    no piece equal to `.` or `..`; the check returns the pieces, or `false`. */
module Filename {

  import opened Wrappers
  import opened Text

  /** `[A-Za-z0-9_-]`: the characters allowed before the dot. */
  predicate StemChar(c: char)
  {
    AlnumChar(c) || c == '_' || c == '-'
  }

  /** `[A-Za-z0-9]`: the characters allowed in the extension. */
  predicate AlnumChar(c: char)
  {
    ('A' <= c <= 'Z') || ('a' <= c <= 'z') || ('0' <= c <= '9')
  }

  /** The regular expression matches `name` with its `[.]` at offset `k`. */
  ghost predicate MatchesWithDotAt(name: string, k: nat)
  {
    && 1 <= k < |name|
    && name[k] == '.'
    && 1 <= |name| - k - 1 <= 4
    && (forall j :: 0 <= j < k ==> StemChar(name[j]))
    && (forall j :: k < j < |name| ==> AlnumChar(name[j]))
  }

  /** `/^[A-Za-z0-9_-]+[.][A-Za-z0-9]{1,4}$/.test(name)`, as a statement
      about the text. */
  ghost predicate MatchesPattern(name: string)
  {
    exists k: nat :: MatchesWithDotAt(name, k)
  }

  /** The same test, computed: no stem character is a dot, so the only place
      the `[.]` can match is the first dot of the name. */
  function PatternTest(name: string): bool
  {
    && '.' in name
    && var k := FirstOf(name, '.');
    && 1 <= k
    && 1 <= |name| - k - 1 <= 4
    && (forall j :: 0 <= j < k ==> StemChar(name[j]))
    && (forall j :: k < j < |name| ==> AlnumChar(name[j]))
  }

  /** `validate_filename`: `Some(parts)` where the source returns the
      array of pieces, `None` where it returns `false`. */
  function ValidateFilename(name: string): Option<seq<string>>
  {
    if !PatternTest(name) then None
    else
      var parts := Split(name, '/');
      if exists p :: p in parts && (p == "." || p == "..") then None
      else Some(parts)
  }

  /** The name check as a boolean, the way the drivers use it. */
  predicate ValidName(name: string)
  {
    ValidateFilename(name).Some?
  }

  /** The computed test and the regular expression accept the same names. */
  lemma PatternTestIsPattern(name: string)
    ensures PatternTest(name) <==> MatchesPattern(name)
  {
    if PatternTest(name) {
      assert MatchesWithDotAt(name, FirstOf(name, '.'));
    }
    if MatchesPattern(name) {
      var k: nat :| MatchesWithDotAt(name, k);
      assert '.' in name;
      var f := FirstOf(name, '.');
      assert forall j :: 0 <= j < k ==> name[j] != '.';
      assert f <= k by { assert name[..k + 1][k] == '.'; }
      assert f == k;
    }
  }

  /** A name the pattern accepts has one dot, no slash, and is neither `.`
      nor `..`. */
  lemma PatternShape(name: string, k: nat)
    requires MatchesWithDotAt(name, k)
    ensures forall j :: 0 <= j < |name| && j != k ==> name[j] != '.'
    ensures '/' !in name
    ensures name != "." && name != ".."
  {
    assert forall j :: 0 <= j < |name| ==> name[j] != '/' by {
      forall j | 0 <= j < |name| ensures name[j] != '/' {
        if j < k { assert StemChar(name[j]); } else if j > k { assert AlnumChar(name[j]); }
      }
    }
  }

  /** The check accepts exactly the names the regular expression accepts
      (the `.`/`..` test after it never fires: the pattern already excludes
      `/`, so the only piece is the name itself, which has a stem and an
      extension around its dot). An accepted name has exactly one dot, no `/`,
      is not `.` or `..`, and is made only of `[A-Za-z0-9_.-]`, so it carries
      no blank or shell metacharacter into a command line. */
  lemma ValidNameExactly(name: string)
    ensures ValidName(name) <==> MatchesPattern(name)
    ensures ValidName(name) ==> ValidateFilename(name) == Some([name])
    ensures ValidName(name) ==>
      && '/' !in name
      && name != "." && name != ".."
      && (exists k :: 0 <= k < |name| && name[k] == '.'
           && forall j :: 0 <= j < |name| && j != k ==> name[j] != '.')
      && (forall c :: c in name ==> StemChar(c) || c == '.')
  {
    PatternTestIsPattern(name);
    if MatchesPattern(name) {
      var k: nat :| MatchesWithDotAt(name, k);
      PatternShape(name, k);
      assert Split(name, '/') == [name];
      forall c | c in name ensures StemChar(c) || c == '.' {
        var j :| 0 <= j < |name| && name[j] == c;
        if j < k { assert StemChar(name[j]); } else if j > k { assert AlnumChar(name[j]); }
      }
    }
  }

  /** Names that are `.` or `..`, or that contain `../` or `/`, are rejected. */
  lemma TraversalRejected(name: string)
    requires name == "." || name == ".." || Contains(name, "../") || '/' in name
    ensures !ValidName(name)
  {
    ValidNameExactly(name);
    if Contains(name, "../") {
      ContainsIff(name, "../");
      var i: nat :| OccursAt(name, "../", i);
      assert name[i + 2] == '/';
    }
  }
}
