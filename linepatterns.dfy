/** The line patterns of `clean` (js2wasm-cli/src/build.ts:208-221 and
    js2wasm-cli/src/main.ts:25-46) and the global `replace` that deletes
    their matches. The patterns carry the `g` and `m` flags, so `^` holds at
    the start of the text or after a line terminator, `$` at the end or
    before one; `\s` is white space including line terminators, and `.` is
    any character but a line terminator. Each matcher gives where the match
    the backtracking search finds at a position ends, trying greedy
    quantifiers longest first and the lazy one shortest first. */
module LinePatterns {

  import opened Wrappers
  import opened Text

  /** `/^\s*import\s+.*?;\s*$/gm`, `/^\s*export\s*\{([^}]*)\};?\s*$/gm` and
      `/^\s*\/\/.*$/gm`. */
  datatype Pattern = Import | Export | Comment

  /** Where `^` holds. */
  predicate LineStart(s: string, i: nat)
    requires i <= |s|
  {
    i == 0 || IsLineTerminator(s[i - 1])
  }

  /** Where `$` holds. */
  predicate LineEnd(s: string, e: nat)
    requires e <= |s|
  {
    e == |s| || IsLineTerminator(s[e])
  }

  /** The first line end at or after `j`: where a greedy `.*` started at `j`
      stops. */
  function LineEndFrom(s: string, j: nat): (e: nat)
    requires j <= |s|
    ensures j <= e <= |s| && LineEnd(s, e)
    ensures forall m :: j <= m < e ==> !IsLineTerminator(s[m])
    decreases |s| - j
  {
    if j == |s| || IsLineTerminator(s[j]) then j else LineEndFrom(s, j + 1)
  }

  /** The first `}` at or after `j`, or the end: where a greedy `[^}]*`
      started at `j` stops. */
  function BraceFrom(s: string, j: nat): (c: nat)
    requires j <= |s|
    ensures j <= c <= |s| && (c < |s| ==> s[c] == '}')
    ensures forall m :: j <= m < c ==> s[m] != '}'
    decreases |s| - j
  {
    if j == |s| || s[j] == '}' then j else BraceFrom(s, j + 1)
  }

  /** `\s*$` after the greedy `\s*` reached `k`: give characters back, down
      to `j`, until `$` holds. */
  function GiveBack(s: string, j: nat, k: nat): (r: Option<nat>)
    requires j <= k <= |s|
    ensures r.Some? ==> j <= r.value <= k && LineEnd(s, r.value)
    ensures r.Some? ==> forall m :: r.value < m <= k ==> !LineEnd(s, m)
    ensures r.None? ==> forall m :: j <= m <= k ==> !LineEnd(s, m)
    decreases k
  {
    if LineEnd(s, k) then Some(k) else if k == j then None else GiveBack(s, j, k - 1)
  }

  /** `\s*$` from `j`: the last line end within the white space that starts
      at `j`. */
  function SpaceToLineEnd(s: string, j: nat): (r: Option<nat>)
    requires j <= |s|
    ensures r.Some? ==> j <= r.value <= |s| && LineEnd(s, r.value)
  {
    GiveBack(s, j, SkipSpace(s, j))
  }

  /** `.*?;\s*$` from `n`: the nearest `;` on the line after which white
      space reaches a line end; a `;` that fails this is taken by `.*?`. */
  function LazyToSemicolon(s: string, n: nat): (r: Option<nat>)
    requires n <= |s|
    ensures r.Some? ==> n < r.value <= |s| && LineEnd(s, r.value)
    decreases |s| - n
  {
    if n == |s| then None
    else if s[n] == ';' && SpaceToLineEnd(s, n + 1).Some? then SpaceToLineEnd(s, n + 1)
    else if IsLineTerminator(s[n]) then None
    else LazyToSemicolon(s, n + 1)
  }

  /** `^\s*` from `i`: the greedy `\s*` is given back in vain, since the
      word that follows does not start with white space, so the word must
      start where the white space ends. */
  function WordAt(s: string, i: nat, word: string): (k: Option<nat>)
    requires i <= |s|
    ensures k.Some? ==> k.value == SkipSpace(s, i) && OccursAt(s, word, k.value) && LineStart(s, i)
  {
    if !LineStart(s, i) then None
    else
      var k := SkipSpace(s, i);
      if OccursAt(s, word, k) then Some(k) else None
  }

  /** The import pattern at `i`. The greedy `\s+` is not given back either:
      a shorter run leaves only white space in front of the first `;` that
      `.*?` can reach. */
  function ImportAt(s: string, i: nat): (r: Option<nat>)
    requires i <= |s|
  {
    match WordAt(s, i, "import")
    case None => None
    case Some(k) =>
      var b := SkipSpace(s, k + 6);
      if b == k + 6 then None else LazyToSemicolon(s, b)
  }

  /** A match of the export pattern: it ends at `end`; its braces are at
      `open` and `close`, so its group is `s[open + 1..close]`. */
  datatype ExportMatch = ExportMatch(open: nat, close: nat, end: nat)

  /** The export pattern at `i`. `\s*\{` needs the brace right after the
      white space; `[^}]*\}` ends at the first `}`; `;?` is tried with the
      semicolon first. */
  function ExportAt(s: string, i: nat): (r: Option<ExportMatch>)
    requires i <= |s|
    ensures r.Some? ==> r.value.open < r.value.close < r.value.end <= |s|
  {
    match WordAt(s, i, "export")
    case None => None
    case Some(k) => BracedList(s, SkipSpace(s, k + 6))
  }

  /** `\{[^}]*\};?\s*$` where the white space after the keyword ends. */
  function BracedList(s: string, b: nat): (r: Option<ExportMatch>)
    requires b <= |s|
    ensures r.Some? ==> b == r.value.open < r.value.close < r.value.end <= |s|
  {
    if b == |s| || s[b] != '{' then None
    else
      var c := BraceFrom(s, b + 1);
      if c == |s| then None
      else
        var tail := AfterBrace(s, c);
        if tail.None? then None else Some(ExportMatch(b, c, tail.value))
  }

  /** `;?\s*$` after the closing brace at `c`, with the semicolon tried
      first. */
  function AfterBrace(s: string, c: nat): (r: Option<nat>)
    requires c < |s|
    ensures r.Some? ==> c < r.value <= |s|
  {
    if c + 1 < |s| && s[c + 1] == ';' && SpaceToLineEnd(s, c + 2).Some? then SpaceToLineEnd(s, c + 2)
    else SpaceToLineEnd(s, c + 1)
  }

  /** The comment pattern at `i`: `.*` runs to the end of the line, where
      `$` holds. */
  function CommentAt(s: string, i: nat): (r: Option<nat>)
    requires i <= |s|
  {
    match WordAt(s, i, "//")
    case None => None
    case Some(k) => Some(LineEndFrom(s, k + 2))
  }

  /** Where the match of `p` at `i`, if any, ends; a match is never
      empty. */
  function MatchAt(p: Pattern, s: string, i: nat): (r: Option<nat>)
    requires i <= |s|
    ensures r.Some? ==> i < r.value <= |s|
  {
    match p
    case Import => ImportAt(s, i)
    case Export => if ExportAt(s, i).Some? then Some(ExportAt(s, i).value.end) else None
    case Comment => CommentAt(s, i)
  }

  /** Every match starts at a line start, with the pattern's keyword after
      white space, and ends at a line end. */
  lemma MatchShape(p: Pattern, s: string, i: nat)
    requires i <= |s| && MatchAt(p, s, i).Some?
    ensures LineStart(s, i) && LineEnd(s, MatchAt(p, s, i).value)
    ensures OccursAt(s, Keyword(p), SkipSpace(s, i))
  {
  }

  /** The text each pattern starts with after its leading white space. */
  function Keyword(p: Pattern): string
  {
    match p
    case Import => "import"
    case Export => "export"
    case Comment => "//"
  }

  /** The outcome of trying the pattern at every offset of `s`. */
  function Ends(p: Pattern, s: string): (r: seq<Option<nat>>)
    ensures |r| == |s| && Forward(r)
    ensures forall i :: 0 <= i < |s| ==> r[i] == MatchAt(p, s, i)
  {
    seq(|s|, i requires 0 <= i < |s| => MatchAt(p, s, i))
  }

  /** Every match ends after it starts and within the text. */
  predicate Forward(ends: seq<Option<nat>>)
  {
    forall i :: 0 <= i < |ends| && ends[i].Some? ==> i < ends[i].value <= |ends|
  }

  /** The global replacement from offset `i` on, given where the matches at
      each offset end: every match found scanning forward is deleted, and
      the scan resumes where it ended. */
  function Scan(s: string, ends: seq<Option<nat>>, i: nat): string
    requires |ends| == |s| && Forward(ends) && i <= |s|
    decreases |s| - i
  {
    if i == |s| then ""
    else
      match ends[i]
      case Some(e) => Scan(s, ends, e)
      case None => [s[i]] + Scan(s, ends, i + 1)
  }

  /** `s.replace(p, "")` from offset `i` on. */
  function ReplaceFrom(p: Pattern, s: string, i: nat): string
    requires i <= |s|
  {
    Scan(s, Ends(p, s), i)
  }

  /** `s.replace(p, "")`. */
  function Remove(p: Pattern, s: string): string
  {
    ReplaceFrom(p, s, 0)
  }

  /** What both `clean`s compute: import lines, then export lines, then
      comment lines deleted, and the rest trimmed. */
  function Clean(s: string): string
  {
    Trim(Remove(Comment, Remove(Export, Remove(Import, s))))
  }

  // ---------------------------------------------------------------------
  // What the replacement keeps and what it deletes

  /** A character where no match starts is kept. */
  lemma ScanSkip(s: string, ends: seq<Option<nat>>, i: nat)
    requires |ends| == |s| && Forward(ends) && i < |s| && ends[i].None?
    ensures Scan(s, ends, i) == [s[i]] + Scan(s, ends, i + 1)
  {
  }

  lemma ConsAssoc(c: char, a: string, b: string, x: string)
    requires b == [c] + a
    ensures [c] + (a + x) == b + x
  {
  }

  /** Characters where no match starts are kept, in order. */
  lemma {:induction false} KeptSpan(s: string, ends: seq<Option<nat>>, i: nat, j: nat)
    requires |ends| == |s| && Forward(ends) && i <= j <= |s|
    requires forall m :: i <= m < j ==> ends[m].None?
    ensures Scan(s, ends, i) == s[i..j] + Scan(s, ends, j)
    decreases j - i
  {
    if i < j {
      ScanSkip(s, ends, i);
      KeptSpan(s, ends, i + 1, j);
      ConsAssoc(s[i], s[i + 1..j], s[i..j], Scan(s, ends, j));
    }
  }

  /** A text where the pattern matches nowhere is left as it is. */
  lemma NoMatchUnchanged(p: Pattern, s: string)
    requires forall m :: 0 <= m < |s| ==> MatchAt(p, s, m).None?
    ensures Remove(p, s) == s
  {
    KeptSpan(s, Ends(p, s), 0, |s|);
  }

  /** The replacement never adds text: its result is no longer than the
      part of the text it scanned. */
  lemma {:induction false} ReplaceShrinks(s: string, ends: seq<Option<nat>>, i: nat)
    requires |ends| == |s| && Forward(ends) && i <= |s|
    ensures |Scan(s, ends, i)| <= |s| - i
    decreases |s| - i
  {
    if i < |s| {
      match ends[i]
      case Some(e) => ReplaceShrinks(s, ends, e);
      case None => ReplaceShrinks(s, ends, i + 1);
    }
  }

  /** A match where nothing matched before it: the text up to it is kept
      and the match is deleted. */
  lemma DeletedAfterKept(p: Pattern, s: string, k: nat, e: nat)
    requires k <= |s|
    requires forall m :: 0 <= m < k ==> MatchAt(p, s, m).None?
    requires MatchAt(p, s, k) == Some(e)
    ensures Remove(p, s) == s[..k] + ReplaceFrom(p, s, e)
  {
    KeptSpan(s, Ends(p, s), 0, k);
  }

  // ---------------------------------------------------------------------
  // Which lines the patterns match

  /** The white space from `j` stops at a character that is not white
      space. */
  lemma SkipSpaceStops(s: string, j: nat, q: nat)
    requires j <= q < |s| && !IsSpace(s[q])
    ensures SkipSpace(s, j) <= q
  {
  }

  /** No line end can be reached through white space from `j` when a
      character that is not white space comes first on the line. */
  lemma NoLineEnd(s: string, j: nat, q: nat)
    requires j <= q < |s| && !IsSpace(s[q])
    requires forall m :: j <= m <= q ==> !IsLineTerminator(s[m])
    ensures SpaceToLineEnd(s, j).None?
  {
    var c := SkipSpace(s, j);
    SkipSpaceStops(s, j, q);
    forall m | j <= m <= c ensures !LineEnd(s, m) {
      assert m < |s| && !IsLineTerminator(s[m]);
    }
  }

  /** A line break at `e`: the end of the text, or a line terminator
      followed by something that is not white space. `\s*$` tried at `e`
      stops right there. */
  predicate BreakAt(s: string, e: nat)
  {
    e == |s| || (e + 1 < |s| && IsLineTerminator(s[e]) && !IsSpace(s[e + 1]))
  }

  lemma SpaceToBreak(s: string, e: nat)
    requires e <= |s| && BreakAt(s, e)
    ensures SpaceToLineEnd(s, e) == Some(e)
  {
    if e < |s| {
      assert SkipSpace(s, e + 1) == e + 1;
      assert SkipSpace(s, e) == e + 1;
      assert !LineEnd(s, e + 1) && LineEnd(s, e);
    }
  }

  /** `.*?` passes over the characters before `last`: none ends the line,
      and no `;` among them is followed by white space reaching a line end. */
  lemma {:induction false} LazySkips(s: string, n: nat, last: nat)
    requires n <= last < |s|
    requires forall m :: n <= m < last ==>
      !IsLineTerminator(s[m]) && (s[m] == ';' ==> SpaceToLineEnd(s, m + 1).None?)
    ensures LazyToSemicolon(s, n) == LazyToSemicolon(s, last)
    decreases last - n
  {
    if n < last {
      LazySkips(s, n + 1, last);
    }
  }

  /** The keyword `word` at a line start `i` is found there. */
  lemma WordHere(s: string, i: nat, word: string)
    requires i <= |s| && LineStart(s, i) && OccursAt(s, word, i) && word != [] && !IsSpace(word[0])
    ensures WordAt(s, i, word) == Some(i)
  {
    assert s[i] == s[i..i + |word|][0];
  }

  /** An import line: `import `, then text on the same line up to the `;`
      at `last`, then a line break. It is matched from its start to the
      break, whatever the text holds. */
  lemma ImportAtLine(s: string, i: nat, last: nat)
    requires i + 7 <= last < |s|
    requires LineStart(s, i) && OccursAt(s, "import ", i) && s[last] == ';'
    requires forall m :: i + 7 <= m < last ==> !IsLineTerminator(s[m])
    requires BreakAt(s, last + 1)
    ensures MatchAt(Import, s, i) == Some(last + 1)
  {
    ImportHead(s, i);
    var b := SkipSpace(s, i + 6);
    assert i + 6 < b <= last by {
      SkipSpaceStops(s, i + 6, last);
    }
    assert LazyToSemicolon(s, b) == Some(last + 1) by {
      forall m | b <= m < last
        ensures !IsLineTerminator(s[m]) && (s[m] == ';' ==> SpaceToLineEnd(s, m + 1).None?)
      {
        if s[m] == ';' {
          NoLineEnd(s, m + 1, last);
        }
      }
      LazySkips(s, b, last);
      SpaceToBreak(s, last + 1);
    }
    ImportAtParts(s, i, b, last + 1);
  }

  /** The import pattern assembled from its parts. */
  lemma ImportAtParts(s: string, i: nat, b: nat, e: nat)
    requires i + 6 < b <= |s| && WordAt(s, i, "import") == Some(i) && SkipSpace(s, i + 6) == b
    requires LazyToSemicolon(s, b) == Some(e)
    ensures MatchAt(Import, s, i) == Some(e)
  {
  }

  lemma ImportHead(s: string, i: nat)
    requires i + 7 <= |s| && LineStart(s, i) && OccursAt(s, "import ", i)
    ensures WordAt(s, i, "import") == Some(i) && IsSpace(s[i + 6])
  {
    assert s[i..i + 6] == s[i..i + 7][..6];
    assert s[i + 6] == s[i..i + 7][6];
    WordHere(s, i, "import");
  }

  /** A comment line: `//` at a line start, matched to the end of its
      line. */
  lemma CommentAtLine(s: string, i: nat, end: nat)
    requires i + 2 <= end <= |s|
    requires LineStart(s, i) && OccursAt(s, "//", i) && LineEnd(s, end)
    requires forall m :: i + 2 <= m < end ==> !IsLineTerminator(s[m])
    ensures MatchAt(Comment, s, i) == Some(end)
  {
    WordHere(s, i, "//");
  }

  /** An export line: `export {`, text without `}` (it may span lines),
      then `};` and a line break. It is matched from its start to the
      break, and its group is the text between the braces. */
  lemma ExportAtLine(s: string, i: nat, close: nat)
    requires i + 8 <= close && close + 1 < |s|
    requires LineStart(s, i) && OccursAt(s, "export {", i) && s[close] == '}' && s[close + 1] == ';'
    requires forall m :: i + 8 <= m < close ==> s[m] != '}'
    requires BreakAt(s, close + 2)
    ensures ExportAt(s, i) == Some(ExportMatch(i + 7, close, close + 2))
  {
    ExportHead(s, i);
    BraceAt(s, i + 8, close);
    assert AfterBrace(s, close) == Some(close + 2) by {
      SpaceToBreak(s, close + 2);
    }
    ExportAtParts(s, i, i + 7, close, close + 2);
  }

  /** The scan for `}` stops at the first one. */
  lemma BraceAt(s: string, j: nat, close: nat)
    requires j <= close < |s| && s[close] == '}'
    requires forall m :: j <= m < close ==> s[m] != '}'
    ensures BraceFrom(s, j) == close
  {
  }

  /** The export pattern assembled from its parts. */
  lemma ExportAtParts(s: string, i: nat, b: nat, c: nat, e: nat)
    requires i + 6 <= |s| && WordAt(s, i, "export") == Some(i)
    requires SkipSpace(s, i + 6) == b < |s| && s[b] == '{'
    requires BraceFrom(s, b + 1) == c < |s| && AfterBrace(s, c) == Some(e)
    ensures ExportAt(s, i) == Some(ExportMatch(b, c, e))
  {
    assert BracedList(s, b) == Some(ExportMatch(b, c, e));
  }

  lemma ExportHead(s: string, i: nat)
    requires i + 8 <= |s| && LineStart(s, i) && OccursAt(s, "export {", i)
    ensures WordAt(s, i, "export") == Some(i) && SkipSpace(s, i + 6) == i + 7 && s[i + 7] == '{'
  {
    assert s[i..i + 6] == s[i..i + 8][..6];
    assert s[i + 6] == s[i..i + 8][6] && s[i + 7] == s[i..i + 8][7];
    WordHere(s, i, "export");
    assert SkipSpace(s, i + 7) == i + 7;
  }

  /** No line of `s`, after its leading white space, starts with the
      pattern's keyword. */
  predicate FreeOf(p: Pattern, s: string)
  {
    forall i :: 0 <= i <= |s| && LineStart(s, i) ==> !OccursAt(s, Keyword(p), SkipSpace(s, i))
  }

  /** So text without import, export or comment lines is only trimmed. */
  lemma CleanPlainText(s: string)
    requires FreeOf(Import, s) && FreeOf(Export, s) && FreeOf(Comment, s)
    ensures Clean(s) == Trim(s)
  {
    forall p: Pattern | FreeOf(p, s) ensures Remove(p, s) == s {
      forall m | 0 <= m < |s| ensures MatchAt(p, s, m).None? {
        if MatchAt(p, s, m).Some? {
          MatchShape(p, s, m);
        }
        assert LineStart(s, m) ==> !OccursAt(s, Keyword(p), SkipSpace(s, m));
      }
      NoMatchUnchanged(p, s);
    }
  }
}
