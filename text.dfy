/** The Option type used across the model for JavaScript's `undefined`/`null`
    results. */
module Wrappers {
  datatype Option<+T> = None | Some(value: T)
}

/** String operations with the meaning JavaScript gives them (`includes`,
    `indexOf`, `split` on one character, `join`, `trim`, `toLowerCase`).
    Strings are sequences of characters. */
module Text {

  import opened Wrappers

  /** `t` occurs in `s` starting at offset `i`. */
  predicate OccursAt(s: string, t: string, i: nat)
  {
    i + |t| <= |s| && s[i..i + |t|] == t
  }

  /** `s.indexOf(t, i)`: the first offset at or after `i` where `t` occurs. */
  function IndexFrom(s: string, t: string, i: nat): (r: Option<nat>)
    ensures r.Some? ==> i <= r.value && OccursAt(s, t, r.value)
    ensures r.Some? ==> forall j: nat :: i <= j < r.value ==> !OccursAt(s, t, j)
    ensures r.None? ==> forall j: nat :: i <= j ==> !OccursAt(s, t, j)
    decreases |s| - i
  {
    if i + |t| > |s| then None
    else if s[i..i + |t|] == t then Some(i)
    else IndexFrom(s, t, i + 1)
  }

  /** `s.indexOf(t)`, with `None` for -1. */
  function IndexOf(s: string, t: string): (r: Option<nat>)
  {
    IndexFrom(s, t, 0)
  }

  /** `t` occurs at `i` and nowhere before it. */
  predicate FirstOccurrence(s: string, t: string, i: nat)
  {
    OccursAt(s, t, i) && forall j: nat :: j < i ==> !OccursAt(s, t, j)
  }

  /** `s.includes(t)`. */
  predicate Contains(s: string, t: string)
  {
    IndexOf(s, t).Some?
  }

  /** `includes` holds exactly when there is an offset where `t` occurs. */
  lemma ContainsIff(s: string, t: string)
    ensures Contains(s, t) <==> exists i: nat :: OccursAt(s, t, i)
  {
  }

  /** An occurrence in a prefix is an occurrence in the whole. */
  lemma ContainsPrefix(a: string, b: string, t: string)
    requires Contains(a, t)
    ensures Contains(a + b, t)
  {
    ContainsIff(a, t);
    ContainsIff(a + b, t);
    var i: nat :| OccursAt(a, t, i);
    assert (a + b)[i..i + |t|] == a[i..i + |t|];
    assert OccursAt(a + b, t, i);
  }

  /** `s.startsWith(t)`. */
  predicate StartsWith(s: string, t: string)
  {
    |t| <= |s| && s[..|t|] == t
  }

  /** `s.endsWith(t)`. */
  predicate EndsWith(s: string, t: string)
  {
    |t| <= |s| && s[|s| - |t|..] == t
  }

  /** `parts.join(sep)`. */
  function Join(parts: seq<string>, sep: string): string
  {
    if |parts| == 0 then ""
    else if |parts| == 1 then parts[0]
    else parts[0] + sep + Join(parts[1..], sep)
  }

  /** Joining with a non-empty separator gives "" exactly for no parts or one
      empty part. */
  lemma {:induction false} JoinEmptyIff(parts: seq<string>, sep: string)
    requires sep != ""
    ensures Join(parts, sep) == "" <==> parts == [] || parts == [""]
  {
    if |parts| >= 2 {
      assert |Join(parts, sep)| >= |sep|;
    }
  }

  /** Appending one part to a join. */
  lemma {:induction false} JoinSnoc(parts: seq<string>, x: string, sep: string)
    requires parts != []
    ensures Join(parts + [x], sep) == Join(parts, sep) + sep + x
  {
    if |parts| == 1 {
      assert parts + [x] == [parts[0], x];
    } else {
      assert (parts + [x])[1..] == parts[1..] + [x];
      JoinSnoc(parts[1..], x, sep);
    }
  }

  /** `s.split(c)` for a one-character separator. */
  function Split(s: string, c: char): (r: seq<string>)
    ensures |r| >= 1
    ensures forall k :: 0 <= k < |r| ==> c !in r[k]
    decreases |s|
  {
    if c !in s then [s]
    else
      var i := FirstOf(s, c);
      [s[..i]] + Split(s[i + 1..], c)
  }

  /** Offset of the first `c` in `s`. */
  function FirstOf(s: string, c: char): (i: nat)
    requires c in s
    ensures i < |s| && s[i] == c && c !in s[..i]
  {
    if s[0] == c then 0 else 1 + FirstOf(s[1..], c)
  }

  /** Splitting and joining on the same character gives the text back. */
  lemma {:induction false} SplitJoin(s: string, c: char)
    ensures Join(Split(s, c), [c]) == s
    decreases |s|
  {
    if c in s {
      var i := FirstOf(s, c);
      var rest := Split(s[i + 1..], c);
      SplitJoin(s[i + 1..], c);
      assert Split(s, c) == [s[..i]] + rest;
      assert s == s[..i] + [c] + s[i + 1..];
    }
  }

  /** `s.split(c).pop()`: the text after the last `c`. */
  function LastPiece(s: string, c: char): (r: string)
    ensures c !in r && EndsWith(s, r)
    ensures |r| < |s| ==> s[|s| - |r| - 1] == c
    decreases |s|
  {
    if c !in s then s
    else
      var i := FirstOf(s, c);
      var r := LastPiece(s[i + 1..], c);
      assert s[i + 1..][|s[i + 1..]| - |r|..] == s[|s| - |r|..];
      r
  }

  /** The last piece of `a + [c] + b` is `b` when `b` has no `c`. */
  lemma LastPieceAfter(a: string, c: char, b: string)
    requires c !in b
    ensures LastPiece(a + [c] + b, c) == b
  {
    var p := a + [c] + b;
    assert p[|a|] == c && p[|a| + 1..] == b;
    LastPieceFrom(p, c, |a|);
  }

  /** The last piece is what follows the last `c`. */
  lemma {:induction false} LastPieceFrom(p: string, c: char, i: nat)
    requires i < |p| && p[i] == c && c !in p[i + 1..]
    ensures LastPiece(p, c) == p[i + 1..]
    decreases |p|
  {
    var j := FirstOf(p, c);
    assert j <= i by {
      if i < j {
        // p[i] would be a `c` before the first one
        assert false;
      }
    }
    if j < i {
      var rest := p[j + 1..];
      assert rest[i - j - 1] == c;
      assert rest[i - j..] == p[i + 1..];
      LastPieceFrom(rest, c, i - j - 1);
    }
  }

  /** `s.split(t)[0]`: the text before the first occurrence of `t`. */
  function Before(s: string, t: string): (r: string)
    ensures StartsWith(s, r)
    ensures t != "" ==> !Contains(r, t)
    ensures Contains(s, t) <==> OccursAt(s, t, |r|)
    ensures !Contains(s, t) ==> r == s
    ensures forall j: nat :: j < |r| ==> !OccursAt(s, t, j)
  {
    ContainsIff(s, t);
    match IndexOf(s, t)
    case None => s
    case Some(i) =>
      assert t != "" ==> !Contains(s[..i], t) by {
        if t != "" && Contains(s[..i], t) {
          ContainsIff(s[..i], t);
          var j: nat :| OccursAt(s[..i], t, j);
          assert s[..i][j..j + |t|] == s[j..j + |t|];
          assert OccursAt(s, t, j);
        }
      }
      s[..i]
  }

  /** ECMAScript `WhiteSpace` and `LineTerminator`: the characters `\s`
      matches and `trim` removes. */
  predicate IsSpace(c: char)
  {
    var n := c as int;
    (9 <= n <= 13) || n == 0x20 || n == 0xA0 || n == 0x1680 || (0x2000 <= n <= 0x200A)
    || n == 0x2028 || n == 0x2029 || n == 0x202F || n == 0x205F || n == 0x3000 || n == 0xFEFF
  }

  /** ECMAScript `LineTerminator`: where `^` and `$` match under the `m` flag,
      and what `.` does not match. */
  predicate IsLineTerminator(c: char)
  {
    var n := c as int;
    n == 0x0A || n == 0x0D || n == 0x2028 || n == 0x2029
  }

  /** `s.trim()`. */
  function Trim(s: string): (r: string)
    ensures |r| <= |s|
    ensures r != [] ==> !IsSpace(r[0]) && !IsSpace(r[|r| - 1])
    ensures exists i: nat ::
              && OccursAt(s, r, i)
              && (forall k :: 0 <= k < i ==> IsSpace(s[k]))
              && (forall k :: i + |r| <= k < |s| ==> IsSpace(s[k]))
  {
    var a := SkipSpace(s, 0);
    var b := TrimEndAt(s, a, |s|);
    assert OccursAt(s, s[a..b], a);
    s[a..b]
  }

  /** End of the run of white space that starts at `i`. */
  function SkipSpace(s: string, i: nat): (k: nat)
    requires i <= |s|
    ensures i <= k <= |s|
    ensures forall j :: i <= j < k ==> IsSpace(s[j])
    ensures k < |s| ==> !IsSpace(s[k])
    decreases |s| - i
  {
    if i == |s| || !IsSpace(s[i]) then i else SkipSpace(s, i + 1)
  }

  /** Start of the run of white space that ends at `j`, not going below `a`. */
  function TrimEndAt(s: string, a: nat, j: nat): (k: nat)
    requires a <= j <= |s|
    requires a < |s| ==> !IsSpace(s[a])
    ensures a <= k <= j
    ensures k > a ==> !IsSpace(s[k - 1])
    ensures forall m :: k <= m < j ==> IsSpace(s[m])
    decreases j
  {
    if j == a || !IsSpace(s[j - 1]) then j else TrimEndAt(s, a, j - 1)
  }

  /** `s.toLowerCase()` on ASCII letters; other characters are left as they
      are. */
  function ToLower(s: string): (r: string)
    ensures |r| == |s|
    ensures forall i :: 0 <= i < |s| ==> r[i] == LowerChar(s[i])
  {
    seq(|s|, i requires 0 <= i < |s| => LowerChar(s[i]))
  }

  function LowerChar(c: char): char
  {
    if 'A' <= c <= 'Z' then (c as int + 32) as char else c
  }

}
