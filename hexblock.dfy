/** `serialize_file_data` of the JavaScript driver
    (c2wasm-api/src/jshooks.ts:94-107): the compiled program comes back from
    `qjsc -c` as C source holding a byte array; the driver keeps the first
    brace-delimited block, collects every `0x..` literal in it, and turns the
    digits back into bytes. Deflating and base64 encoding are left symbolic
    (the response's `Payload`). */
module HexBlock {

  import opened Wrappers
  import opened Text
  import opened Workspace

  // ---------------------------------------------------------------------
  // `.replace(/\n/g, '')`

  /** The text with every line feed removed. */
  function DropNewlines(s: string): (r: string)
    ensures |r| <= |s|
  {
    if s == [] then []
    else (if s[0] == '\n' then [] else [s[0]]) + DropNewlines(s[1..])
  }

  /** The characters kept are exactly those that are not line feeds. */
  lemma {:induction false} DropNewlinesMembers(s: string)
    ensures forall c :: c in DropNewlines(s) <==> c in s && c != '\n'
  {
    if s != [] {
      DropNewlinesMembers(s[1..]);
      assert s == [s[0]] + s[1..];
    }
  }

  lemma {:induction false} DropNewlinesAppend(a: string, b: string)
    ensures DropNewlines(a + b) == DropNewlines(a) + DropNewlines(b)
  {
    if a == [] {
      assert a + b == b;
    } else {
      assert (a + b)[0] == a[0];
      assert (a + b)[1..] == a[1..] + b;
      DropNewlinesAppend(a[1..], b);
    }
  }

  /** Text without line feeds is left as it is. */
  lemma {:induction false} DropNewlinesKeeps(s: string)
    requires '\n' !in s
    ensures DropNewlines(s) == s
  {
    if s != [] {
      DropNewlinesKeeps(s[1..]);
    }
  }

  // ---------------------------------------------------------------------
  // `.match(/\{[^}]+\}/)?.[0]`

  /** `s[i..j+1]` is a match of `\{[^}]+\}`: an opening brace, at least one
      character that is not a closing brace, and the closing brace. */
  predicate IsBlock(s: string, i: nat, j: nat)
  {
    && i + 1 < j < |s|
    && s[i] == '{' && s[j] == '}'
    && forall k :: i < k < j ==> s[k] != '}'
  }

  /** A block starting at `i` ends at the first closing brace after it. */
  lemma BlockEndUnique(s: string, i: nat, j: nat, j': nat)
    requires IsBlock(s, i, j) && IsBlock(s, i, j')
    ensures j == j'
  {
  }

  /** The first `}` at or after `k`. */
  function FindClose(s: string, k: nat): (r: Option<nat>)
    ensures r.Some? ==> k <= r.value < |s| && s[r.value] == '}'
    ensures r.Some? ==> forall m :: k <= m < r.value ==> s[m] != '}'
    ensures r.None? ==> forall m :: k <= m < |s| ==> s[m] != '}'
    decreases |s| - k
  {
    if k >= |s| then None
    else if s[k] == '}' then Some(k)
    else FindClose(s, k + 1)
  }

  /** The leftmost match at or after `i`, as its first and last offsets:
      the regular expression tries each start in turn, and from a `{` its
      greedy `[^}]+` can only stop before the first `}`. */
  function FindBlock(s: string, i: nat): (r: Option<(nat, nat)>)
    ensures r.Some? ==> i <= r.value.0 && IsBlock(s, r.value.0, r.value.1)
    ensures r.Some? ==> forall a, b :: i <= a < r.value.0 ==> !IsBlock(s, a, b)
    ensures r.None? ==> forall a, b :: i <= a ==> !IsBlock(s, a, b)
    decreases |s| - i
  {
    if i >= |s| then None
    else if s[i] != '{' then FindBlock(s, i + 1)
    else
      match FindClose(s, i + 1)
      case None => None
      case Some(j) => if j == i + 1 then FindBlock(s, i + 1) else Some((i, j))
  }

  // ---------------------------------------------------------------------
  // `.match(/0x[a-fA-F0-9]+/g)?.map(hex => hex.replace('0x', ''))`

  predicate IsHexDigit(c: char)
  {
    ('0' <= c <= '9') || ('a' <= c <= 'f') || ('A' <= c <= 'F')
  }

  predicate AllHex(s: string)
  {
    forall c :: c in s ==> IsHexDigit(c)
  }

  /** The end of the run of hexadecimal digits starting at `k`. */
  function HexRun(s: string, k: nat): (n: nat)
    requires k <= |s|
    ensures k <= n <= |s|
    ensures forall m :: k <= m < n ==> IsHexDigit(s[m])
    ensures n < |s| ==> !IsHexDigit(s[n])
    decreases |s| - k
  {
    if k == |s| || !IsHexDigit(s[k]) then k else HexRun(s, k + 1)
  }

  /** The digits of each literal the global search finds, left to right: at
      a `0x` followed by a digit it takes the longest run of digits and goes
      on after it; anywhere else it moves on by one character. */
  function HexTokens(s: string): (r: seq<string>)
    ensures forall t :: t in r ==> t != [] && AllHex(t)
    decreases |s|
  {
    if |s| < 3 then []
    else if s[0] == '0' && s[1] == 'x' && IsHexDigit(s[2]) then
      var n := HexRun(s, 2);
      [s[2..n]] + HexTokens(s[n..])
    else HexTokens(s[1..])
  }

  /** A character that cannot start a literal is skipped. */
  lemma SkipNonZero(s: string)
    requires s != [] && s[0] != '0'
    ensures HexTokens(s) == HexTokens(s[1..])
  {
  }

  /** A literal `0x` + `h` ended by a non-digit yields `h`, and the search
      goes on after it. */
  lemma TakeLiteral(h: string, rest: string)
    requires h != [] && AllHex(h)
    requires rest != [] && !IsHexDigit(rest[0])
    ensures HexTokens("0x" + h + rest) == [h] + HexTokens(rest)
  {
    var s := "0x" + h + rest;
    assert s[2] == h[0];
    assert forall m :: 2 <= m < 2 + |h| ==> s[m] == h[m - 2];
    assert HexRun(s, 2) == 2 + |h| by {
      HexRunIs(s, 2, 2 + |h|);
    }
    assert s[2..2 + |h|] == h;
    assert s[2 + |h|..] == rest;
  }

  /** `HexRun` stops exactly at the first non-digit. */
  lemma {:induction false} HexRunIs(s: string, k: nat, n: nat)
    requires k <= n < |s|
    requires forall m :: k <= m < n ==> IsHexDigit(s[m])
    requires !IsHexDigit(s[n])
    ensures HexRun(s, k) == n
    decreases n - k
  {
    if k < n {
      HexRunIs(s, k + 1, n);
    }
  }

  // ---------------------------------------------------------------------
  // The hexadecimal text, and `Buffer.from(hexData, 'hex')`

  /** `hexData`: the digits of every literal in the first block, joined;
      `''` when there is no block or no literal in it. */
  function Extract(text: string): (r: string)
    ensures AllHex(r)
  {
    var s := DropNewlines(text);
    var blk := FindBlock(s, 0);
    if blk.None? then ""
    else
      var tokens := HexTokens(s[blk.value.0..blk.value.1 + 1]);
      JoinAllHex(tokens);
      Join(tokens, "")
  }

  lemma {:induction false} JoinAllHex(ts: seq<string>)
    requires forall t :: t in ts ==> AllHex(t)
    ensures AllHex(Join(ts, ""))
  {
    if |ts| >= 2 {
      assert ts[0] in ts;
      assert forall t :: t in ts[1..] ==> t in ts;
      JoinAllHex(ts[1..]);
    } else if |ts| == 1 {
      assert ts[0] in ts;
    }
  }

  function HexValue(c: char): (v: nat)
    requires IsHexDigit(c)
    ensures v < 16
  {
    if '0' <= c <= '9' then c as int - '0' as int
    else if 'a' <= c <= 'f' then c as int - 'a' as int + 10
    else c as int - 'A' as int + 10
  }

  /** Node's hexadecimal decoding of a string of digits: one byte per pair,
      an odd last digit dropped. */
  function Decode(h: string): (r: seq<byte>)
    requires AllHex(h)
    ensures |r| == |h| / 2
  {
    if |h| < 2 then [] else [(16 * HexValue(h[0]) + HexValue(h[1])) as byte] + Decode(h[2..])
  }

  /** Byte `k` of the decoding is the value of digits `2k` and `2k+1`. */
  lemma {:induction false} DecodeAt(h: string, k: nat)
    requires AllHex(h) && k < |h| / 2
    ensures Decode(h)[k] as int == 16 * HexValue(h[2 * k]) + HexValue(h[2 * k + 1])
  {
    if k > 0 {
      var t := h[2..];
      assert Decode(h)[k] == Decode(t)[k - 1];
      assert t[2 * (k - 1)] == h[2 * k] && t[2 * (k - 1) + 1] == h[2 * k + 1];
      DecodeAt(t, k - 1);
    }
  }

  /** The bytes `serialize_file_data` encodes. */
  function Serialize(c: Content): seq<byte>
  {
    Decode(Extract(AsText(c)))
  }

  // ---------------------------------------------------------------------
  // What the extraction promises

  /** Text in which `\{[^}]+\}` matches nowhere once line feeds are dropped
      yields no bytes: "{}", "{\n}" and "x{abc" among others. */
  lemma NoBlockNoBytes(c: Content)
    requires forall a: nat, b: nat :: !IsBlock(DropNewlines(AsText(c)), a, b)
    ensures Serialize(c) == []
  {
  }

  /** In particular, text with no opening brace has no block. */
  lemma NoBraceNoBlock(text: string)
    requires '{' !in text
    ensures forall a: nat, b: nat :: !IsBlock(DropNewlines(text), a, b)
  {
    var s := DropNewlines(text);
    DropNewlinesMembers(text);
    forall a: nat, b: nat ensures !IsBlock(s, a, b) {
      if a < |s| {
        assert s[a] in s;
      }
    }
  }

  /** Only the first block counts: for a text whose first `{` opens a block
      (its body has no `}`), the digits are those of the literals in that
      block, in order, whatever follows it. */
  lemma ExtractFirstBlock(text: string, pre: string, body: string, post: string)
    requires body != [] && '{' !in pre && '}' !in body
    requires DropNewlines(text) == pre + "{" + body + "}" + post
    ensures Extract(text) == Join(HexTokens("{" + body + "}"), "")
  {
    var s := DropNewlines(text);
    FirstBlockIs(s, pre, body, post);
    assert s[|pre|..|pre| + 1 + |body| + 1] == "{" + body + "}";
  }

  /** The two lowercase digits `%02x` prints for a byte. */
  function Hex2(b: byte): (r: string)
    ensures |r| == 2 && AllHex(r)
    ensures 16 * HexValue(r[0]) + HexValue(r[1]) == b as int
  {
    [HexChar(b as int / 16), HexChar(b as int % 16)]
  }

  function HexChar(n: nat): (c: char)
    requires n < 16
    ensures IsHexDigit(c) && HexValue(c) == n
  {
    if n < 10 then ('0' as int + n) as char else ('a' as int + n - 10) as char
  }

  /** The array body `qjsc -c` writes: ` 0x..,` for every byte. */
  function Items(bs: seq<byte>): (r: string)
    ensures '\n' !in r && '}' !in r
  {
    if bs == [] then "" else " 0x" + Hex2(bs[0]) + "," + Items(bs[1..])
  }

  function Hex2s(bs: seq<byte>): (r: seq<string>)
    ensures |r| == |bs| && forall k :: 0 <= k < |bs| ==> r[k] == Hex2(bs[k])
  {
    seq(|bs|, k requires 0 <= k < |bs| => Hex2(bs[k]))
  }

  lemma {:induction false} ItemsTokens(bs: seq<byte>)
    ensures HexTokens(Items(bs) + "}") == Hex2s(bs)
  {
    if bs != [] {
      var h, rest := Hex2(bs[0]), Items(bs[1..]) + "}";
      assert Items(bs) + "}" == " 0x" + h + "," + rest;
      ItemLiteral(h, rest);
      assert Hex2s(bs) == [h] + Hex2s(bs[1..]);
      ItemsTokens(bs[1..]);
    }
  }

  /** One item ` 0x<h>,` yields its digits, and the search goes on after
      the comma. */
  lemma ItemLiteral(h: string, rest: string)
    requires h != [] && AllHex(h)
    ensures HexTokens(" 0x" + h + "," + rest) == [h] + HexTokens(rest)
  {
    var lit := "0x" + h + ("," + rest);
    var x := " 0x" + h + "," + rest;
    assert x[1..] == lit;
    SkipNonZero(x);
    TakeLiteral(h, "," + rest);
    assert ("," + rest)[1..] == rest;
    SkipNonZero("," + rest);
  }

  /** Decoding the two digits of a byte in front of more digits. */
  lemma DecodeHex2(b: byte, y: string)
    requires AllHex(y)
    ensures AllHex(Hex2(b) + y)
    ensures Decode(Hex2(b) + y) == [b] + Decode(y)
  {
    var x := Hex2(b);
    assert (x + y)[2..] == y;
    assert (x + y)[0] == x[0] && (x + y)[1] == x[1];
    assert (16 * HexValue(x[0]) + HexValue(x[1])) as byte == b;
  }

  lemma {:induction false} DecodeHex2s(bs: seq<byte>)
    ensures AllHex(Join(Hex2s(bs), ""))
    ensures Decode(Join(Hex2s(bs), "")) == bs
  {
    var hs := Hex2s(bs);
    JoinAllHex(hs);
    if |bs| == 1 {
      assert Join(hs, "") == Hex2(bs[0]) + "";
      DecodeHex2(bs[0], "");
    } else if |bs| >= 2 {
      var rest := Hex2s(bs[1..]);
      assert hs[1..] == rest;
      DecodeHex2s(bs[1..]);
      var j, jr := Join(hs, ""), Join(rest, "");
      assert j == Hex2(bs[0]) + jr;
      DecodeHex2(bs[0], jr);
      assert Decode(jr) == bs[1..];
      assert Decode(j) == [bs[0]] + bs[1..];
      assert [bs[0]] + bs[1..] == bs;
    } else {
      assert Join(hs, "") == "";
    }
  }

  /** The round trip: for the C file `qjsc -c` writes — any text without an
      opening brace, then the array `{ 0x..., ... }`, then anything, with
      line breaks anywhere — the driver recovers exactly the array's bytes. */
  lemma SerializeRecoversArray(c: Content, pre: string, bs: seq<byte>, post: string)
    requires bs != [] && '{' !in pre
    requires DropNewlines(AsText(c)) == pre + "{" + Items(bs) + "}" + post
    ensures Serialize(c) == bs
  {
    ExtractArray(DropNewlines(AsText(c)), pre, bs, post);
    DecodeHex2s(bs);
  }

  /** The digits extracted from such a text are those of the array's
      bytes, in order. */
  lemma ExtractArray(s: string, pre: string, bs: seq<byte>, post: string)
    requires bs != [] && '{' !in pre
    requires s == pre + "{" + Items(bs) + "}" + post
    ensures var blk := FindBlock(s, 0); blk.Some? && HexTokens(s[blk.value.0..blk.value.1 + 1]) == Hex2s(bs)
  {
    var body := Items(bs);
    var block := "{" + body + "}";
    var i, j := |pre|, |pre| + 1 + |body|;
    assert body != [];
    FirstBlockIs(s, pre, body, post);
    assert s[i..j + 1] == block;
    SkipNonZero(block);
    assert block[1..] == body + "}";
    ItemsTokens(bs);
  }

  /** A text with no `{` before a block whose body has no `}`: that block
      is the first match. */
  lemma FirstBlockIs(s: string, pre: string, body: string, post: string)
    requires body != [] && '{' !in pre && '}' !in body
    requires s == pre + "{" + body + "}" + post
    ensures FindBlock(s, 0) == Some((|pre|, |pre| + 1 + |body|))
  {
    var i, j := |pre|, |pre| + 1 + |body|;
    assert IsBlock(s, i, j) by {
      forall k | i < k < j ensures s[k] != '}' {
        assert s[k] == body[k - i - 1];
      }
    }
    forall a | 0 <= a < i ensures s[a] != '{' {
      assert s[a] == pre[a];
    }
    var r := FindBlock(s, 0);
    assert r.Some? && r.value.0 == i;
    BlockEndUnique(s, i, r.value.1, j);
  }
}
