/** The JavaScript string and byte operations that index.ts relies on:
    `split`/`join` on a one-character separator, cutting a field at its
    first NUL, `trim`, `includes`, `indexOf`, and the byte <-> text
    conversions of the sandbox file system. */
module Strings {
  import opened Wrappers

  /** One element of a `Uint8Array`. */
  newtype byte = x: int | 0 <= x < 256

  /** `parts.join(sep)`: an empty list joins to "". */
  function Join(parts: seq<string>, sep: char): (s: string)
    ensures |parts| == 1 ==> s == parts[0]
    ensures |parts| >= 1 ==> |parts[0]| <= |s| && s[..|parts[0]|] == parts[0]
  {
    if |parts| == 0 then ""
    else if |parts| == 1 then parts[0]
    else parts[0] + [sep] + Join(parts[1..], sep)
  }

  /** `s.split(sep)`: JavaScript returns [""] for the empty string, and an
      empty part for every leading, trailing or doubled separator. The
      parts never contain the separator, and joining them gives `s` back. */
  function Split(s: string, sep: char): (parts: seq<string>)
    ensures |parts| >= 1
    ensures forall k :: 0 <= k < |parts| ==> sep !in parts[k]
    ensures Join(parts, sep) == s
    decreases |s|
  {
    if |s| == 0 then [""]
    else
      var rest := Split(s[1..], sep);
      if s[0] == sep then
        assert s == [sep] + s[1..];
        [""] + rest
      else
        var parts := [[s[0]] + rest[0]] + rest[1..];
        assert parts[1..] == rest[1..];
        assert s == [s[0]] + s[1..];
        parts
  }

  /** `split` undoes `join`: parts without the separator, joined, split
      back into the same parts. */
  lemma {:induction false} SplitJoin(parts: seq<string>, sep: char)
    requires |parts| >= 1 && forall k :: 0 <= k < |parts| ==> sep !in parts[k]
    ensures Split(Join(parts, sep), sep) == parts
    decreases |Join(parts, sep)|
  {
    var s := Join(parts, sep);
    if |parts| == 1 {
      SplitNoSep(parts[0], sep);
    } else if parts[0] == "" {
      assert s == [sep] + Join(parts[1..], sep);
      assert s[1..] == Join(parts[1..], sep);
      SplitJoin(parts[1..], sep);
      assert [""] + parts[1..] == parts;
    } else {
      var first := parts[0];
      var tail := [first[1..]] + parts[1..];
      assert tail[1..] == parts[1..];
      assert s == [first[0]] + (first[1..] + [sep] + Join(parts[1..], sep));
      assert s[1..] == Join(tail, sep);
      assert first[0] != sep by { assert first[0] in first; }
      SplitJoin(tail, sep);
      assert [first[0]] + first[1..] == first;
      assert [first] + parts[1..] == parts;
    }
  }

  /** A text without the separator splits into itself alone. */
  lemma {:induction false} SplitNoSep(s: string, sep: char)
    requires sep !in s
    ensures Split(s, sep) == [s]
    decreases |s|
  {
    if |s| > 0 {
      assert s[0] in s;
      assert sep !in s[1..] by {
        forall k | 0 <= k < |s[1..]| ensures s[1..][k] != sep { assert s[1..][k] == s[k + 1]; }
      }
      SplitNoSep(s[1..], sep);
      assert [s[0]] + s[1..] == s;
    }
  }

  /** Joining all parts is joining all but the last, the separator and the
      last part. */
  lemma {:induction false} JoinSnoc(parts: seq<string>, sep: char)
    requires |parts| >= 2
    ensures Join(parts, sep)
         == Join(parts[..|parts| - 1], sep) + [sep] + parts[|parts| - 1]
    decreases |parts|
  {
    if |parts| > 2 {
      JoinSnoc(parts[1..], sep);
      assert parts[1..][..|parts| - 2] == parts[..|parts| - 1][1..];
    }
  }

  /** Concatenation is associative. */
  lemma AppendAssoc<T>(a: seq<T>, b: seq<T>, c: seq<T>)
    ensures (a + b) + c == a + (b + c)
  {
  }

  /** The position of the first NUL at or after `from`, or `|s|`. */
  function NulIndex(s: string, from: nat): (i: nat)
    requires from <= |s|
    ensures from <= i <= |s|
    ensures i < |s| ==> s[i] == '\0'
    decreases |s| - from
  {
    if from == |s| || s[from] == '\0' then from else NulIndex(s, from + 1)
  }

  /** No NUL lies between `from` and the position `NulIndex` finds. */
  lemma {:induction false} NulIndexFirst(s: string, from: nat)
    requires from <= |s|
    ensures forall k :: from <= k < NulIndex(s, from) ==> s[k] != '\0'
    decreases |s| - from
  {
    if from < |s| && s[from] != '\0' {
      NulIndexFirst(s, from + 1);
    }
  }

  /** The text before the first NUL character (the whole text if it has
      none): a header field without its NUL padding. */
  function CutAtNul(s: string): (r: string)
    ensures |r| <= |s| && r == s[..|r|]
    ensures |r| < |s| ==> s[|r|] == '\0'
  {
    s[..NulIndex(s, 0)]
  }

  /** What `CutAtNul` keeps holds no NUL. */
  lemma CutAtNulNoNul(s: string)
    ensures forall k :: 0 <= k < |CutAtNul(s)| ==> CutAtNul(s)[k] != '\0'
  {
    NulIndexFirst(s, 0);
  }

  /** A text without NUL followed by nothing or by a NUL is kept whole. */
  lemma CutAtNulPrefix(s: string, t: string)
    requires forall k :: 0 <= k < |s| ==> s[k] != '\0'
    requires t == [] || t[0] == '\0'
    ensures CutAtNul(s + t) == s
  {
    var i := NulIndex(s + t, 0);
    NulIndexFirst(s + t, 0);
    if t != [] {
      assert (s + t)[|s|] == '\0';
    }
    assert i == |s|;
    assert (s + t)[..|s|] == s;
  }

  /** The line terminators of JavaScript regular expressions, which `.`
      does not match. */
  predicate IsLineTerminator(c: char) {
    c == '\n' || c == '\r' || c == 0x2028 as char || c == 0x2029 as char
  }

  /** Where the line holding position `to` starts: just past the last line
      terminator before `to`, or 0. */
  function LineStart(s: string, to: nat): (i: nat)
    requires to <= |s|
    ensures i <= to
    ensures forall k :: i <= k < to ==> !IsLineTerminator(s[k])
    ensures i > 0 ==> IsLineTerminator(s[i - 1])
  {
    if to == 0 || IsLineTerminator(s[to - 1]) then to else LineStart(s, to - 1)
  }

  /** `s.replace(/\0.*$/, "")` as JavaScript evaluates it: `.` matches no
      line terminator and `$` only the end of the text, so the match is the
      first NUL of the last line and everything after it. A text whose last
      line holds no NUL is left as it is. */
  function RegexCutAtNul(s: string): (r: string)
    ensures |r| <= |s| && r == s[..|r|]
    ensures |r| < |s| ==> s[|r|] == '\0'
    ensures forall k :: |r| <= k < |s| ==> !IsLineTerminator(s[k])
    ensures forall k :: LineStart(s, |s|) <= k < |r| ==> s[k] != '\0'
  {
    var start := LineStart(s, |s|);
    NulIndexFirst(s, start);
    s[..NulIndex(s, start)]
  }

  /** On a text without line terminators the regular expression cuts at
      the first NUL. */
  lemma RegexCutWithoutLineBreaks(s: string)
    requires forall k :: 0 <= k < |s| ==> !IsLineTerminator(s[k])
    ensures RegexCutAtNul(s) == CutAtNul(s)
  {
    assert LineStart(s, |s|) == 0;
  }

  /** A line feed after the first NUL moves the cut past it: the field
      "a", NUL, line feed, NUL keeps its first NUL and the line feed, and a
      field that starts with NUL is not cut to the empty text. */
  lemma RegexCutKeepsLineBreak()
    ensures RegexCutAtNul(['a', '\0', '\n', '\0']) == ['a', '\0', '\n']
    ensures CutAtNul(['a', '\0', '\n', '\0']) == ['a']
    ensures RegexCutAtNul(['\0', '\n', '\0']) == ['\0', '\n']
  {
    var s := ['a', '\0', '\n', '\0'];
    assert LineStart(s, 4) == 3;
    assert NulIndex(s, 0) == 1;
    var t := ['\0', '\n', '\0'];
    assert LineStart(t, 3) == 2;
  }

  /** The white-space characters of `String.prototype.trim` (and of
      `parseInt`) that a byte-per-character decoding can produce: tab, line
      feed, vertical tab, form feed, carriage return, space and the
      no-break space U+00A0. */
  predicate IsWhitespace(c: char) {
    c == '\t' || c == '\n' || c == 11 as char || c == 12 as char || c == '\r' || c == ' '
    || c == 0xA0 as char
  }

  /** The position of the first character at or after `from` that is not
      white space, or `|s|`. */
  function SkipWhitespace(s: string, from: nat): (i: nat)
    requires from <= |s|
    ensures from <= i <= |s|
    ensures i < |s| ==> !IsWhitespace(s[i])
    ensures forall k :: from <= k < i ==> IsWhitespace(s[k])
    decreases |s| - from
  {
    if from < |s| && IsWhitespace(s[from]) then SkipWhitespace(s, from + 1) else from
  }

  /** The length of `s[..to]` without its trailing white space. */
  function SkipWhitespaceBack(s: string, to: nat): (i: nat)
    requires to <= |s|
    ensures i <= to
    ensures i > 0 ==> !IsWhitespace(s[i - 1])
    ensures forall k :: i <= k < to ==> IsWhitespace(s[k])
  {
    if to > 0 && IsWhitespace(s[to - 1]) then SkipWhitespaceBack(s, to - 1) else to
  }

  /** `s` without its leading white space. */
  function TrimStart(s: string): (r: string)
    ensures |r| <= |s| && r == s[|s| - |r|..]
    ensures |r| > 0 ==> !IsWhitespace(r[0])
    ensures forall k :: 0 <= k < |s| - |r| ==> IsWhitespace(s[k])
  {
    s[SkipWhitespace(s, 0)..]
  }

  /** `s` without its trailing white space. */
  function TrimEnd(s: string): (r: string)
    ensures |r| <= |s| && r == s[..|r|]
    ensures |r| > 0 ==> !IsWhitespace(r[|r| - 1])
    ensures forall k :: |r| <= k < |s| ==> IsWhitespace(s[k])
  {
    s[..SkipWhitespaceBack(s, |s|)]
  }

  /** `s.trim()`: the text between the leading and the trailing white
      space. */
  function Trim(s: string): (r: string)
    ensures var i := SkipWhitespace(s, 0);
      && i + |r| <= |s| && r == s[i..i + |r|]
      && (forall k :: 0 <= k < i ==> IsWhitespace(s[k]))
      && (forall k :: i + |r| <= k < |s| ==> IsWhitespace(s[k]))
    ensures |r| > 0 ==> !IsWhitespace(r[0]) && !IsWhitespace(r[|r| - 1])
  {
    TrimBoth(s);
    TrimEnd(TrimStart(s))
  }

  lemma TrimBoth(s: string)
    ensures var i := SkipWhitespace(s, 0);
      var r := TrimEnd(TrimStart(s));
      && i + |r| <= |s| && r == s[i..i + |r|]
      && (forall k :: i + |r| <= k < |s| ==> IsWhitespace(s[k]))
  {
    var t := TrimStart(s);
    var r := TrimEnd(t);
    var i := SkipWhitespace(s, 0);
    assert t == s[i..];
    forall k | i + |r| <= k < |s|
      ensures IsWhitespace(s[k])
    {
      assert s[k] == t[k - i];
    }
  }

  /** `s.indexOf(c)`, with -1 turned into `None`: the first position of `c`. */
  function IndexOf(s: string, c: char): (r: Option<nat>)
    ensures r.None? <==> c !in s
    ensures r.Some? ==> r.value < |s| && s[r.value] == c && c !in s[..r.value]
  {
    if |s| == 0 then None
    else if s[0] == c then Some(0)
    else match IndexOf(s[1..], c)
      case None => None
      case Some(i) => assert s[..i + 1] == [s[0]] + s[1..][..i]; Some(i + 1)
  }

  /** The first occurrence of `c` in `p + [c] + q` is the one after `p` when
      `p` has none. */
  lemma IndexOfAfter(p: string, c: char, q: string)
    requires c !in p
    ensures IndexOf(p + [c] + q, c) == Some(|p|)
  {
    var s := p + [c] + q;
    assert s[|p|] == c && s[..|p|] == p;
  }

  /** `s.startsWith(key)`. */
  predicate StartsWith(s: string, key: string) {
    |key| <= |s| && s[..|key|] == key
  }

  /** `s.includes(key)`: `key` starts at some position of `s`. */
  predicate Contains(s: string, key: string)
    ensures Contains(s, key) <==> exists i :: 0 <= i <= |s| && StartsWith(s[i..], key)
    decreases |s|
  {
    if StartsWith(s, key) then
      assert s[0..] == s;
      true
    else if |s| == 0 then
      false
    else
      assert forall i :: 1 <= i <= |s| ==> s[i..] == s[1..][i - 1..];
      Contains(s[1..], key)
  }

  /** `s.endsWith(key)` for a one-character key: `s` is some text followed
      by `c`. */
  predicate EndsWithChar(s: string, c: char)
    ensures EndsWithChar(s, c) <==> |s| > 0 && s == s[..|s| - 1] + [c]
  {
    |s| > 0 && s[|s| - 1] == c
  }

  /** A text that holds `key` somewhere includes it. */
  lemma {:induction false} ContainsInfix(p: string, key: string, q: string)
    ensures Contains(p + key + q, key)
    decreases |p|
  {
    if |p| == 0 {
      assert p + key + q == key + q;
      assert (key + q)[..|key|] == key;
    } else {
      ContainsInfix(p[1..], key, q);
      assert (p + key + q)[1..] == p[1..] + key + q;
    }
  }

  /** Bytes shown as text one character per byte (code point = byte value). */
  function DecodeBytes(bs: seq<byte>): (s: string)
    ensures |s| == |bs|
    ensures forall k :: 0 <= k < |bs| ==> s[k] as int == bs[k] as int
  {
    seq(|bs|, k requires 0 <= k < |bs| => bs[k] as int as char)
  }

  /** The bytes of a text made of code points below 256, one per character:
      the inverse of `DecodeBytes`. */
  function EncodeBytes(s: string): (bs: seq<byte>)
    requires forall k :: 0 <= k < |s| ==> s[k] as int < 256
    ensures |bs| == |s|
    ensures DecodeBytes(bs) == s
  {
    seq(|s|, k requires 0 <= k < |s| => s[k] as int as byte)
  }

  /** A UTF-8 continuation byte, 10xxxxxx. */
  predicate IsContinuation(b: byte) {
    0x80 <= b < 0xC0
  }

  /** The UTF-8 encoding of one code point (`TextEncoder`): one byte below
      0x80, then two, three or four bytes for the ranges below 0x800,
      0x10000 and above, the lead byte carrying the high bits and each
      continuation byte the next six. */
  function Utf8Char(c: char): (bs: seq<byte>)
    ensures 1 <= |bs| <= 4
    ensures forall k :: 1 <= k < |bs| ==> IsContinuation(bs[k])
    ensures |bs| == 1 <==> c as int < 0x80
    ensures |bs| == 1 ==> bs[0] as int == c as int
    ensures |bs| == 2 <==> 0x80 <= c as int < 0x800
    ensures |bs| == 2 ==>
      (0xC0 <= bs[0] < 0xE0 && (bs[0] as int - 0xC0) * 64 + (bs[1] as int - 0x80) == c as int)
    ensures |bs| == 3 <==> 0x800 <= c as int < 0x10000
    ensures |bs| == 3 ==>
      (0xE0 <= bs[0] < 0xF0
       && (bs[0] as int - 0xE0) * 4096 + (bs[1] as int - 0x80) * 64 + (bs[2] as int - 0x80) == c as int)
    ensures |bs| == 4 <==> 0x10000 <= c as int
    ensures |bs| == 4 ==>
      (0xF0 <= bs[0] < 0xF8
       && (bs[0] as int - 0xF0) * 262144 + (bs[1] as int - 0x80) * 4096
          + (bs[2] as int - 0x80) * 64 + (bs[3] as int - 0x80) == c as int)
  {
    var n := c as int;
    SixBitDigits(n);
    if n < 0x80 then [n as byte]
    else if n < 0x800 then [(0xC0 + n / 64) as byte, (0x80 + n % 64) as byte]
    else if n < 0x10000 then
      [(0xE0 + n / 4096) as byte, (0x80 + n / 64 % 64) as byte, (0x80 + n % 64) as byte]
    else
      [(0xF0 + n / 262144) as byte, (0x80 + n / 4096 % 64) as byte,
       (0x80 + n / 64 % 64) as byte, (0x80 + n % 64) as byte]
  }

  /** A code point split into six-bit groups, as UTF-8 spreads it over
      its bytes. */
  lemma SixBitDigits(n: int)
    requires 0 <= n < 0x110000
    ensures n / 64 * 64 + n % 64 == n && 0 <= n % 64 < 64
    ensures n / 4096 * 4096 + n / 64 % 64 * 64 + n % 64 == n && 0 <= n / 64 % 64 < 64
    ensures n / 262144 * 262144 + n / 4096 % 64 * 4096 + n / 64 % 64 * 64 + n % 64 == n
    ensures 0 <= n / 4096 % 64 < 64 && n / 262144 <= 4
    ensures n < 0x800 ==> n / 64 < 32
    ensures n < 0x10000 ==> n / 4096 < 16
  {
    var q := n / 64;
    assert n / 4096 == q / 64;
    assert n / 262144 == q / 4096;
    assert q / 64 * 64 + q % 64 == q;
    assert q / 4096 * 64 + q / 64 % 64 == q / 64;
  }

  /** The UTF-8 encoding of a text, which is how the sandbox file system
      stores a file written from a string. ASCII text is stored byte for
      byte. */
  function Utf8(s: string): (bs: seq<byte>)
    ensures |bs| >= |s|
    ensures (forall k :: 0 <= k < |s| ==> s[k] as int < 0x80) ==> |bs| == |s|
  {
    if |s| == 0 then [] else Utf8Char(s[0]) + Utf8(s[1..])
  }

  /** Encoding is compositional: the bytes of a concatenation are the
      bytes of its parts, one after the other. */
  lemma {:induction false} Utf8Append(s: string, t: string)
    ensures Utf8(s + t) == Utf8(s) + Utf8(t)
    decreases |s|
  {
    if |s| > 0 {
      assert (s + t)[1..] == s[1..] + t;
      Utf8Append(s[1..], t);
    } else {
      assert s + t == t;
    }
  }

  /** The code point at the head of UTF-8 bytes and how many bytes encode
      it, or `None` for a malformed, overlong or surrogate sequence. */
  function Utf8DecodeChar(bs: seq<byte>): (r: Option<(char, nat)>)
    requires |bs| > 0
    ensures r.Some? ==> 1 <= r.value.1 <= |bs|
  {
    var b0 := bs[0] as int;
    if b0 < 0x80 then Some((b0 as char, 1))
    else if 0xC0 <= b0 < 0xE0 && |bs| >= 2 && IsContinuation(bs[1]) then
      var v := (b0 - 0xC0) * 64 + (bs[1] as int - 0x80);
      if 0x80 <= v then Some((v as char, 2)) else None
    else if 0xE0 <= b0 < 0xF0 && |bs| >= 3 && IsContinuation(bs[1]) && IsContinuation(bs[2]) then
      var v := (b0 - 0xE0) * 4096 + (bs[1] as int - 0x80) * 64 + (bs[2] as int - 0x80);
      if 0x800 <= v && !(0xD800 <= v < 0xE000) then Some((v as char, 3)) else None
    else if 0xF0 <= b0 < 0xF8 && |bs| >= 4
      && IsContinuation(bs[1]) && IsContinuation(bs[2]) && IsContinuation(bs[3]) then
      var v := (b0 - 0xF0) * 262144 + (bs[1] as int - 0x80) * 4096
        + (bs[2] as int - 0x80) * 64 + (bs[3] as int - 0x80);
      if 0x10000 <= v < 0x110000 then Some((v as char, 4)) else None
    else None
  }

  /** UTF-8 bytes read back as text, or `None` when they are malformed:
      the inverse of `Utf8`. */
  function Utf8Decode(bs: seq<byte>): Option<string>
    decreases |bs|
  {
    if |bs| == 0 then Some([])
    else match Utf8DecodeChar(bs)
      case None => None
      case Some((c, n)) =>
        match Utf8Decode(bs[n..])
        case None => None
        case Some(rest) => Some([c] + rest)
  }

  /** The bytes of a code point decode to that code point, whatever
      follows them. */
  lemma Utf8CharDecodes(c: char, rest: seq<byte>)
    ensures Utf8DecodeChar(Utf8Char(c) + rest) == Some((c, |Utf8Char(c)|))
  {
    var bs := Utf8Char(c);
    assert (bs + rest)[..|bs|] == bs;
  }

  /** What `Utf8` writes, a UTF-8 reader reads back unchanged. */
  lemma {:induction false} Utf8RoundTrip(s: string)
    ensures Utf8Decode(Utf8(s)) == Some(s)
    decreases |s|
  {
    if |s| > 0 {
      var head := Utf8Char(s[0]);
      var rest := Utf8(s[1..]);
      Utf8CharDecodes(s[0], rest);
      assert (head + rest)[|head|..] == rest;
      Utf8RoundTrip(s[1..]);
      assert [s[0]] + s[1..] == s;
    }
  }
}
