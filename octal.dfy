/** JavaScript's `parseInt(text, 8)` on the text of a header field, and a
    one-pass reading of the same field that gives the same number without
    first cutting the text at its NUL and trimming it. */
module Octal {
  import opened Wrappers
  import opened Strings

  predicate IsOctalDigit(c: char) {
    '0' <= c <= '7'
  }

  predicate AllOctal(s: string) {
    forall k :: 0 <= k < |s| ==> IsOctalDigit(s[k])
  }

  function DigitValue(c: char): int {
    c as int - '0' as int
  }

  function Pow8(n: nat): (p: nat)
    ensures p >= 1
  {
    if n == 0 then 1 else 8 * Pow8(n - 1)
  }

  /** The position of the first character at or after `from` that is not
      an octal digit, or `|s|`. */
  function OctalEnd(s: string, from: nat): (i: nat)
    requires from <= |s|
    ensures from <= i <= |s|
    ensures i < |s| ==> !IsOctalDigit(s[i])
    decreases |s| - from
  {
    if from < |s| && IsOctalDigit(s[from]) then OctalEnd(s, from + 1) else from
  }

  /** Everything between `from` and `OctalEnd(s, from)` is an octal digit,
      so a text of digits only is read to its end. */
  lemma {:induction false} OctalEndDigits(s: string, from: nat)
    requires from <= |s|
    ensures forall k :: from <= k < OctalEnd(s, from) ==> IsOctalDigit(s[k])
    ensures AllOctal(s) ==> OctalEnd(s, from) == |s|
    decreases |s| - from
  {
    if from < |s| && IsOctalDigit(s[from]) {
      OctalEndDigits(s, from + 1);
    }
  }

  /** The number `acc` followed by the octal digits `s[lo..hi]`, read most
      significant first. */
  function OctalAcc(s: string, lo: nat, hi: nat, acc: int): int
    requires lo <= hi <= |s|
    decreases hi - lo
  {
    if lo == hi then acc else OctalAcc(s, lo + 1, hi, acc * 8 + DigitValue(s[lo]))
  }

  /** The number a whole text of octal digits denotes. */
  function OctalValue(ds: string): int {
    OctalAcc(ds, 0, |ds|, 0)
  }

  /** One more digit on the right multiplies the value by 8 and adds the
      digit. */
  lemma {:induction false} OctalAccSnoc(s: string, lo: nat, hi: nat, acc: int)
    requires lo <= hi < |s|
    ensures OctalAcc(s, lo, hi + 1, acc) == OctalAcc(s, lo, hi, acc) * 8 + DigitValue(s[hi])
    decreases hi - lo
  {
    if lo < hi {
      OctalAccSnoc(s, lo + 1, hi, acc * 8 + DigitValue(s[lo]));
    }
  }

  /** The value read from `s[lo..hi]` depends on those characters only. */
  lemma {:induction false} OctalAccAgree(s: string, t: string, lo: nat, hi: nat, acc: int)
    requires lo <= hi <= |s| && hi <= |t|
    requires forall k :: lo <= k < hi ==> s[k] == t[k]
    ensures OctalAcc(s, lo, hi, acc) == OctalAcc(t, lo, hi, acc)
    decreases hi - lo
  {
    if lo < hi {
      OctalAccAgree(s, t, lo + 1, hi, acc * 8 + DigitValue(s[lo]));
    }
  }

  /** Reading digits never makes a non-negative number smaller. */
  lemma {:induction false} OctalAccGrows(s: string, lo: nat, hi: nat, acc: int)
    requires lo <= hi <= |s| && acc >= 0
    requires forall k :: lo <= k < hi ==> IsOctalDigit(s[k])
    ensures OctalAcc(s, lo, hi, acc) >= acc
    decreases hi - lo
  {
    if lo < hi {
      OctalAccGrows(s, lo + 1, hi, acc * 8 + DigitValue(s[lo]));
    }
  }

  /** `parseInt(s, 8)`, with `None` for NaN: leading white space is skipped,
      one optional sign is read, and then the longest run of octal digits;
      no digit at all gives NaN. A blank text is NaN, and a negative value
      needs a minus sign as the first character that is not white space. */
  function ParseIntOctal(s: string): (r: Option<int>)
    ensures SkipWhitespace(s, 0) == |s| ==> r.None?
    ensures r.Some? && r.value < 0 ==>
              SkipWhitespace(s, 0) < |s| && s[SkipWhitespace(s, 0)] == '-'
  {
    var start := SkipWhitespace(s, 0);
    var signed := start < |s| && (s[start] == '-' || s[start] == '+');
    var first := if signed then start + 1 else start;
    var end := OctalEnd(s, first);
    if end == first then None
    else
      var value := OctalAcc(s, first, end, 0);
      assert value >= 0 by {
        OctalEndDigits(s, first);
        OctalAccGrows(s, first, end, 0);
      }
      if signed && s[start] == '-' then Some(-value) else Some(value)
  }

  /** A text made only of octal digits parses to the number it denotes. */
  lemma ParseDigits(ds: string)
    requires |ds| > 0 && AllOctal(ds)
    ensures ParseIntOctal(ds) == Some(OctalValue(ds))
  {
    assert !IsWhitespace(ds[0]);
    assert SkipWhitespace(ds, 0) == 0;
    OctalEndDigits(ds, 0);
  }

  /** `parseInt(s, 8) || 0`: NaN reads as 0, so a blank text is 0, and
      only a text whose first character other than white space is a minus
      sign reads as a negative number. */
  function ParseOctalOrZero(s: string): (n: int)
    ensures SkipWhitespace(s, 0) == |s| ==> n == 0
    ensures n < 0 ==> SkipWhitespace(s, 0) < |s| && s[SkipWhitespace(s, 0)] == '-'
    ensures |s| > 0 && !IsWhitespace(s[0]) && s[0] != '-' && s[0] != '+' && !IsOctalDigit(s[0]) ==> n == 0
  {
    match ParseIntOctal(s)
    case None => 0
    case Some(v) => v
  }

  // ---------------------------------------------------------------------
  // The same number read in one pass
  // ---------------------------------------------------------------------

  /** Where a left-to-right reading stands: before the number, after its
      sign, or inside its digits. */
  datatype ScanState = Blank | Signed(negative: bool) | Digits(negative: bool, value: int)

  /** The number read so far; 0 when no digit was read (NaN). */
  function ScanResult(st: ScanState): int {
    match st
    case Digits(negative, value) => if negative then -value else value
    case _ => 0
  }

  /** `s` read from position `i` on in state `st`: white space is skipped,
      then one optional sign, then octal digits up to the first other
      character. */
  function ScanOctal(s: string, i: nat, st: ScanState): int
    requires i <= |s|
    decreases |s| - i
  {
    if i == |s| then ScanResult(st)
    else
      var c := s[i];
      match st
      case Blank =>
        if IsWhitespace(c) then ScanOctal(s, i + 1, Blank)
        else if c == '-' || c == '+' then ScanOctal(s, i + 1, Signed(c == '-'))
        else if IsOctalDigit(c) then ScanOctal(s, i + 1, Digits(false, DigitValue(c)))
        else 0
      case Signed(negative) =>
        if IsOctalDigit(c) then ScanOctal(s, i + 1, Digits(negative, DigitValue(c)))
        else 0
      case Digits(negative, value) =>
        if IsOctalDigit(c) then ScanOctal(s, i + 1, Digits(negative, value * 8 + DigitValue(c)))
        else ScanResult(st)
  }

  /** A character that ends the reading in every state, such as NUL. */
  predicate EndsScan(c: char) {
    !IsWhitespace(c) && c != '-' && c != '+' && !IsOctalDigit(c)
  }

  /** Leading white space is skipped. */
  lemma {:induction false} ScanSkips(s: string, k: nat)
    requires k <= |s|
    ensures ScanOctal(s, k, Blank) == ScanOctal(s, SkipWhitespace(s, k), Blank)
    decreases |s| - k
  {
    if k < |s| && IsWhitespace(s[k]) {
      ScanSkips(s, k + 1);
    }
  }

  /** Inside the digits, the reading takes the whole run of octal digits. */
  lemma {:induction false} ScanDigits(s: string, k: nat, negative: bool, value: int)
    requires k <= |s|
    ensures ScanOctal(s, k, Digits(negative, value))
         == ScanResult(Digits(negative, OctalAcc(s, k, OctalEnd(s, k), value)))
    decreases |s| - k
  {
    if k < |s| && IsOctalDigit(s[k]) {
      ScanDigits(s, k + 1, negative, value * 8 + DigitValue(s[k]));
    }
  }

  /** The one-pass reading is `parseInt(s, 8) || 0`. */
  lemma ScanParses(s: string)
    ensures ScanOctal(s, 0, Blank) == ParseOctalOrZero(s)
  {
    var start := SkipWhitespace(s, 0);
    ScanSkips(s, 0);
    if start < |s| {
      var c := s[start];
      var signed := c == '-' || c == '+';
      var first := if signed then start + 1 else start;
      if first < |s| && IsOctalDigit(s[first]) {
        ScanDigits(s, first + 1, signed && c == '-', DigitValue(s[first]));
      }
    }
  }

  /** When nothing after a white-space tail can change the reading, the
      reading there is what was read before it. */
  lemma {:induction false} ScanBlankTail(s: string, m: nat, st: ScanState)
    requires m <= |s|
    requires forall j :: m <= j < |s| ==> IsWhitespace(s[j])
    ensures ScanOctal(s, m, st) == ScanResult(st)
    decreases |s| - m
  {
    if m < |s| && st.Blank? {
      ScanBlankTail(s, m + 1, st);
    }
  }

  /** Cutting the text where the reading stops anyway, or before a tail of
      white space, does not change the reading. */
  lemma {:induction false} ScanPrefix(s: string, m: nat, k: nat, st: ScanState)
    requires k <= m <= |s|
    requires m == |s| || EndsScan(s[m]) || forall j :: m <= j < |s| ==> IsWhitespace(s[j])
    ensures ScanOctal(s[..m], k, st) == ScanOctal(s, k, st)
    decreases m - k
  {
    if k == m {
      if m < |s| && !EndsScan(s[m]) {
        ScanBlankTail(s, m, st);
      }
    } else {
      assert s[..m][k] == s[k];
      var c := s[k];
      match st
      case Blank =>
        if IsWhitespace(c) {
          ScanPrefix(s, m, k + 1, Blank);
        } else if c == '-' || c == '+' {
          ScanPrefix(s, m, k + 1, Signed(c == '-'));
        } else if IsOctalDigit(c) {
          ScanPrefix(s, m, k + 1, Digits(false, DigitValue(c)));
        }
      case Signed(negative) =>
        if IsOctalDigit(c) {
          ScanPrefix(s, m, k + 1, Digits(negative, DigitValue(c)));
        }
      case Digits(negative, value) =>
        if IsOctalDigit(c) {
          ScanPrefix(s, m, k + 1, Digits(negative, value * 8 + DigitValue(c)));
        }
    }
  }

  /** Reading a suffix is reading the whole text from where the suffix
      starts. */
  lemma {:induction false} ScanShift(s: string, j: nat, k: nat, st: ScanState)
    requires j + k <= |s|
    ensures ScanOctal(s[j..], k, st) == ScanOctal(s, j + k, st)
    decreases |s| - j - k
  {
    if j + k < |s| {
      assert s[j..][k] == s[j + k];
      var c := s[j + k];
      match st
      case Blank =>
        if IsWhitespace(c) {
          ScanShift(s, j, k + 1, Blank);
        } else if c == '-' || c == '+' {
          ScanShift(s, j, k + 1, Signed(c == '-'));
        } else if IsOctalDigit(c) {
          ScanShift(s, j, k + 1, Digits(false, DigitValue(c)));
        }
      case Signed(negative) =>
        if IsOctalDigit(c) {
          ScanShift(s, j, k + 1, Digits(negative, DigitValue(c)));
        }
      case Digits(negative, value) =>
        if IsOctalDigit(c) {
          ScanShift(s, j, k + 1, Digits(negative, value * 8 + DigitValue(c)));
        }
    }
  }

  /** Cutting a field at a NUL and trimming it does not change the number
      `parseInt` reads from it: the one pass over the raw field gives the
      same number as `parseInt` after the cut and the trim. */
  lemma CutAndTrimIgnored(s: string, m: nat)
    requires m <= |s|
    requires m == |s| || s[m] == '\0'
    ensures ScanOctal(s, 0, Blank) == ParseOctalOrZero(Trim(s[..m]))
  {
    var t := s[..m];
    ScanPrefix(s, m, 0, Blank);
    var a := SkipWhitespace(t, 0);
    var u := TrimStart(t);
    ScanShift(t, a, 0, Blank);
    ScanSkips(t, 0);
    var b := SkipWhitespaceBack(u, |u|);
    ScanPrefix(u, b, 0, Blank);
    ScanParses(Trim(t));
  }

  /** Octal digits followed by nothing or by a character that ends the
      reading, such as NUL, read as the number they denote. */
  lemma ScanDigitsThenStop(ds: string, tail: string)
    requires |ds| > 0 && AllOctal(ds)
    requires tail == [] || EndsScan(tail[0])
    ensures ScanOctal(ds + tail, 0, Blank) == OctalValue(ds)
  {
    var s := ds + tail;
    ScanPrefix(s, |ds|, 0, Blank);
    assert s[..|ds|] == ds;
    ScanParses(ds);
    ParseDigits(ds);
  }
}
