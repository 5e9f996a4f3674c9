/** The text format of the counter file: `i64::to_string` on the way out, and
    on the way in `BufRead::read_line`, `str::trim_end` and `i64::from_str`. */
module Decimal {
  import opened Optional
  import opened Int64

  predicate IsDigit(c: char) {
    '0' <= c <= '9'
  }

  predicate AllDigits(s: seq<char>) {
    forall i :: 0 <= i < |s| ==> IsDigit(s[i])
  }

  function DigitChar(d: nat): (c: char)
    requires d < 10
    ensures IsDigit(c)
  {
    ('0' as int + d) as char
  }

  function DigitValue(c: char): (d: nat)
    requires IsDigit(c)
    ensures d < 10
  {
    c as int - '0' as int
  }

  /** Rust's `char::is_whitespace`: the Unicode White_Space property. */
  predicate IsWhitespace(c: char) {
    || ('\t' <= c <= '\r')
    || c == ' '
    || c == '\U{0085}'
    || c == '\U{00A0}'
    || c == '\U{1680}'
    || ('\U{2000}' <= c <= '\U{200A}')
    || c == '\U{2028}'
    || c == '\U{2029}'
    || c == '\U{202F}'
    || c == '\U{205F}'
    || c == '\U{3000}'
  }

  predicate AllWhitespace(s: seq<char>) {
    forall i :: 0 <= i < |s| ==> IsWhitespace(s[i])
  }

  // ---------------------------------------------------------------------------
  // Rendering
  // ---------------------------------------------------------------------------

  /** The decimal digits of k, most significant first, without leading zeros. */
  function NatDigits(k: nat): (s: seq<char>)
    ensures |s| >= 1 && AllDigits(s)
    ensures |s| > 1 ==> s[0] != '0'
    decreases k
  {
    if k < 10 then [DigitChar(k)] else NatDigits(k / 10) + [DigitChar(k % 10)]
  }

  /** `i64::to_string`: an optional minus sign followed by the digits of |n|. */
  function Render(n: I64): (s: seq<char>)
    ensures |s| >= 1
    ensures s[0] == '-' <==> n < 0
    ensures forall i :: 0 <= i < |s| ==> IsDigit(s[i]) || (i == 0 && s[i] == '-')
    ensures IsDigit(s[|s| - 1])
  {
    if n < 0 then ['-'] + NatDigits(-(n as int)) else NatDigits(n)
  }

  // ---------------------------------------------------------------------------
  // Parsing
  // ---------------------------------------------------------------------------

  /** The value of a run of decimal digits (leading zeros allowed). */
  function DigitsToNat(s: seq<char>): nat
    requires AllDigits(s)
    decreases |s|
  {
    if |s| == 0 then 0 else DigitsToNat(s[..|s| - 1]) * 10 + DigitValue(s[|s| - 1])
  }

  /** `i64::from_str`: an optional `+` or `-`, then one or more ASCII digits
      whose value fits in an i64. Nothing else is accepted, whitespace
      included. A lone sign is rejected, as is the empty string. Rust detects
      overflow while accumulating digits; since every prefix of a digit run
      denotes a value no larger than the whole run, that is the same as
      checking the range of the final value, which is what this does. */
  function Parse(s: seq<char>): Option<I64>
  {
    if |s| == 0 then None
    else if (s[0] == '+' || s[0] == '-') && |s| == 1 then None
    else
      var signed := s[0] == '+' || s[0] == '-';
      var digits := if signed then s[1..] else s;
      if !AllDigits(digits) then None
      else
        var v: int := if s[0] == '-' then -(DigitsToNat(digits) as int) else DigitsToNat(digits);
        if MIN <= v <= MAX then Some(v) else None
  }

  // ---------------------------------------------------------------------------
  // Reading the first line
  // ---------------------------------------------------------------------------

  /** `BufRead::read_line` on a fresh buffer: everything up to and including
      the first newline, or the whole content when there is none. */
  function ReadLine(s: seq<char>): (line: seq<char>)
    ensures line <= s
    ensures |line| == 0 <==> |s| == 0
    decreases |s|
  {
    if |s| == 0 then []
    else if s[0] == '\n' then [s[0]]
    else [s[0]] + ReadLine(s[1..])
  }

  /** The first line holds no newline before its last character, and ends
      in a newline unless it is the whole content. */
  lemma {:induction false} ReadLineShape(s: seq<char>)
    ensures var line := ReadLine(s);
            && (forall i :: 0 <= i < |line| - 1 ==> line[i] != '\n')
            && (line == s || (|line| > 0 && line[|line| - 1] == '\n'))
    decreases |s|
  {
    if |s| > 0 && s[0] != '\n' {
      ReadLineShape(s[1..]);
    }
  }

  /** `str::trim_end`: the longest prefix that does not end in whitespace. */
  function TrimEnd(s: seq<char>): (r: seq<char>)
    ensures r <= s
    ensures forall i :: |r| <= i < |s| ==> IsWhitespace(s[i])
    ensures |r| > 0 ==> !IsWhitespace(r[|r| - 1])
    decreases |s|
  {
    if |s| > 0 && IsWhitespace(s[|s| - 1]) then TrimEnd(s[..|s| - 1]) else s
  }

  /** The value the counter loads from a file's content, if any. Leading
      whitespace is not skipped: a loadable file starts with a sign or a
      digit. */
  function LoadedValue(content: seq<char>): (r: Option<I64>)
    ensures r.Some? ==> |content| > 0 && (IsDigit(content[0]) || content[0] == '+' || content[0] == '-')
  {
    Parse(TrimEnd(ReadLine(content)))
  }

  // ---------------------------------------------------------------------------
  // What Parse accepts
  // ---------------------------------------------------------------------------

  /** An accepted string is an optional sign followed by digits, so it holds
      no whitespace and ends in a digit; a negative value needs the `-`. */
  lemma ParseShape(s: seq<char>)
    requires Parse(s).Some?
    ensures |s| >= 1 && IsDigit(s[|s| - 1])
    ensures forall i :: 0 <= i < |s| ==> IsDigit(s[i]) || (i == 0 && (s[i] == '+' || s[i] == '-'))
    ensures Parse(s).value < 0 ==> s[0] == '-'
  {
  }

  /** n copies of the digit zero. */
  function ZeroRun(n: nat): (z: seq<char>)
    ensures |z| == n && AllDigits(z)
  {
    seq(n, _ => '0')
  }

  /** |n| for an i64, which need not fit in an i64 itself. */
  function Magnitude(n: I64): nat
  {
    if n < 0 then -(n as int) else n
  }

  lemma {:induction false} ZeroRunValue(n: nat)
    ensures DigitsToNat(ZeroRun(n)) == 0
    decreases n
  {
    if n > 0 {
      assert ZeroRun(n)[..n - 1] == ZeroRun(n - 1);
      ZeroRunValue(n - 1);
    }
  }

  /** Leading zeros do not change the value of a digit run. */
  lemma {:induction false} LeadingZerosValue(n: nat, s: seq<char>)
    requires AllDigits(s)
    ensures DigitsToNat(ZeroRun(n) + s) == DigitsToNat(s)
    decreases |s|
  {
    if |s| == 0 {
      assert ZeroRun(n) + s == ZeroRun(n);
      ZeroRunValue(n);
    } else {
      var t := ZeroRun(n) + s;
      assert t[..|t| - 1] == ZeroRun(n) + s[..|s| - 1];
      LeadingZerosValue(n, s[..|s| - 1]);
    }
  }

  /** A digit run of value zero is all zeros. */
  lemma {:induction false} ZeroValueRun(s: seq<char>)
    requires AllDigits(s) && DigitsToNat(s) == 0
    ensures s == ZeroRun(|s|)
    decreases |s|
  {
    if |s| > 0 {
      ZeroValueRun(s[..|s| - 1]);
      assert s == s[..|s| - 1] + [s[|s| - 1]];
    }
  }

  /** Every non-empty digit run is some zeros followed by the canonical
      digits of its value; z is the number of those zeros. */
  lemma {:induction false} DigitsCanonical(s: seq<char>) returns (z: nat)
    requires |s| >= 1 && AllDigits(s)
    ensures s == ZeroRun(z) + NatDigits(DigitsToNat(s))
    decreases |s|
  {
    var init := s[..|s| - 1];
    var last := s[|s| - 1];
    assert s == init + [last];
    assert DigitChar(DigitValue(last)) == last;
    if DigitsToNat(init) == 0 {
      ZeroValueRun(init);
      z := |init|;
    } else {
      z := DigitsCanonical(init);
      var k := DigitsToNat(s);
      assert k / 10 == DigitsToNat(init) && k % 10 == DigitValue(last);
      assert NatDigits(k) == NatDigits(DigitsToNat(init)) + [last];
    }
  }

  /** `from_str` accepts leading zeros and an optional sign: any number of
      zeros before the digits of |n|, after nothing or `+` when n is not
      negative, or after `-` when n is not positive (so "-0" is 0). */
  lemma ParseAccepts(n: I64, z: nat)
    ensures n >= 0 ==> Parse(ZeroRun(z) + NatDigits(n)) == Some(n)
    ensures n >= 0 ==> Parse(['+'] + (ZeroRun(z) + NatDigits(n))) == Some(n)
    ensures n <= 0 ==> Parse(['-'] + (ZeroRun(z) + NatDigits(Magnitude(n)))) == Some(n)
  {
    if n >= 0 {
      ParsePadded(n, z);
      ParsePlusPadded(n, z);
    }
    if n <= 0 {
      ParseMinusPadded(n, z);
    }
  }

  /** Zeros before the digits of a magnitude leave a digit run of that value. */
  lemma PaddedDigits(m: nat, z: nat)
    ensures |ZeroRun(z) + NatDigits(m)| >= 1 && AllDigits(ZeroRun(z) + NatDigits(m))
    ensures DigitsToNat(ZeroRun(z) + NatDigits(m)) == m
  {
    LeadingZerosValue(z, NatDigits(m));
    DigitsRoundTrip(m);
  }

  lemma ParsePadded(n: I64, z: nat)
    requires n >= 0
    ensures Parse(ZeroRun(z) + NatDigits(n)) == Some(n)
  {
    PaddedDigits(n, z);
    ParseUnsigned(ZeroRun(z) + NatDigits(n));
  }

  lemma ParsePlusPadded(n: I64, z: nat)
    requires n >= 0
    ensures Parse(['+'] + (ZeroRun(z) + NatDigits(n))) == Some(n)
  {
    var d := ZeroRun(z) + NatDigits(n);
    PaddedDigits(n, z);
    ParseSigned('+', d);
  }

  lemma ParseMinusPadded(n: I64, z: nat)
    requires n <= 0
    ensures Parse(['-'] + (ZeroRun(z) + NatDigits(Magnitude(n)))) == Some(n)
  {
    var d := ZeroRun(z) + NatDigits(Magnitude(n));
    PaddedDigits(Magnitude(n), z);
    ParseSigned('-', d);
  }

  /** A digit run is read as its value when that fits in an i64. */
  lemma ParseUnsigned(d: seq<char>)
    requires |d| >= 1 && AllDigits(d)
    requires DigitsToNat(d) <= MAX
    ensures Parse(d) == Some(DigitsToNat(d))
  {
    assert IsDigit(d[0]);
  }

  /** A sign followed by a digit run is read as the run's value, negated
      after `-`, when that fits in an i64. */
  lemma ParseSigned(sign: char, d: seq<char>)
    requires sign == '+' || sign == '-'
    requires |d| >= 1 && AllDigits(d)
    requires MIN <= (if sign == '-' then -(DigitsToNat(d) as int) else DigitsToNat(d)) <= MAX
    ensures Parse([sign] + d) == Some(if sign == '-' then -(DigitsToNat(d) as int) else DigitsToNat(d))
  {
    var s := [sign] + d;
    assert s[0] == sign && |s| > 1;
    assert s[1..] == d;
  }

  /** s is n written with z leading zeros after its optional sign: no sign
      or `+` when n is not negative, `-` when n is not positive. */
  predicate Padded(s: seq<char>, n: I64, z: nat)
  {
    || (n >= 0 && s == ZeroRun(z) + NatDigits(n))
    || (n >= 0 && s == ['+'] + (ZeroRun(z) + NatDigits(n)))
    || (n <= 0 && s == ['-'] + (ZeroRun(z) + NatDigits(Magnitude(n))))
  }

  /** What Parse reads from an accepted string: the sign and the digit run. */
  lemma ParsedParts(s: seq<char>)
    requires Parse(s).Some?
    ensures var n := Parse(s).value;
            if s[0] == '+' || s[0] == '-' then
              && |s| >= 2 && AllDigits(s[1..]) && Magnitude(n) == DigitsToNat(s[1..])
              && (s[0] == '+' ==> n >= 0) && (s[0] == '-' ==> n <= 0)
            else AllDigits(s) && n == DigitsToNat(s)
  {
  }

  /** ... and nothing else: every string `from_str` accepts has one of the
      shapes above. */
  lemma ParseAcceptsOnly(s: seq<char>)
    requires Parse(s).Some?
    ensures exists z: nat :: Padded(s, Parse(s).value, z)
  {
    var n := Parse(s).value;
    ParsedParts(s);
    if s[0] == '+' || s[0] == '-' {
      var z := DigitsCanonical(s[1..]);
      PaddedSigned(s, n, z);
    } else {
      var z := DigitsCanonical(s);
      assert Padded(s, n, z);
    }
  }

  lemma PaddedSigned(s: seq<char>, n: I64, z: nat)
    requires |s| >= 2 && (s[0] == '+' || s[0] == '-')
    requires s[1..] == ZeroRun(z) + NatDigits(Magnitude(n))
    requires s[0] == '+' ==> n >= 0
    requires s[0] == '-' ==> n <= 0
    ensures Padded(s, n, z)
  {
    assert s == [s[0]] + s[1..];
  }

  // ---------------------------------------------------------------------------
  // Round trip
  // ---------------------------------------------------------------------------

  lemma {:induction false} DigitsRoundTrip(k: nat)
    ensures DigitsToNat(NatDigits(k)) == k
    decreases k
  {
    if k >= 10 {
      var s := NatDigits(k);
      assert s[..|s| - 1] == NatDigits(k / 10);
      DigitsRoundTrip(k / 10);
    }
  }

  /** Parsing the rendering of any i64 gives it back. */
  lemma ParseRender(n: I64)
    ensures Parse(Render(n)) == Some(n)
  {
    var s := Render(n);
    if n < 0 {
      var m: nat := -(n as int);
      assert s[1..] == NatDigits(m);
      DigitsRoundTrip(m);
    } else {
      DigitsRoundTrip(n);
    }
  }

  /** Distinct counts have distinct renderings. */
  lemma RenderInjective(m: I64, n: I64)
    ensures Render(m) == Render(n) <==> m == n
  {
    if Render(m) == Render(n) {
      ParseRender(m);
      ParseRender(n);
    }
  }

  lemma {:induction false} ReadLineAfterPrefix(p: seq<char>, t: seq<char>)
    requires forall i :: 0 <= i < |p| ==> p[i] != '\n'
    ensures ReadLine(p + t) == p + ReadLine(t)
    decreases |p|
  {
    if |p| > 0 {
      assert (p + t)[1..] == p[1..] + t;
      ReadLineAfterPrefix(p[1..], t);
      assert p == [p[0]] + p[1..];
    } else {
      assert p + t == t;
    }
  }

  lemma {:induction false} TrimWhitespaceSuffix(p: seq<char>, w: seq<char>)
    requires AllWhitespace(w)
    ensures TrimEnd(p + w) == TrimEnd(p)
    decreases |w|
  {
    if |w| == 0 {
      assert p + w == p;
    } else {
      var w' := w[..|w| - 1];
      assert (p + w)[..|p + w| - 1] == p + w';
      TrimWhitespaceSuffix(p, w');
    }
  }

  lemma RenderHasNoNewline(n: I64)
    ensures forall i :: 0 <= i < |Render(n)| ==> Render(n)[i] != '\n'
  {
  }

  lemma RenderIsTrimmed(n: I64)
    ensures TrimEnd(Render(n)) == Render(n)
  {
  }

  /** The counter loads a value exactly when the file starts with a string
      that `from_str` accepts and the rest of that line is whitespace. */
  lemma LoadedValueSplits(content: seq<char>)
    requires LoadedValue(content).Some?
    ensures exists k :: 1 <= k <= |content| && Parse(content[..k]) == LoadedValue(content)
                          && AllWhitespace(ReadLine(content[k..]))
  {
    var line := ReadLine(content);
    var t := TrimEnd(line);
    ParsedIsOneTrimmedLine(t);
    assert AllWhitespace(line[|t|..]);
    assert content[..|t|] == t;
    LineSplit(content, |t|);
    assert Parse(content[..|t|]) == LoadedValue(content);
  }

  /** Past a stretch without newlines at its start, the rest of the content
      has the rest of the first line as its own first line. */
  lemma {:induction false} LineSplit(content: seq<char>, k: nat)
    requires k <= |ReadLine(content)|
    requires forall i :: 0 <= i < k ==> content[i] != '\n'
    ensures ReadLine(content[k..]) == ReadLine(content)[k..]
    decreases k
  {
    if k > 0 {
      var tail := content[1..];
      assert ReadLine(content) == [content[0]] + ReadLine(tail);
      LineSplit(tail, k - 1);
      assert tail[k - 1..] == content[k..];
    }
  }

  lemma LoadedValueOfParsedPrefix(p: seq<char>, tail: seq<char>)
    requires Parse(p).Some?
    requires AllWhitespace(ReadLine(tail))
    ensures LoadedValue(p + tail) == Parse(p)
  {
    ParsedIsOneTrimmedLine(p);
    ReadLineAfterPrefix(p, tail);
    TrimWhitespaceSuffix(p, ReadLine(tail));
  }

  lemma ParsedIsOneTrimmedLine(p: seq<char>)
    requires Parse(p).Some?
    ensures forall i :: 0 <= i < |p| ==> p[i] != '\n'
    ensures TrimEnd(p) == p
  {
    assert !IsWhitespace(p[|p| - 1]);
  }

  /** A file holding the rendering of n, followed by anything whose first
      line is only whitespace (nothing, a newline, a newline and more lines,
      trailing blanks), loads as n. */
  lemma LoadRenderRoundTrip(n: I64, tail: seq<char>)
    requires AllWhitespace(ReadLine(tail))
    ensures LoadedValue(Render(n) + tail) == Some(n)
  {
    var s := Render(n);
    var line := ReadLine(tail);
    RenderHasNoNewline(n);
    ReadLineAfterPrefix(s, tail);
    TrimWhitespaceSuffix(s, line);
    RenderIsTrimmed(n);
    ParseRender(n);
  }
}
