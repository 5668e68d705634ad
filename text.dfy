/** String operations that get_sref.py takes from Python: zero-padded decimal
    rendering (the strftime directives %H, %m, %d and %Y), str.replace, and
    the separator handling that a URL query string is made of. */
module Text {

  datatype Option<T> = None | Some(value: T)

  // ---------------------------------------------------------------------------
  // Decimal digits

  predicate IsDigit(c: char) {
    '0' <= c <= '9'
  }

  predicate AllDigits(s: string) {
    forall i :: 0 <= i < |s| ==> IsDigit(s[i])
  }

  function DigitChar(d: nat): (c: char)
    requires d < 10
    ensures IsDigit(c) && DigitValue(c) == d
  {
    ('0' as int + d) as char
  }

  function DigitValue(c: char): nat
    requires IsDigit(c)
  {
    c as int - '0' as int
  }

  function Pow10(k: nat): (p: nat)
    ensures p >= 1
  {
    if k == 0 then 1 else 10 * Pow10(k - 1)
  }

  /** The shortest decimal rendering of n: "0" for zero, no leading zeros otherwise. */
  function Decimal(n: nat): (s: string)
    ensures |s| >= 1 && AllDigits(s)
    decreases n
  {
    if n < 10 then [DigitChar(n)] else Decimal(n / 10) + [DigitChar(n % 10)]
  }

  function Zeros(k: nat): (s: string)
    ensures |s| == k && forall i :: 0 <= i < k ==> s[i] == '0'
  {
    if k == 0 then [] else Zeros(k - 1) + "0"
  }

  /** n in decimal, left-padded with '0' to at least `width` characters: how
      strftime renders %H and %m (width 2) and %Y (width 4). */
  function Padded(n: nat, width: nat): (s: string)
    ensures AllDigits(s)
  {
    var d := Decimal(n);
    if |d| < width then Zeros(width - |d|) + d else d
  }

  /** The number a string of decimal digits denotes, most significant digit
      first; the reading that Padded must agree with. */
  function ValueOf(s: string): nat
    requires AllDigits(s)
  {
    if s == [] then 0 else ValueOf(s[..|s| - 1]) * 10 + DigitValue(s[|s| - 1])
  }

  lemma {:induction false} DecimalValue(n: nat)
    ensures ValueOf(Decimal(n)) == n
    decreases n
  {
    if n >= 10 {
      var d := Decimal(n);
      assert d[..|d| - 1] == Decimal(n / 10);
      DecimalValue(n / 10);
    }
  }

  lemma {:induction false} DecimalLength(n: nat, width: nat)
    requires 1 <= width && n < Pow10(width)
    ensures |Decimal(n)| <= width
    decreases n
  {
    if n >= 10 {
      assert width >= 2;
      assert n / 10 < Pow10(width - 1);
      DecimalLength(n / 10, width - 1);
    }
  }

  lemma {:induction false} LeadingZerosValue(k: nat, s: string)
    requires AllDigits(s)
    ensures AllDigits(Zeros(k) + s) && ValueOf(Zeros(k) + s) == ValueOf(s)
    decreases |s|, k
  {
    var z := Zeros(k) + s;
    if s == [] {
      if k > 0 {
        assert z[..|z| - 1] == Zeros(k - 1) + [];
        LeadingZerosValue(k - 1, []);
      }
    } else {
      assert z[..|z| - 1] == Zeros(k) + s[..|s| - 1];
      LeadingZerosValue(k, s[..|s| - 1]);
    }
  }

  lemma PaddedLength(n: nat, width: nat)
    requires 1 <= width && n < Pow10(width)
    ensures |Padded(n, width)| == width
  {
    DecimalLength(n, width);
  }

  /** A number that fits in `width` digits is rendered in exactly `width`
      digits, and those digits read back as the number. */
  lemma PaddedRoundTrip(n: nat, width: nat)
    requires 1 <= width && n < Pow10(width)
    ensures |Padded(n, width)| == width
    ensures ValueOf(Padded(n, width)) == n
  {
    PaddedLength(n, width);
    DecimalValue(n);
    var d := Decimal(n);
    if |d| < width {
      LeadingZerosValue(width - |d|, d);
    }
  }

  // ---------------------------------------------------------------------------
  // Substring replacement

  /** pat occurs in s starting at position i. */
  predicate MatchAt(s: string, pat: string, i: int) {
    0 <= i <= |s| && pat <= s[i..]
  }

  predicate Occurs(s: string, pat: string) {
    exists i | 0 <= i <= |s| :: MatchAt(s, pat, i)
  }

  predicate EndsWith(s: string, suffix: string) {
    |suffix| <= |s| && s[|s| - |suffix|..] == suffix
  }

  /** Python's `s.replace(pat, rep)` without a count: scanning left to right,
      every non-overlapping occurrence of pat becomes rep; an empty pat puts
      rep before every character and once more at the end. */
  function Replace(s: string, pat: string, rep: string): string
    decreases |s|
  {
    if |pat| == 0 then
      (if s == [] then rep else rep + [s[0]] + Replace(s[1..], pat, rep))
    else if s == [] then []
    else if pat <= s then rep + Replace(s[|pat|..], pat, rep)
    else [s[0]] + Replace(s[1..], pat, rep)
  }

  lemma ReplaceStep(s: string, pat: string, rep: string)
    requires |pat| > 0 && |s| > 0 && !(pat <= s)
    ensures Replace(s, pat, rep) == [s[0]] + Replace(s[1..], pat, rep)
  {
  }

  lemma NoMatchAfterFirst(a: string, b: string, pat: string)
    requires a != []
    requires forall i :: 0 <= i < |a| ==> !MatchAt(a + b, pat, i)
    ensures (a + b)[1..] == a[1..] + b
    ensures forall i :: 0 <= i < |a| - 1 ==> !MatchAt(a[1..] + b, pat, i)
  {
    var s, t := a + b, a[1..] + b;
    assert s[1..] == t;
    forall i | 0 <= i < |a| - 1
      ensures !MatchAt(t, pat, i)
    {
      assert !MatchAt(s, pat, i + 1) && s[i + 1..] == t[i..];
    }
  }

  /** A leading part in which no occurrence of pat starts is copied unchanged. */
  lemma {:induction false} ReplaceKeepsPrefix(a: string, b: string, pat: string, rep: string)
    requires |pat| > 0
    requires forall i :: 0 <= i < |a| ==> !MatchAt(a + b, pat, i)
    ensures Replace(a + b, pat, rep) == a + Replace(b, pat, rep)
    decreases |a|
  {
    var s := a + b;
    if a == [] {
      assert s == b;
    } else {
      assert !(pat <= s) by {
        assert !MatchAt(s, pat, 0) && s[0..] == s;
      }
      ReplaceStep(s, pat, rep);
      var t := a[1..] + b;
      NoMatchAfterFirst(a, b, pat);
      ReplaceKeepsPrefix(a[1..], b, pat, rep);
      var r := Replace(b, pat, rep);
      calc {
        Replace(s, pat, rep);
        [a[0]] + Replace(t, pat, rep);
        [a[0]] + (a[1..] + r);
        { assert [a[0]] + a[1..] == a; }
        a + r;
      }
    }
  }

  /** No window that covers position j can hold pat when s[j] is not one of
      pat's characters. */
  lemma NoMatchOver(s: string, pat: string, j: int)
    requires 0 <= j < |s| && s[j] !in pat
    ensures forall i :: i <= j < i + |pat| ==> !MatchAt(s, pat, i)
  {
    forall i | i <= j < i + |pat|
      ensures !MatchAt(s, pat, i)
    {
      if 0 <= i && i + |pat| <= |s| {
        assert s[i..][j - i] == s[j];
      }
    }
  }

  /** An occurrence inside the window s[lo..hi] is an occurrence in that window. */
  lemma MatchInside(s: string, pat: string, lo: int, hi: int, i: int)
    requires 0 <= lo <= i && i + |pat| <= hi <= |s|
    requires MatchAt(s, pat, i)
    ensures MatchAt(s[lo..hi], pat, i - lo)
  {
    var w := s[lo..hi];
    forall k | 0 <= k < |pat|
      ensures w[i - lo..][k] == pat[k]
    {
      assert w[i - lo..][k] == s[i..][k];
    }
  }

  /** A string without an occurrence of a non-empty pat is left as it is. */
  lemma ReplaceWithoutOccurrence(s: string, pat: string, rep: string)
    requires |pat| > 0 && !Occurs(s, pat)
    ensures Replace(s, pat, rep) == s
  {
    assert s + [] == s;
    ReplaceKeepsPrefix(s, [], pat, rep);
  }

  // ---------------------------------------------------------------------------
  // Separators

  /** `s` cut at every `sep`; there is always at least one part. */
  function Split(s: string, sep: char): (parts: seq<string>)
    ensures |parts| >= 1
    decreases |s|
  {
    if s == [] then [[]]
    else if s[0] == sep then [[]] + Split(s[1..], sep)
    else
      var rest := Split(s[1..], sep);
      [[s[0]] + rest[0]] + rest[1..]
  }

  /** `s` cut at its first `sep`, or None when there is none. */
  function SplitFirst(s: string, sep: char): Option<(string, string)>
    decreases |s|
  {
    if s == [] then None
    else if s[0] == sep then Some(([], s[1..]))
    else match SplitFirst(s[1..], sep)
      case None => None
      case Some(p) => Some(([s[0]] + p.0, p.1))
  }

  lemma {:induction false} SplitFirstAt(a: string, b: string, sep: char)
    requires sep !in a
    ensures SplitFirst(a + [sep] + b, sep) == Some((a, b))
    decreases |a|
  {
    if a != [] {
      assert (a + [sep] + b)[1..] == a[1..] + [sep] + b;
      SplitFirstAt(a[1..], b, sep);
      assert [a[0]] + a[1..] == a;
    } else {
      assert a + [sep] + b == [sep] + b;
    }
  }

  /** Text without `sep` stays in one piece with whatever follows it up to the next `sep`. */
  lemma {:induction false} SplitPlain(a: string, tail: string, sep: char)
    requires sep !in a
    ensures Split(a + tail, sep) == [a + Split(tail, sep)[0]] + Split(tail, sep)[1..]
    decreases |a|
  {
    if a != [] {
      assert (a + tail)[1..] == a[1..] + tail;
      SplitPlain(a[1..], tail, sep);
      assert [a[0]] + (a[1..] + Split(tail, sep)[0]) == a + Split(tail, sep)[0];
    } else {
      var parts := Split(tail, sep);
      assert a + tail == tail && a + parts[0] == parts[0];
      assert [parts[0]] + parts[1..] == parts;
    }
  }
}
