/** The string handling the application relies on from .NET: decimal formatting and
    parsing of integers (Int32.ToString, int.Parse), truncating division, ASCII
    lower-casing, String.Join, String.Replace of newlines, and the last path segment
    of a resource URL (Uri.Segments[^1].TrimEnd('/')). */
module Text {
  import opened Wrappers

  predicate IsDigit(c: char) {
    '0' <= c <= '9'
  }

  predicate AllDigits(s: string) {
    forall i :: 0 <= i < |s| ==> IsDigit(s[i])
  }

  function DigitChar(d: nat): (c: char)
    requires d < 10
    ensures IsDigit(c) && c as int - '0' as int == d
  {
    (d + '0' as int) as char
  }

  /** Decimal digits of `n`, most significant first, without leading zeros. */
  function NatToString(n: nat): (s: string)
    ensures |s| > 0 && AllDigits(s)
    ensures n > 0 ==> s[0] != '0'
    decreases n
  {
    if n < 10 then [DigitChar(n)] else NatToString(n / 10) + [DigitChar(n % 10)]
  }

  /** Int32.ToString() in the invariant culture: a '-' sign for negatives, then the digits. */
  function IntToString(i: int): string {
    if i < 0 then "-" + NatToString(-i) else NatToString(i)
  }

  /** The number written by a string of decimal digits. */
  function DigitsValue(s: string): nat
    requires AllDigits(s)
    decreases |s|
  {
    if s == [] then 0 else 10 * DigitsValue(s[..|s| - 1]) + (s[|s| - 1] as int - '0' as int)
  }

  /** int.Parse: an optional '-' followed by at least one decimal digit; anything
      else is a FormatException, modelled as None. */
  function ParseInt(s: string): Option<int> {
    if |s| > 1 && s[0] == '-' && AllDigits(s[1..]) then Some(0 - DigitsValue(s[1..]) as int)
    else if |s| > 0 && AllDigits(s) then Some(DigitsValue(s))
    else None
  }

  lemma {:induction false} DigitsOfNatToString(n: nat)
    ensures DigitsValue(NatToString(n)) == n
    decreases n
  {
    if n >= 10 {
      DigitsOfNatToString(n / 10);
      var s := NatToString(n / 10);
      var t := s + [DigitChar(n % 10)];
      assert t[..|t| - 1] == s;
    }
  }

  /** Parsing what ToString printed gives the number back: the round trip behind
      every height, weight and URL id in the application. */
  lemma ParseIntToString(i: int)
    ensures ParseInt(IntToString(i)) == Some(i)
  {
    if i < 0 {
      var s := "-" + NatToString(-i);
      assert s[1..] == NatToString(-i);
      DigitsOfNatToString(-i);
    } else {
      DigitsOfNatToString(i);
    }
  }

  /** Appending the digit '0' to a non-zero number's text multiplies it by ten;
      the number zero is the exception ("0" + "0" is "00"). */
  lemma AppendZeroDigit(i: int)
    ensures i != 0 ==> IntToString(i) + "0" == IntToString(i * 10)
    ensures i == 0 ==> IntToString(i) + "0" == "00"
  {
    if i < 0 {
      assert NatToString(-i * 10) == NatToString(-i) + "0";
      assert -(i * 10) == -i * 10;
    } else if i > 0 {
      assert NatToString(i * 10) == NatToString(i) + "0";
    }
  }

  function Abs(i: int): nat {
    if i < 0 then -i else i
  }

  /** C#'s integer division, which truncates toward zero (Dafny's `/` is Euclidean). */
  function TruncDiv(a: int, b: int): int
    requires b != 0
  {
    var q := Abs(a) / Abs(b);
    if (a < 0) == (b < 0) then q else -q
  }

  /** Char.ToLower restricted to ASCII letters. */
  function LowerChar(c: char): char {
    if 'A' <= c <= 'Z' then (c as int + 32) as char else c
  }

  /** String.ToLower, letter by letter. */
  function ToLower(s: string): (r: string)
    ensures |r| == |s|
    ensures forall i :: 0 <= i < |s| ==> r[i] == LowerChar(s[i])
  {
    seq(|s|, i requires 0 <= i < |s| => LowerChar(s[i]))
  }

  /** Lower-casing twice is lower-casing once. */
  lemma ToLowerIdempotent(s: string)
    ensures ToLower(ToLower(s)) == ToLower(s)
  {
  }

  /** String.StartsWith(prefix) after lower-casing both sides (ordinal comparison). */
  predicate StartsWithIgnoringCase(s: string, prefix: string) {
    ToLower(prefix) <= ToLower(s)
  }

  /** Case-insensitive prefix matching ignores how the query is cased. */
  lemma StartsWithIgnoresQueryCase(s: string, prefix: string)
    ensures StartsWithIgnoringCase(s, ToLower(prefix)) == StartsWithIgnoringCase(s, prefix)
  {
    ToLowerIdempotent(prefix);
  }

  /** String.Join(sep, xs). */
  function Join(xs: seq<string>, sep: string): string
    decreases |xs|
  {
    if xs == [] then "" else if |xs| == 1 then xs[0] else xs[0] + sep + Join(xs[1..], sep)
  }

  function TotalLength(xs: seq<string>): nat
    decreases |xs|
  {
    if xs == [] then 0 else |xs[0]| + TotalLength(xs[1..])
  }

  /** The joined text holds every element and one separator between each two neighbours. */
  lemma {:induction false} JoinLength(xs: seq<string>, sep: string)
    requires xs != []
    ensures |Join(xs, sep)| == TotalLength(xs) + (|xs| - 1) * |sep|
    decreases |xs|
  {
    if |xs| > 1 {
      JoinLength(xs[1..], sep);
    }
  }

  /** String.Replace("\n", " "). */
  function ReplaceNewlines(s: string): (r: string)
    ensures |r| == |s|
    ensures '\n' !in r
    ensures forall i :: 0 <= i < |s| && s[i] != '\n' ==> r[i] == s[i]
  {
    seq(|s|, i requires 0 <= i < |s| => if s[i] == '\n' then ' ' else s[i])
  }

  /** The characters after the last '/' of `s` (all of `s` when it has none). */
  function AfterLastSlash(s: string): string
    decreases |s|
  {
    if s == [] || s[|s| - 1] == '/' then []
    else AfterLastSlash(s[..|s| - 1]) + [s[|s| - 1]]
  }

  /** The text after the last '/' is a slash-free suffix, preceded by a '/' unless
      it is the whole string. */
  lemma {:induction false} AfterLastSlashIsLastSegment(s: string)
    ensures var r := AfterLastSlash(s);
      && '/' !in r
      && |r| <= |s| && r == s[|s| - |r|..]
      && (|r| < |s| ==> s[|s| - |r| - 1] == '/')
    decreases |s|
  {
    if s != [] && s[|s| - 1] != '/' {
      var t := s[..|s| - 1];
      AfterLastSlashIsLastSegment(t);
      var r := AfterLastSlash(s);
      assert r == AfterLastSlash(t) + [s[|s| - 1]];
      assert s == t + [s[|s| - 1]];
    }
  }

  /** Uri.Segments[^1].TrimEnd('/'): the last segment keeps at most one trailing '/'
      of its own, which the trim removes. */
  function LastSegment(url: string): string {
    AfterLastSlash(if url != [] && url[|url| - 1] == '/' then url[..|url| - 1] else url)
  }

  /** int.Parse(LastSegment(url)): the numeric resource id at the end of a PokeAPI URL. */
  function SegmentId(url: string): Option<int> {
    ParseInt(LastSegment(url))
  }

  lemma {:induction false} AfterLastSlashOfSlashFree(prefix: string, s: string)
    requires '/' !in s
    requires prefix != [] && prefix[|prefix| - 1] == '/'
    ensures AfterLastSlash(prefix + s) == s
    decreases |s|
  {
    if s == [] {
      assert prefix + s == prefix;
    } else {
      var t, c := s[..|s| - 1], s[|s| - 1];
      assert s == t + [c];
      assert c != '/';
      assert prefix + s == (prefix + t) + [c];
      AfterLastSlashOfSlashFree(prefix, t);
    }
  }

  /** A resource URL "…/<n>/" (or "…/<n>") yields its id `n` back. */
  lemma SegmentIdOfResourceUrl(base: string, n: nat, trailingSlash: bool)
    requires base != [] && base[|base| - 1] == '/'
    ensures SegmentId(base + NatToString(n) + (if trailingSlash then "/" else "")) == Some(n)
  {
    var digits := NatToString(n);
    assert forall k :: 0 <= k < |digits| ==> digits[k] != '/';
    var url := base + digits + (if trailingSlash then "/" else "");
    assert LastSegment(url) == AfterLastSlash(base + digits) by {
      if trailingSlash {
        assert url[..|url| - 1] == base + digits;
      } else {
        assert url == base + digits;
      }
    }
    AfterLastSlashOfSlashFree(base, digits);
    ParseIntToString(n);
  }
}
