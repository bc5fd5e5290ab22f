/** The pieces of Python's `str` behaviour that the registration handler
    relies on: `str.strip()` with no argument, `str(n)` for an integer, and a
    line splitter used to state what a composed message body contains. */
module PyStr {
  import opened Wrappers

  /** `c.isspace()` in Python 3: the characters whose bidirectional class is
      WS, B or S, or whose general category is Zs. */
  predicate IsSpace(c: char) {
    || ('\t' <= c <= '\r')
    || ('\U{1C}' <= c <= '\U{1F}')
    || c == ' '
    || c == '\U{85}'
    || c == '\U{A0}'
    || c == '\U{1680}'
    || ('\U{2000}' <= c <= '\U{200A}')
    || c == '\U{2028}'
    || c == '\U{2029}'
    || c == '\U{202F}'
    || c == '\U{205F}'
    || c == '\U{3000}'
  }

  predicate AllSpace(s: string) {
    forall k :: 0 <= k < |s| ==> IsSpace(s[k])
  }

  /** How many whitespace characters `s` starts with. */
  function LeadingSpace(s: string): (n: nat)
    ensures n <= |s|
  {
    if s != [] && IsSpace(s[0]) then 1 + LeadingSpace(s[1..]) else 0
  }

  /** How many whitespace characters `s` ends with. */
  function TrailingSpace(s: string): (n: nat)
    ensures n <= |s|
  {
    if s != [] && IsSpace(s[|s| - 1]) then 1 + TrailingSpace(s[..|s| - 1]) else 0
  }

  lemma {:induction false} LeadingSpaceExact(s: string)
    ensures AllSpace(s[..LeadingSpace(s)])
    ensures LeadingSpace(s) < |s| ==> !IsSpace(s[LeadingSpace(s)])
  {
    if s != [] && IsSpace(s[0]) {
      LeadingSpaceExact(s[1..]);
      assert s[..LeadingSpace(s)] == [s[0]] + s[1..][..LeadingSpace(s[1..])];
    }
  }

  lemma {:induction false} TrailingSpaceExact(s: string)
    ensures AllSpace(s[|s| - TrailingSpace(s)..])
    ensures TrailingSpace(s) < |s| ==> !IsSpace(s[|s| - TrailingSpace(s) - 1])
  {
    if s != [] && IsSpace(s[|s| - 1]) {
      var t := s[..|s| - 1];
      TrailingSpaceExact(t);
      var m := |t| - TrailingSpace(t);
      assert |s| - TrailingSpace(s) == m;
      forall j | 0 <= j < |s| - m ensures IsSpace(s[m..][j]) {
        if m + j < |t| {
          assert s[m..][j] == t[m..][j];
        }
      }
      if m > 0 {
        assert s[m - 1] == t[m - 1];
      }
    }
  }

  /** `r` is `s` with the whitespace before position `i` and after
      position `i + |r|` removed, and `r` itself neither starts nor ends
      with whitespace. */
  ghost predicate StripAt(r: string, s: string, i: nat) {
    && i + |r| <= |s|
    && s[i..i + |r|] == r
    && AllSpace(s[..i])
    && AllSpace(s[i + |r|..])
    && (r != [] ==> !IsSpace(r[0]) && !IsSpace(r[|r| - 1]))
  }

  /** Reference definition of `s.strip()`, independent of how it is computed. */
  ghost predicate IsStripOf(r: string, s: string) {
    exists i: nat :: StripAt(r, s, i)
  }

  /** `s.strip()`: the leading whitespace, then the trailing whitespace of
      what is left, removed. */
  function Strip(s: string): string {
    var t := s[LeadingSpace(s)..];
    t[..|t| - TrailingSpace(t)]
  }

  /** `Strip` meets the reference definition. */
  lemma StripMeetsReference(s: string)
    ensures IsStripOf(Strip(s), s)
  {
    var i := LeadingSpace(s);
    var t := s[i..];
    var r := Strip(s);
    LeadingSpaceExact(s);
    TrailingSpaceExact(t);
    assert s[i..i + |r|] == r;
    assert s[i + |r|..] == t[|t| - TrailingSpace(t)..];
    if r != [] {
      assert r[0] == s[i];
      assert r[|r| - 1] == t[|t| - TrailingSpace(t) - 1];
    }
    assert StripAt(r, s, i);
  }

  lemma StripAtUnique(r1: string, i1: nat, r2: string, i2: nat, s: string)
    requires StripAt(r1, s, i1) && StripAt(r2, s, i2)
    ensures r1 == r2
  {
  }

  /** `Strip` computes exactly the reference definition: the stripped form of
      a string is unique. */
  lemma StripIsReference(r: string, s: string)
    ensures IsStripOf(r, s) <==> r == Strip(s)
  {
    StripMeetsReference(s);
    if IsStripOf(r, s) {
      var i: nat :| StripAt(r, s, i);
      var i': nat :| StripAt(Strip(s), s, i');
      StripAtUnique(r, i, Strip(s), i', s);
    }
  }

  /** `s.strip()` is empty exactly when `s` is empty or all whitespace. */
  lemma StripEmptyIff(s: string)
    ensures Strip(s) == [] <==> AllSpace(s)
  {
    StripMeetsReference(s);
    var i: nat :| StripAt(Strip(s), s, i);
    if Strip(s) == [] {
      forall k | 0 <= k < |s| ensures IsSpace(s[k]) {
        if k < i { assert s[..i][k] == s[k]; } else { assert s[i..][k - i] == s[k]; }
      }
    } else {
      assert s[i] == Strip(s)[0];
    }
  }

  /** Stripping twice is stripping once. */
  lemma StripIdempotent(s: string)
    ensures Strip(Strip(s)) == Strip(s)
  {
    var r := Strip(s);
    StripMeetsReference(s);
    var i: nat :| StripAt(r, s, i);
    assert StripAt(r, r, 0) by {
      assert r[0..|r|] == r && r[..0] == [] && r[|r|..] == [];
    }
    StripIsReference(r, r);
  }

  /** Stripping only removes characters: whatever `Strip(s)` contains,
      `s` contains. */
  lemma StripKeepsCharacters(s: string, c: char)
    ensures c in Strip(s) ==> c in s
  {
    var r := Strip(s);
    StripMeetsReference(s);
    var i: nat :| StripAt(r, s, i);
    if c in r {
      var k :| 0 <= k < |r| && r[k] == c;
      assert s[i..i + |r|][k] == s[i + k];
    }
  }

  // ---------------------------------------------------------------------
  // str(n) for an int, and its inverse

  predicate IsDigit(c: char) { '0' <= c <= '9' }

  predicate AllDigits(s: string) {
    forall k :: 0 <= k < |s| ==> IsDigit(s[k])
  }

  function DigitChar(d: nat): (c: char)
    requires d < 10
    ensures IsDigit(c)
  {
    "0123456789"[d]
  }

  function DigitValue(c: char): nat
    requires IsDigit(c)
  {
    (c as int) - ('0' as int)
  }

  /** The decimal digits of `n`, most significant first, with no leading
      zero. */
  function NatToDecimal(n: nat): (s: string)
    ensures s != [] && AllDigits(s)
    ensures |s| > 1 ==> s[0] != '0'
  {
    if n < 10 then [DigitChar(n)] else NatToDecimal(n / 10) + [DigitChar(n % 10)]
  }

  /** `str(i)` for a Python `int`. */
  function IntToDecimal(i: int): (s: string)
    ensures s != [] && (i < 0 <==> s[0] == '-')
    ensures i < 0 ==> AllDigits(s[1..])
    ensures i >= 0 ==> AllDigits(s)
  {
    if i < 0 then "-" + NatToDecimal(-i) else NatToDecimal(i)
  }

  function DecimalValue(s: string): nat
    requires AllDigits(s)
  {
    if s == [] then 0 else DecimalValue(s[..|s| - 1]) * 10 + DigitValue(s[|s| - 1])
  }

  /** Reads back what `IntToDecimal` writes: an optional minus sign followed
      by one or more digits. */
  function ParseDecimal(s: string): Option<int> {
    if s == [] then None
    else if s[0] == '-' then
      (if |s| > 1 && AllDigits(s[1..]) then Some(0 - (DecimalValue(s[1..]) as int)) else None)
    else if AllDigits(s) then Some(DecimalValue(s))
    else None
  }

  lemma {:induction false} NatDecimalRoundTrip(n: nat)
    ensures DecimalValue(NatToDecimal(n)) == n
  {
    if n >= 10 {
      NatDecimalRoundTrip(n / 10);
      var s := NatToDecimal(n);
      assert s[..|s| - 1] == NatToDecimal(n / 10);
      assert DigitValue(DigitChar(n % 10)) == n % 10 by {
        var d := n % 10;
        assert "0123456789"[d] as int == '0' as int + d by {
          if d == 0 {} else if d == 1 {} else if d == 2 {} else if d == 3 {} else if d == 4 {}
          else if d == 5 {} else if d == 6 {} else if d == 7 {} else if d == 8 {} else {}
        }
      }
    } else {
      assert "0123456789"[n] as int == '0' as int + n by {
        if n == 0 {} else if n == 1 {} else if n == 2 {} else if n == 3 {} else if n == 4 {}
        else if n == 5 {} else if n == 6 {} else if n == 7 {} else if n == 8 {} else {}
      }
    }
  }

  /** `str(i)` loses nothing: the integer can be read back from its text. */
  lemma IntDecimalRoundTrip(i: int)
    ensures ParseDecimal(IntToDecimal(i)) == Some(i)
  {
    if i < 0 {
      var d := NatToDecimal(-i);
      NatDecimalRoundTrip(-i);
      assert IntToDecimal(i) == "-" + d;
      assert ("-" + d)[1..] == d;
    } else {
      NatDecimalRoundTrip(i);
    }
  }

  // ---------------------------------------------------------------------
  // Searching and lines

  /** Index of the first `c` in `s`, or `|s|` when there is none. */
  function FirstIndex(s: string, c: char): (k: nat)
    ensures k <= |s|
    ensures k < |s| ==> s[k] == c
    ensures c !in s[..k]
  {
    if s == [] then 0
    else if s[0] == c then 0
    else
      var k := 1 + FirstIndex(s[1..], c);
      assert s[..k] == [s[0]] + s[1..][..k - 1];
      k
  }

  lemma {:induction false} FirstIndexAfter(a: string, b: string, c: char)
    requires c !in a
    ensures FirstIndex(a + b, c) == |a| + FirstIndex(b, c)
  {
    if a != [] {
      assert (a + b)[1..] == a[1..] + b;
      FirstIndexAfter(a[1..], b, c);
    } else {
      assert a + b == b;
    }
  }

  /** Each line followed by a newline, as a text file is written. */
  function Unlines(ls: seq<string>): string {
    if ls == [] then "" else ls[0] + "\n" + Unlines(ls[1..])
  }

  lemma {:induction false} UnlinesAppend(a: seq<string>, b: seq<string>)
    ensures Unlines(a + b) == Unlines(a) + Unlines(b)
  {
    if a != [] {
      assert (a + b)[1..] == a[1..] + b;
      UnlinesAppend(a[1..], b);
    } else {
      assert a + b == b;
    }
  }

  /** Writing one more line appends that line and a newline. */
  lemma UnlinesSnoc(ls: seq<string>, k: nat)
    requires k < |ls|
    ensures Unlines(ls[..k + 1]) == Unlines(ls[..k]) + ls[k] + "\n"
  {
    assert ls[..k + 1] == ls[..k] + [ls[k]];
    UnlinesAppend(ls[..k], [ls[k]]);
  }

  /** `qs[j]` is the text of the first `j + 1` lines joined by newlines; the
      whole text adds a final newline. */
  lemma {:induction false} UnlinesChain(ls: seq<string>, qs: seq<string>)
    requires |qs| == |ls| > 0 && qs[0] == ls[0]
    requires forall j :: 1 <= j < |ls| ==> qs[j] == qs[j - 1] + "\n" + ls[j]
    ensures Unlines(ls) == qs[|ls| - 1] + "\n"
  {
    var n := |ls|;
    if n == 1 {
      assert ls[1..] == [];
    } else {
      UnlinesChain(ls[..n - 1], qs[..n - 1]);
      UnlinesSnoc(ls, n - 1);
      assert ls[..n] == ls;
    }
  }

  /** The lines of `s`, each without its terminating newline; a last line
      with no newline is kept. */
  function SplitLines(s: string): seq<string>
    decreases |s|
  {
    if s == [] then []
    else
      var k := FirstIndex(s, '\n');
      if k == |s| then [s] else [s[..k]] + SplitLines(s[k + 1..])
  }

  predicate NoNewline(s: string) { '\n' !in s }

  /** Splitting a text written line by line gives back its lines, as long as
      no line holds a newline of its own. */
  lemma {:induction false} SplitUnlines(ls: seq<string>)
    requires forall k :: 0 <= k < |ls| ==> NoNewline(ls[k])
    ensures SplitLines(Unlines(ls)) == ls
  {
    if ls != [] {
      var s := Unlines(ls);
      FirstIndexAfter(ls[0], "\n" + Unlines(ls[1..]), '\n');
      assert s == ls[0] + ("\n" + Unlines(ls[1..]));
      assert s[..|ls[0]|] == ls[0];
      assert s[|ls[0]| + 1..] == Unlines(ls[1..]);
      SplitUnlines(ls[1..]);
      assert ls == [ls[0]] + ls[1..];
    }
  }
}
