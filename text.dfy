/**
 * String helpers that the audit uses the way Python's built-ins behave:
 * `str.split('/')[-1]`, `', '.join(...)` with its inverse `str.split(', ')`,
 * `len(...)` rendered in decimal inside an f-string, and `needle in text`
 * as a substring test.
 */
module Text {

  /** Python's `s.split('/')[-1]`: the text after the last '/', or all of `s`. */
  function LastSegment(s: string): (segment: string)
  {
    if s == [] then []
    else if s[|s| - 1] == '/' then []
    else LastSegment(s[..|s| - 1]) + [s[|s| - 1]]
  }

  /** The last segment is a suffix free of '/', and all of `s` or preceded by a '/'. */
  lemma {:induction false} LastSegmentShape(s: string)
    ensures '/' !in LastSegment(s)
    ensures |LastSegment(s)| <= |s| && LastSegment(s) == s[|s| - |LastSegment(s)|..]
    ensures |LastSegment(s)| < |s| ==> s[|s| - |LastSegment(s)| - 1] == '/'
  {
    if s != [] && s[|s| - 1] != '/' {
      var init := s[..|s| - 1];
      LastSegmentShape(init);
      var q := LastSegment(init);
      assert LastSegment(s) == q + [s[|s| - 1]];
      assert s[|s| - |q| - 1..] == init[|init| - |q|..] + [s[|s| - 1]];
      if |q| + 1 < |s| {
        assert s[|s| - |q| - 2] == init[|init| - |q| - 1];
      }
    }
  }

  /** Whatever precedes the last '/', the last segment is what follows it. */
  lemma {:induction false} LastSegmentAfterSlash(p: string, q: string)
    requires '/' !in q
    ensures LastSegment(p + "/" + q) == q
  {
    if q == [] {
      assert (p + "/" + q)[|p + "/" + q| - 1] == '/';
    } else {
      var s := p + "/" + q;
      assert s[..|s| - 1] == p + "/" + q[..|q| - 1];
      assert s[|s| - 1] == q[|q| - 1];
      LastSegmentAfterSlash(p, q[..|q| - 1]);
      assert q[..|q| - 1] + [q[|q| - 1]] == q;
    }
  }

  /** Python's `needle in text` on two strings: a substring test. */
  predicate Contains(text: string, needle: string)
    decreases |text|
  {
    needle <= text || (text != [] && Contains(text[1..], needle))
  }

  /** `needle` occurs in `text` starting at offset `i`. */
  predicate OccursAt(text: string, needle: string, i: int)
  {
    0 <= i <= |text| - |needle| && text[i..i + |needle|] == needle
  }

  /** The witness form of `Contains`: the needle sits at some offset. */
  lemma {:induction false} ContainsAt(text: string, needle: string)
    ensures Contains(text, needle) <==> exists i :: OccursAt(text, needle, i)
    decreases |text|
  {
    if needle <= text {
      assert OccursAt(text, needle, 0);
    } else if text != [] {
      ContainsAt(text[1..], needle);
      if Contains(text, needle) {
        var i :| OccursAt(text[1..], needle, i);
        assert text[i + 1..i + 1 + |needle|] == text[1..][i..i + |needle|];
        assert OccursAt(text, needle, i + 1);
      }
      if exists i :: OccursAt(text, needle, i) {
        var i :| OccursAt(text, needle, i);
        if i > 0 {
          assert text[1..][i - 1..i - 1 + |needle|] == text[i..i + |needle|];
          assert OccursAt(text[1..], needle, i - 1);
        }
      }
    }
  }

  /** Python's `', '.join(xs)`. */
  function JoinComma(xs: seq<string>): (joined: string)
  {
    if xs == [] then ""
    else if |xs| == 1 then xs[0]
    else xs[0] + ", " + JoinComma(xs[1..])
  }

  /** The string holds no ", " that `str.split(', ')` would cut at. */
  predicate FreeOfSeparator(r: string)
  {
    forall k :: 0 <= k < |r| - 1 ==> !(r[k] == ',' && r[k + 1] == ' ')
  }

  /** A string without a comma holds no separator. */
  lemma NoCommaFree(r: string)
    requires ',' !in r
    ensures FreeOfSeparator(r)
  {
    forall k | 0 <= k < |r| - 1 ensures !(r[k] == ',' && r[k + 1] == ' ') {
      assert r[k] in r;
    }
  }

  /** Python's `s.split(', ')`, scanning left to right with the piece built so far. */
  function SplitComma(s: string): (pieces: seq<string>)
  {
    SplitCommaFrom(s, "")
  }

  function SplitCommaFrom(s: string, piece: string): (pieces: seq<string>)
    decreases |s|
  {
    if |s| >= 2 && s[0] == ',' && s[1] == ' ' then [piece] + SplitCommaFrom(s[2..], "")
    else if s == [] then [piece]
    else SplitCommaFrom(s[1..], piece + [s[0]])
  }

  /** A piece without a separator is carried over whole when it is followed by the end or by ", ". */
  lemma {:induction false} SplitCommaFromCarries(r: string, rest: string, piece: string)
    requires FreeOfSeparator(r)
    requires rest == [] || rest[0] == ','
    ensures SplitCommaFrom(r + rest, piece) == SplitCommaFrom(rest, piece + r)
    decreases |r|
  {
    if r != [] {
      var s := r + rest;
      assert !(|s| >= 2 && s[0] == ',' && s[1] == ' ') by {
        if |r| >= 2 { assert s[1] == r[1]; } else if |s| >= 2 { assert s[1] == rest[0]; }
      }
      assert s[1..] == r[1..] + rest;
      SplitCommaFromCarries(r[1..], rest, piece + [r[0]]);
      assert piece + [r[0]] + r[1..] == piece + r;
    } else {
      assert r + rest == rest;
      assert piece + r == piece;
    }
  }

  /** `s.split(', ')` undoes `', '.join(xs)` when no element holds the separator. */
  lemma {:induction false} SplitJoin(xs: seq<string>)
    requires xs != []
    requires forall i :: 0 <= i < |xs| ==> FreeOfSeparator(xs[i])
    ensures SplitComma(JoinComma(xs)) == xs
    decreases |xs|
  {
    if |xs| == 1 {
      SplitCommaFromCarries(xs[0], "", "");
      assert xs[0] + "" == xs[0];
    } else {
      var rest := ", " + JoinComma(xs[1..]);
      assert JoinComma(xs) == xs[0] + rest;
      SplitCommaFromCarries(xs[0], rest, "");
      assert rest[2..] == JoinComma(xs[1..]);
      assert "" + xs[0] == xs[0];
      SplitJoin(xs[1..]);
      assert [xs[0]] + xs[1..] == xs;
    }
  }

  /** The character for a decimal digit. */
  function DigitChar(d: nat): (c: char)
    requires d < 10
  {
    ('0' as int + d) as char
  }

  predicate IsDigit(c: char)
  {
    '0' as int <= c as int <= '9' as int
  }

  /** Python's `str(n)` for a natural number: digits only, and no leading zero
      except in "0" itself. */
  function NatToDecimal(n: nat): (r: string)
    ensures r != []
    ensures forall i :: 0 <= i < |r| ==> IsDigit(r[i])
    ensures r[0] == '0' <==> n == 0
    ensures |r| > 1 ==> r[0] != '0'
  {
    if n < 10 then [DigitChar(n)] else NatToDecimal(n / 10) + [DigitChar(n % 10)]
  }

  /** The number a string of decimal digits denotes, read most significant first. */
  function DecimalValue(s: string): (value: nat)
    requires forall i :: 0 <= i < |s| ==> IsDigit(s[i])
  {
    if s == [] then 0
    else
      assert IsDigit(s[|s| - 1]);
      DecimalValue(s[..|s| - 1]) * 10 + (s[|s| - 1] as int - '0' as int)
  }

  /** Reading back the decimal text of `n` gives `n`. */
  lemma {:induction false} DecimalRoundTrip(n: nat)
    ensures DecimalValue(NatToDecimal(n)) == n
  {
    if n >= 10 {
      var s := NatToDecimal(n);
      assert s[..|s| - 1] == NatToDecimal(n / 10);
      DecimalRoundTrip(n / 10);
    }
  }
}
