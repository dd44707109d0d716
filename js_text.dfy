/**
 * The JavaScript string and number built-ins that the dice evaluator leans on:
 * `String.prototype.split` with a one-character separator, `String.prototype.trim`,
 * the regular-expression class `\d`, and the `Number(str)` coercion restricted to
 * decimal integers.
 */
module JsText {
  import opened Wrappers

  /** The regular-expression class `\d`: the ASCII digits only. */
  predicate IsDigit(c: char) {
    '0' <= c <= '9'
  }

  predicate AllDigits(s: string) {
    forall i :: 0 <= i < |s| ==> IsDigit(s[i])
  }

  /** The characters `trim` and `Number` strip: WhiteSpace and LineTerminator of ECMAScript. */
  predicate IsWhiteSpace(c: char) {
    c == '\t' || c == '\n' || c == '\U{B}' || c == '\U{C}' || c == '\r' || c == ' '
    || c == '\U{A0}' || c == '\U{1680}' || ('\U{2000}' <= c <= '\U{200A}')
    || c == '\U{2028}' || c == '\U{2029}' || c == '\U{202F}' || c == '\U{205F}'
    || c == '\U{3000}' || c == '\U{FEFF}'
  }

  predicate AllWhiteSpace(s: string) {
    forall i :: 0 <= i < |s| ==> IsWhiteSpace(s[i])
  }

  // ---------------------------------------------------------------------------
  // split

  /** `s.split(sep)`: the pieces between the occurrences of `sep`, empty ones included. */
  function Split(s: string, sep: char): (pieces: seq<string>)
    ensures |pieces| >= 1
    decreases |s|
  {
    if s == [] then [[]]
    else
      var rest := Split(s[1..], sep);
      if s[0] == sep then [[]] + rest
      else [[s[0]] + rest[0]] + rest[1..]
  }

  /** No piece holds the separator. */
  lemma {:induction false} SplitPiecesFree(s: string, sep: char)
    ensures forall k :: 0 <= k < |Split(s, sep)| ==> sep !in Split(s, sep)[k]
    decreases |s|
  {
    if s != [] {
      SplitPiecesFree(s[1..], sep);
      var rest := Split(s[1..], sep);
      if s[0] != sep {
        assert sep !in [s[0]] + rest[0];
      }
    }
  }

  /** `pieces.join(sep)`: the inverse of `Split`. */
  function Join(pieces: seq<string>, sep: char): string
    requires |pieces| >= 1
  {
    if |pieces| == 1 then pieces[0]
    else pieces[0] + [sep] + Join(pieces[1..], sep)
  }

  /** Splitting loses nothing: joining the pieces back gives the original string. */
  lemma {:induction false} JoinSplit(s: string, sep: char)
    ensures Join(Split(s, sep), sep) == s
    decreases |s|
  {
    if s != [] {
      JoinSplit(s[1..], sep);
      var rest := Split(s[1..], sep);
      if s[0] == sep {
        assert Split(s, sep)[1..] == rest;
      } else {
        var ps := Split(s, sep);
        assert ps[1..] == rest[1..];
        if |rest| == 1 {
          assert Join(ps, sep) == [s[0]] + rest[0];
        } else {
          assert Join(ps, sep) == [s[0]] + rest[0] + [sep] + Join(rest[1..], sep);
        }
      }
    }
  }

  /** Splitting is the only way to cut a string into separator-free pieces. */
  lemma {:induction false} SplitJoin(pieces: seq<string>, sep: char)
    requires |pieces| >= 1
    requires forall k :: 0 <= k < |pieces| ==> sep !in pieces[k]
    ensures Split(Join(pieces, sep), sep) == pieces
    decreases |pieces|, |pieces[0]|
  {
    var p := pieces[0];
    if p == [] {
      if |pieces| > 1 {
        SplitJoin(pieces[1..], sep);
        assert Join(pieces, sep) == [sep] + Join(pieces[1..], sep);
        assert ([sep] + Join(pieces[1..], sep))[1..] == Join(pieces[1..], sep);
        assert [[]] + pieces[1..] == pieces;
      }
    } else {
      var tail := [p[1..]] + pieces[1..];
      assert tail[1..] == pieces[1..];
      SplitJoin(tail, sep);
      assert sep != p[0] by { assert p[0] in p; }
      if |pieces| == 1 {
        assert Join(pieces, sep) == p;
        assert Join(tail, sep) == p[1..];
      } else {
        assert Join(pieces, sep) == p + [sep] + Join(pieces[1..], sep);
        assert Join(tail, sep) == p[1..] + [sep] + Join(pieces[1..], sep);
        assert (p + [sep] + Join(pieces[1..], sep))[1..] == p[1..] + [sep] + Join(pieces[1..], sep);
      }
      assert [p[0]] + p[1..] == p;
      assert [[p[0]] + p[1..]] + pieces[1..] == pieces;
    }
  }

  /** A string without the separator is one piece. */
  lemma {:induction false} SplitWithoutSeparator(s: string, sep: char)
    requires sep !in s
    ensures Split(s, sep) == [s]
    decreases |s|
  {
    if s != [] {
      assert s == [s[0]] + s[1..];
      SplitWithoutSeparator(s[1..], sep);
    }
  }

  /** Splitting `a + [sep] + b` splits `a` and `b` apart. */
  lemma SplitAppend(a: string, b: string, sep: char)
    ensures Split(a + [sep] + b, sep) == Split(a, sep) + Split(b, sep)
  {
    var pa, pb := Split(a, sep), Split(b, sep);
    JoinSplit(a, sep);
    JoinSplit(b, sep);
    JoinAppend(pa, pb, sep);
    SplitPiecesFree(a, sep);
    SplitPiecesFree(b, sep);
    SplitJoin(pa + pb, sep);
  }

  lemma {:induction false} JoinAppend(xs: seq<string>, ys: seq<string>, sep: char)
    requires |xs| >= 1 && |ys| >= 1
    ensures Join(xs + ys, sep) == Join(xs, sep) + [sep] + Join(ys, sep)
    decreases |xs|
  {
    if |xs| > 1 {
      JoinAppend(xs[1..], ys, sep);
      assert (xs + ys)[1..] == xs[1..] + ys;
    } else {
      assert (xs + ys)[1..] == ys;
    }
  }

  // ---------------------------------------------------------------------------
  // trim

  /** The index of the first character that is not white space. */
  function SkipLeading(s: string): (i: nat)
    ensures i <= |s| && AllWhiteSpace(s[..i])
    ensures i == |s| || !IsWhiteSpace(s[i])
  {
    if s == [] || !IsWhiteSpace(s[0]) then 0
    else
      var k := SkipLeading(s[1..]);
      assert s[..k + 1] == [s[0]] + s[1..][..k];
      k + 1
  }

  /** The index just past the last character that is not white space. */
  function SkipTrailing(s: string): (j: nat)
    ensures j <= |s| && AllWhiteSpace(s[j..])
    ensures j == 0 || !IsWhiteSpace(s[j - 1])
  {
    if s == [] || !IsWhiteSpace(s[|s| - 1]) then |s|
    else
      var k := SkipTrailing(s[..|s| - 1]);
      assert s[k..] == s[..|s| - 1][k..] + [s[|s| - 1]];
      k
  }

  /** `s.trim()`: `s` without its leading and trailing white space. */
  function Trim(s: string): string
  {
    var rest := s[SkipLeading(s)..];
    rest[..SkipTrailing(rest)]
  }

  /** `trim` keeps a contiguous middle of the string, drops only white space at both
      ends, and leaves no white space at either end. */
  lemma TrimSpec(s: string)
    ensures exists i, j :: 0 <= i <= j <= |s| && Trim(s) == s[i..j] && AllWhiteSpace(s[..i]) && AllWhiteSpace(s[j..])
    ensures Borderless(Trim(s))
  {
    var i := SkipLeading(s);
    var rest := s[i..];
    var j := SkipTrailing(rest);
    assert rest[..j] == s[i..i + j];
    assert rest[j..] == s[i + j..];
  }

  /** Neither end of `s` is white space: there is nothing for `trim` to remove. */
  predicate Borderless(s: string) {
    s == [] || (!IsWhiteSpace(s[0]) && !IsWhiteSpace(s[|s| - 1]))
  }

  /** Trimming a string that already has no white space at its ends changes nothing. */
  lemma TrimBorderless(s: string)
    requires Borderless(s)
    ensures Trim(s) == s
  {
    if s != [] {
      assert SkipLeading(s) == 0;
      assert s[0..] == s;
      assert SkipTrailing(s) == |s|;
    }
  }

  lemma TrimEmpty()
    ensures Trim("") == ""
  {
    assert SkipLeading("") == 0;
  }

  /** The characters before `i` and from `j` on are white space. */
  lemma WhiteSpaceAround(s: string, i: nat, j: nat)
    requires i <= j <= |s| && AllWhiteSpace(s[..i]) && AllWhiteSpace(s[j..])
    ensures forall k :: 0 <= k < i ==> IsWhiteSpace(s[k])
    ensures forall k :: j <= k < |s| ==> IsWhiteSpace(s[k])
  {
    forall k | 0 <= k < i
      ensures IsWhiteSpace(s[k])
    {
      assert s[..i][k] == s[k];
    }
    forall k | j <= k < |s|
      ensures IsWhiteSpace(s[k])
    {
      assert s[j..][k - j] == s[k];
    }
  }

  /** `trim` removes only white space: any other character of the text survives it. */
  lemma InTrim(s: string, c: char)
    requires c in s && !IsWhiteSpace(c)
    ensures c in Trim(s)
  {
    TrimSpec(s);
    var i, j :| 0 <= i <= j <= |s| && Trim(s) == s[i..j] && AllWhiteSpace(s[..i]) && AllWhiteSpace(s[j..]);
    var k :| 0 <= k < |s| && s[k] == c;
    WhiteSpaceAround(s, i, j);
    assert Trim(s)[k - i] == c;
  }

  /** Trimming twice is trimming once. */
  lemma TrimIdempotent(s: string)
    ensures Trim(Trim(s)) == Trim(s)
  {
    TrimSpec(s);
    TrimBorderless(Trim(s));
  }

  // ---------------------------------------------------------------------------
  // decimal digits and Number

  function DigitValue(c: char): (d: nat)
    requires IsDigit(c)
    ensures d < 10
  {
    (c as int - '0' as int) as nat
  }

  /** The value of a decimal digit string, most significant digit first; "" is 0. */
  function DigitsValue(s: string): nat
    requires AllDigits(s)
  {
    if s == [] then 0
    else DigitsValue(s[..|s| - 1]) * 10 + DigitValue(s[|s| - 1])
  }

  /** Leading zeros do not change the value: "007" is worth 7. */
  lemma {:induction false} DigitsValueLeadingZero(s: string)
    requires AllDigits(s)
    ensures AllDigits("0" + s) && DigitsValue("0" + s) == DigitsValue(s)
    decreases |s|
  {
    var z := "0" + s;
    if s != [] {
      DigitsValueLeadingZero(s[..|s| - 1]);
      assert z[..|z| - 1] == "0" + s[..|s| - 1];
    } else {
      assert z[..0] == [];
    }
  }

  /** The decimal-integer subset of the text that `Number` accepts once trimmed:
      empty, or an optional sign followed by at least one digit. */
  function NumberOfTrimmed(t: string): Option<int>
  {
    if t == [] then Some(0)
    else if AllDigits(t) then Some(DigitsValue(t))
    else if (t[0] == '-' || t[0] == '+') && |t| > 1 && AllDigits(t[1..]) then
      Some(if t[0] == '-' then 0 - DigitsValue(t[1..]) else DigitsValue(t[1..]))
    else None
  }

  /** `Number(str)`: trims white space, then reads a decimal integer; `None` is NaN. */
  function Number(str: string): Option<int>
  {
    NumberOfTrimmed(Trim(str))
  }

  /** The captured digit groups of a dice term are read by `Number` as their decimal value. */
  lemma NumberOfDigits(s: string)
    requires s != [] && AllDigits(s)
    ensures Number(s) == Some(DigitsValue(s))
  {
    TrimBorderless(s);
  }

  /** A leading minus negates the value of the digits that follow it. */
  lemma NumberNegative(s: string)
    requires |s| > 1 && s[0] == '-' && AllDigits(s[1..])
    ensures Number(s) == Some(0 - DigitsValue(s[1..]))
  {
    assert !AllDigits(s) by { assert !IsDigit(s[0]); }
    TrimBorderless(s);
  }

  /** The digit character for a value below 10. */
  function DigitChar(d: nat): (c: char)
    requires d < 10
    ensures IsDigit(c) && DigitValue(c) == d
  {
    ('0' as int + d) as char
  }

  /** The decimal spelling of a natural number, most significant digit first, without
      leading zeros. */
  function Decimal(n: nat): (s: string)
    ensures s != [] && AllDigits(s)
    decreases n
  {
    if n < 10 then [DigitChar(n)] else Decimal(n / 10) + [DigitChar(n % 10)]
  }

  /** Reading back the decimal spelling of `n` gives `n`. */
  lemma {:induction false} DecimalValue(n: nat)
    ensures DigitsValue(Decimal(n)) == n
    decreases n
  {
    var s := Decimal(n);
    if n < 10 {
      assert s[..0] == [];
    } else {
      DecimalValue(n / 10);
      assert s[..|s| - 1] == Decimal(n / 10);
    }
  }

  /** The decimal text of an integer: a minus sign before the digits of a negative
      value. */
  function IntToDecimal(n: int): string
  {
    if n < 0 then "-" + Decimal(-n) else Decimal(n)
  }

  /** `Number` reads back every integer from its decimal text. */
  lemma NumberOfDecimal(n: int)
    ensures Number(IntToDecimal(n)) == Some(n)
  {
    if n < 0 {
      var digits := Decimal(-n);
      var s := "-" + digits;
      assert s[1..] == digits;
      NumberNegative(s);
      DecimalValue(-n);
      assert IntToDecimal(n) == s;
    } else {
      NumberOfDigits(Decimal(n));
      DecimalValue(n);
      assert IntToDecimal(n) == Decimal(n);
    }
  }
}
