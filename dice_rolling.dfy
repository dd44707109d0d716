/**
 * The dice rolls: `rollDie`, `rollDieMTimes` and `parseRoll`. `Math.random()` is an
 * explicit stream of exact fractions in [0, 1); every operation that rolls takes the
 * position of its first draw and returns the position after its last one.
 */
module DiceRolling {
  import opened Wrappers
  import opened JsText
  import opened RollPattern

  /** A value of `Math.random()`, the fraction `num / den`. */
  datatype Fraction = Fraction(num: nat, den: nat)

  /** `Math.random()` returns a value in [0, 1). */
  type RandomValue = f: Fraction | f.num < f.den witness Fraction(0, 1)

  /** The successive values `Math.random()` returns. */
  type RandomStream = nat -> RandomValue

  /** A total and the stream position after the draws that produced it. */
  datatype Rolled = Rolled(value: int, next: nat)

  /** The ceiling of `a / b`. */
  function CeilDiv(a: int, b: int): int
    requires b > 0
  {
    -((-a) / b)
  }

  /** `CeilDiv(a, b)` is the one integer `c` with `(c - 1) * b < a <= c * b`. */
  lemma CeilDivBounds(a: int, b: int)
    requires b > 0
    ensures var c := CeilDiv(a, b); (c - 1) * b < a <= c * b
  {
  }

  // ---------------------------------------------------------------------------
  // rollDie

  /** `rollDie(N)` when `Math.random()` returns `r`: `Math.ceil(r * N)`. */
  function RollDie(n: int, r: RandomValue): int
  {
    CeilDiv(r.num * n, r.den)
  }

  /** `rollDie` is the ceiling of `r * n`: the least face `v` with `r * n <= v`. */
  lemma RollDieCeiling(n: int, r: RandomValue)
    ensures var v := RollDie(n, r); (v - 1) * r.den < r.num * n <= v * r.den
  {
    CeilDivBounds(r.num * n, r.den);
  }

  lemma MulLeft(a: int, b: int, c: int)
    requires a <= b && c >= 0
    ensures a * c <= b * c
  {
  }

  lemma MulSign(a: int, c: int)
    requires c > 0
    ensures a >= 0 <==> a * c >= 0
    ensures a > 0 <==> a * c > 0
  {
  }

  lemma MulSub(a: int, b: int, c: int)
    ensures (a - b) * c == a * c - b * c
  {
  }

  /** A die with `n >= 0` sides shows a face in [0, n]; it shows 0 exactly when it has
      no sides or the random value is exactly 0. */
  lemma RollDieRange(n: int, r: RandomValue)
    requires n >= 0
    ensures 0 <= RollDie(n, r) <= n
    ensures RollDie(n, r) == 0 <==> (n == 0 || r.num == 0)
  {
    var v := RollDie(n, r);
    RollDieCeiling(n, r);
    MulLeft(0, r.num, n);
    MulLeft(r.num, r.den, n);
    MulSign(v, r.den);
    MulSign(v - 1, r.den);
    MulSign(n - (v - 1), r.den);
    MulSub(n, v - 1, r.den);
    if n > 0 {
      MulSign(r.num, n);
    }
  }

  /** A "die" with a negative number of sides shows a value in [n + 1, 0]. */
  lemma RollDieNegativeSides(n: int, r: RandomValue)
    requires n < 0
    ensures n + 1 <= RollDie(n, r) <= 0
  {
    var v := RollDie(n, r);
    RollDieCeiling(n, r);
    MulLeft(0, r.num, -n);
    MulSub(0, r.num, n);
    MulSign(v - 1, r.den);
    MulSign(r.den - r.num, -n);
    MulSub(r.den, r.num, -n);
    MulSub(0, r.den, n);
    MulSign(v - n, r.den);
    MulSub(v, n, r.den);
  }

  // ---------------------------------------------------------------------------
  // rollDieMTimes

  /** How many times the loop of `rollDieMTimes(m, _)` runs. */
  function DrawCount(m: int): nat
  {
    if m <= 0 then 0 else m
  }

  /** The faces shown by `m` successive `n`-sided dice drawn from position `pos`. */
  function Rolls(m: int, n: int, rng: RandomStream, pos: nat): (faces: seq<int>)
    ensures |faces| == DrawCount(m)
  {
    if m <= 0 then [] else Rolls(m - 1, n, rng, pos) + [RollDie(n, rng(pos + m - 1))]
  }

  /** The `i`-th die is rolled with the `i`-th random value from `pos`. */
  lemma {:induction false} RollsAt(m: int, n: int, rng: RandomStream, pos: nat, i: nat)
    requires i < DrawCount(m)
    ensures Rolls(m, n, rng, pos)[i] == RollDie(n, rng(pos + i))
  {
    if i < m - 1 {
      RollsAt(m - 1, n, rng, pos, i);
    }
  }

  function Sum(s: seq<int>): int
  {
    if s == [] then 0 else Sum(s[..|s| - 1]) + s[|s| - 1]
  }

  /** A sum of values that all lie in [lo, hi] lies in [|s| * lo, |s| * hi]. */
  lemma {:induction false} SumBounds(s: seq<int>, lo: int, hi: int)
    requires forall i :: 0 <= i < |s| ==> lo <= s[i] <= hi
    ensures |s| * lo <= Sum(s) <= |s| * hi
  {
    if s != [] {
      var init := s[..|s| - 1];
      SumBounds(init, lo, hi);
      assert |s| * lo == |init| * lo + lo;
      assert |s| * hi == |init| * hi + hi;
    }
  }

  /** One more die adds its face to the total. */
  lemma SumRollsStep(i: nat, n: int, rng: RandomStream, pos: nat)
    ensures Sum(Rolls(i + 1, n, rng, pos)) == Sum(Rolls(i, n, rng, pos)) + RollDie(n, rng(pos + i))
  {
    var before, face := Rolls(i, n, rng, pos), RollDie(n, rng(pos + i));
    assert Rolls(i + 1, n, rng, pos) == before + [face];
    assert (before + [face])[..i] == before;
  }

  /** `rollDieMTimes(M, N)`: the loop adds `rollDie(N)` to `sum` `M` times. */
  method RollDieMTimes(m: int, n: int, rng: RandomStream, pos: nat) returns (sum: int, next: nat)
    ensures sum == Sum(Rolls(m, n, rng, pos))
    ensures next == pos + DrawCount(m)
    ensures m <= 0 ==> sum == 0 && next == pos
  {
    sum := 0;
    next := pos;
    var i := 0;
    while i < m
      invariant 0 <= i <= DrawCount(m)
      invariant next == pos + i
      invariant sum == Sum(Rolls(i, n, rng, pos))
    {
      var face := RollDie(n, rng(next));
      SumRollsStep(i, n, rng, pos);
      sum := sum + face;
      next := next + 1;
      i := i + 1;
    }
    assert i == DrawCount(m);
  }

  /** With `n >= 0` sides, `m` dice total between 0 and `m * n`. */
  lemma RollsBounds(m: int, n: int, rng: RandomStream, pos: nat)
    requires n >= 0
    ensures 0 <= Sum(Rolls(m, n, rng, pos)) <= DrawCount(m) * n
  {
    var faces := Rolls(m, n, rng, pos);
    forall i | 0 <= i < |faces| ensures 0 <= faces[i] <= n {
      RollsAt(m, n, rng, pos, i);
      RollDieRange(n, rng(pos + i));
    }
    SumBounds(faces, 0, n);
  }

  /** The random values drawn from `pos` for the next `count` dice are all nonzero. */
  ghost predicate NonZeroDraws(rng: RandomStream, pos: nat, count: nat) {
    forall i :: pos <= i < pos + count ==> rng(i).num > 0
  }

  /** When no draw is exactly 0, each of `m` dice with `n >= 1` sides shows a face in
      [1, n], so the total lies in [m, m * n]. */
  lemma RollsBoundsNonZero(m: int, n: int, rng: RandomStream, pos: nat)
    requires n >= 1 && NonZeroDraws(rng, pos, DrawCount(m))
    ensures DrawCount(m) <= Sum(Rolls(m, n, rng, pos)) <= DrawCount(m) * n
  {
    var faces := Rolls(m, n, rng, pos);
    forall i | 0 <= i < |faces| ensures 1 <= faces[i] <= n {
      RollsAt(m, n, rng, pos, i);
      RollDieRange(n, rng(pos + i));
    }
    SumBounds(faces, 1, n);
  }

  // ---------------------------------------------------------------------------
  // parseRoll

  /** `parseInt(M)` of the count group `M` of the match: its decimal value. */
  function MatchedCount(str: string): (count: nat)
    requires Exec(str).Some?
    ensures count == DigitsValue(CountText(str))
  {
    NumberOfDigits(CountText(str));
    Number(CountText(str)).value
  }

  /** `parseInt(N)` of the sides group `N` of the match: its decimal value. */
  function MatchedSides(str: string): (sides: nat)
    requires Exec(str).Some?
    ensures sides == DigitsValue(SidesText(str))
  {
    NumberOfDigits(SidesText(str));
    Number(SidesText(str)).value
  }

  /** `parseRoll(str)`: rolls the count and sides of the leftmost `<digits>d<digits>`;
      0, with no draw, when there is none. */
  function ParseRoll(str: string, rng: RandomStream, pos: nat): Rolled
  {
    if Exec(str).None? then Rolled(0, pos)
    else
      var count, sides := MatchedCount(str), MatchedSides(str);
      Rolled(Sum(Rolls(count, sides, rng, pos)), pos + DrawCount(count))
  }

  /** Without digits-`d`-digits anywhere in the text (`"abc"`, `"d6"`, `"2d"`),
      `parseRoll` gives 0 and draws nothing. */
  lemma ParseRollNoMatch(str: string, rng: RandomStream, pos: nat)
    requires forall p, q, e :: !IsRollAt(str, p, q, e)
    ensures ParseRoll(str, rng, pos) == Rolled(0, pos)
  {
    ExecSpec(str);
  }

  /** With an occurrence `str[p..q] d str[q+1..e]` that starts leftmost and whose
      sides run is longest, `parseRoll` rolls `str[p..q]` dice of `str[q+1..e]` sides
      and ignores the rest of the text. */
  lemma ParseRollLeftmost(str: string, p: nat, q: nat, e: nat, rng: RandomStream, pos: nat)
    requires IsRollAt(str, p, q, e)
    requires forall p', q', e' :: IsRollAt(str, p', q', e') ==> p <= p'
    requires e == |str| || !IsDigit(str[e])
    ensures AllDigits(str[p..q]) && AllDigits(str[q + 1..e])
    ensures var count, sides := DigitsValue(str[p..q]), DigitsValue(str[q + 1..e]);
      ParseRoll(str, rng, pos) == Rolled(Sum(Rolls(count, sides, rng, pos)), pos + count)
  {
    ExecLeftmost(str, p, q, e);
    assert CountText(str) == str[p..q];
    assert SidesText(str) == str[q + 1..e];
  }

  /** Text before and after the match does not change the roll. */
  lemma ParseRollOfMatch(str: string, rng: RandomStream, pos: nat)
    requires Exec(str).Some?
    ensures var m := Exec(str).value;
      ParseRoll(str[m.start..m.end], rng, pos) == ParseRoll(str, rng, pos)
  {
    var m := Exec(str).value;
    var t := str[m.start..m.end];
    ExecOfMatch(str);
    assert Exec(t).Some?;
    MatchedOfMatch(str);
  }

  /** White space around the text does not change the roll. */
  lemma ParseRollOfSlice(str: string, i: nat, j: nat, rng: RandomStream, pos: nat)
    requires i <= j <= |str| && AllWhiteSpace(str[..i]) && AllWhiteSpace(str[j..])
    ensures ParseRoll(str[i..j], rng, pos) == ParseRoll(str, rng, pos)
  {
    ExecOfSlice(str, i, j);
  }

  /** `parseRoll` of a trimmed text is `parseRoll` of the text. */
  lemma ParseRollTrim(str: string, rng: RandomStream, pos: nat)
    ensures ParseRoll(Trim(str), rng, pos) == ParseRoll(str, rng, pos)
  {
    TrimSpec(str);
    var i, j :| 0 <= i <= j <= |str| && Trim(str) == str[i..j] && AllWhiteSpace(str[..i]) && AllWhiteSpace(str[j..]);
    ParseRollOfSlice(str, i, j, rng, pos);
  }

  lemma MatchedOfMatch(str: string)
    requires Exec(str).Some?
    ensures var m := Exec(str).value; var t := str[m.start..m.end];
      Exec(t).Some? && MatchedCount(t) == MatchedCount(str) && MatchedSides(t) == MatchedSides(str)
  {
    var m := Exec(str).value;
    var t := str[m.start..m.end];
    ExecOfMatch(str);
    assert CountText(t) == CountText(str);
    assert SidesText(t) == SidesText(str);
  }

  /** `parseRoll` totals lie in [0, count * sides] for the matched count and sides, and
      in [count, count * sides] when no draw is 0 and the die has sides. */
  lemma ParseRollBounds(str: string, rng: RandomStream, pos: nat)
    requires Exec(str).Some?
    ensures var count, sides, r := MatchedCount(str), MatchedSides(str), ParseRoll(str, rng, pos);
      r.next == pos + count
      && 0 <= r.value <= count * sides
      && (sides >= 1 && NonZeroDraws(rng, pos, count) ==> count <= r.value)
  {
    var count, sides := MatchedCount(str), MatchedSides(str);
    RollsBounds(count, sides, rng, pos);
    if sides >= 1 && NonZeroDraws(rng, pos, count) {
      RollsBoundsNonZero(count, sides, rng, pos);
    }
  }
}
