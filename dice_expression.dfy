/**
 * `rollExpression`: splits the expression on `+`, trims every portion and folds the
 * portions left to right into a total, each portion drawing from the random stream
 * where the previous one stopped.
 */
module DiceExpression {
  import opened Wrappers
  import opened JsText
  import opened RollPattern
  import opened DiceRolling

  /** `if (parseInt(r))`: a number is truthy unless it is 0 or NaN. */
  predicate Truthy(n: Option<int>) {
    n.Some? && n.value != 0
  }

  /** What a portion without `d` adds: its number when truthy, otherwise nothing. */
  function LiteralValue(portion: string): (v: int)
    ensures Number(portion).Some? ==> v == Number(portion).value
    ensures Number(portion).None? ==> v == 0
  {
    if Truthy(Number(portion)) then Number(portion).value else 0
  }

  /** One step of the `reduce`: the portion's contribution and where the stream stands after it. */
  function Contribution(portion: string, rng: RandomStream, pos: nat): Rolled
  {
    if 'd' in portion then ParseRoll(portion, rng, pos)
    else Rolled(LiteralValue(portion), pos)
  }

  /** A portion with a `d` but no digits-`d`-digits (`"d"`, `"2d"`, `"dx6"`) goes to
      `parseRoll` and adds nothing, even where `Number` would have read something. */
  lemma ContributionMalformedDice(portion: string, rng: RandomStream, pos: nat)
    requires 'd' in portion
    requires forall p, q, e :: !IsRollAt(portion, p, q, e)
    ensures Contribution(portion, rng, pos) == Rolled(0, pos)
  {
    ParseRollNoMatch(portion, rng, pos);
  }

  /** `portions.reduce(callback, sum)`, where `callback` gives each portion's contribution
      and the stream position after it. */
  function Reduce(callback: (string, nat) -> Rolled, portions: seq<string>, sum: int, pos: nat): Rolled
    decreases |portions|
  {
    if portions == [] then Rolled(sum, pos)
    else
      var c := callback(portions[0], pos);
      Reduce(callback, portions[1..], sum + c.value, c.next)
  }

  /** The callback of `rollExpression`'s `reduce`, reading the given stream. */
  function Callback(rng: RandomStream): (string, nat) -> Rolled
  {
    (portion: string, pos: nat) => Contribution(portion, rng, pos)
  }

  /** `expression.split('+').map((s) => s.trim())`. */
  function Portions(expression: string): seq<string>
  {
    TrimAll(Split(expression, '+'))
  }

  /** `pieces.map((s) => s.trim())`. */
  function TrimAll(pieces: seq<string>): (trimmed: seq<string>)
    ensures |trimmed| == |pieces|
  {
    if pieces == [] then [] else [Trim(pieces[0])] + TrimAll(pieces[1..])
  }

  /** The `k`-th portion is the `k`-th piece, trimmed. */
  lemma {:induction false} TrimAllAt(pieces: seq<string>, k: nat)
    requires k < |pieces|
    ensures TrimAll(pieces)[k] == Trim(pieces[k])
  {
    if k > 0 {
      TrimAllAt(pieces[1..], k - 1);
    }
  }

  /** Mapping distributes over concatenation. */
  lemma {:induction false} TrimAllAppend(xs: seq<string>, ys: seq<string>)
    ensures TrimAll(xs + ys) == TrimAll(xs) + TrimAll(ys)
  {
    if xs == [] {
      assert xs + ys == ys;
    } else {
      assert (xs + ys)[1..] == xs[1..] + ys;
      TrimAllAppend(xs[1..], ys);
    }
  }

  /** `rollExpression(expression)`. */
  function RollExpression(expression: string, rng: RandomStream, pos: nat): Rolled
  {
    Reduce(Callback(rng), Portions(expression), 0, pos)
  }

  // ---------------------------------------------------------------------------
  // The fold

  /** The fold only adds to its starting sum. */
  lemma {:induction false} ReduceFromSum(callback: (string, nat) -> Rolled, portions: seq<string>, sum: int, pos: nat)
    ensures var r := Reduce(callback, portions, 0, pos);
      Reduce(callback, portions, sum, pos) == Rolled(sum + r.value, r.next)
    decreases |portions|
  {
    if portions != [] {
      var c := callback(portions[0], pos);
      ReduceFromSum(callback, portions[1..], sum + c.value, c.next);
      ReduceFromSum(callback, portions[1..], c.value, c.next);
    }
  }

  /** Folding two runs of portions is folding the second from where the first stopped. */
  lemma {:induction false} ReduceAppend(callback: (string, nat) -> Rolled, xs: seq<string>, ys: seq<string>, sum: int, pos: nat)
    ensures var r := Reduce(callback, xs, sum, pos);
      Reduce(callback, xs + ys, sum, pos) == Reduce(callback, ys, r.value, r.next)
    decreases |xs|
  {
    if xs == [] {
      assert xs + ys == ys;
    } else {
      var c := callback(xs[0], pos);
      assert (xs + ys)[1..] == xs[1..] + ys;
      ReduceAppend(callback, xs[1..], ys, sum + c.value, c.next);
    }
  }

  /** The portions of `a + "+" + b` are those of `a` followed by those of `b`. */
  lemma PortionsAppend(a: string, b: string)
    ensures Portions(a + "+" + b) == Portions(a) + Portions(b)
  {
    SplitAppend(a, b, '+');
    assert a + "+" + b == a + ['+'] + b;
    TrimAllAppend(Split(a, '+'), Split(b, '+'));
  }

  lemma PortionsSingle(expression: string)
    requires '+' !in expression
    ensures Portions(expression) == [Trim(expression)]
  {
    SplitWithoutSeparator(expression, '+');
  }

  /** An expression without `+` is a single portion, its trimmed self. */
  lemma RollExpressionSingle(expression: string, rng: RandomStream, pos: nat)
    requires '+' !in expression
    ensures Portions(expression) == [Trim(expression)]
    ensures RollExpression(expression, rng, pos) == Contribution(Trim(expression), rng, pos)
  {
    PortionsSingle(expression);
    var c := Contribution(Trim(expression), rng, pos);
    assert Reduce(Callback(rng), [Trim(expression)], 0, pos) == Reduce(Callback(rng), [], c.value, c.next);
  }

  /** An expression without `+` and without `d` is a literal: its number when truthy,
      otherwise 0, with no draw. Surrounding white space does not matter, since `Number`
      trims as well. */
  lemma RollExpressionLiteral(expression: string, rng: RandomStream, pos: nat)
    requires '+' !in expression && 'd' !in expression
    ensures RollExpression(expression, rng, pos) == Rolled(LiteralValue(expression), pos)
  {
    RollExpressionSingle(expression, rng, pos);
    var t := Trim(expression);
    TrimSpec(expression);
    var i, j :| 0 <= i <= j <= |expression| && t == expression[i..j];
    assert 'd' !in t;
    TrimIdempotent(expression);
    assert Number(t) == Number(expression);
  }

  /** A run of digits is a constant: its decimal value, with no draw. */
  lemma RollExpressionDigits(expression: string, rng: RandomStream, pos: nat)
    requires expression != [] && AllDigits(expression)
    ensures RollExpression(expression, rng, pos) == Rolled(DigitsValue(expression), pos)
  {
    assert forall k :: 0 <= k < |expression| ==> expression[k] != '+' && expression[k] != 'd';
    RollExpressionLiteral(expression, rng, pos);
    NumberOfDigits(expression);
  }

  /** An expression without `+` that holds a `d` is one call of `parseRoll` on the whole
      expression; white space around it does not matter. */
  lemma RollExpressionDice(expression: string, rng: RandomStream, pos: nat)
    requires '+' !in expression && 'd' in expression
    ensures RollExpression(expression, rng, pos) == ParseRoll(expression, rng, pos)
  {
    RollExpressionSingle(expression, rng, pos);
    InTrim(expression, 'd');
    ParseRollTrim(expression, rng, pos);
  }

  /** `+` adds: the roll of `a + "+" + b` is the roll of `a` plus the roll of `b`, with
      `b` drawing from where `a` stopped. */
  lemma RollExpressionPlus(expression: string, a: string, b: string, rng: RandomStream, pos: nat)
    requires expression == a + "+" + b
    ensures var ra := RollExpression(a, rng, pos);
      var rb := RollExpression(b, rng, ra.next);
      RollExpression(expression, rng, pos) == Rolled(ra.value + rb.value, rb.next)
  {
    var ra := RollExpression(a, rng, pos);
    PortionsAppend(a, b);
    ReduceAppend(Callback(rng), Portions(a), Portions(b), 0, pos);
    ReduceFromSum(Callback(rng), Portions(b), ra.value, ra.next);
  }

  /** The empty expression contributes 0 and draws nothing. */
  lemma RollExpressionEmpty(rng: RandomStream, pos: nat)
    ensures RollExpression("", rng, pos) == Rolled(0, pos)
  {
    RollExpressionSingle("", rng, pos);
    TrimEmpty();
    ContributionEmpty(rng, pos);
  }

  /** An empty portion adds 0 and draws nothing. */
  lemma ContributionEmpty(rng: RandomStream, pos: nat)
    ensures Contribution("", rng, pos) == Rolled(0, pos)
  {
    TrimEmpty();
  }

  /** A leading `+` starts the portions with an empty one. */
  lemma PortionsLeadingPlus(b: string)
    ensures Portions("+" + b) == [""] + Portions(b)
  {
    var s := "+" + b;
    assert s[1..] == b;
    assert Split(s, '+') == [[]] + Split(b, '+');
    assert ([[]] + Split(b, '+'))[1..] == Split(b, '+');
    TrimEmpty();
  }

  /** A portion that adds 0 without drawing can be dropped from the fold. */
  lemma ReduceNeutral(callback: (string, nat) -> Rolled, xs: seq<string>, ys: seq<string>, sum: int, pos: nat)
    requires forall i :: callback("", i) == Rolled(0, i)
    ensures Reduce(callback, xs + ([""] + ys), sum, pos) == Reduce(callback, xs + ys, sum, pos)
  {
    var r := Reduce(callback, xs, sum, pos);
    ReduceAppend(callback, xs, [""] + ys, sum, pos);
    assert callback("", r.next) == Rolled(0, r.next);
    assert ([""] + ys)[1..] == ys;
    ReduceAppend(callback, xs, ys, sum, pos);
  }

  /** An empty portion, as between the two `+` of `"2d6++3"`, adds nothing and draws nothing. */
  lemma RollExpressionEmptyPortion(a: string, b: string, rng: RandomStream, pos: nat)
    ensures RollExpression(a + "++" + b, rng, pos) == RollExpression(a + "+" + b, rng, pos)
  {
    PortionsAppend(a, "+" + b);
    assert a + "+" + ("+" + b) == a + "++" + b;
    PortionsLeadingPlus(b);
    PortionsAppend(a, b);
    forall i: nat ensures Callback(rng)("", i) == Rolled(0, i) {
      ContributionEmpty(rng, i);
    }
    ReduceNeutral(Callback(rng), Portions(a), Portions(b), 0, pos);
  }

  // ---------------------------------------------------------------------------
  // Expressions without dice

  /** The sum of the literal values of the portions. */
  function LiteralTotal(portions: seq<string>): int
    decreases |portions|
  {
    if portions == [] then 0 else LiteralValue(portions[0]) + LiteralTotal(portions[1..])
  }

  lemma {:induction false} ReduceWithoutDice(callback: (string, nat) -> Rolled, portions: seq<string>, sum: int, pos: nat)
    requires forall k, i :: 0 <= k < |portions| ==> callback(portions[k], i) == Rolled(LiteralValue(portions[k]), i)
    ensures Reduce(callback, portions, sum, pos) == Rolled(sum + LiteralTotal(portions), pos)
    decreases |portions|
  {
    if portions != [] {
      assert callback(portions[0], pos) == Rolled(LiteralValue(portions[0]), pos);
      ReduceWithoutDice(callback, portions[1..], sum + LiteralValue(portions[0]), pos);
    }
  }

  /** A character of a piece is a character of the joined string. */
  lemma {:induction false} InJoin(pieces: seq<string>, k: nat, c: char, sep: char)
    requires |pieces| >= 1 && k < |pieces| && c in pieces[k]
    ensures c in Join(pieces, sep)
    decreases |pieces|
  {
    if |pieces| > 1 {
      if k > 0 {
        InJoin(pieces[1..], k - 1, c, sep);
      }
      var tail := [sep] + Join(pieces[1..], sep);
      assert Join(pieces, sep) == pieces[0] + tail;
    }
  }

  /** A character of a portion is a character of the expression. */
  lemma InPortion(expression: string, k: nat, c: char)
    requires k < |Portions(expression)| && c in Portions(expression)[k]
    ensures c in expression
  {
    var pieces := Split(expression, '+');
    TrimAllAt(pieces, k);
    TrimSpec(pieces[k]);
    var i, j :| 0 <= i <= j <= |pieces[k]| && Trim(pieces[k]) == pieces[k][i..j];
    assert c in pieces[k];
    InJoin(pieces, k, c, '+');
    JoinSplit(expression, '+');
  }

  /** Without a `d` the expression draws nothing and totals its literals, whatever the stream. */
  lemma RollExpressionWithoutDice(expression: string, rng: RandomStream, pos: nat)
    requires 'd' !in expression
    ensures RollExpression(expression, rng, pos) == Rolled(LiteralTotal(Portions(expression)), pos)
  {
    var ps := Portions(expression);
    forall k, i | 0 <= k < |ps| ensures Callback(rng)(ps[k], i) == Rolled(LiteralValue(ps[k]), i) {
      if 'd' in ps[k] {
        InPortion(expression, k, 'd');
      }
    }
    ReduceWithoutDice(Callback(rng), ps, 0, pos);
  }

  // ---------------------------------------------------------------------------
  // Bounds

  datatype Range = Range(lo: int, hi: int)

  /** Every random value of the stream is nonzero, so every die with sides shows at least 1. */
  ghost predicate NoZeroDraw(rng: RandomStream) {
    forall i :: rng(i).num > 0
  }

  /** The totals a portion can add: a dice term between 0 (or its count when no draw is
      0 and the die has sides) and count times sides; a literal exactly its value. */
  function PortionRange(portion: string, noZeroDraw: bool): Range
  {
    if 'd' in portion then
      if Exec(portion).None? then Range(0, 0)
      else
        var count, sides := MatchedCount(portion), MatchedSides(portion);
        Range(if noZeroDraw && sides >= 1 then count else 0, count * sides)
    else
      Range(LiteralValue(portion), LiteralValue(portion))
  }

  /** The range of totals of a sequence of portions, each portion's range given by `rangeOf`. */
  function RangeTotal(rangeOf: string -> Range, portions: seq<string>): Range
    decreases |portions|
  {
    if portions == [] then Range(0, 0)
    else
      var first, rest := rangeOf(portions[0]), RangeTotal(rangeOf, portions[1..]);
      Range(first.lo + rest.lo, first.hi + rest.hi)
  }

  /** The range of totals of an expression, stream aside. */
  function ExpressionRange(expression: string, noZeroDraw: bool): Range
  {
    RangeTotal(portion => PortionRange(portion, noZeroDraw), Portions(expression))
  }

  lemma ContributionBounds(portion: string, noZeroDraw: bool, rng: RandomStream, pos: nat)
    requires noZeroDraw ==> NoZeroDraw(rng)
    ensures PortionRange(portion, noZeroDraw).lo <= Contribution(portion, rng, pos).value
    ensures Contribution(portion, rng, pos).value <= PortionRange(portion, noZeroDraw).hi
  {
    if 'd' in portion && Exec(portion).Some? {
      ParseRollBounds(portion, rng, pos);
    }
  }

  /** When every portion adds a value within its range, the fold ends within the total range. */
  lemma {:induction false} ReduceBounds(callback: (string, nat) -> Rolled, rangeOf: string -> Range, portions: seq<string>, sum: int, pos: nat)
    requires forall k, i :: 0 <= k < |portions| ==>
      rangeOf(portions[k]).lo <= callback(portions[k], i).value <= rangeOf(portions[k]).hi
    ensures var range, r := RangeTotal(rangeOf, portions), Reduce(callback, portions, sum, pos);
      sum + range.lo <= r.value <= sum + range.hi
    decreases |portions|
  {
    if portions != [] {
      var c := callback(portions[0], pos);
      assert rangeOf(portions[0]).lo <= c.value <= rangeOf(portions[0]).hi;
      ReduceBounds(callback, rangeOf, portions[1..], sum + c.value, c.next);
    }
  }

  /** Whatever the stream, the total lies in the expression's range; with no zero draw,
      in the tighter range where each die shows at least 1. */
  lemma RollExpressionBounds(expression: string, noZeroDraw: bool, rng: RandomStream, pos: nat)
    requires noZeroDraw ==> NoZeroDraw(rng)
    ensures var range := ExpressionRange(expression, noZeroDraw);
      range.lo <= RollExpression(expression, rng, pos).value <= range.hi
  {
    var ps := Portions(expression);
    var rangeOf := portion => PortionRange(portion, noZeroDraw);
    forall k, i | 0 <= k < |ps|
      ensures rangeOf(ps[k]).lo <= Callback(rng)(ps[k], i).value <= rangeOf(ps[k]).hi
    {
      ContributionBounds(ps[k], noZeroDraw, rng, i);
    }
    ReduceBounds(Callback(rng), rangeOf, ps, 0, pos);
  }
}
