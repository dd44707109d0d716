/** Worked expressions: what `rollExpression` and `parseRoll` give on a few inputs. */
module DiceExamples {
  import opened Wrappers
  import opened JsText
  import opened RollPattern
  import opened DiceRolling
  import opened DiceExpression

  /** `"3"` is a constant: always 3, with no draw. */
  lemma ConstantExpression(rng: RandomStream, pos: nat)
    ensures RollExpression("3", rng, pos) == Rolled(3, pos)
  {
    RollExpressionDigits("3", rng, pos);
  }

  /** `Number("-3")` is -3. */
  lemma NumberMinusThree()
    ensures Number("-3") == Some(-3)
  {
    assert "-3"[1..] == "3";
    NumberNegative("-3");
  }

  /** `"5+-3"` is `"5"` and `"-3"` joined by `+`. */
  lemma JoinedFivePlusMinusThree()
    ensures "5+-3" == "5" + "+" + "-3"
  {
  }

  /** `"2d6+1"` is `"2d6"` and `"1"` joined by `+`. */
  lemma JoinedTwoDiceSixPlusOne()
    ensures "2d6+1" == "2d6" + "+" + "1"
  {
  }

  /** `"-3"` on its own is the number -3. */
  lemma NegativeThree(rng: RandomStream, pos: nat)
    ensures RollExpression("-3", rng, pos) == Rolled(-3, pos)
  {
    RollExpressionLiteral("-3", rng, pos);
    NumberMinusThree();
  }

  /** `"5+-3"` adds a negative literal: always 2, with no draw. */
  lemma NegativeLiteralExpression(rng: RandomStream, pos: nat)
    ensures RollExpression("5+-3", rng, pos) == Rolled(2, pos)
  {
    JoinedFivePlusMinusThree();
    RollExpressionPlus("5+-3", "5", "-3", rng, pos);
    RollExpressionDigits("5", rng, pos);
    NegativeThree(rng, pos);
  }

  /** No digits-`d`-digits: `parseRoll` gives 0 and draws nothing. */
  lemma MalformedRolls(rng: RandomStream, pos: nat)
    ensures ParseRoll("abc", rng, pos) == Rolled(0, pos)
    ensures ParseRoll("d6", rng, pos) == Rolled(0, pos)
    ensures ParseRoll("2d", rng, pos) == Rolled(0, pos)
  {
    assert Exec("abc").None?;
    assert Exec("d6").None?;
    assert Exec("2d").None?;
  }

  /** `"2d6++3"` rolls exactly as `"2d6+3"`: the empty portion adds 0. */
  lemma DoublePlus(rng: RandomStream, pos: nat)
    ensures RollExpression("2d6++3", rng, pos) == RollExpression("2d6+3", rng, pos)
  {
    RollExpressionEmptyPortion("2d6", "3", rng, pos);
    assert "2d6" + "++" + "3" == "2d6++3";
    assert "2d6" + "+" + "3" == "2d6+3";
  }

  /** The leftmost match in `"2d6"` is the whole text: two six-sided dice. */
  lemma MatchTwoDiceSix()
    ensures Exec("2d6") == Some(RollMatch(0, 1, 3))
    ensures MatchedCount("2d6") == 2 && MatchedSides("2d6") == 6
  {
    assert IsRollAt("2d6", 0, 1, 3);
    ExecLeftmost("2d6", 0, 1, 3);
    assert "2d6"[0..1] == "2";
    assert "2d6"[2..3] == "6";
  }

  /** `"2d6"`: when neither of its two draws is 0, a total in [2, 12]. */
  lemma TwoDiceSix(rng: RandomStream, pos: nat)
    requires NonZeroDraws(rng, pos, 2)
    ensures 2 <= RollExpression("2d6", rng, pos).value <= 12
  {
    RollExpressionDice("2d6", rng, pos);
    MatchTwoDiceSix();
    ParseRollBounds("2d6", rng, pos);
  }

  /** `"2d6+1"`: when neither of the two dice draws is 0, a total in [3, 13]. */
  lemma TwoDiceSixPlusOne(rng: RandomStream, pos: nat)
    requires NonZeroDraws(rng, pos, 2)
    ensures 3 <= RollExpression("2d6+1", rng, pos).value <= 13
  {
    JoinedTwoDiceSixPlusOne();
    RollExpressionPlus("2d6+1", "2d6", "1", rng, pos);
    TwoDiceSix(rng, pos);
    RollExpressionDigits("1", rng, RollExpression("2d6", rng, pos).next);
  }

  lemma DigitsTwelve()
    ensures AllDigits("12") && DigitsValue("12") == 12
  {
    assert "12"[..1] == "1";
    assert "1"[..0] == "";
  }

  /** `"12d6"` rolls twelve six-sided dice: the count is the whole digit run before the
      `d`, and the roll draws twelve values. */
  lemma TwelveDice(rng: RandomStream, pos: nat)
    ensures Exec("12d6").Some? && MatchedCount("12d6") == 12 && MatchedSides("12d6") == 6
    ensures ParseRoll("12d6", rng, pos).next == pos + 12
  {
    assert IsRollAt("12d6", 0, 2, 4);
    ExecLeftmost("12d6", 0, 2, 4);
    assert "12d6"[0..2] == "12";
    assert "12d6"[3..4] == "6";
    DigitsTwelve();
  }
}
