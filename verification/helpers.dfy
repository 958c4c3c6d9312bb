/**
 The pure helpers of the game: the two-value maximum, the choice of the
 per-tick delay and the three-digit rendering of the score and of the best
 score on the character display.
 */
module Helpers {

  /** The larger of two values; `a` when they are equal. */
  function Max(a: int, b: int): (m: int)
    ensures m >= a && m >= b
    ensures m == a || m == b
    ensures a >= b ==> m == a
  {
    if a >= b then a else b
  }

  /**
   The busy-wait, in milliseconds, chosen after a surviving tick, as the
   chain of tests is written: `score > 100` is tested first, so the three
   faster branches behind it are never taken.
   */
  function TickDelay(score: int): (ms: int)
    ensures ms == 9 <==> score > 100
    ensures ms == 10 <==> score <= 100
  {
    if score > 100 then 9
    else if score > 300 then 8
    else if score > 500 then 7
    else if score > 900 then 5
    else 10
  }

  /** The character the display receives for `code`: the 8-bit `char` it is truncated to. */
  function Putc(code: int): char
  {
    (code % 256) as char
  }

  /** A character that shows the digit `d`, computed as `'0' + d`. */
  function Digit(d: int): char
  {
    Putc('0' as int + d)
  }

  predicate IsDigit(c: char)
  {
    '0' <= c <= '9'
  }

  function DigitValue(c: char): int
  {
    c as int - '0' as int
  }

  /** `d` is three decimal digit characters whose value is `n`. */
  predicate ShowsNumber(d: string, n: int)
  {
    && |d| == 3
    && IsDigit(d[0]) && IsDigit(d[1]) && IsDigit(d[2])
    && 100 * DigitValue(d[0]) + 10 * DigitValue(d[1]) + DigitValue(d[2]) == n
  }

  lemma DigitShows(d: int)
    requires 0 <= d < 10
    ensures IsDigit(Digit(d)) && DigitValue(Digit(d)) == d
  {
  }

  /** The general three-digit decomposition shows any value below 1000. */
  lemma HundredsTensUnits(n: nat)
    requires n < 1000
    ensures ShowsNumber([Digit(n / 100), Digit((n / 10) % 10), Digit((n % 100) % 10)], n)
  {
    DigitShows(n / 100);
    DigitShows((n / 10) % 10);
    DigitShows((n % 100) % 10);
    assert (n / 10) % 10 == (n % 100) / 10;
  }

  lemma PaddedOneDigit(n: nat)
    requires n < 10
    ensures ShowsNumber("00" + [Digit(n)], n)
  {
    DigitShows(n);
  }

  lemma PaddedTwoDigits(n: nat)
    requires 10 <= n < 100
    ensures ShowsNumber("0" + [Digit(n / 10), Digit(n % 10)], n)
  {
    DigitShows(n / 10);
    DigitShows(n % 10);
  }

  /**
   The score line printed after the screen is cleared on a surviving tick:
   "Hi " and the score zero-padded to three digits, or nothing once the score
   has four digits.
   */
  function ScoreText(score: nat): (text: string)
    ensures score < 1000 ==> |text| == 6 && text[..3] == "Hi " && ShowsNumber(text[3..], score)
    ensures score >= 1000 ==> text == ""
  {
    if score < 10 then
      var digits := "00" + [Digit(score)];
      PaddedOneDigit(score);
      assert ("Hi " + digits)[3..] == digits;
      "Hi " + digits
    else if score < 100 then
      var digits := "0" + [Digit(score / 10), Digit(score % 10)];
      PaddedTwoDigits(score);
      assert ("Hi " + digits)[3..] == digits;
      "Hi " + digits
    else if score < 1000 then
      var digits := [Digit(score / 100), Digit((score / 10) % 10), Digit((score % 100) % 10)];
      HundredsTensUnits(score);
      assert ("Hi " + digits)[3..] == digits;
      "Hi " + digits
    else
      ""
  }

  /**
   The three characters printed for the best score after a game over. The
   hundreds character is `'0' + best / 100` whatever the size of `best`.
   */
  function BestText(best: nat): (text: string)
    ensures |text| == 3
    ensures best < 1000 ==> ShowsNumber(text, best)
    ensures 1000 <= best < 25600 ==> !IsDigit(text[0])
  {
    var text := [Digit(best / 100), Digit((best / 10) % 10), Digit((best % 100) % 10)];
    if best < 1000 then
      HundredsTensUnits(best);
      text
    else
      text
  }

  /** Three digit characters that show the same number are the same characters. */
  lemma ShowsNumberUnique(d: string, e: string, n: int)
    requires ShowsNumber(d, n) && ShowsNumber(e, n)
    ensures d == e
  {
    var x0, x1, x2 := DigitValue(d[0]), DigitValue(d[1]), DigitValue(d[2]);
    var y0, y1, y2 := DigitValue(e[0]), DigitValue(e[1]), DigitValue(e[2]);
    assert x0 == y0;
    assert x1 == y1;
    assert d[0] == e[0] && d[1] == e[1] && d[2] == e[2];
  }

  /** The best score is shown with the same three digits as the score line shows for the same value. */
  lemma BestTextMatchesScoreText(n: nat)
    requires n < 1000
    ensures ScoreText(n) == "Hi " + BestText(n)
  {
    var s := ScoreText(n);
    ShowsNumberUnique(s[3..], BestText(n), n);
    assert s == s[..3] + s[3..];
  }
}
