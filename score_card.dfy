/**
 * The result card of `ScoreCard.jsx`: the percentage of correct answers, the performance level and
 * message chosen from it, and the card's own "Xm Ys" duration text.
 */
module ScoreCard {
  import opened Wrappers
  import opened Text
  import DateHelpers
  import QuizAttemptService

  /**
   * The number `Math.round((score / totalQuestions) * 100)` yields: a whole percentage, or, with no
   * questions, Infinity when something was scored and NaN when nothing was.
   */
  datatype Percent = Finite(value: int) | Infinity | NaN

  /** The percentage, the exact quotient rounded half up. */
  function Percentage(score: nat, totalQuestions: nat): (p: Percent)
    ensures totalQuestions > 0 ==>
      p.Finite? && 200 * score - totalQuestions < 2 * totalQuestions * p.value <= 200 * score + totalQuestions
    ensures totalQuestions == 0 && score == 0 ==> p == NaN
    ensures totalQuestions == 0 && score > 0 ==> p == Infinity
  {
    if totalQuestions == 0 then (if score == 0 then NaN else Infinity)
    else Finite(QuizAttemptService.RoundHalfUp(100 * score, totalQuestions))
  }

  /** `b * x < b * (y + 1)` with a positive `b` means `x <= y`. */
  lemma BelowNextMultiple(b: int, x: int, y: int)
    requires b > 0 && b * x < b * (y + 1)
    ensures x <= y
  {
    assert b * (x - y - 1) == b * x - b * (y + 1);
  }

  /** A score out of a positive number of questions, at most all of them, is 0% to 100%. */
  lemma PercentageRange(score: nat, totalQuestions: nat)
    requires 0 < totalQuestions && score <= totalQuestions
    ensures 0 <= Percentage(score, totalQuestions).value <= 100
    ensures score == totalQuestions ==> Percentage(score, totalQuestions).value == 100
    ensures score == 0 ==> Percentage(score, totalQuestions).value == 0
  {
    var b, r := totalQuestions, Percentage(score, totalQuestions).value;
    assert 2 * b * r <= 200 * b + b by {
      assert 200 * score <= 200 * b;
    }
    assert 2 * b * r == (2 * b) * r;
    BelowNextMultiple(2 * b, r, 100);
    BelowNextMultiple(2 * b, -1, r);
    if score == totalQuestions {
      BelowNextMultiple(2 * b, 99, r);
    }
    if score == 0 {
      BelowNextMultiple(2 * b, r, 0);
    }
  }

  /** More correct answers never show a smaller percentage. */
  lemma PercentageMonotone(s1: nat, s2: nat, totalQuestions: nat)
    requires 0 < totalQuestions && s1 <= s2
    ensures Percentage(s1, totalQuestions).value <= Percentage(s2, totalQuestions).value
  {
    var b := totalQuestions;
    var r1, r2 := Percentage(s1, b).value, Percentage(s2, b).value;
    var c := 2 * b;
    assert c * r1 <= 200 * s2 + b < c * r2 + c;
    assert c * (r2 + 1) == c * r2 + c;
    BelowNextMultiple(c, r1, r2);
  }

  /** `percentage >= threshold` in JavaScript: Infinity passes every threshold, NaN none. */
  predicate AtLeast(p: Percent, threshold: int) {
    match p
    case Finite(v) => v >= threshold
    case Infinity => true
    case NaN => false
  }

  /** `isExcellent`. */
  predicate IsExcellent(p: Percent) {
    AtLeast(p, 80)
  }

  /** `isGood`. */
  predicate IsGood(p: Percent) {
    AtLeast(p, 60)
  }

  /** Every excellent result is also a good one. */
  lemma ExcellentIsGood(p: Percent)
    requires IsExcellent(p)
    ensures IsGood(p)
  {
  }

  /** The four performance levels, best first. */
  datatype Level = Outstanding | Excellent | Good | KeepPracticing

  /** How many of the thresholds 60, 80 and 90 a percentage reaches. */
  function ThresholdsMet(p: Percent): (n: nat)
    ensures n <= 3
  {
    (if AtLeast(p, 60) then 1 else 0) + (if AtLeast(p, 80) then 1 else 0) + (if AtLeast(p, 90) then 1 else 0)
  }

  /** A level's place from the bottom: Keep Practicing 0 up to Outstanding 3. */
  function Tier(level: Level): nat {
    match level
    case KeepPracticing => 0
    case Good => 1
    case Excellent => 2
    case Outstanding => 3
  }

  /** `getPerformanceLevel`: the first threshold reached, from 90 down. */
  function PerformanceLevel(p: Percent): (level: Level)
    ensures Tier(level) == ThresholdsMet(p)
  {
    if AtLeast(p, 90) then Outstanding
    else if AtLeast(p, 80) then Excellent
    else if AtLeast(p, 60) then Good
    else KeepPracticing
  }

  /** A higher percentage never earns a lower level. */
  lemma PerformanceMonotone(p: Percent, q: Percent)
    requires p.Finite? && q.Finite? && p.value <= q.value
    ensures Tier(PerformanceLevel(p)) <= Tier(PerformanceLevel(q))
  {
  }

  /** The badge shown for a level: its name, colour variant and icon. */
  datatype Badge = Badge(level: string, color: string, icon: string)

  function BadgeOf(level: Level): (b: Badge)
    ensures b.level != "" && b.icon != ""
  {
    match level
    case Outstanding => Badge("Outstanding", "success", "Crown")
    case Excellent => Badge("Excellent", "default", "Award")
    case Good => Badge("Good", "secondary", "ThumbsUp")
    case KeepPracticing => Badge("Keep Practicing", "outline", "Target")
  }

  /** Different levels show different names and icons. */
  lemma BadgesDistinct(l1: Level, l2: Level)
    requires l1 != l2
    ensures BadgeOf(l1).level != BadgeOf(l2).level && BadgeOf(l1).icon != BadgeOf(l2).icon
  {
  }

  const ExcellentMessage := "\U{1F389} Excellent knowledge of our sacred texts!"
  const GoodMessage := "\U{1F4DA} Good understanding! Keep learning!"
  const DefaultMessage := "\U{1F64F} Every step in learning is blessed!"

  /** The motivational line: excellent over good over the default. */
  function Message(p: Percent): string {
    if IsExcellent(p) then ExcellentMessage else if IsGood(p) then GoodMessage else DefaultMessage
  }

  /** The message follows the level: Outstanding and Excellent praise, Good encourages, the rest consoles. */
  lemma MessageFollowsLevel(p: Percent)
    ensures Message(p) == ExcellentMessage <==> PerformanceLevel(p) in {Outstanding, Excellent}
    ensures Message(p) == GoodMessage <==> PerformanceLevel(p) == Good
    ensures Message(p) == DefaultMessage <==> PerformanceLevel(p) == KeepPracticing
  {
    assert ExcellentMessage[0] != GoodMessage[0] && ExcellentMessage[0] != DefaultMessage[0];
    assert GoodMessage[0] != DefaultMessage[0];
  }

  /** The card's `formatTime`: whole minutes, "m ", the remaining seconds unpadded, "s". */
  function FormatDuration(seconds: int): string {
    IntString(seconds / 60) + "m " + IntString(DateHelpers.JsRemainder(seconds, 60)) + "s"
  }

  /** Reads a "<minutes>m <seconds>s" text back into seconds. */
  function ParseDuration(text: string): Option<int> {
    var k := DigitPrefixLength(text, 10);
    if 1 <= k && k + 2 < |text| - 1 && text[k..k + 2] == "m " && text[|text| - 1] == 's'
       && AllDigits(text[k + 2..|text| - 1], 10)
    then Some(ValueOf(text[..k], 10) * 60 + ValueOf(text[k + 2..|text| - 1], 10))
    else None
  }

  /** For a non-negative duration the text is the minutes and the seconds below 60, unpadded. */
  lemma FormatDurationParts(seconds: nat)
    ensures FormatDuration(seconds) == DecimalString(seconds / 60) + "m " + DecimalString(seconds % 60) + "s"
    ensures 0 <= seconds % 60 < 60
  {
  }

  /** The middle part of a three-part string sits between the other two. */
  lemma MiddleOfThree(a: string, b: string, c: string)
    ensures (a + b + c)[|a|..|a| + |b|] == b
  {
    assert (a + b + c)[|a|..|a| + |b|] == ((a + b) + c)[..|a| + |b|][|a|..];
  }

  /** Where the fields of a "<mm>m <ss>s" text made of two digit strings lie. */
  lemma DurationFields(mm: string, ss: string)
    requires AllDigits(mm, 10)
    ensures var text := mm + "m " + ss + "s";
      && DigitPrefixLength(text, 10) == |mm| && |text| == |mm| + |ss| + 3
      && text[..|mm|] == mm && text[|mm|..|mm| + 2] == "m "
      && text[|mm| + 2..|text| - 1] == ss && text[|text| - 1] == 's'
  {
    var text := mm + "m " + ss + "s";
    assert text == mm + ("m " + ss + "s");
    DigitPrefixOfConcat(mm, "m " + ss + "s", 10);
    MiddleOfThree(mm, "m ", ss + "s");
    MiddleOfThree(mm + "m ", ss, "s");
    assert text == mm + "m " + (ss + "s");
  }

  /** A "<mm>m <ss>s" text made of two digit strings reads back as mm minutes and ss seconds. */
  lemma ParseDurationOf(mm: string, ss: string)
    requires mm != [] && ss != [] && AllDigits(mm, 10) && AllDigits(ss, 10)
    ensures ParseDuration(mm + "m " + ss + "s") == Some(ValueOf(mm, 10) * 60 + ValueOf(ss, 10))
  {
    var text := mm + "m " + ss + "s";
    DurationFields(mm, ss);
    var k := DigitPrefixLength(text, 10);
    assert text[..k] == mm && text[k + 2..|text| - 1] == ss;
  }

  /** Reading the text back gives the duration again. */
  lemma DurationRoundTrip(seconds: nat)
    ensures ParseDuration(FormatDuration(seconds)) == Some(seconds)
  {
    FormatDurationParts(seconds);
    DecimalRoundTrip(seconds / 60);
    DecimalRoundTrip(seconds % 60);
    ParseDurationOf(DecimalString(seconds / 60), DecimalString(seconds % 60));
  }

  /** Five seconds shows as "0m 5s", where the page header's clock shows "00:05". */
  lemma FiveSecondsExample()
    ensures FormatDuration(5) == "0m 5s"
    ensures DateHelpers.FormatTime(5) == "00:05"
  {
  }
}
