/** The figures the results card shows: correct and incorrect counts, rounded accuracy and the
    time taken as `mm:ss`. */
module QuizResults {
  import opened Wrappers
  import opened Decimal
  import opened Fractions

  /** `Math.floor(t / 60)`. */
  function Minutes(timeTaken: int): (m: int)
    ensures m * 60 <= timeTaken < m * 60 + 60
    ensures 0 <= timeTaken ==> 0 <= m
  {
    timeTaken / 60
  }

  /** `t % 60` with JavaScript's remainder, which takes the sign of the dividend. */
  function Seconds(timeTaken: int): (s: int)
    ensures 0 <= timeTaken ==> 0 <= s < 60
    ensures timeTaken < 0 ==> -60 < s <= 0
    ensures (timeTaken - s) % 60 == 0
  {
    if timeTaken >= 0 then timeTaken % 60 else -((-timeTaken) % 60)
  }

  /** For a non-negative time the two figures split it exactly. */
  lemma SplitRecombines(timeTaken: int)
    requires 0 <= timeTaken
    ensures 0 <= Minutes(timeTaken) && 0 <= Seconds(timeTaken) < 60
    ensures Minutes(timeTaken) * 60 + Seconds(timeTaken) == timeTaken
  {
  }

  /** One clock figure: its decimal digits, zero-padded to two characters. */
  function ClockField(v: int): (f: string)
    ensures 0 <= v ==> AllDigits(f) && 2 <= |f| && DigitsValue(f) == v
    ensures v < 0 ==> f == IntToString(v)
  {
    var s := IntToString(v);
    if 0 <= v && |s| < 2 then
      LeadingZeros(2 - |s|, s);
      PadStart(s, 2, '0')
    else
      PadStart(s, 2, '0')
  }

  /** The time-taken text `mm:ss`. */
  function Clock(timeTaken: int): (c: string)
    ensures 0 <= timeTaken ==> ColonSplit(c)
    ensures 0 <= timeTaken ==> DigitsValue(MinutesText(c)) == Minutes(timeTaken)
                               && DigitsValue(SecondsText(c)) == Seconds(timeTaken)
    ensures 0 <= timeTaken ==> MinutesText(c) == ClockField(Minutes(timeTaken))
                               && SecondsText(c) == ClockField(Seconds(timeTaken))
    ensures timeTaken < 0 ==> c == ClockField(Minutes(timeTaken)) + ":" + ClockField(Seconds(timeTaken))
  {
    var m := ClockField(Minutes(timeTaken));
    var s := ClockField(Seconds(timeTaken));
    if 0 <= timeTaken then
      ClockFieldDigits(Seconds(timeTaken));
      JoinedFields(m, s);
      var c := m + ":" + s;
      assert MinutesText(c) == m && SecondsText(c) == s;
      c
    else
      m + ":" + s
  }

  /** A non-negative figure renders as digits, at least two of them, that read back as the figure;
      one that already has two or more digits is not padded. */
  lemma ClockFieldDigits(v: nat)
    ensures AllDigits(ClockField(v)) && 2 <= |ClockField(v)|
    ensures DigitsValue(ClockField(v)) == v
    ensures 10 <= v ==> ClockField(v) == NatToString(v)
    ensures v < 100 ==> |ClockField(v)| == 2
  {
    if 10 <= v < 100 {
      TwoDigitsBelowHundred(v);
    }
  }

  lemma {:induction false} TwoDigitsBelowHundred(v: nat)
    requires 10 <= v < 100
    ensures |NatToString(v)| == 2
  {
    assert NatToString(v) == NatToString(v / 10) + [DigitChar(v % 10)];
  }

  /** Reading the clock text back: the minutes before the colon, exactly two second digits
      after it, and together they give the time taken. */
  lemma ClockRoundTrip(timeTaken: int)
    requires 0 <= timeTaken
    ensures |Clock(timeTaken)| >= 5
    ensures ColonSplit(Clock(timeTaken))
    ensures DigitsValue(MinutesText(Clock(timeTaken))) * 60 + DigitsValue(SecondsText(Clock(timeTaken))) == timeTaken
    ensures DigitsValue(SecondsText(Clock(timeTaken))) < 60
  {
    SplitRecombines(timeTaken);
  }

  lemma JoinedFields(a: string, b: string)
    requires AllDigits(a) && AllDigits(b) && |b| == 2
    ensures var c := a + ":" + b;
            |c| >= 3 && c[|c| - 3] == ':' && c[..|c| - 3] == a && c[|c| - 2..] == b
    ensures ColonSplit(a + ":" + b)
    ensures MinutesText(a + ":" + b) == a && SecondsText(a + ":" + b) == b
  {
    var c := a + ":" + b;
    assert c[..|c| - 3] == a;
    assert c[|c| - 2..] == b;
  }

  /** The shape of `mm:ss` read from the right: a colon three characters from the end, digits
      on both sides of it. */
  predicate ColonSplit(c: string) {
    |c| >= 3 && c[|c| - 3] == ':' && AllDigits(c[..|c| - 3]) && AllDigits(c[|c| - 2..])
  }

  function MinutesText(c: string): string
    requires |c| >= 3
  {
    c[..|c| - 3]
  }

  function SecondsText(c: string): string
    requires |c| >= 3
  {
    c[|c| - 2..]
  }

  /** The Incorrect figure. */
  function Incorrect(score: int, totalQuestions: int): (k: int)
    ensures k + score == totalQuestions
    ensures score <= totalQuestions ==> 0 <= k
  {
    totalQuestions - score
  }

  /** `Math.round((score / total) * 100)`, rounding halves upward; `None` when the division has no
      finite value (a total of 0). */
  function RoundedAccuracy(score: int, totalQuestions: int): (r: Option<int>)
    ensures r.None? <==> totalQuestions == 0
    ensures 0 <= score <= totalQuestions && 0 < totalQuestions ==> 0 <= r.value <= 100
    ensures 0 < score == totalQuestions ==> r == Some(100)
  {
    if totalQuestions == 0 then None
    else
      var x := (score as real / totalQuestions as real) * 100.0;
      if 0 <= score <= totalQuestions then
        PercentBounds(score, totalQuestions);
        Some((x + 0.5).Floor)
      else
        Some((x + 0.5).Floor)
  }

  /** The same rounding in integer arithmetic: `(200 * score + total) div (2 * total)`. */
  lemma RoundedAccuracyInIntegers(score: int, totalQuestions: int)
    requires 0 < totalQuestions
    ensures RoundedAccuracy(score, totalQuestions) == Some((200 * score + totalQuestions) / (2 * totalQuestions))
  {
    var t := totalQuestions;
    var n := 200 * score + t;
    var d := 2 * t;
    HalfUpAsFraction(score, t);
    FloorOfFraction(n, d);
  }

  lemma HalfUpAsFraction(score: int, t: int)
    requires 0 < t
    ensures (score as real / t as real) * 100.0 + 0.5 == (200 * score + t) as real / (2 * t) as real
  {
    var q := score as real / t as real;
    var rhs := (200 * score + t) as real / (2 * t) as real;
    assert q * t as real == score as real;
    assert rhs * (2 * t) as real == (200 * score + t) as real;
    var lhs := q * 100.0 + 0.5;
    assert lhs * (2 * t) as real == 200.0 * (q * t as real) + t as real;
    CancelFactor(lhs, rhs, (2 * t) as real);
  }

  lemma FloorOfFraction(n: int, d: int)
    requires 0 < d
    ensures (n as real / d as real).Floor == n / d
  {
    var q := n / d;
    var rem := n % d;
    assert n == q * d + rem;
    var f := rem as real / d as real;
    assert f * d as real == rem as real;
    assert 0.0 <= f < 1.0;
    assert (q as real + f) * d as real == n as real;
    assert n as real / d as real == q as real + f;
  }
}
