/**
 * The spaced-repetition scheduler of the study deck: the answer check, the
 * three-tier interval curve and the rescheduling of one graded card.
 */
module Scheduler {
  import opened Text
  import opened Cards

  /** Math.round: r is the integer nearest to x, halves rounding up. */
  ghost predicate IsRoundOf(r: int, x: real) {
    r as real - 0.5 <= x < r as real + 0.5
  }

  /** At most one integer is the rounding of a real. */
  lemma RoundIsUnique(r1: int, r2: int, x: real)
    requires IsRoundOf(r1, x) && IsRoundOf(r2, x)
    ensures r1 == r2
  {
  }

  /**
   * The interval, in days, after a correct answer that brings the card to
   * `repetitions`: one day for the first, six for the second, and after that
   * the previous interval times 2.5, rounded. `(5 * i + 1) / 2` is
   * Math.round(i * 2.5) on integers, without floating point.
   */
  function CalculateNewInterval(repetitions: int, currentInterval: int): (r: int)
    ensures repetitions == 1 ==> r == 1
    ensures repetitions == 2 ==> r == 6
    ensures repetitions != 1 && repetitions != 2 ==> IsRoundOf(r, currentInterval as real * 2.5)
    ensures currentInterval >= 1 ==> r >= 1
    ensures repetitions != 1 && repetitions != 2 && currentInterval >= 1 ==> 2 * currentInterval < r <= 3 * currentInterval
  {
    if repetitions == 1 then 1
    else if repetitions == 2 then 6
    else (5 * currentInterval + 1) / 2
  }

  /** The curve's third tier: 6 days grow to 15, 15 to 38, and 1 to 3. */
  lemma ThirdTierExamples()
    ensures CalculateNewInterval(3, 6) == 15
    ensures CalculateNewInterval(4, 15) == 38
    ensures CalculateNewInterval(3, 1) == 3
  {
  }

  /** An answer that is empty once trimmed: the deck ignores the submission. */
  predicate IsBlank(answer: string): (blank: bool)
    ensures blank <==> AllWhitespace(answer)
  {
    TrimEmptyIff(answer);
    Trim(answer) == []
  }

  /** The blank answers are exactly the all-whitespace ones. */
  lemma IsBlankIff(answer: string)
    ensures IsBlank(answer) <==> AllWhitespace(answer)
  {
    TrimEmptyIff(answer);
  }

  /**
   * The answer check: the trimmed, lower-cased answer against the
   * lower-cased back of the card. The back itself is not trimmed.
   */
  predicate IsCorrect(answer: string, back: string): (correct: bool)
    ensures correct ==> |Trim(answer)| == |back|
    ensures back != [] && IsBlank(answer) ==> !correct
  {
    ToLower(Trim(answer)) == ToLower(back)
  }

  /** Whitespace around an answer never changes the verdict. */
  lemma IsCorrectIgnoresSurroundingWhitespace(a: string, answer: string, b: string, back: string)
    requires AllWhitespace(a) && AllWhitespace(b)
    ensures IsCorrect(a + answer + b, back) == IsCorrect(answer, back)
  {
    TrimAbsorbsWhitespace(a, answer, b);
  }

  /** Case never changes the verdict, on either side. */
  lemma IsCorrectIgnoresCase(answer: string, back: string)
    ensures IsCorrect(ToLower(answer), back) == IsCorrect(answer, back)
    ensures IsCorrect(answer, ToLower(back)) == IsCorrect(answer, back)
  {
    ToLowerTrimCommute(answer);
    ToLowerIdempotent(Trim(answer));
    ToLowerIdempotent(back);
  }

  /** " paris " matches the back "paris". */
  lemma PaddedAnswerMatches()
    ensures IsCorrect(" paris ", "paris")
  {
    assert " paris " == " " + "paris" + " ";
    TrimUnique(" ", "paris", " ");
    assert ToLower("paris") == "paris";
  }

  /** "PARIS" matches the back "paris", and "Paris" matches "PARIS". */
  lemma CapitalisedAnswerMatches()
    ensures IsCorrect("PARIS", "paris")
    ensures IsCorrect("Paris", "PARIS")
  {
  }

  /** A different word does not match. */
  lemma OtherAnswerFails()
    ensures !IsCorrect("London", "paris")
  {
  }

  /**
   * Because the back is not trimmed, a card whose back starts or ends with
   * whitespace can never be answered correctly, whatever the answer.
   */
  lemma UntrimmedBackNeverMatches(answer: string, back: string)
    requires back != []
    requires IsWhitespace(back[0]) || IsWhitespace(back[|back| - 1])
    ensures !IsCorrect(answer, back)
  {
  }

  /**
   * The card after one graded answer. A correct answer counts one more
   * repetition, grows the interval along the curve and schedules the card
   * that many days after `now`; a wrong answer (a lapse) starts the card
   * over with a one-day interval.
   */
  function Rescheduled(c: Card, correct: bool, now: int): (r: Card)
    ensures r.id == c.id && r.front == c.front && r.back == c.back
    ensures r.nextReview == now + r.interval * MsPerDay
    ensures c.interval >= 1 ==> r.interval >= 1 && r.nextReview > now
    ensures WellFormed(c) ==> WellFormed(r)
  {
    if correct then
      var interval := CalculateNewInterval(c.repetitions + 1, c.interval);
      Card(c.id, c.front, c.back, now + interval * MsPerDay, interval, c.repetitions + 1)
    else
      Card(c.id, c.front, c.back, now + MsPerDay, 1, 0)
  }

  /** A correct answer: one more repetition, the interval from the curve, due that many days after now. */
  lemma CorrectAnswerSchedule(c: Card, now: int)
    ensures Rescheduled(c, true, now).repetitions == c.repetitions + 1
    ensures Rescheduled(c, true, now).interval == CalculateNewInterval(c.repetitions + 1, c.interval)
    ensures Rescheduled(c, true, now).nextReview == now + Rescheduled(c, true, now).interval * MsPerDay
  {
  }

  /** A wrong answer: no repetitions, a one-day interval, due exactly one day after now. */
  lemma LapseSchedule(c: Card, now: int)
    ensures Rescheduled(c, false, now).repetitions == 0
    ensures Rescheduled(c, false, now).interval == 1
    ensures Rescheduled(c, false, now).nextReview == now + MsPerDay
  {
  }

  /**
   * Grades `answer` against `card` at time `now` the way the submit handler
   * does: it copies the card and overwrites its scheduling fields one after
   * the other.
   */
  method GradeCard(card: Card, answer: string, now: int) returns (updated: Card, correct: bool)
    ensures correct == IsCorrect(answer, card.back)
    ensures updated == Rescheduled(card, correct, now)
  {
    correct := ToLower(Trim(answer)) == ToLower(card.back);
    updated := card;
    if correct {
      updated := updated.(repetitions := updated.repetitions + 1);
      updated := updated.(interval := CalculateNewInterval(updated.repetitions, updated.interval));
      updated := updated.(nextReview := now + updated.interval * MsPerDay);
    } else {
      updated := updated.(repetitions := 0);
      updated := updated.(interval := 1);
      updated := updated.(nextReview := now + MsPerDay);
    }
  }

  /** The card after a run of correct answers given at the instants `times`, in order. */
  function CorrectStreak(c: Card, times: seq<int>): (r: Card)
    ensures r.id == c.id && r.front == c.front && r.back == c.back
  {
    if times == [] then c else Rescheduled(CorrectStreak(c, times[..|times| - 1]), true, times[|times| - 1])
  }

  /**
   * Along a run of correct answers from a new card, the repetition count is
   * the length of the run, the interval is 1 then 6, and from the third
   * answer on it grows strictly (by more than double) at every answer.
   */
  lemma {:induction false} StreakGrows(c: Card, times: seq<int>)
    requires c.repetitions == 0 && c.interval >= 1
    ensures CorrectStreak(c, times).repetitions == |times|
    ensures CorrectStreak(c, times).interval >= 1
    ensures |times| == 1 ==> CorrectStreak(c, times).interval == 1
    ensures |times| == 2 ==> CorrectStreak(c, times).interval == 6
    ensures |times| >= 3 ==> CorrectStreak(c, times).interval > 2 * CorrectStreak(c, times[..|times| - 1]).interval
  {
    if times != [] {
      StreakGrows(c, times[..|times| - 1]);
    }
  }

  /** The intervals of four consecutive correct answers from a new card: 1, 6, 15, 38. */
  lemma StreakIntervals(c: Card, t1: int, t2: int, t3: int, t4: int)
    requires c.repetitions == 0 && c.interval == 1
    ensures CorrectStreak(c, [t1]).interval == 1
    ensures CorrectStreak(c, [t1, t2]).interval == 6
    ensures CorrectStreak(c, [t1, t2, t3]).interval == 15
    ensures CorrectStreak(c, [t1, t2, t3, t4]).interval == 38
    ensures CorrectStreak(c, [t1, t2, t3, t4]).nextReview == t4 + 38 * MsPerDay
  {
    assert [t1, t2, t3, t4][..3] == [t1, t2, t3];
    assert [t1, t2, t3][..2] == [t1, t2];
    assert [t1, t2][..1] == [t1];
    assert [t1][..0] == [];
  }

  /**
   * A new card answered correctly at t1 and t2, then wrongly at t3: due one
   * day after t1, six days after t2, and one day after t3.
   */
  lemma EndToEndScenario(c: Card, t1: int, t2: int, t3: int)
    requires c.repetitions == 0 && c.interval == 1
    ensures var c1 := Rescheduled(c, true, t1);
      c1.repetitions == 1 && c1.interval == 1 && c1.nextReview == t1 + MsPerDay
    ensures var c2 := Rescheduled(Rescheduled(c, true, t1), true, t2);
      c2.repetitions == 2 && c2.interval == 6 && c2.nextReview == t2 + 6 * MsPerDay
    ensures var c3 := Rescheduled(Rescheduled(Rescheduled(c, true, t1), true, t2), false, t3);
      c3.repetitions == 0 && c3.interval == 1 && c3.nextReview == t3 + MsPerDay
  {
  }
}
