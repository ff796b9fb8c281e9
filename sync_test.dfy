/**
 * The five-question synchronisation test of the page (script.js:240-392):
 * the question counter and running score that the option clicks update,
 * the progress bar, and the character and sync rate shown at the end.
 */
module SyncTest {
  import opened JsMath

  /** A question, reduced to the score of each of its options (texts are not modelled). */
  datatype Question = Question(scores: seq<int>)

  /** The questions of the test, in order (script.js:247-298). */
  const Questions: seq<Question> := [
    Question([1, 3, 2, 4]),
    Question([3, 2, 4, 1]),
    Question([3, 2, 1, 4]),
    Question([1, 4, 2, 3]),
    Question([2, 4, 1, 3])
  ]

  /** Every option of every question scores between 1 and 4. */
  predicate ScoresInRange(qs: seq<Question>)
  {
    forall i, j :: 0 <= i < |qs| && 0 <= j < |qs[i].scores| ==> 1 <= qs[i].scores[j] <= 4
  }

  /** Each answer picks an existing option of its question, and there are no more answers than questions. */
  predicate Answerable(qs: seq<Question>, answers: seq<nat>)
  {
    |answers| <= |qs| && forall i :: 0 <= i < |answers| ==> answers[i] < |qs[i].scores|
  }

  /**
   * The score accumulated by answering the first |answers| questions
   * (script.js:329). With option scores in 1..4, m answers score between m
   * and 4m.
   */
  function TotalScore(qs: seq<Question>, answers: seq<nat>): (total: int)
    requires Answerable(qs, answers)
    ensures ScoresInRange(qs) ==> |answers| <= total <= 4 * |answers|
  {
    if answers == [] then 0
    else
      var last := |answers| - 1;
      TotalScore(qs, answers[..last]) + qs[last].scores[answers[last]]
  }

  /** A completed test scores between 5 and 20. */
  lemma FinalScoreRange(answers: seq<nat>)
    requires Answerable(Questions, answers) && |answers| == |Questions|
    ensures 5 <= TotalScore(Questions, answers) <= 20
  {
    assert ScoresInRange(Questions);
  }

  /** The four characters a result can name (script.js:350-366). */
  datatype Character = Rei | Shinji | Asuka | Kaworu

  /**
   * showResult's threshold chain (script.js:350-366): the four bands
   * ..8, 9..12, 13..16 and 17.. partition the scores.
   */
  function Classify(score: int): (c: Character)
    ensures c == Rei <==> score <= 8
    ensures c == Shinji <==> 8 < score <= 12
    ensures c == Asuka <==> 12 < score <= 16
    ensures c == Kaworu <==> 16 < score
  {
    if score <= 8 then Rei
    else if score <= 12 then Shinji
    else if score <= 16 then Asuka
    else Kaworu
  }

  /** The order of the bands. */
  function Rank(c: Character): nat
  {
    match c
    case Rei => 0
    case Shinji => 1
    case Asuka => 2
    case Kaworu => 3
  }

  /** A higher score never names an earlier character. */
  lemma ClassifyMonotone(a: int, b: int)
    requires a <= b
    ensures Rank(Classify(a)) <= Rank(Classify(b))
  {
  }

  /** Every character is the result of some complete set of answers. */
  lemma EveryCharacterReachable(c: Character)
    ensures exists answers :: Answerable(Questions, answers) && |answers| == |Questions|
                              && Classify(TotalScore(Questions, answers)) == c
  {
    var answers: seq<nat> := match c
      case Rei => [0, 3, 2, 0, 2]
      case Shinji => [2, 1, 1, 2, 0]
      case Asuka => [1, 0, 0, 3, 3]
      case Kaworu => [3, 2, 3, 1, 1];
    assert Answerable(Questions, answers);
    EqualScoresAddUp(answers, Rank(c) + 1);
  }

  /** Five answers that each score `each` total 5 * each. */
  lemma EqualScoresAddUp(answers: seq<nat>, each: int)
    requires Answerable(Questions, answers) && |answers| == 5
    requires forall i :: 0 <= i < 5 ==> Questions[i].scores[answers[i]] == each
    ensures TotalScore(Questions, answers) == 5 * each
  {
    assert answers[..1][..0] == [];
    assert TotalScore(Questions, answers[..1]) == each;
    assert answers[..2][..1] == answers[..1];
    assert TotalScore(Questions, answers[..2]) == 2 * each;
    assert answers[..3][..2] == answers[..2];
    assert TotalScore(Questions, answers[..3]) == 3 * each;
    assert answers[..4][..3] == answers[..3];
    assert TotalScore(Questions, answers[..4]) == 4 * each;
  }

  /** The sync rate shown with the result (script.js:368): a whole number from 70 to 99. */
  function SyncRate(r: Draw): (rate: int)
    ensures 70 <= rate <= 99
  {
    ScaledFloor(r, 30) + 70
  }

  /** Every rate from 70 to 99 can be shown, so the range is exactly 70..99 and never 100. */
  lemma SyncRateReaches(rate: int)
    requires 70 <= rate <= 99
    ensures exists r: Draw :: SyncRate(r) == rate
  {
    var k: nat := rate - 70;
    ScaledFloorReaches(30, k);
    var r: Draw := k as real / 30.0;
    assert SyncRate(r) == rate;
  }

  /** The progress bar's percentage after q of n questions (script.js:334 and :337). */
  function Percent(q: nat, n: nat): (p: real)
    requires n > 0
    ensures q <= n ==> 0.0 <= p <= 100.0
    ensures q <= n ==> (p == 100.0 <==> q == n)
    ensures p == 0.0 <==> q == 0
  {
    PercentBelow(q, n);
    (q as real / n as real) * 100.0
  }

  lemma PercentBelow(q: nat, n: nat)
    requires n > 0
    ensures q < n ==> q as real / n as real < 1.0
    ensures q as real / n as real == 1.0 <==> q == n
  {
    assert n as real / n as real == 1.0;
    if q < n {
      assert q as real / n as real < n as real / n as real;
    }
    if q as real / n as real == 1.0 {
      assert q as real == (q as real / n as real) * n as real;
    }
  }

  /** What the result screen shows. */
  datatype Outcome = Outcome(character: Character, syncRate: int)

  /** The test's state: the closure variables currentQuestion and totalScore, and what the page shows. */
  class Quiz {
    var currentQuestion: int
    var totalScore: int
    /** The width of the progress bar, in percent. */
    var progress: real
    /** The result screen, once the last question is answered. */
    var outcome: Option<Outcome>
    /** The options chosen so far. */
    ghost var answers: seq<nat>

    ghost predicate Valid()
      reads this
    {
      && 0 <= currentQuestion <= |Questions|
      && |answers| == currentQuestion
      && Answerable(Questions, answers)
      && totalScore == TotalScore(Questions, answers)
      && (outcome.Some? ==> currentQuestion == |Questions|)
    }

    /** The state on page load (script.js:300-301). */
    constructor ()
      ensures Valid()
      ensures currentQuestion == 0 && totalScore == 0 && progress == 0.0 && outcome == None
    {
      currentQuestion := 0;
      totalScore := 0;
      progress := 0.0;
      outcome := None;
      answers := [];
    }

    /** startTest() (script.js:305-310): a fresh test at the first question. */
    method StartTest()
      modifies this
      ensures Valid()
      ensures currentQuestion == 0 && totalScore == 0 && answers == []
      ensures progress == 0.0 && outcome == None
    {
      currentQuestion := 0;
      totalScore := 0;
      answers := [];
      outcome := None;
      progress := Percent(0, |Questions|);
    }

    /**
     * selectOption(optionIndex) (script.js:328-339): add the option's score
     * and move to the next question, or show the result after the last one
     * (showResult, script.js:341-387). The options are only on screen while
     * a question is shown, so a question is pending.
     */
    method SelectOption(optionIndex: nat, rSync: Draw)
      requires Valid()
      requires currentQuestion < |Questions| && optionIndex < |Questions[currentQuestion].scores|
      modifies this
      ensures Valid()
      ensures answers == old(answers) + [optionIndex]
      ensures currentQuestion == old(currentQuestion) + 1
      ensures totalScore == old(totalScore) + Questions[old(currentQuestion)].scores[optionIndex]
      ensures currentQuestion < |Questions| ==> progress == Percent(currentQuestion, |Questions|) < 100.0 && outcome == None
      ensures currentQuestion == |Questions| ==>
        && progress == 100.0
        && 5 <= totalScore <= 20
        && outcome == Some(Outcome(Classify(totalScore), SyncRate(rSync)))
    {
      ghost var before := answers;
      totalScore := totalScore + Questions[currentQuestion].scores[optionIndex];
      answers := answers + [optionIndex];
      assert answers[..|answers| - 1] == before;
      currentQuestion := currentQuestion + 1;
      if currentQuestion < |Questions| {
        outcome := None;
        progress := Percent(currentQuestion, |Questions|);
      } else {
        FinalScoreRange(answers);
        outcome := Some(Outcome(Classify(totalScore), SyncRate(rSync)));
        progress := 100.0;
      }
    }
  }
}
