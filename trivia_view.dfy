/**
 * The quiz progression of `TriviaViewController` without UIKit: the fetched
 * questions, the current index and the number of correct answers, the
 * titles of the four answer buttons, and what the code last put on screen.
 */
module TriviaView {
  import opened Wrappers
  import opened TriviaRecords
  import TriviaProtocol
  import TriviaService
  import Shuffle
  import Decimal

  /** The text of the question-number label, such as "Question: 2/5". */
  function QuestionNumberText(index: int, count: int): string {
    "Question: " + Decimal.IntToString(index + 1) + "/" + Decimal.IntToString(count)
  }

  /** The message of the game-over alert, such as "Final score: 3/5". */
  function FinalScoreMessage(correct: int, total: int): string {
    "Final score: " + Decimal.IntToString(correct) + "/" + Decimal.IntToString(total)
  }

  const LoadFailedText := "Failed to load questions."

  /** The number of answers in `given` that matched their question; answers past the end never match. */
  function CorrectCount(questions: seq<TriviaQuestion>, given: seq<string>): nat
    decreases |given|
  {
    if |given| == 0 then 0
    else
      var i := |given| - 1;
      CorrectCount(questions, given[..i])
      + (if i < |questions| && given[i] == questions[i].correctAnswer then 1 else 0)
  }

  /** No more answers are correct than were given, nor than there are questions. */
  lemma {:induction false} CorrectCountBounds(questions: seq<TriviaQuestion>, given: seq<string>)
    ensures CorrectCount(questions, given) <= |given|
    ensures CorrectCount(questions, given) <= |questions|
    decreases |given|
  {
    if |given| > 0 {
      var i := |given| - 1;
      CorrectCountBounds(questions, given[..i]);
      if i >= |questions| {
        CorrectCountPastEnd(questions, given);
      }
    }
  }

  /** Once every question has been answered, further answers score nothing. */
  lemma {:induction false} CorrectCountPastEnd(questions: seq<TriviaQuestion>, given: seq<string>)
    requires |given| > |questions|
    ensures CorrectCount(questions, given) == CorrectCount(questions, given[..|questions|])
    decreases |given|
  {
    var i := |given| - 1;
    if i > |questions| {
      CorrectCountPastEnd(questions, given[..i]);
      assert given[..i][..|questions|] == given[..|questions|];
    } else {
      assert given[..i] == given[..|questions|];
    }
    CorrectCountBoundsPrefix(questions, given[..|questions|]);
  }

  lemma {:induction false} CorrectCountBoundsPrefix(questions: seq<TriviaQuestion>, given: seq<string>)
    requires |given| <= |questions|
    ensures CorrectCount(questions, given) <= |given|
    decreases |given|
  {
    if |given| > 0 {
      CorrectCountBoundsPrefix(questions, given[..|given| - 1]);
    }
  }

  lemma CorrectCountSnoc(questions: seq<TriviaQuestion>, given: seq<string>, answer: string)
    ensures CorrectCount(questions, given + [answer])
         == CorrectCount(questions, given)
            + (if |given| < |questions| && answer == questions[|given|].correctAnswer then 1 else 0)
  {
    assert (given + [answer])[..|given|] == given;
  }

  /** The score equals the number of answers exactly when every answer so far was the correct one. */
  lemma {:induction false} PerfectScore(questions: seq<TriviaQuestion>, given: seq<string>)
    ensures CorrectCount(questions, given) == |given|
        <==> |given| <= |questions| && forall i :: 0 <= i < |given| ==> given[i] == questions[i].correctAnswer
    decreases |given|
  {
    if |given| > 0 {
      var i := |given| - 1;
      var init := given[..i];
      PerfectScore(questions, init);
      CorrectCountBounds(questions, init);
      if CorrectCount(questions, given) == |given| {
        assert forall j :: 0 <= j < i ==> given[j] == init[j];
      }
      if |given| <= |questions| && forall j :: 0 <= j < |given| ==> given[j] == questions[j].correctAnswer {
        assert forall j :: 0 <= j < i ==> init[j] == given[j];
      }
    }
  }

  /** The answers for a question: the correct one and the incorrect ones, shuffled by `draws`. */
  function AnswersFor(q: TriviaQuestion, draws: seq<nat>): seq<string> {
    Shuffle.Shuffled([q.correctAnswer] + q.incorrectAnswers, draws)
  }

  /** The answer list holds the correct answer and every incorrect one, each as often as given. */
  lemma AnswersArePermutation(q: TriviaQuestion, draws: seq<nat>)
    ensures |AnswersFor(q, draws)| == 1 + |q.incorrectAnswers|
    ensures multiset(AnswersFor(q, draws)) == multiset([q.correctAnswer] + q.incorrectAnswers)
    ensures q.correctAnswer in AnswersFor(q, draws)
  {
    Shuffle.ShuffledKeepsElements([q.correctAnswer] + q.incorrectAnswers, draws, q.correctAnswer);
  }

  class TriviaViewController {
    var questions: seq<TriviaQuestion>
    var currQuestionIndex: int
    var numCorrectQuestions: int
    /** The texts of the question-number, question and category labels. */
    var numberLabel: string
    var questionLabel: string
    var categoryLabel: string
    /** The titles of answer buttons 0 to 3. */
    var answerTitles: seq<string>
    /** The message of the game-over alert while it is presented. */
    var alert: Option<string>
    /** The answers tapped since the questions were last replaced. */
    ghost var given: seq<string>

    ghost predicate Valid()
      reads this
    {
      && |answerTitles| == 4
      && currQuestionIndex == |given|
      && numCorrectQuestions == CorrectCount(questions, given)
    }

    /** The score never exceeds the index nor the number of questions. */
    ghost predicate ScoreInBounds()
      reads this
    {
      0 <= numCorrectQuestions <= currQuestionIndex && numCorrectQuestions <= |questions|
    }

    /**
     * Question `i` is on screen: its number, text and category on the labels,
     * and button `k` titled `answers[k]` when there are more than `k` answers,
     * otherwise still titled as in `before`.
     */
    ghost predicate Shows(i: int, answers: seq<string>, before: seq<string>)
      reads this
    {
      && 0 <= i < |questions| && |answerTitles| == 4 && |before| == 4
      && numberLabel == QuestionNumberText(i, |questions|)
      && questionLabel == questions[i].question
      && categoryLabel == questions[i].category
      && forall k :: 0 <= k < 4 ==> answerTitles[k] == if k < |answers| then answers[k] else before[k]
    }

    /** The view before any fetch completes, with the storyboard's labels and button titles. */
    constructor (labels: (string, string, string), storyboardTitles: seq<string>)
      requires |storyboardTitles| == 4
      ensures Valid() && ScoreInBounds()
      ensures questions == [] && currQuestionIndex == 0 && numCorrectQuestions == 0
      ensures (numberLabel, questionLabel, categoryLabel) == labels
      ensures answerTitles == storyboardTitles && alert == None
    {
      questions := [];
      currQuestionIndex := 0;
      numCorrectQuestions := 0;
      numberLabel, questionLabel, categoryLabel := labels.0, labels.1, labels.2;
      answerTitles := storyboardTitles;
      alert := None;
      given := [];
    }

    /**
     * Shows question `questionIndex`: its number, text and category on the
     * labels, and its shuffled answers on the buttons. Button `i` gets
     * `answers[i]` exactly when there are more than `i` answers, and
     * otherwise keeps its title.
     */
    method UpdateQuestion(questionIndex: int, draws: seq<nat>) returns (answers: seq<string>)
      requires 0 <= questionIndex < |questions| && |answerTitles| == 4
      modifies this
      ensures questions == old(questions) && currQuestionIndex == old(currQuestionIndex)
      ensures numCorrectQuestions == old(numCorrectQuestions) && given == old(given)
      ensures alert == old(alert)
      ensures answers == AnswersFor(questions[questionIndex], draws)
      ensures numberLabel == QuestionNumberText(questionIndex, |questions|)
      ensures questionLabel == questions[questionIndex].question
      ensures categoryLabel == questions[questionIndex].category
      ensures |answerTitles| == 4
      ensures forall i :: 0 <= i < 4 ==>
        answerTitles[i] == if i < |answers| then answers[i] else old(answerTitles)[i]
    {
      numberLabel := QuestionNumberText(questionIndex, |questions|);
      var question := questions[questionIndex];
      questionLabel := question.question;
      categoryLabel := question.category;
      answers := Shuffle.Shuffled([question.correctAnswer] + question.incorrectAnswers, draws);
      if |answers| > 0 {
        answerTitles := answerTitles[0 := answers[0]];
      }
      if |answers| > 1 {
        answerTitles := answerTitles[1 := answers[1]];
      }
      if |answers| > 2 {
        answerTitles := answerTitles[2 := answers[2]];
      }
      if |answers| > 3 {
        answerTitles := answerTitles[3 := answers[3]];
      }
    }

    /** False whenever the index is past the last question, so it never indexes out of range. */
    function IsCorrectAnswer(answer: string): (r: bool)
      reads this
      requires 0 <= currQuestionIndex
      ensures currQuestionIndex >= |questions| ==> !r
      ensures currQuestionIndex < |questions| ==> (r <==> answer == questions[currQuestionIndex].correctAnswer)
    {
      if currQuestionIndex < |questions| then answer == questions[currQuestionIndex].correctAnswer
      else false
    }

    /** Presents the game-over alert with the score out of the number of questions. */
    method ShowFinalScore()
      modifies this
      ensures alert == Some(FinalScoreMessage(numCorrectQuestions, |questions|))
      ensures questions == old(questions) && currQuestionIndex == old(currQuestionIndex)
      ensures numCorrectQuestions == old(numCorrectQuestions) && given == old(given)
      ensures numberLabel == old(numberLabel) && questionLabel == old(questionLabel)
      ensures categoryLabel == old(categoryLabel) && answerTitles == old(answerTitles)
    {
      alert := Some(FinalScoreMessage(numCorrectQuestions, |questions|));
    }

    /**
     * An answer: the score goes up by one exactly when the answer is the
     * current question's correct answer, the index always goes up by one, and
     * then either the next question or the final score is shown.
     */
    method UpdateToNextQuestion(answer: string, draws: seq<nat>)
      requires Valid()
      modifies this
      ensures Valid() && ScoreInBounds()
      ensures questions == old(questions) && given == old(given) + [answer]
      ensures currQuestionIndex == old(currQuestionIndex) + 1
      ensures numCorrectQuestions == old(numCorrectQuestions)
        + (if old(currQuestionIndex) < |questions| && answer == questions[old(currQuestionIndex)].correctAnswer
           then 1 else 0)
      ensures currQuestionIndex < |questions| ==>
        && Shows(currQuestionIndex, AnswersFor(questions[currQuestionIndex], draws), old(answerTitles))
        && alert == old(alert)
      ensures currQuestionIndex >= |questions| ==>
        && alert == Some(FinalScoreMessage(numCorrectQuestions, |questions|))
        && numberLabel == old(numberLabel) && questionLabel == old(questionLabel)
        && categoryLabel == old(categoryLabel) && answerTitles == old(answerTitles)
    {
      if IsCorrectAnswer(answer) {
        numCorrectQuestions := numCorrectQuestions + 1;
      }
      CorrectCountSnoc(questions, given, answer);
      currQuestionIndex := currQuestionIndex + 1;
      given := given + [answer];
      CorrectCountBounds(questions, given);
      if !(currQuestionIndex < |questions|) {
        ShowFinalScore();
        return;
      }
      var answers := UpdateQuestion(currQuestionIndex, draws);
    }

    /** A tap on answer button `slot` answers with that button's title. */
    method TapAnswerButton(slot: int, draws: seq<nat>)
      requires Valid() && 0 <= slot < 4
      modifies this
      ensures Valid() && ScoreInBounds()
      ensures questions == old(questions) && given == old(given) + [old(answerTitles)[slot]]
      ensures currQuestionIndex == old(currQuestionIndex) + 1
      ensures numCorrectQuestions == old(numCorrectQuestions)
        + (if old(currQuestionIndex) < |questions|
              && old(answerTitles)[slot] == questions[old(currQuestionIndex)].correctAnswer
           then 1 else 0)
      ensures currQuestionIndex < |questions| ==>
        && Shows(currQuestionIndex, AnswersFor(questions[currQuestionIndex], draws), old(answerTitles))
        && alert == old(alert)
      ensures currQuestionIndex >= |questions| ==>
        && alert == Some(FinalScoreMessage(numCorrectQuestions, |questions|))
        && numberLabel == old(numberLabel) && questionLabel == old(questionLabel)
        && categoryLabel == old(categoryLabel) && answerTitles == old(answerTitles)
    {
      UpdateToNextQuestion(answerTitles[slot], draws);
    }

    /** The shared part of both fetch completions: replace the questions and restart the count. */
    method ReplaceQuestions(fetched: seq<TriviaQuestion>)
      requires |answerTitles| == 4
      modifies this
      ensures Valid() && ScoreInBounds()
      ensures questions == fetched && currQuestionIndex == 0 && numCorrectQuestions == 0 && given == []
      ensures numberLabel == old(numberLabel) && questionLabel == old(questionLabel)
      ensures categoryLabel == old(categoryLabel) && answerTitles == old(answerTitles)
      ensures alert == old(alert)
    {
      questions := fetched;
      currQuestionIndex := 0;
      numCorrectQuestions := 0;
      given := [];
    }

    /**
     * The completion of the fetch in `viewDidLoad`: with no questions only the
     * question label changes, to the failure message; otherwise question 0 is
     * shown.
     */
    method DidLoadQuestions(fetched: seq<TriviaQuestion>, draws: seq<nat>)
      requires |answerTitles| == 4
      modifies this
      ensures Valid() && ScoreInBounds()
      ensures questions == fetched && currQuestionIndex == 0 && numCorrectQuestions == 0
      ensures alert == old(alert)
      ensures fetched == [] ==>
        && questionLabel == LoadFailedText
        && numberLabel == old(numberLabel) && categoryLabel == old(categoryLabel)
        && answerTitles == old(answerTitles)
      ensures fetched != [] ==> Shows(0, AnswersFor(fetched[0], draws), old(answerTitles))
    {
      ReplaceQuestions(fetched);
      if fetched != [] {
        var answers := UpdateQuestion(0, draws);
      } else {
        questionLabel := LoadFailedText;
      }
    }

    /**
     * The completion of the fetch behind the alert's Restart action: with no
     * questions no label or button changes; otherwise question 0 is shown.
     */
    method DidRestartQuestions(fetched: seq<TriviaQuestion>, draws: seq<nat>)
      requires |answerTitles| == 4
      modifies this
      ensures Valid() && ScoreInBounds()
      ensures questions == fetched && currQuestionIndex == 0 && numCorrectQuestions == 0
      ensures alert == old(alert)
      ensures fetched == [] ==>
        && numberLabel == old(numberLabel) && questionLabel == old(questionLabel)
        && categoryLabel == old(categoryLabel) && answerTitles == old(answerTitles)
      ensures fetched != [] ==> Shows(0, AnswersFor(fetched[0], draws), old(answerTitles))
    {
      ReplaceQuestions(fetched);
      if fetched != [] {
        var answers := UpdateQuestion(0, draws);
      }
    }

    /**
     * `viewDidLoad`: a new service (so with no token) fetches five questions
     * of any category and difficulty, and its completion loads them.
     */
    method ViewDidLoad(network: TriviaService.Network, draws: seq<nat>)
      requires |answerTitles| == 4
      modifies this, network
      ensures Valid() && ScoreInBounds()
      ensures var (st, fetched) := TriviaProtocol.FetchQuestions(
                TriviaProtocol.State(None, old(network.script), old(network.log)),
                TriviaProtocol.FetchParams(5, None, None), network.acceptsURL);
        && network.script == st.script && network.log == st.log
        && questions == fetched
        && (fetched == [] ==>
              && questionLabel == LoadFailedText
              && numberLabel == old(numberLabel) && categoryLabel == old(categoryLabel)
              && answerTitles == old(answerTitles))
        && (fetched != [] ==> Shows(0, AnswersFor(fetched[0], draws), old(answerTitles)))
      ensures currQuestionIndex == 0 && numCorrectQuestions == 0 && alert == old(alert)
    {
      var service := new TriviaService.TriviaQuestionService(network);
      var fetched := service.FetchQuestions(5, None, None);
      DidLoadQuestions(fetched, draws);
    }

    /**
     * The Restart action of the game-over alert: the alert is dismissed, a new
     * service fetches five questions, and its completion restarts the quiz
     * with them.
     */
    method Restart(network: TriviaService.Network, draws: seq<nat>)
      requires |answerTitles| == 4 && alert.Some?
      modifies this, network
      ensures Valid() && ScoreInBounds()
      ensures var (st, fetched) := TriviaProtocol.FetchQuestions(
                TriviaProtocol.State(None, old(network.script), old(network.log)),
                TriviaProtocol.FetchParams(5, None, None), network.acceptsURL);
        && network.script == st.script && network.log == st.log
        && questions == fetched
        && (fetched == [] ==>
              && numberLabel == old(numberLabel) && questionLabel == old(questionLabel)
              && categoryLabel == old(categoryLabel) && answerTitles == old(answerTitles))
        && (fetched != [] ==> Shows(0, AnswersFor(fetched[0], draws), old(answerTitles)))
      ensures currQuestionIndex == 0 && numCorrectQuestions == 0 && alert == None
    {
      alert := None;
      var service := new TriviaService.TriviaQuestionService(network);
      var fetched := service.FetchQuestions(5, None, None);
      DidRestartQuestions(fetched, draws);
    }
  }
}
