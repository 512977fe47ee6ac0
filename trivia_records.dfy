/**
 * The wire records the quiz API returns (`TriviaAPIResponse`,
 * `TriviaAPIQuestion`, `TokenResponse`) and the question record the service
 * hands to its caller, with the per-field decoding between them.
 */
module TriviaRecords {
  import TextDecoding

  /** One raw question; every text field arrives base64-encoded. */
  datatype TriviaAPIQuestion = TriviaAPIQuestion(
    category: string,
    questionType: string,
    question: string,
    correctAnswer: string,
    incorrectAnswers: seq<string>)

  datatype TriviaAPIResponse = TriviaAPIResponse(responseCode: int, results: seq<TriviaAPIQuestion>)

  datatype TokenResponse = TokenResponse(responseCode: int, token: string)

  /** A decoded question as the caller receives it. */
  datatype TriviaQuestion = TriviaQuestion(
    category: string,
    question: string,
    correctAnswer: string,
    incorrectAnswers: seq<string>)

  function DecodeAll(texts: seq<string>): seq<string> {
    seq(|texts|, i requires 0 <= i < |texts| => TextDecoding.DecodeBase64(texts[i]))
  }

  /** The closure passed to `results.map`; the `type` field is dropped. */
  function DecodeQuestion(q: TriviaAPIQuestion): TriviaQuestion {
    TriviaQuestion(
      TextDecoding.DecodeBase64(q.category),
      TextDecoding.DecodeBase64(q.question),
      TextDecoding.DecodeBase64(q.correctAnswer),
      DecodeAll(q.incorrectAnswers))
  }

  function MapResults(results: seq<TriviaAPIQuestion>): seq<TriviaQuestion> {
    seq(|results|, i requires 0 <= i < |results| => DecodeQuestion(results[i]))
  }

  /**
   * The mapping keeps length and order, and each text field of question `i`
   * is `decodeBase64` of the same field of raw result `i`, independently of
   * every other field.
   */
  lemma MapResultsFieldwise(results: seq<TriviaAPIQuestion>, i: int)
    requires 0 <= i < |results|
    ensures |MapResults(results)| == |results|
    ensures var q, raw := MapResults(results)[i], results[i];
      && q.category == TextDecoding.DecodeBase64(raw.category)
      && q.question == TextDecoding.DecodeBase64(raw.question)
      && q.correctAnswer == TextDecoding.DecodeBase64(raw.correctAnswer)
      && |q.incorrectAnswers| == |raw.incorrectAnswers|
      && forall j :: 0 <= j < |raw.incorrectAnswers| ==>
           q.incorrectAnswers[j] == TextDecoding.DecodeBase64(raw.incorrectAnswers[j])
  {
  }

  /** A question as the API transports it: every text field base64 of its UTF-8. */
  function EncodeQuestion(q: TriviaQuestion, questionType: string): TriviaAPIQuestion {
    TriviaAPIQuestion(
      TextDecoding.EncodeBase64(q.category),
      questionType,
      TextDecoding.EncodeBase64(q.question),
      TextDecoding.EncodeBase64(q.correctAnswer),
      seq(|q.incorrectAnswers|, i requires 0 <= i < |q.incorrectAnswers| =>
        TextDecoding.EncodeBase64(q.incorrectAnswers[i])))
  }

  /** Decoding recovers every question the API encoded, whatever its `type`. */
  lemma DecodeEncodedQuestion(q: TriviaQuestion, questionType: string)
    ensures DecodeQuestion(EncodeQuestion(q, questionType)) == q
  {
    var raw := EncodeQuestion(q, questionType);
    TextDecoding.DecodeEncodedText(q.category);
    TextDecoding.DecodeEncodedText(q.question);
    TextDecoding.DecodeEncodedText(q.correctAnswer);
    forall j | 0 <= j < |q.incorrectAnswers|
      ensures DecodeAll(raw.incorrectAnswers)[j] == q.incorrectAnswers[j]
    {
      TextDecoding.DecodeEncodedText(q.incorrectAnswers[j]);
    }
  }

  /** So a whole batch of encoded results maps back to the questions, in order. */
  lemma DecodeEncodedResults(qs: seq<TriviaQuestion>, questionType: string)
    ensures MapResults(seq(|qs|, i requires 0 <= i < |qs| => EncodeQuestion(qs[i], questionType))) == qs
  {
    forall i | 0 <= i < |qs| ensures DecodeQuestion(EncodeQuestion(qs[i], questionType)) == qs[i] {
      DecodeEncodedQuestion(qs[i], questionType);
    }
  }
}
