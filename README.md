# Trivia: question service and quiz progression

A Dafny model of the two pieces of logic in the Trivia iOS app:

- `TriviaQuestionService` (Trivia/TriviaQuestionService.swift) asks the Open
  Trivia Database for a session token, builds the question URL, resets the
  token and retries when the server answers `response_code == 4`, and maps the
  raw results to `TriviaQuestion`s. Every text field goes through
  `String.decodeBase64`, which is fail-soft.
- `TriviaViewController` (Trivia/TriviaViewController.swift) tracks the quiz:
  the fetched questions, the current index and the number of correct answers.
  It also fills up to four answer buttons from a shuffled answer list and shows
  the final score.

The modules follow the program:

| module | models |
|---|---|
| `Base64`, `Utf8`, `TextDecoding` | `Data(base64Encoded:)` (RFC 4648, section 4), `String(data:encoding: .utf8)` (RFC 3629), and `decodeBase64` built on them |
| `Decimal` | the decimal rendering that string interpolation gives an `Int` |
| `Query` | the question URL: the step-by-step builder, and the query string it denotes |
| `TriviaRecords` | the wire records and the per-field `results.map` |
| `TriviaProtocol` | the token and fetch protocol, as functions on a state value: the token, the scripted replies still to come, and the requests issued |
| `TriviaService` | the `TriviaQuestionService` class, with its `sessionToken` field, over a `Network` object |
| `Shuffle`, `TriviaView` | `shuffled()` driven by explicit draws, and the `TriviaViewController` class |

The network is a scripted oracle. Each request is logged and answered by the
next scripted reply: `None` is a transport or JSON-decoding failure, and an
exhausted script also answers `None`. Each method of the service class is
proved to produce the same new state and result as the matching `TriviaProtocol`
function. So the protocol lemmas (the token is kept, token requests only when
none is held, where results come from, unbounded retries) hold for the class.
The controller's `Valid()` ties `numCorrectQuestions` to a ghost record of the
answers given, and every transition keeps
`numCorrectQuestions <= currQuestionIndex` and
`numCorrectQuestions <= questions.count`. Note that `currQuestionIndex <= questions.count`
is not kept: after a failed load the buttons still answer, and each tap
advances the index past the count.

The model follows the code where a stricter reading of the API's behaviour
would differ:

- Response codes other than 0 and 4 (no results, invalid parameter, token not
  found) are not rejected. As in the code, they fall through to mapping `results`.
- A decoded token response's token is stored whatever its `response_code`.
- A code-4 retry has no bound.

## Model

| member | source | states |
|---|---|---|
| TriviaRecords.MapResultsFieldwise | Trivia/TriviaQuestionService.swift:103-110 | the mapped list has the length and order of `results`; question `i`'s category, question and correct answer, and every incorrect answer, are `decodeBase64` of the same raw field; `type` is dropped |
| TriviaRecords.DecodeEncodedQuestion | Trivia/TriviaQuestionService.swift:4-20 | a question that the API encoded field by field (base64 of UTF-8) decodes back to itself, whatever its `type` |
| TriviaRecords.DecodeEncodedResults | Trivia/TriviaQuestionService.swift:103-110 | a batch of encoded questions maps back to the same questions, in order |
| TriviaRecords.MapResults | Trivia/TriviaQuestionService.swift:103-110 | definition of the `results.map`: question `i` is built from raw result `i` by decoding each text field; its properties are `MapResultsFieldwise` and `DecodeEncodedResults` |
| TextDecoding.DecodeBase64 | Trivia/TriviaQuestionService.swift:23-29 | never fails: the result is the input itself, or a text whose UTF-8 octets are exactly what the input decodes to as base64 |
| TextDecoding.DecodeEncodedText | Trivia/TriviaQuestionService.swift:24-28 | `decodeBase64(base64(utf8(s))) == s` for every string |
| TextDecoding.UnchangedWhenLengthIsNotQuanta | Trivia/TriviaQuestionService.swift:24-26 | input whose length is not a multiple of 4 is not base64 and comes back unchanged |
| TextDecoding.UnchangedWhenForeignCharacter | Trivia/TriviaQuestionService.swift:24-26 | input with a character outside the base64 alphabet and `=` comes back unchanged |
| TextDecoding.UnchangedWhenMisplacedPadding | Trivia/TriviaQuestionService.swift:24-26 | input with an `=` that does not close it (before the last two characters, or second-to-last and followed by something else, as in "E=mc") is not base64 and comes back unchanged |
| TextDecoding.UnchangedWhenNotUtf8 | Trivia/TriviaQuestionService.swift:25-26 | base64 whose octets are not UTF-8 comes back unchanged |
| TextDecoding.PlainTextThatIsBase64IsDecoded | Trivia/TriviaQuestionService.swift:24-28 | the decoder is not the identity on plain text: "QUJD" becomes "ABC" |
| Base64.DecodeEncode | Trivia/TriviaQuestionService.swift:24 | base64 decoding inverts base64 encoding on every octet sequence |
| Base64.DecodedTextShape | Trivia/TriviaQuestionService.swift:24 | text that decodes has a length that is a multiple of 4 and holds only alphabet characters and `=` |
| Base64.DecodedPaddingPlacement | Trivia/TriviaQuestionService.swift:24 | in text that decodes, `=` stands only among the last two characters, and second-to-last only when the last is `=` too |
| Base64.Decode | Trivia/TriviaQuestionService.swift:24 | definition of `Data(base64Encoded:)`: None unless the length is a multiple of four; then quantum by quantum, padding allowed only in the last; its properties are `DecodeEncode`, `DecodedTextShape` and `DecodedPaddingPlacement` |
| Base64.Encode | Trivia/TriviaQuestionService.swift:24 | encoded text has a length that is a multiple of 4, and is empty exactly when the data is |
| Utf8.DecodeEncode | Trivia/TriviaQuestionService.swift:25 | UTF-8 decoding inverts UTF-8 encoding on every string |
| Utf8.EncodeDecode | Trivia/TriviaQuestionService.swift:25 | octets that decode are exactly the encoding of the decoded string, so decoding accepts only well-formed UTF-8 |
| Utf8.Decode | Trivia/TriviaQuestionService.swift:25 | definition of `String(data:encoding: .utf8)`: scalar by scalar, failing on any ill-formed sequence; its properties are `DecodeEncode` and `EncodeDecode` |
| Decimal.IntToStringRoundTrip | Trivia/TriviaQuestionService.swift:71-73 | the decimal text of an integer (with `-` when negative) reads back as that integer |
| Decimal.IntToStringAlphabet | Trivia/TriviaQuestionService.swift:71-73 | the decimal text of an integer holds only digits and `-`, so never `&` or `=` |
| Query.ParseJoin | Trivia/TriviaQuestionService.swift:71-80 | a query string joined from `name=value` items with no `&` in them, and no `=` in the names, parses back to the same items |
| Query.BuildQuestionURL | Trivia/TriviaQuestionService.swift:71-80 | the URL built by appending to a variable equals the endpoint followed by the joined question parameters |
| Query.QuestionURLCarriesParams | Trivia/TriviaQuestionService.swift:71-80 | the URL starts with the endpoint, and its query parses to `amount`, `type=multiple`, `encode=base64`, then `category`, `difficulty` and `token` in that order, each exactly when present |
| TriviaProtocol.FetchKeepsHeldToken | Trivia/TriviaQuestionService.swift:55-67 | a fetch that starts with a token ends with the same token, through any number of resets and retries |
| TriviaProtocol.FetchNeverClearsToken | Trivia/TriviaQuestionService.swift:50 | no fetch ever sets the token back to nil |
| TriviaProtocol.FetchTokenRequests | Trivia/TriviaQuestionService.swift:118-124 | requests are only appended; with a token held no token request is ever issued; without one the first request is the token request |
| TriviaProtocol.FetchConsumesScript | Trivia/TriviaQuestionService.swift:87-115 | a fetch consumes a prefix of the scripted replies and nothing else |
| TriviaProtocol.FetchResultOrigin | Trivia/TriviaQuestionService.swift:88-110 | the questions are either `[]` or exactly the mapped results of one decoded reply with code other than 4 |
| TriviaProtocol.HeldTokenSuccess | Trivia/TriviaQuestionService.swift:103-114 | with a token held, a reply with any code other than 4 completes after one question request, with the mapped results |
| TriviaProtocol.HeldTokenFailure | Trivia/TriviaQuestionService.swift:87-93 | with a token held, a missing or undecodable reply completes with `[]` after one question request |
| TriviaProtocol.HeldTokenRejectedURL | Trivia/TriviaQuestionService.swift:82-85 | a URL that `URL(string:)` rejects completes with `[]` and issues no request |
| TriviaProtocol.HeldTokenExhausted | Trivia/TriviaQuestionService.swift:95-101 | code 4 issues a reset for the held token and then the same fetch again with the same amount, category and difficulty |
| TriviaProtocol.StartFetchOutcome | Trivia/TriviaQuestionService.swift:70-116 | for any state, token held or not: a rejected URL completes with `[]` and no request; a missing or undecodable reply completes with `[]` after one question request; a code other than 4 consumes one reply, logs one question request, keeps the token and yields the mapped results; code 4 resets and runs the whole fetch again |
| TriviaProtocol.TokenlessExhausted | Trivia/TriviaQuestionService.swift:56-58 | code 4 with no token held sends no reset and goes straight back to requesting a new token before the question request |
| TriviaProtocol.FailedTokenProceeds | Trivia/TriviaQuestionService.swift:41-47 | a token request whose reply is missing or undecodable leaves the fetch without a token, and the question request goes ahead with that token left out of the URL |
| TriviaProtocol.RetriesAreUnbounded | Trivia/TriviaQuestionService.swift:95-101 | after any number `k` of code-4 replies the fetch is still retrying with the same token, having issued `k` question requests and `k` resets |
| TriviaProtocol.FirstFetchScenario | Trivia/TriviaQuestionService.swift:118-124 | a first fetch issues a token request and then a question request that carries the new token |
| TriviaProtocol.ResetScenario | Trivia/TriviaQuestionService.swift:95-101 | an exhausted token leads to a question request, a reset, then a second question request whose reply completes the fetch |
| TriviaProtocol.GetSessionToken | Trivia/TriviaQuestionService.swift:37-53 | definition: one token request; a decoded token reply's token is stored whatever its code, otherwise the state is kept |
| TriviaProtocol.ResetToken | Trivia/TriviaQuestionService.swift:55-67 | definition: no request without a token; with one, a reset request whose reply is ignored |
| TriviaProtocol.FetchQuestions | Trivia/TriviaQuestionService.swift:118-124 | definition: a token request first exactly when no token is held, then the inner fetch |
| TriviaProtocol.StartFetch | Trivia/TriviaQuestionService.swift:70-116 | definition: a rejected URL gives `[]` with no request; a missing or undecodable reply gives `[]`; code 4 resets and fetches again with the same parameters; any other code maps the results |
| TriviaService.Network.Send | Trivia/TriviaQuestionService.swift:40 | a request is logged and answered by the next scripted reply, or by `None` once the script is used up |
| TriviaService.TriviaQuestionService.constructor | Trivia/TriviaQuestionService.swift:34 | a new service holds no session token |
| TriviaService.TriviaQuestionService.GetSessionToken | Trivia/TriviaQuestionService.swift:37-53 | one token request; a decoded reply's token is stored whatever its code; otherwise the token is unchanged |
| TriviaService.TriviaQuestionService.ResetToken | Trivia/TriviaQuestionService.swift:55-67 | with no token, no request; with one, a reset request for it; the token is never changed |
| TriviaService.TriviaQuestionService.FetchQuestions | Trivia/TriviaQuestionService.swift:69-125 | a token request first only when none is held, then the inner fetch; the new state and result are those of the protocol function |
| TriviaService.TriviaQuestionService.StartFetch | Trivia/TriviaQuestionService.swift:70-116 | builds the URL, gives up on a rejected URL, sends, then retries on code 4 or maps the results, as the protocol function does |
| Shuffle.Shuffled | Trivia/TriviaViewController.swift:48 | the shuffled list is a permutation of its input |
| TriviaView.CorrectCountBounds | Trivia/TriviaViewController.swift:66-71 | no more answers are scored correct than were given, nor than there are questions |
| TriviaView.PerfectScore | Trivia/TriviaViewController.swift:66-84 | the score equals the number of answers exactly when each answer was its question's correct answer |
| TriviaView.AnswersArePermutation | Trivia/TriviaViewController.swift:48 | the answer list has one more entry than there are incorrect answers and is a permutation of the correct answer followed by the incorrect ones |
| TriviaView.QuestionNumberText | Trivia/TriviaViewController.swift:44 | definition of the number label's text, "Question: i+1/count" |
| TriviaView.FinalScoreMessage | Trivia/TriviaViewController.swift:90 | definition of the alert's message, "Final score: correct/count" |
| TriviaView.TriviaViewController.constructor | Trivia/TriviaViewController.swift:20-22 | the quiz starts with no questions, index 0 and score 0, the storyboard's labels and titles, and no alert |
| TriviaView.TriviaViewController.ReplaceQuestions | Trivia/TriviaViewController.swift:31-34 | the part both completions share (lines 31-34 and 95-98): the fetched list replaces the questions and the index and score are zeroed, with the screen untouched |
| TriviaView.TriviaViewController.UpdateQuestion | Trivia/TriviaViewController.swift:43-63 | the labels show the question's number, text and category; button `i` gets `answers[i]` exactly when there are more than `i` answers, and otherwise keeps its title |
| TriviaView.TriviaViewController.IsCorrectAnswer | Trivia/TriviaViewController.swift:78-84 | false whenever the index is past the last question, and otherwise true exactly when the answer is that question's correct answer |
| TriviaView.TriviaViewController.ShowFinalScore | Trivia/TriviaViewController.swift:87-92 | presents "Final score: correct/count" and changes nothing else |
| TriviaView.TriviaViewController.UpdateToNextQuestion | Trivia/TriviaViewController.swift:66-76 | the index goes up by exactly 1; the score goes up by 1 exactly when the answer was the old question's correct answer; then the next question is shown in full (number, text, category and every button's title), or, once the index reaches the count, the final-score alert with every label and title kept; the score bounds are kept |
| TriviaView.TriviaViewController.TapAnswerButton | Trivia/TriviaViewController.swift:121-135 | a tap is `updateToNextQuestion` with the tapped button's title: the questions are kept, the index goes up by 1, the score goes up by 1 exactly when that title is the current question's correct answer, and the next question or the final score is shown as there |
| TriviaView.TriviaViewController.DidLoadQuestions | Trivia/TriviaViewController.swift:30-39 | the fetched list replaces the questions and index and score are zeroed; an empty list changes only the question label, to the failure message; a non-empty one shows question 0 in full (number, text, category and every button's title) |
| TriviaView.TriviaViewController.DidRestartQuestions | Trivia/TriviaViewController.swift:94-101 | the fetched list replaces the questions and index and score are zeroed; an empty list changes nothing on screen; a non-empty one shows question 0 in full |
| TriviaView.TriviaViewController.ViewDidLoad | Trivia/TriviaViewController.swift:24-40 | a new service, so one that holds no token, fetches five questions of any category and difficulty, and ends with the network state and questions of the protocol's fetch and the screen its completion shows (failure message, or question 0 in full) |
| TriviaView.TriviaViewController.Restart | Trivia/TriviaViewController.swift:93-102 | the alert's Restart action: the alert goes away, a new service fetches five questions, and its completion restarts the quiz with them: an empty list keeps the screen, a non-empty one shows question 0 in full |

## Left out

- Networking: `URLSession` tasks, `resume()`, and the threads that run the completion handlers. They are replaced by the scripted `Network` and synchronous calls.
- Main-queue dispatch: the move to the main queue with `DispatchQueue.main.async` is left out.
- The completion running exactly once: each completion becomes the method's return, so "exactly once" holds by construction and is not stated separately.
- JSON decoding: `JSONDecoder` is a library call. A scripted reply is either `None` or an already-decoded payload of the expected kind. A reply of the wrong kind counts as undecodable.
- The token and reset URLs: both are force-unwrapped with `URL(string:)!`. The model assumes they are accepted, and does not model the crash on an invalid token.
- The question URL: `URL(string:)` validity is the abstract predicate `acceptsURL` of the network.
- Randomness: `shuffled()` is driven by an explicit sequence of draws. Its contract states only that the result is a permutation.
- UIKit presentation: the gradient with its floating-point colours, the corner radius, `isHidden`, and the alert's title and style. Labels and button titles are modelled only as strings.
- Missing button titles: a title is a string, and a button with no title is represented by the empty string, which is what the `?? ""` fallback gives.
- Logging: `print` diagnostics.
- Weak references: the `[weak self]` and `[unowned self]` captures. The controller is assumed to be alive when a completion runs.
- Question record: TriviaQuestion.swift is not part of this model. The `TriviaQuestion` record is reconstructed from its initialiser call.
- String equality: Swift's `String ==` compares by canonical equivalence. The model compares code points exactly.
- Base64.Decode: like `Data(base64Encoded:)`, it demands padding to a multiple of four characters and rejects characters outside the alphabet. It accepts non-zero bits in the last character before padding, which Foundation may reject. Such inputs are only relevant to the "unchanged" lemmas, which do not cover them.
- Utf8.Decode: decoding follows RFC 3629 strictly (no overlong forms, surrogates or code points above U+10FFFF). Foundation's behaviour on other inputs, such as a byte-order mark, is not modelled.
- Tap order: `TapAnswerButton` also covers taps while the game-over alert is up. UIKit's modal presentation prevents those, and the model does not capture that.
