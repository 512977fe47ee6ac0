/**
 * The session-token and question-fetch protocol of `TriviaQuestionService` as
 * functions on a `State` value: the held token, the network's scripted
 * replies not yet consumed, and the requests issued so far. The service class
 * is proved to follow these functions step for step; the lemmas here state
 * what the protocol promises.
 */
module TriviaProtocol {
  import opened Wrappers
  import opened TriviaRecords
  import Query

  /** A reply body that decoded: as a token response or as a question response. */
  datatype Payload = TokenPayload(tokenResponse: TokenResponse) | QuestionsPayload(apiResponse: TriviaAPIResponse)

  /** A reply is None when no data came back or it did not decode. */
  type Reply = Option<Payload>

  /** The three requests the service issues. */
  datatype Request = TokenRequest | ResetRequest(token: string) | QuestionRequest(url: string)

  datatype State = State(token: Option<string>, script: seq<Reply>, log: seq<Request>)

  datatype FetchParams = FetchParams(amount: int, category: Option<int>, difficulty: Option<string>)

  /** One request: it is logged and takes the next scripted reply (None once the script is used up). */
  function Send(st: State, req: Request): (State, Reply) {
    if |st.script| == 0 then (st.(log := st.log + [req]), None)
    else (st.(script := st.script[1..], log := st.log + [req]), st.script[0])
  }

  /** `getSessionToken`: a decoded token response is stored whatever its response code. */
  function GetSessionToken(st: State): State {
    var (st1, reply) := Send(st, TokenRequest);
    match reply
    case Some(TokenPayload(t)) => st1.(token := Some(t.token))
    case _ => st1
  }

  /** `resetToken`: no token, no request; otherwise a reset request whose reply is ignored. */
  function ResetToken(st: State): State {
    match st.token
    case None => st
    case Some(t) => Send(st, ResetRequest(t)).0
  }

  function QuestionURLFor(st: State, p: FetchParams): string {
    Query.QuestionURL(p.amount, p.category, p.difficulty, st.token)
  }

  /** `fetchQuestions`: a token is fetched first only when none is held. */
  function FetchQuestions(st: State, p: FetchParams, accepts: string -> bool): (State, seq<TriviaQuestion>)
    decreases |st.script|, 1
  {
    StartFetch(if st.token.None? then GetSessionToken(st) else st, p, accepts)
  }

  /**
   * `startFetch`: a URL that `accepts` rejects completes with no questions and
   * no request; an undecodable reply completes with no questions; code 4 resets
   * the token and starts over with the same parameters; any other code maps
   * the results.
   */
  function StartFetch(st: State, p: FetchParams, accepts: string -> bool): (State, seq<TriviaQuestion>)
    decreases |st.script|, 0
  {
    var url := QuestionURLFor(st, p);
    if !accepts(url) then (st, [])
    else
      var (st1, reply) := Send(st, QuestionRequest(url));
      match reply
      case Some(QuestionsPayload(resp)) =>
        if resp.responseCode == 4 then FetchQuestions(ResetToken(st1), p, accepts)
        else (st1, MapResults(resp.results))
      case _ => (st1, [])
  }

  /** A fetch that holds a token never drops or replaces it. */
  lemma {:induction false} FetchKeepsHeldToken(st: State, p: FetchParams, accepts: string -> bool)
    requires st.token.Some?
    ensures FetchQuestions(st, p, accepts).0.token == st.token
    decreases |st.script|
  {
    var url := QuestionURLFor(st, p);
    if accepts(url) {
      var (st1, reply) := Send(st, QuestionRequest(url));
      if reply.Some? && reply.value.QuestionsPayload? && reply.value.apiResponse.responseCode == 4 {
        FetchKeepsHeldToken(ResetToken(st1), p, accepts);
      }
    }
  }

  /** Once a token is held it stays held: no fetch ever sets it back to nil. */
  lemma FetchNeverClearsToken(st: State, p: FetchParams, accepts: string -> bool)
    ensures FetchQuestions(st, p, accepts).0.token.None? ==> st.token.None?
  {
    if st.token.Some? {
      FetchKeepsHeldToken(st, p, accepts);
    }
  }

  /** The requests of `c` past `a`, split at an intermediate log `b`. */
  lemma LogSuffixSplit(a: seq<Request>, b: seq<Request>, c: seq<Request>)
    requires a <= b && b <= c
    ensures c[|a|..] == b[|a|..] + c[|b|..]
  {
  }

  /** The inner fetch only ever appends requests to the log. */
  lemma {:induction false} StartFetchLogGrows(st: State, p: FetchParams, accepts: string -> bool)
    ensures st.log <= StartFetch(st, p, accepts).0.log
    decreases |st.script|
  {
    var url := QuestionURLFor(st, p);
    if accepts(url) {
      var (st1, reply) := Send(st, QuestionRequest(url));
      if reply.Some? && reply.value.QuestionsPayload? && reply.value.apiResponse.responseCode == 4 {
        var st2 := ResetToken(st1);
        var st3 := if st2.token.None? then GetSessionToken(st2) else st2;
        StartFetchLogGrows(st3, p, accepts);
      }
    }
  }

  /** With a token held, a fetch issues no token request, however often it retries. */
  lemma {:induction false} HeldTokenNoTokenRequest(st: State, p: FetchParams, accepts: string -> bool)
    requires st.token.Some?
    ensures var log := FetchQuestions(st, p, accepts).0.log;
      st.log <= log && TokenRequest !in log[|st.log|..]
    decreases |st.script|
  {
    var url := QuestionURLFor(st, p);
    if accepts(url) {
      var (st1, reply) := Send(st, QuestionRequest(url));
      if reply.Some? && reply.value.QuestionsPayload? && reply.value.apiResponse.responseCode == 4 {
        var st2 := ResetToken(st1);
        assert st2.log[|st.log|..] == [QuestionRequest(url), ResetRequest(st.token.value)];
        HeldTokenNoTokenRequest(st2, p, accepts);
        LogSuffixSplit(st.log, st2.log, FetchQuestions(st2, p, accepts).0.log);
      }
    }
  }

  /**
   * Requests are only ever appended. With a token held no token request is
   * issued; without one the first request is a token request.
   */
  lemma FetchTokenRequests(st: State, p: FetchParams, accepts: string -> bool)
    ensures var log := FetchQuestions(st, p, accepts).0.log;
      && st.log <= log
      && (st.token.Some? ==> TokenRequest !in log[|st.log|..])
      && (st.token.None? ==> |log| > |st.log| && log[|st.log|] == TokenRequest)
  {
    if st.token.Some? {
      HeldTokenNoTokenRequest(st, p, accepts);
    } else {
      var st0 := GetSessionToken(st);
      assert st0.log == st.log + [TokenRequest];
      StartFetchLogGrows(st0, p, accepts);
    }
  }

  /** The reply that completed a fetch: decoded, and with a code other than 4. */
  predicate Completes(reply: Reply, questions: seq<TriviaQuestion>) {
    reply.Some? && reply.value.QuestionsPayload? && reply.value.apiResponse.responseCode != 4
    && questions == MapResults(reply.value.apiResponse.results)
  }

  /** A fetch consumes a prefix of the scripted replies and leaves the rest as it was. */
  lemma {:induction false} FetchConsumesScript(st: State, p: FetchParams, accepts: string -> bool)
    ensures var rest := FetchQuestions(st, p, accepts).0.script;
      |rest| <= |st.script| && rest == st.script[|st.script| - |rest|..]
    decreases |st.script|, 1
  {
    var st0 := if st.token.None? then GetSessionToken(st) else st;
    assert |st0.script| <= |st.script| && st0.script == st.script[|st.script| - |st0.script|..];
    StartFetchConsumesScript(st0, p, accepts);
  }

  lemma {:induction false} StartFetchConsumesScript(st: State, p: FetchParams, accepts: string -> bool)
    ensures var rest := StartFetch(st, p, accepts).0.script;
      |rest| <= |st.script| && rest == st.script[|st.script| - |rest|..]
    decreases |st.script|, 0
  {
    var url := QuestionURLFor(st, p);
    if accepts(url) {
      var (st1, reply) := Send(st, QuestionRequest(url));
      if reply.Some? && reply.value.QuestionsPayload? && reply.value.apiResponse.responseCode == 4 {
        var st2 := ResetToken(st1);
        assert |st2.script| < |st.script| && st2.script == st.script[|st.script| - |st2.script|..];
        FetchConsumesScript(st2, p, accepts);
      }
    }
  }

  /**
   * A fetch yields either no questions or exactly the mapped results of one
   * decoded reply with a code other than 4 that the network gave.
   */
  lemma {:induction false} FetchResultOrigin(st: State, p: FetchParams, accepts: string -> bool)
    ensures var questions := FetchQuestions(st, p, accepts).1;
      questions == [] || exists k :: 0 <= k < |st.script| && Completes(st.script[k], questions)
    decreases |st.script|
  {
    var st0 := if st.token.None? then GetSessionToken(st) else st;
    assert |st0.script| <= |st.script| && st0.script == st.script[|st.script| - |st0.script|..];
    var url := QuestionURLFor(st0, p);
    if accepts(url) {
      var (st1, reply) := Send(st0, QuestionRequest(url));
      var k0 := |st.script| - |st0.script|;
      if reply.Some? {
        assert reply == st.script[k0];
      }
      if reply.Some? && reply.value.QuestionsPayload? && reply.value.apiResponse.responseCode == 4 {
        var st2 := ResetToken(st1);
        var off := |st.script| - |st2.script|;
        assert st2.script == st.script[off..];
        FetchResultOrigin(st2, p, accepts);
        var questions := FetchQuestions(st2, p, accepts).1;
        if questions != [] {
          var k :| 0 <= k < |st2.script| && Completes(st2.script[k], questions);
          assert st.script[off + k] == st2.script[k];
        }
      }
    }
  }

  /** The reply at the front of the script, if it is a decoded question response. */
  predicate QuestionsFirst(script: seq<Reply>) {
    |script| > 0 && script[0].Some? && script[0].value.QuestionsPayload?
  }

  /**
   * The inner fetch's four outcomes, with or without a token: a rejected URL
   * completes at once; a missing or undecodable reply gives no questions; a
   * code other than 4 maps the results; code 4 resets and fetches again.
   */
  lemma StartFetchOutcome(st: State, p: FetchParams, accepts: string -> bool)
    ensures var url := QuestionURLFor(st, p);
      var sent := State(st.token, if |st.script| == 0 then [] else st.script[1..], st.log + [QuestionRequest(url)]);
      var (st', questions) := StartFetch(st, p, accepts);
      && (!accepts(url) ==> st' == st && questions == [])
      && (accepts(url) && !QuestionsFirst(st.script) ==> st' == sent && questions == [])
      && (accepts(url) && QuestionsFirst(st.script) && st.script[0].value.apiResponse.responseCode != 4 ==>
            st' == sent && questions == MapResults(st.script[0].value.apiResponse.results))
      && (accepts(url) && QuestionsFirst(st.script) && st.script[0].value.apiResponse.responseCode == 4 ==>
            (st', questions) == FetchQuestions(ResetToken(sent), p, accepts))
  {
  }

  /**
   * Code 4 with no token held (the token request had failed): no reset is
   * sent, and the fetch starts over by requesting a token again.
   */
  lemma TokenlessExhausted(st: State, p: FetchParams, accepts: string -> bool)
    requires st.token.None? && accepts(QuestionURLFor(st, p))
    requires QuestionsFirst(st.script) && st.script[0].value.apiResponse.responseCode == 4
    ensures var sent := State(None, st.script[1..], st.log + [QuestionRequest(QuestionURLFor(st, p))]);
      StartFetch(st, p, accepts) == StartFetch(GetSessionToken(sent), p, accepts)
  {
    StartFetchOutcome(st, p, accepts);
  }

  /** A failed token request leaves no token, and the question request goes ahead without one. */
  lemma FailedTokenProceeds(r: Reply, rest: seq<Reply>, log: seq<Request>, p: FetchParams,
                            accepts: string -> bool)
    requires !(r.Some? && r.value.TokenPayload?)
    ensures FetchQuestions(State(None, [r] + rest, log), p, accepts)
         == StartFetch(State(None, rest, log + [TokenRequest]), p, accepts)
  {
    assert ([r] + rest)[1..] == rest;
  }

  /** With a token held, a reply of code other than 4 completes the fetch with its mapped results. */
  lemma HeldTokenSuccess(st: State, p: FetchParams, accepts: string -> bool, resp: TriviaAPIResponse)
    requires st.token.Some? && accepts(QuestionURLFor(st, p))
    requires |st.script| > 0 && st.script[0] == Some(QuestionsPayload(resp)) && resp.responseCode != 4
    ensures var (st', questions) := FetchQuestions(st, p, accepts);
      && st' == State(st.token, st.script[1..], st.log + [QuestionRequest(QuestionURLFor(st, p))])
      && questions == MapResults(resp.results)
      && |questions| == |resp.results|
  {
  }

  /** With a token held, a missing or undecodable reply completes the fetch with no questions. */
  lemma HeldTokenFailure(st: State, p: FetchParams, accepts: string -> bool)
    requires st.token.Some? && accepts(QuestionURLFor(st, p))
    requires |st.script| == 0 || !(st.script[0].Some? && st.script[0].value.QuestionsPayload?)
    ensures var (st', questions) := FetchQuestions(st, p, accepts);
      && questions == []
      && st'.token == st.token
      && st'.log == st.log + [QuestionRequest(QuestionURLFor(st, p))]
  {
  }

  /** A URL the platform rejects completes the fetch at once, with no request. */
  lemma HeldTokenRejectedURL(st: State, p: FetchParams, accepts: string -> bool)
    requires st.token.Some? && !accepts(QuestionURLFor(st, p))
    ensures FetchQuestions(st, p, accepts) == (st, [])
  {
  }

  /**
   * Code 4 with a token held: one question request, one reset request for the
   * same token, then the whole fetch again with the same parameters.
   */
  lemma HeldTokenExhausted(st: State, p: FetchParams, accepts: string -> bool, resp: TriviaAPIResponse)
    requires st.token.Some? && accepts(QuestionURLFor(st, p))
    requires |st.script| > 0 && st.script[0] == Some(QuestionsPayload(resp)) && resp.responseCode == 4
    ensures var rest := if |st.script| > 1 then st.script[2..] else [];
      FetchQuestions(st, p, accepts)
      == FetchQuestions(State(st.token, rest,
                              st.log + [QuestionRequest(QuestionURLFor(st, p)), ResetRequest(st.token.value)]),
                        p, accepts)
  {
    var st1 := Send(st, QuestionRequest(QuestionURLFor(st, p))).0;
    assert st1.log + [ResetRequest(st.token.value)]
        == st.log + [QuestionRequest(QuestionURLFor(st, p)), ResetRequest(st.token.value)];
  }

  /** Replies for `k` exhausted rounds: a code-4 reply, then the reset's ignored reply. */
  function ExhaustedRounds(k: nat, exhausted: TriviaAPIResponse, resetReply: Reply): seq<Reply>
    decreases k
  {
    if k == 0 then [] else [Some(QuestionsPayload(exhausted)), resetReply] + ExhaustedRounds(k - 1, exhausted, resetReply)
  }

  /** The requests of `k` exhausted rounds. */
  function RetryLog(url: string, token: string, k: nat): seq<Request>
    decreases k
  {
    if k == 0 then [] else [QuestionRequest(url), ResetRequest(token)] + RetryLog(url, token, k - 1)
  }

  /**
   * Nothing caps the retries: after any number `k` of code-4 rounds the fetch
   * is still going, with the same token and parameters, having issued `k`
   * question requests and `k` resets.
   */
  lemma {:induction false} RetriesAreUnbounded(token: string, k: nat, exhausted: TriviaAPIResponse,
                                               resetReply: Reply, rest: seq<Reply>, log: seq<Request>,
                                               p: FetchParams, accepts: string -> bool)
    requires exhausted.responseCode == 4
    requires accepts(QuestionURLFor(State(Some(token), [], []), p))
    ensures var url := QuestionURLFor(State(Some(token), [], []), p);
      FetchQuestions(State(Some(token), ExhaustedRounds(k, exhausted, resetReply) + rest, log), p, accepts)
      == FetchQuestions(State(Some(token), rest, log + RetryLog(url, token, k)), p, accepts)
    decreases k
  {
    var url := QuestionURLFor(State(Some(token), [], []), p);
    if k > 0 {
      var log' := log + [QuestionRequest(url), ResetRequest(token)];
      RetriesAreUnbounded(token, k - 1, exhausted, resetReply, rest, log', p, accepts);
      RetriesStep(token, k, exhausted, resetReply, rest, log, p, accepts);
    } else {
      assert ExhaustedRounds(k, exhausted, resetReply) + rest == rest;
      assert log + RetryLog(url, token, k) == log;
    }
  }

  /** The inductive step of `RetriesAreUnbounded`: one more round in front. */
  lemma RetriesStep(token: string, k: nat, exhausted: TriviaAPIResponse, resetReply: Reply,
                    rest: seq<Reply>, log: seq<Request>, p: FetchParams, accepts: string -> bool)
    requires k > 0 && exhausted.responseCode == 4
    requires accepts(QuestionURLFor(State(Some(token), [], []), p))
    requires var url := QuestionURLFor(State(Some(token), [], []), p);
      var log' := log + [QuestionRequest(url), ResetRequest(token)];
      FetchQuestions(State(Some(token), ExhaustedRounds(k - 1, exhausted, resetReply) + rest, log'), p, accepts)
      == FetchQuestions(State(Some(token), rest, log' + RetryLog(url, token, k - 1)), p, accepts)
    ensures var url := QuestionURLFor(State(Some(token), [], []), p);
      FetchQuestions(State(Some(token), ExhaustedRounds(k, exhausted, resetReply) + rest, log), p, accepts)
      == FetchQuestions(State(Some(token), rest, log + RetryLog(url, token, k)), p, accepts)
  {
    var url := QuestionURLFor(State(Some(token), [], []), p);
    var tail := ExhaustedRounds(k - 1, exhausted, resetReply) + rest;
    ExhaustedRoundsCons(k, exhausted, resetReply, rest);
    OneExhaustedRound(token, exhausted, resetReply, tail, log, p, accepts);
    RetryLogCons(url, token, k, log);
  }

  lemma ExhaustedRoundsCons(k: nat, exhausted: TriviaAPIResponse, resetReply: Reply, rest: seq<Reply>)
    requires k > 0
    ensures ExhaustedRounds(k, exhausted, resetReply) + rest
         == [Some(QuestionsPayload(exhausted)), resetReply] + (ExhaustedRounds(k - 1, exhausted, resetReply) + rest)
  {
  }

  lemma RetryLogCons(url: string, token: string, k: nat, log: seq<Request>)
    requires k > 0
    ensures log + [QuestionRequest(url), ResetRequest(token)] + RetryLog(url, token, k - 1)
         == log + RetryLog(url, token, k)
  {
  }

  /** One round of `RetriesAreUnbounded`: a code-4 reply, then the reset's reply. */
  lemma OneExhaustedRound(token: string, exhausted: TriviaAPIResponse, resetReply: Reply,
                          tail: seq<Reply>, log: seq<Request>, p: FetchParams, accepts: string -> bool)
    requires exhausted.responseCode == 4
    requires accepts(QuestionURLFor(State(Some(token), [], []), p))
    ensures var url := QuestionURLFor(State(Some(token), [], []), p);
      FetchQuestions(State(Some(token), [Some(QuestionsPayload(exhausted)), resetReply] + tail, log), p, accepts)
      == FetchQuestions(State(Some(token), tail, log + [QuestionRequest(url), ResetRequest(token)]), p, accepts)
  {
    var st := State(Some(token), [Some(QuestionsPayload(exhausted)), resetReply] + tail, log);
    assert QuestionURLFor(st, p) == QuestionURLFor(State(Some(token), [], []), p);
    HeldTokenExhausted(st, p, accepts, exhausted);
    assert st.script[2..] == tail;
  }

  /**
   * A first fetch with no token: one token request, then one question request
   * carrying the new token; a successful reply's results come back decoded.
   */
  lemma FirstFetchScenario(tokenResponse: TokenResponse, resp: TriviaAPIResponse, rest: seq<Reply>,
                           p: FetchParams, accepts: string -> bool)
    requires resp.responseCode != 4
    requires accepts(QuestionURLFor(State(Some(tokenResponse.token), [], []), p))
    ensures var url := QuestionURLFor(State(Some(tokenResponse.token), [], []), p);
      var script := [Some(TokenPayload(tokenResponse)), Some(QuestionsPayload(resp))] + rest;
      FetchQuestions(State(None, script, []), p, accepts)
      == (State(Some(tokenResponse.token), rest, [TokenRequest, QuestionRequest(url)]), MapResults(resp.results))
  {
    var url := QuestionURLFor(State(Some(tokenResponse.token), [], []), p);
    var script := [Some(TokenPayload(tokenResponse)), Some(QuestionsPayload(resp))] + rest;
    var st0 := GetSessionToken(State(None, script, []));
    assert st0 == State(Some(tokenResponse.token), script[1..], [TokenRequest]);
    assert QuestionURLFor(st0, p) == url;
    assert script[1..][0] == Some(QuestionsPayload(resp)) && script[1..][1..] == rest;
    HeldTokenSuccess(st0, p, accepts, resp);
    assert FetchQuestions(State(None, script, []), p, accepts) == StartFetch(st0, p, accepts);
    assert [TokenRequest] + [QuestionRequest(url)] == [TokenRequest, QuestionRequest(url)];
  }

  /**
   * A held token that the server reports exhausted: a reset, then a second
   * question request whose successful reply completes the fetch.
   */
  lemma ResetScenario(token: string, exhausted: TriviaAPIResponse, resetReply: Reply,
                      resp: TriviaAPIResponse, rest: seq<Reply>, p: FetchParams, accepts: string -> bool)
    requires exhausted.responseCode == 4 && resp.responseCode != 4
    requires accepts(QuestionURLFor(State(Some(token), [], []), p))
    ensures var url := QuestionURLFor(State(Some(token), [], []), p);
      var script := [Some(QuestionsPayload(exhausted)), resetReply, Some(QuestionsPayload(resp))] + rest;
      FetchQuestions(State(Some(token), script, []), p, accepts)
      == (State(Some(token), rest, [QuestionRequest(url), ResetRequest(token), QuestionRequest(url)]),
          MapResults(resp.results))
  {
    var url := QuestionURLFor(State(Some(token), [], []), p);
    var script := [Some(QuestionsPayload(exhausted)), resetReply, Some(QuestionsPayload(resp))] + rest;
    var st := State(Some(token), script, []);
    assert QuestionURLFor(st, p) == url;
    HeldTokenExhausted(st, p, accepts, exhausted);
    var st2 := State(Some(token), script[2..], [QuestionRequest(url), ResetRequest(token)]);
    assert [] + [QuestionRequest(url), ResetRequest(token)] == st2.log;
    assert FetchQuestions(st, p, accepts) == FetchQuestions(st2, p, accepts);
    assert script[2..][0] == Some(QuestionsPayload(resp)) && script[2..][1..] == rest;
    assert QuestionURLFor(st2, p) == url;
    HeldTokenSuccess(st2, p, accepts, resp);
    assert st2.script[1..] == rest;
    assert [QuestionRequest(url), ResetRequest(token)] + [QuestionRequest(url)]
        == [QuestionRequest(url), ResetRequest(token), QuestionRequest(url)];
  }
}
