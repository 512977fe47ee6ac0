/**
 * `TriviaQuestionService`: a class whose one field, the optional session token,
 * its methods update in place. The network is a scripted oracle object that
 * logs every request and answers each with the next scripted reply. Every
 * method is proved to do exactly what the matching function of TriviaProtocol
 * says, so the lemmas there apply to the class.
 */
module TriviaService {
  import opened Wrappers
  import opened TriviaRecords
  import opened TriviaProtocol
  import Query

  /** Stands in for `URLSession` and `URL(string:)`. */
  class Network {
    var script: seq<Reply>
    var log: seq<Request>
    /** Whether `URL(string:)` accepts a string. */
    const acceptsURL: string -> bool

    constructor (script: seq<Reply>, acceptsURL: string -> bool)
      ensures this.script == script && log == [] && this.acceptsURL == acceptsURL
    {
      this.script := script;
      this.log := [];
      this.acceptsURL := acceptsURL;
    }

    /** Issues a request and returns the next scripted reply (None once the script is used up). */
    method Send(req: Request) returns (reply: Reply)
      modifies this
      ensures log == old(log) + [req]
      ensures old(script) == [] ==> script == [] && reply == None
      ensures old(script) != [] ==> script == old(script)[1..] && reply == old(script)[0]
    {
      log := log + [req];
      if script == [] {
        reply := None;
      } else {
        reply := script[0];
        script := script[1..];
      }
    }
  }

  class TriviaQuestionService {
    var sessionToken: Option<string>
    const network: Network

    constructor (network: Network)
      ensures sessionToken == None && this.network == network
    {
      sessionToken := None;
      this.network := network;
    }

    function Snapshot(): State
      reads this, network
    {
      State(sessionToken, network.script, network.log)
    }

    /**
     * One token request. A decoded reply's token is stored whatever its
     * response code; an undecodable one leaves the token as it was.
     */
    method GetSessionToken()
      modifies this, network
      ensures Snapshot() == TriviaProtocol.GetSessionToken(old(Snapshot()))
      ensures network.log == old(network.log) + [TokenRequest]
      ensures |network.script| <= |old(network.script)|
      ensures var reply := if old(network.script) == [] then None else old(network.script)[0];
        sessionToken == if reply.Some? && reply.value.TokenPayload? then Some(reply.value.tokenResponse.token)
                        else old(sessionToken)
    {
      var reply := network.Send(TokenRequest);
      match reply {
        case Some(TokenPayload(t)) => sessionToken := Some(t.token);
        case _ =>
      }
    }

    /**
     * With no token, completes at once with no request; with one, issues a
     * reset request for it. The token itself is never changed: the method
     * may not even modify this object.
     */
    method ResetToken()
      modifies network
      ensures Snapshot() == TriviaProtocol.ResetToken(old(Snapshot()))
      ensures sessionToken == old(sessionToken)
      ensures old(sessionToken).None? ==> network.log == old(network.log) && network.script == old(network.script)
      ensures old(sessionToken).Some? ==> network.log == old(network.log) + [ResetRequest(old(sessionToken).value)]
    {
      match sessionToken {
        case None =>
        case Some(token) =>
          var _ := network.Send(ResetRequest(token));
      }
    }

    /** Fetches a token first only when none is held, then starts the question request. */
    method FetchQuestions(amount: int, category: Option<int>, difficulty: Option<string>)
      returns (questions: seq<TriviaQuestion>)
      modifies this, network
      ensures (Snapshot(), questions)
           == TriviaProtocol.FetchQuestions(old(Snapshot()), FetchParams(amount, category, difficulty),
                                            network.acceptsURL)
      decreases |network.script|, 1
    {
      if sessionToken == None {
        GetSessionToken();
      }
      questions := StartFetch(amount, category, difficulty);
    }

    /** The inner `startFetch`: build the URL, send, then retry on code 4 or map the results. */
    method StartFetch(amount: int, category: Option<int>, difficulty: Option<string>)
      returns (questions: seq<TriviaQuestion>)
      modifies this, network
      ensures (Snapshot(), questions)
           == TriviaProtocol.StartFetch(old(Snapshot()), FetchParams(amount, category, difficulty),
                                        network.acceptsURL)
      decreases |network.script|, 0
    {
      var url := Query.BuildQuestionURL(amount, category, difficulty, sessionToken);
      if !network.acceptsURL(url) {
        return [];
      }
      var reply := network.Send(QuestionRequest(url));
      match reply {
        case Some(QuestionsPayload(resp)) =>
          if resp.responseCode == 4 {
            ResetToken();
            questions := FetchQuestions(amount, category, difficulty);
          } else {
            questions := MapResults(resp.results);
          }
        case _ =>
          questions := [];
      }
    }
  }
}
