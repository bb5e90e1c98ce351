/** httpclient.cc: retrying, redirection and proxy authentication. */
module HttpClient {
  import opened HttpAuth
  import opened Wrappers

  const MAX_REDIRECTS: nat := 5
  const HC_SEE_OTHER: nat := 303
  const HC_PROXY_AUTHENTICATION_REQUIRED: nat := 407
  const HC_INTERNAL_SERVER_ERROR: nat := 500

  datatype HttpMode = HM_CONNECT | HM_SEND | HM_RECV
  datatype HttpError = HE_NONE | HE_DISCONNECTED | HE_CONNECT_FAILED | HE_SOCKET_ERROR | HE_STREAM | HE_OTHER
  datatype RedirectAction = REDIRECT_DEFAULT | REDIRECT_ALWAYS | REDIRECT_NEVER
  datatype Verb = HV_GET | HV_HEAD | HV_OTHER

  // What came with a response, and whether the request document can be sent again.
  datatype Answer = Answer(location: bool, challenges: seq<string>, rewinds: bool)

  predicate IsInformational(scode: nat) { scode / 100 == 1 }

  predicate IsRedirection(scode: nat) { scode / 100 == 3 }

  predicate Broken(err: HttpError) { err == HE_DISCONNECTED || err == HE_CONNECT_FAILED || err == HE_SOCKET_ERROR }

  /** The connections that a request may still make: for each further redirection an attempt
      with its retries before authentication and another one after it; then what is left of
      the present one. */
  function Budget(redirects: nat, context: Option<string>, retries: nat, attempt: nat): nat
    requires redirects <= MAX_REDIRECTS && attempt <= retries
  {
    (MAX_REDIRECTS - redirects) * (2 * (retries + 1)) + (if context.None? then retries + 1 else 0) + (retries - attempt)
  }

  // Of a list of challenges, the first that is not ignored is one to respond to.
  predicate Responds(challenges: seq<string>, before: string, r: Request)
    decreases |challenges|
  {
    challenges != [] &&
    var scheme := Scheme(challenges[0], before);
    var decision := Decision(scheme, r, None);
    decision == HAR_RESPONSE || (decision == HAR_IGNORE && Responds(challenges[1..], scheme, r))
  }

  /** The test for another attempt, and what it is meant to find out: that the server has not
      said anything yet. */
  predicate Eligible(err: HttpError, scode: nat, attempt: nat, retries: nat) {
    Broken(err) && scode == HC_INTERNAL_SERVER_ERROR && attempt < retries
  }

  predicate Unanswered(err: HttpError, heard: bool, attempt: nat, retries: nat) {
    Broken(err) && !heard && attempt < retries
  }

  /** The two differ exactly when the server has answered with the code that stands for no
      answer. */
  lemma RetryAsIntended(err: HttpError, scode: nat, heard: bool, attempt: nat, retries: nat)
    requires heard || scode == HC_INTERNAL_SERVER_ERROR
    ensures (Eligible(err, scode, attempt, retries) <==> Unanswered(err, heard, attempt, retries))
            <==> !(Broken(err) && attempt < retries && heard && scode == HC_INTERNAL_SERVER_ERROR)
  {
  }

  // A request that starts over takes one connection out of the budget that it had.
  lemma RedirectSpends(redirects: nat, context: Option<string>, retries: nat, attempt: nat)
    requires redirects < MAX_REDIRECTS && attempt <= retries
    ensures Budget(redirects + 1, None, retries, 0) + 1 <= Budget(redirects, context, retries, attempt)
  {
    var per := 2 * (retries + 1);
    assert (MAX_REDIRECTS - redirects) * per == (MAX_REDIRECTS - (redirects + 1)) * per + per;
  }

  lemma AuthenticationSpends(redirects: nat, context: Option<string>, retries: nat, attempt: nat)
    requires redirects <= MAX_REDIRECTS && attempt <= retries && context.Some?
    ensures Budget(redirects, context, retries, 0) + 1 <= Budget(redirects, None, retries, attempt)
  {
  }

  /** What does not change during a request. */
  datatype Setup = Setup(retries: nat, action: RedirectAction, cached: bool, proxied: bool, transferEncoding: bool)

  // What base_ has been told to do last: to wait for a stream to open, to send, to receive.
  datatype Task = Nothing | Opening | Sending | Receiving

  // A stream from the pool: none, one that is still to be opened, or an open one.
  datatype Stream = NoStream | Closed | Open

  /** The pool, the cache and the document of the request, as the k-th connection finds them. */
  datatype World = World(pool: nat -> Stream, hits: nat -> bool, rewinds: nat -> bool)

  /** A request under way: while there is a task base_ is at work on it. `result` is what the
      completion says, `connects` and `completions` count. */
  datatype Client = Client(
    attempt: nat, redirects: nat, context: Option<string>, verb: Verb, scode: nat, heard: bool, task: Task,
    result: HttpError, connects: nat, completions: nat)

  // Where the budget has not been overdrawn.
  predicate Within(u: Setup, s: Client) { s.redirects <= MAX_REDIRECTS && s.attempt <= u.retries }

  function Left(u: Setup, s: Client): nat
    requires Within(u, s)
  {
    Budget(s.redirects, s.context, u.retries, s.attempt)
  }

  function Finished(s: Client, error: HttpError): Client {
    s.(task := Nothing, result := error, completions := s.completions + 1)
  }

  predicate ShouldRedirect(u: Setup, s: Client, location: bool) {
    && u.action != REDIRECT_NEVER && IsRedirection(s.scode) && location && s.redirects < MAX_REDIRECTS
    && (u.action == REDIRECT_ALWAYS || s.scode == HC_SEE_OTHER || s.verb == HV_HEAD || s.verb == HV_GET)
  }

  // What becomes of a complete response: another request, or the end with an error or without.
  datatype Sequel = Again(s: Client) | Over(s: Client, error: HttpError)

  // response().clear, after which the code is the default again.
  function Cleared(s: Client): Client { s.(scode := HC_INTERNAL_SERVER_ERROR, heard := false) }

  // The proxy's challenges, up to one that is responded to: the context, an error, and whether it was.
  datatype Response = Response(context: Option<string>, error: HttpError, responded: bool)

  function Challenged(challenges: seq<string>, before: string, r: Request, context: Option<string>, rewinds: bool,
      error: HttpError): Response
    decreases |challenges|
  {
    if challenges == [] then Response(context, error, false)
    else
      var scheme := Scheme(challenges[0], before);
      match Decision(scheme, r, context)
      case HAR_RESPONSE =>
        if rewinds then Response(Some(scheme), error, true)
        else Challenged(challenges[1..], scheme, r, Some(scheme), rewinds, HE_STREAM)
      case HAR_IGNORE => Challenged(challenges[1..], scheme, r, context, rewinds, error)
      case _ => Response(context, error, false)
  }

  function Redirected(s: Client): Client {
    Cleared(s.(redirects := s.redirects + 1, context := None, verb := if s.scode == HC_SEE_OTHER then HV_GET else s.verb))
  }

  function Resent(u: Setup, r: Request, s: Client, answer: Answer): Sequel {
    if ShouldRedirect(u, s, answer.location) then
      if s.scode == HC_SEE_OTHER || answer.rewinds then Again(Redirected(s)) else Over(s, HE_STREAM)
    else if s.scode == HC_PROXY_AUTHENTICATION_REQUIRED && u.proxied then
      var c := Challenged(answer.challenges, "", r, s.context, answer.rewinds, HE_NONE);
      if c.responded then Again(Cleared(s.(context := c.context))) else Over(s.(context := c.context), c.error)
    else Over(s, HE_NONE)
  }

  // One that has responded had not before, and has a context now.
  lemma {:induction false} RespondsOnce(challenges: seq<string>, before: string, r: Request, context: Option<string>,
      rewinds: bool, error: HttpError)
    ensures var c := Challenged(challenges, before, r, context, rewinds, error);
            c.responded ==> rewinds && context.None? && c.context.Some? && c.error == error
    decreases |challenges|
  {
    if challenges != [] {
      var scheme := Scheme(challenges[0], before);
      match Decision(scheme, r, context)
      case HAR_RESPONSE =>
        if !rewinds { RespondsOnce(challenges[1..], scheme, r, Some(scheme), rewinds, HE_STREAM); }
      case HAR_IGNORE => RespondsOnce(challenges[1..], scheme, r, context, rewinds, error);
      case _ =>
    }
  }

  /** A response is given if and only if nothing has been answered since the last redirection, the
      document can be sent again, and the first challenge that is not ignored can be answered. */
  lemma {:induction false} RespondsExactly(challenges: seq<string>, before: string, r: Request, context: Option<string>,
      rewinds: bool, error: HttpError)
    ensures Challenged(challenges, before, r, context, rewinds, error).responded
            <==> rewinds && context.None? && Responds(challenges, before, r)
    decreases |challenges|
  {
    RespondsOnce(challenges, before, r, context, rewinds, error);
    if rewinds && context.None? && challenges != [] {
      var scheme := Scheme(challenges[0], before);
      if Decision(scheme, r, None) == HAR_IGNORE {
        RespondsExactly(challenges[1..], scheme, r, None, rewinds, error);
      }
    }
  }

  lemma ResendingSpends(u: Setup, r: Request, s: Client, answer: Answer)
    requires Within(u, s)
    ensures var q := Resent(u, r, s, answer);
            q.Again? ==> Within(u, q.s.(attempt := 0)) && q.s.completions == s.completions && q.s.connects == s.connects
                         && Left(u, q.s.(attempt := 0)) + 1 <= Left(u, s)
  {
    if ShouldRedirect(u, s, answer.location) {
      RedirectSpends(s.redirects, s.context, u.retries, s.attempt);
    } else {
      RespondsOnce(answer.challenges, "", r, s.context, answer.rewinds, HE_NONE);
      var c := Challenged(answer.challenges, "", r, s.context, answer.rewinds, HE_NONE);
      if c.responded { AuthenticationSpends(s.redirects, c.context, u.retries, s.attempt); }
    }
  }

  // start, for a request without a transfer coding.
  function Started(u: Setup, w: World, s: Client): Client
    requires Within(u, s.(attempt := 0))
    decreases Left(u, s.(attempt := 0)), 2
  {
    if u.cached && w.hits(s.connects) then Finished(s.(attempt := 0), HE_NONE) else Connected(u, w, s.(attempt := 0))
  }

  // connect.
  function Connected(u: Setup, w: World, s: Client): Client
    requires Within(u, s)
    decreases Left(u, s), 1
  {
    var s' := s.(connects := s.connects + 1);
    match w.pool(s.connects)
    case NoStream => Failed(u, w, s', HE_CONNECT_FAILED, w.rewinds(s.connects))
    case Closed => s'.(task := Opening)
    case Open => s'.(task := Sending)
  }

  // A step of the transaction fails.
  function Failed(u: Setup, w: World, s: Client, err: HttpError, rewinds: bool): Client
    requires Within(u, s)
    decreases Left(u, s), 0
  {
    if Eligible(err, s.scode, s.attempt, u.retries) then
      if rewinds then Connected(u, w, s.(attempt := s.attempt + 1)) else Finished(s.(attempt := s.attempt + 1), HE_STREAM)
    else Finished(s, err)
  }

  /** onHttpComplete: the end of a step of the transaction. */
  function Ended(u: Setup, w: World, r: Request, s: Client, mode: HttpMode, err: HttpError, answer: Answer): Client
    requires Within(u, s)
  {
    if err != HE_NONE then Failed(u, w, s, err, answer.rewinds)
    else if mode == HM_CONNECT then s.(task := Sending)
    else if mode == HM_SEND || IsInformational(s.scode) then s.(task := Receiving)
    else
      ResendingSpends(u, r, s, answer);
      match Resent(u, r, s, answer)
      case Again(s') => Started(u, w, s')
      case Over(s', error) => Finished(s', error)
  }

  /** A request that has been completed once, or is under way; and the connections that have been
      made and may still follow stay within what was left. */
  predicate Settled(u: Setup, s: Client, bound: nat) {
    && Within(u, s) && s.completions == (if s.task == Nothing then 1 else 0)
    && s.connects + (if s.task == Nothing then 0 else Left(u, s)) <= bound
    && (s.heard || s.scode == HC_INTERNAL_SERVER_ERROR)
  }

  // Nothing is under way, and nothing has been completed.
  predicate Between(u: Setup, s: Client) {
    && Within(u, s) && s.completions == 0 && s.task == Nothing && (s.heard || s.scode == HC_INTERNAL_SERVER_ERROR)
  }

  lemma {:induction false} StartStaysWithin(u: Setup, w: World, s: Client)
    requires Between(u, s.(attempt := 0))
    ensures Settled(u, Started(u, w, s), s.connects + 1 + Left(u, s.(attempt := 0)))
    ensures Started(u, w, s).connects >= s.connects
  {
    if !(u.cached && w.hits(s.connects)) { ConnectionStaysWithin(u, w, s.(attempt := 0)); }
  }

  lemma {:induction false} ConnectionStaysWithin(u: Setup, w: World, s: Client)
    requires Between(u, s)
    ensures Settled(u, Connected(u, w, s), s.connects + 1 + Left(u, s)) && Connected(u, w, s).connects > s.connects
    decreases Left(u, s), 1
  {
    if w.pool(s.connects) == NoStream {
      FailureStaysWithin(u, w, s.(connects := s.connects + 1), HE_CONNECT_FAILED, w.rewinds(s.connects));
    }
  }

  lemma {:induction false} FailureStaysWithin(u: Setup, w: World, s: Client, err: HttpError, rewinds: bool)
    requires Between(u, s)
    ensures Settled(u, Failed(u, w, s, err, rewinds), s.connects + Left(u, s))
    ensures var s' := Failed(u, w, s, err, rewinds);
            if Eligible(err, s.scode, s.attempt, u.retries) && rewinds then s'.connects > s.connects
            else s'.task == Nothing && s'.connects == s.connects
    decreases Left(u, s), 0
  {
    if Eligible(err, s.scode, s.attempt, u.retries) && rewinds {
      ConnectionStaysWithin(u, w, s.(attempt := s.attempt + 1));
    }
  }

  /** Whatever the outcome of a step, the connections made and those that may follow stay within
      what was left, and there is at most one completion. */
  lemma EndStaysWithin(u: Setup, w: World, r: Request, s: Client, mode: HttpMode, err: HttpError, answer: Answer)
    requires Between(u, s)
    ensures Settled(u, Ended(u, w, r, s, mode, err, answer), s.connects + Left(u, s))
    ensures Ended(u, w, r, s, mode, err, answer).connects >= s.connects
  {
    if err != HE_NONE {
      FailureStaysWithin(u, w, s, err, answer.rewinds);
    } else if mode == HM_RECV && !IsInformational(s.scode) {
      ResendingSpends(u, r, s, answer);
      match Resent(u, r, s, answer)
      case Again(s') => StartStaysWithin(u, w, s');
      case Over(_, _) =>
    }
  }

  // What the rules come to.

  /** Without a connection to be had there are as many attempts as retries and one more. */
  lemma {:induction false} NeverConnects(u: Setup, w: World, s: Client)
    requires Between(u, s) && s.scode == HC_INTERNAL_SERVER_ERROR
    requires forall k :: w.pool(k) == NoStream && w.rewinds(k)
    ensures var s' := Connected(u, w, s);
            && s'.connects == s.connects + (u.retries - s.attempt) + 1
            && s'.task == Nothing && s'.result == HE_CONNECT_FAILED && s'.completions == 1
    decreases u.retries - s.attempt
  {
    if s.attempt < u.retries {
      NeverConnects(u, w, s.(connects := s.connects + 1, attempt := s.attempt + 1));
    }
  }

  /** A connection that can be had is had at once. */
  lemma ConnectsAtOnce(u: Setup, w: World, s: Client)
    requires Between(u, s.(attempt := 0)) && w.pool(s.connects) != NoStream && !(u.cached && w.hits(s.connects))
    ensures var s' := Started(u, w, s);
            s'.connects == s.connects + 1 && s'.attempt == 0 && s'.completions == 0
            && s'.task == (if w.pool(s.connects) == Open then Sending else Opening)
  {
  }

  /** A hit in the cache completes the request without a connection. */
  lemma CacheAnswers(u: Setup, w: World, s: Client)
    requires Between(u, s.(attempt := 0)) && u.cached && w.hits(s.connects)
    ensures var s' := Started(u, w, s);
            s'.connects == s.connects && s'.completions == 1 && s'.result == HE_NONE && s'.task == Nothing
  {
  }

  /** Who is redirected: never, or always, or by default after 303 or for a GET or a HEAD; with a
      location, a code from 300 to 399, and not more than five times. */
  lemma RedirectionRules(u: Setup, s: Client, location: bool)
    ensures u.action == REDIRECT_NEVER || !location || s.scode < 300 || s.scode >= 400 || s.redirects >= 5 ==>
              !ShouldRedirect(u, s, location)
    ensures location && 300 <= s.scode < 400 && s.redirects < 5 ==>
              && (u.action == REDIRECT_ALWAYS ==> ShouldRedirect(u, s, location))
              && (u.action == REDIRECT_DEFAULT ==>
                    (ShouldRedirect(u, s, location) <==> s.scode == 303 || s.verb != HV_OTHER))
  {
  }

  /** A request that is not redirected, and not challenged, ends with its response. */
  lemma ResponseEnds(u: Setup, w: World, r: Request, s: Client, answer: Answer)
    requires Between(u, s) && !ShouldRedirect(u, s, answer.location) && (s.scode != 407 || !u.proxied)
    requires s.scode < 100 || s.scode >= 200
    ensures Ended(u, w, r, s, HM_RECV, HE_NONE, answer) == Finished(s, HE_NONE)
  {
  }

  /** The request is sent when the connection is there, and then a response is received, until it
      is not one of the codes from 100 to 199. */
  lemma StepsInOrder(u: Setup, w: World, r: Request, s: Client, answer: Answer)
    requires Between(u, s)
    ensures Ended(u, w, r, s, HM_CONNECT, HE_NONE, answer) == s.(task := Sending)
    ensures Ended(u, w, r, s, HM_SEND, HE_NONE, answer) == s.(task := Receiving)
    ensures 100 <= s.scode < 200 ==> Ended(u, w, r, s, HM_RECV, HE_NONE, answer) == s.(task := Receiving)
  {
  }

  /** A connection that breaks is tried again only while nothing has been heard, and there are
      retries left; otherwise its error ends the request. */
  lemma RetryRules(u: Setup, w: World, r: Request, s: Client, mode: HttpMode, err: HttpError, answer: Answer)
    requires Between(u, s) && err != HE_NONE
    ensures var s' := Ended(u, w, r, s, mode, err, answer);
            if (err == HE_DISCONNECTED || err == HE_CONNECT_FAILED || err == HE_SOCKET_ERROR) && s.scode == 500
               && s.attempt < u.retries && answer.rewinds
            then s'.connects > s.connects
            else s'.connects == s.connects && s'.completions == 1
                 && (s'.result == err || (s'.result == HE_STREAM && !answer.rewinds))
  {
    FailureStaysWithin(u, w, s, err, answer.rewinds);
  }

  /** A server that always redirects a GET, on connections that open at once: five redirections
      are followed, and the sixth response is the result. */
  function AllRedirected(u: Setup, w: World, r: Request, s: Client, answer: Answer): Client
    requires Within(u, s)
    decreases MAX_REDIRECTS - s.redirects
  {
    var s' := Ended(u, w, r, s.(scode := 302, heard := true, task := Nothing), HM_RECV, HE_NONE, answer);
    if s'.task == Sending && s'.redirects == s.redirects + 1 && Within(u, s') then AllRedirected(u, w, r, s', answer) else s'
  }

  lemma {:induction false} FiveRedirections(u: Setup, w: World, r: Request, s: Client, answer: Answer)
    requires Within(u, s) && s.completions == 0 && s.verb == HV_GET && u.action != REDIRECT_NEVER && !u.cached
    requires answer.location && answer.rewinds && forall k :: w.pool(k) == Open
    ensures var s' := AllRedirected(u, w, r, s, answer);
            && s'.redirects == MAX_REDIRECTS && s'.connects == s.connects + (MAX_REDIRECTS - s.redirects)
            && s'.completions == 1 && s'.result == HE_NONE && s'.scode == 302
    decreases MAX_REDIRECTS - s.redirects
  {
    var t := s.(scode := 302, heard := true, task := Nothing);
    if s.redirects < MAX_REDIRECTS {
      ResendingSpends(u, r, t, answer);
      assert Resent(u, r, t, answer) == Again(Redirected(t));
      var s' := Ended(u, w, r, t, HM_RECV, HE_NONE, answer);
      assert s' == Started(u, w, Redirected(t));
      ConnectsAtOnce(u, w, Redirected(t));
      FiveRedirections(u, w, r, s', answer);
    }
  }

  /** A proxy that asks for credentials that can be given is answered once, on one more connection;
      when it asks again the request ends. */
  lemma AnsweredOnce(u: Setup, w: World, r: Request, s: Client, answer: Answer)
    requires Between(u, s) && u.proxied && s.scode == 407 && !u.cached && w.pool(s.connects) == Open
    requires answer.rewinds && s.context.None? && Responds(answer.challenges, "", r)
    ensures var s' := Ended(u, w, r, s, HM_RECV, HE_NONE, answer);
            && s'.task == Sending && s'.connects == s.connects + 1 && s'.context.Some? && s'.redirects == s.redirects
            && var again := s'.(task := Nothing, scode := 407, heard := true);
               Ended(u, w, r, again, HM_RECV, HE_NONE, answer) == Finished(again, HE_NONE)
  {
    RespondsExactly(answer.challenges, "", r, s.context, answer.rewinds, HE_NONE);
    RespondsOnce(answer.challenges, "", r, s.context, answer.rewinds, HE_NONE);
    ResendingSpends(u, r, s, answer);
    var c := Challenged(answer.challenges, "", r, s.context, answer.rewinds, HE_NONE);
    assert Resent(u, r, s, answer) == Again(Cleared(s.(context := c.context)));
    ConnectsAtOnce(u, w, Cleared(s.(context := c.context)));
    NoneAfterResponse(answer.challenges, "", r, c.context, answer.rewinds);
    RespondsExactly(answer.challenges, "", r, c.context, answer.rewinds, HE_NONE);
  }

  // With a context that the rewinding document has led to, the challenges change nothing.
  lemma {:induction false} NoneAfterResponse(challenges: seq<string>, before: string, r: Request, context: Option<string>,
      rewinds: bool)
    requires context.Some?
    ensures Challenged(challenges, before, r, context, rewinds, HE_NONE) == Response(context, HE_NONE, false)
    decreases |challenges|
  {
    if challenges != [] {
      var scheme := Scheme(challenges[0], before);
      if Decision(scheme, r, context) == HAR_IGNORE {
        NoneAfterResponse(challenges[1..], scheme, r, context, rewinds);
      }
    }
  }

  class HttpClient {
    const retries_: nat
    const redirect_action_: RedirectAction
    const cached: bool
    const proxied: bool
    const transferEncoding: bool
    const request: Request
    var attempt_: nat
    var redirects_: nat
    var context_: Option<string>
    var verb: Verb
    var scode: nat
    // What base_ is doing, and what the completion has said.
    var task: Task
    var result: HttpError
    // The server has answered since the response was last cleared.
    var heard: bool
    var connects: nat
    var completions: nat

    constructor (u: Setup, request: Request, verb: Verb)
      ensures Config() == u && this.request == request && State() == Fresh(verb)
    {
      retries_, redirect_action_ := u.retries, u.action;
      cached, proxied, transferEncoding := u.cached, u.proxied, u.transferEncoding;
      this.request, this.verb := request, verb;
      attempt_, redirects_, context_ := 0, 0, None;
      scode, heard, task, result := HC_INTERNAL_SERVER_ERROR, false, Nothing, HE_NONE;
      connects, completions := 0, 0;
    }

    function Config(): Setup { Setup(retries_, redirect_action_, cached, proxied, transferEncoding) }

    function State(): Client
      reads this
    {
      Client(attempt_, redirects_, context_, verb, scode, heard, task, result, connects, completions)
    }

    // start: a request that brings a transfer coding is refused.
    method Start(w: World)
      requires Between(Config(), State().(attempt := 0))
      modifies this
      ensures State() == if transferEncoding then old(State()) else Started(Config(), w, old(State()))
      decreases Left(Config(), State().(attempt := 0)), 2
    {
      if transferEncoding {
        return;
      }
      attempt_ := 0;
      if cached {
        // CheckCache.
        if w.hits(connects) {
          Complete(HE_NONE);
          return;
        }
      }
      Connect(w);
    }

    method Complete(err: HttpError)
      modifies this`task, this`result, this`completions
      ensures State() == Finished(old(State()), err)
    {
      task, result := Nothing, err;
      completions := completions + 1;
    }

    method Connect(w: World)
      requires Between(Config(), State()) && !transferEncoding
      modifies this
      ensures State() == Connected(Config(), w, old(State()))
      decreases Left(Config(), State()), 1
    {
      var k := connects;
      connects := connects + 1;
      match w.pool(k)
      case NoStream => OnHttpComplete(w, HM_CONNECT, HE_CONNECT_FAILED, Answer(false, [], w.rewinds(k)));
      case Closed => task := Opening;
      case Open => task := Sending;
    }

    // The proxy's challenges, up to one that is responded to.
    method Authenticate(answer: Answer) returns (responded: bool, err: HttpError)
      modifies this`context_
      ensures Response(context_, err, responded)
              == Challenged(answer.challenges, "", request, old(context_), answer.rewinds, HE_NONE)
    {
      err := HE_NONE;
      var k, scheme := 0, "";
      assert answer.challenges[0..] == answer.challenges;
      while k < |answer.challenges|
        invariant k <= |answer.challenges|
        invariant Challenged(answer.challenges, "", request, old(context_), answer.rewinds, HE_NONE)
                  == Challenged(answer.challenges[k..], scheme, request, context_, answer.rewinds, err)
      {
        assert answer.challenges[k..][1..] == answer.challenges[k + 1..];
        MD5IsPlain();
        var res, context, response;
        res, context, response, scheme := HttpAuthenticate(MD5, answer.challenges[k], request, context_, scheme);
        context_ := context;
        if res == HAR_RESPONSE {
          if !answer.rewinds {
            err := HE_STREAM;
          } else {
            return true, err;
          }
        } else if res != HAR_IGNORE {
          break;
        }
        k := k + 1;
      }
      responded := false;
    }

    // The leader of a response.
    method Hear(code: nat)
      modifies this`scode, this`heard
      ensures State() == old(State()).(scode := code, heard := true)
    {
      scode, heard := code, true;
    }

    method OnHttpComplete(w: World, mode: HttpMode, err: HttpError, answer: Answer)
      requires Between(Config(), State()) && !transferEncoding
      modifies this
      ensures State() == Ended(Config(), w, request, old(State()), mode, err, answer)
      decreases Left(Config(), State()), 0
    {
      var error := err;
      if (err == HE_DISCONNECTED || err == HE_CONNECT_FAILED || err == HE_SOCKET_ERROR)
         && scode == HC_INTERNAL_SERVER_ERROR && attempt_ < retries_ {
        attempt_ := attempt_ + 1;
        if !answer.rewinds {
          error := HE_STREAM;
        } else {
          Connect(w);
          return;
        }
      } else if err != HE_NONE {
        // Nothing more to try.
      } else if mode == HM_CONNECT {
        task := Sending;
        return;
      } else if mode == HM_SEND || IsInformational(scode) {
        task := Receiving;
        return;
      } else {
        var again;
        ResendingSpends(Config(), request, State(), answer);
        again, error := Resend(answer);
        if again {
          Start(w);
          return;
        }
      }
      Complete(error);
    }

    // A complete response: whether another request has been prepared.
    method Resend(answer: Answer) returns (again: bool, err: HttpError)
      requires Between(Config(), State())
      modifies this`redirects_, this`context_, this`verb, this`scode, this`heard
      ensures (if again then Again(State()) else Over(State(), err)) == Resent(Config(), request, old(State()), answer)
    {
      err := HE_NONE;
      var should := Redirects(answer.location);
      if should {
        if scode == HC_SEE_OTHER {
          verb := HV_GET;
        } else if !answer.rewinds {
          err := HE_STREAM;
        }
        if err == HE_NONE {
          redirects_ := redirects_ + 1;
          context_ := None;
          scode, heard := HC_INTERNAL_SERVER_ERROR, false;
          return true, err;
        }
      } else if scode == HC_PROXY_AUTHENTICATION_REQUIRED && proxied {
        var responded;
        responded, err := Authenticate(answer);
        if responded {
          scode, heard := HC_INTERNAL_SERVER_ERROR, false;
          return true, err;
        }
      }
      again := false;
    }

    // ShouldRedirect.
    method Redirects(location: bool) returns (should: bool)
      ensures should == ShouldRedirect(Config(), State(), location)
    {
      if redirect_action_ == REDIRECT_NEVER || !IsRedirection(scode) || !location || redirects_ >= MAX_REDIRECTS {
        return false;
      }
      should := redirect_action_ == REDIRECT_ALWAYS || scode == HC_SEE_OTHER || verb == HV_HEAD || verb == HV_GET;
    }
  }

  function Fresh(verb: Verb): Client {
    Client(0, 0, None, verb, HC_INTERNAL_SERVER_ERROR, false, Nothing, HE_NONE, 0, 0)
  }

  // What the network does: a step of the transaction ends, perhaps after the code of a response.
  datatype Event = Event(mode: HttpMode, err: HttpError, scode: Option<nat>, answer: Answer)

  function Heard(s: Client, e: Event): Client {
    if e.mode == HM_RECV && e.scode.Some? then s.(scode := e.scode.value, heard := true) else s
  }

  // One event after the other, until the request has been completed.
  function Events(u: Setup, w: World, r: Request, s: Client, events: seq<Event>, bound: nat): Client
    requires Settled(u, s, bound)
    decreases |events|
  {
    if events == [] || s.task == Nothing then s
    else
      var e := events[0];
      EndStaysWithin(u, w, r, Heard(s.(task := Nothing), e), e.mode, e.err, e.answer);
      Events(u, w, r, Ended(u, w, r, Heard(s.(task := Nothing), e), e.mode, e.err, e.answer), events[1..], bound)
  }

  function AtMost(u: Setup): nat { (MAX_REDIRECTS + 1) * (2 * (u.retries + 1)) }

  lemma WholeBudget(retries: nat)
    ensures 1 + Budget(0, None, retries, 0) == (MAX_REDIRECTS + 1) * (2 * (retries + 1))
  {
  }

  lemma FreshIsBounded(u: Setup, w: World, verb: Verb)
    ensures Between(u, Fresh(verb)) && Settled(u, Started(u, w, Fresh(verb)), AtMost(u))
  {
    StartStaysWithin(u, w, Fresh(verb));
    WholeBudget(u.retries);
  }

  /** From a fresh request, whatever the network does, there are at most so many connections
      and at most one completion; and exactly one unless the request is still at work. */
  lemma {:induction false} EventsAreBounded(u: Setup, w: World, r: Request, s: Client, events: seq<Event>, bound: nat)
    requires Settled(u, s, bound)
    ensures Settled(u, Events(u, w, r, s, events, bound), bound)
    decreases |events|
  {
    if events != [] && s.task != Nothing {
      var e := events[0];
      var t := Heard(s.(task := Nothing), e);
      EndStaysWithin(u, w, r, t, e.mode, e.err, e.answer);
      EventsAreBounded(u, w, r, Ended(u, w, r, t, e.mode, e.err, e.answer), events[1..], bound);
    }
  }

  method Run(client: HttpClient, w: World, events: seq<Event>)
    requires client.State() == Fresh(client.verb)
    modifies client
    ensures var u := client.Config();
            if client.transferEncoding then client.State() == old(client.State())
            else Settled(u, Started(u, w, old(client.State())), AtMost(u))
                 && client.State()
                    == Events(u, w, client.request, Started(u, w, old(client.State())), events, AtMost(u))
    ensures client.connects <= (MAX_REDIRECTS + 1) * (2 * (client.retries_ + 1))
    ensures client.completions == if client.task != Nothing || client.transferEncoding then 0 else 1
  {
    ghost var u, r, bound := client.Config(), client.request, AtMost(client.Config());
    FreshIsBounded(u, w, client.verb);
    client.Start(w);
    if client.transferEncoding {
      return;
    }
    ghost var first := client.State();
    var k := 0;
    assert events[0..] == events;
    while k < |events| && client.task != Nothing
      invariant k <= |events| && Settled(u, client.State(), bound) && u == client.Config()
      invariant Events(u, w, r, first, events, bound) == Events(u, w, r, client.State(), events[k..], bound)
      decreases |events| - k
    {
      assert events[k..][0] == events[k] && events[k..][1..] == events[k + 1..];
      ghost var s := client.State();
      client.task := Nothing;
      if events[k].mode == HM_RECV && events[k].scode.Some? {
        client.Hear(events[k].scode.value);
      }
      EndStaysWithin(u, w, r, client.State(), events[k].mode, events[k].err, events[k].answer);
      client.OnHttpComplete(w, events[k].mode, events[k].err, events[k].answer);
      k := k + 1;
    }
  }

  /** A server that answers with an internal server error and then drops the connection is
      asked again, although it has been heard. */
  lemma ServerErrorIsRetried(u: Setup, w: World, r: Request, s: Client, answer: Answer)
    requires Between(u, s) && s.attempt < u.retries && answer.rewinds && s.heard && s.scode == HC_INTERNAL_SERVER_ERROR
    ensures Ended(u, w, r, s, HM_RECV, HE_DISCONNECTED, answer).connects > s.connects
  {
    FailureStaysWithin(u, w, s, HE_DISCONNECTED, answer.rewinds);
  }
}
