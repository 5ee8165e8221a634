// The oEmbed consumer request (`extract_json_for_oembed_link`, section 2.2 of
// the oEmbed specification): GET `<endpoint>?url=<url>`, follow `location`
// headers a bounded number of times, classify the last response received, and
// turn transport and JSON failures into `UnknownResponse`.
//
// The transport is a function from the request number to what that request
// produced (a response or a raised error); the JSON parser is a function that
// may fail. Both are parameters, so every server behaviour is covered.
module OEmbed {
  import opened Wrappers

  /**
   * An HTTP response: status code, `location` header if any, and body. The
   * body is `None` for responses that carry none (`res.body` is `nil`, as
   * for a 204).
   */
  datatype Response = Response(status: int, location: Option<string>, body: Option<string>)

  /**
   * A raised error: a `JSON::JSONError` (such as `JSON::ParserError`), or
   * any other error, named by its class. `Raised` never names a subclass of
   * `JSON::JSONError`; those are all `JsonError`.
   */
  datatype Fault = JsonError | Raised(className: string)

  /** What `JSON.parse(nil)` raises. */
  const NilBodyError: Fault := Raised("TypeError")

  /** What one request produced. */
  datatype Hop = Received(response: Response) | Failed(fault: Fault)

  /** The argument of `UnknownResponse`: the last response's code, or `'Error'` when there was none. */
  datatype Reason = Code(status: int) | NoCode

  /** The outcome of the call: the parsed document or the error it raises. */
  datatype Outcome<J> =
    | Parsed(document: J)
    | UnknownFormat
    | NotFound(url: string)
    | UnknownResponse(reason: Reason)
    | Reraised(fault: Fault)

  /** How the request loop ended: with a response to classify, or with an error raised by a request. */
  datatype Ending = Terminal(response: Response) | Aborted(last: Option<Response>, fault: Fault)

  /** The initial value of `max_redirects`. */
  const MaxRedirects: nat := 4
  /** The most requests one call issues. */
  const MaxRequests: nat := MaxRedirects + 1

  /** The status codes `Net::HTTPSuccess` stands for. */
  predicate IsSuccess(status: int) {
    200 <= status < 300
  }

  /** The rescue clause converts JSON errors and errors whose class name starts with `Net::`. */
  predicate Converted(f: Fault) {
    f.JsonError? || "Net::" <= f.className
  }

  // ---------------------------------------------------------------------
  // Specification of the request loop
  // ---------------------------------------------------------------------

  /**
   * The request loop from request n on, with `budget` redirects left and
   * `last` the response received most recently.
   */
  function Follow(server: nat -> Hop, n: nat, budget: nat, last: Option<Response>): Ending
    decreases budget
  {
    match server(n)
    case Failed(f) => Aborted(last, f)
    case Received(r) =>
      if r.location.None? || budget == 0 then Terminal(r)
      else Follow(server, n + 1, budget - 1, Some(r))
  }

  /** The request targets the loop sends from request n on, starting at `uri`. */
  function Targets(url: string, uri: string, server: nat -> Hop, n: nat, budget: nat): seq<string>
    decreases budget
  {
    [uri + "?url=" + url] +
      match server(n)
      case Failed(_) => []
      case Received(r) =>
        if r.location.None? || budget == 0 then []
        else Targets(url, r.location.value, server, n + 1, budget - 1)
  }

  /** The `rescue` clause: a converted error becomes `UnknownResponse` with the last code; others pass unchanged. */
  function Rescue<J>(f: Fault, last: Option<Response>): Outcome<J>
  {
    if Converted(f) then UnknownResponse(if last.Some? then Code(last.value.status) else NoCode)
    else Reraised(f)
  }

  /**
   * The `case res` classification of the final response. A failed parse, or
   * the error `JSON.parse` raises on a missing body, goes through `rescue`.
   */
  function Classify<J>(url: string, r: Response, parse: string -> Option<J>): Outcome<J>
  {
    if r.status == 501 then UnknownFormat
    else if r.status == 404 then NotFound(url)
    else if IsSuccess(r.status) then
      match r.body
      case None => Rescue(NilBodyError, Some(r))
      case Some(body) =>
        match parse(body)
        case Some(doc) => Parsed(doc)
        case None => Rescue(JsonError, Some(r))
    else UnknownResponse(Code(r.status))
  }

  /** The outcome of the whole call for the caller's `url`. */
  function Consume<J>(url: string, server: nat -> Hop, parse: string -> Option<J>): Outcome<J>
  {
    match Follow(server, 0, MaxRedirects, None)
    case Terminal(r) => Classify(url, r, parse)
    case Aborted(last, f) => Rescue(f, last)
  }

  // ---------------------------------------------------------------------
  // The consumer
  // ---------------------------------------------------------------------

  /**
   * `extract_json_for_oembed_link`: the `until found` loop over `uri`,
   * `found`, `max_redirects` and `res`, then the classification of `res`.
   * Also returns the request targets sent, in order.
   */
  method ExtractJsonForOEmbedLink<J>(url: string, endpoint: string, server: nat -> Hop, parse: string -> Option<J>)
    returns (outcome: Outcome<J>, requests: seq<string>)
    ensures outcome == Consume(url, server, parse)
    ensures requests == Targets(url, endpoint, server, 0, MaxRedirects)
  {
    var uri := endpoint;
    var found := false;
    var maxRedirects: nat := MaxRedirects;
    var res: Option<Response> := None;
    requests := [];
    ghost var n: nat := 0;
    while !found
      invariant |requests| == n
      invariant !found ==> n + maxRedirects == MaxRedirects
      invariant !found ==> Follow(server, n, maxRedirects, res) == Follow(server, 0, MaxRedirects, None)
      invariant !found ==> requests + Targets(url, uri, server, n, maxRedirects)
                           == Targets(url, endpoint, server, 0, MaxRedirects)
      invariant found ==> res.Some? && Follow(server, 0, MaxRedirects, None) == Terminal(res.value)
      invariant found ==> requests == Targets(url, endpoint, server, 0, MaxRedirects)
      decreases if found then 0 else maxRedirects + 1
    {
      var hop := server(|requests|);
      var target := uri + "?url=" + url;
      ghost var prev := requests;
      requests := requests + [target];
      match hop {
        case Failed(f) =>
          StepFailed(url, uri, server, n, maxRedirects, res);
          outcome := Rescue(f, res);
          return;
        case Received(r) =>
          if r.location.Some? && maxRedirects > 0 {
            StepRedirect(url, uri, server, n, maxRedirects, res);
            AppendAssoc(prev, [target], Targets(url, r.location.value, server, n + 1, maxRedirects - 1));
          } else {
            StepFinal(url, uri, server, n, maxRedirects, res);
          }
          res := Some(r);
          if r.location.Some? {
            uri := r.location.value;
          } else {
            found := true;
          }
          if maxRedirects == 0 {
            found := true;
          } else {
            maxRedirects := maxRedirects - 1;
          }
      }
      n := n + 1;
    }
    outcome := Classify(url, res.value, parse);
  }

  // One request of the loop, seen from the specification functions.

  lemma StepFailed(url: string, uri: string, server: nat -> Hop, n: nat, budget: nat, last: Option<Response>)
    requires server(n).Failed?
    ensures Targets(url, uri, server, n, budget) == [uri + "?url=" + url]
    ensures Follow(server, n, budget, last) == Aborted(last, server(n).fault)
  {
  }

  lemma StepRedirect(url: string, uri: string, server: nat -> Hop, n: nat, budget: nat, last: Option<Response>)
    requires server(n).Received? && server(n).response.location.Some? && budget > 0
    ensures Targets(url, uri, server, n, budget)
         == [uri + "?url=" + url] + Targets(url, server(n).response.location.value, server, n + 1, budget - 1)
    ensures Follow(server, n, budget, last) == Follow(server, n + 1, budget - 1, Some(server(n).response))
  {
  }

  lemma StepFinal(url: string, uri: string, server: nat -> Hop, n: nat, budget: nat, last: Option<Response>)
    requires server(n).Received? && (server(n).response.location.None? || budget == 0)
    ensures Targets(url, uri, server, n, budget) == [uri + "?url=" + url]
    ensures Follow(server, n, budget, last) == Terminal(server(n).response)
  {
  }

  // ---------------------------------------------------------------------
  // Properties of the request loop
  // ---------------------------------------------------------------------

  /** How the loop of one call ends. */
  function LoopEnding(server: nat -> Hop): Ending
  {
    Follow(server, 0, MaxRedirects, None)
  }

  /** Request n was answered with a redirect (a response carrying a `location` header). */
  predicate RedirectAt(server: nat -> Hop, n: nat) {
    server(n).Received? && server(n).response.location.Some?
  }

  /** The loop always ends: it sends at least one request and at most one more than its redirect budget. */
  lemma {:induction false} TargetsBound(url: string, uri: string, server: nat -> Hop, n: nat, budget: nat)
    ensures 1 <= |Targets(url, uri, server, n, budget)| <= budget + 1
    decreases budget
  {
    if RedirectAt(server, n) && budget > 0 {
      TargetsBound(url, server(n).response.location.value, server, n + 1, budget - 1);
    }
  }

  /**
   * Every request goes to the endpoint or to the previous response's
   * `location`, with `?url=` and the caller's URL appended.
   */
  lemma {:induction false} TargetsFollowLocations(url: string, uri: string, server: nat -> Hop, n: nat, budget: nat, i: nat)
    requires i + 1 < |Targets(url, uri, server, n, budget)|
    ensures Targets(url, uri, server, n, budget)[0] == uri + "?url=" + url
    ensures RedirectAt(server, n + i)
    ensures Targets(url, uri, server, n, budget)[i + 1] == server(n + i).response.location.value + "?url=" + url
    decreases budget
  {
    var loc := server(n).response.location.value;
    if i > 0 {
      TargetsFollowLocations(url, loc, server, n + 1, budget - 1, i - 1);
    }
  }

  /**
   * While the responses redirect, the loop moves from request to request,
   * one redirect of the budget at a time, remembering the latest response.
   */
  lemma {:induction false} FollowAlongRedirects(server: nat -> Hop, n: nat, budget: nat, last: Option<Response>, k: nat)
    requires k <= budget
    requires forall i :: n <= i < n + k ==> RedirectAt(server, i)
    ensures k > 0 ==> RedirectAt(server, n + k - 1)
    ensures Follow(server, n, budget, last)
         == Follow(server, n + k, budget - k, if k == 0 then last else Some(server(n + k - 1).response))
    decreases k
  {
    if k > 0 {
      assert RedirectAt(server, n);
      FollowAlongRedirects(server, n + 1, budget - 1, Some(server(n).response), k - 1);
    }
  }

  /** While the responses redirect, each of them adds one request. */
  lemma {:induction false} TargetsAlongRedirects(url: string, uri: string, server: nat -> Hop, n: nat, budget: nat, k: nat)
    requires 0 < k <= budget
    requires forall i :: n <= i < n + k ==> RedirectAt(server, i)
    ensures RedirectAt(server, n + k - 1)
    ensures |Targets(url, uri, server, n, budget)|
         == k + |Targets(url, server(n + k - 1).response.location.value, server, n + k, budget - k)|
    decreases k
  {
    assert RedirectAt(server, n);
    if k > 1 {
      TargetsAlongRedirects(url, server(n).response.location.value, server, n + 1, budget - 1, k - 1);
    }
  }

  /**
   * Against a server that always redirects, the loop sends exactly five
   * requests and classifies the fifth response instead of raising a
   * too-many-redirects error.
   */
  lemma AlwaysRedirectingServer<J>(url: string, endpoint: string, server: nat -> Hop, parse: string -> Option<J>)
    requires forall i :: 0 <= i < MaxRequests ==> RedirectAt(server, i)
    ensures RedirectAt(server, MaxRedirects)
    ensures |Targets(url, endpoint, server, 0, MaxRedirects)| == MaxRequests
    ensures LoopEnding(server) == Terminal(server(MaxRedirects).response)
    ensures Consume(url, server, parse) == Classify(url, server(MaxRedirects).response, parse)
  {
    FollowAlongRedirects(server, 0, MaxRedirects, None, MaxRedirects);
    TargetsAlongRedirects(url, endpoint, server, 0, MaxRedirects, MaxRedirects);
  }

  /**
   * When the first k responses redirect (k within the budget) and the next
   * one has no `location`, the loop sends k + 1 requests and classifies
   * that response.
   */
  lemma RedirectsThenAnswer<J>(url: string, endpoint: string, server: nat -> Hop, parse: string -> Option<J>, k: nat)
    requires k <= MaxRedirects
    requires forall i :: 0 <= i < k ==> RedirectAt(server, i)
    requires server(k).Received? && server(k).response.location.None?
    ensures |Targets(url, endpoint, server, 0, MaxRedirects)| == k + 1
    ensures LoopEnding(server) == Terminal(server(k).response)
    ensures Consume(url, server, parse) == Classify(url, server(k).response, parse)
  {
    FollowAlongRedirects(server, 0, MaxRedirects, None, k);
    if k > 0 {
      TargetsAlongRedirects(url, endpoint, server, 0, MaxRedirects, k);
    }
  }

  /**
   * A 404 after any number of redirects within the budget yields `NotFound`
   * carrying the caller's URL, not the location the loop was redirected to.
   */
  lemma NotFoundAfterRedirects<J>(url: string, server: nat -> Hop, parse: string -> Option<J>, k: nat)
    requires k <= MaxRedirects
    requires forall i :: 0 <= i < k ==> RedirectAt(server, i)
    requires server(k).Received? && server(k).response.status == 404
    requires server(k).response.location.None? || k == MaxRedirects
    ensures Consume(url, server, parse) == NotFound(url)
  {
    FollowAlongRedirects(server, 0, MaxRedirects, None, k);
  }

  /**
   * An error raised by request k (after k redirects within the budget) is
   * converted to `UnknownResponse` carrying the code of the response to
   * request k - 1, or `'Error'` for the first request, when it is a JSON or
   * `Net::` error; any other error is raised again unchanged.
   */
  lemma FaultAfterRedirects<J>(url: string, server: nat -> Hop, parse: string -> Option<J>, k: nat)
    requires k <= MaxRedirects
    requires forall i :: 0 <= i < k ==> RedirectAt(server, i)
    requires server(k).Failed?
    ensures Converted(server(k).fault) && k == 0 ==> Consume(url, server, parse) == UnknownResponse(NoCode)
    ensures Converted(server(k).fault) && k > 0 && RedirectAt(server, k - 1)
            ==> Consume(url, server, parse) == UnknownResponse(Code(server(k - 1).response.status))
    ensures !Converted(server(k).fault) ==> Consume(url, server, parse) == Reraised(server(k).fault)
  {
    FollowAlongRedirects(server, 0, MaxRedirects, None, k);
  }

  /**
   * Where each outcome comes from. `UnknownFormat`, `NotFound` and `Parsed`
   * come only from a final 501, 404 and parsable 2xx response, and
   * `NotFound` always names the caller's URL. A 2xx body that does not parse
   * and any other final status yield `UnknownResponse` with that response's
   * code. Only unconverted errors are raised again, unchanged, and so is the
   * `TypeError` of a 2xx response without a body.
   */
  lemma OutcomeOrigins<J>(url: string, server: nat -> Hop, parse: string -> Option<J>)
    ensures var e, o := LoopEnding(server), Consume(url, server, parse);
            (o == UnknownFormat <==> e.Terminal? && e.response.status == 501)
            && (o.NotFound? <==> e.Terminal? && e.response.status == 404)
            && (o.NotFound? ==> o.url == url)
            && (o.Parsed? <==> e.Terminal? && IsSuccess(e.response.status)
                               && e.response.body.Some? && parse(e.response.body.value).Some?)
            && (o.Parsed? ==> parse(e.response.body.value) == Some(o.document))
            && (e.Terminal? && IsSuccess(e.response.status) && e.response.body.Some?
                && parse(e.response.body.value).None?
                ==> o == UnknownResponse(Code(e.response.status)))
            && (e.Terminal? && e.response.status != 501 && e.response.status != 404 && !IsSuccess(e.response.status)
                ==> o == UnknownResponse(Code(e.response.status)))
            && (o.Reraised? <==> (e.Aborted? && !Converted(e.fault))
                                 || (e.Terminal? && IsSuccess(e.response.status) && e.response.body.None?))
            && (o.Reraised? && e.Aborted? ==> o.fault == e.fault)
            && (e.Terminal? && IsSuccess(e.response.status) && e.response.body.None? ==> o == Reraised(NilBodyError))
            && (e.Aborted? && Converted(e.fault)
                ==> o == UnknownResponse(if e.last.Some? then Code(e.last.value.status) else NoCode))
  {
    assert NilBodyError.className[0] != "Net::"[0];
  }

  /** The two ways `rescue` can rewrite an error: JSON errors and `Net::` errors are converted, nothing else is. */
  lemma RescueConvertsOnlyKnownErrors<J>(f: Fault, last: Option<Response>)
    ensures (Rescue<J>(f, last).UnknownResponse?) <==> (f.JsonError? || "Net::" <= f.className)
    ensures !(f.JsonError? || "Net::" <= f.className) ==> Rescue<J>(f, last) == Reraised(f)
  {
  }
}
