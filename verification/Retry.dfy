/** The bounded retry loop of the proxy and the clamp that feeds it. */
module Retry {
  import opened Text
  import opened Headers

  /** `ended` is the body's own claim to hold no more data. */
  datatype Body = Body(data: string, ended: bool)

  datatype Request = Request(httpMethod: string, uri: string, version: string, headers: HeaderMap, body: Body)

  /** A body that says it has ended holds nothing. */
  predicate HonestBody(r: Request) {
    r.body.ended ==> r.body.data == ""
  }

  datatype RequestSnapshot = RequestSnapshot(
    httpMethod: string, uri: string, version: string, headers: HeaderMap, bodyIsReusable: bool)

  datatype Outcome<R> =
    | Answered(response: R)
    | ConnectorError(error: string)
    | TimedOut(error: string)

  datatype Result<R> = Ok(response: R) | Err(message: string)

  function Capture(r: Request): RequestSnapshot {
    RequestSnapshot(r.httpMethod, r.uri, r.version, r.headers, r.body.ended)
  }

  function RetryRequest(s: RequestSnapshot): Request {
    Request(s.httpMethod, s.uri, s.version, s.headers, Body("", true))
  }

  /** The result that an attempt leaves: its answer, or its error with the address. */
  predicate Leaves<R(==)>(o: Outcome<R>, addr: string, result: Result<R>) {
    && (o.Answered? ==> result == Ok(o.response))
    && (o.ConnectorError? ==> result == Err("Upstream connector error (" + o.error + "): " + addr))
    && (o.TimedOut? ==> result == Err("Upstream connector timeout (" + o.error + "): " + addr))
  }

  /** How many attempts are allowed. */
  function Limit(retries: nat, reusable: bool): nat {
    if reusable || retries == 0 then retries else 1
  }

  /** `n` attempts are right for the outcome stream: all but the last fail, and only the limit
      or an answer ends them. */
  ghost predicate RightNumber<R>(n: nat, limit: nat, upstream: nat -> Outcome<R>) {
    && n <= limit
    && (forall i :: 0 <= i < n - 1 ==> !upstream(i).Answered?)
    && (n < limit ==> n > 0 && upstream(n - 1).Answered?)
  }

  /** `forward_to_upstream`; `sent` lists the requests handed to the client, and attempt `i`
      meets the outcome `upstream(i)`. */
  method ForwardToUpstream<R>(
    initial: Request, upstream: nat -> Outcome<R>, retries: nat, snapshot: RequestSnapshot, addr: string)
    returns (result: Result<R>, sent: seq<Request>)
    ensures RightNumber(|sent|, Limit(retries, snapshot.bodyIsReusable), upstream)
    ensures forall i :: 0 <= i < |sent| ==> sent[i] == if i == 0 then initial else RetryRequest(snapshot)
    ensures if sent == [] then result == Err("Upstream connector timed out: " + addr)
            else Leaves(upstream(|sent| - 1), addr, result)
  {
    sent := [];
    var lastErr: Option<string> := None;
    var response: Option<R> := None;
    var first: Option<Request> := Some(initial);
    var attempt := 0;
    while attempt < retries
      invariant 0 <= attempt <= retries && attempt == |sent|
      invariant response.None?
      invariant first == if attempt == 0 then Some(initial) else None
      invariant forall i :: 0 <= i < |sent| ==> sent[i] == if i == 0 then initial else RetryRequest(snapshot)
      invariant forall i :: 0 <= i < |sent| ==> !upstream(i).Answered?
      invariant |sent| <= Limit(retries, snapshot.bodyIsReusable)
      invariant if sent == [] then lastErr == None
                else lastErr.Some? && Leaves(upstream(|sent| - 1), addr, Err(lastErr.value))
    {
      var request;
      if first.Some? {
        request := first.value;
        first := None;
      } else if snapshot.bodyIsReusable {
        request := RetryRequest(snapshot);
      } else {
        break;
      }
      sent := sent + [request];
      match upstream(attempt) {
        case Answered(r) =>
          response := Some(r);
          break;
        case ConnectorError(e) =>
          lastErr := Some("Upstream connector error (" + e + "): " + addr);
          if attempt + 1 == retries { break; }
        case TimedOut(e) =>
          lastErr := Some("Upstream connector timeout (" + e + "): " + addr);
          if attempt + 1 == retries { break; }
      }
      attempt := attempt + 1;
    }
    match response {
      case Some(r) => result := Ok(r);
      case None => result := Err(if lastErr.Some? then lastErr.value else "Upstream connector timed out: " + addr);
    }
  }

  /** The number of attempts is the least of the limit and one more than the leading failures,
      and it is the only right one. */
  lemma AttemptsClosedForm<R>(n: nat, limit: nat, failures: nat, upstream: nat -> Outcome<R>)
    requires forall i :: 0 <= i < failures ==> !upstream(i).Answered?
    requires upstream(failures).Answered? || limit <= failures
    ensures RightNumber(n, limit, upstream) <==> n == if limit <= failures then limit else failures + 1
  {
  }

  /** `backendRetries` of `parseAnnotations`: the parsed annotation, clamped. */
  method ClampRetries(parsed: Option<int>) returns (retries: int)
    ensures 1 <= retries <= 10
    ensures parsed.None? ==> retries == 1
    ensures parsed.Some? && 1 <= parsed.value <= 10 ==> retries == parsed.value
    ensures parsed.Some? && parsed.value < 1 ==> retries == 1
    ensures parsed.Some? && parsed.value > 10 ==> retries == 10
  {
    retries := 1;
    if parsed.Some? {
      retries := parsed.value;
    }
    if retries < 1 {
      retries := 1;
    } else if retries > 10 {
      retries := 10;
    }
  }

  /** The forwarding part of `proxy_handler`: at least one attempt whatever the configuration
      says, so the default message is never used; at most ten under the control plane's clamp.
      Replays differ from the initial request in the body alone, which they send empty. */
  method Forward<R>(initial: Request, upstream: nat -> Outcome<R>, configured: int, addr: string)
    returns (result: Result<R>, sent: seq<Request>)
    ensures 1 <= |sent| && (1 <= configured <= 10 ==> |sent| <= 10)
    ensures !initial.body.ended ==> |sent| == 1
    ensures forall i :: 0 <= i < |sent| ==> sent[i] == if i == 0 then initial else initial.(body := Body("", true))
    ensures (forall r :: r in sent ==> r == initial) <==> |sent| == 1 || HonestBody(initial)
    ensures Leaves(upstream(|sent| - 1), addr, result)
    ensures RightNumber(|sent|, if !initial.body.ended || configured < 1 then 1 else configured, upstream)
  {
    var snapshot := Capture(initial);
    var retries := if configured > 1 then configured else 1;
    result, sent := ForwardToUpstream(initial, upstream, retries, snapshot, addr);
    assert sent[0] in sent;
    if |sent| > 1 { assert sent[1] in sent; }
  }
}
