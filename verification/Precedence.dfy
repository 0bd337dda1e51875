/** The precedence that priorities computed in Go give after the second sort in Rust:
    an Exact route first, otherwise a longest byte prefix, the host's own routes before
    the routes without a host. */
module Precedence {
  import opened Text
  import opened Sorting
  import opened RouteTable
  import ControlPlane
  import Wire

  /** The longest route path whose priority fits `int32` whatever its type. */
  const LONGEST_PATH := 0x7FFF_FFFF - 3 * ControlPlane.PRIORITY_STEP

  /** The priority the control plane sends for a route. */
  predicate Prioritised(r: Wire.Route) {
    r.priority == Wire.ToInt32(ControlPlane.RoutePriority(r.path, r.pathType))
  }

  /** Route `i` is what the bucket of `h` should answer: Exact if any candidate is Exact,
      otherwise no candidate is longer. */
  ghost predicate Preferred(routes: seq<Wire.Route>, h: string, path: string, i: nat) {
    && i < |routes| && Candidate(routes[i], h, path)
    && forall j :: 0 <= j < |routes| && Candidate(routes[j], h, path) ==>
         if routes[i].pathType.Exact? then true
         else !routes[j].pathType.Exact? && |routes[j].path| <= |routes[i].path|
  }

  ghost predicate Answers(routes: seq<Wire.Route>, h: string, path: string, out: Option<RouteRule>) {
    exists i: nat :: Preferred(routes, h, path, i) && out == Some(RuleOf(routes[i]))
  }

  /** The intended answer: the empty-host bucket is consulted only when the host's has no match. */
  ghost predicate Intended(routes: seq<Wire.Route>, host: string, path: string, out: Option<RouteRule>) {
    if Applicable(routes, host, path) then Answers(routes, host, path, out)
    else if Applicable(routes, "", path) then Answers(routes, "", path, out)
    else out == None
  }

  function Choose(routes: seq<Wire.Route>, host: string, path: string): Option<RouteRule> {
    ChooseRoute(Table(RouteIndex(routes), map[]), host, path)
  }

  /** Every route is within the bound, or too long to apply to `path` at all. */
  ghost predicate Fits(routes: seq<Wire.Route>, path: string) {
    forall r :: r in routes ==> |r.path| <= LONGEST_PATH || |path| < |r.path|
  }

  /** A route that applies to `path` is never longer than it, so an Exact candidate is at least as
      long as every other, and outranks every Prefix candidate. */
  lemma CandidatePriority(r: Wire.Route, h: string, path: string)
    requires Prioritised(r) && Candidate(r, h, path) && (|r.path| <= LONGEST_PATH || |path| < |r.path|)
    ensures r.priority == ControlPlane.RoutePriority(r.path, r.pathType)
    ensures |r.path| <= |path|
    ensures r.pathType.Exact? ==> r.path == path
  {
  }

  lemma ScanIsPreferred(routes: seq<Wire.Route>, h: string, path: string) returns (i: nat)
    requires forall r :: r in routes ==> Prioritised(r)
    requires Fits(routes, path) && ScanFor(routes, h, path).Some?
    ensures Preferred(routes, h, path, i) && ScanFor(routes, h, path) == Some(routes[i])
  {
    i := BestMatchPosition(routes, CandidateFor(h, path), RouteTable.RouteLess);
    CandidatePriority(routes[i], h, path);
    forall j | 0 <= j < |routes| && Candidate(routes[j], h, path)
      ensures routes[i].pathType.Exact?
              || (!routes[j].pathType.Exact? && |routes[j].path| <= |routes[i].path|)
    {
      assert CandidateFor(h, path)(routes[j]);
      CandidatePriority(routes[j], h, path);
    }
  }

  lemma IntendedPrecedence(routes: seq<Wire.Route>, host: string, path: string)
    requires forall r :: r in routes ==> Prioritised(r)
    requires Fits(routes, path)
    ensures Intended(routes, host, path, Choose(routes, host, path))
  {
    IndexedLookupIsScan(routes, map[], host, path);
    ScanWins(routes, host, path);
    ScanWins(routes, "", path);
    if Applicable(routes, host, path) {
      var i := ScanIsPreferred(routes, host, path);
    } else if Applicable(routes, "", path) {
      var i := ScanIsPreferred(routes, "", path);
    }
  }

  /** Two Prefix or Exact routes without a host; the second wins on the wire. */
  lemma SecondRouteWins(a: Wire.Route, b: Wire.Route, path: string)
    requires Candidate(a, "", path) && Candidate(b, "", path)
    requires a.priority < b.priority
    ensures Choose([a, b], "", path) == Some(RuleOf(b))
  {
    var routes := [a, b];
    assert routes[0] == a && routes[1] == b;
    ChosenRouteWins(routes, map[], "", path);
    var i: nat :| Wins(routes, "", path, i) && Keeps(Choose(routes, "", path).value, routes[i]);
    assert !Wins(routes, "", path, 0);
  }

  function HostlessRoute(path: string, pt: Wire.PathType): (r: Wire.Route)
    ensures Prioritised(r)
  {
    Wire.Route("", path, pt, "", Wire.ToInt32(ControlPlane.RoutePriority(path, pt)))
  }

  /** `b` wins although only `a` is preferred. */
  lemma WrongWinner(a: Wire.Route, b: Wire.Route, path: string)
    requires Candidate(a, "", path) && Candidate(b, "", path)
    requires a.priority < b.priority && b.pathType.Prefix?
    requires a.pathType.Exact? || |b.path| < |a.path|
    ensures !Intended([a, b], "", path, Choose([a, b], "", path))
  {
    var routes := [a, b];
    SecondRouteWins(a, b, path);
    assert routes[0] == a && routes[1] == b;
    assert !Preferred(routes, "", path, 1);
    assert RuleOf(a) != RuleOf(b);
  }

  /** Past the bound the 32-bit priority wraps and the precedence is lost. */
  lemma LongPathsLosePrecedence(path: string) returns (routes: seq<Wire.Route>)
    requires |path| > LONGEST_PATH
    ensures forall r :: r in routes ==> Prioritised(r) && |r.path| <= |path|
    ensures !Intended(routes, "", path, Choose(routes, "", path))
  {
    var wrap := 0x7FFF_FFFF - 2 * ControlPlane.PRIORITY_STEP;
    var a, b: Wire.Route;
    if |path| <= wrap {
      // the Exact route's priority is negative, the empty prefix's is two million
      a, b := HostlessRoute(path, Wire.Exact), HostlessRoute("", Wire.Prefix);
    } else {
      // one byte more than `wrap` turns the largest priority into the smallest
      a, b := HostlessRoute(path[..wrap + 1], Wire.Prefix), HostlessRoute(path[..wrap], Wire.Prefix);
    }
    PrefixIff(a.path, path);
    PrefixIff(b.path, path);
    assert Lower("") == "";
    WrongWinner(a, b, path);
    routes := [a, b];
  }

  ghost predicate KeepsPrecedence(path: string) {
    forall routes, host :: (forall r :: r in routes ==> Prioritised(r)) ==>
      Intended(routes, host, path, Choose(routes, host, path))
  }

  /** The precedence holds for a request path exactly when it is no longer than the bound. */
  lemma PrecedenceIff(path: string)
    ensures KeepsPrecedence(path) <==> |path| <= LONGEST_PATH
  {
    if |path| <= LONGEST_PATH {
      forall routes, host | forall r :: r in routes ==> Prioritised(r)
        ensures Intended(routes, host, path, Choose(routes, host, path))
      {
        IntendedPrecedence(routes, host, path);
      }
    } else {
      var routes := LongPathsLosePrecedence(path);
    }
  }

  /** Route paths of at most `n` bytes keep the precedence for every request path. */
  ghost predicate BoundKeepsPrecedence(n: nat) {
    forall routes, host, path :: (forall r :: r in routes ==> Prioritised(r) && |r.path| <= n) ==>
      Intended(routes, host, path, Choose(routes, host, path))
  }

  /** Bounding the route paths instead of the request path: the same bound is the exact one, and
      the 1,000,000 between the ranks is well inside it. */
  lemma RouteBoundIff(n: nat)
    ensures BoundKeepsPrecedence(n) <==> n <= LONGEST_PATH
    ensures ControlPlane.PRIORITY_STEP <= LONGEST_PATH
  {
    if n <= LONGEST_PATH {
      forall routes, host, path | forall r :: r in routes ==> Prioritised(r) && |r.path| <= n
        ensures Intended(routes, host, path, Choose(routes, host, path))
      {
        IntendedPrecedence(routes, host, path);
      }
    } else {
      var path := seq(LONGEST_PATH + 1, _ => 'a');
      var routes := LongPathsLosePrecedence(path);
    }
  }
}
