/** From Ingress targets to the proxy's decision: the compiled, sent and indexed snapshot
    answers each request as the targets say, except that a capital letter in a route's host or
    path makes its cluster unreachable. */
module EndToEnd {
  import opened Text
  import opened Sorting
  import opened ControlPlane
  import opened Canonical
  import RT = RouteTable
  import Precedence
  import Wire

  // ---- cluster resolution --------------------------------------------------------

  /** Position `k` is the last cluster inserted under key `n`. */
  ghost predicate LastUnder(cs: seq<Wire.Cluster>, n: string, k: nat) {
    && k < |cs| && RT.KnownPolicy(cs[k].lbPolicy) && Lower(cs[k].name) == n
    && forall m :: k < m < |cs| && RT.KnownPolicy(cs[m].lbPolicy) ==> Lower(cs[m].name) != n
  }

  lemma {:induction false} ClusterIndexLast(cs: seq<Wire.Cluster>, n: string, k: nat)
    requires LastUnder(cs, n, k)
    ensures n in RT.ClusterIndex(cs) && RT.ClusterIndex(cs)[n] == cs[k]
  {
    var z := |cs| - 1;
    if k < z {
      assert cs[..z][k] == cs[k];
      assert forall m :: k < m < z ==> cs[..z][m] == cs[m];
      ClusterIndexLast(cs[..z], n, k);
    }
  }

  lemma {:induction false} ClusterIndexLower(cs: seq<Wire.Cluster>)
    ensures forall n :: n in RT.ClusterIndex(cs) ==> !HasUpper(n)
  {
    if cs != [] {
      var z := |cs| - 1;
      ClusterIndexLower(cs[..z]);
      LowerFixedPoint(cs[z].name);
    }
  }

  lemma {:induction false} FindLastUnder(cs: seq<Wire.Cluster>, n: string, k: nat)
    requires k < |cs| && RT.KnownPolicy(cs[k].lbPolicy) && Lower(cs[k].name) == n
    ensures exists m: nat :: k <= m && LastUnder(cs, n, m)
    decreases |cs| - k
  {
    if j :| k < j < |cs| && RT.KnownPolicy(cs[j].lbPolicy) && Lower(cs[j].name) == n {
      FindLastUnder(cs, n, j);
    } else {
      assert LastUnder(cs, n, k);
    }
  }

  /** In a sorted cluster list, a cluster is found under its own name exactly when the name has no
      capital letter; what is found then bears that very name, because the case variants of a
      lowercase name sort, and are inserted, before it. */
  lemma ResolvesIff(cs: seq<Wire.Cluster>, k: nat)
    requires Sorted(cs, ClusterLess)
    requires forall i :: 0 <= i < |cs| ==> RT.KnownPolicy(cs[i].lbPolicy)
    requires k < |cs|
    ensures cs[k].name in RT.ClusterIndex(cs) <==> !HasUpper(cs[k].name)
    ensures !HasUpper(cs[k].name) ==>
              RT.ClusterIndex(cs)[cs[k].name] in cs && RT.ClusterIndex(cs)[cs[k].name].name == cs[k].name
  {
    var n := cs[k].name;
    ClusterIndexLower(cs);
    if !HasUpper(n) {
      LowerFixedPoint(n);
      FindLastUnder(cs, n, k);
      var m: nat :| k <= m && LastUnder(cs, n, m);
      ClusterIndexLast(cs, n, m);
      if cs[m].name != n {
        LowercaseIsGreatest(cs[m].name, n);
        assert false;
      }
    }
  }

  // ---- the proxy's decision ------------------------------------------------------

  datatype Decision =
    | RouteNotFound     // 404 route not found
    | ClusterNotFound   // 404 cluster rules not found
    | EndpointNotFound  // 502 endpoint not found
    | Forward(cluster: Wire.Cluster)

  /** The lookups of `proxy_handler` on one table. */
  function Decide(t: RT.Table, host: string, path: string): Decision {
    match RT.ChooseRoute(t, host, path)
    case None => RouteNotFound
    case Some(rule) =>
      match RT.GetCluster(t, rule.cluster)
      case None => ClusterNotFound
      case Some(c) => if c.endpoints == [] then EndpointNotFound else Forward(c)
  }

  /** An Exact entry applies to its path, a Prefix entry to every path it begins. */
  ghost predicate EntryApplies(e: Entry, h: string, path: string) {
    && Lower(e.host) == h
    && (|| (e.endpoint.pathType.value == Wire.Exact && e.path == path)
        || (e.endpoint.pathType.value == Wire.Prefix && Begins(e.path, path)))
  }

  /** The sent route of an entry applies when the entry does. */
  lemma EntryCandidate(e: Entry, h: string, path: string)
    ensures RT.Candidate(PbRoute(RouteOf(e)), h, path) <==> EntryApplies(e, h, path)
  {
  }

  ghost predicate SomeEntryApplies(bag: multiset<Entry>, h: string, path: string) {
    exists e :: e in bag && EntryApplies(e, h, path)
  }

  predicate IsExact(e: Entry) {
    e.endpoint.pathType.value.Exact?
  }

  /** `e` is the entry that should serve: Exact if there is one, otherwise a longest prefix. */
  ghost predicate Serves(bag: multiset<Entry>, h: string, path: string, e: Entry) {
    && e in bag && EntryApplies(e, h, path)
    && forall e' :: e' in bag && EntryApplies(e', h, path) ==>
         IsExact(e) || (!IsExact(e') && |e'.path| <= |e.path|)
  }

  predicate SameCluster(e: Entry, e': Entry) {
    ClusterName(e.host, e.path) == ClusterName(e'.host, e'.path)
  }

  /** What becomes of a request that `e` should serve, when `e'` gave its cluster: it is forwarded
      to the addresses of `e'`, if any, on its port and with its settings. */
  predicate Outcome(e: Entry, e': Entry, d: Decision) {
    if HasUpper(e.host) || HasUpper(e.path) then d == ClusterNotFound
    else if e'.endpoint.addresses == [] then d == EndpointNotFound
    else d.Forward? && Carries(d.cluster, e'.host, e'.path, e'.endpoint)
  }

  /** A serving entry decides, through a cluster of its own name. */
  ghost predicate ServedBy(bag: multiset<Entry>, h: string, path: string, d: Decision) {
    exists e, e' :: Serves(bag, h, path, e) && e' in bag && SameCluster(e, e') && Outcome(e, e', d)
  }

  /** Every entry has a policy the data plane knows, as the Ingress parser ensures. */
  ghost predicate Serviceable(bag: multiset<Entry>) {
    forall e :: e in bag ==> RT.KnownPolicy(e.endpoint.lbAlgorithm)
  }

  /** Every entry has an address, as the rule builder ensures. */
  ghost predicate Addressed(bag: multiset<Entry>) {
    forall e :: e in bag ==> e.endpoint.addresses != []
  }

  /** The table that the data plane builds from the sent snapshot. */
  function Received(routes: seq<Route>, clusters: seq<Wire.Cluster>): RT.Table {
    RT.Table(RT.RouteIndex(PbRoutes(routes)), RT.ClusterIndex(clusters))
  }

  lemma CandidatesAreEntries(routes: seq<Route>, es: seq<Entry>, h: string, path: string)
    requires multiset(routes) == multiset(RoutesOf(es))
    ensures RT.Applicable(PbRoutes(routes), h, path) <==> SomeEntryApplies(multiset(es), h, path)
  {
    var pb := PbRoutes(routes);
    if RT.Applicable(pb, h, path) {
      var i :| 0 <= i < |pb| && RT.Candidate(pb[i], h, path);
      var e := Preimage(RouteOf, es, routes, routes[i]);
      assert e in multiset(es) && pb[i] == PbRoute(RouteOf(e));
      EntryCandidate(e, h, path);
    }
    if SomeEntryApplies(multiset(es), h, path) {
      var e :| e in multiset(es) && EntryApplies(e, h, path);
      var i := ImagePosition(RouteOf, es, routes, e);
      assert pb[i] == PbRoute(RouteOf(e));
      EntryCandidate(e, h, path);
    }
  }

  lemma PreferredIsServing(routes: seq<Route>, es: seq<Entry>, h: string, path: string, i: nat) returns (e: Entry)
    requires multiset(routes) == multiset(RoutesOf(es))
    requires Precedence.Preferred(PbRoutes(routes), h, path, i)
    ensures Serves(multiset(es), h, path, e) && PbRoutes(routes)[i] == PbRoute(RouteOf(e))
  {
    var pb := PbRoutes(routes);
    e := Preimage(RouteOf, es, routes, routes[i]);
    assert e in multiset(es) && pb[i] == PbRoute(RouteOf(e));
    EntryCandidate(e, h, path);
    forall e' | e' in multiset(es) && EntryApplies(e', h, path)
      ensures IsExact(e) || (!IsExact(e') && |e'.path| <= |e.path|)
    {
      var j := ImagePosition(RouteOf, es, routes, e');
      assert pb[j] == PbRoute(RouteOf(e'));
      EntryCandidate(e', h, path);
    }
  }

  /** The cluster name of an entry resolves to a cluster compiled from an entry of that name, or,
      when it has a capital letter, not at all. */
  lemma EntryResolves(clusters: seq<Wire.Cluster>, es: seq<Entry>, e: Entry) returns (e': Entry)
    requires IsSortOf(clusters, ClustersOf(es), ClusterLess)
    requires Serviceable(multiset(es)) && e in es
    ensures e' in es && SameCluster(e, e')
    ensures ClusterName(e.host, e.path) in RT.ClusterIndex(clusters) <==> !HasUpper(e.host) && !HasUpper(e.path)
    ensures !HasUpper(e.host) && !HasUpper(e.path) ==>
              RT.ClusterIndex(clusters)[ClusterName(e.host, e.path)] == ClusterOf(e')
  {
    HasUpperConcat(e.host + "|", e.path);
    HasUpperConcat(e.host, "|");
    forall i | 0 <= i < |clusters| ensures RT.KnownPolicy(clusters[i].lbPolicy) {
      var x := Preimage(ClusterOf, es, clusters, clusters[i]);
      assert x in multiset(es);
    }
    var k := ImagePosition(ClusterOf, es, clusters, e);
    ResolvesIff(clusters, k);
    e' := e;
    if !HasUpper(e.host) && !HasUpper(e.path) {
      e' := Preimage(ClusterOf, es, clusters, RT.ClusterIndex(clusters)[ClusterName(e.host, e.path)]);
    }
  }

  lemma AnswerIsServed(routes: seq<Route>, clusters: seq<Wire.Cluster>, es: seq<Entry>, host: string, h: string, path: string)
    requires multiset(routes) == multiset(RoutesOf(es))
    requires IsSortOf(clusters, ClustersOf(es), ClusterLess)
    requires Serviceable(multiset(es))
    requires Precedence.Answers(PbRoutes(routes), h, path, RT.ChooseRoute(Received(routes, clusters), host, path))
    ensures ServedBy(multiset(es), h, path, Decide(Received(routes, clusters), host, path))
  {
    var out := RT.ChooseRoute(Received(routes, clusters), host, path);
    var i: nat :| Precedence.Preferred(PbRoutes(routes), h, path, i) && out == Some(RT.RuleOf(PbRoutes(routes)[i]));
    var e := PreferredIsServing(routes, es, h, path, i);
    var e' := EntryResolves(clusters, es, e);
    assert e' in multiset(es);
    assert Carries(ClusterOf(e'), e'.host, e'.path, e'.endpoint);
    assert Outcome(e, e', Decide(Received(routes, clusters), host, path));
  }

  /** Every entry's path is within the bound on priorities, as it always is when the request's is,
      or too long to apply. */
  ghost predicate EntriesFit(bag: multiset<Entry>, path: string) {
    forall e :: e in bag ==> |e.path| <= Precedence.LONGEST_PATH || |path| < |e.path|
  }

  /** The decision that the entries call for: the host's entries serve, otherwise those without a
      host, otherwise nobody. */
  ghost predicate DecidedBy(bag: multiset<Entry>, host: string, path: string, d: Decision) {
    if SomeEntryApplies(bag, host, path) then ServedBy(bag, host, path, d)
    else if SomeEntryApplies(bag, "", path) then ServedBy(bag, "", path, d)
    else d == RouteNotFound
  }

  /** The decision for every request, in terms of the targets alone. */
  lemma RequestsAreServed(
    ts: seq<TargetProxy>, routes: seq<Route>, clusters: seq<Wire.Cluster>, host: string, path: string)
    requires IsSnapshotOf(routes, clusters, ts) && Serviceable(EntryBag(ts))
    requires EntriesFit(EntryBag(ts), path)
    ensures DecidedBy(EntryBag(ts), host, path, Decide(Received(routes, clusters), host, path))
  {
    var es :| IsSnapshotVia(routes, clusters, ts, es);
    var pb := PbRoutes(routes);
    forall r | r in pb
      ensures Precedence.Prioritised(r) && (|r.path| <= Precedence.LONGEST_PATH || |path| < |r.path|)
    {
      var i :| 0 <= i < |pb| && pb[i] == r;
      var e := Preimage(RouteOf, es, routes, routes[i]);
      assert r == PbRoute(RouteOf(e)) && e in multiset(es);
    }
    Precedence.IntendedPrecedence(pb, host, path);
    RT.IndexedLookupIsScan(pb, map[], host, path);
    RT.IndexedLookupIsScan(pb, RT.ClusterIndex(clusters), host, path);
    CandidatesAreEntries(routes, es, host, path);
    CandidatesAreEntries(routes, es, "", path);
    if SomeEntryApplies(multiset(es), host, path) {
      AnswerIsServed(routes, clusters, es, host, host, path);
    } else if SomeEntryApplies(multiset(es), "", path) {
      AnswerIsServed(routes, clusters, es, host, "", path);
    }
  }

  /** An entry with addresses never leaves a request without an endpoint. */
  lemma EndpointsAreFound(bag: multiset<Entry>, host: string, path: string, d: Decision)
    requires DecidedBy(bag, host, path, d) && Addressed(bag)
    ensures d != EndpointNotFound
  {
  }

  /** With distinct (host, path) pairs, and no host that extends another by a bar, the cluster is the
      serving entry's own. */
  lemma OwnClusterServes(bag: multiset<Entry>, h: string, path: string, d: Decision)
    requires WellKeyed(bag) && ServedBy(bag, h, path, d)
    ensures exists e :: Serves(bag, h, path, e) && Outcome(e, e, d)
  {
    var e, e' :| Serves(bag, h, path, e) && e' in bag && SameCluster(e, e') && Outcome(e, e', d);
    ClusterNameInjective(e.host, e.path, e'.host, e'.path);
  }

  /** `extract_host` lowercases a Host header but not a URI authority. A host that still has a
      capital letter matches no route's host, so only routes without a host can serve it. */
  lemma CapitalHostMatchesNoHost(bag: multiset<Entry>, host: string, path: string)
    requires HasUpper(host)
    ensures !SomeEntryApplies(bag, host, path)
  {
    forall e | e in bag ensures !EntryApplies(e, host, path) {
      LowerFixedPoint(e.host);
    }
  }
}
