/** The data plane's route index: `RouteTable::new`, `choose_route` and the cluster map. */
module RouteTable {
  import opened Text
  import opened Sorting
  import Wire

  /** The path types the data plane keeps. */
  datatype MatchType = PrefixMatch | ExactMatch

  datatype RouteRule = RouteRule(path: string, matchType: MatchType, cluster: string, priority: int)

  datatype Table = Table(routesByHost: map<string, seq<RouteRule>>, clusters: map<string, Wire.Cluster>)

  /** `PathType::parse`. */
  function ParsePathType(pt: Wire.PathType): Option<MatchType> {
    match pt
    case Prefix => Some(PrefixMatch)
    case Exact => Some(ExactMatch)
    case _ => None
  }

  /** `LBPolicy::parse(..).is_some()`. */
  predicate KnownPolicy(lb: Wire.LbPolicy) {
    lb.RoundRobin? || lb.LeastConn?
  }

  /** The comparator of the bucket sort: priority, then path length, then Exact before Prefix. */
  predicate RuleLess(a: RouteRule, b: RouteRule) {
    if a.priority != b.priority then a.priority > b.priority
    else if |a.path| != |b.path| then |a.path| > |b.path|
    else a.matchType.ExactMatch? && b.matchType.PrefixMatch?
  }

  lemma RuleLessIsStrictWeakOrder()
    ensures StrictWeakOrder(RuleLess)
  {
  }

  /** The test of `match_in_bucket`. */
  predicate RuleMatches(r: RouteRule, path: string) {
    match r.matchType
    case ExactMatch => r.path == path
    case PrefixMatch => IsPrefix(r.path, path)
  }

  function Matching(path: string): RouteRule -> bool {
    (r: RouteRule) => RuleMatches(r, path)
  }

  function MatchInBucket(rules: seq<RouteRule>, path: string): Option<RouteRule> {
    FirstMatch(rules, Matching(path))
  }

  function ChooseRoute(t: Table, host: string, path: string): Option<RouteRule> {
    var byHost := if host in t.routesByHost then MatchInBucket(t.routesByHost[host], path) else None;
    if byHost.Some? then byHost
    else if "" in t.routesByHost then MatchInBucket(t.routesByHost[""], path)
    else None
  }

  /** `get_cluster_rules`: the name is looked up as written. */
  function GetCluster(t: Table, name: string): Option<Wire.Cluster> {
    if name in t.clusters then Some(t.clusters[name]) else None
  }

  // ---- specification of the index ---------------------------------------------

  predicate Kept(r: Wire.Route) {
    ParsePathType(r.pathType).Some?
  }

  function RuleOf(r: Wire.Route): RouteRule
    requires Kept(r)
  {
    RouteRule(r.path, ParsePathType(r.pathType).value, r.cluster, r.priority)
  }

  /** The rules filed under host `h`, in snapshot order. */
  function Bucket(routes: seq<Wire.Route>, h: string): seq<RouteRule> {
    if routes == [] then []
    else
      var r := routes[|routes| - 1];
      Bucket(routes[..|routes| - 1], h) + if Kept(r) && Lower(r.host) == h then [RuleOf(r)] else []
  }

  function Hosts(routes: seq<Wire.Route>): set<string> {
    set i | 0 <= i < |routes| && Kept(routes[i]) :: Lower(routes[i].host)
  }

  function RouteIndex(routes: seq<Wire.Route>): map<string, seq<RouteRule>> {
    map h | h in Hosts(routes) :: StableSort(Bucket(routes, h), RuleLess)
  }

  /** The cluster map: keys are lowercased and a later insertion replaces an earlier one. */
  function ClusterIndex(clusters: seq<Wire.Cluster>): map<string, Wire.Cluster> {
    if clusters == [] then map[]
    else
      var c := clusters[|clusters| - 1];
      var m := ClusterIndex(clusters[..|clusters| - 1]);
      if KnownPolicy(c.lbPolicy) then m[Lower(c.name) := c] else m
  }

  // ---- construction -------------------------------------------------------------

  /** The rules filed under `h` so far. */
  function Filed(buckets: map<string, seq<RouteRule>>, h: string): seq<RouteRule> {
    if h in buckets then buckets[h] else []
  }

  ghost predicate FiledAll(buckets: map<string, seq<RouteRule>>, routes: seq<Wire.Route>) {
    && buckets.Keys == Hosts(routes)
    && forall h :: Filed(buckets, h) == Bucket(routes, h)
  }

  lemma FileOne(buckets: map<string, seq<RouteRule>>, routes: seq<Wire.Route>, i: nat)
    requires i < |routes| && FiledAll(buckets, routes[..i])
    ensures var r := routes[i];
            FiledAll(if Kept(r) then buckets[Lower(r.host) := Filed(buckets, Lower(r.host)) + [RuleOf(r)]] else buckets,
                     routes[..i + 1])
  {
    var r, before, after := routes[i], routes[..i], routes[..i + 1];
    assert after[..i] == before && after[i] == r;
    HostsStep(routes, i);
    forall h ensures Bucket(after, h) == Bucket(before, h) + if Kept(r) && Lower(r.host) == h then [RuleOf(r)] else [] { }
    if !Kept(r) {
      forall h ensures Bucket(after, h) == Bucket(before, h) { }
    }
  }

  method BuildBuckets(routes: seq<Wire.Route>) returns (buckets: map<string, seq<RouteRule>>)
    ensures FiledAll(buckets, routes)
  {
    buckets := map[];
    for i := 0 to |routes|
      invariant FiledAll(buckets, routes[..i])
    {
      FileOne(buckets, routes, i);
      var r := routes[i];
      var pt := ParsePathType(r.pathType);
      if pt.Some? {
        var key := Lower(r.host);
        var rule := RouteRule(r.path, pt.value, r.cluster, r.priority);
        buckets := buckets[key := Filed(buckets, key) + [rule]];
      }
    }
    assert routes[..|routes|] == routes;
  }

  lemma HostsStep(routes: seq<Wire.Route>, i: nat)
    requires i < |routes|
    ensures Hosts(routes[..i + 1]) ==
            Hosts(routes[..i]) + if Kept(routes[i]) then {Lower(routes[i].host)} else {}
  {
    var a, b := Hosts(routes[..i + 1]), Hosts(routes[..i]);
    forall h | h in b ensures h in a {
      var j :| 0 <= j < i && Kept(routes[..i][j]) && Lower(routes[..i][j].host) == h;
      assert routes[..i + 1][j] == routes[..i][j];
    }
    if Kept(routes[i]) {
      assert routes[..i + 1][i] == routes[i];
    }
    forall h | h in a ensures h in b || (Kept(routes[i]) && h == Lower(routes[i].host)) {
      var j :| 0 <= j < i + 1 && Kept(routes[..i + 1][j]) && Lower(routes[..i + 1][j].host) == h;
      if j < i { assert routes[..i][j] == routes[..i + 1][j]; }
    }
  }

  method BuildClusters(clusters: seq<Wire.Cluster>) returns (byName: map<string, Wire.Cluster>)
    ensures byName == ClusterIndex(clusters)
  {
    byName := map[];
    for i := 0 to |clusters|
      invariant byName == ClusterIndex(clusters[..i])
    {
      assert clusters[..i + 1][..i] == clusters[..i];
      if KnownPolicy(clusters[i].lbPolicy) {
        byName := byName[Lower(clusters[i].name) := clusters[i]];
      }
    }
    assert clusters[..|clusters|] == clusters;
  }

  /** Each bucket is the stable sort of what was filed. */
  ghost predicate StablySorted(sorted: map<string, seq<RouteRule>>, buckets: map<string, seq<RouteRule>>) {
    sorted.Keys == buckets.Keys && forall h :: h in sorted ==> IsStableSortOf(sorted[h], buckets[h], RuleLess)
  }

  method SortBuckets(buckets: map<string, seq<RouteRule>>) returns (sorted: map<string, seq<RouteRule>>)
    ensures StablySorted(sorted, buckets)
  {
    sorted := map[];
    var left := buckets.Keys;
    RuleLessIsStrictWeakOrder();
    while left != {}
      invariant left <= buckets.Keys && sorted.Keys == buckets.Keys - left
      invariant forall h :: h in sorted ==> IsStableSortOf(sorted[h], buckets[h], RuleLess)
    {
      var h :| h in left;
      StableSortIsStable(buckets[h], RuleLess);
      sorted := sorted[h := StableSort(buckets[h], RuleLess)];
      left := left - {h};
    }
  }

  /** Whatever stable algorithm sorts the buckets, the index is the same. */
  lemma StableIndexIsUnique(sorted: map<string, seq<RouteRule>>, buckets: map<string, seq<RouteRule>>, routes: seq<Wire.Route>)
    requires FiledAll(buckets, routes) && StablySorted(sorted, buckets)
    ensures sorted == RouteIndex(routes)
  {
    RuleLessIsStrictWeakOrder();
    forall h | h in sorted ensures sorted[h] == RouteIndex(routes)[h] {
      assert buckets[h] == Filed(buckets, h) == Bucket(routes, h);
      StableSortIsUnique(sorted[h], buckets[h], RuleLess);
    }
  }

  /** `RouteTable::new`. */
  method New(routes: seq<Wire.Route>, clusters: seq<Wire.Cluster>) returns (t: Table)
    ensures t == Table(RouteIndex(routes), ClusterIndex(clusters))
  {
    var byName := BuildClusters(clusters);
    var buckets := BuildBuckets(routes);
    var sorted := SortBuckets(buckets);
    StableIndexIsUnique(sorted, buckets, routes);
    t := Table(sorted, byName);
  }

  // ---- lookup without an index ---------------------------------------------------

  /** The route applies to requests for `h` (its lowercased host) and `path`: an Exact route is the
      path, a Prefix route begins it, and no other type applies to anything. */
  ghost predicate Candidate(r: Wire.Route, h: string, path: string) {
    && Lower(r.host) == h
    && (|| (r.pathType == Wire.Exact && r.path == path)
        || (r.pathType == Wire.Prefix && Begins(r.path, path)))
  }

  /** The test of the kept rule is that of the raw route. */
  lemma CandidateIff(r: Wire.Route, h: string, path: string)
    ensures Candidate(r, h, path) <==> Kept(r) && Lower(r.host) == h && RuleMatches(RuleOf(r), path)
  {
    PrefixIff(r.path, path);
  }

  ghost function CandidateFor(h: string, path: string): Wire.Route -> bool {
    (r: Wire.Route) => Candidate(r, h, path)
  }

  /** The precedence of raw routes: priority, path length, Exact before Prefix. */
  predicate RouteLess(a: Wire.Route, b: Wire.Route) {
    if a.priority != b.priority then a.priority > b.priority
    else if |a.path| != |b.path| then |a.path| > |b.path|
    else a.pathType.Exact? && !b.pathType.Exact?
  }

  /** A scan of the raw route list for host bucket `h`. */
  ghost function ScanFor(routes: seq<Wire.Route>, h: string, path: string): Option<Wire.Route> {
    BestMatch(routes, CandidateFor(h, path), RouteLess)
  }

  ghost function NaiveRoute(routes: seq<Wire.Route>, host: string, path: string): Option<Wire.Route> {
    var byHost := ScanFor(routes, host, path);
    if byHost.Some? then byHost else ScanFor(routes, "", path)
  }

  function RuleOption(r: Option<Wire.Route>): Option<RouteRule>
    requires r.Some? ==> Kept(r.value)
  {
    if r.Some? then Some(RuleOf(r.value)) else None
  }

  /** One more route: the bucket's scan and the raw scan take the same step. */
  lemma ScanStep(routes: seq<Wire.Route>, r: Wire.Route, h: string, path: string)
    requires BestMatch(Bucket(routes, h), Matching(path), RuleLess) == RuleOption(ScanFor(routes, h, path))
    ensures BestMatch(Bucket(routes + [r], h), Matching(path), RuleLess) == RuleOption(ScanFor(routes + [r], h, path))
  {
    BucketStep(routes, r, h);
    CandidateIff(r, h, path);
    BestMatchAppend(routes, r, CandidateFor(h, path), RouteLess);
    if Kept(r) && Lower(r.host) == h {
      BestMatchAppend(Bucket(routes, h), RuleOf(r), Matching(path), RuleLess);
    }
  }

  lemma BucketStep(routes: seq<Wire.Route>, r: Wire.Route, h: string)
    ensures Bucket(routes + [r], h) ==
            if Kept(r) && Lower(r.host) == h then Bucket(routes, h) + [RuleOf(r)] else Bucket(routes, h)
  {
    assert (routes + [r])[..|routes|] == routes;
  }

  lemma {:induction false} ScanBucket(routes: seq<Wire.Route>, h: string, path: string)
    ensures BestMatch(Bucket(routes, h), Matching(path), RuleLess) == RuleOption(ScanFor(routes, h, path))
  {
    if routes == [] {
      assert Bucket(routes, h) == [];
    } else {
      var init, r := routes[..|routes| - 1], routes[|routes| - 1];
      assert init + [r] == routes;
      ScanBucket(init, h, path);
      ScanStep(init, r, h, path);
    }
  }

  lemma BestMatchAppend<T>(s: seq<T>, x: T, p: T -> bool, lt: (T, T) -> bool)
    ensures BestMatch(s + [x], p, lt) ==
            var b := BestMatch(s, p, lt);
            if p(x) && (b.None? || lt(x, b.value)) then Some(x) else b
  {
    assert (s + [x])[..|s|] == s;
  }

  lemma {:induction false} EmptyBucket(routes: seq<Wire.Route>, h: string)
    requires h !in Hosts(routes)
    ensures Bucket(routes, h) == []
  {
    if routes != [] {
      var n := |routes| - 1;
      HostsStep(routes, n);
      assert routes[..n + 1] == routes;
      EmptyBucket(routes[..n], h);
    }
  }

  lemma BucketLookup(routes: seq<Wire.Route>, h: string, path: string)
    ensures (if h in RouteIndex(routes) then MatchInBucket(RouteIndex(routes)[h], path) else None)
            == RuleOption(ScanFor(routes, h, path))
  {
    ScanBucket(routes, h, path);
    if h in Hosts(routes) {
      RuleLessIsStrictWeakOrder();
      SortedLookupIsBestMatch(Bucket(routes, h), Matching(path), RuleLess);
    } else {
      EmptyBucket(routes, h);
    }
  }

  /** The bucketed, stably sorted, first-match lookup is the unindexed scan. */
  lemma IndexedLookupIsScan(routes: seq<Wire.Route>, clusters: map<string, Wire.Cluster>, host: string, path: string)
    ensures ChooseRoute(Table(RouteIndex(routes), clusters), host, path)
            == RuleOption(NaiveRoute(routes, host, path))
  {
    BucketLookup(routes, host, path);
    BucketLookup(routes, "", path);
  }

  /** Among routes that apply, `a` is answered rather than `b`, given which comes first in the
      snapshot: by higher priority, then a longer path, then Exact, then position. */
  predicate Beats(a: Wire.Route, b: Wire.Route, first: bool) {
    || a.priority > b.priority
    || (a.priority == b.priority && |a.path| > |b.path|)
    || (a.priority == b.priority && |a.path| == |b.path| && a.pathType == Wire.Exact && b.pathType == Wire.Prefix)
    || (a.priority == b.priority && |a.path| == |b.path| && a.pathType == b.pathType && first)
  }

  /** Route `i` is the answer for bucket `h`. */
  ghost predicate Wins(routes: seq<Wire.Route>, h: string, path: string, i: nat) {
    && i < |routes| && Candidate(routes[i], h, path)
    && forall j :: 0 <= j < |routes| && j != i && Candidate(routes[j], h, path) ==> Beats(routes[i], routes[j], i < j)
  }

  /** The rule keeps the route's path, cluster and priority, and its type. */
  predicate Keeps(rule: RouteRule, r: Wire.Route) {
    && rule.path == r.path && rule.cluster == r.cluster && rule.priority == r.priority
    && (rule.matchType == ExactMatch <==> r.pathType == Wire.Exact)
  }

  ghost predicate AnswersFrom(routes: seq<Wire.Route>, h: string, path: string, out: Option<RouteRule>) {
    exists i: nat :: out.Some? && Wins(routes, h, path, i) && Keeps(out.value, routes[i])
  }

  ghost predicate Applicable(routes: seq<Wire.Route>, h: string, path: string) {
    exists i :: 0 <= i < |routes| && Candidate(routes[i], h, path)
  }

  lemma ScanWins(routes: seq<Wire.Route>, h: string, path: string)
    ensures ScanFor(routes, h, path).Some? <==> Applicable(routes, h, path)
    ensures ScanFor(routes, h, path).Some? ==> AnswersFrom(routes, h, path, RuleOption(ScanFor(routes, h, path)))
  {
    var p, best := CandidateFor(h, path), ScanFor(routes, h, path);
    if Applicable(routes, h, path) {
      var i :| 0 <= i < |routes| && Candidate(routes[i], h, path);
      assert routes[i] in routes && p(routes[i]);
    }
    if best.Some? {
      var i := BestMatchPosition(routes, p, RouteLess);
      forall j | 0 <= j < |routes| && j != i && Candidate(routes[j], h, path)
        ensures Beats(routes[i], routes[j], i < j)
      {
        assert p(routes[j]);
      }
      assert Wins(routes, h, path, i) && Keeps(RuleOf(routes[i]), routes[i]);
    }
  }

  /** What `choose_route` answers, in terms of the routes it was built from: the winner of the
      host's routes, otherwise of those without a host, otherwise nothing. */
  lemma ChosenRouteWins(routes: seq<Wire.Route>, clusters: map<string, Wire.Cluster>, host: string, path: string)
    ensures var out := ChooseRoute(Table(RouteIndex(routes), clusters), host, path);
            if Applicable(routes, host, path) then AnswersFrom(routes, host, path, out)
            else if Applicable(routes, "", path) then AnswersFrom(routes, "", path, out)
            else out == None
  {
    IndexedLookupIsScan(routes, clusters, host, path);
    ScanWins(routes, host, path);
    ScanWins(routes, "", path);
  }

  /** The same for whatever stable algorithm sorts the buckets. */
  lemma AnyStableIndexIsScan(
    sorted: map<string, seq<RouteRule>>, buckets: map<string, seq<RouteRule>>, routes: seq<Wire.Route>,
    clusters: map<string, Wire.Cluster>, host: string, path: string)
    requires FiledAll(buckets, routes) && StablySorted(sorted, buckets)
    ensures ChooseRoute(Table(sorted, clusters), host, path) == RuleOption(NaiveRoute(routes, host, path))
  {
    StableIndexIsUnique(sorted, buckets, routes);
    IndexedLookupIsScan(routes, clusters, host, path);
  }
}
