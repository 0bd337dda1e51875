/** Determinism of the compiled snapshot: target order, map iteration order and the
    unstable sort leave no trace in the routes exactly when unknown path types of one pair
    agree, and none in the clusters exactly when entries of one cluster name agree. */
module Canonical {
  import opened Text
  import opened Sorting
  import opened ControlPlane
  import Wire

  /** The route part of `toPbSnapshot`. */
  function PbRoute(r: Route): Wire.Route {
    Wire.Route(r.host, r.path, r.pathType.value, r.cluster, Wire.ToInt32(r.priority))
  }

  function PbRoutes(rs: seq<Route>): seq<Wire.Route> {
    Map(PbRoute, rs)
  }

  /** The route loop of `toPbSnapshot`. A nil path type, which the Go code dereferences, does not
      occur in routes that `ToSnapshot` made. */
  method ToPbRoutes(rs: seq<Route>) returns (pb: seq<Wire.Route>)
    ensures pb == PbRoutes(rs)
  {
    pb := [];
    for i := 0 to |rs|
      invariant pb == PbRoutes(rs[..i])
    {
      var r := rs[i];
      pb := pb + [Wire.Route(r.host, r.path, r.pathType.value, r.cluster, Wire.ToInt32(r.priority))];
      assert rs[..i + 1] == rs[..i] + [r];
      assert PbRoutes(rs[..i] + [r]) == PbRoutes(rs[..i]) + [PbRoute(r)];
    }
    assert rs[..|rs|] == rs;
  }

  // ---- cluster names ---------------------------------------------------------

  /** `h'` is `h` extended by a bar, and the paths make up for it. */
  predicate Collide(h: string, p: string, h': string, p': string) {
    h + "|" <= h' && p == h'[|h| + 1..] + "|" + p'
  }

  lemma CollidingNames(h: string, p: string, h': string, p': string)
    requires Collide(h, p, h', p')
    ensures ClusterName(h, p) == ClusterName(h', p')
  {
    var rest := h'[|h| + 1..];
    assert h' == (h + "|") + rest;
    assert (h + "|") + (rest + "|" + p') == ((h + "|") + rest) + "|" + p';
  }

  lemma SharedName(h: string, p: string, h': string, p': string)
    requires |h| <= |h'| && ClusterName(h, p) == ClusterName(h', p')
    ensures (h == h' && p == p') || Collide(h, p, h', p')
  {
    var n := ClusterName(h, p);
    assert h == n[..|h|] && p == n[|h| + 1..] && n[|h|] == '|';
    assert h' == n[..|h'|] && p' == n[|h'| + 1..];
    if |h| < |h'| {
      assert n[..|h| + 1] == h + "|";
      assert h'[..|h| + 1] == n[..|h| + 1];
      assert n[|h| + 1..] == h'[|h| + 1..] + "|" + p' by {
        assert n == (h'[..|h| + 1] + h'[|h| + 1..]) + "|" + p';
      }
    }
  }

  /** Two pairs share a cluster name exactly when they are equal, or one host is the other
      extended by a bar and the paths make up for it. */
  lemma ClusterNamesEqualIff(h: string, p: string, h': string, p': string)
    ensures ClusterName(h, p) == ClusterName(h', p') <==>
            (h == h' && p == p') || Collide(h, p, h', p') || Collide(h', p', h, p)
  {
    if ClusterName(h, p) == ClusterName(h', p') {
      if |h| <= |h'| { SharedName(h, p, h', p'); } else { SharedName(h', p', h, p); }
    }
    if Collide(h, p, h', p') { CollidingNames(h, p, h', p'); }
    if Collide(h', p', h, p) { CollidingNames(h', p', h, p); }
  }

  /** Hosts neither of which extends the other by a bar make cluster names injective. */
  lemma ClusterNameInjective(h: string, p: string, h': string, p': string)
    requires !(h + "|" <= h') && !(h' + "|" <= h)
    requires ClusterName(h, p) == ClusterName(h', p')
    ensures h == h' && p == p'
  {
    ClusterNamesEqualIff(h, p, h', p');
  }

  // ---- the same targets behind other pointers -----------------------------------

  /** A path-type pointer reduced to its value. */
  function Erased(te: TargetEndpoint): TargetEndpoint {
    te.(pathType := te.pathType.(address := 0))
  }

  function ErasedEntry(e: Entry): Entry {
    e.(endpoint := Erased(e.endpoint))
  }

  function ErasedTarget(t: TargetProxy): TargetProxy {
    t.(paths := map p | p in t.paths :: Erased(t.paths[p]))
  }

  /** The same targets in any order, whatever pointers hold their path types. */
  ghost predicate SameTargets(ts: seq<TargetProxy>, ts': seq<TargetProxy>) {
    multiset(Map(ErasedTarget, ts)) == multiset(Map(ErasedTarget, ts'))
  }

  lemma ReorderedTargets(ts: seq<TargetProxy>, ts': seq<TargetProxy>)
    requires multiset(ts) == multiset(ts')
    ensures SameTargets(ts, ts')
  {
    MapBag(ErasedTarget, ts, ts');
  }

  lemma {:induction false} ListPaths(t: TargetProxy, done: set<string>) returns (es: seq<Entry>)
    requires done <= t.paths.Keys
    ensures multiset(es) == PathBag(t, done) && multiset(Map(ErasedEntry, es)) == PathBag(ErasedTarget(t), done)
    decreases |done|
  {
    if done == {} {
      es := [];
    } else {
      var p :| p in done;
      var rest := done - {p};
      assert done == rest + {p};
      var init := ListPaths(t, rest);
      es := init + [Entry(t.host, p, t.paths[p])];
      assert Map(ErasedEntry, es) == Map(ErasedEntry, init) + [ErasedEntry(Entry(t.host, p, t.paths[p]))];
    }
  }

  lemma {:induction false} ListEntries(ts: seq<TargetProxy>) returns (es: seq<Entry>)
    ensures multiset(es) == EntryBag(ts) && multiset(Map(ErasedEntry, es)) == EntryBag(Map(ErasedTarget, ts))
  {
    if ts == [] {
      es := [];
    } else {
      var init, t := ts[..|ts| - 1], ts[|ts| - 1];
      var a := ListEntries(init);
      var b := ListPaths(t, t.paths.Keys);
      es := a + b;
      assert Map(ErasedEntry, es) == Map(ErasedEntry, a) + Map(ErasedEntry, b);
      ErasedLast(ts);
    }
  }

  lemma ErasedLast(ts: seq<TargetProxy>)
    requires ts != []
    ensures EntryBag(Map(ErasedTarget, ts)) ==
            EntryBag(Map(ErasedTarget, ts[..|ts| - 1])) + AllPaths(ErasedTarget(ts[|ts| - 1]))
  {
    var erased := Map(ErasedTarget, ts);
    assert erased[..|erased| - 1] == Map(ErasedTarget, ts[..|ts| - 1]);
  }

  lemma ErasedBag(ts: seq<TargetProxy>, es: seq<Entry>)
    requires multiset(es) == EntryBag(ts)
    ensures multiset(Map(ErasedEntry, es)) == EntryBag(Map(ErasedTarget, ts))
  {
    var listed := ListEntries(ts);
    MapBag(ErasedEntry, es, listed);
  }

  /** Entries of the same targets look the same to whatever does not look at pointers. */
  lemma SameImages<T>(f: Entry -> T, ts: seq<TargetProxy>, es: seq<Entry>, ts': seq<TargetProxy>, es': seq<Entry>)
    requires SameTargets(ts, ts') && multiset(es) == EntryBag(ts) && multiset(es') == EntryBag(ts')
    requires forall e :: f(ErasedEntry(e)) == f(e)
    ensures multiset(Map(f, es)) == multiset(Map(f, es'))
  {
    ErasedBag(ts, es);
    ErasedBag(ts', es');
    CollectPermutation(AllPaths, Map(ErasedTarget, ts), Map(ErasedTarget, ts'));
    MapBag(f, Map(ErasedEntry, es), Map(ErasedEntry, es'));
    assert Map(f, Map(ErasedEntry, es)) == Map(f, es) && Map(f, Map(ErasedEntry, es')) == Map(f, es');
  }

  function PbOf(e: Entry): Wire.Route {
    PbRoute(RouteOf(e))
  }

  lemma SentBag(routes: seq<Route>, es: seq<Entry>)
    requires multiset(routes) == multiset(RoutesOf(es))
    ensures multiset(PbRoutes(routes)) == multiset(Map(PbOf, es))
  {
    MapBag(PbRoute, routes, RoutesOf(es));
    assert Map(PbRoute, RoutesOf(es)) == Map(PbOf, es);
  }

  // ---- routes ----------------------------------------------------------------

  /** Entries of one (host, path) pair whose path types Kubernetes does not define agree on them. */
  ghost predicate UnknownTypesAgree(bag: multiset<Entry>) {
    forall e, e' :: e in bag && e' in bag && e.host == e'.host && e.path == e'.path
                    && e.endpoint.pathType.value.OtherType? && e'.endpoint.pathType.value.OtherType?
                    ==> e.endpoint.pathType.value == e'.endpoint.pathType.value
  }

  /** The sort key of a wire route, recomputed from its path and path type. */
  predicate PbLess(a: Wire.Route, b: Wire.Route) {
    var pa, pb := RoutePriority(a.path, a.pathType), RoutePriority(b.path, b.pathType);
    if pa != pb then pa > pb
    else if a.host != b.host then StrLess(a.host, b.host)
    else StrLess(a.path, b.path)
  }

  lemma PbRoutesSorted(routes: seq<Route>, es: seq<Entry>)
    requires IsSortOf(routes, RoutesOf(es), RouteLess)
    ensures Sorted(PbRoutes(routes), PbLess)
  {
    forall i, j | 0 <= i < j < |routes| ensures !PbLess(PbRoute(routes[j]), PbRoute(routes[i])) {
      var e := Preimage(RouteOf, es, routes, routes[i]);
      var e' := Preimage(RouteOf, es, routes, routes[j]);
      RouteLessCollapses(routes[j], routes[i]);
    }
  }

  lemma PbRoutesTie(routes: seq<Route>, es: seq<Entry>, x: Wire.Route, y: Wire.Route)
    requires multiset(routes) == multiset(RoutesOf(es)) && UnknownTypesAgree(multiset(es))
    requires x in PbRoutes(routes) && y in PbRoutes(routes)
    requires !PbLess(x, y) && !PbLess(y, x)
    ensures x == y
  {
    var i :| 0 <= i < |routes| && PbRoutes(routes)[i] == x;
    var j :| 0 <= j < |routes| && PbRoutes(routes)[j] == y;
    var e := Preimage(RouteOf, es, routes, routes[i]);
    var e' := Preimage(RouteOf, es, routes, routes[j]);
    assert e in multiset(es) && e' in multiset(es);
    StrLessTotal(x.host, y.host);
    StrLessTotal(x.path, y.path);
    assert x.host == y.host && x.path == y.path;
    assert PathTypeRank(x.pathType) == PathTypeRank(y.pathType);
    assert x == PbRoute(RouteOf(e)) && y == PbRoute(RouteOf(e'));
    assert x.pathType == y.pathType;
  }

  /** Every outcome on every ordering of the targets, behind whatever pointers, sends the same routes. */
  lemma CanonicalRoutes(
    ts: seq<TargetProxy>, routes: seq<Route>, clusters: seq<Wire.Cluster>,
    ts': seq<TargetProxy>, routes': seq<Route>, clusters': seq<Wire.Cluster>)
    requires SameTargets(ts, ts')
    requires IsSnapshotOf(routes, clusters, ts) && IsSnapshotOf(routes', clusters', ts')
    requires UnknownTypesAgree(EntryBag(ts))
    ensures PbRoutes(routes) == PbRoutes(routes')
  {
    var es :| IsSnapshotVia(routes, clusters, ts, es);
    var es' :| IsSnapshotVia(routes', clusters', ts', es');
    SameImages(PbOf, ts, es, ts', es');
    SentBag(routes, es);
    SentBag(routes', es');
    PbRoutesSorted(routes, es);
    PbRoutesSorted(routes', es');
    forall x, y | x in PbRoutes(routes) && y in PbRoutes(routes) && !PbLess(x, y) && !PbLess(y, x)
      ensures x == y
    {
      PbRoutesTie(routes, es, x, y);
    }
    SortIsUnique(PbRoutes(routes), PbRoutes(routes'), PbLess);
  }

  ghost predicate RoutesDeterministic(ts: seq<TargetProxy>) {
    forall ts', routes, clusters, routes', clusters' ::
      SameTargets(ts, ts')
      && IsSnapshotOf(routes, clusters, ts) && IsSnapshotOf(routes', clusters', ts')
      ==> PbRoutes(routes) == PbRoutes(routes')
  }

  /** A list of compiled routes is in comparator order exactly when it is in key order. */
  lemma CompiledOrder(routes: seq<Route>, es: seq<Entry>)
    requires multiset(routes) == multiset(RoutesOf(es))
    ensures Sorted(routes, RouteLess) <==> Sorted(routes, KeyLess)
  {
    forall i, j | 0 <= i < j < |routes| ensures RouteLess(routes[j], routes[i]) == KeyLess(routes[j], routes[i]) {
      var e := Preimage(RouteOf, es, routes, routes[i]);
      var e' := Preimage(RouteOf, es, routes, routes[j]);
      RouteLessCollapses(routes[j], routes[i]);
    }
  }

  /** Two entries of one pair with different unknown path types can be sent in either order. */
  lemma UnknownTypesAreAmbiguous(es: seq<Entry>, routes: seq<Route>, e: Entry, e': Entry) returns (routes': seq<Route>)
    requires IsSortOf(routes, RoutesOf(es), RouteLess) && e in es && e' in es
    requires e.host == e'.host && e.path == e'.path
    requires e.endpoint.pathType.value.OtherType? && e'.endpoint.pathType.value.OtherType?
    requires e.endpoint.pathType.value != e'.endpoint.pathType.value
    ensures IsSortOf(routes', RoutesOf(es), RouteLess) && PbRoutes(routes') != PbRoutes(routes)
  {
    var i := ImagePosition(RouteOf, es, routes, e);
    var j := ImagePosition(RouteOf, es, routes, e');
    CompiledOrder(routes, es);
    KeyLessIsStrictWeakOrder();
    StrLessIrreflexive(e.host);
    StrLessIrreflexive(e.path);
    routes' := SwapTied(routes, KeyLess, if i < j then i else j, if i < j then j else i);
    CompiledOrder(routes', es);
    assert PbRoutes(routes')[i] == PbRoute(RouteOf(e')) && PbRoutes(routes)[i] == PbRoute(RouteOf(e));
  }

  lemma SomeSnapshot(ts: seq<TargetProxy>)
    ensures exists es, routes, clusters :: IsSnapshotVia(routes, clusters, ts, es)
  {
    var es := ListBag(EntryBag(ts));
    var routes := StableSort(RoutesOf(es), RouteLess);
    var clusters := StableSort(ClustersOf(es), ClusterLess);
    RoutesOfCompiled(es);
    CompiledSort(RoutesOf(es));
    NamesOrder((c: Wire.Cluster) => c.name, ClusterLess);
    StableSortIsSort(ClustersOf(es), ClusterLess);
    assert IsSnapshotVia(routes, clusters, ts, es);
  }

  lemma SameRoutesSent(
    ts: seq<TargetProxy>, es: seq<Entry>, routes: seq<Route>, routes': seq<Route>, clusters: seq<Wire.Cluster>)
    requires RoutesDeterministic(ts)
    requires IsSnapshotVia(routes, clusters, ts, es) && IsSnapshotVia(routes', clusters, ts, es)
    ensures PbRoutes(routes) == PbRoutes(routes')
  {
    assert IsSnapshotOf(routes, clusters, ts) && IsSnapshotOf(routes', clusters, ts);
  }

  lemma DeterministicRoutesAgree(ts: seq<TargetProxy>)
    requires RoutesDeterministic(ts)
    ensures UnknownTypesAgree(EntryBag(ts))
  {
    SomeSnapshot(ts);
    var es, routes, clusters :| IsSnapshotVia(routes, clusters, ts, es);
    forall e, e' | e in EntryBag(ts) && e' in EntryBag(ts) && e.host == e'.host && e.path == e'.path
                   && e.endpoint.pathType.value.OtherType? && e'.endpoint.pathType.value.OtherType?
      ensures e.endpoint.pathType.value == e'.endpoint.pathType.value
    {
      if e.endpoint.pathType.value != e'.endpoint.pathType.value {
        assert e in multiset(es) && e' in multiset(es);
        var routes' := UnknownTypesAreAmbiguous(es, routes, e, e');
        SameRoutesSent(ts, es, routes, routes', clusters);
      }
    }
  }

  /** The routes sent are independent of every order exactly when entries of one pair agree on
      path types that Kubernetes does not define. */
  lemma RoutesDeterministicIff(ts: seq<TargetProxy>)
    ensures RoutesDeterministic(ts) <==> UnknownTypesAgree(EntryBag(ts))
  {
    if UnknownTypesAgree(EntryBag(ts)) {
      forall ts', routes, clusters, routes', clusters' |
        SameTargets(ts, ts') && IsSnapshotOf(routes, clusters, ts) && IsSnapshotOf(routes', clusters', ts')
        ensures PbRoutes(routes) == PbRoutes(routes')
      {
        CanonicalRoutes(ts, routes, clusters, ts', routes', clusters');
      }
    }
    if RoutesDeterministic(ts) {
      DeterministicRoutesAgree(ts);
    }
  }

  // ---- clusters --------------------------------------------------------------

  /** Entries that share a cluster name describe the same cluster. */
  ghost predicate NamesAgree(bag: multiset<Entry>) {
    forall e, e' :: e in bag && e' in bag && ClusterName(e.host, e.path) == ClusterName(e'.host, e'.path)
                    ==> ClusterOf(e) == ClusterOf(e')
  }

  ghost predicate ClustersDeterministic(ts: seq<TargetProxy>) {
    forall ts', routes, clusters, routes', clusters' ::
      SameTargets(ts, ts')
      && IsSnapshotOf(routes, clusters, ts) && IsSnapshotOf(routes', clusters', ts')
      ==> clusters == clusters'
  }

  lemma TiedClusters(x: Wire.Cluster, y: Wire.Cluster)
    ensures x.name == y.name <==> !ClusterLess(x, y) && !ClusterLess(y, x)
  {
    StrLessTotal(x.name, y.name);
    StrLessIrreflexive(x.name);
  }

  lemma AgreeingNamesTie(es: seq<Entry>, x: Wire.Cluster, y: Wire.Cluster)
    requires NamesAgree(multiset(es)) && x in ClustersOf(es) && y in ClustersOf(es) && x.name == y.name
    ensures x == y
  {
    var e := Preimage(ClusterOf, es, ClustersOf(es), x);
    var e' := Preimage(ClusterOf, es, ClustersOf(es), y);
    assert e in multiset(es) && e' in multiset(es);
  }

  lemma ClusterTies(es: seq<Entry>)
    ensures NamesAgree(multiset(es)) <==>
            forall x, y :: x in ClustersOf(es) && y in ClustersOf(es) && !ClusterLess(x, y) && !ClusterLess(y, x)
                           ==> x == y
  {
    var cs := ClustersOf(es);
    if NamesAgree(multiset(es)) {
      forall x, y | x in cs && y in cs && !ClusterLess(x, y) && !ClusterLess(y, x) ensures x == y {
        TiedClusters(x, y);
        AgreeingNamesTie(es, x, y);
      }
    }
    if forall x, y :: x in cs && y in cs && !ClusterLess(x, y) && !ClusterLess(y, x) ==> x == y {
      forall e, e' | e in multiset(es) && e' in multiset(es) && ClusterName(e.host, e.path) == ClusterName(e'.host, e'.path)
        ensures ClusterOf(e) == ClusterOf(e')
      {
        var i := ImagePosition(ClusterOf, es, cs, e);
        var j := ImagePosition(ClusterOf, es, cs, e');
        assert ClusterOf(e) in cs && ClusterOf(e') in cs;
        TiedClusters(ClusterOf(e), ClusterOf(e'));
      }
    }
  }

  lemma AgreeingNamesDetermineClusters(
    ts: seq<TargetProxy>, routes: seq<Route>, clusters: seq<Wire.Cluster>,
    ts': seq<TargetProxy>, routes': seq<Route>, clusters': seq<Wire.Cluster>)
    requires SameTargets(ts, ts')
    requires IsSnapshotOf(routes, clusters, ts) && IsSnapshotOf(routes', clusters', ts')
    requires NamesAgree(EntryBag(ts))
    ensures clusters == clusters'
  {
    var es :| IsSnapshotVia(routes, clusters, ts, es);
    var es' :| IsSnapshotVia(routes', clusters', ts', es');
    SameImages(ClusterOf, ts, es, ts', es');
    ClusterTies(es);
    NamesOrder((c: Wire.Cluster) => c.name, ClusterLess);
    SortDeterministicIff(ClustersOf(es), ClusterLess);
    assert IsSortOf(clusters', ClustersOf(es), ClusterLess);
  }

  lemma DisagreeingNamesAreAmbiguous(ts: seq<TargetProxy>)
    requires ClustersDeterministic(ts)
    ensures NamesAgree(EntryBag(ts))
  {
    SomeSnapshot(ts);
    var es, routes, clusters :| IsSnapshotVia(routes, clusters, ts, es);
    NamesOrder((c: Wire.Cluster) => c.name, ClusterLess);
    forall a, b | IsSortOf(a, ClustersOf(es), ClusterLess) && IsSortOf(b, ClustersOf(es), ClusterLess)
      ensures a == b
    {
      assert IsSnapshotVia(routes, a, ts, es) && IsSnapshotVia(routes, b, ts, es);
      assert IsSnapshotOf(routes, a, ts) && IsSnapshotOf(routes, b, ts);
    }
    SortDeterministicIff(ClustersOf(es), ClusterLess);
    ClusterTies(es);
  }

  /** The cluster list is independent of every order exactly when names determine clusters. */
  lemma ClustersDeterministicIff(ts: seq<TargetProxy>)
    ensures ClustersDeterministic(ts) <==> NamesAgree(EntryBag(ts))
  {
    if NamesAgree(EntryBag(ts)) {
      forall ts', routes, clusters, routes', clusters' |
        SameTargets(ts, ts') && IsSnapshotOf(routes, clusters, ts) && IsSnapshotOf(routes', clusters', ts')
        ensures clusters == clusters'
      {
        AgreeingNamesDetermineClusters(ts, routes, clusters, ts', routes', clusters');
      }
    }
    if ClustersDeterministic(ts) {
      DisagreeingNamesAreAmbiguous(ts);
    }
  }

  /** The smallest failure: two targets for one (host, path) with different addresses. */
  lemma TwoTargetsAreAmbiguous(te: TargetEndpoint, sni: TlsSecret)
    ensures var a := TargetProxy("h", map["/" := te.(addresses := ["10.0.0.1"])], sni);
            var b := TargetProxy("h", map["/" := te.(addresses := ["10.0.0.2"])], sni);
            !ClustersDeterministic([a, b])
  {
    var a := TargetProxy("h", map["/" := te.(addresses := ["10.0.0.1"])], sni);
    var b := TargetProxy("h", map["/" := te.(addresses := ["10.0.0.2"])], sni);
    var e, e' := Entry("h", "/", a.paths["/"]), Entry("h", "/", b.paths["/"]);
    TargetEntries([a, b], 0, "/");
    TargetEntries([a, b], 1, "/");
    assert e in EntryBag([a, b]) && e' in EntryBag([a, b]);
    assert ClusterOf(e).endpoints[0].address == "10.0.0.1" && ClusterOf(e').endpoints[0].address == "10.0.0.2";
    assert !NamesAgree(EntryBag([a, b]));
    ClustersDeterministicIff([a, b]);
  }

  lemma {:induction false} TargetEntries(ts: seq<TargetProxy>, i: nat, p: string)
    requires i < |ts| && p in ts[i].paths
    ensures Entry(ts[i].host, p, ts[i].paths[p]) in EntryBag(ts)
  {
    CollectMember(AllPaths, ts, i);
    assert Entry(ts[i].host, p, ts[i].paths[p]) in AllPaths(ts[i]);
  }

  // ---- certificates ----------------------------------------------------------

  /** Certificates of one name are the same. */
  predicate TlsAgree(ts: seq<TargetProxy>) {
    forall x, y :: x in TlsOf(ts) && y in TlsOf(ts) && x.name == y.name ==> x == y
  }

  ghost predicate TlsDeterministic(ts: seq<TargetProxy>) {
    forall ts', tls, tls' ::
      SameTargets(ts, ts') && IsSortOf(tls, TlsOf(ts), TlsLess) && IsSortOf(tls', TlsOf(ts'), TlsLess)
      ==> tls == tls'
  }

  ghost function TlsBag(t: TargetProxy): multiset<TlsSecret> {
    if t.sni.name != "" then multiset{t.sni} else multiset{}
  }

  lemma {:induction false} TlsIsCollected(ts: seq<TargetProxy>)
    ensures multiset(TlsOf(ts)) == Collect(TlsBag, ts)
  {
    if ts != [] {
      TlsIsCollected(ts[..|ts| - 1]);
    }
  }

  lemma {:induction false} ErasedTls(ts: seq<TargetProxy>)
    ensures TlsOf(Map(ErasedTarget, ts)) == TlsOf(ts)
  {
    if ts != [] {
      var erased := Map(ErasedTarget, ts);
      assert erased[..|erased| - 1] == Map(ErasedTarget, ts[..|ts| - 1]);
      ErasedTls(ts[..|ts| - 1]);
    }
  }

  lemma SameTls(ts: seq<TargetProxy>, ts': seq<TargetProxy>)
    requires SameTargets(ts, ts')
    ensures multiset(TlsOf(ts)) == multiset(TlsOf(ts'))
  {
    ErasedTls(ts);
    ErasedTls(ts');
    TlsIsCollected(Map(ErasedTarget, ts));
    TlsIsCollected(Map(ErasedTarget, ts'));
    CollectPermutation(TlsBag, Map(ErasedTarget, ts), Map(ErasedTarget, ts'));
  }

  lemma TlsTies(ts: seq<TargetProxy>)
    ensures TlsAgree(ts) <==>
            forall x, y :: x in TlsOf(ts) && y in TlsOf(ts) && !TlsLess(x, y) && !TlsLess(y, x) ==> x == y
  {
    forall x: TlsSecret, y: TlsSecret ensures x.name == y.name <==> !TlsLess(x, y) && !TlsLess(y, x) {
      StrLessTotal(x.name, y.name);
      StrLessIrreflexive(x.name);
    }
  }

  /** The certificate list is independent of the order of the targets and of the sort exactly when
      certificates of one name are the same. */
  lemma TlsDeterministicIff(ts: seq<TargetProxy>)
    ensures TlsDeterministic(ts) <==> TlsAgree(ts)
  {
    TlsTies(ts);
    NamesOrder((c: TlsSecret) => c.name, TlsLess);
    SortDeterministicIff(TlsOf(ts), TlsLess);
    if TlsAgree(ts) {
      forall ts', tls, tls' |
        SameTargets(ts, ts') && IsSortOf(tls, TlsOf(ts), TlsLess) && IsSortOf(tls', TlsOf(ts'), TlsLess)
        ensures tls == tls'
      {
        SameTls(ts, ts');
        assert IsSortOf(tls', TlsOf(ts), TlsLess);
      }
    }
  }

  /** Two Ingresses that share a secret for different hosts: one name, two host lists, and so two
      possible certificate lists. */
  lemma SharedSecretIsAmbiguous(
    cert: TlsSecret, hosts: seq<string>, hosts': seq<string>, t: TargetProxy, t': TargetProxy)
    requires cert.name != "" && hosts != hosts'
    ensures !TlsDeterministic([t.(sni := cert.(sni := hosts)), t'.(sni := cert.(sni := hosts'))])
  {
    var a, b := t.(sni := cert.(sni := hosts)), t'.(sni := cert.(sni := hosts'));
    var ts := [a, b];
    assert ts[..1] == [a] && [a][..0] == [];
    assert TlsOf([a]) == [a.sni];
    assert TlsOf(ts) == [a.sni] + [b.sni];
    assert TlsOf(ts)[0] == a.sni && TlsOf(ts)[1] == b.sni;
    TlsDeterministicIff(ts);
  }

  // ---- the usual case --------------------------------------------------------

  /** Every (host, path) pair occurs once, and no host extends another by a bar. */
  ghost predicate WellKeyed(bag: multiset<Entry>) {
    && (forall e :: e in bag ==> bag[e] == 1)
    && (forall e, e' :: e in bag && e' in bag ==> !(e.host + "|" <= e'.host))
    && (forall e, e' :: e in bag && e' in bag && e.host == e'.host && e.path == e'.path ==> e == e')
  }

  /** Distinct pairs, and no host that extends another by a bar: the whole snapshot is canonical. */
  lemma CanonicalSnapshot(
    ts: seq<TargetProxy>, routes: seq<Route>, clusters: seq<Wire.Cluster>,
    ts': seq<TargetProxy>, routes': seq<Route>, clusters': seq<Wire.Cluster>)
    requires SameTargets(ts, ts')
    requires IsSnapshotOf(routes, clusters, ts) && IsSnapshotOf(routes', clusters', ts')
    requires WellKeyed(EntryBag(ts))
    ensures PbRoutes(routes) == PbRoutes(routes') && clusters == clusters'
  {
    var bag := EntryBag(ts);
    forall e, e' | e in bag && e' in bag && ClusterName(e.host, e.path) == ClusterName(e'.host, e'.path)
      ensures e == e'
    {
      ClusterNameInjective(e.host, e.path, e'.host, e'.path);
    }
    CanonicalRoutes(ts, routes, clusters, ts', routes', clusters');
    AgreeingNamesDetermineClusters(ts, routes, clusters, ts', routes', clusters');
  }
}
