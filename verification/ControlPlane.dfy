/** The snapshot compiler of the Go control plane: `ToSnapshot`, `Sort` and `RoutePriority`. */
module ControlPlane {
  import opened Text
  import opened Sorting
  import Wire

  /** A `*PathType`: the address that pointer comparison sees, and the value behind it. */
  datatype PathTypeRef = PathTypeRef(address: int, value: Wire.PathType)

  datatype Route = Route(host: string, path: string, pathType: PathTypeRef, cluster: string, priority: int)

  datatype TargetEndpoint = TargetEndpoint(
    port: int, addresses: seq<string>, pathType: PathTypeRef, retries: int, timeoutMs: int,
    backendProtocol: string, lbAlgorithm: Wire.LbPolicy,
    rewriteHeaders: seq<Wire.HeaderRewrite>, auth: Option<Wire.AuthConfig>)

  /** The certificate of an Ingress; the zero value has the empty name. */
  datatype TlsSecret = TlsSecret(
    name: string, sni: seq<string>, certPem: string, keyPem: string, notAfter: int, version: string)

  datatype TargetProxy = TargetProxy(host: string, paths: map<string, TargetEndpoint>, sni: TlsSecret)

  /** One (host, path) pair of one target. */
  datatype Entry = Entry(host: string, path: string, endpoint: TargetEndpoint)

  const PRIORITY_STEP := 1_000_000

  function PathTypeRank(pt: Wire.PathType): nat {
    match pt
    case Exact => 3
    case Prefix => 2
    case ImplementationSpecific => 1
    case OtherType(_) => 0
  }

  function RoutePriority(path: string, pt: Wire.PathType): int {
    PathTypeRank(pt) * PRIORITY_STEP + |path|
  }

  function ClusterName(host: string, path: string): string {
    host + "|" + path
  }

  function RouteOf(e: Entry): Route {
    Route(e.host, e.path, e.endpoint.pathType, ClusterName(e.host, e.path),
          RoutePriority(e.path, e.endpoint.pathType.value))
  }

  function EndpointsOf(addresses: seq<string>, port: int): seq<Wire.Endpoint> {
    seq(|addresses|, i requires 0 <= i < |addresses| => Wire.Endpoint(addresses[i], port, 1))
  }

  function ClusterOf(e: Entry): Wire.Cluster {
    var t := e.endpoint;
    Wire.Cluster(ClusterName(e.host, e.path), t.lbAlgorithm, EndpointsOf(t.addresses, t.port),
                 t.timeoutMs, t.retries, t.backendProtocol, t.rewriteHeaders, t.auth)
  }

  /** The cluster that `host`, `path` and `te` call for: one endpoint of weight 1 for each address,
      on the one port, and every setting in its place. */
  predicate Carries(c: Wire.Cluster, host: string, path: string, te: TargetEndpoint) {
    && c.name == host + "|" + path
    && |c.endpoints| == |te.addresses|
    && (forall i :: 0 <= i < |te.addresses| ==>
          && c.endpoints[i].address == te.addresses[i]
          && c.endpoints[i].port == te.port
          && c.endpoints[i].weight == 1)
    && c.lbPolicy == te.lbAlgorithm && c.timeoutMs == te.timeoutMs && c.retries == te.retries
    && c.backendProtocol == te.backendProtocol && c.requestHeaders == te.rewriteHeaders && c.auth == te.auth
  }

  /** The route that `host`, `path` and `te` call for. */
  predicate Leads(r: Route, host: string, path: string, te: TargetEndpoint) {
    && r.host == host && r.path == path && r.pathType == te.pathType && r.cluster == host + "|" + path
    && (te.pathType.value == Wire.Exact ==> r.priority == 3_000_000 + |path|)
    && (te.pathType.value == Wire.Prefix ==> r.priority == 2_000_000 + |path|)
    && (te.pathType.value == Wire.ImplementationSpecific ==> r.priority == 1_000_000 + |path|)
    && (te.pathType.value.OtherType? ==> r.priority == |path|)
  }

  /** The comparator of `Sort` on routes: path types are compared as pointers. */
  predicate RouteLess(ri: Route, rj: Route) {
    if ri.priority != rj.priority then ri.priority > rj.priority
    else if ri.host != rj.host then StrLess(ri.host, rj.host)
    else if ri.path != rj.path then StrLess(ri.path, rj.path)
    else if ri.pathType.address != rj.pathType.address then
      PathTypeRank(ri.pathType.value) > PathTypeRank(rj.pathType.value)
    else StrLess(ri.cluster, rj.cluster)
  }

  predicate ClusterLess(a: Wire.Cluster, b: Wire.Cluster) {
    StrLess(a.name, b.name)
  }

  predicate TlsLess(a: TlsSecret, b: TlsSecret) {
    StrLess(a.name, b.name)
  }

  /** The order by descending priority, then host, then path. */
  predicate KeyLess(ri: Route, rj: Route) {
    if ri.priority != rj.priority then ri.priority > rj.priority
    else if ri.host != rj.host then StrLess(ri.host, rj.host)
    else StrLess(ri.path, rj.path)
  }

  /** What `ToSnapshot` guarantees of the routes it makes. */
  predicate Compiled(r: Route) {
    && r.cluster == ClusterName(r.host, r.path)
    && r.priority == RoutePriority(r.path, r.pathType.value)
  }

  /** The comparator field by field. */
  lemma RouteLessFields(a: Route, b: Route)
    ensures RouteLess(a, b) <==>
            || a.priority > b.priority
            || (a.priority == b.priority && a.host != b.host && StrLess(a.host, b.host))
            || (a.priority == b.priority && a.host == b.host && a.path != b.path && StrLess(a.path, b.path))
            || (a.priority == b.priority && a.host == b.host && a.path == b.path
                && a.pathType.address != b.pathType.address
                && ((a.pathType.value == Wire.Exact && b.pathType.value != Wire.Exact)
                    || (a.pathType.value == Wire.Prefix
                        && b.pathType.value != Wire.Exact && b.pathType.value != Wire.Prefix)
                    || (a.pathType.value == Wire.ImplementationSpecific && b.pathType.value.OtherType?)))
            || (a.priority == b.priority && a.host == b.host && a.path == b.path
                && a.pathType.address == b.pathType.address && StrLess(a.cluster, b.cluster))
  {
  }

  /** On compiled routes the pointer comparison never decides anything. */
  lemma RouteLessCollapses(ri: Route, rj: Route)
    requires Compiled(ri) && Compiled(rj)
    ensures RouteLess(ri, rj) == KeyLess(ri, rj)
  {
    StrLessIrreflexive(ri.path);
    StrLessIrreflexive(ri.cluster);
  }

  lemma KeyLessIsStrictWeakOrder()
    ensures StrictWeakOrder(KeyLess)
  {
    forall a: Route ensures !KeyLess(a, a) { StrLessIrreflexive(a.path); }
    forall a: Route, b: Route, c: Route | KeyLess(a, b) && KeyLess(b, c) ensures KeyLess(a, c) {
      KeyLessTransitive(a, b, c);
    }
    forall a: Route, b: Route, c: Route | !KeyLess(a, b) && !KeyLess(b, c) ensures !KeyLess(a, c) {
      KeyLessNegativelyTransitive(a, b, c);
    }
  }

  lemma KeyLessTransitive(a: Route, b: Route, c: Route)
    requires KeyLess(a, b) && KeyLess(b, c)
    ensures KeyLess(a, c)
  {
    if a.priority == b.priority == c.priority {
      if a.host == b.host == c.host {
        StrLessTransitive(a.path, b.path, c.path);
      } else if a.host != b.host && b.host != c.host {
        StrLessTransitive(a.host, b.host, c.host);
        StrLessIrreflexive(a.host);
      }
    }
  }

  lemma KeyLessTotal(a: Route, b: Route)
    ensures KeyLess(a, b) || KeyLess(b, a) || (a.priority == b.priority && a.host == b.host && a.path == b.path)
  {
    StrLessTotal(a.host, b.host);
    StrLessTotal(a.path, b.path);
  }

  lemma KeyLessNegativelyTransitive(a: Route, b: Route, c: Route)
    requires !KeyLess(a, b) && !KeyLess(b, c)
    ensures !KeyLess(a, c)
  {
    KeyLessTotal(a, b);
    KeyLessTotal(b, c);
    if KeyLess(a, c) {
      if KeyLess(b, a) {
        KeyLessTransitive(b, a, c);
      }
    }
  }

  /** Comparing names orders whatever is named. */
  lemma NamesOrder<T(!new)>(name: T -> string, lt: (T, T) -> bool)
    requires forall a, b :: lt(a, b) == StrLess(name(a), name(b))
    ensures StrictWeakOrder(lt)
  {
    forall a ensures !lt(a, a) { StrLessIrreflexive(name(a)); }
    forall a, b, c | lt(a, b) && lt(b, c) ensures lt(a, c) {
      StrLessTransitive(name(a), name(b), name(c));
    }
    forall a, b, c | !lt(a, b) && !lt(b, c) ensures !lt(a, c) {
      StrLessTotal(name(a), name(b));
      if StrLess(name(b), name(a)) && StrLess(name(a), name(c)) {
        StrLessTransitive(name(b), name(a), name(c));
      }
    }
  }

  // ---- when the pointer comparator is an order ----------------------------------

  /** The laws of a strict weak order, on the members of a list. */
  ghost predicate OrdersMembers(rs: seq<Route>) {
    && (forall a :: a in rs ==> !RouteLess(a, a))
    && (forall a, b, c :: a in rs && b in rs && c in rs && RouteLess(a, b) && RouteLess(b, c) ==> RouteLess(a, c))
    && (forall a, b, c :: a in rs && b in rs && c in rs && !RouteLess(a, b) && !RouteLess(b, c) ==> !RouteLess(a, c))
  }

  /** A pointer has one value. */
  ghost predicate Coherent(rs: seq<Route>) {
    forall a, b :: a in rs && b in rs && a.pathType.address == b.pathType.address ==> a.pathType.value == b.pathType.value
  }

  predicate SameKey(a: Route, b: Route) {
    a.priority == b.priority && a.host == b.host && a.path == b.path
  }

  /** `a` and `c` share a pointer and differ in their cluster, which `b`, of the same rank behind
      another pointer, cannot see. */
  predicate Clash(a: Route, b: Route, c: Route) {
    && SameKey(a, b) && SameKey(b, c)
    && a.pathType.address == c.pathType.address && a.cluster != c.cluster
    && b.pathType.address != a.pathType.address
    && PathTypeRank(b.pathType.value) == PathTypeRank(a.pathType.value)
  }

  ghost predicate NoClash(rs: seq<Route>) {
    forall a, b, c :: a in rs && b in rs && c in rs ==> !Clash(a, b, c)
  }

  lemma LessIrreflexive(a: Route)
    ensures !RouteLess(a, a)
  {
    StrLessIrreflexive(a.cluster);
  }

  /** The key decides before the pointer does. */
  lemma KeyDecides(a: Route, b: Route)
    requires !SameKey(a, b)
    ensures RouteLess(a, b) == KeyLess(a, b) && (KeyLess(a, b) || KeyLess(b, a)) && !(KeyLess(a, b) && KeyLess(b, a))
  {
    KeyLessIsStrictWeakOrder();
    StrLessTotal(a.host, b.host);
    StrLessTotal(a.path, b.path);
  }

  lemma LessTransitive(rs: seq<Route>, a: Route, b: Route, c: Route)
    requires Coherent(rs) && a in rs && b in rs && c in rs && RouteLess(a, b) && RouteLess(b, c)
    ensures RouteLess(a, c)
  {
    if SameKey(a, b) && SameKey(b, c) {
      if a.pathType.address == b.pathType.address == c.pathType.address {
        StrLessTransitive(a.cluster, b.cluster, c.cluster);
      }
    } else {
      KeyLessIsStrictWeakOrder();
      if !SameKey(a, b) { KeyDecides(a, b); }
      if !SameKey(b, c) { KeyDecides(b, c); }
      if !SameKey(a, c) { KeyDecides(a, c); }
    }
  }

  lemma IncomparableTransitive(rs: seq<Route>, a: Route, b: Route, c: Route)
    requires Coherent(rs) && NoClash(rs) && a in rs && b in rs && c in rs
    requires !RouteLess(a, b) && !RouteLess(b, c)
    ensures !RouteLess(a, c)
  {
    if SameKey(a, b) && SameKey(b, c) {
      assert !Clash(a, b, c);
      IncomparableInClass(a, b, c);
    } else if RouteLess(a, c) {
      KeyLessIsStrictWeakOrder();
      if !SameKey(a, b) { KeyDecides(a, b); }
      if !SameKey(b, c) { KeyDecides(b, c); }
      if !SameKey(a, c) { KeyDecides(a, c); }
    }
  }

  lemma IncomparableInClass(a: Route, b: Route, c: Route)
    requires SameKey(a, b) && SameKey(b, c) && !Clash(a, b, c) && !RouteLess(a, b) && !RouteLess(b, c)
    requires a.pathType.address == b.pathType.address ==> a.pathType.value == b.pathType.value
    requires b.pathType.address == c.pathType.address ==> b.pathType.value == c.pathType.value
    requires a.pathType.address == c.pathType.address ==> a.pathType.value == c.pathType.value
    ensures !RouteLess(a, c)
  {
    StrLessTotal(a.cluster, b.cluster);
    StrLessTotal(b.cluster, c.cluster);
    StrLessIrreflexive(a.cluster);
    if StrLess(b.cluster, a.cluster) && StrLess(a.cluster, c.cluster) {
      StrLessTransitive(b.cluster, a.cluster, c.cluster);
    }
  }

  lemma ClashIsNoOrder(rs: seq<Route>, a: Route, b: Route, c: Route)
    requires Coherent(rs) && a in rs && b in rs && c in rs && Clash(a, b, c)
    ensures !OrdersMembers(rs)
  {
    StrLessTotal(a.cluster, c.cluster);
    assert RouteLess(a, c) || RouteLess(c, a);
    assert !RouteLess(a, b) && !RouteLess(b, c) && !RouteLess(c, b) && !RouteLess(b, a);
  }

  /** On routes whose pointers have one value each, the comparator is a strict weak order exactly
      when no two routes of one pointer differ in their cluster next to a third of the same key and
      rank behind another pointer. */
  lemma PointerOrderIff(rs: seq<Route>)
    requires Coherent(rs)
    ensures OrdersMembers(rs) <==> NoClash(rs)
  {
    if NoClash(rs) {
      forall a | a in rs ensures !RouteLess(a, a) { LessIrreflexive(a); }
      forall a, b, c | a in rs && b in rs && c in rs && RouteLess(a, b) && RouteLess(b, c) ensures RouteLess(a, c) {
        LessTransitive(rs, a, b, c);
      }
      forall a, b, c | a in rs && b in rs && c in rs && !RouteLess(a, b) && !RouteLess(b, c) ensures !RouteLess(a, c) {
        IncomparableTransitive(rs, a, b, c);
      }
    } else {
      var a, b, c :| a in rs && b in rs && c in rs && Clash(a, b, c);
      ClashIsNoOrder(rs, a, b, c);
    }
  }

  /** Compiled routes never clash: host and path fix the cluster. */
  lemma CompiledRoutesAreOrdered(rs: seq<Route>)
    requires Coherent(rs) && forall r :: r in rs ==> Compiled(r)
    ensures OrdersMembers(rs)
  {
    PointerOrderIff(rs);
  }

  /** Three routes of one key, two of them behind one pointer, on which it is no order. */
  lemma PointerComparatorIsNoOrder()
    ensures var a := Route("h", "/", PathTypeRef(1, Wire.Exact), "b", 0);
            var b := Route("h", "/", PathTypeRef(2, Wire.Exact), "a", 0);
            var c := Route("h", "/", PathTypeRef(1, Wire.Exact), "a", 0);
            Coherent([a, b, c]) && !OrdersMembers([a, b, c])
  {
    var a := Route("h", "/", PathTypeRef(1, Wire.Exact), "b", 0);
    var b := Route("h", "/", PathTypeRef(2, Wire.Exact), "a", 0);
    var c := Route("h", "/", PathTypeRef(1, Wire.Exact), "a", 0);
    var rs := [a, b, c];
    assert rs[0] == a && rs[1] == b && rs[2] == c;
    assert Clash(a, b, c);
    ClashIsNoOrder(rs, a, b, c);
  }

  // ---- the entries of a list of targets --------------------------------------

  /** The entries of the paths in `done`, each once. */
  ghost function PathBag(t: TargetProxy, done: set<string>): multiset<Entry>
    requires done <= t.paths.Keys
  {
    multiset(set p | p in done :: Entry(t.host, p, t.paths[p]))
  }

  ghost function AllPaths(t: TargetProxy): multiset<Entry> {
    PathBag(t, t.paths.Keys)
  }

  ghost function EntryBag(targets: seq<TargetProxy>): multiset<Entry> {
    Collect(AllPaths, targets)
  }

  function RoutesOf(es: seq<Entry>): seq<Route> {
    Map(RouteOf, es)
  }

  function ClustersOf(es: seq<Entry>): seq<Wire.Cluster> {
    Map(ClusterOf, es)
  }

  /** The certificates of the targets that have one, in target order. */
  function TlsOf(targets: seq<TargetProxy>): seq<TlsSecret> {
    if targets == [] then []
    else
      var t := targets[|targets| - 1];
      TlsOf(targets[..|targets| - 1]) + if t.sni.name != "" then [t.sni] else []
  }

  /** `routes` and `clusters` are a possible outcome of `ToSnapshot` on `targets`, for some
      iteration order of the path maps and some choice of the unstable sort. */
  ghost predicate IsSnapshotOf(routes: seq<Route>, clusters: seq<Wire.Cluster>, targets: seq<TargetProxy>) {
    exists es: seq<Entry> :: IsSnapshotVia(routes, clusters, targets, es)
  }

  ghost predicate IsSnapshotVia(
    routes: seq<Route>, clusters: seq<Wire.Cluster>, targets: seq<TargetProxy>, es: seq<Entry>)
  {
    && multiset(es) == EntryBag(targets)
    && IsSortOf(routes, RoutesOf(es), RouteLess)
    && IsSortOf(clusters, ClustersOf(es), ClusterLess)
  }

  class Snapshot {
    var version: string
    const controllerId := "argon.github.io/ingress"
    const ingressClassName: string
    const generatedAt: int
    var routes: seq<Route>
    var clusters: seq<Wire.Cluster>
    var tls: seq<TlsSecret>

    constructor (ingressClassName: string, now: int)
      ensures this.ingressClassName == ingressClassName && generatedAt == now && version == ""
      ensures routes == [] && clusters == [] && tls == []
    {
      this.ingressClassName, generatedAt, version := ingressClassName, now, "";
      routes, clusters, tls := [], [], [];
    }

    /** Sorts in place. The routes come out in comparator order when they are compiled ones;
        for other routes only the permutation is promised. */
    method Sort()
      modifies this`routes, this`clusters, this`tls
      ensures multiset(routes) == multiset(old(routes))
      ensures (forall r :: r in old(routes) ==> Compiled(r)) ==> IsSortOf(routes, old(routes), RouteLess)
      ensures IsSortOf(clusters, old(clusters), ClusterLess)
      ensures IsSortOf(tls, old(tls), TlsLess)
    {
      ghost var before := routes;
      StableSortCongruence(routes, RouteLess, RouteLess);
      routes := StableSort(routes, RouteLess);
      if forall r :: r in before ==> Compiled(r) {
        CompiledSort(before);
      }
      NamesOrder((c: Wire.Cluster) => c.name, ClusterLess);
      StableSortIsSort(clusters, ClusterLess);
      clusters := StableSort(clusters, ClusterLess);
      NamesOrder((c: TlsSecret) => c.name, TlsLess);
      StableSortIsSort(tls, TlsLess);
      tls := StableSort(tls, TlsLess);
    }
  }

  lemma CompiledSort(s: seq<Route>)
    requires forall r :: r in s ==> Compiled(r)
    ensures IsSortOf(StableSort(s, RouteLess), s, RouteLess)
  {
    forall x, y | x in s && y in s ensures RouteLess(x, y) == KeyLess(x, y) { RouteLessCollapses(x, y); }
    StableSortCongruence(s, RouteLess, KeyLess);
    KeyLessIsStrictWeakOrder();
    StableSortIsSort(s, KeyLess);
    var t := StableSort(s, RouteLess);
    forall i, j | 0 <= i < j < |t| ensures !RouteLess(t[j], t[i]) {
      assert t[i] in multiset(t) && t[j] in multiset(t);
      RouteLessCollapses(t[j], t[i]);
    }
  }

  /** The loop over one path's addresses. */
  method BuildEndpoints(te: TargetEndpoint) returns (endpoints: seq<Wire.Endpoint>)
    ensures |endpoints| == |te.addresses|
    ensures forall i :: 0 <= i < |endpoints| ==>
              && endpoints[i].address == te.addresses[i]
              && endpoints[i].port == te.port
              && endpoints[i].weight == 1
  {
    endpoints := [];
    for a := 0 to |te.addresses|
      invariant |endpoints| == a
      invariant forall i :: 0 <= i < a ==> endpoints[i] == Wire.Endpoint(te.addresses[i], te.port, 1)
    {
      endpoints := endpoints + [Wire.Endpoint(te.addresses[a], te.port, 1)];
    }
  }

  lemma AppendEntry(es: seq<Entry>, e: Entry)
    ensures RoutesOf(es + [e]) == RoutesOf(es) + [RouteOf(e)]
    ensures ClustersOf(es + [e]) == ClustersOf(es) + [ClusterOf(e)]
    ensures multiset(es + [e]) == multiset(es) + multiset{e}
  {
  }

  /** `es` lists the entries before this target and those of its paths in `done`. */
  ghost predicate Appended(tp: TargetProxy, before: seq<Entry>, es: seq<Entry>, done: set<string>) {
    done <= tp.paths.Keys && multiset(es) == multiset(before) + PathBag(tp, done)
  }

  /** One turn of the loop over a target's paths adds one entry to the bag. */
  lemma AppendPathStep(tp: TargetProxy, before: seq<Entry>, es: seq<Entry>, done: set<string>, path: string)
    requires Appended(tp, before, es, done) && path in tp.paths && path !in done
    ensures Appended(tp, before, es + [Entry(tp.host, path, tp.paths[path])], done + {path})
  {
    AppendEntry(es, Entry(tp.host, path, tp.paths[path]));
  }

  /** The body of the loop over one target's paths. */
  method AppendPath(snap: Snapshot, host: string, path: string, te: TargetEndpoint)
    modifies snap`routes, snap`clusters
    ensures snap.routes == old(snap.routes) + [RouteOf(Entry(host, path, te))]
    ensures snap.clusters == old(snap.clusters) + [ClusterOf(Entry(host, path, te))]
    ensures Leads(snap.routes[|old(snap.routes)|], host, path, te)
    ensures Carries(snap.clusters[|old(snap.clusters)|], host, path, te)
  {
    var clusterName := ClusterName(host, path);
    snap.routes := snap.routes + [
      Route(host, path, te.pathType, clusterName, RoutePriority(path, te.pathType.value))];
    var endpoints := BuildEndpoints(te);
    assert endpoints == EndpointsOf(te.addresses, te.port);
    snap.clusters := snap.clusters + [
      Wire.Cluster(clusterName, te.lbAlgorithm, endpoints, te.timeoutMs, te.retries,
                   te.backendProtocol, te.rewriteHeaders, te.auth)];
  }

  /** The loop over one target's path map, in any order. */
  method AppendTarget(snap: Snapshot, tp: TargetProxy, ghost before: seq<Entry>) returns (ghost es: seq<Entry>)
    requires snap.routes == RoutesOf(before) && snap.clusters == ClustersOf(before)
    modifies snap`routes, snap`clusters
    ensures multiset(es) == multiset(before) + AllPaths(tp)
    ensures snap.routes == RoutesOf(es) && snap.clusters == ClustersOf(es)
  {
    es := before;
    var left := tp.paths.Keys;
    ghost var done: set<string> := {};
    while left != {}
      invariant done + left == tp.paths.Keys && done !! left && Appended(tp, before, es, done)
      invariant snap.routes == RoutesOf(es) && snap.clusters == ClustersOf(es)
    {
      var path :| path in left;
      AppendPathStep(tp, before, es, done, path);
      AppendEntry(es, Entry(tp.host, path, tp.paths[path]));
      AppendPath(snap, tp.host, path, tp.paths[path]);
      es, left, done := es + [Entry(tp.host, path, tp.paths[path])], left - {path}, done + {path};
    }
    assert done == tp.paths.Keys;
  }

  lemma RoutesOfCompiled(es: seq<Entry>)
    ensures forall r :: r in RoutesOf(es) ==> Compiled(r)
  {
    var rs := RoutesOf(es);
    assert forall i :: 0 <= i < |rs| ==> rs[i] == RouteOf(es[i]) && Compiled(rs[i]);
  }

  /** One more target: its entries and its certificate. */
  lemma TargetStep(targets: seq<TargetProxy>, i: nat)
    requires i < |targets|
    ensures EntryBag(targets[..i + 1]) == EntryBag(targets[..i]) + AllPaths(targets[i])
    ensures TlsOf(targets[..i + 1]) == TlsOf(targets[..i]) + if targets[i].sni.name != "" then [targets[i].sni] else []
  {
    assert targets[..i + 1][..i] == targets[..i];
  }

  lemma SnapshotVia(routes: seq<Route>, clusters: seq<Wire.Cluster>, targets: seq<TargetProxy>, es: seq<Entry>)
    requires IsSnapshotVia(routes, clusters, targets, es)
    ensures IsSnapshotOf(routes, clusters, targets)
  {
  }

  /** The loop over the targets. */
  method AppendTargets(snap: Snapshot, targets: seq<TargetProxy>) returns (ghost es: seq<Entry>)
    requires snap.routes == [] && snap.clusters == [] && snap.tls == []
    modifies snap`routes, snap`clusters, snap`tls
    ensures multiset(es) == EntryBag(targets)
    ensures snap.routes == RoutesOf(es) && snap.clusters == ClustersOf(es) && snap.tls == TlsOf(targets)
  {
    es := [];
    for i := 0 to |targets|
      invariant multiset(es) == EntryBag(targets[..i])
      invariant snap.routes == RoutesOf(es) && snap.clusters == ClustersOf(es)
      invariant snap.tls == TlsOf(targets[..i])
    {
      TargetStep(targets, i);
      if targets[i].sni.name != "" {
        snap.tls := snap.tls + [targets[i].sni];
      }
      es := AppendTarget(snap, targets[i], es);
    }
    assert targets[..|targets|] == targets;
  }

  // ---- what a snapshot says of its targets ----------------------------------------

  lemma {:induction false} EntryBagHolds(targets: seq<TargetProxy>, e: Entry)
    ensures e in EntryBag(targets) <==>
            exists t :: t in targets && e.host == t.host && e.path in t.paths && e.endpoint == t.paths[e.path]
  {
    if targets != [] {
      var n := |targets| - 1;
      var init, last := targets[..n], targets[n];
      assert targets == init + [last];
      EntryBagHolds(init, e);
      TargetStep(targets, n);
      assert targets[..n + 1] == targets;
      assert e in AllPaths(last) <==> e.host == last.host && e.path in last.paths && e.endpoint == last.paths[e.path];
    }
  }

  /** The path of a target has its route and its cluster. */
  ghost predicate HasRoute(routes: seq<Route>, t: TargetProxy, p: string)
    requires p in t.paths
  {
    exists r :: r in routes && Leads(r, t.host, p, t.paths[p])
  }

  ghost predicate HasCluster(clusters: seq<Wire.Cluster>, t: TargetProxy, p: string)
    requires p in t.paths
  {
    exists c :: c in clusters && Carries(c, t.host, p, t.paths[p])
  }

  /** Descending priority, then ascending host, then ascending path. */
  predicate InOrder(routes: seq<Route>) {
    forall i, j :: 0 <= i < j < |routes| ==>
      var a, b := routes[i], routes[j];
      || a.priority > b.priority
      || (a.priority == b.priority && StrLess(a.host, b.host))
      || (a.priority == b.priority && a.host == b.host && (StrLess(a.path, b.path) || a.path == b.path))
  }

  ghost predicate RouteIsCalledFor(r: Route, targets: seq<TargetProxy>) {
    exists t :: t in targets && r.path in t.paths && Leads(r, t.host, r.path, t.paths[r.path])
  }

  ghost predicate ClusterIsCalledFor(c: Wire.Cluster, targets: seq<TargetProxy>) {
    exists t, p :: t in targets && p in t.paths && Carries(c, t.host, p, t.paths[p])
  }

  /** Every path of every target leads to its cluster, and there is nothing else. */
  ghost predicate Compiles(routes: seq<Route>, clusters: seq<Wire.Cluster>, targets: seq<TargetProxy>) {
    && (forall t, p :: t in targets && p in t.paths ==> HasRoute(routes, t, p) && HasCluster(clusters, t, p))
    && (forall r :: r in routes ==> RouteIsCalledFor(r, targets))
    && (forall c :: c in clusters ==> ClusterIsCalledFor(c, targets))
    && |routes| == |clusters|
  }

  lemma EntriesAreCompiled(
    routes: seq<Route>, clusters: seq<Wire.Cluster>, targets: seq<TargetProxy>, t: TargetProxy, p: string)
    requires IsSnapshotOf(routes, clusters, targets) && t in targets && p in t.paths
    ensures HasRoute(routes, t, p) && HasCluster(clusters, t, p)
  {
    var es :| IsSnapshotVia(routes, clusters, targets, es);
    var e := Entry(t.host, p, t.paths[p]);
    EntryBagHolds(targets, e);
    assert e in multiset(es);
    var i := ImagePosition(RouteOf, es, routes, e);
    assert routes[i] in routes && Leads(routes[i], t.host, p, t.paths[p]);
    var k := ImagePosition(ClusterOf, es, clusters, e);
    assert clusters[k] in clusters && Carries(clusters[k], t.host, p, t.paths[p]);
  }

  lemma NothingElseIsCompiled(routes: seq<Route>, clusters: seq<Wire.Cluster>, targets: seq<TargetProxy>)
    requires IsSnapshotOf(routes, clusters, targets)
    ensures forall r :: r in routes ==> RouteIsCalledFor(r, targets)
    ensures forall c :: c in clusters ==> ClusterIsCalledFor(c, targets)
    ensures |routes| == |clusters|
  {
    var es :| IsSnapshotVia(routes, clusters, targets, es);
    forall r | r in routes ensures RouteIsCalledFor(r, targets) {
      var e := Preimage(RouteOf, es, routes, r);
      assert e in multiset(es);
      EntryBagHolds(targets, e);
    }
    forall c | c in clusters ensures ClusterIsCalledFor(c, targets) {
      var e := Preimage(ClusterOf, es, clusters, c);
      assert e in multiset(es);
      EntryBagHolds(targets, e);
    }
    assert |routes| == |multiset(routes)| == |es| == |multiset(clusters)| == |clusters|;
  }

  lemma CompiledInOrder(routes: seq<Route>, es: seq<Entry>)
    requires IsSortOf(routes, RoutesOf(es), RouteLess)
    ensures InOrder(routes)
  {
    RoutesOfCompiled(es);
    forall i, j | 0 <= i < j < |routes| ensures !KeyLess(routes[j], routes[i]) {
      assert routes[i] in multiset(routes) && routes[j] in multiset(routes);
      RouteLessCollapses(routes[j], routes[i]);
    }
    forall i, j | 0 <= i < j < |routes| {
      KeyLessTotal(routes[i], routes[j]);
    }
  }

  /** Any snapshot of the targets says what the targets say, in order. */
  lemma SnapshotCompiles(routes: seq<Route>, clusters: seq<Wire.Cluster>, targets: seq<TargetProxy>)
    requires IsSnapshotOf(routes, clusters, targets)
    ensures Compiles(routes, clusters, targets) && InOrder(routes)
    ensures forall i, j :: 0 <= i < j < |clusters| ==> !StrLess(clusters[j].name, clusters[i].name)
  {
    var es :| IsSnapshotVia(routes, clusters, targets, es);
    CompiledInOrder(routes, es);
    NothingElseIsCompiled(routes, clusters, targets);
    forall t, p | t in targets && p in t.paths ensures HasRoute(routes, t, p) && HasCluster(clusters, t, p) {
      EntriesAreCompiled(routes, clusters, targets, t, p);
    }
  }

  lemma {:induction false} TlsOfHolds(targets: seq<TargetProxy>, s: TlsSecret)
    ensures s in TlsOf(targets) <==> s.name != "" && exists t :: t in targets && t.sni == s
  {
    if targets != [] {
      var n := |targets| - 1;
      assert targets == targets[..n] + [targets[n]];
      TlsOfHolds(targets[..n], s);
    }
  }

  /** The certificates listed are those of the targets that have one, by name. */
  ghost predicate ListsTls(tls: seq<TlsSecret>, targets: seq<TargetProxy>) {
    && (forall s :: s in tls <==> s.name != "" && exists t :: t in targets && t.sni == s)
    && (forall i, j :: 0 <= i < j < |tls| ==> !StrLess(tls[j].name, tls[i].name))
  }

  lemma SortedTls(tls: seq<TlsSecret>, targets: seq<TargetProxy>)
    requires IsSortOf(tls, TlsOf(targets), TlsLess)
    ensures ListsTls(tls, targets)
  {
    forall s ensures s in tls <==> s.name != "" && exists t :: t in targets && t.sni == s {
      assert s in tls <==> s in multiset(tls);
      TlsOfHolds(targets, s);
    }
  }

  /** The clock is `now`, and `hash` stands for the printed and hashed lists. */
  method ToSnapshot(
    targets: seq<TargetProxy>, ingressClassName: string, now: int,
    hash: (seq<Route>, seq<Wire.Cluster>, seq<TlsSecret>) -> string)
    returns (snap: Snapshot)
    ensures fresh(snap) && snap.ingressClassName == ingressClassName && snap.generatedAt == now
    ensures IsSnapshotOf(snap.routes, snap.clusters, targets)
    ensures Compiles(snap.routes, snap.clusters, targets) && InOrder(snap.routes)
    ensures IsSortOf(snap.tls, TlsOf(targets), TlsLess) && ListsTls(snap.tls, targets)
    ensures snap.version == hash(snap.routes, snap.clusters, snap.tls)
  {
    snap := new Snapshot(ingressClassName, now);
    ghost var es := AppendTargets(snap, targets);
    RoutesOfCompiled(es);
    snap.Sort();
    SnapshotVia(snap.routes, snap.clusters, targets, es);
    SnapshotCompiles(snap.routes, snap.clusters, targets);
    SortedTls(snap.tls, targets);
    snap.version := hash(snap.routes, snap.clusters, snap.tls);
  }
}
