/** Distribution and routing together: whatever broadcasts, reconnects and table swaps happen around
    it, a request is decided by the targets of one broadcast that its data plane had received, and
    requests are never decided by older targets than earlier ones. */
module Requests {
  import opened Text
  import opened ControlPlane
  import opened Distribution
  import opened DistributionInvariant
  import opened DistributionTheorems
  import E = EndToEnd
  import RT = RouteTable
  import Wire

  // ---- the table generations that requests have seen --------------------------------------

  /** Generation 0 is the empty table of a new data plane; any other was received. */
  predicate Known(cl: Client, g: nat) {
    g == 0 || g in cl.received
  }

  /** Finished requests saw known generations no newer than the present one, in order. */
  predicate HistoryOk(cl: Client) {
    && (forall i :: 0 <= i < |cl.served| ==>
          forall g :: g in cl.served[i] ==> g <= cl.table && Known(cl, g))
    && (forall i, j :: 0 <= i < j < |cl.served| ==>
          forall g, h :: g in cl.served[i] && h in cl.served[j] ==> g <= h)
  }

  lemma ForwardKeepsHistory(cl: Client, cl': Client)
    requires HistoryOk(cl) && Forward(cl, cl') && cl'.served == cl.served
    ensures HistoryOk(cl')
  {
    forall g | g in cl.received ensures g in cl'.received {
      var i :| 0 <= i < |cl.received| && cl.received[i] == g;
      assert cl'.received[i] == g;
    }
  }

  lemma TableIsKnown(cl: Client, last: nat)
    requires ClientOk(cl, last)
    ensures Known(cl, cl.table)
  {
  }

  /** A request that ends saw the present generation. */
  lemma EndKeepsHistory(cl: Client, last: nat, r: nat)
    requires HistoryOk(cl) && ClientOk(cl, last) && r in cl.readers
    ensures HistoryOk(cl.(readers := cl.readers - {r}, served := cl.served + [cl.readers[r]]))
  {
    TableIsKnown(cl, last);
    forall g | g in cl.readers[r] ensures g == cl.table {
      var i :| 0 <= i < |cl.readers[r]| && cl.readers[r][i] == g;
    }
  }

  lemma StepKeepsServed(s: State, a: Action, c: nat)
    requires Enabled(s, a) && c in s.clients && !(a.EndRequest? && a.c == c)
    ensures c in Apply(s, a).clients && Apply(s, a).clients[c].served == s.clients[c].served
  {
  }

  lemma StepKeepsHistory(s: State, a: Action, c: nat)
    requires Enabled(s, a) && c in s.clients && ClientOk(s.clients[c], s.last) && HistoryOk(s.clients[c])
    ensures c in Apply(s, a).clients && HistoryOk(Apply(s, a).clients[c])
  {
    if a.EndRequest? && a.c == c {
      EndKeepsHistory(s.clients[c], s.last, a.r);
    } else {
      StepKeepsServed(s, a, c);
      StepIsForward(s, a, c);
      ForwardKeepsHistory(s.clients[c], Apply(s, a).clients[c]);
    }
  }

  lemma {:induction false} RunKeepsHistory(s: State, acts: seq<Action>, c: nat)
    requires Inv(s) && ValidRun(s, acts) && c in s.clients && HistoryOk(s.clients[c])
    ensures c in Exec(s, acts).clients && HistoryOk(Exec(s, acts).clients[c])
    decreases acts
  {
    if acts != [] {
      assert ClientOk(s.clients[c], s.last);
      StepKeepsHistory(s, acts[0], c);
      StepKeeps(s, acts[0]);
      RunKeepsHistory(Apply(s, acts[0]), acts[1..], c);
    }
  }

  lemma StepKeepsClients(s: State, a: Action)
    requires Enabled(s, a)
    ensures Apply(s, a).clients.Keys == s.clients.Keys
  {
  }

  lemma {:induction false} RunKeepsClients(s: State, acts: seq<Action>)
    requires ValidRun(s, acts)
    ensures Exec(s, acts).clients.Keys == s.clients.Keys
    decreases acts
  {
    if acts != [] {
      StepKeepsClients(s, acts[0]);
      RunKeepsClients(Apply(s, acts[0]), acts[1..]);
    }
  }

  lemma ReachableHistory(s: State, c: nat)
    requires Reachable(s) && c in s.clients
    ensures HistoryOk(s.clients[c])
  {
    var ids, acts :| ValidRun(Init(ids), acts) && Exec(Init(ids), acts) == s;
    RunKeepsClients(Init(ids), acts);
    RunKeepsHistory(Init(ids), acts, c);
  }

  /** A later request never sees an older table than an earlier one. */
  lemma GenerationsNeverFall(s: State, c: nat, i: nat, j: nat, g: nat, h: nat)
    requires Reachable(s) && c in s.clients && i <= j < |s.clients[c].served|
    requires g in s.clients[c].served[i] && h in s.clients[c].served[j]
    ensures g <= h
  {
    ReachableHistory(s, c);
    RequestSeesOneTable(s, c);
  }

  // ---- decisions ----------------------------------------------------------------------------

  /** What was broadcast, and the targets it was compiled from. */
  datatype Broadcast = Broadcast(targets: seq<TargetProxy>, routes: seq<Route>, clusters: seq<Wire.Cluster>)

  ghost predicate IsCompiled(b: Broadcast) {
    IsSnapshotOf(b.routes, b.clusters, b.targets) && E.Serviceable(EntryBag(b.targets))
  }

  /** The table of generation `g`: empty before the first message. */
  function TableOf(history: seq<Broadcast>, g: nat): RT.Table {
    if 0 < g <= |history| then E.Received(history[g - 1].routes, history[g - 1].clusters)
    else RT.Table(map[], map[])
  }

  /** The three lookups of `proxy_handler`, each on the table of its generation: the route, its
      cluster, and an endpoint of the cluster. Nothing, if the request ended before it was decided. */
  function Decision(history: seq<Broadcast>, gens: seq<nat>, host: string, path: string): Option<E.Decision> {
    if gens == [] then None
    else
      match RT.ChooseRoute(TableOf(history, gens[0]), host, path)
      case None => Some(E.RouteNotFound)
      case Some(rule) =>
        if |gens| < 2 then None
        else
          match RT.GetCluster(TableOf(history, gens[1]), rule.cluster)
          case None => Some(E.ClusterNotFound)
          case Some(_) =>
            if |gens| < 3 then None
            else
              match RT.GetCluster(TableOf(history, gens[2]), rule.cluster)
              case None => Some(E.EndpointNotFound)
              case Some(c) => Some(if c.endpoints == [] then E.EndpointNotFound else E.Forward(c))
  }

  /** Lookups on one generation are the decision on one table. */
  lemma OneTableDecides(history: seq<Broadcast>, gens: seq<nat>, host: string, path: string)
    requires gens != [] && OneGeneration(gens) && Decision(history, gens, host, path).Some?
    ensures Decision(history, gens, host, path).value == E.Decide(TableOf(history, gens[0]), host, path)
  {
  }

  /** The decision `d` is what the targets of generation `g` call for; without targets, no route. */
  ghost predicate DecidedFor(history: seq<Broadcast>, g: nat, host: string, path: string, d: E.Decision) {
    if 0 < g <= |history| then E.DecidedBy(EntryBag(history[g - 1].targets), host, path, d)
    else d == E.RouteNotFound
  }

  lemma TableDecides(history: seq<Broadcast>, g: nat, host: string, path: string)
    requires 0 < g <= |history| ==>
               IsCompiled(history[g - 1]) && E.EntriesFit(EntryBag(history[g - 1].targets), path)
    ensures DecidedFor(history, g, host, path, E.Decide(TableOf(history, g), host, path))
  {
    if 0 < g <= |history| {
      var b := history[g - 1];
      E.RequestsAreServed(b.targets, b.routes, b.clusters, host, path);
    }
  }

  /** Every finished request that was decided was decided by the targets of one broadcast, which
      its data plane had received, or by the empty table it started with. */
  lemma RequestsFollowOneBroadcast(
    s: State, c: nat, i: nat, history: seq<Broadcast>, host: string, path: string) returns (g: nat)
    requires Reachable(s) && c in s.clients && i < |s.clients[c].served| && |history| == s.last
    requires forall k :: 0 <= k < |history| ==>
               IsCompiled(history[k]) && E.EntriesFit(EntryBag(history[k].targets), path)
    requires Decision(history, s.clients[c].served[i], host, path).Some?
    ensures g in s.clients[c].served[i] && Known(s.clients[c], g)
    ensures DecidedFor(history, g, host, path, Decision(history, s.clients[c].served[i], host, path).value)
  {
    var gens := s.clients[c].served[i];
    g := gens[0];
    ReachableHistory(s, c);
    RequestSeesOneTable(s, c);
    OneTableDecides(history, gens, host, path);
    TableDecides(history, g, host, path);
  }
}
