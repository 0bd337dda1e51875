/** Delivery makes progress: while a data plane is left undisturbed, every step that serves it
    brings it closer to having everything, and when none is left to take it has settled. */
module DistributionProgress {
  import opened Distribution
  import opened DistributionInvariant
  import opened DistributionTheorems
  import opened Sorting

  /** Between broadcasts, data plane `c` reads the running stream `id`. */
  predicate Attached(s: State, c: nat, id: nat) {
    && s.pending == {} && c in s.clients && s.clients[c].link == Streaming(id)
    && id in s.streams && Live(s.streams[id])
  }

  /** No broadcast, and no stop or hang-up of the stream. Everybody may do anything else, and the
      data plane may serve requests. */
  predicate Undisturbed(a: Action, c: nat, id: nat) {
    !a.Reconcile? && a != ServerStop(id) && a != Hangup(c)
  }

  /** The step moves a message on its way to the data plane's slots. */
  predicate Delivers(a: Action, c: nat, id: nat) {
    || a == ServerTake(id) || a == ServerSend(id) || a == Receive(c)
    || a == StoreSnapshot(c) || a == StoreTable(c) || a == StoreSni(c)
  }

  /** The step ends a lookup, which may hold up the store of a table. */
  predicate EndsLookup(a: Action, c: nat) {
    a.EndRequest? && a.c == c
  }

  function WorkLeft(w: Work): nat {
    match w
    case Idle => 0
    case Received => 3
    case StoredSnapshot => 2
    case StoredTable => 1
  }

  /** The steps a stream's messages still need: a buffered one six, one in hand five, one on the
      wire four. */
  function StreamLeft(st: Stream): int {
    6 * |st.chan| + (if st.phase.Sending? then 5 else 0) + 4 * (|st.sent| - st.taken)
  }

  function Left(s: State, c: nat, id: nat): int
    requires c in s.clients && id in s.streams
  {
    StreamLeft(s.streams[id]) + WorkLeft(s.clients[c].work)
  }

  /** The same stream, link and work. */
  predicate Same(s: State, s': State, c: nat, id: nat) {
    && s'.pending == s.pending && c in s.clients && c in s'.clients
    && s'.clients[c].link == s.clients[c].link && s'.clients[c].work == s.clients[c].work
    && id in s.streams && id in s'.streams && s'.streams[id] == s.streams[id]
  }

  lemma HubStepElsewhere(s: State, a: Action, c: nat, id: nat)
    requires Inv(s) && Attached(s, c, id) && Enabled(s, a) && Undisturbed(a, c, id) && !Delivers(a, c, id)
    requires IsHubStep(a)
    ensures Same(s, Apply(s, a), c, id)
  {
    assert id < s.next;
  }

  lemma ClientStepElsewhere(s: State, a: Action, c: nat, id: nat)
    requires Inv(s) && Attached(s, c, id) && Enabled(s, a) && Undisturbed(a, c, id) && !Delivers(a, c, id)
    requires !IsHubStep(a)
    ensures Same(s, Apply(s, a), c, id)
  {
    if a.c == c {
    } else if a.Receive? {
      assert LinkOk(s, c) && LinkOk(s, a.c);
    }
  }

  lemma ReceiveDelivers(s: State, c: nat, id: nat)
    requires Attached(s, c, id) && Enabled(s, Receive(c))
    ensures Attached(Apply(s, Receive(c)), c, id) && Left(Apply(s, Receive(c)), c, id) < Left(s, c, id)
  {
  }

  lemma StoreDelivers(s: State, a: Action, c: nat, id: nat)
    requires Attached(s, c, id) && Enabled(s, a)
    requires a == StoreSnapshot(c) || a == StoreTable(c) || a == StoreSni(c)
    ensures Attached(Apply(s, a), c, id) && Left(Apply(s, a), c, id) < Left(s, c, id)
  {
  }

  /** Every delivering step brings the data plane closer; no other step takes it further away. */
  lemma StepProgresses(s: State, a: Action, c: nat, id: nat)
    requires Inv(s) && Attached(s, c, id) && Enabled(s, a) && Undisturbed(a, c, id)
    ensures Attached(Apply(s, a), c, id)
    ensures if Delivers(a, c, id) then Left(Apply(s, a), c, id) < Left(s, c, id)
            else Left(Apply(s, a), c, id) == Left(s, c, id)
  {
    if !Delivers(a, c, id) {
      if IsHubStep(a) { HubStepElsewhere(s, a, c, id); } else { ClientStepElsewhere(s, a, c, id); }
    } else if a.ServerTake? || a.ServerSend? {
    } else if a.Receive? {
      ReceiveDelivers(s, c, id);
    } else {
      StoreDelivers(s, a, c, id);
    }
  }

  predicate AllUndisturbed(acts: seq<Action>, c: nat, id: nat) {
    forall i :: 0 <= i < |acts| ==> Undisturbed(acts[i], c, id)
  }

  function Deliveries(acts: seq<Action>, c: nat, id: nat): nat {
    if acts == [] then 0 else (if Delivers(acts[0], c, id) then 1 else 0) + Deliveries(acts[1..], c, id)
  }

  /** Over an undisturbed run, what is left bounds the deliveries that can still happen. */
  lemma {:induction false} RunProgresses(s: State, acts: seq<Action>, c: nat, id: nat)
    requires Inv(s) && Attached(s, c, id) && ValidRun(s, acts) && AllUndisturbed(acts, c, id)
    ensures Inv(Exec(s, acts)) && Attached(Exec(s, acts), c, id)
    ensures Deliveries(acts, c, id) + Left(Exec(s, acts), c, id) <= Left(s, c, id)
    decreases acts
  {
    if acts != [] {
      StepKeeps(s, acts[0]);
      StepProgresses(s, acts[0], c, id);
      RunProgresses(Apply(s, acts[0]), acts[1..], c, id);
    }
  }

  /** While a data plane has not settled, some delivering step can be taken, or a lookup that holds
      up a store can end. */
  lemma NotStuck(s: State, c: nat, id: nat) returns (a: Action)
    requires Inv(s) && Attached(s, c, id) && !Settled(s, c)
    ensures Enabled(s, a) && Undisturbed(a, c, id)
    ensures Delivers(a, c, id) || (EndsLookup(a, c) && s.clients[c].work.StoredSnapshot?)
  {
    var st, cl := s.streams[id], s.clients[c];
    assert StreamOk(st, s.last, id in s.pending);
    match cl.work
    case Received => a := StoreSnapshot(c);
    case StoredSnapshot =>
      if cl.readers == map[] {
        a := StoreTable(c);
      } else {
        var r :| r in cl.readers;
        a := EndRequest(c, r);
      }
    case StoredTable => a := StoreSni(c);
    case Idle =>
      if st.taken < |st.sent| {
        a := Receive(c);
      } else if st.phase.Sending? {
        a := ServerSend(id);
      } else {
        a := ServerTake(id);
      }
  }

  /** Every undisturbed run from a reachable state, whatever requests it serves, makes at most `Left`
      deliveries. Once none can be taken and no lookup runs, the data plane has settled: it runs the
      hub's snapshot exactly when the latest broadcast was not dropped on its channel. */
  lemma DeliverySettles(s: State, acts: seq<Action>, c: nat, id: nat)
    requires Reachable(s) && Attached(s, c, id) && ValidRun(s, acts) && AllUndisturbed(acts, c, id)
    ensures Deliveries(acts, c, id) <= Left(s, c, id) && Attached(Exec(s, acts), c, id)
    ensures var s' := Exec(s, acts);
            (forall a :: Delivers(a, c, id) || EndsLookup(a, c) ==> !Enabled(s', a)) ==>
              && Settled(s', c)
              && (s'.clients[c].table == s'.last <==> s'.last !in s'.streams[id].drops)
  {
    ReachableInv(s);
    RunProgresses(s, acts, c, id);
    var s' := Exec(s, acts);
    if forall a :: Delivers(a, c, id) || EndsLookup(a, c) ==> !Enabled(s', a) {
      if !Settled(s', c) {
        var a := NotStuck(s', c, id);
      }
      ReachableRun(s, acts);
      SettledIsCurrentIff(s', c);
    }
  }

  lemma {:induction false} ReachableRun(s: State, acts: seq<Action>)
    requires Reachable(s) && ValidRun(s, acts)
    ensures Reachable(Exec(s, acts))
    decreases acts
  {
    if acts != [] {
      ReachableStep(s, acts[0]);
      ReachableRun(Apply(s, acts[0]), acts[1..]);
    }
  }

  lemma OneReaderLess(readers: map<nat, seq<nat>>, r: nat)
    requires r in readers
    ensures |readers - {r}| < |readers|
  {
    assert (readers - {r}).Keys == readers.Keys - {r};
    assert |readers| == |readers.Keys| && |readers - {r}| == |(readers - {r}).Keys|;
  }

  lemma DeliveryKeepsReaders(s: State, a: Action, c: nat, id: nat)
    requires Enabled(s, a) && Delivers(a, c, id) && c in s.clients
    ensures c in Apply(s, a).clients && Apply(s, a).clients[c].readers == s.clients[c].readers
  {
  }

  /** The steps to settling: deliveries, and lookups to end. */
  function StepsLeft(s: State, c: nat, id: nat): int
    requires c in s.clients && id in s.streams
  {
    Left(s, c, id) + |s.clients[c].readers|
  }

  lemma OneStepLess(s: State, c: nat, id: nat) returns (a: Action)
    requires Inv(s) && Attached(s, c, id) && !Settled(s, c)
    ensures Enabled(s, a) && Undisturbed(a, c, id) && (Delivers(a, c, id) || EndsLookup(a, c))
    ensures Inv(Apply(s, a)) && Attached(Apply(s, a), c, id)
    ensures 0 <= StepsLeft(Apply(s, a), c, id) < StepsLeft(s, c, id)
  {
    a := NotStuck(s, c, id);
    StepKeeps(s, a);
    StepProgresses(s, a, c, id);
    if Delivers(a, c, id) {
      DeliveryKeepsReaders(s, a, c, id);
    } else {
      OneReaderLess(s.clients[c].readers, a.r);
    }
  }

  predicate OnlyServes(acts: seq<Action>, c: nat, id: nat) {
    forall i :: 0 <= i < |acts| ==> Delivers(acts[i], c, id) || EndsLookup(acts[i], c)
  }

  /** Deliveries and ends of lookups alone, hence undisturbed, that settle the data plane. */
  ghost predicate Settles(s: State, c: nat, id: nat, acts: seq<Action>) {
    ValidRun(s, acts) && OnlyServes(acts, c, id) && Settled(Exec(s, acts), c)
  }

  lemma StepFirst(s: State, a: Action, rest: seq<Action>, c: nat, id: nat)
    requires Enabled(s, a) && (Delivers(a, c, id) || EndsLookup(a, c)) && Settles(Apply(s, a), c, id, rest)
    ensures Settles(s, c, id, [a] + rest)
  {
    assert ([a] + rest)[1..] == rest;
  }

  /** And some bounded run of that kind does settle it. */
  lemma {:induction false} SettlingRun(s: State, c: nat, id: nat) returns (acts: seq<Action>)
    requires Inv(s) && Attached(s, c, id)
    ensures Settles(s, c, id, acts) && |acts| <= StepsLeft(s, c, id)
    decreases StepsLeft(s, c, id)
  {
    if Settled(s, c) {
      acts := [];
    } else {
      var a := OneStepLess(s, c, id);
      var rest := SettlingRun(Apply(s, a), c, id);
      StepFirst(s, a, rest, c, id);
      acts := [a] + rest;
    }
  }

  // ---- reconnecting -----------------------------------------------------------------------

  /** After the run the data plane has settled, its three slots hold `k`, and nothing was broadcast. */
  ghost predicate BringsTo(s: State, c: nat, acts: seq<Action>, k: nat) {
    && ValidRun(s, acts)
    && var s' := Exec(s, acts);
       && Reachable(s') && Settled(s', c) && s'.last == s.last
       && s'.clients[c].snapshot == s'.clients[c].table == s'.clients[c].sni == k
  }

  /** A new call between broadcasts: its stream starts with the hub's snapshot. */
  lemma Redial(s: State, c: nat)
    requires HubOk(s) && s.pending == {} && 0 < s.last && c in s.clients && s.clients[c].link.Down?
    ensures var acts := Redials(c, s.clients[c].calls + 1, s.next);
            && ValidRun(s, acts)
            && var s' := Exec(s, acts);
               Attached(s', c, s.next) && s'.last == s.last && Head(s'.streams[s.next]) == s.last
  {
    assert VersionOf(s.versions, s.last) != "";
    ThreeSteps(s, Dial(c), Accept(c, s.clients[c].calls + 1), Attach(c, s.next));
  }

  lemma ThreeSteps(s: State, a: Action, b: Action, c: Action)
    requires Enabled(s, a) && Enabled(Apply(s, a), b) && Enabled(Apply(Apply(s, a), b), c)
    ensures ValidRun(s, [a, b, c]) && Exec(s, [a, b, c]) == Apply(Apply(Apply(s, a), b), c)
  {
    OneStep(s, a);
    OneStep(Apply(s, a), b);
    OneStep(Apply(Apply(s, a), b), c);
    RunJoin(s, [a], [b]);
    RunJoin(s, [a] + [b], [c]);
    assert [a] + [b] + [c] == [a, b, c];
  }

  lemma OneStep(s: State, a: Action)
    requires Enabled(s, a)
    ensures ValidRun(s, [a]) && Exec(s, [a]) == Apply(s, a)
  {
    assert [a][1..] == [];
  }

  lemma ServingStep(s: State, a: Action, c: nat, id: nat)
    requires Enabled(s, a) && (Delivers(a, c, id) || EndsLookup(a, c)) && id in s.streams
    ensures var s' := Apply(s, a);
            id in s'.streams && s'.last == s.last && Head(s'.streams[id]) == Head(s.streams[id])
  {
    var st, st' := s.streams[id], Apply(s, a).streams[id];
    assert Flow(st') == Flow(st) by {
      if a == ServerTake(id) { assert st.chan == [st.chan[0]] + st.chan[1..]; }
    }
  }

  /** Serving steps broadcast nothing and keep the newest snapshot of the stream. */
  lemma {:induction false} ServingKeepsHead(s: State, acts: seq<Action>, c: nat, id: nat)
    requires ValidRun(s, acts) && OnlyServes(acts, c, id) && id in s.streams
    ensures var s' := Exec(s, acts);
            id in s'.streams && s'.last == s.last && Head(s'.streams[id]) == Head(s.streams[id])
    decreases acts
  {
    if acts != [] {
      ServingStep(s, acts[0], c, id);
      ServingKeepsHead(Apply(s, acts[0]), acts[1..], c, id);
    }
  }

  function Redials(c: nat, call: nat, id: nat): seq<Action> {
    [Dial(c), Accept(c, call), Attach(c, id)]
  }

  lemma ReconnectBetween(s: State, c: nat)
    requires Reachable(s) && s.pending == {} && 0 < s.last && c in s.clients && s.clients[c].link.Down?
    ensures exists acts :: OnlyServes(acts, c, s.next) && BringsTo(s, c, Redials(c, s.clients[c].calls + 1, s.next) + acts, s.last)
  {
    var dial := Redials(c, s.clients[c].calls + 1, s.next);
    assert HubOk(s) by { ReachableInv(s); }
    Redial(s, c);
    ReachableRun(s, dial);
    Serve(Exec(s, dial), c, s.next);
    var acts :| OnlyServes(acts, c, s.next) && BringsTo(Exec(s, dial), c, acts, s.last);
    JoinBringsTo(s, dial, c, acts, s.last);
  }

  lemma JoinBringsTo(s: State, first: seq<Action>, c: nat, acts: seq<Action>, k: nat)
    requires ValidRun(s, first) && BringsTo(Exec(s, first), c, acts, k) && Exec(s, first).last == s.last
    ensures BringsTo(s, c, first + acts, k)
  {
    RunJoin(s, first, acts);
  }

  lemma FinishBroadcast(s: State, ids: seq<nat>)
    requires Reachable(s) && NoRepeats(ids) && s.pending == set id | id in ids
    ensures ValidRun(s, Offers(ids))
    ensures var s' := Exec(s, Offers(ids));
            Reachable(s') && s'.pending == {} && s'.clients == s.clients && s'.next == s.next && s'.last == s.last
  {
    assert HubOk(s) by { ReachableInv(s); }
    OfferRun(s, ids);
    ReachableRun(s, Offers(ids));
  }

  /** A reconnect brings a data plane to the hub's snapshot, however stale it was and whatever it is
      in the middle of: the running broadcast, to `ids`, is finished, three steps attach the data
      plane, and serving it does the rest. */
  lemma ReconnectRepairs(s: State, c: nat, ids: seq<nat>)
    requires Reachable(s) && 0 < s.last && c in s.clients && s.clients[c].link.Down?
    requires NoRepeats(ids) && s.pending == set id | id in ids
    ensures exists acts :: && OnlyServes(acts, c, s.next)
                           && BringsTo(s, c, Offers(ids) + (Redials(c, s.clients[c].calls + 1, s.next) + acts), s.last)
  {
    FinishBroadcast(s, ids);
    var dial := Redials(c, s.clients[c].calls + 1, s.next);
    ReconnectBetween(Exec(s, Offers(ids)), c);
    var acts :| OnlyServes(acts, c, s.next) && BringsTo(Exec(s, Offers(ids)), c, dial + acts, s.last);
    JoinBringsTo(s, Offers(ids), c, dial + acts, s.last);
  }

  /** Serving an attached data plane brings all its slots to the newest snapshot of its stream. */
  lemma Serve(s: State, c: nat, id: nat)
    requires Reachable(s) && Attached(s, c, id)
    ensures exists acts :: OnlyServes(acts, c, id) && BringsTo(s, c, acts, Head(s.streams[id]))
  {
    assert Inv(s) by { ReachableInv(s); }
    var acts := SettlingRun(s, c, id);
    ServedAttached(s, acts, c, id);
    ServedHead(s, acts, c, id);
  }

  lemma ServedHead(s: State, acts: seq<Action>, c: nat, id: nat)
    requires Reachable(s) && id in s.streams && Settles(s, c, id, acts) && Exec(s, acts).clients[c].link == Streaming(id)
    ensures BringsTo(s, c, acts, Head(s.streams[id]))
  {
    ReachableRun(s, acts);
    ServingKeepsHead(s, acts, c, id);
    SettledIsCurrentIff(Exec(s, acts), c);
  }

  lemma ServedAttached(s: State, acts: seq<Action>, c: nat, id: nat)
    requires Inv(s) && Attached(s, c, id) && ValidRun(s, acts) && OnlyServes(acts, c, id)
    ensures Attached(Exec(s, acts), c, id)
  {
    RunProgresses(s, acts, c, id);
  }

  // ---- staleness ----------------------------------------------------------------------------

  /** Data plane 0 alone reads stream 0; `n` broadcasts have been made, and the first of them still
      fills the channel. */
  ghost predicate Overtaken(s: State, n: nat) {
    && Reachable(s) && Attached(s, 0, 0) && s.cons == {0} && s.last == n
    && s.streams[0].chan == [1] && Flow(s.streams[0]) == [1]
  }

  /** One data plane, attached to its first stream. */
  lemma FreshStream() returns (s: State)
    ensures Reachable(s)
    ensures s == State([], "", 1, {0}, 0, {},
                       map[0 := Stream(0, 1, 0, Waiting, [], [], 0, {})],
                       map[0 := NEW_CLIENT.(link := Streaming(0), calls := 1)])
  {
    ReachableInit({0});
    s := Init({0});
    assert s.clients == map[0 := NEW_CLIENT];
    ThreeSteps(s, Dial(0), Accept(0, 1), Attach(0, 0));
    ReachableRun(s, [Dial(0), Accept(0, 1), Attach(0, 0)]);
    s := Exec(s, [Dial(0), Accept(0, 1), Attach(0, 0)]);
  }

  /** A broadcast to the one stream. */
  lemma BroadcastToOne(s: State, v: string)
    requires Reachable(s) && s.pending == {} && s.cons == {0} && 0 in s.streams && v != "" && v != s.lastVersion
    ensures Enabled(s, Reconcile(v)) && Enabled(Apply(s, Reconcile(v)), Offer(0))
    ensures var s' := Apply(Apply(s, Reconcile(v)), Offer(0));
            && Reachable(s') && s'.pending == {} && s'.cons == {0} && s'.clients == s.clients
            && s'.last == |s.versions| + 1 && s'.streams == s.streams[0 := OfferTo(s.streams[0], |s.versions| + 1)]
  {
    ReachableStep(s, Reconcile(v));
    ReachableStep(Apply(s, Reconcile(v)), Offer(0));
  }

  lemma OvertakenStream(n: nat)
    requires 0 < n
    ensures exists s :: Overtaken(s, n)
  {
    var s := FreshStream();
    BroadcastToOne(s, "a");
    s := Apply(Apply(s, Reconcile("a")), Offer(0));
    var k := 1;
    while k < n
      invariant 1 <= k <= n && Overtaken(s, k)
    {
      var v := if s.lastVersion == "a" then "b" else "a";
      assert |s.versions| == k by { VersionsChange(s); }
      BroadcastToOne(s, v);
      s := Apply(Apply(s, Reconcile(v)), Offer(0));
      k := k + 1;
    }
  }

  /** A settled data plane can be stale by any number of broadcasts: all that are made while a slow
      stream's channel is full overtake it. */
  lemma StaleIsReachable(n: nat)
    requires 0 < n
    ensures exists s :: Reachable(s) && Settled(s, 0) && s.clients[0].table == 1 && s.last == n
  {
    OvertakenStream(n);
    var s :| Overtaken(s, n);
    Serve(s, 0, 0);
    var acts :| OnlyServes(acts, 0, 0) && BringsTo(s, 0, acts, 1);
    assert Reachable(Exec(s, acts));
  }
}
