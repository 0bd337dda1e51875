/** The hub objects take the steps of `Distribution`: `Add`, `Remove`, the locked part of
    `Broadcast`, each of its sends and each receive by `Watch` keep the object related to a state
    of the step system, whatever the other parties do in between. */
module HubSteps {
  import opened Sorting
  import opened Distribution
  import DI = DistributionInvariant
  import T = DistributionTheorems
  import H = StreamHub

  /** What the hub holds: the number of broadcasts, the latest, the next id, the registered ids and
      the channel of every stream ever added. */
  datatype View = View(count: nat, last: nat, next: nat, cons: set<nat>, chans: map<nat, seq<nat>>)

  function ViewOf(s: State): View {
    View(|s.versions|, s.last, s.next, s.cons, map id | id in s.streams :: s.streams[id].chan)
  }

  function SetChan(v: View, id: nat, chan: seq<nat>): View {
    v.(chans := v.chans[id := chan])
  }

  function Added(v: View): View {
    SetChan(v, v.next, []).(next := v.next + 1, cons := v.cons + {v.next})
  }

  function Captured(v: View): View {
    v.(count := v.count + 1, last := v.count + 1)
  }

  /** The latest broadcast offered to all registered channels. */
  function OfferedToAll(v: View): View {
    v.(chans := map id | id in v.chans :: if id in v.cons && v.chans[id] == [] then [v.last] else v.chans[id])
  }

  // ---- what the steps do to the hub ------------------------------------------------------

  lemma AcceptView(s: State, c: nat, call: nat)
    requires HubOk(s) && Enabled(s, Accept(c, call))
    ensures ViewOf(Apply(s, Accept(c, call))) == Added(ViewOf(s))
    ensures Apply(s, Accept(c, call)).streams[s.next].first == s.last
  {
  }

  lemma RemoveView(s: State, id: nat)
    requires Enabled(s, ServerRemove(id))
    ensures ViewOf(Apply(s, ServerRemove(id))) == ViewOf(s).(cons := s.cons - {id})
  {
  }

  lemma ReconcileView(s: State, version: string)
    requires Enabled(s, Reconcile(version))
    ensures ViewOf(Apply(s, Reconcile(version))) == if version == s.lastVersion then ViewOf(s) else Captured(ViewOf(s))
    ensures version != s.lastVersion ==> Apply(s, Reconcile(version)).pending == s.cons
  {
  }

  lemma OfferView(s: State, id: nat)
    requires Enabled(s, Offer(id))
    ensures var v := ViewOf(s);
            ViewOf(Apply(s, Offer(id))) == if v.chans[id] == [] then SetChan(v, id, [v.last]) else v
  {
    var v, v' := ViewOf(s), ViewOf(Apply(s, Offer(id)));
    assert v'.chans == if v.chans[id] == [] then v.chans[id := [v.last]] else v.chans;
  }

  lemma TakeView(s: State, id: nat)
    requires Enabled(s, ServerTake(id))
    ensures var v, s' := ViewOf(s), Apply(s, ServerTake(id));
            && v.chans[id] != [] && s'.streams[id].phase == Sending(v.chans[id][0])
            && ViewOf(s') == SetChan(v, id, v.chans[id][1..])
  {
  }

  /** Only these five kinds of step concern the hub. */
  lemma OtherView(s: State, a: Action)
    requires Enabled(s, a)
    requires !a.Reconcile? && !a.Offer? && !a.Accept? && !a.ServerTake? && !a.ServerRemove?
    ensures ViewOf(Apply(s, a)) == ViewOf(s)
  {
    assert ViewOf(Apply(s, a)).chans == ViewOf(s).chans;
  }

  lemma OfferedAllView(s: State, s': State)
    requires s'.last == |s'.versions| == |s.versions| + 1 && s'.next == s.next && s'.cons == s.cons
    requires s'.streams == T.OfferedAll(s.streams, s.cons, s'.last)
    ensures ViewOf(s') == OfferedToAll(Captured(ViewOf(s)))
  {
    var v, v' := OfferedToAll(Captured(ViewOf(s))), ViewOf(s');
    assert v'.chans.Keys == v.chans.Keys;
    assert forall id :: id in s.streams ==> v'.chans[id] == v.chans[id];
  }

  /** An uninterrupted broadcast, in whatever order `ids` lists the registered channels. */
  lemma BroadcastView(s: State, version: string, ids: seq<nat>)
    requires HubOk(s) && s.pending == {} && version != "" && version != s.lastVersion
    requires NoRepeats(ids) && s.cons == set id | id in ids
    ensures ValidRun(s, [Reconcile(version)] + T.Offers(ids))
    ensures ViewOf(Exec(s, [Reconcile(version)] + T.Offers(ids))) == OfferedToAll(Captured(ViewOf(s)))
  {
    T.BroadcastRun(s, version, ids);
    OfferedAllView(s, Exec(s, [Reconcile(version)] + T.Offers(ids)));
  }

  // ---- what the objects do ----------------------------------------------------------------

  /** The channel holds the snapshots that the numbers in `chan` name. */
  ghost predicate Holds<S>(buffer: seq<S>, chan: seq<nat>, snaps: seq<S>) {
    |buffer| == |chan| && forall i :: 0 <= i < |chan| ==> chan[i] < |snaps| && buffer[i] == snaps[chan[i]]
  }

  /** Each stream has a channel of its own, and the hub registers those in `cons`. */
  ghost predicate Registers<S>(hub: H.StreamHub<S>, chans: map<nat, H.Channel<S>>, v: View)
    reads hub
  {
    && hub.next == v.next && chans.Keys == v.chans.Keys
    && (forall i, j :: i in chans && j in chans && i != j ==> chans[i] != chans[j])
    && (forall id: int :: id in hub.cons <==> id in v.cons)
    && (forall id :: id in v.cons ==> id in chans && hub.cons[id] == chans[id])
  }

  /** `chans` has the channel of every stream, registered or not, and `snaps[k]` is the snapshot of
      broadcast `k`. */
  ghost predicate Represents<S>(hub: H.StreamHub<S>, chans: map<nat, H.Channel<S>>, v: View, snaps: seq<S>)
    reads hub, hub.Registered(), chans.Values
  {
    && hub.Valid() && Registers(hub, chans, v)
    && |snaps| == v.count + 1 && v.last < |snaps| && hub.last == snaps[v.last]
    && forall id :: id in chans ==> Holds(chans[id].buffer, v.chans[id], snaps)
  }

  /** A new hub is the initial state. */
  method Start<S>(zero: S, ghost ids: set<nat>) returns (hub: H.StreamHub<S>)
    ensures fresh(hub) && Represents(hub, map[], ViewOf(Init(ids)), [zero])
  {
    hub := new H.StreamHub(zero);
  }

  /** `Add` is the accepting step, and hands out the snapshot that the stream begins with. */
  method AddStep<S>(hub: H.StreamHub<S>, ghost chans: map<nat, H.Channel<S>>, ghost v: View, ghost snaps: seq<S>)
    returns (id: int, ch: H.Channel<S>, current: S)
    requires Represents(hub, chans, v, snaps) && v.next !in v.chans
    modifies hub
    ensures id == v.next && current == snaps[v.last] && fresh(ch)
    ensures Represents(hub, chans[v.next := ch], Added(v), snaps)
  {
    id, ch, current := hub.Add();
  }

  /** `Remove` is the removing step. */
  method RemoveStep<S>(
    hub: H.StreamHub<S>, ghost chans: map<nat, H.Channel<S>>, ghost v: View, ghost snaps: seq<S>, id: nat)
    requires Represents(hub, chans, v, snaps)
    modifies hub
    ensures Represents(hub, chans, v.(cons := v.cons - {id}), snaps)
  {
    hub.Remove(id);
  }

  /** The locked part of `Broadcast` is the reconciling step, and lists the registered channels. */
  method CaptureStep<S>(
    hub: H.StreamHub<S>, ghost chans: map<nat, H.Channel<S>>, ghost v: View, ghost snaps: seq<S>, snap: S)
    returns (chs: seq<H.Channel<S>>)
    requires Represents(hub, chans, v, snaps)
    modifies hub
    ensures Represents(hub, chans, Captured(v), snaps + [snap])
    ensures forall i, j :: 0 <= i < j < |chs| ==> chs[i] != chs[j]
    ensures forall id :: id in v.cons ==> chans[id] in chs
    ensures forall ch :: ch in chs ==> exists id :: id in v.cons && chans[id] == ch
  {
    chs := hub.Capture(snap);
    forall ch | ch in chs ensures exists id :: id in v.cons && chans[id] == ch {
      assert ch in hub.Registered();
      var id: int :| id in hub.cons && hub.cons[id] == ch;
      assert id in v.cons;
    }
  }

  /** One send of `Broadcast` is the offering step, also to a channel removed in the meantime. */
  method OfferStep<S>(
    hub: H.StreamHub<S>, ghost chans: map<nat, H.Channel<S>>, ghost v: View, ghost snaps: seq<S>,
    ghost id: nat, ch: H.Channel<S>, snap: S)
    requires Represents(hub, chans, v, snaps) && id in chans && ch == chans[id] && snap == snaps[v.last]
    modifies ch
    ensures Represents(hub, chans, if v.chans[id] == [] then SetChan(v, id, [v.last]) else v, snaps)
  {
    ch.Offer(snap);
  }

  /** One receive by `Watch` is the taking step, and receives the snapshot that it then sends. */
  method TakeStep<S>(
    hub: H.StreamHub<S>, ghost chans: map<nat, H.Channel<S>>, ghost v: View, ghost snaps: seq<S>,
    ghost id: nat, ch: H.Channel<S>)
    returns (snap: S)
    requires Represents(hub, chans, v, snaps) && id in chans && ch == chans[id] && v.chans[id] != []
    modifies ch
    ensures snap == snaps[v.chans[id][0]]
    ensures Represents(hub, chans, SetChan(v, id, v.chans[id][1..]), snaps)
  {
    snap := ch.Take();
  }

  /** `Reconcile` without interruption: the version gate and, if it opens, one offer to every
      registered channel. */
  method ReconcileRun<S>(
    r: H.Reconciler<S>, ghost chans: map<nat, H.Channel<S>>, ghost v: View, ghost snaps: seq<S>,
    snap: S, version: string)
    requires Represents(r.hub, chans, v, snaps)
    modifies r, r.hub, r.hub.Registered()
    ensures r.lastVersion == version
    ensures if version == old(r.lastVersion) then Represents(r.hub, chans, v, snaps)
            else Represents(r.hub, chans, OfferedToAll(Captured(v)), snaps + [snap])
  {
    r.Reconcile(snap, version);
    if version != old(r.lastVersion) {
      forall id | id in chans ensures Holds(chans[id].buffer, OfferedToAll(Captured(v)).chans[id], snaps + [snap]) {
        assert Holds(old(chans[id].buffer), v.chans[id], snaps);
        assert id in v.cons ==> r.hub.cons[id] == chans[id];
        if chans[id] in r.hub.Registered() {
          var k: int :| k in r.hub.cons && r.hub.cons[k] == chans[id];
          assert k in v.cons && chans[k] == chans[id];
        }
      }
    }
  }

  // ---- whole runs -------------------------------------------------------------------------

  /** What one step makes of the view. */
  function StepView(v: View, a: Action, opens: bool): View
    requires a.Offer? || a.ServerTake? ==> a.id in v.chans
    requires a.ServerTake? ==> v.chans[a.id] != []
  {
    match a
    case Reconcile(_) => if opens then Captured(v) else v
    case Offer(id) => if v.chans[id] == [] then SetChan(v, id, [v.last]) else v
    case Accept(_, _) => Added(v)
    case ServerTake(id) => SetChan(v, id, v.chans[id][1..])
    case ServerRemove(id) => v.(cons := v.cons - {id})
    case _ => v
  }

  lemma StepViewIs(s: State, a: Action)
    requires HubOk(s) && Enabled(s, a)
    ensures a.Offer? || a.ServerTake? ==> a.id in s.streams
    ensures a.ServerTake? ==> ViewOf(s).chans[a.id] != []
    ensures ViewOf(Apply(s, a)) == StepView(ViewOf(s), a, a.Reconcile? && a.version != s.lastVersion)
  {
    if a.Reconcile? {
      ReconcileView(s, a.version);
    } else if a.Offer? {
      OfferView(s, a.id);
    } else if a.Accept? {
      AcceptView(s, a.c, a.call);
    } else if a.ServerTake? {
      TakeView(s, a.id);
    } else if a.ServerRemove? {
      RemoveView(s, a.id);
    } else {
      OtherView(s, a);
    }
  }

  /** The hub's part in one step, by its own methods. */
  method Perform<S>(
    hub: H.StreamHub<S>, chans: map<nat, H.Channel<S>>, ghost v: View, ghost snaps: seq<S>,
    a: Action, opens: bool, snap: S)
    returns (chans': map<nat, H.Channel<S>>, ghost snaps': seq<S>)
    requires Represents(hub, chans, v, snaps)
    requires a.Offer? || a.ServerTake? ==> a.id in v.chans
    requires a.ServerTake? ==> v.chans[a.id] != []
    requires a.Accept? ==> v.next !in v.chans
    modifies hub, chans.Values
    ensures Represents(hub, chans', StepView(v, a, opens), snaps')
    ensures snaps' == if a.Reconcile? && opens then snaps + [snap] else snaps
    ensures forall id :: id in chans' ==> (id in chans && chans'[id] == chans[id]) || fresh(chans'[id])
  {
    chans', snaps' := chans, snaps;
    match a {
      case Reconcile(_) =>
        if opens {
          var chs := CaptureStep(hub, chans, v, snaps, snap);
          snaps' := snaps + [snap];
        }
      case Offer(id) =>
        OfferStep(hub, chans, v, snaps, id, chans[id], hub.last);
      case Accept(_, _) =>
        var id, ch, current := AddStep(hub, chans, v, snaps);
        chans' := chans[id := ch];
      case ServerTake(id) =>
        var taken := TakeStep(hub, chans, v, snaps, id, chans[id]);
      case ServerRemove(id) =>
        RemoveStep(hub, chans, v, snaps, id);
      case ServerSend(_) =>
      case ServerStop(_) =>
      case Dial(_) =>
      case DialFail(_) =>
      case Attach(_, _) =>
      case Hangup(_) =>
      case Receive(_) =>
      case StoreSnapshot(_) =>
      case StoreTable(_) =>
      case StoreSni(_) =>
      case BeginRequest(_, _) =>
      case Lookup(_, _) =>
      case EndRequest(_, _) =>
    }
  }

  /** The same against the step system, whose invariant it keeps. */
  method PerformStep<S>(
    hub: H.StreamHub<S>, chans: map<nat, H.Channel<S>>, s: State, ghost snaps: seq<S>, a: Action, snap: S)
    returns (chans': map<nat, H.Channel<S>>, ghost snaps': seq<S>)
    requires Represents(hub, chans, ViewOf(s), snaps) && Inv(s) && Enabled(s, a)
    modifies hub, chans.Values
    ensures Represents(hub, chans', ViewOf(Apply(s, a)), snaps') && Inv(Apply(s, a))
    ensures snaps' == if a.Reconcile? && a.version != s.lastVersion then snaps + [snap] else snaps
    ensures forall id :: id in chans' ==> (id in chans && chans'[id] == chans[id]) || fresh(chans'[id])
  {
    StepViewIs(s, a);
    DI.StepKeeps(s, a);
    var opens := a.Reconcile? && a.version != s.lastVersion;
    chans', snaps' := Perform(hub, chans, ViewOf(s), snaps, a, opens, snap);
  }

  /** The snapshots of `n` broadcasts behind the zero snapshot. */
  function Snapshots<S>(zero: S, snapOf: nat -> S, n: nat): seq<S> {
    [zero] + seq(n, k requires 0 <= k => snapOf(k + 1))
  }

  lemma SnapshotsStep<S>(zero: S, snapOf: nat -> S, s: State, a: Action)
    requires Enabled(s, a)
    ensures var n := |s.versions|;
            Snapshots(zero, snapOf, |Apply(s, a).versions|) ==
            if a.Reconcile? && a.version != s.lastVersion then Snapshots(zero, snapOf, n) + [snapOf(n + 1)]
            else Snapshots(zero, snapOf, n)
  {
    var n := |s.versions|;
    assert Snapshots(zero, snapOf, n + 1) == Snapshots(zero, snapOf, n) + [snapOf(n + 1)];
  }

  /** A hub taken on through any run, `snapOf(k)` being the snapshot of broadcast `k`. */
  method DriveOn<S>(
    hub: H.StreamHub<S>, chans: map<nat, H.Channel<S>>, s: State, acts: seq<Action>, zero: S, snapOf: nat -> S)
    returns (chans': map<nat, H.Channel<S>>)
    requires Represents(hub, chans, ViewOf(s), Snapshots(zero, snapOf, |s.versions|))
    requires Inv(s) && ValidRun(s, acts)
    modifies hub, chans.Values
    ensures var s' := Exec(s, acts);
            Represents(hub, chans', ViewOf(s'), Snapshots(zero, snapOf, |s'.versions|))
    decreases |acts|
  {
    chans' := chans;
    if acts != [] {
      var n := |s.versions|;
      ghost var snaps;
      chans', snaps := PerformStep(hub, chans, s, Snapshots(zero, snapOf, n), acts[0], snapOf(n + 1));
      SnapshotsStep(zero, snapOf, s, acts[0]);
      chans' := DriveOn(hub, chans', Apply(s, acts[0]), acts[1..], zero, snapOf);
    }
  }

  /** A new hub taken through any run of the step system ends up with what the last state says. */
  method Drive<S>(zero: S, snapOf: nat -> S, ids: set<nat>, acts: seq<Action>)
    returns (hub: H.StreamHub<S>, chans: map<nat, H.Channel<S>>)
    requires ValidRun(Init(ids), acts)
    ensures var s := Exec(Init(ids), acts);
            Represents(hub, chans, ViewOf(s), Snapshots(zero, snapOf, |s.versions|))
  {
    hub := Start(zero, ids);
    chans := DriveOn(hub, map[], Init(ids), acts, zero, snapOf);
  }
}
