/** What the distribution protocol promises over whole runs. */
module DistributionTheorems {
  import opened Distribution
  import opened DistributionInvariant
  import opened Sorting

  // ---- runs ------------------------------------------------------------------------

  lemma {:induction false} RunJoin(s: State, a: seq<Action>, b: seq<Action>)
    requires ValidRun(s, a) && ValidRun(Exec(s, a), b)
    ensures ValidRun(s, a + b) && Exec(s, a + b) == Exec(Exec(s, a), b)
    decreases a
  {
    if a == [] {
      assert a + b == b;
    } else {
      assert (a + b)[1..] == a[1..] + b;
      RunJoin(Apply(s, a[0]), a[1..], b);
    }
  }

  lemma ReachableInit(ids: set<nat>)
    ensures Reachable(Init(ids))
  {
    assert ValidRun(Init(ids), []) && Exec(Init(ids), []) == Init(ids);
  }

  lemma ReachableStep(s: State, a: Action)
    requires Reachable(s) && Enabled(s, a)
    ensures Reachable(Apply(s, a))
  {
    var ids, acts :| ValidRun(Init(ids), acts) && Exec(Init(ids), acts) == s;
    assert [a][1..] == [];
    RunJoin(Init(ids), acts, [a]);
  }

  // ---- order of delivery -------------------------------------------------------------

  /** Each stream delivers strictly increasing broadcasts, starting with the one that was
      current when it was added. */
  lemma StreamDeliversInOrder(s: State, id: nat)
    requires Reachable(s) && id in s.streams
    ensures var st := s.streams[id];
            && Increasing(st.sent)
            && (0 < st.first && st.sent != [] ==> st.sent[0] == st.first)
            && forall k :: k in st.sent ==> 0 < k && st.first <= k <= s.last
  {
    ReachableInv(s);
    var st := s.streams[id];
    assert StreamOk(st, s.last, id in s.pending);
    assert forall i :: 0 <= i < |st.sent| ==> st.sent[i] == Flow(st)[i] && Flow(st)[i] in Flow(st);
  }

  /** A data plane's history only grows, and its three slots only move forward. */
  predicate Forward(c: Client, c': Client) {
    && c.received <= c'.received
    && c.snapshot <= c'.snapshot && c.table <= c'.table && c.sni <= c'.sni
  }

  lemma StepIsForward(s: State, a: Action, c: nat)
    requires Enabled(s, a) && c in s.clients && ClientOk(s.clients[c], s.last)
    ensures c in Apply(s, a).clients && Forward(s.clients[c], Apply(s, a).clients[c])
  {
    var cl := s.clients[c];
    assert Previous(cl) <= Newest(cl);
    if !IsHubStep(a) && a.c != c {
      assert Apply(s, a).clients[c] == cl;
    }
  }

  /** Across any run, including reconnects, nothing a data plane has applied goes back. */
  lemma {:induction false} NeverBackward(s: State, acts: seq<Action>, c: nat)
    requires Inv(s) && ValidRun(s, acts) && c in s.clients
    ensures c in Exec(s, acts).clients && Forward(s.clients[c], Exec(s, acts).clients[c])
    ensures Nondecreasing(Exec(s, acts).clients[c].received)
    decreases acts
  {
    assert ClientOk(s.clients[c], s.last);
    if acts != [] {
      var s1 := Apply(s, acts[0]);
      StepKeeps(s, acts[0]);
      StepIsForward(s, acts[0], c);
      NeverBackward(s1, acts[1..], c);
    }
  }

  // ---- the slots and the lookups ---------------------------------------------------------

  /** The slots are published in order and mix at most two consecutive messages. */
  lemma SlotsAreOrdered(s: State, c: nat)
    requires Reachable(s) && c in s.clients
    ensures var cl := s.clients[c];
            && cl.sni <= cl.table <= cl.snapshot
            && {cl.sni, cl.table, cl.snapshot} <= {Previous(cl), Newest(cl)}
            && (cl.work.Idle? ==> cl.sni == cl.table == cl.snapshot == Newest(cl))
  {
    ReachableInv(s);
    assert ClientOk(s.clients[c], s.last);
  }

  /** All lookups of one request, running or finished, see one table generation. */
  lemma RequestSeesOneTable(s: State, c: nat)
    requires Reachable(s) && c in s.clients
    ensures forall i :: 0 <= i < |s.clients[c].served| ==> OneGeneration(s.clients[c].served[i])
    ensures forall r :: r in s.clients[c].readers ==> OneGeneration(s.clients[c].readers[r])
  {
    ReachableInv(s);
    var cl := s.clients[c];
    assert ClientOk(cl, s.last);
    forall r | r in cl.readers ensures OneGeneration(cl.readers[r]) {
      forall i, j | 0 <= i < j < |cl.readers[r]| ensures cl.readers[r][i] == cl.readers[r][j] {
        assert cl.readers[r][i] == cl.table && cl.readers[r][j] == cl.table;
      }
    }
  }

  /** The version gate: no empty version is broadcast and no version twice in a row. */
  lemma VersionsChange(s: State)
    requires Reachable(s)
    ensures s.last == |s.versions|
    ensures forall i :: 0 <= i < |s.versions| ==> s.versions[i] != "" && (i > 0 ==> s.versions[i] != s.versions[i - 1])
  {
    ReachableInv(s);
  }

  // ---- what a dropped broadcast costs ----------------------------------------------------

  /** The newest snapshot a stream has delivered or buffered. */
  function Head(st: Stream): nat {
    if Flow(st) == [] then st.first else Flow(st)[|Flow(st)| - 1]
  }

  /** Between broadcasts a live stream holds exactly its first snapshot and the later
      broadcasts that did not find its channel full. */
  lemma NothingElseIsLost(s: State, id: nat, k: nat)
    requires Reachable(s) && s.pending == {} && id in s.streams && Live(s.streams[id])
    ensures k in Flow(s.streams[id]) <==>
            (k == s.streams[id].first && 0 < k) || (s.streams[id].first < k <= s.last && k !in s.streams[id].drops)
  {
    ReachableInv(s);
    assert StreamOk(s.streams[id], s.last, id in s.pending);
  }

  lemma HeadIsGreatest(st: Stream, last: nat)
    requires StreamOk(st, last, false) && Live(st)
    ensures Head(st) == last <==> last !in st.drops
  {
    var f := Flow(st);
    if last in f {
      var i :| 0 <= i < |f| && f[i] == last;
      assert f[|f| - 1] in f;
      assert i == |f| - 1;
    }
    assert f != [] ==> f[|f| - 1] in f;
    assert last in f <==> Accepted(st, last, last);
  }

  /** Between broadcasts a live stream is current exactly when the latest broadcast was not
      dropped on its full channel. */
  lemma CurrentIffNotDropped(s: State, id: nat)
    requires Reachable(s) && s.pending == {} && id in s.streams && Live(s.streams[id])
    ensures Head(s.streams[id]) == s.last <==> s.last !in s.streams[id].drops
  {
    ReachableInv(s);
    assert StreamOk(s.streams[id], s.last, id in s.pending);
    HeadIsGreatest(s.streams[id], s.last);
  }

  /** The data plane has read everything and nothing is on its way to it. */
  predicate Settled(s: State, c: nat) {
    && s.pending == {} && c in s.clients
    && s.clients[c].link.Streaming? && s.clients[c].work.Idle?
    && s.clients[c].link.id in s.streams
    && var st := s.streams[s.clients[c].link.id];
       st.phase.Waiting? && st.chan == [] && st.taken == |st.sent|
  }

  /** Once settled, a data plane runs the hub's snapshot exactly when the latest broadcast
      was not dropped on its channel. */
  lemma SettledIsCurrentIff(s: State, c: nat)
    requires Reachable(s) && Settled(s, c)
    ensures var cl, st := s.clients[c], s.streams[s.clients[c].link.id];
            && cl.snapshot == cl.table == cl.sni == Head(st)
            && (cl.table == s.last <==> s.last !in st.drops)
  {
    ReachableInv(s);
    var cl := s.clients[c];
    var id := cl.link.id;
    var st := s.streams[id];
    assert ClientOk(cl, s.last) && LinkOk(s, c) && StreamOk(st, s.last, id in s.pending);
    assert Flow(st) == st.sent;
    if st.taken == 0 { assert st.first == 0; }
    CurrentIffNotDropped(s, id);
  }

  // ---- repair ------------------------------------------------------------------------------

  /** The next broadcast that finds the channel empty makes the stream current again. */
  lemma NextBroadcastRepairs(s: State, id: nat, v: string)
    requires Reachable(s) && s.pending == {} && id in s.streams
    requires Live(s.streams[id]) && s.streams[id].chan == []
    requires v != "" && v != s.lastVersion
    ensures var s1 := Apply(s, Reconcile(v));
            && Enabled(s1, Offer(id))
            && var s2 := Apply(s1, Offer(id));
               s2.last == s.last + 1 && Head(s2.streams[id]) == s2.last
  {
    ReachableInv(s);
    var s1 := Apply(s, Reconcile(v));
    var st2 := Apply(s1, Offer(id)).streams[id];
    assert Flow(st2) == Flow(s.streams[id]) + [s1.last];
  }

  // ---- the end of a stream ----------------------------------------------------------------

  /** The call has returned and its channel is no longer registered, nor owed a broadcast. */
  predicate Gone(s: State, id: nat) {
    id in s.streams && s.streams[id].phase == Stopped && id !in s.cons && id !in s.pending
  }

  /** Only the reader's position may have changed. */
  predicate SameButRead(st: Stream, st': Stream) {
    st'.(taken := st.taken) == st
  }

  lemma GoneHubStep(s: State, a: Action, id: nat)
    requires HubOk(s) && Enabled(s, a) && Gone(s, id) && IsHubStep(a)
    ensures Gone(Apply(s, a), id) && Apply(s, a).streams[id] == s.streams[id]
  {
  }

  lemma GoneStep(s: State, a: Action, id: nat)
    requires HubOk(s) && Enabled(s, a) && Gone(s, id)
    ensures Gone(Apply(s, a), id) && SameButRead(s.streams[id], Apply(s, a).streams[id])
  {
    if IsHubStep(a) {
      GoneHubStep(s, a, id);
    }
  }

  /** Whatever happens later, a stream that is gone stays gone: nothing is sent on it or offered to
      it, and its id is not given out again. */
  lemma {:induction false} GoneForGood(s: State, acts: seq<Action>, id: nat)
    requires Inv(s) && ValidRun(s, acts) && Gone(s, id)
    ensures Gone(Exec(s, acts), id) && SameButRead(s.streams[id], Exec(s, acts).streams[id])
    decreases acts
  {
    if acts != [] {
      GoneStep(s, acts[0], id);
      StepKeeps(s, acts[0]);
      GoneForGood(Apply(s, acts[0]), acts[1..], id);
    }
  }

  /** When `Watch` returns its deferred `Remove` finishes the stream, between broadcasts at once. */
  lemma StoppedAndRemoved(s: State, id: nat)
    requires id in s.streams && Live(s.streams[id]) && id !in s.pending
    ensures Enabled(s, ServerStop(id))
    ensures var s1 := Apply(s, ServerStop(id));
            && Enabled(s1, ServerRemove(id))
            && var s2 := Apply(s1, ServerRemove(id));
               Gone(s2, id) && s2.streams[id].sent == s.streams[id].sent
  {
  }

  // ---- an uninterrupted broadcast --------------------------------------------------------

  function Offers(ids: seq<nat>): seq<Action> {
    seq(|ids|, i requires 0 <= i < |ids| => Offer(ids[i]))
  }

  ghost function OfferedAll(streams: map<nat, Stream>, ids: set<nat>, msg: nat): map<nat, Stream> {
    map id | id in streams :: if id in ids then OfferTo(streams[id], msg) else streams[id]
  }

  /** Offering to all captured channels in a row, in any order, serves each of them once. */
  lemma {:induction false} OfferRun(s: State, ids: seq<nat>)
    requires s.pending <= s.streams.Keys && NoRepeats(ids)
    requires s.pending == set id | id in ids
    ensures ValidRun(s, Offers(ids))
    ensures Exec(s, Offers(ids)) == s.(streams := OfferedAll(s.streams, s.pending, s.last), pending := {})
    decreases |ids|
  {
    if ids == [] {
      assert OfferedAll(s.streams, s.pending, s.last) == s.streams;
    } else {
      var acts, first := Offers(ids), ids[0];
      assert acts[0] == Offer(first) && acts[1..] == Offers(ids[1..]);
      assert first in ids;
      OfferRun(Apply(s, Offer(first)), ids[1..]);
    }
  }

  /** `Broadcast` without interruption: the version gate, then one offer to every registered
      channel in whatever order the map yields them. */
  lemma BroadcastRun(s: State, v: string, ids: seq<nat>)
    requires HubOk(s) && s.pending == {} && v != "" && v != s.lastVersion
    requires NoRepeats(ids) && s.cons == set id | id in ids
    ensures ValidRun(s, [Reconcile(v)] + Offers(ids))
    ensures var s' := Exec(s, [Reconcile(v)] + Offers(ids));
            && s'.versions == s.versions + [v] && s'.lastVersion == v
            && s'.last == s.last + 1 && s'.pending == {} && s'.cons == s.cons && s'.next == s.next
            && s'.streams == OfferedAll(s.streams, s.cons, s.last + 1)
            && s'.clients == s.clients
  {
    OfferRun(Apply(s, Reconcile(v)), ids);
    assert ([Reconcile(v)] + Offers(ids))[1..] == Offers(ids);
  }
}
