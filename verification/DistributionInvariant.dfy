/** Every step of the distribution protocol keeps the invariant. */
module DistributionInvariant {
  import opened Distribution

  // ---- one stream ------------------------------------------------------------------

  lemma AppendGreater(f: seq<nat>, m: nat)
    requires Increasing(f) && forall k :: k in f ==> k < m
    ensures Increasing(f + [m])
    ensures forall k :: k in f + [m] <==> k in f || k == m
  {
    forall i, j | 0 <= i < j < |f + [m]| ensures (f + [m])[i] < (f + [m])[j] {
      assert f[i] in f;
    }
  }

  lemma BufferedStream(st: Stream, last: nat)
    requires StreamOk(st, last, true) && st.chan == []
    ensures StreamOk(st.(chan := [last]), last, false)
  {
    var st' := st.(chan := [last]);
    AppendGreater(Flow(st), last);
    assert Flow(st') == Flow(st) + [last];
    if Live(st) {
      forall k: nat ensures k in Flow(st') <==> Accepted(st', k, last) {
        assert k in Flow(st) <==> Accepted(st, k, last - 1);
        assert last !in st.drops;
      }
    }
  }

  lemma DroppedStream(st: Stream, last: nat)
    requires StreamOk(st, last, true)
    ensures StreamOk(st.(drops := st.drops + {last}), last, false)
  {
    var st' := st.(drops := st.drops + {last});
    assert Flow(st') == Flow(st);
    if Live(st) {
      forall k: nat ensures k in Flow(st') <==> Accepted(st', k, last) {
        assert k in Flow(st) <==> Accepted(st, k, last - 1);
      }
    }
  }

  lemma OfferStream(st: Stream, last: nat)
    requires StreamOk(st, last, true)
    ensures StreamOk(OfferTo(st, last), last, false)
  {
    if st.chan == [] { BufferedStream(st, last); } else { DroppedStream(st, last); }
  }

  lemma TakeStream(st: Stream, last: nat, owed: bool)
    requires StreamOk(st, last, owed) && st.phase.Waiting? && st.chan != []
    ensures StreamOk(st.(phase := Sending(st.chan[0]), chan := st.chan[1..]), last, owed)
  {
    var st' := st.(phase := Sending(st.chan[0]), chan := st.chan[1..]);
    assert Flow(st') == Flow(st);
  }

  lemma SendStream(st: Stream, last: nat, owed: bool)
    requires StreamOk(st, last, owed) && st.phase.Sending?
    ensures StreamOk(st.(phase := Waiting, sent := st.sent + [st.phase.msg]), last, owed)
  {
    var st' := st.(phase := Waiting, sent := st.sent + [st.phase.msg]);
    assert Flow(st') == Flow(st);
    if 0 < st.first && st.sent != [] {
      assert st'.sent[0] == st.sent[0];
    }
  }

  /** Dropping the message in hand leaves an increasing part of the flow. */
  lemma StoppedFlow(sent: seq<nat>, hand: seq<nat>, chan: seq<nat>)
    requires Increasing(sent + hand + chan)
    ensures Increasing(sent + chan)
    ensures forall k :: k in sent + chan ==> k in sent + hand + chan
  {
    var f, f' := sent + hand + chan, sent + chan;
    forall i | 0 <= i < |f'| ensures f'[i] in f {
      assert f'[i] == f[if i < |sent| then i else i + |hand|];
    }
    forall i, j | 0 <= i < j < |f'| ensures f'[i] < f'[j] {
      assert f'[i] == f[if i < |sent| then i else i + |hand|];
      assert f'[j] == f[if j < |sent| then j else j + |hand|];
    }
  }

  lemma StopStream(st: Stream, last: nat, owed: bool)
    requires StreamOk(st, last, owed) && Live(st)
    ensures StreamOk(st.(phase := Stopped), last, owed)
  {
    var st' := st.(phase := Stopped);
    StoppedFlow(st.sent, if st.phase.Sending? then [st.phase.msg] else [], st.chan);
    assert Flow(st') == st.sent + st.chan;
  }

  // ---- frames ----------------------------------------------------------------------

  /** A stream moves on: it keeps its identity and only appends to what it sent. */
  predicate Continues(st: Stream, st': Stream) {
    && st'.owner == st.owner && st'.call == st.call && st'.first == st.first && st'.taken == st.taken
    && st.sent <= st'.sent
    && (Live(st') ==> Live(st))
  }

  lemma LinksKept(s: State, id: nat, st': Stream, pending: set<nat>)
    requires LinksOk(s) && id in s.streams && Continues(s.streams[id], st')
    ensures LinksOk(SetStream(s, id, st').(pending := pending))
  {
    var s' := SetStream(s, id, st').(pending := pending);
    forall c | c in s'.clients ensures LinkOk(s', c) {
    }
  }

  lemma StreamsKept(s: State, id: nat, st': Stream, pending: set<nat>)
    requires StreamsOk(s) && id in s.streams
    requires pending == s.pending || pending == s.pending - {id}
    requires StreamOk(st', s.last, id in pending)
    ensures StreamsOk(SetStream(s, id, st').(pending := pending))
  {
    var s' := SetStream(s, id, st').(pending := pending);
    forall i | i in s'.streams ensures StreamOk(s'.streams[i], s'.last, i in s'.pending) {
      if i != id { assert StreamOk(s.streams[i], s.last, i in s.pending); }
    }
  }

  lemma StreamStep(s: State, id: nat, st': Stream, pending: set<nat>)
    requires Inv(s) && id in s.streams && Continues(s.streams[id], st')
    requires pending == s.pending || pending == s.pending - {id}
    requires StreamOk(st', s.last, id in pending)
    ensures Inv(SetStream(s, id, st').(pending := pending))
  {
    LinksKept(s, id, st', pending);
    StreamsKept(s, id, st', pending);
  }

  lemma ClientStep(s: State, c: nat, cl': Client)
    requires Inv(s) && c in s.clients
    requires ClientOk(cl', s.last) && LinkOk(SetClient(s, c, cl'), c)
    ensures Inv(SetClient(s, c, cl'))
  {
    var s' := SetClient(s, c, cl');
    forall d | d in s'.clients ensures LinkOk(s', d) {
    }
    forall d | d in s'.clients ensures ClientOk(s'.clients[d], s'.last) {
      if d != c { assert ClientOk(s.clients[d], s.last); }
    }
    assert StreamsOk(s');
  }

  // ---- steps of the hub and the servers ------------------------------------------------

  lemma BroadcastClients(s: State, s': State)
    requires ClientsOk(s) && LinksOk(s)
    requires s'.clients == s.clients && s'.streams == s.streams && s.last <= s'.last
    ensures ClientsOk(s') && LinksOk(s')
  {
    forall c | c in s'.clients ensures LinkOk(s', c) { assert LinkOk(s, c); }
    forall c | c in s'.clients ensures ClientOk(s'.clients[c], s'.last) {
      assert ClientOk(s.clients[c], s.last);
    }
  }

  lemma ReconcileKeeps(s: State, v: string)
    requires Inv(s) && Enabled(s, Reconcile(v))
    ensures Inv(Apply(s, Reconcile(v)))
  {
    if v != s.lastVersion {
      var s' := Apply(s, Reconcile(v));
      BroadcastClients(s, s');
      forall id | id in s'.streams ensures StreamOk(s'.streams[id], s'.last, id in s'.pending) {
        assert StreamOk(s.streams[id], s.last, id in s.pending);
      }
    }
  }

  lemma OfferKeeps(s: State, id: nat)
    requires Inv(s) && Enabled(s, Offer(id))
    ensures Inv(Apply(s, Offer(id)))
  {
    OfferStream(s.streams[id], s.last);
    StreamStep(s, id, OfferTo(s.streams[id], s.last), s.pending - {id});
  }

  lemma AcceptLinks(s: State, c: nat, call: nat)
    requires Inv(s) && Enabled(s, Accept(c, call))
    ensures LinksOk(Apply(s, Accept(c, call)))
  {
    var s' := Apply(s, Accept(c, call));
    forall d | d in s'.clients ensures LinkOk(s', d) {
      assert Newest(s.clients[d]) <= s.last by { assert ClientOk(s.clients[d], s.last); }
      AddedStreamLink(s, s', d);
    }
  }

  lemma AddedStreamLink(s: State, s': State, d: nat)
    requires d in s.clients && LinkOk(s, d) && s'.clients == s.clients
    requires s.next !in s.streams && s.next in s'.streams && s'.streams == s.streams[s.next := s'.streams[s.next]]
    requires Newest(s.clients[d]) <= s'.streams[s.next].first && s'.streams[s.next].taken == 0
    requires s'.streams[s.next].owner == d ==> s'.streams[s.next].call <= s.clients[d].calls
    ensures LinkOk(s', d)
  {
  }

  lemma AcceptStreams(s: State, c: nat, call: nat)
    requires StreamsOk(s) && s.pending <= s.streams.Keys && s.next !in s.streams && Enabled(s, Accept(c, call))
    requires VersionOf(s.versions, s.last) == "" ==> s.last == 0
    ensures StreamsOk(Apply(s, Accept(c, call)))
  {
    var s' := Apply(s, Accept(c, call));
    forall id | id in s'.streams ensures StreamOk(s'.streams[id], s'.last, id in s'.pending) {
      if id != s.next { assert StreamOk(s.streams[id], s.last, id in s.pending); }
    }
  }

  lemma AcceptHub(s: State, c: nat, call: nat)
    requires HubOk(s) && ClientsOk(s) && Enabled(s, Accept(c, call))
    ensures HubOk(Apply(s, Accept(c, call))) && ClientsOk(Apply(s, Accept(c, call)))
  {
  }

  lemma AcceptKeeps(s: State, c: nat, call: nat)
    requires Inv(s) && Enabled(s, Accept(c, call))
    ensures Inv(Apply(s, Accept(c, call)))
  {
    AcceptHub(s, c, call);
    AcceptLinks(s, c, call);
    AcceptStreams(s, c, call);
  }

  lemma ServerTakeKeeps(s: State, id: nat)
    requires Inv(s) && Enabled(s, ServerTake(id))
    ensures Inv(Apply(s, ServerTake(id)))
  {
    var st := s.streams[id];
    assert StreamOk(st, s.last, id in s.pending);
    TakeStream(st, s.last, id in s.pending);
    StreamStep(s, id, st.(phase := Sending(st.chan[0]), chan := st.chan[1..]), s.pending);
  }

  lemma ServerSendKeeps(s: State, id: nat)
    requires Inv(s) && Enabled(s, ServerSend(id))
    ensures Inv(Apply(s, ServerSend(id)))
  {
    var st := s.streams[id];
    assert StreamOk(st, s.last, id in s.pending);
    SendStream(st, s.last, id in s.pending);
    StreamStep(s, id, st.(phase := Waiting, sent := st.sent + [st.phase.msg]), s.pending);
  }

  lemma ServerStopKeeps(s: State, id: nat)
    requires Inv(s) && Enabled(s, ServerStop(id))
    ensures Inv(Apply(s, ServerStop(id)))
  {
    var st := s.streams[id];
    assert StreamOk(st, s.last, id in s.pending);
    StopStream(st, s.last, id in s.pending);
    StreamStep(s, id, st.(phase := Stopped), s.pending);
  }

  lemma RemoveKeeps(s: State, id: nat)
    requires Inv(s) && Enabled(s, ServerRemove(id))
    ensures Inv(Apply(s, ServerRemove(id)))
  {
    var s' := Apply(s, ServerRemove(id));
    forall d | d in s'.clients ensures LinkOk(s', d) { assert LinkOk(s, d); }
  }

  // ---- steps of the data planes -----------------------------------------------------------

  function Relinked(s: State, c: nat, link: Link, calls: nat): State
    requires c in s.clients
  {
    SetClient(s, c, s.clients[c].(link := link, calls := calls))
  }

  /** A change of the link alone keeps everything if the new link is in order. */
  lemma RelinkKeeps(s: State, c: nat, link: Link, calls: nat)
    requires Inv(s) && c in s.clients && LinkOk(Relinked(s, c, link, calls), c)
    ensures Inv(Relinked(s, c, link, calls))
  {
    var cl := s.clients[c];
    var cl' := cl.(link := link, calls := calls);
    assert ClientOk(cl', s.last) by { assert ClientOk(cl, s.last) && Newest(cl') == Newest(cl); }
    ClientStep(s, c, cl');
  }

  /** A new call has no stream yet. */
  lemma DialLink(s: State, c: nat)
    requires c in s.clients && LinkOk(s, c)
    ensures LinkOk(Relinked(s, c, Calling, s.clients[c].calls + 1), c)
  {
  }

  lemma DialKeeps(s: State, c: nat)
    requires Inv(s) && Enabled(s, Dial(c))
    ensures Inv(Apply(s, Dial(c)))
  {
    DialLink(s, c);
    assert Apply(s, Dial(c)) == Relinked(s, c, Calling, s.clients[c].calls + 1);
    RelinkKeeps(s, c, Calling, s.clients[c].calls + 1);
  }

  lemma DownKeeps(s: State, a: Action)
    requires Inv(s) && Enabled(s, a) && (a.DialFail? || a.Hangup?)
    ensures Inv(Apply(s, a))
  {
    assert Apply(s, a) == Relinked(s, a.c, Down, s.clients[a.c].calls);
    RelinkKeeps(s, a.c, Down, s.clients[a.c].calls);
  }

  lemma AttachKeeps(s: State, c: nat, id: nat)
    requires Inv(s) && Enabled(s, Attach(c, id))
    ensures Inv(Apply(s, Attach(c, id)))
  {
    assert Apply(s, Attach(c, id)) == Relinked(s, c, Streaming(id), s.clients[c].calls);
    RelinkKeeps(s, c, Streaming(id), s.clients[c].calls);
  }

  /** The next message of the attached stream is no older than anything read before. */
  lemma NextMessage(s: State, c: nat)
    requires Inv(s) && Enabled(s, Receive(c))
    ensures var st := s.streams[s.clients[c].link.id];
            Newest(s.clients[c]) <= st.sent[st.taken] <= s.last
  {
    var id := s.clients[c].link.id;
    var st := s.streams[id];
    var f := Flow(st);
    assert LinkOk(s, c) && StreamOk(st, s.last, id in s.pending);
    assert f[st.taken] == st.sent[st.taken] && f[st.taken] in f;
    if st.taken > 0 { assert f[st.taken - 1] == st.sent[st.taken - 1]; }
  }

  lemma ReceivedClient(cl: Client, m: nat, last: nat)
    requires ClientOk(cl, last) && cl.work.Idle? && Newest(cl) <= m <= last
    ensures ClientOk(cl.(work := Received, received := cl.received + [m]), last)
  {
    var cl' := cl.(work := Received, received := cl.received + [m]);
    assert Previous(cl') == Newest(cl);
    forall i, j | 0 <= i < j < |cl'.received| ensures cl'.received[i] <= cl'.received[j] {
      if j == |cl.received| { assert cl.received[i] <= Newest(cl); }
    }
  }

  lemma ReceiveClients(s: State, c: nat)
    requires Inv(s) && Enabled(s, Receive(c))
    ensures ClientsOk(Apply(s, Receive(c)))
  {
    var s' := Apply(s, Receive(c));
    var st := s.streams[s.clients[c].link.id];
    NextMessage(s, c);
    ReceivedClient(s.clients[c], st.sent[st.taken], s.last);
    forall d | d in s'.clients ensures ClientOk(s'.clients[d], s'.last) {
      if d != c { assert ClientOk(s.clients[d], s.last); }
    }
  }

  lemma ReceiveStreams(s: State, c: nat)
    requires StreamsOk(s) && Enabled(s, Receive(c))
    ensures StreamsOk(Apply(s, Receive(c)))
  {
    var s' := Apply(s, Receive(c));
    var id := s.clients[c].link.id;
    assert StreamOk(s.streams[id], s.last, id in s.pending);
    forall i | i in s'.streams ensures StreamOk(s'.streams[i], s'.last, i in s'.pending) {
      if i != id { assert StreamOk(s.streams[i], s.last, i in s.pending); }
    }
  }

  lemma ReceiveLink(s: State, c: nat, d: nat)
    requires Enabled(s, Receive(c)) && d in s.clients && LinkOk(s, c) && LinkOk(s, d)
    ensures LinkOk(Apply(s, Receive(c)), d)
  {
  }

  lemma ReceiveLinks(s: State, c: nat)
    requires LinksOk(s) && Enabled(s, Receive(c))
    ensures LinksOk(Apply(s, Receive(c)))
  {
    var s' := Apply(s, Receive(c));
    forall d | d in s'.clients ensures LinkOk(s', d) {
      ReceiveLink(s, c, d);
    }
  }

  lemma ReceiveHub(s: State, c: nat)
    requires HubOk(s) && Enabled(s, Receive(c))
    ensures HubOk(Apply(s, Receive(c)))
  {
  }

  lemma ReceiveKeeps(s: State, c: nat)
    requires Inv(s) && Enabled(s, Receive(c))
    ensures Inv(Apply(s, Receive(c)))
  {
    ReceiveHub(s, c);
    ReceiveStreams(s, c);
    ReceiveClients(s, c);
    ReceiveLinks(s, c);
  }

  /** A step that leaves the link and the messages read alone keeps the tie to the stream. */
  lemma LocalStep(s: State, c: nat, cl': Client)
    requires Inv(s) && c in s.clients && ClientOk(cl', s.last)
    requires var cl := s.clients[c]; cl'.link == cl.link && cl'.calls == cl.calls && cl'.received == cl.received
    ensures Inv(SetClient(s, c, cl'))
  {
    assert LinkOk(s, c);
    assert Newest(cl') == Newest(s.clients[c]);
    assert LinkOk(SetClient(s, c, cl'), c);
    ClientStep(s, c, cl');
  }

  lemma StoreSnapshotKeeps(s: State, c: nat)
    requires Inv(s) && Enabled(s, StoreSnapshot(c))
    ensures Inv(Apply(s, StoreSnapshot(c)))
  {
    var cl := s.clients[c];
    LocalStep(s, c, cl.(work := StoredSnapshot, snapshot := Newest(cl)));
  }

  lemma StoreTableKeeps(s: State, c: nat)
    requires Inv(s) && Enabled(s, StoreTable(c))
    ensures Inv(Apply(s, StoreTable(c)))
  {
    var cl := s.clients[c];
    LocalStep(s, c, cl.(work := StoredTable, table := Newest(cl)));
  }

  lemma StoreSniKeeps(s: State, c: nat)
    requires Inv(s) && Enabled(s, StoreSni(c))
    ensures Inv(Apply(s, StoreSni(c)))
  {
    var cl := s.clients[c];
    LocalStep(s, c, cl.(work := Idle, sni := Newest(cl)));
  }

  lemma BeginKeeps(s: State, c: nat, r: nat)
    requires Inv(s) && Enabled(s, BeginRequest(c, r))
    ensures Inv(Apply(s, BeginRequest(c, r)))
  {
    var cl := s.clients[c];
    LocalStep(s, c, cl.(readers := cl.readers[r := []]));
  }

  lemma LookupKeeps(s: State, c: nat, r: nat)
    requires Inv(s) && Enabled(s, Lookup(c, r))
    ensures Inv(Apply(s, Lookup(c, r)))
  {
    var cl := s.clients[c];
    LocalStep(s, c, cl.(readers := cl.readers[r := cl.readers[r] + [cl.table]]));
  }

  lemma EndKeeps(s: State, c: nat, r: nat)
    requires Inv(s) && Enabled(s, EndRequest(c, r))
    ensures Inv(Apply(s, EndRequest(c, r)))
  {
    var cl := s.clients[c];
    LocalStep(s, c, cl.(readers := cl.readers - {r}, served := cl.served + [cl.readers[r]]));
  }

  // ---- runs ------------------------------------------------------------------------------------

  lemma HubStepKeeps(s: State, a: Action)
    requires Inv(s) && Enabled(s, a) && IsHubStep(a)
    ensures Inv(Apply(s, a))
  {
    match a {
      case Reconcile(v) => ReconcileKeeps(s, v);
      case Offer(id) => OfferKeeps(s, id);
      case Accept(c, call) => AcceptKeeps(s, c, call);
      case ServerTake(id) => ServerTakeKeeps(s, id);
      case ServerSend(id) => ServerSendKeeps(s, id);
      case ServerStop(id) => ServerStopKeeps(s, id);
      case ServerRemove(id) => RemoveKeeps(s, id);
    }
  }

  predicate IsLookupStep(a: Action) {
    a.BeginRequest? || a.Lookup? || a.EndRequest?
  }

  lemma LookupStepKeeps(s: State, a: Action)
    requires Inv(s) && Enabled(s, a) && IsLookupStep(a)
    ensures Inv(Apply(s, a))
  {
    match a {
      case BeginRequest(c, r) => BeginKeeps(s, c, r);
      case Lookup(c, r) => LookupKeeps(s, c, r);
      case EndRequest(c, r) => EndKeeps(s, c, r);
    }
  }

  lemma StreamLoopKeeps(s: State, a: Action)
    requires Inv(s) && Enabled(s, a) && !IsHubStep(a) && !IsLookupStep(a)
    ensures Inv(Apply(s, a))
  {
    match a {
      case Dial(c) => DialKeeps(s, c);
      case DialFail(_) => DownKeeps(s, a);
      case Attach(c, id) => AttachKeeps(s, c, id);
      case Hangup(_) => DownKeeps(s, a);
      case Receive(c) => ReceiveKeeps(s, c);
      case StoreSnapshot(c) => StoreSnapshotKeeps(s, c);
      case StoreTable(c) => StoreTableKeeps(s, c);
      case StoreSni(c) => StoreSniKeeps(s, c);
    }
  }

  lemma StepKeeps(s: State, a: Action)
    requires Inv(s) && Enabled(s, a)
    ensures Inv(Apply(s, a))
  {
    if IsHubStep(a) {
      HubStepKeeps(s, a);
    } else if IsLookupStep(a) {
      LookupStepKeeps(s, a);
    } else {
      StreamLoopKeeps(s, a);
    }
  }

  lemma {:induction false} RunKeeps(s: State, acts: seq<Action>)
    requires Inv(s) && ValidRun(s, acts)
    ensures Inv(Exec(s, acts))
    decreases acts
  {
    if acts != [] {
      StepKeeps(s, acts[0]);
      RunKeeps(Apply(s, acts[0]), acts[1..]);
    }
  }

  lemma ReachableInv(s: State)
    requires Reachable(s)
    ensures Inv(s)
  {
    var ids, acts :| ValidRun(Init(ids), acts) && Exec(Init(ids), acts) == s;
    RunKeeps(Init(ids), acts);
  }
}
