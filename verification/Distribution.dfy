/** Snapshot distribution as a step system: the reconciler's version gate, the hub with its
    capacity-one channels, one `Watch` loop for each stream, and the data planes' reconnecting
    stream loops. Every interleaving of the steps is a run. A snapshot is named by the number of
    its broadcast; 0 names the zero snapshot of a new hub. */
module Distribution {

  /** Where a `Watch` call stands. */
  datatype Phase =
    | Waiting            // in the select
    | Sending(msg: nat)  // inside stream.Send
    | Stopped            // returned; the deferred Remove is due or done

  datatype Stream = Stream(
    owner: nat,      // the data plane that called
    call: nat,       // which of its calls
    first: nat,      // `last` as returned by Add
    phase: Phase,
    chan: seq<nat>,  // the capacity-one channel
    sent: seq<nat>,  // everything put on the wire, in order
    taken: nat,      // how much of `sent` the client has read
    drops: set<nat>) // broadcasts that found the channel full

  datatype Link = Down | Calling | Streaming(id: nat)

  /** Where the data plane stands between receiving a message and waiting for the next. */
  datatype Work = Idle | Received | StoredSnapshot | StoredTable

  datatype Client = Client(
    link: Link,
    calls: nat,                // watch calls made so far
    received: seq<nat>,        // messages read, over all streams
    work: Work,
    snapshot: nat, table: nat, sni: nat,
    readers: map<nat, seq<nat>>,  // running lookups: the table generations each has read
    served: seq<seq<nat>>)        // the same for finished lookups

  datatype State = State(
    versions: seq<string>,     // versions broadcast so far
    lastVersion: string,       // the reconciler's version gate
    next: nat, cons: set<nat>, last: nat,  // the hub
    pending: set<nat>,         // channels captured by the running broadcast, not yet offered to
    streams: map<nat, Stream>,
    clients: map<nat, Client>)

  datatype Action =
    | Reconcile(version: string)
    | Offer(id: nat)
    | Accept(c: nat, call: nat)
    | ServerTake(id: nat)
    | ServerSend(id: nat)
    | ServerStop(id: nat)
    | ServerRemove(id: nat)
    | Dial(c: nat)
    | DialFail(c: nat)
    | Attach(c: nat, id: nat)
    | Hangup(c: nat)
    | Receive(c: nat)
    | StoreSnapshot(c: nat)
    | StoreTable(c: nat)
    | StoreSni(c: nat)
    | BeginRequest(c: nat, r: nat)
    | Lookup(c: nat, r: nat)
    | EndRequest(c: nat, r: nat)

  const NEW_CLIENT := Client(Down, 0, [], Idle, 0, 0, 0, map[], [])

  function Init(ids: set<nat>): State {
    State([], "", 0, {}, 0, {}, map[], map c | c in ids :: NEW_CLIENT)
  }

  /** The version of a snapshot; the zero snapshot has the empty one. */
  function VersionOf(versions: seq<string>, k: nat): string {
    if 0 < k <= |versions| then versions[k - 1] else ""
  }

  function Newest(c: Client): nat {
    if c.received == [] then 0 else c.received[|c.received| - 1]
  }

  /** A non-blocking send on the channel of capacity one: a full channel drops the message. */
  function OfferTo(st: Stream, msg: nat): Stream {
    if st.chan == [] then st.(chan := [msg]) else st.(drops := st.drops + {msg})
  }

  predicate Enabled(s: State, a: Action) {
    match a
    case Reconcile(v) => v != "" && s.pending == {}   // one worker, and versions are hashes
    case Offer(id) => id in s.pending && id in s.streams
    case Accept(c, call) => c in s.clients && 1 <= call <= s.clients[c].calls
    case ServerTake(id) => id in s.streams && s.streams[id].phase.Waiting? && s.streams[id].chan != []
    case ServerSend(id) => id in s.streams && s.streams[id].phase.Sending?
    case ServerStop(id) => id in s.streams && !s.streams[id].phase.Stopped?
    case ServerRemove(id) => id in s.streams && s.streams[id].phase.Stopped?
    case Dial(c) => c in s.clients && s.clients[c].link.Down?
    case DialFail(c) => c in s.clients && s.clients[c].link.Calling?
    case Attach(c, id) =>
      && c in s.clients && s.clients[c].link.Calling?
      && id in s.streams && s.streams[id].owner == c && s.streams[id].call == s.clients[c].calls
    case Hangup(c) => c in s.clients && s.clients[c].link.Streaming? && s.clients[c].work.Idle?
    case Receive(c) =>
      && c in s.clients && s.clients[c].link.Streaming? && s.clients[c].work.Idle?
      && s.clients[c].link.id in s.streams
      && s.streams[s.clients[c].link.id].taken < |s.streams[s.clients[c].link.id].sent|
    case StoreSnapshot(c) => c in s.clients && s.clients[c].work.Received?
    case StoreTable(c) => c in s.clients && s.clients[c].work.StoredSnapshot? && s.clients[c].readers == map[]
    case StoreSni(c) => c in s.clients && s.clients[c].work.StoredTable?
    case BeginRequest(c, r) => c in s.clients && r !in s.clients[c].readers
    case Lookup(c, r) => c in s.clients && r in s.clients[c].readers
    case EndRequest(c, r) => c in s.clients && r in s.clients[c].readers
  }

  predicate IsHubStep(a: Action) {
    || a.Reconcile? || a.Offer? || a.Accept?
    || a.ServerTake? || a.ServerSend? || a.ServerStop? || a.ServerRemove?
  }

  function SetStream(s: State, id: nat, st: Stream): State {
    s.(streams := s.streams[id := st])
  }

  function SetClient(s: State, c: nat, cl: Client): State {
    s.(clients := s.clients[c := cl])
  }

  function Apply(s: State, a: Action): State
    requires Enabled(s, a)
  {
    match a
    case Reconcile(v) =>
      if v == s.lastVersion then s
      else s.(versions := s.versions + [v], lastVersion := v, last := |s.versions| + 1, pending := s.cons)
    case Offer(id) =>
      SetStream(s, id, OfferTo(s.streams[id], s.last)).(pending := s.pending - {id})
    case Accept(c, call) =>
      // Hub.Add, then the initial send unless the hub still holds the zero snapshot
      var phase := if VersionOf(s.versions, s.last) != "" then Sending(s.last) else Waiting;
      SetStream(s, s.next, Stream(c, call, s.last, phase, [], [], 0, {}))
      .(next := s.next + 1, cons := s.cons + {s.next})
    case ServerTake(id) =>
      var st := s.streams[id];
      SetStream(s, id, st.(phase := Sending(st.chan[0]), chan := st.chan[1..]))
    case ServerSend(id) =>
      var st := s.streams[id];
      SetStream(s, id, st.(phase := Waiting, sent := st.sent + [st.phase.msg]))
    case ServerStop(id) => SetStream(s, id, s.streams[id].(phase := Stopped))
    case ServerRemove(id) => s.(cons := s.cons - {id})
    case Dial(c) => SetClient(s, c, s.clients[c].(link := Calling, calls := s.clients[c].calls + 1))
    case DialFail(c) => SetClient(s, c, s.clients[c].(link := Down))
    case Attach(c, id) => SetClient(s, c, s.clients[c].(link := Streaming(id)))
    case Hangup(c) => SetClient(s, c, s.clients[c].(link := Down))
    case Receive(c) =>
      var cl := s.clients[c];
      var st := s.streams[cl.link.id];
      SetClient(SetStream(s, cl.link.id, st.(taken := st.taken + 1)),
                c, cl.(work := Received, received := cl.received + [st.sent[st.taken]]))
    case StoreSnapshot(c) =>
      SetClient(s, c, s.clients[c].(work := StoredSnapshot, snapshot := Newest(s.clients[c])))
    case StoreTable(c) =>
      SetClient(s, c, s.clients[c].(work := StoredTable, table := Newest(s.clients[c])))
    case StoreSni(c) =>
      SetClient(s, c, s.clients[c].(work := Idle, sni := Newest(s.clients[c])))
    case BeginRequest(c, r) => SetClient(s, c, s.clients[c].(readers := s.clients[c].readers[r := []]))
    case Lookup(c, r) =>
      var cl := s.clients[c];
      SetClient(s, c, cl.(readers := cl.readers[r := cl.readers[r] + [cl.table]]))
    case EndRequest(c, r) =>
      var cl := s.clients[c];
      SetClient(s, c, cl.(readers := cl.readers - {r}, served := cl.served + [cl.readers[r]]))
  }

  predicate ValidRun(s: State, acts: seq<Action>)
    decreases acts
  {
    if acts == [] then true
    else Enabled(s, acts[0]) && ValidRun(Apply(s, acts[0]), acts[1..])
  }

  function Exec(s: State, acts: seq<Action>): State
    requires ValidRun(s, acts)
    decreases acts
  {
    if acts == [] then s else Exec(Apply(s, acts[0]), acts[1..])
  }

  ghost predicate Reachable(s: State) {
    exists ids, acts :: ValidRun(Init(ids), acts) && Exec(Init(ids), acts) == s
  }

  // ---- the invariant ------------------------------------------------------------

  predicate Increasing(q: seq<nat>) {
    forall i, j :: 0 <= i < j < |q| ==> q[i] < q[j]
  }

  predicate Nondecreasing(q: seq<nat>) {
    forall i, j :: 0 <= i < j < |q| ==> q[i] <= q[j]
  }

  /** What a stream has delivered, holds in hand and has buffered, in order. */
  function Flow(st: Stream): seq<nat> {
    st.sent + (if st.phase.Sending? then [st.phase.msg] else []) + st.chan
  }

  /** `k` belongs to a stream that has been offered every broadcast up to `upto`. */
  predicate Accepted(st: Stream, k: nat, upto: nat) {
    || (k == st.first && 0 < k)
    || (st.first < k <= upto && k !in st.drops)
  }

  predicate Live(st: Stream) {
    !st.phase.Stopped?
  }

  ghost predicate Accounted(st: Stream, upto: nat) {
    forall k: nat :: k in Flow(st) <==> Accepted(st, k, upto)
  }

  /** `owed`: the broadcast `last` is still to be offered to this stream. */
  ghost predicate StreamOk(st: Stream, last: nat, owed: bool) {
    && st.first <= last && (owed ==> st.first < last)
    && |st.chan| <= 1 && st.taken <= |st.sent|
    && Increasing(Flow(st))
    && (forall k :: k in Flow(st) ==> 0 < k && st.first <= k <= last && (owed ==> k < last))
    && (forall k :: k in st.drops ==> st.first < k <= last && (owed ==> k < last))
    && (0 < st.first && st.sent != [] ==> st.sent[0] == st.first)
    && (0 < st.first && st.sent == [] && Live(st) ==> st.phase == Sending(st.first))
    && (Live(st) ==> Accounted(st, if owed then last - 1 else last))
  }

  function Previous(c: Client): nat {
    if |c.received| < 2 then 0 else c.received[|c.received| - 2]
  }

  /** The three slots hold the newest message or, while it is being stored, the one before. */
  predicate SlotsOk(c: Client) {
    match c.work
    case Idle => c.snapshot == Newest(c) && c.table == Newest(c) && c.sni == Newest(c)
    case Received => c.snapshot == Previous(c) && c.table == Previous(c) && c.sni == Previous(c)
    case StoredSnapshot => c.snapshot == Newest(c) && c.table == Previous(c) && c.sni == Previous(c)
    case StoredTable => c.snapshot == Newest(c) && c.table == Newest(c) && c.sni == Previous(c)
  }

  predicate OneGeneration(gens: seq<nat>) {
    forall i, j :: 0 <= i < j < |gens| ==> gens[i] == gens[j]
  }

  predicate ClientOk(c: Client, last: nat) {
    && Nondecreasing(c.received)
    && (forall i :: 0 <= i < |c.received| ==> c.received[i] <= last)
    && SlotsOk(c)
    && (forall r :: r in c.readers ==> forall i :: 0 <= i < |c.readers[r]| ==> c.readers[r][i] == c.table)
    && (forall i :: 0 <= i < |c.served| ==> OneGeneration(c.served[i]))
  }

  /** What ties a data plane to the stream it reads or waits for. */
  predicate LinkOk(s: State, c: nat)
    requires c in s.clients
  {
    var cl := s.clients[c];
    && (forall id :: id in s.streams && s.streams[id].owner == c ==> s.streams[id].call <= cl.calls)
    && (cl.link.Calling? ==>
          forall id :: id in s.streams && s.streams[id].owner == c && s.streams[id].call == cl.calls ==>
            Newest(cl) <= s.streams[id].first && s.streams[id].taken == 0)
    && (cl.link.Streaming? ==>
          && cl.link.id in s.streams
          && var st := s.streams[cl.link.id];
             && st.owner == c && st.taken <= |st.sent|
             && (if st.taken == 0 then Newest(cl) <= st.first else Newest(cl) == st.sent[st.taken - 1]))
  }

  predicate HubOk(s: State) {
    && s.last == |s.versions|
    && s.lastVersion == VersionOf(s.versions, s.last)
    && (forall i :: 0 <= i < |s.versions| ==> s.versions[i] != "")
    && (forall i :: 0 < i < |s.versions| ==> s.versions[i] != s.versions[i - 1])
    && s.cons <= s.streams.Keys && s.pending <= s.streams.Keys
    && (forall id :: id in s.streams ==> id < s.next)
    && (forall id :: id in s.streams && Live(s.streams[id]) ==> id in s.cons)
  }

  ghost predicate StreamsOk(s: State) {
    forall id :: id in s.streams ==> StreamOk(s.streams[id], s.last, id in s.pending)
  }

  predicate ClientsOk(s: State) {
    forall c :: c in s.clients ==> ClientOk(s.clients[c], s.last)
  }

  predicate LinksOk(s: State) {
    forall c :: c in s.clients ==> LinkOk(s, c)
  }

  ghost predicate Inv(s: State) {
    HubOk(s) && StreamsOk(s) && ClientsOk(s) && LinksOk(s)
  }
}
