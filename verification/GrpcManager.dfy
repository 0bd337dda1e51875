/** The data plane's stream loop as an object, run against a script of connection outcomes.
    Its interleaving with the control plane and with requests is in `Distribution`. */
module GrpcManager {

  const BACKOFF_START := 500
  const BACKOFF_MAX := 10_000

  /** One turn of the outer loop: the connection fails or times out, the watch call fails, or a
      stream delivers some messages and ends. */
  datatype Turn<S> =
    | ConnectFailed
    | WatchFailed
    | Streamed(messages: seq<S>)

  /** How the task stands after its turns: still looping, cancelled at the head of the loop, or
      cancelled while it streams, after some messages. */
  datatype Ending<S> =
    | Looping
    | CancelledAtHead
    | CancelledStreaming(messages: seq<S>)

  function Doubled(backoff: nat): nat {
    if backoff * 2 < BACKOFF_MAX then backoff * 2 else BACKOFF_MAX
  }

  /** All messages of a script, in order. */
  function Messages<S>(turns: seq<Turn<S>>): seq<S> {
    if turns == [] then []
    else
      var t := turns[|turns| - 1];
      Messages(turns[..|turns| - 1]) + if t.Streamed? then t.messages else []
  }

  lemma MessagesStep<S>(turns: seq<Turn<S>>, i: nat)
    requires i < |turns|
    ensures Messages(turns[..i + 1]) == Messages(turns[..i]) + if turns[i].Streamed? then turns[i].messages else []
  {
    assert turns[..i + 1][..i] == turns[..i];
  }

  /** All messages of a script and its ending. */
  function AllMessages<S>(turns: seq<Turn<S>>, ending: Ending<S>): seq<S> {
    Messages(turns) + if ending.CancelledStreaming? then ending.messages else []
  }

  /** The failed connections in a row just before turn `i`. */
  function Failures<S>(turns: seq<Turn<S>>, i: nat): nat
    requires i <= |turns|
  {
    if i == 0 || !turns[i - 1].ConnectFailed? then 0 else 1 + Failures(turns, i - 1)
  }

  function Power(k: nat): nat {
    if k == 0 then 1 else 2 * Power(k - 1)
  }

  function Capped(n: nat): nat {
    if n < BACKOFF_MAX then n else BACKOFF_MAX
  }

  /** The backoff before turn `i`: doubled for each failure since the last established
      connection, and once more if there was one, up to the maximum. */
  function BackoffBefore<S>(turns: seq<Turn<S>>, i: nat): nat
    requires i <= |turns|
  {
    var k := Failures(turns, i);
    Capped(BACKOFF_START * Power(if k < i then k + 1 else k))
  }

  function SleepOf<S>(turns: seq<Turn<S>>, i: nat): nat
    requires i < |turns|
  {
    if turns[i].ConnectFailed? then BackoffBefore(turns, i) else BACKOFF_START
  }

  lemma {:induction false} FailuresBound<S>(turns: seq<Turn<S>>, i: nat)
    requires i <= |turns|
    ensures Failures(turns, i) <= i
  {
    if i > 0 && turns[i - 1].ConnectFailed? {
      FailuresBound(turns, i - 1);
    }
  }

  /** Doubling and capping each time is capping the power once. */
  lemma BackoffStep<S>(turns: seq<Turn<S>>, i: nat)
    requires i < |turns|
    ensures BackoffBefore(turns, i + 1) ==
            Doubled(if turns[i].ConnectFailed? then BackoffBefore(turns, i) else BACKOFF_START)
  {
    FailuresBound(turns, i);
    if !turns[i].ConnectFailed? {
      assert Power(1) == 2 by { assert Power(0) == 1; }
    }
  }

  lemma {:induction false} BackoffRange<S>(turns: seq<Turn<S>>, i: nat)
    requires i <= |turns|
    ensures BACKOFF_START <= BackoffBefore(turns, i) <= BACKOFF_MAX
  {
    if i > 0 {
      BackoffRange(turns, i - 1);
      BackoffStep(turns, i - 1);
    }
  }

  /** The law in milliseconds: the sleeps of a run of failures from the start, and those after an
      established connection. */
  lemma BackoffTable<S>(turns: seq<Turn<S>>, i: nat)
    requires i < |turns|
    ensures 500 <= SleepOf(turns, i) <= 10_000
    ensures turns[i] != ConnectFailed ==> SleepOf(turns, i) == 500
    ensures turns[i] == ConnectFailed && i == 0 ==> SleepOf(turns, i) == 500
    ensures turns[i] == ConnectFailed && i > 0 ==>
              SleepOf(turns, i) == if SleepOf(turns, i - 1) <= 5_000 then 2 * SleepOf(turns, i - 1) else 10_000
  {
    BackoffRange(turns, i);
    if i > 0 {
      BackoffStep(turns, i - 1);
    }
  }

  /** The sleeps of the first `i` turns follow the backoff law. */
  ghost predicate SleptBy<S>(sleeps: seq<nat>, turns: seq<Turn<S>>, i: nat)
    requires i <= |turns|
  {
    |sleeps| == i && forall j :: 0 <= j < i ==> sleeps[j] == SleepOf(turns, j)
  }

  /** One turn more; what it sleeps, doubled, is the backoff before the next. */
  lemma SleptStep<S>(sleeps: seq<nat>, turns: seq<Turn<S>>, i: nat)
    requires i < |turns| && SleptBy(sleeps, turns, i)
    ensures SleptBy(sleeps + [SleepOf(turns, i)], turns, i + 1)
    ensures BackoffBefore(turns, i + 1) == Doubled(SleepOf(turns, i))
  {
    BackoffStep(turns, i);
  }

  ghost predicate EverStreamed<S>(turns: seq<Turn<S>>, i: nat)
    requires i <= |turns|
  {
    exists j :: 0 <= j < i && turns[j].Streamed?
  }

  class GrpcManager<S, T, K> {
    const build: S -> T   // RouteTable::new
    const certs: S -> K   // certificates_from_snap
    var ready: bool
    var snapshot: S
    var routeTable: T
    var sni: K
    var backoffMs: nat
    var sleeps: seq<nat>

    constructor (build: S -> T, certs: S -> K, snapshot: S, routeTable: T, sni: K)
      ensures this.build == build && this.certs == certs
      ensures this.snapshot == snapshot && this.routeTable == routeTable && this.sni == sni
      ensures !ready && backoffMs == BACKOFF_START && sleeps == []
    {
      this.build, this.certs := build, certs;
      this.snapshot, this.routeTable, this.sni := snapshot, routeTable, sni;
      ready, backoffMs, sleeps := false, BACKOFF_START, [];
    }

    /** The three slots hold the same message. */
    ghost predicate Holds(snap: S)
      reads this
    {
      snapshot == snap && routeTable == build(snap) && sni == certs(snap)
    }

    /** Publishes a message slot by slot. */
    method Store(snap: S)
      modifies this`snapshot, this`routeTable, this`sni
      ensures Holds(snap)
    {
      snapshot := snap;
      var table := build(snap);
      routeTable := table;
      var c := certs(snap);
      sni := c;
    }

    /** The inner loop over one stream. */
    method ReadStream(messages: seq<S>)
      modifies this`snapshot, this`routeTable, this`sni
      ensures messages != [] ==> Holds(messages[|messages| - 1])
      ensures messages == [] ==> snapshot == old(snapshot) && routeTable == old(routeTable) && sni == old(sni)
    {
      for i := 0 to |messages|
        invariant i > 0 ==> Holds(messages[i - 1])
        invariant i == 0 ==> snapshot == old(snapshot) && routeTable == old(routeTable) && sni == old(sni)
      {
        Store(messages[i]);
      }
    }

    /** The slots hold the last message, or what they held before when there was none. */
    twostate predicate HoldsLast(messages: seq<S>)
      reads this
    {
      if messages != [] then Holds(messages[|messages| - 1])
      else snapshot == old(snapshot) && routeTable == old(routeTable) && sni == old(sni)
    }

    /** One turn of the outer loop, up to its sleep and the next backoff. */
    method TakeTurn(t: Turn<S>)
      modifies this`ready, this`snapshot, this`routeTable, this`sni, this`backoffMs, this`sleeps
      ensures HoldsLast(if t.Streamed? then t.messages else [])
      ensures ready <==> old(ready) || t.Streamed?
      ensures var slept := if t.ConnectFailed? then old(backoffMs) else BACKOFF_START;
              sleeps == old(sleeps) + [slept] && backoffMs == Doubled(slept)
    {
      match t {
        case ConnectFailed =>
          sleeps := sleeps + [backoffMs];
          backoffMs := Doubled(backoffMs);
        case WatchFailed =>
          backoffMs := BACKOFF_START;
          sleeps := sleeps + [backoffMs];
          backoffMs := Doubled(backoffMs);
        case Streamed(messages) =>
          backoffMs := BACKOFF_START;
          ready := true;
          ReadStream(messages);
          sleeps := sleeps + [backoffMs];
          backoffMs := Doubled(backoffMs);
      }
    }

    /** The outer loop over a script of turns. */
    method TakeTurns(turns: seq<Turn<S>>)
      requires backoffMs == BACKOFF_START && sleeps == []
      modifies this`ready, this`snapshot, this`routeTable, this`sni, this`backoffMs, this`sleeps
      ensures HoldsLast(Messages(turns))
      ensures ready <==> old(ready) || EverStreamed(turns, |turns|)
      ensures SleptBy(sleeps, turns, |turns|)
    {
      for i := 0 to |turns|
        invariant HoldsLast(Messages(turns[..i]))
        invariant ready <==> old(ready) || EverStreamed(turns, i)
        invariant SleptBy(sleeps, turns, i) && backoffMs == BackoffBefore(turns, i)
      {
        SleptStep(sleeps, turns, i);
        MessagesStep(turns, i);
        TakeTurn(turns[i]);
      }
      assert turns[..|turns|] == turns;
    }

    /** The task. After any script the slots hold the last message of all streams, `ready` stays set
        once a watch stream was established, and the sleeps follow the backoff law. It ends by
        cancellation alone, and then without another sleep. */
    method Run(turns: seq<Turn<S>>, ending: Ending<S>) returns (exited: bool)
      requires backoffMs == BACKOFF_START && sleeps == []
      modifies this`ready, this`snapshot, this`routeTable, this`sni, this`backoffMs, this`sleeps
      ensures HoldsLast(AllMessages(turns, ending))
      ensures ready <==> old(ready) || ending.CancelledStreaming? || EverStreamed(turns, |turns|)
      ensures SleptBy(sleeps, turns, |turns|)
      ensures exited <==> !ending.Looping?
    {
      TakeTurns(turns);
      match ending {
        case Looping =>
          exited := false;
        case CancelledAtHead =>
          exited := true;
        case CancelledStreaming(messages) =>
          backoffMs := BACKOFF_START;
          ready := true;
          ReadStream(messages);
          exited := true;
      }
    }
  }
}
