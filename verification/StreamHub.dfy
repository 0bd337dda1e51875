/** The hub of the control plane as an object, each method run without interruption. The
    interleavings between the locked part of `Broadcast` and its sends are in `Distribution`;
    `HubSteps` shows that the object takes the steps of that system. */
module StreamHub {

  /** A Go channel of capacity one. */
  class Channel<S> {
    var buffer: seq<S>

    constructor ()
      ensures buffer == []
    {
      buffer := [];
    }

    /** `select { case c <- s: default: }` */
    method Offer(s: S)
      modifies this
      ensures old(buffer) == [] ==> buffer == [s]
      ensures old(buffer) != [] ==> buffer == old(buffer)
    {
      if |buffer| < 1 {
        buffer := buffer + [s];
      }
    }

    /** `<-c`, once there is something to receive. */
    method Take() returns (s: S)
      requires buffer != []
      modifies this
      ensures old(buffer) == [s] + buffer
    {
      s := buffer[0];
      buffer := buffer[1..];
    }
  }

  class StreamHub<S> {
    var next: int
    var cons: map<int, Channel<S>>
    var last: S

    /** The registered channels. */
    ghost function Registered(): set<Channel<S>>
      reads this
    {
      set id | id in cons :: cons[id]
    }

    ghost predicate Valid()
      reads this, Registered()
    {
      && 0 <= next
      && (forall id :: id in cons ==> 0 <= id < next && |cons[id].buffer| <= 1)
      && (forall i, j :: i in cons && j in cons && i != j ==> cons[i] != cons[j])
    }

    constructor (zero: S)
      ensures Valid() && cons == map[] && next == 0 && last == zero
    {
      next, cons, last := 0, map[], zero;
    }

    /** Registers a new empty channel and hands out the current snapshot. */
    method Add() returns (id: int, ch: Channel<S>, current: S)
      requires Valid()
      modifies this
      ensures Valid() && fresh(ch) && ch.buffer == []
      ensures id == old(next) && id !in old(cons) && cons == old(cons)[id := ch] && next == id + 1
      ensures current == last == old(last)
    {
      id := next;
      next := next + 1;
      ch := new Channel();
      cons := cons[id := ch];
      current := last;
    }

    /** Forgets a channel; an unknown id is ignored. */
    method Remove(id: int)
      requires Valid()
      modifies this
      ensures Valid()
      ensures cons == old(cons) - {id} && next == old(next) && last == old(last)
    {
      cons := cons - {id};
    }

    /** The registered channels, in one of the orders in which the map may yield them. */
    method Channels() returns (chs: seq<Channel<S>>)
      requires Valid()
      ensures forall i, j :: 0 <= i < j < |chs| ==> chs[i] != chs[j]
      ensures forall c :: c in chs <==> c in Registered()
    {
      chs := [];
      ghost var ids: seq<int> := [];
      for id := 0 to next
        invariant |ids| == |chs|
        invariant forall k :: 0 <= k < |ids| ==> ids[k] < id && ids[k] in cons && chs[k] == cons[ids[k]]
        invariant forall i, j :: 0 <= i < j < |ids| ==> ids[i] < ids[j]
        invariant forall i :: i in cons && i < id ==> i in ids
      {
        if id in cons {
          chs, ids := chs + [cons[id]], ids + [id];
        }
      }
    }

    /** The locked part of `Broadcast`: stores the snapshot and lists the channels. */
    method Capture(s: S) returns (chs: seq<Channel<S>>)
      requires Valid()
      modifies this`last
      ensures Valid() && last == s
      ensures forall i, j :: 0 <= i < j < |chs| ==> chs[i] != chs[j]
      ensures forall c :: c in chs <==> c in Registered()
    {
      last := s;
      chs := Channels();
    }

    /** Stores the snapshot and offers it once to every registered channel: an empty channel holds
        it afterwards, a full one keeps what it had. */
    method Broadcast(s: S)
      requires Valid()
      modifies this, Registered()
      ensures Valid() && last == s && cons == old(cons) && next == old(next)
      ensures forall id :: id in cons && old(cons[id].buffer) == [] ==> cons[id].buffer == [s]
      ensures forall id :: id in cons && old(cons[id].buffer) != [] ==> cons[id].buffer == old(cons[id].buffer)
    {
      var chs := Capture(s);
      assert forall k :: 0 <= k < |chs| ==> chs[k] in chs;
      for n := 0 to |chs|
        invariant unchanged(this`cons) && unchanged(this`next) && last == s
        invariant forall k :: 0 <= k < |chs| ==> chs[k] in old(Registered())
        invariant forall k :: n <= k < |chs| ==> chs[k].buffer == old(chs[k].buffer)
        invariant forall k :: 0 <= k < n ==>
                    chs[k].buffer == if old(chs[k].buffer) == [] then [s] else old(chs[k].buffer)
      {
        chs[n].Offer(s);
      }
      forall id | id in cons
        ensures cons[id].buffer == if old(cons[id].buffer) == [] then [s] else old(cons[id].buffer)
      {
        assert cons[id] in Registered();
        assert cons[id] in chs;
        var k :| 0 <= k < |chs| && chs[k] == cons[id];
      }
    }
  }

  /** The reconciler's version gate. */
  class Reconciler<S> {
    const hub: StreamHub<S>
    var lastVersion: string
    var currentSnapshot: S

    constructor (hub: StreamHub<S>, zero: S)
      ensures this.hub == hub && lastVersion == "" && currentSnapshot == zero
    {
      this.hub, lastVersion, currentSnapshot := hub, "", zero;
    }

    /** The end of `Reconcile`: an unchanged version leaves everything alone, a new one is stored
        and offered once to every channel. */
    method Reconcile(snap: S, version: string)
      requires hub.Valid()
      modifies this, hub, hub.Registered()
      ensures hub.Valid() && hub.cons == old(hub.cons) && hub.next == old(hub.next)
      ensures lastVersion == version
      ensures version == old(lastVersion) ==>
                && currentSnapshot == old(currentSnapshot) && hub.last == old(hub.last)
                && forall id :: id in hub.cons ==> hub.cons[id].buffer == old(hub.cons[id].buffer)
      ensures version != old(lastVersion) ==>
                && currentSnapshot == snap && hub.last == snap
                && forall id :: id in hub.cons ==>
                     && (old(hub.cons[id].buffer) == [] ==> hub.cons[id].buffer == [snap])
                     && (old(hub.cons[id].buffer) != [] ==> hub.cons[id].buffer == old(hub.cons[id].buffer))
    {
      if version == lastVersion {
        return;
      }
      lastVersion := version;
      currentSnapshot := snap;
      hub.Broadcast(snap);
    }
  }
}
