/** Load balancing of the data plane: the counter map, round robin and least connections. */
module Balancer {
  import opened Text
  import Wire
  import RT = RouteTable

  /** Machine words wrap at 2^64. */
  const WORD := 0x1_0000_0000_0000_0000

  /** An `AtomicUsize`. */
  class Counter {
    var value: int

    constructor ()
      ensures value == 0
    {
      value := 0;
    }
  }

  datatype EndpointKey = EndpointKey(address: string, port: int, index: nat)

  function KeyFor(endpoints: seq<Wire.Endpoint>, i: nat): EndpointKey
    requires i < |endpoints|
  {
    EndpointKey(endpoints[i].address, endpoints[i].port, i)
  }

  /** The map has exactly one key for each index, and no two keys share a cell. */
  ghost predicate Bijective(counters: map<EndpointKey, Counter>, endpoints: seq<Wire.Endpoint>) {
    && (forall i :: 0 <= i < |endpoints| ==> KeyFor(endpoints, i) in counters)
    && (forall k :: k in counters ==> k.index < |endpoints| && k == KeyFor(endpoints, k.index))
    && (forall k, k' :: k in counters && k' in counters && counters[k] == counters[k'] ==> k == k')
  }

  /** `EndpointKey::build_map`: repeated address and port pairs stay apart by their index. */
  method BuildMap(endpoints: seq<Wire.Endpoint>) returns (counters: map<EndpointKey, Counter>)
    ensures Bijective(counters, endpoints)
    ensures forall k :: k in counters ==> fresh(counters[k]) && counters[k].value == 0
  {
    counters := map[];
    for i := 0 to |endpoints|
      invariant forall j :: 0 <= j < i ==> KeyFor(endpoints, j) in counters
      invariant forall k :: k in counters ==> k.index < i && k == KeyFor(endpoints, k.index)
      invariant forall k, k' :: k in counters && k' in counters && counters[k] == counters[k'] ==> k == k'
      invariant forall k :: k in counters ==> fresh(counters[k]) && counters[k].value == 0
    {
      var cell := new Counter();
      var key := KeyFor(endpoints, i);
      assert key !in counters;
      counters := counters[key := cell];
    }
  }

  datatype Selected = Selected(endpoint: Wire.Endpoint, counter: Option<Counter>)

  class ClusterRule {
    const lbPolicy: Wire.LbPolicy
    const endpoints: seq<Wire.Endpoint>
    const counters: map<EndpointKey, Counter>
    var cursor: int

    ghost predicate Valid()
      reads this
    {
      0 <= cursor < WORD && Bijective(counters, endpoints) && RT.KnownPolicy(lbPolicy)
    }

    constructor (config: Wire.Cluster)
      requires RT.KnownPolicy(config.lbPolicy)
      ensures Valid() && cursor == 0
      ensures lbPolicy == config.lbPolicy && endpoints == config.endpoints
      ensures forall k :: k in counters ==> fresh(counters[k]) && counters[k].value == 0
    {
      var m := BuildMap(config.endpoints);
      lbPolicy, endpoints, counters, cursor := config.lbPolicy, config.endpoints, m, 0;
    }

    ghost function Cells(): set<Counter> {
      counters.Values
    }

    /** Total on the valid indices. */
    function CounterForIndex(i: nat): (c: Option<Counter>)
      ensures i < |endpoints| && Bijective(counters, endpoints) ==>
                c == Some(counters[KeyFor(endpoints, i)])
      ensures i >= |endpoints| ==> c == None
    {
      if i < |endpoints| then
        var key := EndpointKey(endpoints[i].address, endpoints[i].port, i);
        if key in counters then Some(counters[key]) else None
      else None
    }

    /** Endpoint `i` together with its own counter. */
    ghost predicate Picks(sel: Option<Selected>, i: nat)
      requires Bijective(counters, endpoints)
    {
      i < |endpoints| && sel == Some(Selected(endpoints[i], Some(counters[KeyFor(endpoints, i)])))
    }

    /** One ticket of the wrapping cursor. */
    method RoundRobin() returns (sel: Option<Selected>)
      requires 0 <= cursor < WORD
      modifies this`cursor
      ensures endpoints == [] ==> sel == None && cursor == old(cursor)
      ensures endpoints != [] ==>
                && cursor == (old(cursor) + 1) % WORD
                && (Bijective(counters, endpoints) ==> Picks(sel, old(cursor) % |endpoints|))
    {
      var len := |endpoints|;
      if len == 0 {
        return None;
      }
      var i := cursor % len;
      cursor := (cursor + 1) % WORD;
      sel := Some(Selected(endpoints[i], CounterForIndex(i)));
    }

    /** `min_by_key` over the counter map, in any iteration order. */
    method LeastEntry() returns (min: Option<EndpointKey>)
      ensures min == None <==> counters == map[]
      ensures min.Some? ==> min.value in counters
      ensures min.Some? ==> forall k :: k in counters ==> counters[min.value].value <= counters[k].value
    {
      min := None;
      var left := counters.Keys;
      while left != {}
        invariant left <= counters.Keys
        invariant min == None <==> left == counters.Keys
        invariant min.Some? ==> min.value in counters
        invariant min.Some? ==> forall k :: k in counters && k !in left ==> counters[min.value].value <= counters[k].value
      {
        var k :| k in left;
        left := left - {k};
        if min == None || counters[k].value < counters[min.value].value {
          min := Some(k);
        }
      }
    }

    /** Some endpoint of minimal count with its own counter. */
    ghost predicate PicksLeast(sel: Option<Selected>)
      reads Cells()
      requires Bijective(counters, endpoints)
    {
      exists i: nat :: Picks(sel, i) &&
        forall j :: 0 <= j < |endpoints| ==>
          counters[KeyFor(endpoints, i)].value <= counters[KeyFor(endpoints, j)].value
    }

    /** With the map that `BuildMap` makes, the round-robin fallback is never taken: the cursor
        does not move. */
    method LeastConn() returns (sel: Option<Selected>)
      requires 0 <= cursor < WORD
      modifies this`cursor
      ensures 0 <= cursor < WORD
      ensures endpoints == [] ==> sel == None && cursor == old(cursor)
      ensures endpoints != [] && Bijective(counters, endpoints) ==> PicksLeast(sel) && cursor == old(cursor)
    {
      var len := |endpoints|;
      if len == 0 {
        return None;
      }
      assert Bijective(counters, endpoints) ==> KeyFor(endpoints, 0) in counters;
      var min := LeastEntry();
      if min.Some? {
        var i := min.value.index;
        if i < |endpoints| {
          sel := Some(Selected(endpoints[i], Some(counters[min.value])));
          assert Bijective(counters, endpoints) ==> Picks(sel, i);
          return;
        }
      }
      sel := RoundRobin();
    }

    /** The policy switch of `get_endpoint`: a round-robin cluster takes the endpoint its cursor
        points at and advances it, the other takes a least loaded one and leaves the cursor. */
    method Choose() returns (sel: Option<Selected>)
      requires Valid()
      modifies this`cursor
      ensures Valid()
      ensures endpoints == [] ==> sel == None && cursor == old(cursor)
      ensures endpoints != [] ==> exists i: nat :: Picks(sel, i)
      ensures endpoints != [] && lbPolicy == Wire.RoundRobin ==>
                Picks(sel, old(cursor) % |endpoints|) && cursor == (old(cursor) + 1) % WORD
      ensures endpoints != [] && lbPolicy == Wire.LeastConn ==> PicksLeast(sel) && cursor == old(cursor)
    {
      if lbPolicy.RoundRobin? {
        sel := RoundRobin();
      } else {
        sel := LeastConn();
      }
    }
  }
}
