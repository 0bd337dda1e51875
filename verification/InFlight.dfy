/** In-flight accounting over any interleaving of request starts, request ends and route-table
    replacements: every counter cell ever allocated equals the number of live guards on it. */
module InFlight {
  import opened Text
  import opened Balancer
  import Wire
  import RT = RouteTable

  /** `ActiveConnGuard`. */
  class Guard {
    const counter: Option<Counter>

    constructor (counter: Option<Counter>)
      modifies if counter.Some? then {counter.value} else {}
      ensures this.counter == counter
      ensures counter.Some? ==> counter.value.value == (old(counter.value.value) + 1) % WORD
    {
      this.counter := counter;
      new;
      if counter.Some? {
        counter.value.value := (counter.value.value + 1) % WORD;
      }
    }

    /** The effect of dropping the guard. */
    method Drop()
      modifies if counter.Some? then {counter.value} else {}
      ensures counter.Some? ==> counter.value.value == (old(counter.value.value) - 1) % WORD
    {
      if counter.Some? {
        counter.value.value := (counter.value.value - 1) % WORD;
      }
    }
  }

  ghost function Holders(live: set<Guard>, c: Counter): set<Guard> {
    set g | g in live && g.counter == Some(c)
  }

  lemma HoldersAdd(live: set<Guard>, g: Guard, c: Counter)
    requires g !in live
    ensures |Holders(live + {g}, c)| == |Holders(live, c)| + if g.counter == Some(c) then 1 else 0
  {
    var h := Holders(live, c);
    assert Holders(live + {g}, c) == if g.counter == Some(c) then h + {g} else h;
  }

  /** A guard joins: the cell it holds goes up by one, the others stay. */
  lemma GuardJoins(live: set<Guard>, g: Guard, c: Counter, value: int)
    requires g !in live && value == |Holders(live, c)| % WORD
    ensures (if g.counter == Some(c) then (value + 1) % WORD else value) == |Holders(live + {g}, c)| % WORD
  {
    HoldersAdd(live, g, c);
  }

  /** A guard leaves: the cell it held goes down by one, the others stay. */
  lemma GuardLeaves(live: set<Guard>, g: Guard, c: Counter, value: int)
    requires g in live && value == |Holders(live, c)| % WORD
    ensures (if g.counter == Some(c) then (value - 1) % WORD else value) == |Holders(live - {g}, c)| % WORD
    ensures g.counter == Some(c) ==> |Holders(live, c)| >= 1
  {
    HoldersAdd(live - {g}, g, c);
    assert live - {g} + {g} == live;
  }

  lemma {:induction false} SubsetSize<T>(a: set<T>, b: set<T>)
    requires a <= b
    ensures |a| <= |b|
    decreases a
  {
    if a != {} {
      var x :| x in a;
      SubsetSize(a - {x}, b - {x});
    }
  }

  class Proxy {
    var table: map<string, ClusterRule>
    ghost var cells: set<Counter>  // every cell ever allocated
    ghost var live: set<Guard>     // guards not yet dropped

    ghost predicate Counted()
      reads this, cells
    {
      && (forall c :: c in cells ==> c.value == |Holders(live, c)| % WORD)
      && (forall g :: g in live && g.counter.Some? ==> g.counter.value in cells)
    }

    ghost predicate Valid()
      reads this, cells, table.Values
    {
      && Counted()
      && (forall n :: n in table ==> table[n].Valid() && table[n].Cells() <= cells)
    }

    constructor ()
      ensures Valid() && table == map[] && cells == {} && live == {}
    {
      table, cells, live := map[], {}, {};
    }

    /** A new table starts from zero on cells of its own: no guard of an earlier request holds
        one of them, and the cells of earlier tables are not touched. */
    method Replace(clusters: seq<Wire.Cluster>)
      requires Valid()
      modifies this
      ensures Valid() && live == old(live) && old(cells) <= cells
      ensures forall c :: c in cells - old(cells) ==> fresh(c) && c.value == 0
      ensures table.Keys == RT.ClusterIndex(clusters).Keys
      ensures forall n :: n in table ==>
                && table[n].endpoints == RT.ClusterIndex(clusters)[n].endpoints
                && table[n].lbPolicy == RT.ClusterIndex(clusters)[n].lbPolicy
                && table[n].Cells() !! old(cells)
      ensures forall n, g :: n in table && g in live && g.counter.Some? ==> g.counter.value !in table[n].Cells()
    {
      var next: map<string, ClusterRule> := map[];
      ghost var added: set<Counter> := {};
      for i := 0 to |clusters|
        invariant unchanged(this)
        invariant next.Keys == RT.ClusterIndex(clusters[..i]).Keys
        invariant forall c :: c in added ==> fresh(c) && c.value == 0
        invariant forall n :: n in next ==>
                    && next[n].Valid() && next[n].Cells() <= added
                    && next[n].endpoints == RT.ClusterIndex(clusters[..i])[n].endpoints
                    && next[n].lbPolicy == RT.ClusterIndex(clusters[..i])[n].lbPolicy
      {
        assert clusters[..i + 1][..i] == clusters[..i];
        if RT.KnownPolicy(clusters[i].lbPolicy) {
          var rule := new ClusterRule(clusters[i]);
          added := added + rule.Cells();
          next := next[Lower(clusters[i].name) := rule];
        }
      }
      assert clusters[..|clusters|] == clusters;
      forall c | c in added ensures Holders(live, c) == {} {
        assert forall g :: g in live && g.counter == Some(c) ==> c in old(cells);
      }
      cells := cells + added;
      table := next;
    }

    /** `get_endpoint`: an endpoint of the named cluster with its own counter, as the cluster's
        policy has it. */
    method Select(name: string) returns (sel: Option<Selected>)
      requires Valid()
      modifies if name in table then {table[name]} else {}
      ensures Valid()
      ensures sel == None <==> name !in table || table[name].endpoints == []
      ensures sel.Some? ==> sel.value.counter.Some? && sel.value.counter.value in table[name].Cells()
                            && sel.value.endpoint in table[name].endpoints
      ensures sel.Some? && table[name].lbPolicy == Wire.RoundRobin ==>
                && table[name].Picks(sel, old(table[name].cursor) % |table[name].endpoints|)
                && table[name].cursor == (old(table[name].cursor) + 1) % WORD
      ensures sel.Some? && table[name].lbPolicy == Wire.LeastConn ==>
                table[name].PicksLeast(sel) && table[name].cursor == old(table[name].cursor)
    {
      if name in table {
        sel := table[name].Choose();
        if sel.Some? {
          ghost var i: nat :| table[name].Picks(sel, i);
        }
      } else {
        sel := None;
      }
    }

    /** A request starts. */
    method Begin(counter: Option<Counter>) returns (g: Guard)
      requires Valid() && (counter.Some? ==> counter.value in cells)
      modifies this`live, if counter.Some? then {counter.value} else {}
      ensures Valid() && fresh(g) && g.counter == counter && live == old(live) + {g}
      ensures counter.Some? && |old(live)| + 1 < WORD ==> counter.value.value == old(counter.value.value) + 1
    {
      ghost var before := live;
      if counter.Some? {
        SubsetSize(Holders(live, counter.value), live);
      }
      g := new Guard(counter);
      forall c | c in cells ensures c.value == |Holders(before + {g}, c)| % WORD {
        GuardJoins(before, g, c, old(c.value));
      }
      live := before + {g};
    }

    /** A request ends. With fewer than 2^64 requests in flight the decrement never wraps. */
    method End(g: Guard)
      requires Valid() && g in live
      modifies this`live, if g.counter.Some? then {g.counter.value} else {}
      ensures Valid() && live == old(live) - {g}
      ensures g.counter.Some? && |old(live)| < WORD ==>
                old(g.counter.value.value) >= 1 && g.counter.value.value == old(g.counter.value.value) - 1
    {
      ghost var before := live;
      forall c | c in cells
        ensures (if g.counter == Some(c) then (c.value - 1) % WORD else c.value) == |Holders(before - {g}, c)| % WORD
        ensures g.counter == Some(c) ==> |Holders(before, c)| >= 1
      {
        GuardLeaves(before, g, c, c.value);
      }
      if g.counter.Some? {
        SubsetSize(Holders(before, g.counter.value), before);
      }
      g.Drop();
      live := before - {g};
    }
  }

  /** With fewer than 2^64 live guards a cell is exactly the number of guards on it, and when
      everything has drained every cell ever allocated is zero. */
  lemma CellsCountGuards(p: Proxy, c: Counter)
    requires p.Valid() && c in p.cells
    ensures |p.live| < WORD ==> c.value == |Holders(p.live, c)|
    ensures p.live == {} ==> c.value == 0
  {
    SubsetSize(Holders(p.live, c), p.live);
  }
}
