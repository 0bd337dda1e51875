/** How far least-connections selection can drift when a request's selection and its increment
    are separate steps. The scan of the counters is one step; `slots` bounds the requests that
    have selected and not yet counted themselves. */
module LeastConn {
  import opened Text
  import Balancer
  import InFlight
  import Wire

  datatype State = State(
    counts: seq<nat>,         // the counters, by endpoint
    pending: multiset<nat>)   // endpoints selected and not yet counted

  datatype Action =
    | Select(i: nat)
    | Count(i: nat)

  function Fresh(n: nat): State {
    State(seq(n, _ => 0), multiset{})
  }

  predicate IsMinimal(counts: seq<nat>, i: nat) {
    i < |counts| && forall j :: 0 <= j < |counts| ==> counts[i] <= counts[j]
  }

  predicate Enabled(s: State, a: Action, slots: nat) {
    match a
    case Select(i) => IsMinimal(s.counts, i) && |s.pending| < slots
    case Count(i) => i in s.pending && i < |s.counts|
  }

  function Apply(s: State, a: Action): State
    requires a.Count? ==> a.i < |s.counts|
  {
    match a
    case Select(i) => s.(pending := s.pending + multiset{i})
    case Count(i) => State(s.counts[i := s.counts[i] + 1], s.pending - multiset{i})
  }

  predicate ValidRun(s: State, acts: seq<Action>, slots: nat)
    decreases acts
  {
    if acts == [] then true
    else Enabled(s, acts[0], slots) && ValidRun(Apply(s, acts[0]), acts[1..], slots)
  }

  function Exec(s: State, acts: seq<Action>, slots: nat): State
    requires ValidRun(s, acts, slots)
    decreases acts
  {
    if acts == [] then s else Exec(Apply(s, acts[0]), acts[1..], slots)
  }

  /** Counted and pending requests together stay within `slots` of every other count. */
  ghost predicate Bounded(s: State, slots: nat) {
    && |s.pending| <= slots
    && (forall i, j :: 0 <= i < |s.counts| && 0 <= j < |s.counts| ==>
          s.counts[i] + s.pending[i] <= s.counts[j] + slots)
  }

  lemma {:induction false} RunKeepsBound(s: State, acts: seq<Action>, slots: nat)
    requires Bounded(s, slots) && ValidRun(s, acts, slots)
    ensures Bounded(Exec(s, acts, slots), slots)
    ensures |Exec(s, acts, slots).counts| == |s.counts|
    decreases acts
  {
    if acts != [] {
      RunKeepsBound(Apply(s, acts[0]), acts[1..], slots);
    }
  }

  /** Any run of starts without completions on fresh counters keeps every count within the
      number of slots of every other; within one when selections are serial. */
  lemma DriftIsBounded(n: nat, acts: seq<Action>, slots: nat, i: nat, j: nat)
    requires ValidRun(Fresh(n), acts, slots) && i < n && j < n
    ensures var s := Exec(Fresh(n), acts, slots);
            && |s.counts| == n
            && s.counts[i] <= s.counts[j] + slots
            && s.counts[i] + s.pending[i] <= s.counts[j] + slots
  {
    RunKeepsBound(Fresh(n), acts, slots);
  }

  // ---- the bound is attained -----------------------------------------------------------

  lemma {:induction false} RunConcat(s: State, a: seq<Action>, b: seq<Action>, slots: nat)
    requires ValidRun(s, a, slots) && ValidRun(Exec(s, a, slots), b, slots)
    ensures ValidRun(s, a + b, slots) && Exec(s, a + b, slots) == Exec(Exec(s, a, slots), b, slots)
    decreases a
  {
    if a == [] {
      assert a + b == b;
    } else {
      assert (a + b)[1..] == a[1..] + b;
      RunConcat(Apply(s, a[0]), a[1..], b, slots);
    }
  }

  function Repeat(a: Action, k: nat): seq<Action> {
    seq(k, _ => a)
  }

  lemma RepeatSplit(a: Action, k: nat)
    requires k > 0
    ensures Repeat(a, k) != [] && Repeat(a, k)[0] == a && Repeat(a, k)[1..] == Repeat(a, k - 1)
  {
  }

  lemma {:induction false} SelectAll(s: State, k: nat, slots: nat)
    requires IsMinimal(s.counts, 0) && |s.pending| + k <= slots
    ensures ValidRun(s, Repeat(Select(0), k), slots)
    ensures Exec(s, Repeat(Select(0), k), slots) == s.(pending := s.pending[0 := s.pending[0] + k])
    decreases k
  {
    if k == 0 {
      assert s.pending[0 := s.pending[0] + k] == s.pending;
    } else {
      RepeatSplit(Select(0), k);
      var s1 := Apply(s, Select(0));
      SelectAll(s1, k - 1, slots);
      assert s1.pending[0 := s1.pending[0] + (k - 1)] == s.pending[0 := s.pending[0] + k];
    }
  }

  lemma {:induction false} CountAll(s: State, k: nat, slots: nat)
    requires s.pending[0] == k && 0 < |s.counts|
    ensures ValidRun(s, Repeat(Count(0), k), slots)
    ensures Exec(s, Repeat(Count(0), k), slots).counts == s.counts[0 := s.counts[0] + k]
    decreases k
  {
    if k > 0 {
      RepeatSplit(Count(0), k);
      var s1 := Apply(s, Count(0));
      assert s1.pending[0] == k - 1 && s1.counts == s.counts[0 := s.counts[0] + 1];
      CountAll(s1, k - 1, slots);
      assert s1.counts[0 := s1.counts[0] + (k - 1)] == s.counts[0 := s.counts[0] + k];
    }
  }

  /** With two endpoints or more, some run drives two counts exactly `slots` apart. */
  lemma DriftIsAttained(n: nat, slots: nat)
    requires n >= 2
    ensures exists acts :: && ValidRun(Fresh(n), acts, slots)
                           && var s := Exec(Fresh(n), acts, slots);
                              |s.counts| == n && s.counts[0] == s.counts[1] + slots
  {
    var a, b := Repeat(Select(0), slots), Repeat(Count(0), slots);
    SelectAll(Fresh(n), slots, slots);
    var s := Exec(Fresh(n), a, slots);
    CountAll(s, slots, slots);
    RunConcat(Fresh(n), a, b, slots);
    assert ValidRun(Fresh(n), a + b, slots);
  }

  // ---- the steps of a cluster rule ----------------------------------------------------------

  /** The counters of the rule, by endpoint. */
  ghost predicate HasCounts(rule: Balancer.ClusterRule, counts: seq<nat>)
    requires Balancer.Bijective(rule.counters, rule.endpoints)
    reads rule.Cells()
  {
    && |counts| == |rule.endpoints|
    && forall i :: 0 <= i < |counts| ==> rule.counters[Balancer.KeyFor(rule.endpoints, i)].value == counts[i]
  }

  /** `get_endpoint` under least connections is an enabled selection, and changes no count. */
  method SelectStep(rule: Balancer.ClusterRule, ghost s: State, ghost slots: nat)
    returns (sel: Option<Balancer.Selected>, ghost i: nat)
    requires rule.Valid() && rule.lbPolicy == Wire.LeastConn && rule.endpoints != []
    requires HasCounts(rule, s.counts) && |s.pending| < slots
    modifies rule`cursor
    ensures rule.Valid() && HasCounts(rule, s.counts)
    ensures rule.Picks(sel, i) && Enabled(s, Select(i), slots)
  {
    sel := rule.Choose();
    i :| rule.Picks(sel, i) && forall j :: 0 <= j < |rule.endpoints| ==>
           rule.counters[Balancer.KeyFor(rule.endpoints, i)].value <= rule.counters[Balancer.KeyFor(rule.endpoints, j)].value;
  }

  /** The guard of a selected endpoint counts it, and no other. */
  method CountStep(rule: Balancer.ClusterRule, sel: Option<Balancer.Selected>, ghost s: State, ghost i: nat)
    returns (g: InFlight.Guard)
    requires rule.Valid() && HasCounts(rule, s.counts) && rule.Picks(sel, i) && i in s.pending
    modifies rule.Cells()
    ensures rule.Valid() && g.counter == sel.value.counter
    ensures s.counts[i] + 1 < Balancer.WORD ==> HasCounts(rule, Apply(s, Count(i)).counts)
  {
    ghost var key := Balancer.KeyFor(rule.endpoints, i);
    assert rule.counters[key] in rule.Cells();
    g := new InFlight.Guard(sel.value.counter);
    assert rule.counters[key].value == (s.counts[i] + 1) % Balancer.WORD;
    assert forall k :: k in rule.counters && k != key ==> rule.counters[k].value == old(rule.counters[k].value);
    assert forall j :: 0 <= j < |rule.endpoints| && j != i ==> Balancer.KeyFor(rule.endpoints, j) != key;
  }

  lemma OneStartKeeps(s: State, i: nat, n: nat)
    requires s.pending == multiset{} && Bounded(s, 1) && forall c :: c in s.counts ==> c <= n
    requires Enabled(s, Select(i), 1)
    ensures var s' := Apply(Apply(s, Select(i)), Count(i));
            s'.pending == multiset{} && Bounded(s', 1) && forall c :: c in s'.counts ==> c <= n + 1
    ensures s.counts[i] <= n
  {
    assert s.counts[i] in s.counts;
  }

  /** One start on its own: the counts stay within one of each other. */
  method StartOne(rule: Balancer.ClusterRule, ghost s: State, ghost n: nat)
    returns (g: InFlight.Guard, ghost s': State)
    requires rule.Valid() && rule.lbPolicy == Wire.LeastConn && rule.endpoints != []
    requires HasCounts(rule, s.counts) && n + 1 < Balancer.WORD
    requires s.pending == multiset{} && Bounded(s, 1) && forall c :: c in s.counts ==> c <= n
    modifies rule`cursor, rule.Cells()
    ensures rule.Valid() && HasCounts(rule, s'.counts)
    ensures s'.pending == multiset{} && Bounded(s', 1) && forall c :: c in s'.counts ==> c <= n + 1
  {
    var sel;
    ghost var i;
    sel, i := SelectStep(rule, s, 1);
    OneStartKeeps(s, i, n);
    g := CountStep(rule, sel, Apply(s, Select(i)), i);
    s' := Apply(Apply(s, Select(i)), Count(i));
  }

  /** Serial starts on fresh counters: after any number of them no two counts are more than one
      apart. */
  method StartMany(rule: Balancer.ClusterRule, k: nat) returns (ghost s: State)
    requires rule.Valid() && rule.lbPolicy == Wire.LeastConn && rule.endpoints != [] && k < Balancer.WORD
    requires HasCounts(rule, Fresh(|rule.endpoints|).counts)
    modifies rule`cursor, rule.Cells()
    ensures rule.Valid() && HasCounts(rule, s.counts)
    ensures forall i, j :: 0 <= i < |s.counts| && 0 <= j < |s.counts| ==> s.counts[i] <= s.counts[j] + 1
  {
    s := Fresh(|rule.endpoints|);
    for n := 0 to k
      invariant rule.Valid() && HasCounts(rule, s.counts)
      invariant s.pending == multiset{} && Bounded(s, 1) && forall c :: c in s.counts ==> c <= n
    {
      var g;
      g, s := StartOne(rule, s, n);
    }
  }
}
