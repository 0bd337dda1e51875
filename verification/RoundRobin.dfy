/** Fairness of round robin: windows of tickets of a wrapping cursor, the calls of one rule that
    draw them, and every interleaving of threads that draw first and pick later. */
module RoundRobin {
  import opened Text
  import Balancer
  import Wire

  /** How often endpoint `e` of `len` is hit by the `k` tickets from `start`, on a cursor that
      wraps at `word`. */
  function Hits(start: nat, k: nat, len: nat, word: nat, e: nat): nat
    requires 0 < len && 0 < word
  {
    if k == 0 then 0
    else Hits(start, k - 1, len, word, e) + if ((start + k - 1) % word) % len == e then 1 else 0
  }

  /** The same without wrapping. */
  function PlainHits(start: nat, k: nat, len: nat, e: nat): nat
    requires 0 < len
  {
    if k == 0 then 0
    else PlainHits(start, k - 1, len, e) + if (start + k - 1) % len == e then 1 else 0
  }

  lemma {:induction false} PlainHitsSplit(start: nat, k: nat, k': nat, len: nat, e: nat)
    requires 0 < len
    ensures PlainHits(start, k + k', len, e) == PlainHits(start, k, len, e) + PlainHits(start + k, k', len, e)
  {
    if k' > 0 {
      PlainHitsSplit(start, k, k' - 1, len, e);
    }
  }

  /** A residue occurs at most once in a window no longer than the modulus: at its offset. */
  lemma {:induction false} ShortWindow(start: nat, k: nat, len: nat, e: nat)
    requires 0 < len && k <= len && e < len
    ensures PlainHits(start, k, len, e) == if (e - start) % len < k then 1 else 0
  {
    if k > 0 {
      ShortWindow(start, k - 1, len, e);
      OffsetResidue(start, k - 1, len, e);
    }
  }

  /** `x` and `y` that differ by a multiple of the modulus. */
  lemma SameResidue(x: int, y: int, q: int, len: nat)
    requires 0 <= x < len && y == x + q * len
    ensures y % len == x
  {
    ModShift(x, q, len);
  }

  /** `start + d` has residue `e` exactly when `d` is the offset of `e`. */
  lemma OffsetResidue(start: nat, d: nat, len: nat, e: nat)
    requires 0 < len && d < len && e < len
    ensures (start + d) % len == e <==> d == (e - start) % len
  {
    var q, r := (start + d) / len, (e - start) / len;
    assert -q * len == -(q * len) && -r * len == -(r * len);
    if (start + d) % len == e { SameResidue(d, e - start, -q, len); }
    if d == (e - start) % len { SameResidue(e, start + d, -r, len); }
  }

  lemma ModShift(x: int, q: int, len: nat)
    requires 0 <= x < len
    ensures (x + q * len) % len == x
  {
    var y := x + q * len;
    assert y == (y / len) * len + y % len;
    MulUnique(q, y / len, x, y % len, len);
  }

  lemma MulUnique(q: int, q': int, x: int, x': int, len: nat)
    requires q * len + x == q' * len + x' && 0 <= x < len && 0 <= x' < len
    ensures q == q' && x == x'
  {
    var d := q - q';
    assert d * len == x' - x;
    assert d >= 1 ==> d * len >= len;
    assert d <= -1 ==> -d * len >= len;
  }

  lemma SmallMod(x: nat, m: nat)
    requires x < m
    ensures x % m == x
  {
  }

  /** One number of rounds fits all endpoints: each is hit that often or once more. */
  lemma {:induction false} WindowRounds(start: nat, k: nat, len: nat) returns (rounds: nat)
    requires 0 < len
    ensures forall e :: 0 <= e < len ==> rounds <= PlainHits(start, k, len, e) <= rounds + 1
    decreases k
  {
    if k < len {
      rounds := 0;
      forall e | 0 <= e < len ensures PlainHits(start, k, len, e) <= 1 {
        ShortWindow(start, k, len, e);
      }
    } else {
      var r := WindowRounds(start + len, k - len, len);
      rounds := r + 1;
      forall e | 0 <= e < len ensures rounds <= PlainHits(start, k, len, e) <= rounds + 1 {
        PlainHitsSplit(start, len, k - len, len, e);
        FullRound(start, len, e);
      }
    }
  }

  lemma FullRound(start: nat, len: nat, e: nat)
    requires 0 < len && e < len
    ensures PlainHits(start, len, len, e) == 1
  {
    ShortWindow(start, len, len, e);
  }

  // ---- the wrapping cursor ---------------------------------------------------------

  lemma {:induction false} HitsSplit(start: nat, k: nat, k': nat, len: nat, word: nat, e: nat)
    requires 0 < len && 0 < word
    ensures Hits(start, k + k', len, word, e) ==
            Hits(start, k, len, word, e) + Hits(start + k, k', len, word, e)
  {
    if k' > 0 {
      HitsSplit(start, k, k' - 1, len, word, e);
    }
  }

  lemma {:induction false} HitsBeforeWrap(start: nat, k: nat, len: nat, word: nat, e: nat)
    requires 0 < len && 0 < word && start + k <= word
    ensures Hits(start, k, len, word, e) == PlainHits(start, k, len, e)
  {
    if k > 0 {
      HitsBeforeWrap(start, k - 1, len, word, e);
      SmallMod(start + k - 1, word);
    }
  }

  lemma {:induction false} HitsAfterWrap(start: nat, k: nat, len: nat, word: nat, e: nat)
    requires 0 < len && 0 < word && word <= start && start + k <= 2 * word
    ensures Hits(start, k, len, word, e) == PlainHits(start - word, k, len, e)
  {
    if k > 0 {
      HitsAfterWrap(start, k - 1, len, word, e);
      ModShift(start - word + k - 1, 1, word);
    }
  }

  /** When the word is a whole number of rounds the wrap leaves no trace. */
  lemma {:induction false} HitsOnWholeRounds(start: nat, k: nat, len: nat, rounds: nat, e: nat)
    requires 0 < len && 0 < rounds
    ensures Hits(start, k, len, rounds * len, e) == PlainHits(start, k, len, e)
  {
    if k > 0 {
      HitsOnWholeRounds(start, k - 1, len, rounds, e);
      ModOfMod(start + k - 1, len, rounds);
    }
  }

  lemma ModOfMod(x: nat, len: nat, rounds: nat)
    requires 0 < len && 0 < rounds
    ensures 0 < rounds * len && (x % (rounds * len)) % len == x % len
  {
    var word := rounds * len;
    var y, q := x % word, x / word;
    assert x == q * word + y;
    var r := y / len;
    assert y == r * len + y % len;
    assert q * word == (q * rounds) * len;
    assert x == y % len + (q * rounds + r) * len;
    ModShift(y % len, q * rounds + r, len);
  }

  // ---- fairness ------------------------------------------------------------------------

  /** No endpoint is hit more than `d` times more often than another. */
  ghost predicate Spread(start: nat, k: nat, len: nat, word: nat, d: nat)
    requires 0 < len && 0 < word
  {
    forall e, e' :: 0 <= e < len && 0 <= e' < len ==>
      Hits(start, k, len, word, e) <= Hits(start, k, len, word, e') + d
  }

  /** Within one pass of the cursor the counts differ by at most one. */
  lemma FairWithoutWrap(start: nat, k: nat, len: nat, word: nat)
    requires 0 < len && 0 < word && start + k <= word
    ensures Spread(start, k, len, word, 1)
  {
    var rounds := WindowRounds(start, k, len);
    forall e | 0 <= e < len ensures rounds <= Hits(start, k, len, word, e) <= rounds + 1 {
      HitsBeforeWrap(start, k, len, word, e);
    }
  }

  /** When the number of endpoints divides the word, over any number of wraps too. */
  lemma FairOnWholeRounds(start: nat, k: nat, len: nat, word: nat)
    requires 0 < len && 0 < word && word % len == 0
    ensures Spread(start, k, len, word, 1)
  {
    assert word == (word / len) * len;
    var rounds := WindowRounds(start, k, len);
    forall e | 0 <= e < len ensures rounds <= Hits(start, k, len, word, e) <= rounds + 1 {
      HitsOnWholeRounds(start, k, len, word / len, e);
    }
  }

  /** Across one wrap they differ by at most two. */
  lemma FairAcrossOneWrap(start: nat, k: nat, len: nat, word: nat)
    requires 0 < len && 0 < word && start <= word <= start + k <= 2 * word
    ensures Spread(start, k, len, word, 2)
  {
    var before, after := word - start, start + k - word;
    var r := WindowRounds(start, before, len);
    var r' := WindowRounds(0, after, len);
    forall e | 0 <= e < len ensures r + r' <= Hits(start, k, len, word, e) <= r + r' + 2 {
      assert k == before + after;
      HitsSplit(start, before, after, len, word, e);
      HitsBeforeWrap(start, before, len, word, e);
      HitsAfterWrap(word, after, len, word, e);
    }
  }

  lemma LastTicket(len: nat, word: nat)
    requires 0 < len && 0 < word && word % len != 0
    ensures (word - 1) % len == word % len - 1 && word % len <= word
  {
    var q, r := word / len, word % len;
    assert word == q * len + r;
    assert q * len >= 0;
    ModShift(r - 1, q, len);
  }

  /** The last ticket before the wrap and the first `r` after it. */
  lemma HitsAtWrap(len: nat, word: nat, r: nat, e: nat)
    requires 0 < len && 0 < word && 0 < r < len && r <= word && e < len
    requires (word - 1) % len == r - 1
    ensures Hits(word - 1, r + 1, len, word, e) == (if e == r - 1 then 1 else 0) + if e < r then 1 else 0
  {
    assert 1 + r == r + 1;
    HitsSplit(word - 1, 1, r, len, word, e);
    HitsBeforeWrap(word - 1, 1, len, word, e);
    assert PlainHits(word - 1, 0, len, e) == 0;
    HitsAfterWrap(word, r, len, word, e);
    ShortWindow(0, r, len, e);
    SmallMod(e, len);
  }

  /** A partial last round is cut short by the wrap: one endpoint is hit twice while another
      is not hit at all. */
  lemma PartialRoundIsUnfair(len: nat, word: nat)
    requires 0 < len && 0 < word && word % len != 0
    ensures !Spread(word - 1, word % len + 1, len, word, 1)
  {
    var r := word % len;
    LastTicket(len, word);
    HitsAtWrap(len, word, r, r - 1);
    HitsAtWrap(len, word, r, r);
  }

  ghost predicate AlwaysFair(len: nat, word: nat)
    requires 0 < len && 0 < word
  {
    forall start: nat, k: nat :: Spread(start, k, len, word, 1)
  }

  /** Every window of tickets is fair to within one exactly when the number of endpoints
      divides the word at which the cursor wraps. */
  lemma AlwaysFairIff(len: nat)
    requires 0 < len
    ensures AlwaysFair(len, Balancer.WORD) <==> 0x1_0000_0000_0000_0000 % len == 0
  {
    if Balancer.WORD % len == 0 {
      forall start: nat, k: nat ensures Spread(start, k, len, Balancer.WORD, 1) {
        FairOnWholeRounds(start, k, len, Balancer.WORD);
      }
    } else {
      PartialRoundIsUnfair(len, Balancer.WORD);
    }
  }

  // ---- the calls of one rule ---------------------------------------------------------------

  /** How many of the selections are endpoint `e` with its own counter. */
  ghost function PickCount(rule: Balancer.ClusterRule, sels: seq<Option<Balancer.Selected>>, e: nat): nat
    requires Balancer.Bijective(rule.counters, rule.endpoints)
  {
    if sels == [] then 0
    else PickCount(rule, sels[..|sels| - 1], e) + if rule.Picks(sels[|sels| - 1], e) then 1 else 0
  }

  lemma PickIsUnique(rule: Balancer.ClusterRule, sel: Option<Balancer.Selected>, i: nat, e: nat)
    requires Balancer.Bijective(rule.counters, rule.endpoints) && rule.Picks(sel, i)
    ensures rule.Picks(sel, e) <==> e == i
  {
    if rule.Picks(sel, e) {
      assert Balancer.KeyFor(rule.endpoints, i) == Balancer.KeyFor(rule.endpoints, e);
    }
  }

  lemma CursorStep(start: nat, i: nat, word: nat)
    requires 0 < word
    ensures ((start + i) % word + 1) % word == (start + i + 1) % word
  {
    var q, y := (start + i) / word, (start + i) % word;
    assert start + i == q * word + y;
    if y + 1 < word {
      ModShift(y + 1, q, word);
      SmallMod(y + 1, word);
    } else {
      assert start + i + 1 == 0 + (q + 1) * word;
      ModShift(0, q + 1, word);
      ModShift(0, 1, word);
    }
  }

  /** No endpoint is selected more than `d` times more often than another. */
  ghost predicate PicksSpread(rule: Balancer.ClusterRule, sels: seq<Option<Balancer.Selected>>, d: nat)
    requires Balancer.Bijective(rule.counters, rule.endpoints)
  {
    forall e, e' :: 0 <= e < |rule.endpoints| && 0 <= e' < |rule.endpoints| ==>
      PickCount(rule, sels, e) <= PickCount(rule, sels, e') + d
  }

  lemma HitsSpread(start: nat, k: nat, len: nat, word: nat)
    requires 0 < len && start < word
    ensures start + k <= word || word % len == 0 ==> Spread(start, k, len, word, 1)
    ensures start + k <= 2 * word ==> Spread(start, k, len, word, 2)
  {
    if start + k <= word {
      FairWithoutWrap(start, k, len, word);
    } else if start + k <= 2 * word {
      FairAcrossOneWrap(start, k, len, word);
    }
    if word % len == 0 {
      FairOnWholeRounds(start, k, len, word);
    }
  }

  /** One call of `get_endpoint` draws one ticket. */
  method CallOne(rule: Balancer.ClusterRule) returns (sel: Option<Balancer.Selected>)
    requires rule.Valid() && rule.lbPolicy == Wire.RoundRobin && rule.endpoints != []
    modifies rule`cursor
    ensures rule.Valid() && rule.cursor == (old(rule.cursor) + 1) % Balancer.WORD
    ensures rule.Picks(sel, old(rule.cursor) % |rule.endpoints|)
  {
    sel := rule.Choose();
  }

  /** After `k` calls of `get_endpoint` every endpoint has been picked as often as the `k` tickets
      hit it: fair to within one without a wrap or on whole rounds, and to within two across one
      wrap. */
  method CallMany(rule: Balancer.ClusterRule, k: nat) returns (sels: seq<Option<Balancer.Selected>>)
    requires rule.Valid() && rule.lbPolicy == Wire.RoundRobin && rule.endpoints != []
    modifies rule`cursor
    ensures rule.Valid() && rule.cursor == (old(rule.cursor) + k) % Balancer.WORD && |sels| == k
    ensures forall e :: 0 <= e < |rule.endpoints| ==>
              PickCount(rule, sels, e) == Hits(old(rule.cursor), k, |rule.endpoints|, Balancer.WORD, e)
    ensures old(rule.cursor) + k <= Balancer.WORD || Balancer.WORD % |rule.endpoints| == 0 ==> PicksSpread(rule, sels, 1)
    ensures old(rule.cursor) + k <= 2 * Balancer.WORD ==> PicksSpread(rule, sels, 2)
  {
    ghost var start := rule.cursor;
    SmallMod(start, Balancer.WORD);
    sels := [];
    for i := 0 to k
      invariant rule.Valid() && rule.cursor == (start + i) % Balancer.WORD && |sels| == i
      invariant forall e :: 0 <= e < |rule.endpoints| ==>
                  PickCount(rule, sels, e) == Hits(start, i, |rule.endpoints|, Balancer.WORD, e)
    {
      CursorStep(start, i, Balancer.WORD);
      ghost var pick := rule.cursor % |rule.endpoints|;
      var sel := CallOne(rule);
      ghost var before := sels;
      sels := sels + [sel];
      assert sels[..i] == before;
      forall e | 0 <= e < |rule.endpoints|
        ensures PickCount(rule, sels, e) == Hits(start, i + 1, |rule.endpoints|, Balancer.WORD, e)
      {
        PickIsUnique(rule, sel, pick, e);
      }
    }
    HitsSpread(start, k, |rule.endpoints|, Balancer.WORD);
  }

  // ---- threads -----------------------------------------------------------------------------

  /** Threads share the cursor. `fetch_add` hands one a ticket; it picks its endpoint later. */
  datatype Pool = Pool(cursor: nat, drawn: map<nat, nat>, picked: seq<nat>)

  datatype Action = Draw(thread: nat) | Pick(thread: nat)

  predicate Enabled(s: Pool, a: Action) {
    a.Draw? <==> a.thread !in s.drawn
  }

  function Apply(s: Pool, a: Action, len: nat, word: nat): Pool
    requires 0 < len && 0 < word && Enabled(s, a)
  {
    match a
    case Draw(t) => s.(cursor := (s.cursor + 1) % word, drawn := s.drawn[t := s.cursor])
    case Pick(t) => s.(drawn := s.drawn - {t}, picked := s.picked + [s.drawn[t] % len])
  }

  predicate ValidRun(s: Pool, acts: seq<Action>, len: nat, word: nat)
    requires 0 < len && 0 < word
    decreases acts
  {
    acts != [] ==> Enabled(s, acts[0]) && ValidRun(Apply(s, acts[0], len, word), acts[1..], len, word)
  }

  function Exec(s: Pool, acts: seq<Action>, len: nat, word: nat): Pool
    requires 0 < len && 0 < word && ValidRun(s, acts, len, word)
    decreases acts
  {
    if acts == [] then s else Exec(Apply(s, acts[0], len, word), acts[1..], len, word)
  }

  function Draws(acts: seq<Action>): nat {
    if acts == [] then 0 else (if acts[0].Draw? then 1 else 0) + Draws(acts[1..])
  }

  ghost function Waiting(drawn: map<nat, nat>, len: nat, e: nat): set<nat>
    requires 0 < len
  {
    set t | t in drawn && drawn[t] % len == e
  }

  /** Endpoint `e` has been picked, or is about to be. */
  ghost function Due(s: Pool, len: nat, e: nat): nat
    requires 0 < len
  {
    multiset(s.picked)[e] + |Waiting(s.drawn, len, e)|
  }

  /** The `n` tickets drawn so far, from `start` on, are all accounted for. */
  ghost predicate Accounted(s: Pool, start: nat, n: nat, len: nat, word: nat)
    requires 0 < len && 0 < word
  {
    s.cursor == (start + n) % word && forall e: nat :: Due(s, len, e) == Hits(start, n, len, word, e)
  }

  lemma DrawDue(s: Pool, t: nat, len: nat, word: nat, e: nat)
    requires 0 < len && 0 < word && t !in s.drawn
    ensures Due(Apply(s, Draw(t), len, word), len, e) == Due(s, len, e) + if s.cursor % len == e then 1 else 0
  {
    var before, after := Waiting(s.drawn, len, e), Waiting(Apply(s, Draw(t), len, word).drawn, len, e);
    assert after == if s.cursor % len == e then before + {t} else before;
    assert t !in before;
  }

  lemma PickDue(s: Pool, t: nat, len: nat, word: nat, e: nat)
    requires 0 < len && 0 < word && t in s.drawn
    ensures Due(Apply(s, Pick(t), len, word), len, e) == Due(s, len, e)
  {
    var before, after := Waiting(s.drawn, len, e), Waiting(Apply(s, Pick(t), len, word).drawn, len, e);
    assert after == before - {t};
    assert t in before <==> s.drawn[t] % len == e;
  }

  lemma StepAccounts(s: Pool, a: Action, start: nat, n: nat, len: nat, word: nat)
    requires 0 < len && 0 < word && Enabled(s, a) && Accounted(s, start, n, len, word)
    ensures Accounted(Apply(s, a, len, word), start, n + if a.Draw? then 1 else 0, len, word)
  {
    CursorStep(start, n, word);
    var s' := Apply(s, a, len, word);
    var n' := n + if a.Draw? then 1 else 0;
    forall e: nat ensures Due(s', len, e) == Hits(start, n', len, word, e) {
      match a
      case Draw(t) => DrawDue(s, t, len, word, e);
      case Pick(t) => PickDue(s, t, len, word, e);
    }
  }

  lemma {:induction false} RunAccounts(s: Pool, acts: seq<Action>, start: nat, n: nat, len: nat, word: nat)
    requires 0 < len && 0 < word && ValidRun(s, acts, len, word) && Accounted(s, start, n, len, word)
    ensures Accounted(Exec(s, acts, len, word), start, n + Draws(acts), len, word)
    decreases acts
  {
    if acts != [] {
      StepAccounts(s, acts[0], start, n, len, word);
      RunAccounts(Apply(s, acts[0], len, word), acts[1..], start, n + if acts[0].Draw? then 1 else 0, len, word);
    }
  }

  /** In every interleaving, once all threads have picked, each endpoint was picked as often as
      the drawn window of tickets hits it. */
  lemma InterleavingsPickTickets(start: nat, acts: seq<Action>, len: nat, word: nat, e: nat)
    requires 0 < len && start < word && ValidRun(Pool(start, map[], []), acts, len, word)
    requires Exec(Pool(start, map[], []), acts, len, word).drawn == map[]
    ensures multiset(Exec(Pool(start, map[], []), acts, len, word).picked)[e] == Hits(start, Draws(acts), len, word, e)
  {
    var s := Pool(start, map[], []);
    SmallMod(start, word);
    forall e: nat ensures Due(s, len, e) == Hits(start, 0, len, word, e) {
      assert Waiting(s.drawn, len, e) == {};
    }
    RunAccounts(s, acts, start, 0, len, word);
    var s' := Exec(s, acts, len, word);
    assert Due(s', len, e) == Hits(start, Draws(acts), len, word, e);
    assert Waiting(s'.drawn, len, e) == {};
  }

  /** What windows of tickets are, interleaved calls are. */
  lemma InterleavingsSpread(start: nat, acts: seq<Action>, len: nat, word: nat, d: nat, e: nat, e': nat)
    requires 0 < len && start < word && ValidRun(Pool(start, map[], []), acts, len, word)
    requires Exec(Pool(start, map[], []), acts, len, word).drawn == map[]
    requires Spread(start, Draws(acts), len, word, d) && e < len && e' < len
    ensures var picked := multiset(Exec(Pool(start, map[], []), acts, len, word).picked); picked[e] <= picked[e'] + d
  {
    InterleavingsPickTickets(start, acts, len, word, e);
    InterleavingsPickTickets(start, acts, len, word, e');
  }

  /** One thread alone draws any window. */
  lemma {:induction false} OneThread(s: Pool, k: nat, len: nat, word: nat) returns (acts: seq<Action>)
    requires 0 < len && 0 < word && s.drawn == map[]
    ensures ValidRun(s, acts, len, word) && Exec(s, acts, len, word).drawn == map[] && Draws(acts) == k
    decreases k
  {
    if k == 0 {
      acts := [];
    } else {
      var s1 := Apply(s, Draw(0), len, word);
      var s2 := Apply(s1, Pick(0), len, word);
      assert s2.drawn == map[];
      var rest := OneThread(s2, k - 1, len, word);
      var tail := [Pick(0)] + rest;
      assert tail[1..] == rest;
      assert ValidRun(s1, tail, len, word) && Draws(tail) == k - 1;
      acts := [Draw(0)] + tail;
      assert acts[1..] == tail;
    }
  }

  /** No run from `start` in which all threads have picked favours an endpoint by more than one. */
  ghost predicate RunsAreFair(start: nat, len: nat, word: nat)
    requires 0 < len && 0 < word
  {
    forall acts, e: nat, e': nat ::
      ValidRun(Pool(start, map[], []), acts, len, word)
      && Exec(Pool(start, map[], []), acts, len, word).drawn == map[] && e < len && e' < len ==>
        multiset(Exec(Pool(start, map[], []), acts, len, word).picked)[e]
        <= multiset(Exec(Pool(start, map[], []), acts, len, word).picked)[e'] + 1
  }

  lemma WholeRoundsRunFair(start: nat, len: nat, word: nat)
    requires 0 < len && start < word && word % len == 0
    ensures RunsAreFair(start, len, word)
  {
    var s := Pool(start, map[], []);
    forall acts, e: nat, e': nat |
      ValidRun(s, acts, len, word) && Exec(s, acts, len, word).drawn == map[] && e < len && e' < len
      ensures multiset(Exec(s, acts, len, word).picked)[e] <= multiset(Exec(s, acts, len, word).picked)[e'] + 1
    {
      FairOnWholeRounds(start, Draws(acts), len, word);
      InterleavingsSpread(start, acts, len, word, 1, e, e');
    }
  }

  lemma PartialRoundRunsUnfair(len: nat, word: nat)
    requires 0 < len && 0 < word && word % len != 0
    ensures !RunsAreFair(word - 1, len, word)
  {
    PartialRoundIsUnfair(len, word);
    var start, k := word - 1, word % len + 1;
    var e: nat, e': nat :| e < len && e' < len && Hits(start, k, len, word, e) > Hits(start, k, len, word, e') + 1;
    var s := Pool(start, map[], []);
    var acts := OneThread(s, k, len, word);
    InterleavingsPickTickets(start, acts, len, word, e);
    InterleavingsPickTickets(start, acts, len, word, e');
  }

  /** Every interleaving of any number of calls, from every cursor, is fair to within one exactly
      when the number of endpoints divides 2^64. */
  lemma ThreadsFairIff(len: nat)
    requires 0 < len
    ensures (forall start: nat :: start < Balancer.WORD ==> RunsAreFair(start, len, Balancer.WORD)) <==>
            0x1_0000_0000_0000_0000 % len == 0
  {
    if Balancer.WORD % len == 0 {
      forall start: nat | start < Balancer.WORD ensures RunsAreFair(start, len, Balancer.WORD) {
        WholeRoundsRunFair(start, len, Balancer.WORD);
      }
    } else {
      PartialRoundRunsUnfair(len, Balancer.WORD);
    }
  }
}
