/** The two library sorts the program relies on. Go's `sort.Slice` promises some
    sorted permutation; Rust's `sort_by` promises the stable one. */
module Sorting {
  import opened Text

  ghost predicate StrictWeakOrder<T(!new)>(lt: (T, T) -> bool) {
    && (forall a :: !lt(a, a))
    && (forall a, b, c :: lt(a, b) && lt(b, c) ==> lt(a, c))
    && (forall a, b, c :: !lt(a, b) && !lt(b, c) ==> !lt(a, c))
  }

  ghost predicate Sorted<T>(s: seq<T>, lt: (T, T) -> bool) {
    forall i, j :: 0 <= i < j < |s| ==> !lt(s[j], s[i])
  }

  /** What `sort.Slice(s, lt)` promises of its result. */
  ghost predicate IsSortOf<T>(out: seq<T>, s: seq<T>, lt: (T, T) -> bool) {
    multiset(out) == multiset(s) && Sorted(out, lt)
  }

  /** `x` goes behind everything it does not strictly precede. */
  function InsertLast<T>(x: T, s: seq<T>, lt: (T, T) -> bool): seq<T> {
    if s == [] || lt(x, s[0]) then [x] + s
    else [s[0]] + InsertLast(x, s[1..], lt)
  }

  /** Insertion sort, the reference for stable sorting. */
  function StableSort<T>(s: seq<T>, lt: (T, T) -> bool): seq<T> {
    if s == [] then []
    else InsertLast(s[|s| - 1], StableSort(s[..|s| - 1], lt), lt)
  }

  lemma {:induction false} InsertLastBag<T>(x: T, s: seq<T>, lt: (T, T) -> bool)
    ensures multiset(InsertLast(x, s, lt)) == multiset(s) + multiset{x}
  {
    if s != [] && !lt(x, s[0]) {
      var tail := InsertLast(x, s[1..], lt);
      InsertLastBag(x, s[1..], lt);
      assert multiset([s[0]] + tail) == multiset{s[0]} + multiset(tail);
      assert multiset(s) == multiset{s[0]} + multiset(s[1..]) by { assert s == [s[0]] + s[1..]; }
    } else {
      assert multiset([x] + s) == multiset{x} + multiset(s);
    }
  }

  /** A list stays sorted under a head that nothing precedes. */
  lemma SortedCons<T>(x: T, s: seq<T>, lt: (T, T) -> bool)
    requires Sorted(s, lt) && forall y :: y in s ==> !lt(y, x)
    ensures Sorted([x] + s, lt)
  {
    var r := [x] + s;
    forall i, j | 0 <= i < j < |r| ensures !lt(r[j], r[i]) {
      assert r[j] == s[j - 1];
      if i > 0 { assert r[i] == s[i - 1]; }
    }
  }

  lemma InsertLastMembers<T>(x: T, s: seq<T>, lt: (T, T) -> bool, y: T)
    requires y in InsertLast(x, s, lt)
    ensures y == x || y in s
  {
    InsertLastBag(x, s, lt);
    assert y in multiset(InsertLast(x, s, lt));
  }

  lemma SortedTail<T>(s: seq<T>, lt: (T, T) -> bool)
    requires Sorted(s, lt) && s != []
    ensures Sorted(s[1..], lt)
  {
    var t := s[1..];
    forall i, j | 0 <= i < j < |t| ensures !lt(t[j], t[i]) {
      assert t[i] == s[i + 1] && t[j] == s[j + 1];
    }
  }

  lemma {:induction false} InsertLastSorted<T(!new)>(x: T, s: seq<T>, lt: (T, T) -> bool)
    requires StrictWeakOrder(lt) && Sorted(s, lt)
    ensures Sorted(InsertLast(x, s, lt), lt)
  {
    if s == [] || lt(x, s[0]) {
      forall y | y in s ensures !lt(y, x) {
        HeadIsLeast(s, y, lt);
      }
      SortedCons(x, s, lt);
    } else {
      var t := InsertLast(x, s[1..], lt);
      SortedTail(s, lt);
      InsertLastSorted(x, s[1..], lt);
      forall y | y in t ensures !lt(y, s[0]) {
        InsertLastMembers(x, s[1..], lt, y);
        if y != x {
          assert y in s;
          HeadIsLeast(s, y, lt);
        }
      }
      SortedCons(s[0], t, lt);
    }
  }

  lemma {:induction false} StableSortIsSort<T(!new)>(s: seq<T>, lt: (T, T) -> bool)
    requires StrictWeakOrder(lt)
    ensures IsSortOf(StableSort(s, lt), s, lt)
  {
    if s != [] {
      var n := |s| - 1;
      StableSortIsSort(s[..n], lt);
      InsertLastSorted(s[n], StableSort(s[..n], lt), lt);
      InsertLastBag(s[n], StableSort(s[..n], lt), lt);
      assert s == s[..n] + [s[n]];
    }
  }

  /** `iter().find(p)`. */
  function FirstMatch<T>(s: seq<T>, p: T -> bool): (r: Option<T>)
    ensures r.None? <==> forall x :: x in s ==> !p(x)
    ensures r.Some? ==> r.value in s && p(r.value)
  {
    if s == [] then None
    else if p(s[0]) then Some(s[0])
    else FirstMatch(s[1..], p)
  }

  /** A scan that keeps the best match so far and replaces it only by a strictly better one. */
  function BestMatch<T>(s: seq<T>, p: T -> bool, lt: (T, T) -> bool): (r: Option<T>)
    ensures r.None? <==> forall x :: x in s ==> !p(x)
    ensures r.Some? ==> r.value in s && p(r.value)
  {
    if s == [] then None
    else
      var b := BestMatch(s[..|s| - 1], p, lt);
      var x := s[|s| - 1];
      assert s == s[..|s| - 1] + [x];
      if p(x) && (b.None? || lt(x, b.value)) then Some(x) else b
  }

  lemma {:induction false} FirstMatchInsert<T(!new)>(x: T, s: seq<T>, p: T -> bool, lt: (T, T) -> bool)
    requires StrictWeakOrder(lt) && Sorted(s, lt)
    ensures FirstMatch(InsertLast(x, s, lt), p) ==
            var b := FirstMatch(s, p);
            if p(x) && (b.None? || lt(x, b.value)) then Some(x) else b
  {
    if s == [] {
      assert InsertLast(x, s, lt) == [x];
    } else if lt(x, s[0]) {
      var r := [x] + s;
      assert r[1..] == s;
      var b := FirstMatch(s, p);
      if p(x) && b.Some? {
        var i :| 0 <= i < |s| && s[i] == b.value;
        assert i == 0 || !lt(s[i], s[0]);
        assert lt(x, b.value);
      }
    } else {
      var t := InsertLast(x, s[1..], lt);
      var r := [s[0]] + t;
      assert r[1..] == t;
      SortedTail(s, lt);
      FirstMatchInsert(x, s[1..], p, lt);
    }
  }

  /** First match in the stably sorted list is the best match of the unsorted one. */
  lemma {:induction false} SortedLookupIsBestMatch<T(!new)>(s: seq<T>, p: T -> bool, lt: (T, T) -> bool)
    requires StrictWeakOrder(lt)
    ensures FirstMatch(StableSort(s, lt), p) == BestMatch(s, p, lt)
  {
    if s != [] {
      var n := |s| - 1;
      SortedLookupIsBestMatch(s[..n], p, lt);
      StableSortIsSort(s[..n], lt);
      FirstMatchInsert(s[n], StableSort(s[..n], lt), p, lt);
    }
  }

  /** Position `i` holds the best match: nothing beats it, and it beats every earlier match. */
  ghost predicate IsBest<T>(s: seq<T>, p: T -> bool, lt: (T, T) -> bool, i: nat) {
    && i < |s| && p(s[i])
    && (forall j :: 0 <= j < |s| && p(s[j]) ==> !lt(s[j], s[i]))
    && (forall j :: 0 <= j < i && p(s[j]) ==> lt(s[i], s[j]))
  }

  /** The scan finds the best position, whenever anything matches. */
  lemma {:induction false} BestMatchPosition<T(!new)>(s: seq<T>, p: T -> bool, lt: (T, T) -> bool) returns (i: nat)
    requires StrictWeakOrder(lt)
    requires BestMatch(s, p, lt).Some?
    ensures IsBest(s, p, lt, i) && BestMatch(s, p, lt) == Some(s[i])
  {
    var n := |s| - 1;
    var b := BestMatch(s[..n], p, lt);
    if b.Some? {
      i := BestMatchPosition(s[..n], p, lt);
      assert s[..n][i] == s[i];
      assert forall j :: 0 <= j < n ==> s[..n][j] == s[j];
      if p(s[n]) && lt(s[n], s[i]) {
        forall j | 0 <= j < n && p(s[j]) ensures lt(s[n], s[j]) {
          assert !lt(s[..n][j], s[..n][i]);
        }
        i := n;
      }
    } else {
      assert forall j :: 0 <= j < n ==> s[j] in s[..n];
      i := n;
    }
  }

  lemma HeadIsLeast<T>(a: seq<T>, x: T, lt: (T, T) -> bool)
    requires Sorted(a, lt) && x in a
    ensures x == a[0] || !lt(x, a[0])
  {
    var i :| 0 <= i < |a| && a[i] == x;
  }

  // ---- stability -----------------------------------------------------------------

  predicate Tied<T>(a: T, b: T, lt: (T, T) -> bool) {
    !lt(a, b) && !lt(b, a)
  }

  /** The elements that are tied with `x`, in order. */
  function TiedTo<T>(s: seq<T>, x: T, lt: (T, T) -> bool): seq<T> {
    if s == [] then [] else (if Tied(s[0], x, lt) then [s[0]] else []) + TiedTo(s[1..], x, lt)
  }

  /** What a stable sort promises: sorted, a permutation, and ties in their old order. */
  ghost predicate IsStableSortOf<T(!new)>(out: seq<T>, s: seq<T>, lt: (T, T) -> bool) {
    IsSortOf(out, s, lt) && forall x :: TiedTo(out, x, lt) == TiedTo(s, x, lt)
  }

  lemma {:induction false} TiedToAppend<T>(s: seq<T>, v: T, x: T, lt: (T, T) -> bool)
    ensures TiedTo(s + [v], x, lt) == TiedTo(s, x, lt) + if Tied(v, x, lt) then [v] else []
  {
    var t := s + [v];
    if s == [] {
      assert t[1..] == [];
    } else {
      assert t[0] == s[0] && t[1..] == s[1..] + [v];
      TiedToAppend(s[1..], v, x, lt);
      var head := if Tied(s[0], x, lt) then [s[0]] else [];
      var last := if Tied(v, x, lt) then [v] else [];
      assert head + (TiedTo(s[1..], x, lt) + last) == (head + TiedTo(s[1..], x, lt)) + last;
    }
  }

  lemma TiedToTail<T>(s: seq<T>, x: T, lt: (T, T) -> bool)
    requires s != []
    ensures Tied(s[0], x, lt) ==> TiedTo(s, x, lt) != [] && TiedTo(s, x, lt)[1..] == TiedTo(s[1..], x, lt)
    ensures !Tied(s[0], x, lt) ==> TiedTo(s, x, lt) == TiedTo(s[1..], x, lt)
  {
  }

  lemma {:induction false} NothingTied<T>(s: seq<T>, x: T, lt: (T, T) -> bool)
    requires forall y :: y in s ==> !Tied(y, x, lt)
    ensures TiedTo(s, x, lt) == []
  {
    if s != [] {
      assert s[0] in s;
      NothingTied(s[1..], x, lt);
    }
  }

  lemma {:induction false} InsertLastTied<T(!new)>(v: T, s: seq<T>, x: T, lt: (T, T) -> bool)
    requires StrictWeakOrder(lt) && Sorted(s, lt)
    ensures TiedTo(InsertLast(v, s, lt), x, lt) == TiedTo(s, x, lt) + if Tied(v, x, lt) then [v] else []
  {
    if s == [] || lt(v, s[0]) {
      assert ([v] + s)[1..] == s;
      if Tied(v, x, lt) {
        forall y | y in s ensures !Tied(y, x, lt) { HeadIsLeast(s, y, lt); }
        NothingTied(s, x, lt);
      }
    } else {
      SortedTail(s, lt);
      InsertLastTied(v, s[1..], x, lt);
      assert InsertLast(v, s, lt)[1..] == InsertLast(v, s[1..], lt);
    }
  }

  lemma {:induction false} StableSortIsStable<T(!new)>(s: seq<T>, lt: (T, T) -> bool)
    requires StrictWeakOrder(lt)
    ensures IsStableSortOf(StableSort(s, lt), s, lt)
  {
    StableSortIsSort(s, lt);
    if s != [] {
      var init, v := s[..|s| - 1], s[|s| - 1];
      StableSortIsStable(init, lt);
      assert s == init + [v];
      forall x ensures TiedTo(StableSort(s, lt), x, lt) == TiedTo(s, x, lt) {
        InsertLastTied(v, StableSort(init, lt), x, lt);
        TiedToAppend(init, v, x, lt);
      }
    }
  }

  lemma {:induction false} TiedMember<T>(s: seq<T>, x: T, lt: (T, T) -> bool) returns (y: T)
    requires TiedTo(s, x, lt) != []
    ensures y in s && Tied(y, x, lt)
  {
    if Tied(s[0], x, lt) {
      y := s[0];
    } else {
      y := TiedMember(s[1..], x, lt);
    }
  }

  lemma NotBefore<T(!new)>(a: seq<T>, x: T, lt: (T, T) -> bool)
    requires StrictWeakOrder(lt) && Sorted(a, lt) && TiedTo(a, x, lt) != []
    ensures a != [] && !lt(x, a[0])
  {
    var y := TiedMember(a, x, lt);
    HeadIsLeast(a, y, lt);
    assert !lt(x, y) && !lt(y, a[0]);
  }

  /** A sorted list is determined by its classes of ties. */
  lemma {:induction false} TiesDetermine<T(!new)>(a: seq<T>, b: seq<T>, lt: (T, T) -> bool)
    requires StrictWeakOrder(lt) && Sorted(a, lt) && Sorted(b, lt)
    requires forall x :: TiedTo(a, x, lt) == TiedTo(b, x, lt)
    ensures a == b
    decreases |a|
  {
    if b != [] {
      assert TiedTo(b, b[0], lt)[0] == b[0];
      NotBefore(a, b[0], lt);
    }
    if a != [] {
      assert TiedTo(a, a[0], lt)[0] == a[0];
      NotBefore(b, a[0], lt);
      assert TiedTo(b, a[0], lt)[0] == b[0];
      SortedTail(a, lt);
      SortedTail(b, lt);
      forall x ensures TiedTo(a[1..], x, lt) == TiedTo(b[1..], x, lt) {
        assert TiedTo(a, x, lt) == TiedTo(b, x, lt);
        TiedToTail(a, x, lt);
        TiedToTail(b, x, lt);
      }
      TiesDetermine(a[1..], b[1..], lt);
      assert a == [a[0]] + a[1..] && b == [b[0]] + b[1..];
    }
  }

  /** There is one stable sort: whatever algorithm computes it, the result is this one. */
  lemma StableSortIsUnique<T(!new)>(out: seq<T>, s: seq<T>, lt: (T, T) -> bool)
    requires StrictWeakOrder(lt) && IsStableSortOf(out, s, lt)
    ensures out == StableSort(s, lt)
  {
    StableSortIsStable(s, lt);
    forall x ensures TiedTo(out, x, lt) == TiedTo(StableSort(s, lt), x, lt) { }
    TiesDetermine(out, StableSort(s, lt), lt);
  }

  lemma TailBag<T>(a: seq<T>)
    requires a != []
    ensures multiset(a[1..]) == multiset(a) - multiset{a[0]}
  {
    assert a == [a[0]] + a[1..];
  }

  /** When ties are only between equal values, a sort has one possible result. */
  lemma {:induction false} SortIsUnique<T(!new)>(a: seq<T>, b: seq<T>, lt: (T, T) -> bool)
    requires multiset(a) == multiset(b)
    requires Sorted(a, lt) && Sorted(b, lt)
    requires forall x, y :: x in a && y in a && !lt(x, y) && !lt(y, x) ==> x == y
    ensures a == b
  {
    assert |a| == |multiset(a)| == |multiset(b)| == |b|;
    if a != [] {
      assert a[0] in multiset(b) && b[0] in multiset(a);
      HeadIsLeast(a, b[0], lt);
      HeadIsLeast(b, a[0], lt);
      TailBag(a);
      TailBag(b);
      SortedTail(a, lt);
      SortedTail(b, lt);
      forall x | x in a[1..] ensures x in a { }
      SortIsUnique(a[1..], b[1..], lt);
      assert a == [a[0]] + a[1..] && b == [b[0]] + b[1..];
    }
  }

  lemma {:induction false} StableSortCongruence<T>(s: seq<T>, lt: (T, T) -> bool, lt': (T, T) -> bool)
    requires forall x, y :: x in s && y in s ==> lt(x, y) == lt'(x, y)
    ensures StableSort(s, lt) == StableSort(s, lt')
    ensures multiset(StableSort(s, lt)) == multiset(s)
  {
    if s != [] {
      var n := |s| - 1;
      assert s == s[..n] + [s[n]];
      StableSortCongruence(s[..n], lt, lt');
      InsertLastCongruence(s[n], StableSort(s[..n], lt), lt, lt');
      InsertLastBag(s[n], StableSort(s[..n], lt), lt);
    }
  }

  lemma {:induction false} InsertLastCongruence<T>(x: T, s: seq<T>, lt: (T, T) -> bool, lt': (T, T) -> bool)
    requires forall y :: y in multiset(s) ==> lt(x, y) == lt'(x, y)
    ensures InsertLast(x, s, lt) == InsertLast(x, s, lt')
  {
    if s != [] {
      assert s[0] in multiset(s);
      forall y | y in multiset(s[1..]) ensures y in multiset(s) { assert y in s[1..]; }
      InsertLastCongruence(x, s[1..], lt, lt');
    }
  }

  /** Exchanging two tied elements of a sorted list leaves it sorted. */
  lemma SwapTied<T(!new)>(s: seq<T>, lt: (T, T) -> bool, i: nat, j: nat) returns (t: seq<T>)
    requires StrictWeakOrder(lt) && Sorted(s, lt)
    requires i < j < |s| && !lt(s[i], s[j])
    ensures t == s[i := s[j]][j := s[i]]
    ensures IsSortOf(t, s, lt)
  {
    t := s[i := s[j]][j := s[i]];
    assert multiset(t) == multiset(s);
    forall a, b | 0 <= a < b < |t| ensures !lt(t[b], t[a]) {
      var x := if a == i then j else if a == j then i else a;
      var y := if b == i then j else if b == j then i else b;
      assert t[a] == s[x] && t[b] == s[y];
      if y < x {
      }
    }
  }

  /** A sort has one possible result exactly when tied elements are equal. */
  lemma SortDeterministicIff<T(!new)>(s: seq<T>, lt: (T, T) -> bool)
    requires StrictWeakOrder(lt)
    ensures (forall a, b :: IsSortOf(a, s, lt) && IsSortOf(b, s, lt) ==> a == b)
       <==> (forall x, y :: x in s && y in s && !lt(x, y) && !lt(y, x) ==> x == y)
  {
    if forall x, y :: x in s && y in s && !lt(x, y) && !lt(y, x) ==> x == y {
      forall a, b | IsSortOf(a, s, lt) && IsSortOf(b, s, lt) ensures a == b {
        forall x | x in a ensures x in s { assert x in multiset(a); }
        SortIsUnique(a, b, lt);
      }
    } else {
      var x, y :| x in s && y in s && !lt(x, y) && !lt(y, x) && x != y;
      var a := StableSort(s, lt);
      StableSortIsSort(s, lt);
      assert x in multiset(a) && y in multiset(a);
      var i :| 0 <= i < |a| && a[i] == x;
      var j :| 0 <= j < |a| && a[j] == y;
      var b := SwapTied(a, lt, if i < j then i else j, if i < j then j else i);
      assert IsSortOf(b, s, lt) && b[i] != a[i];
    }
  }

  function Map<A, B>(f: A -> B, s: seq<A>): seq<B> {
    seq(|s|, i requires 0 <= i < |s| => f(s[i]))
  }

  /** A member of a permuted image has a preimage. */
  lemma Preimage<A, B>(f: A -> B, s: seq<A>, image: seq<B>, y: B) returns (x: A)
    requires multiset(image) == multiset(Map(f, s)) && y in image
    ensures x in s && y == f(x)
  {
    assert y in multiset(image);
    assert y in Map(f, s);
    var i :| 0 <= i < |Map(f, s)| && Map(f, s)[i] == y;
    x := s[i];
  }

  lemma ImagePosition<A, B>(f: A -> B, s: seq<A>, image: seq<B>, x: A) returns (i: nat)
    requires multiset(image) == multiset(Map(f, s)) && x in s
    ensures i < |image| && image[i] == f(x)
  {
    var k :| 0 <= k < |s| && s[k] == x;
    assert Map(f, s)[k] == f(x);
    assert f(x) in multiset(image);
    i :| 0 <= i < |image| && image[i] == f(x);
  }

  lemma MapRemove<A, B>(f: A -> B, s: seq<A>, i: nat)
    requires i < |s|
    ensures multiset(Map(f, s)) == multiset(Map(f, s[..i] + s[i + 1..])) + multiset{f(s[i])}
  {
    var t := s[..i] + s[i + 1..];
    assert s == s[..i] + [s[i]] + s[i + 1..];
    assert Map(f, s) == Map(f, s[..i]) + [f(s[i])] + Map(f, s[i + 1..]);
    assert Map(f, t) == Map(f, s[..i]) + Map(f, s[i + 1..]);
  }

  /** The image of a bag does not depend on the order it is listed in. */
  lemma {:induction false} MapBag<A, B>(f: A -> B, a: seq<A>, b: seq<A>)
    requires multiset(a) == multiset(b)
    ensures multiset(Map(f, a)) == multiset(Map(f, b))
    decreases |a|
  {
    if a == [] {
      assert |multiset(b)| == 0;
    } else {
      var n := |a| - 1;
      var i := WithoutLast(a, b);
      MapBag(f, a[..n], b[..i] + b[i + 1..]);
      MapRemove(f, a, n);
      MapRemove(f, b, i);
      assert a[..n] + a[n + 1..] == a[..n];
    }
  }

  lemma {:induction false} ListBag<T>(m: multiset<T>) returns (s: seq<T>)
    ensures multiset(s) == m
  {
    if m == multiset{} {
      s := [];
    } else {
      var x :| x in m;
      var t := ListBag(m - multiset{x});
      s := [x] + t;
    }
  }

  /** The sum of the bags of the elements. */
  ghost function Collect<A, B>(f: A -> multiset<B>, s: seq<A>): multiset<B> {
    if s == [] then multiset{} else Collect(f, s[..|s| - 1]) + f(s[|s| - 1])
  }

  lemma {:induction false} CollectConcat<A, B>(f: A -> multiset<B>, a: seq<A>, b: seq<A>)
    ensures Collect(f, a + b) == Collect(f, a) + Collect(f, b)
  {
    if b == [] {
      assert a + b == a;
    } else {
      var n := |b| - 1;
      assert (a + b)[..|a + b| - 1] == a + b[..n];
      CollectConcat(f, a, b[..n]);
    }
  }

  lemma CollectMiddle<A, B>(f: A -> multiset<B>, a: seq<A>, x: A, b: seq<A>)
    ensures Collect(f, a + [x] + b) == Collect(f, a + b) + f(x)
  {
    CollectConcat(f, a + [x], b);
    CollectConcat(f, a, [x]);
    CollectConcat(f, a, b);
    assert [x][..0] == [];
  }

  lemma CollectMember<A, B>(f: A -> multiset<B>, s: seq<A>, i: nat)
    requires i < |s|
    ensures f(s[i]) <= Collect(f, s)
  {
    assert s == s[..i] + [s[i]] + s[i + 1..];
    CollectMiddle(f, s[..i], s[i], s[i + 1..]);
  }

  lemma RemoveBag<T>(s: seq<T>, i: nat)
    requires i < |s|
    ensures s == s[..i] + [s[i]] + s[i + 1..]
    ensures multiset(s[..i] + s[i + 1..]) == multiset(s) - multiset{s[i]}
  {
    assert s == s[..i] + [s[i]] + s[i + 1..];
  }

  /** Taking the last of `a` out of both lists leaves equal bags. */
  lemma WithoutLast<T>(a: seq<T>, b: seq<T>) returns (i: nat)
    requires multiset(a) == multiset(b) && a != []
    ensures i < |b| && b[i] == a[|a| - 1]
    ensures multiset(a[..|a| - 1]) == multiset(b[..i] + b[i + 1..])
  {
    var n := |a| - 1;
    assert a[n] in multiset(b);
    i :| 0 <= i < |b| && b[i] == a[n];
    RemoveBag(b, i);
    RemoveBag(a, n);
    assert a[..n] + a[n + 1..] == a[..n];
  }

  lemma {:induction false} CollectPermutation<A, B>(f: A -> multiset<B>, a: seq<A>, b: seq<A>)
    requires multiset(a) == multiset(b)
    ensures Collect(f, a) == Collect(f, b)
    decreases |a|
  {
    if a == [] {
      assert |multiset(b)| == 0;
    } else {
      var i := WithoutLast(a, b);
      CollectPermutation(f, a[..|a| - 1], b[..i] + b[i + 1..]);
      CollectMiddle(f, b[..i], b[i], b[i + 1..]);
      assert b == b[..i] + [b[i]] + b[i + 1..];
    }
  }

  predicate NoRepeats<T(==)>(s: seq<T>) {
    forall i, j :: 0 <= i < j < |s| ==> s[i] != s[j]
  }

  lemma {:induction false} BagOfOnesIsDistinct<T>(s: seq<T>)
    requires forall x :: x in multiset(s) ==> multiset(s)[x] == 1
    ensures NoRepeats(s)
  {
    if s != [] {
      TailBag(s);
      forall x | x in multiset(s[1..]) ensures multiset(s[1..])[x] == 1 { }
      BagOfOnesIsDistinct(s[1..]);
      assert s[0] !in multiset(s[1..]);
      assert s[0] !in s[1..];
      forall i, j | 0 <= i < j < |s| ensures s[i] != s[j] {
        assert s[j] == s[1..][j - 1];
        if i > 0 { assert s[i] == s[1..][i - 1]; }
      }
    }
  }

  lemma {:induction false} DistinctBag<T>(s: seq<T>)
    requires NoRepeats(s)
    ensures forall x :: x in multiset(s) ==> multiset(s)[x] == 1
  {
    if s != [] {
      DistinctBag(s[1..]);
      assert s == [s[0]] + s[1..];
      assert s[0] !in s[1..];
    }
  }

  lemma DistinctIsOrderFree<T>(a: seq<T>, b: seq<T>)
    requires multiset(a) == multiset(b) && NoRepeats(a)
    ensures NoRepeats(b)
  {
    DistinctBag(a);
    BagOfOnesIsDistinct(b);
  }
}
