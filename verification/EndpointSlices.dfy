/** From an Ingress rule to a target: port matching, the merge of the backend's endpoint
    slices, and the annotations that reach the data plane's balancer. */
module EndpointSlices {
  import opened Text
  import opened Sorting
  import opened ControlPlane
  import Wire
  import RT = RouteTable
  import EndToEnd

  datatype Port = Port(name: Option<string>, number: Option<int>)

  datatype SliceEndpoint = SliceEndpoint(addresses: seq<string>, ready: Option<bool>)

  datatype Slice = Slice(ports: seq<Port>, endpoints: seq<SliceEndpoint>)

  datatype Merged = Merged(port: int, addresses: seq<string>)

  predicate PortMatches(p: Port, portName: string) {
    p.number.Some? && (portName == "" || p.name == Some(portName))
  }

  /** `matchSlicePortByName`: the first numbered port of that name, or the first numbered port
      when no name is asked for. */
  function MatchSlicePort(ports: seq<Port>, portName: string): Option<int> {
    if ports == [] then None
    else if PortMatches(ports[0], portName) then ports[0].number
    else MatchSlicePort(ports[1..], portName)
  }

  /** Number `n` belongs to the first numbered port of that name; any name will do when none is
      asked for. */
  ghost predicate FirstPort(ports: seq<Port>, portName: string, n: int) {
    exists i: nat :: FirstPortAt(ports, portName, n, i)
  }

  ghost predicate FirstPortAt(ports: seq<Port>, portName: string, n: int, i: nat) {
    && i < |ports| && ports[i].number == Some(n) && (portName == "" || ports[i].name == Some(portName))
    && forall j :: 0 <= j < i && ports[j].number != None ==> portName != "" && ports[j].name != Some(portName)
  }

  lemma FirstPortStep(p: Port, rest: seq<Port>, portName: string, n: int)
    requires p.number == None || (portName != "" && p.name != Some(portName))
    ensures FirstPort([p] + rest, portName, n) <==> FirstPort(rest, portName, n)
  {
    var all := [p] + rest;
    if FirstPort(all, portName, n) {
      var i: nat :| FirstPortAt(all, portName, n, i);
      assert forall j :: 0 <= j < |rest| ==> rest[j] == all[j + 1];
      assert FirstPortAt(rest, portName, n, i - 1);
    }
    if FirstPort(rest, portName, n) {
      var i: nat :| FirstPortAt(rest, portName, n, i);
      assert forall j :: 0 < j < |all| ==> all[j] == rest[j - 1];
      assert FirstPortAt(all, portName, n, i + 1);
    }
  }

  lemma {:induction false} MatchSlicePortIff(ports: seq<Port>, portName: string, n: int)
    ensures MatchSlicePort(ports, portName) == Some(n) <==> FirstPort(ports, portName, n)
  {
    if ports != [] {
      assert ports == [ports[0]] + ports[1..];
      if PortMatches(ports[0], portName) {
        if FirstPort(ports, portName, n) {
          var i: nat :| FirstPortAt(ports, portName, n, i);
          assert i == 0;
        }
        assert ports[0].number == Some(n) ==> FirstPortAt(ports, portName, n, 0);
      } else {
        FirstPortStep(ports[0], ports[1..], portName, n);
        MatchSlicePortIff(ports[1..], portName, n);
      }
    }
  }

  function Matched(s: Slice, portName: string): Option<int> {
    MatchSlicePort(s.ports, portName)
  }

  predicate NotUnready(e: SliceEndpoint) {
    e.ready != Some(false)
  }

  // ---- specification of the merge ------------------------------------------------------------

  function ChosenPort(slices: seq<Slice>, portName: string): (p: Option<int>)
    ensures p.None? <==> forall s :: s in slices ==> Matched(s, portName).None?
    ensures p.Some? ==> exists s :: s in slices && Matched(s, portName) == p
  {
    if slices == [] then None
    else if Matched(slices[0], portName).Some? then Matched(slices[0], portName)
    else ChosenPort(slices[1..], portName)
  }

  /** `a` is an address of an endpoint of `s` that is not marked unready. */
  ghost predicate Offers(s: Slice, a: string) {
    exists e :: e in s.endpoints && NotUnready(e) && a in e.addresses
  }

  /** `a` belongs to the merge for `port`. */
  ghost predicate Belongs(slices: seq<Slice>, portName: string, port: int, a: string) {
    exists s :: s in slices && Matched(s, portName) == Some(port) && Offers(s, a)
  }

  /** Strictly increasing in Go's string order, hence without duplicates. */
  predicate StrictlySorted(addresses: seq<string>) {
    forall i, j :: 0 <= i < j < |addresses| ==> StrLess(addresses[i], addresses[j])
  }

  /** The merge of the slices: the sorted, duplicate-free set of belonging addresses on the first
      matched port, or nothing when there is no port or no address. */
  ghost predicate IsMerge(m: Option<Merged>, slices: seq<Slice>, portName: string) {
    match ChosenPort(slices, portName)
    case None => m == None
    case Some(port) =>
      match m
      case None => forall a :: !Belongs(slices, portName, port, a)
      case Some(mm) =>
        && mm.port == port && mm.addresses != [] && StrictlySorted(mm.addresses)
        && forall a :: a in mm.addresses <==> Belongs(slices, portName, port, a)
  }

  ghost predicate NoPort(s: Slice, portName: string) {
    forall n :: !FirstPort(s.ports, portName, n)
  }

  /** Port `n` is that of the first slice that has one of the name. */
  ghost predicate FirstSlicePort(slices: seq<Slice>, portName: string, n: int) {
    exists k: nat :: FirstSlicePortAt(slices, portName, n, k)
  }

  ghost predicate FirstSlicePortAt(slices: seq<Slice>, portName: string, n: int, k: nat) {
    k < |slices| && FirstPort(slices[k].ports, portName, n) && forall j :: 0 <= j < k ==> NoPort(slices[j], portName)
  }

  /** `a` is an address of an endpoint that is not marked unready, in a slice whose port of the
      name is `n`. */
  ghost predicate ReadyAddress(slices: seq<Slice>, portName: string, n: int, a: string) {
    exists s, e :: s in slices && FirstPort(s.ports, portName, n)
                   && e in s.endpoints && e.ready != Some(false) && a in e.addresses
  }

  /** The merge in terms of the slices' fields. */
  ghost predicate MergedFrom(m: Option<Merged>, slices: seq<Slice>, portName: string) {
    match m
    case None => forall n, a :: FirstSlicePort(slices, portName, n) ==> !ReadyAddress(slices, portName, n, a)
    case Some(mm) =>
      && FirstSlicePort(slices, portName, mm.port)
      && mm.addresses != [] && StrictlySorted(mm.addresses)
      && forall a :: a in mm.addresses <==> ReadyAddress(slices, portName, mm.port, a)
  }

  /** The slice's own match, in the same terms. */
  lemma MatchedIff(s: Slice, portName: string)
    ensures Matched(s, portName) == None <==> NoPort(s, portName)
    ensures forall n :: Matched(s, portName) == Some(n) <==> FirstPort(s.ports, portName, n)
  {
    forall n ensures Matched(s, portName) == Some(n) <==> FirstPort(s.ports, portName, n) {
      MatchSlicePortIff(s.ports, portName, n);
    }
    if Matched(s, portName).Some? { assert FirstPort(s.ports, portName, Matched(s, portName).value); }
  }

  lemma FirstSliceStep(s: Slice, rest: seq<Slice>, portName: string, n: int)
    requires NoPort(s, portName)
    ensures FirstSlicePort([s] + rest, portName, n) <==> FirstSlicePort(rest, portName, n)
  {
    var all := [s] + rest;
    if FirstSlicePort(all, portName, n) {
      var k: nat :| FirstSlicePortAt(all, portName, n, k);
      assert forall j :: 0 <= j < |rest| ==> rest[j] == all[j + 1];
      assert FirstSlicePortAt(rest, portName, n, k - 1);
    }
    if FirstSlicePort(rest, portName, n) {
      var k: nat :| FirstSlicePortAt(rest, portName, n, k);
      assert forall j :: 0 < j < |all| ==> all[j] == rest[j - 1];
      assert FirstSlicePortAt(all, portName, n, k + 1);
    }
  }

  lemma {:induction false} ChosenPortIff(slices: seq<Slice>, portName: string, n: int)
    ensures ChosenPort(slices, portName) == Some(n) <==> FirstSlicePort(slices, portName, n)
  {
    if slices != [] {
      MatchedIff(slices[0], portName);
      assert slices == [slices[0]] + slices[1..];
      if Matched(slices[0], portName).Some? {
        if FirstSlicePort(slices, portName, n) {
          var k: nat :| FirstSlicePortAt(slices, portName, n, k);
          assert k == 0;
        }
        assert Matched(slices[0], portName) == Some(n) ==> FirstSlicePortAt(slices, portName, n, 0);
      } else {
        FirstSliceStep(slices[0], slices[1..], portName, n);
        ChosenPortIff(slices[1..], portName, n);
      }
    }
  }

  lemma BelongsIff(slices: seq<Slice>, portName: string, n: int, a: string)
    ensures Belongs(slices, portName, n, a) <==> ReadyAddress(slices, portName, n, a)
  {
    forall s ensures Matched(s, portName) == Some(n) <==> FirstPort(s.ports, portName, n) {
      MatchedIff(s, portName);
    }
  }

  /** The two descriptions of the merge agree. */
  lemma MergeIff(m: Option<Merged>, slices: seq<Slice>, portName: string)
    ensures IsMerge(m, slices, portName) <==> MergedFrom(m, slices, portName)
  {
    forall n ensures ChosenPort(slices, portName) == Some(n) <==> FirstSlicePort(slices, portName, n) {
      ChosenPortIff(slices, portName, n);
    }
    forall n, a ensures Belongs(slices, portName, n, a) <==> ReadyAddress(slices, portName, n, a) {
      BelongsIff(slices, portName, n, a);
    }
  }

  // ---- the loops -----------------------------------------------------------------------------

  /** Nothing from position `n` on repeats what is before it. */
  predicate DistinctFrom(s: seq<string>, n: nat) {
    forall i, j :: 0 <= i < j < |s| && n <= j ==> s[i] != s[j]
  }

  /** The destination may hold duplicates; none is added. */
  method AppendUnique(dst: seq<string>, src: seq<string>) returns (out: seq<string>)
    ensures dst <= out && DistinctFrom(out, |dst|)
    ensures forall a :: a in out <==> a in dst || a in src
  {
    out := dst;
    for i := 0 to |src|
      invariant dst <= out && DistinctFrom(out, |dst|)
      invariant forall a :: a in out <==> a in dst || a in src[..i]
    {
      assert src[..i + 1] == src[..i] + [src[i]];
      if src[i] !in out {
        out := out + [src[i]];
      }
    }
    assert src[..|src|] == src;
  }

  /** The loop over the endpoints of one slice. */
  method AppendSlice(dst: seq<string>, s: Slice) returns (out: seq<string>)
    ensures dst <= out && DistinctFrom(out, |dst|)
    ensures forall a :: a in out <==> a in dst || Offers(s, a)
  {
    out := dst;
    ghost var done := Slice([], []);
    for i := 0 to |s.endpoints|
      invariant dst <= out && DistinctFrom(out, |dst|)
      invariant done == Slice([], s.endpoints[..i])
      invariant forall a :: a in out <==> a in dst || Offers(done, a)
    {
      var ep := s.endpoints[i];
      ghost var before := out;
      if NotUnready(ep) {
        out := AppendUnique(out, ep.addresses);
        assert dst <= before <= out;
      }
      done := Slice([], s.endpoints[..i + 1]);
      assert done.endpoints == s.endpoints[..i] + [ep];
      forall a ensures Offers(done, a) <==> Offers(Slice([], s.endpoints[..i]), a) || (NotUnready(ep) && a in ep.addresses) {
        OffersStep(s.endpoints[..i], ep, a);
      }
    }
    assert s.endpoints[..|s.endpoints|] == s.endpoints;
  }

  lemma OffersStep(es: seq<SliceEndpoint>, e: SliceEndpoint, a: string)
    ensures Offers(Slice([], es + [e]), a) <==> Offers(Slice([], es), a) || (NotUnready(e) && a in e.addresses)
  {
    if Offers(Slice([], es + [e]), a) {
      var x :| x in es + [e] && NotUnready(x) && a in x.addresses;
    }
    if Offers(Slice([], es), a) {
      var x :| x in es && NotUnready(x) && a in x.addresses;
      assert x in es + [e];
    }
    if NotUnready(e) && a in e.addresses {
      assert e in es + [e];
    }
  }

  lemma BelongsStep(slices: seq<Slice>, s: Slice, portName: string, port: int, a: string)
    ensures Belongs(slices + [s], portName, port, a) <==>
            Belongs(slices, portName, port, a) || (Matched(s, portName) == Some(port) && Offers(s, a))
  {
    if Belongs(slices + [s], portName, port, a) {
      var x :| x in slices + [s] && Matched(x, portName) == Some(port) && Offers(x, a);
    }
    if Belongs(slices, portName, port, a) {
      var x :| x in slices && Matched(x, portName) == Some(port) && Offers(x, a);
      assert x in slices + [s];
    }
    if Matched(s, portName) == Some(port) && Offers(s, a) {
      assert s in slices + [s];
    }
  }

  lemma {:induction false} ChosenPortStep(slices: seq<Slice>, s: Slice, portName: string)
    ensures ChosenPort(slices + [s], portName) ==
            if ChosenPort(slices, portName).Some? then ChosenPort(slices, portName) else Matched(s, portName)
  {
    if slices == [] {
      assert (slices + [s])[0] == s && (slices + [s])[1..] == [];
    } else {
      assert (slices + [s])[0] == slices[0] && (slices + [s])[1..] == slices[1..] + [s];
      ChosenPortStep(slices[1..], s, portName);
    }
  }

  lemma StrLessIsStrictWeakOrder()
    ensures StrictWeakOrder(StrLess)
  {
    forall a: string ensures !StrLess(a, a) { StrLessIrreflexive(a); }
    forall a: string, b: string, c: string | StrLess(a, b) && StrLess(b, c) ensures StrLess(a, c) {
      StrLessTransitive(a, b, c);
    }
    forall a: string, b: string, c: string | !StrLess(a, b) && !StrLess(b, c) ensures !StrLess(a, c) {
      StrLessTotal(a, b);
      if StrLess(b, a) && StrLess(a, c) {
        StrLessTransitive(b, a, c);
      }
    }
  }

  lemma SortDistinct(s: seq<string>)
    requires NoRepeats(s)
    ensures StrictlySorted(StableSort(s, StrLess))
    ensures forall a :: a in StableSort(s, StrLess) <==> a in s
    ensures |StableSort(s, StrLess)| == |s|
  {
    var t := StableSort(s, StrLess);
    StrLessIsStrictWeakOrder();
    StableSortIsSort(s, StrLess);
    assert |t| == |multiset(t)| == |multiset(s)| == |s|;
    forall a ensures a in t <==> a in s {
      assert a in t <==> a in multiset(t);
      assert a in s <==> a in multiset(s);
    }
    DistinctIsOrderFree(s, t);
    forall i, j | 0 <= i < j < |t| ensures StrLess(t[i], t[j]) {
      StrLessTotal(t[i], t[j]);
    }
  }

  /** The slice loop of `buildTargetFromRule` with its final sort. */
  method MergeSlices(slices: seq<Slice>, portName: string) returns (m: Option<Merged>)
    ensures IsMerge(m, slices, portName) && MergedFrom(m, slices, portName)
  {
    m := CollectSlices(slices, portName);
    MergeIff(m, slices, portName);
  }

  method CollectSlices(slices: seq<Slice>, portName: string) returns (m: Option<Merged>)
    ensures IsMerge(m, slices, portName)
  {
    var allAddrs: seq<string> := [];
    var chosen: Option<int> := None;
    for i := 0 to |slices|
      invariant NoRepeats(allAddrs)
      invariant chosen == ChosenPort(slices[..i], portName)
      invariant chosen.None? ==> allAddrs == []
      invariant chosen.Some? ==> forall a :: a in allAddrs <==> Belongs(slices[..i], portName, chosen.value, a)
    {
      var slice := slices[i];
      ghost var was, before := chosen, allAddrs;
      assert slices[..i + 1] == slices[..i] + [slice];
      ChosenPortStep(slices[..i], slice, portName);
      var matched := Matched(slice, portName);
      if matched.Some? {
        if chosen.None? {
          chosen := matched;
        }
        if matched == chosen {
          allAddrs := AppendSlice(allAddrs, slice);
        }
      }
      if chosen.Some? {
        forall a ensures a in allAddrs <==> Belongs(slices[..i + 1], portName, chosen.value, a) {
          BelongsStep(slices[..i], slice, portName, chosen.value, a);
          if was.None? { assert !Belongs(slices[..i], portName, chosen.value, a); }
        }
      }
    }
    assert slices[..|slices|] == slices;
    if chosen.None? {
      return None;
    }
    if |allAddrs| == 0 {
      return None;
    }
    SortDistinct(allAddrs);
    m := Some(Merged(chosen.value, StableSort(allAddrs, StrLess)));
  }

  // ---- which orders matter ---------------------------------------------------------------------

  lemma {:induction false} SortedSetUnique(a: seq<string>, b: seq<string>)
    requires StrictlySorted(a) && StrictlySorted(b)
    requires forall x :: x in a <==> x in b
    ensures a == b
  {
    if a == [] {
      if b != [] { HeadMember(b); }
    } else {
      assert a[0] in a;
      assert b != [] by { assert a[0] in b; }
      HeadsAgree(a, b);
      forall x ensures x in a[1..] <==> x in b[1..] {
        TailMember(a, x);
        TailMember(b, x);
      }
      SortedSetUnique(a[1..], b[1..]);
      assert a == [a[0]] + a[1..] && b == [b[0]] + b[1..];
    }
  }

  lemma HeadMember(a: seq<string>)
    requires a != []
    ensures a[0] in a
  {
  }

  lemma NotBothLess(x: string, y: string)
    ensures !(StrLess(x, y) && StrLess(y, x))
  {
    if StrLess(x, y) && StrLess(y, x) {
      StrLessTransitive(x, y, x);
    }
    StrLessIrreflexive(x);
  }

  lemma HeadsAgree(a: seq<string>, b: seq<string>)
    requires StrictlySorted(a) && StrictlySorted(b) && a != [] && b != []
    requires forall x :: x in a <==> x in b
    ensures a[0] == b[0]
  {
    assert a[0] in a && b[0] in b;
    NotBothLess(a[0], b[0]);
  }

  lemma TailMember(a: seq<string>, x: string)
    requires StrictlySorted(a) && a != []
    ensures x in a[1..] <==> x in a && x != a[0]
  {
    assert a == [a[0]] + a[1..];
    if x in a[1..] {
      var i :| 0 <= i < |a[1..]| && a[1..][i] == x;
      assert a[i + 1] == x;
      StrLessIrreflexive(x);
    }
  }

  /** A merge has an address that belongs to it. */
  lemma SomeAddress(m: Option<Merged>, slices: seq<Slice>, portName: string) returns (a: string)
    requires IsMerge(m, slices, portName) && m.Some?
    ensures Belongs(slices, portName, m.value.port, a)
    ensures ChosenPort(slices, portName) == Some(m.value.port)
  {
    a := m.value.addresses[0];
    assert a in m.value.addresses;
  }

  /** The merge depends on the chosen port and the belonging addresses alone. */
  lemma MergeDetermined(m: Option<Merged>, slices: seq<Slice>, m': Option<Merged>, slices': seq<Slice>, portName: string)
    requires IsMerge(m, slices, portName) && IsMerge(m', slices', portName)
    requires ChosenPort(slices, portName) == ChosenPort(slices', portName)
    requires ChosenPort(slices, portName).Some? ==>
               forall a :: Belongs(slices, portName, ChosenPort(slices, portName).value, a)
                      <==> Belongs(slices', portName, ChosenPort(slices, portName).value, a)
    ensures m == m'
  {
    if m.Some? && m'.Some? {
      SortedSetUnique(m.value.addresses, m'.value.addresses);
    } else if m.Some? {
      var a := SomeAddress(m, slices, portName);
    } else if m'.Some? {
      var a := SomeAddress(m', slices', portName);
    }
  }

  ghost function AddressSet(slices: seq<Slice>, portName: string, port: int): set<string> {
    set s, e, a | s in slices && e in s.endpoints && a in e.addresses
                  && Matched(s, portName) == Some(port) && NotUnready(e) :: a
  }

  lemma {:induction false} ListSet(s: set<string>) returns (l: seq<string>)
    ensures NoRepeats(l) && forall a :: a in l <==> a in s
    decreases |s|
  {
    if s == {} {
      l := [];
    } else {
      var x :| x in s;
      var t := ListSet(s - {x});
      l := [x] + t;
    }
  }

  /** Every list of slices has a merge. */
  lemma MergeExists(slices: seq<Slice>, portName: string)
    ensures exists m :: IsMerge(m, slices, portName)
  {
    var chosen := ChosenPort(slices, portName);
    var m: Option<Merged> := None;
    if chosen.Some? {
      var addrs := AddressSet(slices, portName, chosen.value);
      forall a ensures a in addrs <==> Belongs(slices, portName, chosen.value, a) {
        if Belongs(slices, portName, chosen.value, a) {
          var s :| s in slices && Matched(s, portName) == Some(chosen.value) && Offers(s, a);
          var e :| e in s.endpoints && NotUnready(e) && a in e.addresses;
        }
      }
      if addrs != {} {
        var x :| x in addrs;
        var l := ListSet(addrs);
        assert x in l;
        SortDistinct(l);
        m := Some(Merged(chosen.value, StableSort(l, StrLess)));
      }
    }
    assert IsMerge(m, slices, portName);
  }

  ghost predicate OrderIndependent(slices: seq<Slice>, portName: string) {
    forall slices', m, m' ::
      multiset(slices) == multiset(slices') && IsMerge(m, slices, portName) && IsMerge(m', slices', portName)
      ==> m == m'
  }

  ghost predicate PortsAgree(slices: seq<Slice>, portName: string) {
    forall s, s' :: s in slices && s' in slices && Matched(s, portName).Some? && Matched(s', portName).Some?
                    ==> Matched(s, portName) == Matched(s', portName)
  }

  /** No slice with a matching port offers an address. */
  ghost predicate NothingOffered(slices: seq<Slice>, portName: string) {
    forall s, a :: s in slices && Matched(s, portName).Some? ==> !Offers(s, a)
  }

  lemma SameMembers<T>(a: seq<T>, b: seq<T>)
    requires multiset(a) == multiset(b)
    ensures forall x :: x in a <==> x in b
  {
    forall x ensures x in a <==> x in b {
      assert x in a <==> x in multiset(a);
      assert x in b <==> x in multiset(b);
    }
  }

  lemma AgreeingPortsDetermineMerge(
    slices: seq<Slice>, m: Option<Merged>, slices': seq<Slice>, m': Option<Merged>, portName: string)
    requires multiset(slices) == multiset(slices')
    requires IsMerge(m, slices, portName) && IsMerge(m', slices', portName)
    requires PortsAgree(slices, portName) || NothingOffered(slices, portName)
    ensures m == m'
  {
    SameMembers(slices, slices');
    if NothingOffered(slices, portName) {
      if m.Some? { var a := SomeAddress(m, slices, portName); }
      if m'.Some? { var a := SomeAddress(m', slices', portName); }
    } else {
      MergeDetermined(m, slices, m', slices', portName);
    }
  }

  lemma FrontDecidesPort(slices: seq<Slice>, s: Slice, portName: string) returns (slices': seq<Slice>)
    requires s in slices && Matched(s, portName).Some?
    ensures multiset(slices') == multiset(slices)
    ensures ChosenPort(slices', portName) == Matched(s, portName)
  {
    var i :| 0 <= i < |slices| && slices[i] == s;
    slices' := [s] + (slices[..i] + slices[i + 1..]);
    RemoveBag(slices, i);
    assert multiset(slices') == multiset(slices);
  }

  /** Two orders of slices on different ports that merge differently. */
  lemma DisagreeingPortsDecideByOrder(slices: seq<Slice>, portName: string)
    returns (first: seq<Slice>, m1: Option<Merged>, second: seq<Slice>, m2: Option<Merged>)
    requires !PortsAgree(slices, portName) && !NothingOffered(slices, portName)
    ensures multiset(first) == multiset(slices) == multiset(second)
    ensures IsMerge(m1, first, portName) && IsMerge(m2, second, portName) && m1 != m2
  {
    var s, a :| s in slices && Matched(s, portName).Some? && Offers(s, a);
    var other :| other in slices && Matched(other, portName).Some? && Matched(other, portName) != Matched(s, portName);
    first := FrontDecidesPort(slices, s, portName);
    second := FrontDecidesPort(slices, other, portName);
    MergeExists(first, portName);
    MergeExists(second, portName);
    m1 :| IsMerge(m1, first, portName);
    m2 :| IsMerge(m2, second, portName);
    SameMembers(first, slices);
    assert Belongs(first, portName, Matched(s, portName).value, a);
  }

  /** The merge is independent of the order of the slices exactly when all matched ports agree,
      or no slice with a matched port has an address to give. */
  lemma OrderIndependentIff(slices: seq<Slice>, portName: string)
    ensures OrderIndependent(slices, portName) <==>
            PortsAgree(slices, portName) || NothingOffered(slices, portName)
  {
    if PortsAgree(slices, portName) || NothingOffered(slices, portName) {
      forall slices', m, m' |
        multiset(slices) == multiset(slices') && IsMerge(m, slices, portName) && IsMerge(m', slices', portName)
        ensures m == m'
      {
        AgreeingPortsDetermineMerge(slices, m, slices', m', portName);
      }
    }
    if !PortsAgree(slices, portName) && !NothingOffered(slices, portName) {
      var first, m1, second, m2 := DisagreeingPortsDecideByOrder(slices, portName);
      MergeExists(slices, portName);
      var m :| IsMerge(m, slices, portName);
      assert m != m1 || m != m2;
    }
  }

  function OneAddress(port: int, address: string): Slice {
    Slice([Port(None, Some(port))], [SliceEndpoint([address], None)])
  }

  /** The smallest failures: two slices with an address each, on different ports. */
  lemma TwoPortsDecideByOrder(p: int, x: string, q: int, y: string)
    requires p != q
    ensures IsMerge(Some(Merged(p, [x])), [OneAddress(p, x), OneAddress(q, y)], "")
    ensures IsMerge(Some(Merged(q, [y])), [OneAddress(q, y), OneAddress(p, x)], "")
    ensures !OrderIndependent([OneAddress(p, x), OneAddress(q, y)], "")
  {
    var a, b := OneAddress(p, x), OneAddress(q, y);
    FirstSliceWins(a, p, x, b, q);
    FirstSliceWins(b, q, y, a, p);
  }

  lemma FirstSliceWins(a: Slice, port: int, address: string, b: Slice, other: int)
    requires a.ports == [Port(None, Some(port))] && b.ports == [Port(None, Some(other))] && port != other
    requires forall x :: Offers(a, x) <==> x == address
    ensures IsMerge(Some(Merged(port, [address])), [a, b], "")
  {
    assert Matched(a, "") == Some(port) && Matched(b, "") == Some(other);
    assert [a, b][0] in [a, b];
    forall x ensures Belongs([a, b], "", port, x) <==> x in [address] {
      if x == address { assert Matched(a, "") == Some(port) && Offers(a, x) && a in [a, b]; }
    }
  }

  /** The same slice with its endpoints in another order. */
  ghost predicate Reordered(s: Slice, s': Slice) {
    s.ports == s'.ports && multiset(s.endpoints) == multiset(s'.endpoints)
  }

  lemma ReorderedOffers(s: Slice, s': Slice, a: string)
    requires Reordered(s, s') && Offers(s, a)
    ensures Offers(s', a)
  {
    var e :| e in s.endpoints && NotUnready(e) && a in e.addresses;
    SameMembers(s.endpoints, s'.endpoints);
  }

  lemma {:induction false} ReorderedPort(slices: seq<Slice>, slices': seq<Slice>, portName: string)
    requires |slices| == |slices'| && forall i :: 0 <= i < |slices| ==> Reordered(slices[i], slices'[i])
    ensures ChosenPort(slices, portName) == ChosenPort(slices', portName)
  {
    if slices != [] {
      assert Reordered(slices[0], slices'[0]);
      ReorderedPort(slices[1..], slices'[1..], portName);
    }
  }

  lemma ReorderedBelongs(slices: seq<Slice>, slices': seq<Slice>, portName: string, port: int, a: string)
    requires |slices| == |slices'| && forall i :: 0 <= i < |slices| ==> Reordered(slices[i], slices'[i])
    requires Belongs(slices, portName, port, a)
    ensures Belongs(slices', portName, port, a)
  {
    var s :| s in slices && Matched(s, portName) == Some(port) && Offers(s, a);
    var i :| 0 <= i < |slices| && slices[i] == s;
    ReorderedOffers(s, slices'[i], a);
    assert slices'[i] in slices';
  }

  /** The order of the endpoints inside the slices never matters. */
  lemma EndpointOrderIsIrrelevant(
    slices: seq<Slice>, m: Option<Merged>, slices': seq<Slice>, m': Option<Merged>, portName: string)
    requires |slices| == |slices'| && forall i :: 0 <= i < |slices| ==> Reordered(slices[i], slices'[i])
    requires IsMerge(m, slices, portName) && IsMerge(m', slices', portName)
    ensures m == m'
  {
    ReorderedPort(slices, slices', portName);
    var chosen := ChosenPort(slices, portName);
    if chosen.Some? {
      forall a ensures Belongs(slices, portName, chosen.value, a) <==> Belongs(slices', portName, chosen.value, a) {
        if Belongs(slices, portName, chosen.value, a) { ReorderedBelongs(slices, slices', portName, chosen.value, a); }
        if Belongs(slices', portName, chosen.value, a) { ReorderedBelongs(slices', slices, portName, chosen.value, a); }
      }
    }
    MergeDetermined(m, slices, m', slices', portName);
  }

  // ---- targets ---------------------------------------------------------------------------------

  /** `lbAlgorithm` of `parseAnnotations`: names are compared exactly, anything else is round robin. */
  function ParseLbAlgorithm(annotation: Option<string>): (lb: Wire.LbPolicy)
    ensures RT.KnownPolicy(lb) && (lb.LeastConn? <==> annotation == Some("LeastConn"))
  {
    if annotation == Some("LeastConn") then Wire.LeastConn else Wire.RoundRobin
  }

  /** A backend: its slices, unless listing them failed, and the resolved port name. */
  datatype Backend = Backend(slices: Option<seq<Slice>>, portName: string)

  datatype RulePath = RulePath(path: string, pathType: PathTypeRef, backend: Option<Backend>)

  ghost predicate MergesTo(rp: RulePath, m: Merged) {
    rp.backend.Some? && rp.backend.value.slices.Some?
    && IsMerge(Some(m), rp.backend.value.slices.value, rp.backend.value.portName)
  }

  ghost predicate HasMerge(rp: RulePath) {
    exists m :: MergesTo(rp, m)
  }

  /** The endpoint that the rule path contributes. */
  ghost predicate Contributes(rp: RulePath, base: TargetEndpoint, te: TargetEndpoint) {
    exists m :: MergesTo(rp, m) && te == base.(port := m.port, addresses := m.addresses, pathType := rp.pathType)
  }

  /** `te` comes from the last of `paths` for `p` that has a port and an address. */
  ghost predicate FromLast(paths: seq<RulePath>, p: string, base: TargetEndpoint, te: TargetEndpoint) {
    exists i :: 0 <= i < |paths| && paths[i].path == p && Contributes(paths[i], base, te)
                && forall j :: i < j < |paths| && paths[j].path == p ==> !HasMerge(paths[j])
  }

  /** What the data plane needs of a target. */
  predicate IsServiceable(t: TargetProxy) {
    forall p :: p in t.paths ==> t.paths[p].addresses != [] && RT.KnownPolicy(t.paths[p].lbAlgorithm)
  }

  lemma FromLastStep(paths: seq<RulePath>, rp: RulePath, p: string, base: TargetEndpoint, te: TargetEndpoint)
    ensures if rp.path == p && HasMerge(rp) then Contributes(rp, base, te) ==> FromLast(paths + [rp], p, base, te)
            else FromLast(paths, p, base, te) ==> FromLast(paths + [rp], p, base, te)
  {
    var all := paths + [rp];
    if rp.path == p && HasMerge(rp) {
      if Contributes(rp, base, te) { assert all[|paths|] == rp; }
    } else if FromLast(paths, p, base, te) {
      var i :| 0 <= i < |paths| && paths[i].path == p && Contributes(paths[i], base, te)
               && forall j :: i < j < |paths| && paths[j].path == p ==> !HasMerge(paths[j]);
      assert all[i] == paths[i];
    }
  }

  ghost predicate PathsBuilt(found: map<string, TargetEndpoint>, paths: seq<RulePath>, base: TargetEndpoint) {
    && (forall p :: p in found ==> FromLast(paths, p, base, found[p]))
    && (forall j :: 0 <= j < |paths| && HasMerge(paths[j]) ==> paths[j].path in found)
  }

  /** One more rule path: it replaces its path's endpoint if it has one to give. */
  lemma PathsBuiltStep(
    found: map<string, TargetEndpoint>, paths: seq<RulePath>, rp: RulePath, base: TargetEndpoint,
    found': map<string, TargetEndpoint>)
    requires PathsBuilt(found, paths, base)
    requires if HasMerge(rp) then rp.path in found' && Contributes(rp, base, found'[rp.path])
                                  && found' == found[rp.path := found'[rp.path]]
             else found' == found
    ensures PathsBuilt(found', paths + [rp], base)
  {
    forall p | p in found' ensures FromLast(paths + [rp], p, base, found'[p]) {
      FromLastStep(paths, rp, p, base, found'[p]);
    }
    var all := paths + [rp];
    forall j | 0 <= j < |all| && HasMerge(all[j]) ensures all[j].path in found' {
      if j < |paths| { assert all[j] == paths[j]; }
    }
  }

  /** The body of the loop over the rule paths. */
  method ContributeOne(rp: RulePath, base: TargetEndpoint) returns (te: Option<TargetEndpoint>)
    ensures te.Some? <==> HasMerge(rp)
    ensures te.Some? ==> Contributes(rp, base, te.value) && te.value.addresses != []
                         && te.value.lbAlgorithm == base.lbAlgorithm
    ensures te.Some? ==>
              && var m, b := Merged(te.value.port, te.value.addresses), rp.backend.value;
              && MergedFrom(Some(m), b.slices.value, b.portName)
              && te.value == base.(port := m.port, addresses := m.addresses, pathType := rp.pathType)
  {
    te := None;
    if rp.backend.Some? && rp.backend.value.slices.Some? {
      var m := MergeSlices(rp.backend.value.slices.value, rp.backend.value.portName);
      NoMergeMeansNone(rp, m);
      if m.Some? {
        te := Some(base.(port := m.value.port, addresses := m.value.addresses, pathType := rp.pathType));
        assert MergesTo(rp, m.value);
      }
    }
  }

  /** `buildTargetFromRule`: a path is kept exactly when one of its rule paths has a port and an
      address, and the last such rule path wins. */
  method BuildTargetFromRule(host: string, paths: seq<RulePath>, base: TargetEndpoint, bundle: TlsSecret)
    returns (t: TargetProxy)
    ensures t.host == host && t.sni == bundle && PathsBuilt(t.paths, paths, base)
    ensures RT.KnownPolicy(base.lbAlgorithm) ==> IsServiceable(t)
  {
    var found: map<string, TargetEndpoint> := map[];
    for i := 0 to |paths|
      invariant PathsBuilt(found, paths[..i], base)
      invariant forall p :: p in found ==> found[p].addresses != [] && found[p].lbAlgorithm == base.lbAlgorithm
    {
      ghost var before := found;
      var te := ContributeOne(paths[i], base);
      if te.Some? {
        found := found[paths[i].path := te.value];
      }
      PathsBuiltStep(before, paths[..i], paths[i], base, found);
      assert paths[..i + 1] == paths[..i] + [paths[i]];
    }
    assert paths[..|paths|] == paths;
    t := TargetProxy(host, found, bundle);
  }

  lemma NoMergeMeansNone(rp: RulePath, m: Option<Merged>)
    requires rp.backend.Some? && rp.backend.value.slices.Some?
    requires IsMerge(m, rp.backend.value.slices.value, rp.backend.value.portName)
    ensures HasMerge(rp) <==> m.Some?
  {
    var slices, portName := rp.backend.value.slices.value, rp.backend.value.portName;
    if m.Some? { assert MergesTo(rp, m.value); }
    if HasMerge(rp) {
      var m' :| MergesTo(rp, m');
      MergeDetermined(m, slices, Some(m'), slices, portName);
    }
  }

  lemma ServiceableEntries(t: TargetProxy)
    requires IsServiceable(t)
    ensures EndToEnd.Serviceable(AllPaths(t)) && EndToEnd.Addressed(AllPaths(t))
  {
    forall e | e in AllPaths(t) ensures e.endpoint.addresses != [] && RT.KnownPolicy(e.endpoint.lbAlgorithm) {
      assert e.path in t.paths && e.endpoint == t.paths[e.path];
    }
  }

  /** Targets made by the rule builder meet the needs of the routing theorem. */
  lemma {:induction false} TargetsAreServiceable(ts: seq<TargetProxy>)
    requires forall t :: t in ts ==> IsServiceable(t)
    ensures EndToEnd.Serviceable(EntryBag(ts)) && EndToEnd.Addressed(EntryBag(ts))
  {
    if ts != [] {
      var n := |ts| - 1;
      assert forall t :: t in ts[..n] ==> t in ts;
      TargetsAreServiceable(ts[..n]);
      ServiceableEntries(ts[n]);
      assert EntryBag(ts) == EntryBag(ts[..n]) + AllPaths(ts[n]);
    }
  }
}
