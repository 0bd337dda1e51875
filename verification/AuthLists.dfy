/** The lists of the external-auth configuration: `parseCSVList` in the control plane,
    `normalize_list` in the data plane, the loop that copies auth response headers, and the
    skip-path test. Strings here hold characters, not bytes. */
module AuthLists {
  import opened Text
  import opened Headers

  // ---- removing duplicates ---------------------------------------------------------------

  ghost predicate Equivalence<T(!new)>(same: (T, T) -> bool) {
    && (forall a :: same(a, a))
    && (forall a, b :: same(a, b) ==> same(b, a))
    && (forall a, b, c :: same(a, b) && same(b, c) ==> same(a, c))
  }

  predicate Represented<T>(s: seq<T>, v: T, same: (T, T) -> bool) {
    exists k :: 0 <= k < |s| && same(s[k], v)
  }

  /** Keeps each element that nothing kept before it is the same as. */
  function Dedup<T>(s: seq<T>, same: (T, T) -> bool): (r: seq<T>)
    ensures forall v :: v in r ==> v in s
  {
    if s == [] then []
    else
      var done := Dedup(s[..|s| - 1], same);
      var v := s[|s| - 1];
      assert s == s[..|s| - 1] + [v];
      if Represented(done, v, same) then done else done + [v]
  }

  lemma {:induction false} DedupCovers<T(!new)>(s: seq<T>, same: (T, T) -> bool, v: T)
    requires Equivalence(same)
    ensures Represented(Dedup(s, same), v, same) <==> Represented(s, v, same)
  {
    if s != [] {
      var n := |s| - 1;
      var init, last := s[..n], s[n];
      var done := Dedup(init, same);
      DedupCovers(init, same, v);
      RepresentedStep(init, last, v, same);
      RepresentedStep(done, last, v, same);
      assert s == init + [last];
      if Represented(done, last, same) && same(last, v) {
        var k :| 0 <= k < |done| && same(done[k], last);
        assert same(done[k], v);
      }
    }
  }

  lemma RepresentedStep<T>(s: seq<T>, x: T, v: T, same: (T, T) -> bool)
    ensures Represented(s + [x], v, same) <==> Represented(s, v, same) || same(x, v)
  {
    if Represented(s, v, same) {
      var k :| 0 <= k < |s| && same(s[k], v);
      assert (s + [x])[k] == s[k];
    }
    if same(x, v) { assert (s + [x])[|s|] == x; }
  }

  predicate PairwiseDifferent<T>(s: seq<T>, same: (T, T) -> bool) {
    forall i, j :: 0 <= i < j < |s| ==> !same(s[i], s[j])
  }

  lemma {:induction false} DedupIsPairwiseDifferent<T>(s: seq<T>, same: (T, T) -> bool)
    ensures PairwiseDifferent(Dedup(s, same), same)
  {
    if s != [] {
      DedupIsPairwiseDifferent(s[..|s| - 1], same);
    }
  }

  lemma {:induction false} DedupIsFixed<T>(s: seq<T>, same: (T, T) -> bool)
    requires PairwiseDifferent(s, same)
    ensures Dedup(s, same) == s
  {
    if s != [] {
      var n := |s| - 1;
      DedupIsFixed(s[..n], same);
      assert s == s[..n] + [s[n]];
    }
  }

  /** Position `p` holds the first element of its class. */
  ghost predicate FirstOfClass<T>(s: seq<T>, same: (T, T) -> bool, p: nat) {
    p < |s| && forall j :: 0 <= j < p ==> !same(s[j], s[p])
  }

  lemma FirstOfClassStep<T>(s: seq<T>, v: T, same: (T, T) -> bool, i: nat)
    ensures i < |s| ==> (FirstOfClass(s + [v], same, i) <==> FirstOfClass(s, same, i))
    ensures FirstOfClass(s + [v], same, |s|) <==> !Represented(s, v, same)
  {
    var t := s + [v];
    assert t[|s|] == v;
    assert forall j :: 0 <= j < |s| ==> t[j] == s[j];
  }

  /** `ps` are increasing positions of first elements of `s`, and `r` lists what they hold. */
  ghost predicate ListsFirsts<T>(r: seq<T>, s: seq<T>, same: (T, T) -> bool, ps: seq<nat>) {
    && |ps| == |r|
    && (forall i, j :: 0 <= i < j < |ps| ==> ps[i] < ps[j])
    && (forall k :: 0 <= k < |ps| ==> FirstOfClass(s, same, ps[k]) && r[k] == s[ps[k]])
  }

  lemma ListsFirstsOfLonger<T>(r: seq<T>, s: seq<T>, x: T, same: (T, T) -> bool, ps: seq<nat>)
    requires ListsFirsts(r, s, same, ps)
    ensures ListsFirsts(r, s + [x], same, ps)
  {
    forall k | 0 <= k < |ps| ensures FirstOfClass(s + [x], same, ps[k]) && r[k] == (s + [x])[ps[k]] {
      assert FirstOfClass(s, same, ps[k]);
      assert forall j :: 0 <= j <= ps[k] ==> (s + [x])[j] == s[j];
    }
  }

  /** The result lists the first element of each class, in order. */
  lemma {:induction false} DedupKeepsFirsts<T(!new)>(s: seq<T>, same: (T, T) -> bool) returns (ps: seq<nat>)
    requires Equivalence(same)
    ensures ListsFirsts(Dedup(s, same), s, same, ps)
  {
    if s == [] {
      ps := [];
    } else {
      var n := |s| - 1;
      var init := s[..n];
      ps := DedupKeepsFirsts(init, same);
      ListsFirstsOfLonger(Dedup(init, same), init, s[n], same, ps);
      assert s == init + [s[n]];
      if !Represented(Dedup(init, same), s[n], same) {
        DedupCovers(init, same, s[n]);
        assert forall j :: 0 <= j < n ==> s[j] == init[j];
        assert FirstOfClass(s, same, n);
        ps := ps + [n];
      }
    }
  }

  // ---- normalisation ---------------------------------------------------------------------

  /** The trimmed items that are not empty, duplicates included. */
  function Entries(items: seq<string>): seq<string> {
    if items == [] then []
    else
      var v := Trim(items[|items| - 1]);
      Entries(items[..|items| - 1]) + if v == "" then [] else [v]
  }

  function Normalize(items: seq<string>): seq<string> {
    Dedup(Entries(items), SameIgnoringCase)
  }

  /** `out.iter().any(|x| x.eq_ignore_ascii_case(v))` */
  method HasVariant(out: seq<string>, v: string) returns (found: bool)
    ensures found <==> Represented(out, v, SameIgnoringCase)
  {
    found := false;
    for k := 0 to |out|
      invariant found <==> exists j :: 0 <= j < k && SameIgnoringCase(out[j], v)
    {
      if SameIgnoringCase(out[k], v) { found := true; }
    }
  }

  method NormalizeList(items: seq<string>) returns (out: seq<string>)
    ensures out == Normalize(items)
  {
    out := [];
    for i := 0 to |items|
      invariant out == Normalize(items[..i])
    {
      NormalizeUpTo(items, i);
      var v := Trim(items[i]);
      if v == "" { continue; }
      var found := HasVariant(out, v);
      if !found {
        out := out + [v];
      }
    }
    assert items[..|items|] == items;
  }

  lemma NormalizeUpTo(items: seq<string>, i: nat)
    requires i < |items|
    ensures var v, done := Trim(items[i]), Normalize(items[..i]);
            Normalize(items[..i + 1]) == if v == "" || Represented(done, v, SameIgnoringCase) then done else done + [v]
  {
    assert items[..i + 1] == items[..i] + [items[i]];
    NormalizeStep(items[..i], items[i]);
  }

  ghost predicate TrimsTo(items: seq<string>, v: string) {
    exists i :: 0 <= i < |items| && Trim(items[i]) == v
  }

  lemma TrimsToStep(items: seq<string>, x: string, v: string)
    ensures TrimsTo(items + [x], v) <==> TrimsTo(items, v) || Trim(x) == v
  {
    if TrimsTo(items, v) {
      var i :| 0 <= i < |items| && Trim(items[i]) == v;
      assert (items + [x])[i] == items[i];
    }
    if Trim(x) == v { assert (items + [x])[|items|] == x; }
  }

  lemma {:induction false} EntriesAre(items: seq<string>, v: string)
    ensures v in Entries(items) <==> v != "" && TrimsTo(items, v)
  {
    if items != [] {
      var n := |items| - 1;
      EntriesAre(items[..n], v);
      TrimsToStep(items[..n], items[n], v);
      assert items == items[..n] + [items[n]];
    }
  }

  lemma {:induction false} EntriesFixed(list: seq<string>)
    requires forall v :: v in list ==> v != "" && Trim(v) == v
    ensures Entries(list) == list
  {
    if list != [] {
      var init, x := list[..|list| - 1], list[|list| - 1];
      assert init + [x] == list;
      assert x in list;
      forall v | v in init ensures v in list { }
      EntriesFixed(init);
    }
  }

  /** Entries are trimmed, not empty, and no two of them agree ignoring case; every non-empty
      trimmed item is represented. */
  lemma NormalizeIsNormal(items: seq<string>)
    ensures forall v :: v in Normalize(items) ==> v != "" && Trim(v) == v
    ensures PairwiseDifferent(Normalize(items), SameIgnoringCase)
    ensures forall v :: v in Entries(items) ==> Represented(Normalize(items), v, SameIgnoringCase)
  {
    forall v | v in Normalize(items) ensures v != "" && Trim(v) == v {
      EntriesAre(items, v);
      var i :| 0 <= i < |items| && Trim(items[i]) == v;
      TrimIdempotent(items[i]);
    }
    DedupIsPairwiseDifferent(Entries(items), SameIgnoringCase);
    forall v | v in Entries(items) ensures Represented(Normalize(items), v, SameIgnoringCase) {
      var i :| 0 <= i < |Entries(items)| && Entries(items)[i] == v;
      DedupCovers(Entries(items), SameIgnoringCase, v);
    }
  }

  lemma NormalizeIdempotent(items: seq<string>)
    ensures Normalize(Normalize(items)) == Normalize(items)
  {
    NormalizeIsNormal(items);
    EntriesFixed(Normalize(items));
    DedupIsFixed(Normalize(items), SameIgnoringCase);
  }

  /** Order is preserved: what is kept is the first entry of each class, at increasing positions. */
  lemma NormalizeKeepsOrder(items: seq<string>) returns (ps: seq<nat>)
    ensures ListsFirsts(Normalize(items), Entries(items), SameIgnoringCase, ps)
  {
    ps := DedupKeepsFirsts(Entries(items), SameIgnoringCase);
  }

  lemma NormalizeStep(items: seq<string>, x: string)
    ensures Normalize(items + [x]) ==
            if Trim(x) == "" || Represented(Normalize(items), Trim(x), SameIgnoringCase) then Normalize(items)
            else Normalize(items) + [Trim(x)]
  {
    assert Entries(items) + [] == Entries(items);
  }

  /** Item `i` is kept: it is not blank, and nothing before it trims to the same ignoring case. */
  ghost predicate Kept(items: seq<string>, i: nat) {
    i < |items| && Trim(items[i]) != "" && FirstOfClass(TrimAll(items), SameIgnoringCase, i)
  }

  function TrimAll(items: seq<string>): seq<string> {
    seq(|items|, i requires 0 <= i < |items| => Trim(items[i]))
  }

  lemma EntryIsTrimmed(items: seq<string>, v: string)
    requires Represented(Entries(items), v, SameIgnoringCase)
    ensures Represented(TrimAll(items), v, SameIgnoringCase)
  {
    var all := Entries(items);
    var k :| 0 <= k < |all| && SameIgnoringCase(all[k], v);
    EntriesAre(items, all[k]);
    var i :| 0 <= i < |items| && Trim(items[i]) == all[k];
    assert SameIgnoringCase(TrimAll(items)[i], v);
  }

  lemma TrimmedIsEntry(items: seq<string>, v: string)
    requires v != "" && Represented(TrimAll(items), v, SameIgnoringCase)
    ensures Represented(Entries(items), v, SameIgnoringCase)
  {
    var all, trim := Entries(items), TrimAll(items);
    var i :| 0 <= i < |trim| && SameIgnoringCase(trim[i], v);
    assert |trim[i]| == |Lower(trim[i])| == |Lower(v)| == |v|;
    EntriesAre(items, trim[i]);
    var k :| 0 <= k < |all| && all[k] == trim[i];
    assert SameIgnoringCase(all[k], v);
  }

  lemma RepresentedItems(items: seq<string>, v: string)
    requires v != ""
    ensures Represented(Normalize(items), v, SameIgnoringCase) <==> Represented(TrimAll(items), v, SameIgnoringCase)
  {
    DedupCovers(Entries(items), SameIgnoringCase, v);
    if Represented(Entries(items), v, SameIgnoringCase) { EntryIsTrimmed(items, v); }
    if Represented(TrimAll(items), v, SameIgnoringCase) { TrimmedIsEntry(items, v); }
  }

  lemma KeptStep(items: seq<string>, x: string, i: nat)
    requires i <= |items|
    ensures i < |items| ==> (Kept(items + [x], i) <==> Kept(items, i))
    ensures Kept(items + [x], |items|) <==>
            Trim(x) != "" && !Represented(Normalize(items), Trim(x), SameIgnoringCase)
  {
    assert TrimAll(items + [x]) == TrimAll(items) + [Trim(x)];
    FirstOfClassStep(TrimAll(items), Trim(x), SameIgnoringCase, i);
    if Trim(x) != "" { RepresentedItems(items, Trim(x)); }
  }

  ghost predicate KeptAs(items: seq<string>, v: string) {
    exists i: nat :: Kept(items, i) && Trim(items[i]) == v
  }

  lemma KeptAsStep(items: seq<string>, x: string, v: string)
    ensures KeptAs(items + [x], v) <==>
            KeptAs(items, v) || (v == Trim(x) != "" && !Represented(Normalize(items), v, SameIgnoringCase))
  {
    var all := items + [x];
    if KeptAs(items, v) {
      var i: nat :| Kept(items, i) && Trim(items[i]) == v;
      KeptStep(items, x, i);
      assert all[i] == items[i];
    }
    KeptStep(items, x, |items|);
    assert all[|items|] == x;
    if KeptAs(all, v) {
      var i: nat :| Kept(all, i) && Trim(all[i]) == v;
      KeptStep(items, x, i);
    }
  }

  /** The normalised list holds exactly the kept items, trimmed. */
  lemma {:induction false} NormalizeHolds(items: seq<string>, v: string)
    ensures v in Normalize(items) <==> KeptAs(items, v)
  {
    if items != [] {
      var init, x := items[..|items| - 1], items[|items| - 1];
      assert items == init + [x];
      NormalizeHolds(init, v);
      NormalizeStep(init, x);
      KeptAsStep(init, x, v);
    }
  }

  // ---- copying auth response headers --------------------------------------------------------

  /** A character of a token in the sense of section 5.6.2 of RFC 9110. */
  predicate IsTokenChar(c: char) {
    'A' <= c <= 'Z' || 'a' <= c <= 'z' || '0' <= c <= '9' || c in "!#$%&'*+-.^_`|~"
  }

  /** The token characters of section 5.6.2 of RFC 9110. */
  lemma TokenChars(c: char)
    ensures IsTokenChar(c) <==> c in CAPITALS || c in SMALL || c in DIGITS || c in "!#$%&'*+-.^_`|~"
  {
    LettersIff(c);
  }

  predicate IsToken(s: string) {
    0 < |s| <= 65535 && forall i :: 0 <= i < |s| ==> IsTokenChar(s[i])
  }

  /** A name is accepted if it has 1 to 65,535 characters, all of them token characters. */
  lemma ParsesIff(s: string)
    ensures ParseName(s) != None <==>
            && 1 <= |s| <= 0xFFFF
            && forall i :: 0 <= i < |s| ==>
                 s[i] in CAPITALS || s[i] in SMALL || s[i] in DIGITS || s[i] in "!#$%&'*+-.^_`|~"
  {
    forall i | 0 <= i < |s|
      ensures IsTokenChar(s[i]) <==> s[i] in CAPITALS || s[i] in SMALL || s[i] in DIGITS || s[i] in "!#$%&'*+-.^_`|~"
    {
      TokenChars(s[i]);
    }
  }

  /** `HeaderName::from_bytes`: a token, in lowercase. */
  function ParseName(s: string): Option<string> {
    if IsToken(s) then Some(Lower(s)) else None
  }

  lemma LowerKeepsTokens(s: string)
    ensures IsToken(s) <==> IsToken(Lower(s))
  {
    assert forall i :: 0 <= i < |s| ==> Lower(s)[i] == LowerChar(s[i]);
    assert forall i :: 0 <= i < |s| ==> (IsTokenChar(s[i]) <==> IsTokenChar(Lower(s)[i]));
  }

  lemma ParseIgnoresCase(a: string, b: string)
    requires SameIgnoringCase(a, b)
    ensures ParseName(a) == ParseName(b)
  {
    LowerKeepsTokens(a);
    LowerKeepsTokens(b);
  }

  /** `name` selects a header that the response carries. */
  predicate Copies(name: string, response: HeaderMap) {
    ParseName(name).Some? && ParseName(name).value in response && response[ParseName(name).value] != []
  }

  ghost function CopiedNames(names: seq<string>, response: HeaderMap): set<string> {
    set i | 0 <= i < |names| && Copies(names[i], response) :: ParseName(names[i]).value
  }

  /** The request headers after the copy: each selected header has the response's first value. */
  ghost predicate IsCopy(out: HeaderMap, request: HeaderMap, response: HeaderMap, names: seq<string>) {
    && out.Keys == request.Keys + CopiedNames(names, response)
    && (forall h :: h in out ==>
          if h in CopiedNames(names, response) then h in response && response[h] != [] && out[h] == [response[h][0]]
          else h in request && out[h] == request[h])
  }

  lemma CopiedNamesStep(names: seq<string>, response: HeaderMap, i: nat)
    requires i < |names|
    ensures CopiedNames(names[..i + 1], response) ==
            CopiedNames(names[..i], response) + if Copies(names[i], response) then {ParseName(names[i]).value} else {}
  {
    var a, b := CopiedNames(names[..i + 1], response), CopiedNames(names[..i], response);
    forall h | h in b ensures h in a {
      var j :| 0 <= j < i && Copies(names[..i][j], response) && ParseName(names[..i][j]).value == h;
      assert names[..i + 1][j] == names[..i][j];
    }
    if Copies(names[i], response) { assert names[..i + 1][i] == names[i]; }
    forall h | h in a ensures h in b || (Copies(names[i], response) && h == ParseName(names[i]).value) {
      var j :| 0 <= j < i + 1 && Copies(names[..i + 1][j], response) && ParseName(names[..i + 1][j]).value == h;
      if j < i { assert names[..i][j] == names[..i + 1][j]; }
    }
  }

  /** The loop after a successful auth subrequest. */
  method CopyAuthHeaders(request: HeaderMap, response: HeaderMap, names: seq<string>) returns (out: HeaderMap)
    ensures IsCopy(out, request, response, names)
  {
    out := request;
    for i := 0 to |names|
      invariant IsCopy(out, request, response, names[..i])
    {
      CopiedNamesStep(names, response, i);
      var hn := ParseName(names[i]);
      if hn.Some? {
        if hn.value in response && response[hn.value] != [] {
          out := out[hn.value := [response[hn.value][0]]];
        }
      }
    }
    assert names[..|names|] == names;
  }

  /** Normalising the list of names changes no outcome of the copy loop. */
  ghost predicate CopiesUnchanged(items: seq<string>) {
    forall request, response, out, out' ::
      IsCopy(out, request, response, Normalize(items)) && IsCopy(out', request, response, items) ==> out == out'
  }

  ghost predicate HasTokenTwin(items: seq<string>, v: string) {
    exists j :: 0 <= j < |items| && IsToken(items[j]) && SameIgnoringCase(items[j], v)
  }

  /** Every item that trims to a token agrees, ignoring case, with an item that is one untrimmed. */
  ghost predicate TokensUntrimmed(items: seq<string>) {
    forall i :: 0 <= i < |items| && IsToken(Trim(items[i])) ==> HasTokenTwin(items, Trim(items[i]))
  }

  lemma TokensAreTrimmed(s: string)
    requires IsToken(s)
    ensures Trim(s) == s
  {
    assert forall c :: IsTokenChar(c) ==> !IsWhitespace(c);
  }

  lemma NormalizedCopies(items: seq<string>, j: nat, response: HeaderMap)
    requires j < |items| && IsToken(Trim(items[j])) && Copies(Trim(items[j]), response)
    ensures ParseName(Trim(items[j])).value in CopiedNames(Normalize(items), response)
  {
    var norm, v := Normalize(items), Trim(items[j]);
    NormalizeIsNormal(items);
    EntriesAre(items, v);
    var k :| 0 <= k < |norm| && SameIgnoringCase(norm[k], v);
    ParseIgnoresCase(norm[k], v);
    assert Copies(norm[k], response);
  }

  lemma UntrimmedTokensSuffice(items: seq<string>, response: HeaderMap)
    requires TokensUntrimmed(items)
    ensures CopiedNames(Normalize(items), response) == CopiedNames(items, response)
  {
    var norm := Normalize(items);
    forall h | h in CopiedNames(norm, response) ensures h in CopiedNames(items, response) {
      var k :| 0 <= k < |norm| && Copies(norm[k], response) && ParseName(norm[k]).value == h;
      EntriesAre(items, norm[k]);
      var i :| 0 <= i < |items| && Trim(items[i]) == norm[k];
    }
    forall h | h in CopiedNames(items, response) ensures h in CopiedNames(norm, response) {
      var j :| 0 <= j < |items| && Copies(items[j], response) && ParseName(items[j]).value == h;
      TokensAreTrimmed(items[j]);
      NormalizedCopies(items, j, response);
    }
  }

  /** A response with a single header tells a list from its normalised form. */
  lemma TrimmedTokenIsCopied(items: seq<string>, i: nat)
    requires i < |items| && IsToken(Trim(items[i])) && !HasTokenTwin(items, Trim(items[i]))
    ensures !CopiesUnchanged(items)
  {
    var v := Trim(items[i]);
    var response: HeaderMap := map[Lower(v) := ["x"]];
    assert Copies(v, response);
    NormalizedCopies(items, i, response);
    assert CopiedNames(Normalize(items), response) == {Lower(v)};
    forall j | 0 <= j < |items| ensures !Copies(items[j], response) {
      if Copies(items[j], response) { assert SameIgnoringCase(items[j], v); }
    }
    assert CopiedNames(items, response) == {};
    assert IsCopy(response, map[], response, Normalize(items));
    assert IsCopy(map[], map[], response, items);
  }

  /** Normalising the names changes no copy exactly when every item that trims to a token has a
      twin, ignoring case, that needs no trimming. */
  lemma CopiesUnchangedIff(items: seq<string>)
    ensures CopiesUnchanged(items) <==> TokensUntrimmed(items)
  {
    if TokensUntrimmed(items) {
      forall request, response, out, out' |
        IsCopy(out, request, response, Normalize(items)) && IsCopy(out', request, response, items)
        ensures out == out'
      {
        UntrimmedTokensSuffice(items, response);
        assert out.Keys == out'.Keys;
      }
    } else {
      var i :| 0 <= i < |items| && IsToken(Trim(items[i])) && !HasTokenTwin(items, Trim(items[i]));
      TrimmedTokenIsCopied(items, i);
    }
  }

  /** A padded name alone: the given list copies nothing, the normalised one does. */
  lemma PaddedNameIsCopied()
    ensures !CopiesUnchanged([" a"])
  {
    assert TrimStart(" a") == "a" by { assert " a"[1..] == "a"; }
    assert Trim([" a"][0]) == "a";
    assert IsToken("a");
    assert !IsTokenChar(" a"[0]);
    TrimmedTokenIsCopied([" a"], 0);
  }

  // ---- skip paths -----------------------------------------------------------------------------

  /** `skip_paths.iter().any(|p| path.starts_with(p))` */
  predicate Skips(paths: seq<string>, path: string) {
    exists k :: 0 <= k < |paths| && IsPrefix(paths[k], path)
  }

  /** Normalising the list of paths changes no skip decision. */
  ghost predicate DecisionsUnchanged(items: seq<string>) {
    DecideAlike(Normalize(items), items)
  }

  ghost predicate DecideAlike(a: seq<string>, b: seq<string>) {
    forall path :: Skips(a, path) <==> Skips(b, path)
  }

  /** The decision: the path is one of the listed ones with something behind it. */
  lemma SkipsIff(paths: seq<string>, path: string)
    ensures Skips(paths, path) <==> exists k, rest :: 0 <= k < |paths| && path == paths[k] + rest
  {
    forall k | 0 <= k < |paths| ensures IsPrefix(paths[k], path) <==> exists rest :: path == paths[k] + rest {
      PrefixIff(paths[k], path);
    }
  }

  /** Every element of `b` begins with one of `a`. */
  ghost predicate AllBegin(a: seq<string>, b: seq<string>) {
    forall i :: 0 <= i < |b| ==> Skips(a, b[i])
  }

  ghost predicate StartsKept(items: seq<string>, path: string) {
    exists k: nat :: Kept(items, k) && IsPrefix(Trim(items[k]), path)
  }

  /** Every item begins with a kept one, and every kept one, trimmed, begins with an item. */
  ghost predicate StartsAgree(items: seq<string>) {
    && (forall i :: 0 <= i < |items| ==> StartsKept(items, items[i]))
    && (forall k: nat :: Kept(items, k) ==> Skips(items, Trim(items[k])))
  }

  lemma NormalizedSkips(items: seq<string>, path: string)
    ensures Skips(Normalize(items), path) <==> StartsKept(items, path)
  {
    var norm := Normalize(items);
    if Skips(norm, path) {
      var k :| 0 <= k < |norm| && IsPrefix(norm[k], path);
      NormalizeHolds(items, norm[k]);
      var i: nat :| Kept(items, i) && Trim(items[i]) == norm[k];
    }
    if StartsKept(items, path) {
      var i: nat :| Kept(items, i) && IsPrefix(Trim(items[i]), path);
      NormalizeHolds(items, Trim(items[i]));
      var k :| 0 <= k < |norm| && norm[k] == Trim(items[i]);
    }
  }

  lemma SkipsChain(a: seq<string>, b: seq<string>, path: string)
    requires AllBegin(a, b) && Skips(b, path)
    ensures Skips(a, path)
  {
    var i :| 0 <= i < |b| && IsPrefix(b[i], path);
    var k :| 0 <= k < |a| && IsPrefix(a[k], b[i]);
  }

  /** Two lists decide alike exactly when each begins the elements of the other. */
  lemma DecideAlikeIff(a: seq<string>, b: seq<string>)
    ensures DecideAlike(a, b) <==> AllBegin(a, b) && AllBegin(b, a)
  {
    if DecideAlike(a, b) {
      forall i | 0 <= i < |b| ensures Skips(a, b[i]) { assert IsPrefix(b[i], b[i]); }
      forall i | 0 <= i < |a| ensures Skips(b, a[i]) { assert IsPrefix(a[i], a[i]); }
    }
    if AllBegin(a, b) && AllBegin(b, a) {
      forall path ensures Skips(a, path) <==> Skips(b, path) {
        if Skips(b, path) { SkipsChain(a, b, path); }
        if Skips(a, path) { SkipsChain(b, a, path); }
      }
    }
  }

  lemma KeptBeginWithItems(items: seq<string>)
    ensures AllBegin(items, Normalize(items)) <==> forall k: nat :: Kept(items, k) ==> Skips(items, Trim(items[k]))
  {
    var norm := Normalize(items);
    if forall k: nat :: Kept(items, k) ==> Skips(items, Trim(items[k])) {
      forall i | 0 <= i < |norm| ensures Skips(items, norm[i]) {
        NormalizeHolds(items, norm[i]);
        var k: nat :| Kept(items, k) && Trim(items[k]) == norm[i];
      }
    }
    if AllBegin(items, norm) {
      forall k: nat | Kept(items, k) ensures Skips(items, Trim(items[k])) {
        NormalizeHolds(items, Trim(items[k]));
        var i :| 0 <= i < |norm| && norm[i] == Trim(items[k]);
      }
    }
  }

  lemma ItemsBeginWithKept(items: seq<string>)
    ensures AllBegin(Normalize(items), items) <==> forall i :: 0 <= i < |items| ==> StartsKept(items, items[i])
  {
    forall i | 0 <= i < |items| ensures Skips(Normalize(items), items[i]) <==> StartsKept(items, items[i]) {
      NormalizedSkips(items, items[i]);
    }
  }

  /** Normalisation changes no skip decision exactly when every item begins with a kept one and
      every kept one begins with an item. */
  lemma SkipDecisionsKeptIff(items: seq<string>)
    ensures DecisionsUnchanged(items) <==> StartsAgree(items)
  {
    DecideAlikeIff(Normalize(items), items);
    KeptBeginWithItems(items);
    ItemsBeginWithKept(items);
  }

  /** Skip paths that differ in case alone: the second is dropped, and its requests with it. */
  lemma CaseVariantIsDropped()
    ensures !DecisionsUnchanged(["/API", "/api"])
  {
    var items := ["/API", "/api"];
    assert TrimAll(items)[0] == "/API" && TrimAll(items)[1] == "/api";
    assert Lower("/API") == "/api" == Lower("/api");
    assert !Kept(items, 1) by { assert SameIgnoringCase(TrimAll(items)[0], TrimAll(items)[1]); }
    assert items[1][1] == 'a' && items[0][1] == 'A';
    assert !StartsKept(items, items[1]);
    SkipDecisionsKeptIff(items);
  }

  /** An empty item skips every path; the normalised list has no such item. */
  lemma EmptyItemIsDropped()
    ensures !DecisionsUnchanged([""])
  {
    assert Trim([""][0]) == "";
    assert !StartsKept([""], [""][0]);
    SkipDecisionsKeptIff([""]);
  }

  // ---- the lists that the control plane sends ---------------------------------------------------

  /** `strings.Split(s, ",")`. */
  function Fields(s: string): (fs: seq<string>)
    ensures fs != []
  {
    if s == [] then [""]
    else
      var fs := Fields(s[1..]);
      if s[0] == ',' then [""] + fs else [[s[0]] + fs[0]] + fs[1..]
  }

  function Join(fs: seq<string>): string {
    if fs == [] then "" else if |fs| == 1 then fs[0] else fs[0] + "," + Join(fs[1..])
  }

  predicate NoComma(f: string) {
    ',' !in f
  }

  lemma JoinLongerField(c: char, fs: seq<string>)
    requires fs != []
    ensures Join([[c] + fs[0]] + fs[1..]) == [c] + Join(fs)
  {
    var gs := [[c] + fs[0]] + fs[1..];
    assert gs[1..] == fs[1..];
    if |fs| > 1 {
      assert ([c] + fs[0]) + "," + Join(fs[1..]) == [c] + (fs[0] + "," + Join(fs[1..]));
    }
  }

  /** Joined by commas, the fields give back the string. */
  lemma {:induction false} FieldsJoin(s: string)
    ensures Join(Fields(s)) == s
  {
    if s != [] {
      var fs := Fields(s[1..]);
      FieldsJoin(s[1..]);
      if s[0] == ',' {
        assert ([""] + fs)[1..] == fs;
      } else {
        JoinLongerField(s[0], fs);
      }
    }
  }

  lemma {:induction false} FieldsHoldNoComma(s: string)
    ensures forall f :: f in Fields(s) ==> NoComma(f)
  {
    if s != [] {
      FieldsHoldNoComma(s[1..]);
      assert Fields(s[1..])[0] in Fields(s[1..]);
    }
  }

  lemma {:induction false} FieldsOfOne(f: string)
    requires NoComma(f)
    ensures Fields(f) == [f]
  {
    if f != [] {
      assert NoComma(f[1..]);
      FieldsOfOne(f[1..]);
      assert f == [f[0]] + f[1..];
    }
  }

  lemma {:induction false} FieldsCons(f: string, s: string)
    requires NoComma(f)
    ensures Fields(f + "," + s) == [f] + Fields(s)
    decreases |f|
  {
    var t := f + "," + s;
    if f == [] {
      assert t[1..] == s;
    } else {
      assert t[0] == f[0] && t[1..] == f[1..] + "," + s;
      FieldsCons(f[1..], s);
      assert ([f[1..]] + Fields(s))[1..] == Fields(s);
      assert [f[0]] + f[1..] == f;
    }
  }

  /** Splitting undoes joining. */
  lemma {:induction false} JoinFields(fs: seq<string>)
    requires fs != [] && forall f :: f in fs ==> NoComma(f)
    ensures Fields(Join(fs)) == fs
  {
    assert fs[0] in fs;
    if |fs| == 1 {
      FieldsOfOne(fs[0]);
    } else {
      JoinFields(fs[1..]);
      FieldsCons(fs[0], Join(fs[1..]));
      assert [fs[0]] + fs[1..] == fs;
    }
  }

  /** The fields are the one way to cut the string at its commas. */
  lemma FieldsIff(s: string, fs: seq<string>)
    ensures fs == Fields(s) <==> fs != [] && Join(fs) == s && forall f :: f in fs ==> NoComma(f)
  {
    FieldsJoin(s);
    FieldsHoldNoComma(s);
    if fs != [] && forall f :: f in fs ==> NoComma(f) {
      JoinFields(fs);
    }
  }

  predicate Equal(a: string, b: string) {
    a == b
  }

  /** The trimmed parts that are not empty, each once, in order of first occurrence. */
  function Unique(parts: seq<string>): seq<string> {
    Dedup(Entries(parts), Equal)
  }

  function Parsed(s: string): seq<string> {
    Unique(Fields(s))
  }

  lemma UniqueStep(parts: seq<string>, x: string)
    ensures Unique(parts + [x]) == if Trim(x) == "" || Trim(x) in Unique(parts) then Unique(parts) else Unique(parts) + [Trim(x)]
  {
    var v, done := Trim(x), Unique(parts);
    assert Entries(parts) + [] == Entries(parts);
    assert Represented(done, v, Equal) <==> v in done by {
      if v in done { var k :| 0 <= k < |done| && done[k] == v; assert Equal(done[k], v); }
    }
  }

  /** The loop over the parts. */
  method KeepUnique(parts: seq<string>) returns (out: seq<string>)
    ensures out == Unique(parts)
  {
    var seen: set<string> := {};
    out := [];
    for i := 0 to |parts|
      invariant out == Unique(parts[..i])
      invariant forall v :: v in seen <==> v in out
    {
      UniqueUpTo(parts, i);
      var v := Trim(parts[i]);
      if v == "" { continue; }
      if v in seen { continue; }
      seen := seen + {v};
      out := out + [v];
    }
    assert parts[..|parts|] == parts;
  }

  lemma UniqueUpTo(parts: seq<string>, i: nat)
    requires i < |parts|
    ensures var v, done := Trim(parts[i]), Unique(parts[..i]);
            Unique(parts[..i + 1]) == if v == "" || v in done then done else done + [v]
  {
    assert parts[..i + 1] == parts[..i] + [parts[i]];
    UniqueStep(parts[..i], parts[i]);
  }

  method ParseCsvList(s: string) returns (out: seq<string>)
    ensures out == Parsed(s)
  {
    var parts := Fields(s);
    out := KeepUnique(parts);
  }

  lemma EqualIsEquivalence()
    ensures Equivalence(Equal)
  {
  }

  /** What `parseCSVList` keeps is trimmed, not empty and without duplicates, and nothing that is
      not blank gets lost. */
  lemma UniqueIsClean(parts: seq<string>, v: string)
    ensures v in Unique(parts) <==> v != "" && TrimsTo(parts, v)
    ensures v in Unique(parts) ==> Trim(v) == v
    ensures PairwiseDifferent(Unique(parts), Equal)
  {
    var all, kept := Entries(parts), Unique(parts);
    EntriesAre(parts, v);
    EqualIsEquivalence();
    DedupCovers(all, Equal, v);
    DedupIsPairwiseDifferent(all, Equal);
    if v in all {
      var i :| 0 <= i < |parts| && Trim(parts[i]) == v;
      TrimIdempotent(parts[i]);
      var j :| 0 <= j < |all| && all[j] == v;
      assert Equal(all[j], v);
      var k :| 0 <= k < |kept| && Equal(kept[k], v);
    }
  }

  /** `path` begins with the first of some class of case variants in the list. */
  ghost predicate StartsFirst(items: seq<string>, path: string) {
    exists k: nat :: FirstOfClass(items, SameIgnoringCase, k) && IsPrefix(items[k], path)
  }

  predicate IsClean(items: seq<string>) {
    forall i :: 0 <= i < |items| ==> items[i] != "" && Trim(items[i]) == items[i]
  }

  lemma CleanListsCopy(items: seq<string>)
    requires IsClean(items)
    ensures CopiesUnchanged(items)
  {
    forall i | 0 <= i < |items| && IsToken(Trim(items[i])) ensures HasTokenTwin(items, Trim(items[i])) {
      assert SameIgnoringCase(items[i], Trim(items[i]));
    }
    CopiesUnchangedIff(items);
  }

  lemma CleanListsKeep(items: seq<string>, path: string)
    requires IsClean(items)
    ensures StartsKept(items, path) <==> StartsFirst(items, path)
    ensures forall k: nat :: Kept(items, k) ==> Skips(items, Trim(items[k]))
  {
    assert TrimAll(items) == items;
    if StartsKept(items, path) {
      var k: nat :| Kept(items, k) && IsPrefix(Trim(items[k]), path);
      assert FirstOfClass(items, SameIgnoringCase, k) && IsPrefix(items[k], path);
    }
    if StartsFirst(items, path) {
      var k: nat :| FirstOfClass(items, SameIgnoringCase, k) && IsPrefix(items[k], path);
      assert Kept(items, k) && IsPrefix(Trim(items[k]), path);
    }
    forall k: nat | Kept(items, k) ensures Skips(items, Trim(items[k])) {
      assert IsPrefix(items[k], Trim(items[k]));
    }
  }

  lemma ParsedIsClean(s: string)
    ensures IsClean(Parsed(s))
  {
    var items := Parsed(s);
    forall i | 0 <= i < |items| ensures items[i] != "" && Trim(items[i]) == items[i] {
      UniqueIsClean(Fields(s), items[i]);
    }
  }

  lemma CleanListsSkip(items: seq<string>)
    requires IsClean(items)
    ensures DecisionsUnchanged(items) <==> forall i :: 0 <= i < |items| ==> StartsFirst(items, items[i])
  {
    SkipDecisionsKeptIff(items);
    CleanListsKeep(items, "");
    forall i | 0 <= i < |items| ensures StartsKept(items, items[i]) <==> StartsFirst(items, items[i]) {
      CleanListsKeep(items, items[i]);
    }
  }

  /** On a list that the control plane parsed, normalisation changes no copy, and no skip decision
      exactly when every path begins with the first of some class of case variants. */
  lemma ParsedListsNormalize(s: string)
    ensures CopiesUnchanged(Parsed(s))
    ensures DecisionsUnchanged(Parsed(s)) <==> forall i :: 0 <= i < |Parsed(s)| ==> StartsFirst(Parsed(s), Parsed(s)[i])
  {
    ParsedIsClean(s);
    CleanListsCopy(Parsed(s));
    CleanListsSkip(Parsed(s));
  }

  /** Two fields without commas, each trimmed, not empty and different, are what is parsed. */
  lemma ParsedPair(f: string, g: string)
    requires NoComma(f) && NoComma(g) && f != "" && g != "" && f != g && Trim(f) == f && Trim(g) == g
    ensures Parsed(f + "," + g) == [f, g]
  {
    assert Join([g]) == g && [f, g][1..] == [g];
    FieldsCons(f, g);
    FieldsOfOne(g);
    assert [f] + [g] == [f, g];
    UniqueStep([], f);
    UniqueStep([f], g);
    assert [] + [f] == [f] && Unique([f]) == [f];
    assert [f] + [g] == [f, g];
  }

  /** The annotation `/API,/api`: its second path is dropped, and the requests it skipped with it. */
  lemma CaseVariantIsSentAndDropped()
    ensures Parsed("/API,/api") == ["/API", "/api"] && !DecisionsUnchanged(Parsed("/API,/api"))
  {
    assert "/API" + "," + "/api" == "/API,/api";
    assert "/API"[1] == 'A' && "/api"[1] == 'a';
    ParsedPair("/API", "/api");
    CaseVariantIsDropped();
  }

  /** In particular when no two of the paths agree ignoring case. */
  lemma DistinctPathsKeepDecisions(s: string)
    requires PairwiseDifferent(Parsed(s), SameIgnoringCase)
    ensures DecisionsUnchanged(Parsed(s))
  {
    var items := Parsed(s);
    forall i | 0 <= i < |items| ensures StartsFirst(items, items[i]) {
      assert FirstOfClass(items, SameIgnoringCase, i) && IsPrefix(items[i], items[i]);
    }
    ParsedListsNormalize(s);
  }
}
