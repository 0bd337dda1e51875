/** The sign-in redirect: percent-encoding per sections 2.1 and 2.3 of RFC 3986, and the
    three sequential replacements in the template. */
module Signin {
  import opened Text

  // ---- percent-encoding ----------------------------------------------------------------

  /** A string of bytes. */
  type Bytes = s: string | forall i :: 0 <= i < |s| ==> s[i] as int < 256

  predicate IsUnreserved(c: char) {
    || 'A' <= c <= 'Z' || 'a' <= c <= 'z' || '0' <= c <= '9'
    || c == '-' || c == '.' || c == '_' || c == '~'
  }

  /** An uppercase hexadecimal digit. */
  function HexDigit(n: int): char
    requires 0 <= n < 16
  {
    if n < 10 then (n + '0' as int) as char else (n - 10 + 'A' as int) as char
  }

  function EncodeByte(c: char): string
    requires c as int < 256
  {
    if IsUnreserved(c) then [c] else ['%', HexDigit(c as int / 16), HexDigit(c as int % 16)]
  }

  /** The unreserved characters of section 2.3 of RFC 3986 stand for themselves; any other byte
      becomes a percent sign and its two digits in uppercase. */
  lemma EncodeByteIs(c: char)
    requires c as int < 256
    ensures var unreserved := c in CAPITALS || c in SMALL || c in DIGITS || c in "-._~";
            var hex := "0123456789ABCDEF";
            EncodeByte(c) == if unreserved then [c] else ['%', hex[c as int / 16], hex[c as int % 16]]
  {
    LettersIff(c);
    HexDigitIs(c as int / 16);
    HexDigitIs(c as int % 16);
  }

  lemma HexDigitIs(n: int)
    requires 0 <= n < 16
    ensures HexDigit(n) == "0123456789ABCDEF"[n]
  {
  }

  function Encode(s: Bytes): string {
    if s == [] then [] else Encode(s[..|s| - 1]) + EncodeByte(s[|s| - 1])
  }

  method PercentEncode(input: Bytes) returns (out: string)
    ensures out == Encode(input)
  {
    out := [];
    for i := 0 to |input|
      invariant out == Encode(input[..i])
    {
      var b := input[i];
      assert input[..i + 1][..i] == input[..i];
      if IsUnreserved(b) {
        out := out + [b];
      } else {
        out := out + ['%'];
        out := out + [HexDigit(b as int / 16), HexDigit(b as int % 16)];
        assert out == Encode(input[..i]) + EncodeByte(b);
      }
    }
    assert input[..|input|] == input;
  }

  /** The value of a hexadecimal digit of either case. */
  function HexValue(c: char): Option<int> {
    if '0' <= c <= '9' then Some(c as int - '0' as int)
    else if 'A' <= c <= 'F' then Some(c as int - 'A' as int + 10)
    else if 'a' <= c <= 'f' then Some(c as int - 'a' as int + 10)
    else None
  }

  /** Percent-decoding; a `%` without two digits is an error. */
  function Decode(s: string): Option<string> {
    if s == [] then Some([])
    else if s[0] != '%' then
      var rest := Decode(s[1..]);
      if rest.Some? then Some([s[0]] + rest.value) else None
    else if |s| < 3 || HexValue(s[1]).None? || HexValue(s[2]).None? then None
    else
      var rest := Decode(s[3..]);
      if rest.Some? then Some([(HexValue(s[1]).value * 16 + HexValue(s[2]).value) as char] + rest.value) else None
  }

  lemma DecodeByte(c: char, rest: string)
    requires c as int < 256
    ensures Decode(EncodeByte(c) + rest) ==
            if Decode(rest).Some? then Some([c] + Decode(rest).value) else None
  {
    var e := EncodeByte(c) + rest;
    if IsUnreserved(c) {
      assert e[1..] == rest;
    } else {
      assert e[3..] == rest;
      assert c as int / 16 * 16 + c as int % 16 == c as int;
    }
  }

  lemma {:induction false} EncodeCons(c: char, s: Bytes)
    requires c as int < 256
    ensures Encode([c] + s) == EncodeByte(c) + Encode(s)
  {
    var cs: Bytes := [c] + s;
    if s == [] {
      assert cs[..0] == [];
      assert cs[|cs| - 1] == c;
    } else {
      var n := |s| - 1;
      EncodeCons(c, s[..n]);
      assert cs[..|cs| - 1] == [c] + s[..n] && cs[|cs| - 1] == s[n];
    }
  }

  /** The encoded request URI decodes to exactly the original path and query. */
  lemma {:induction false} EncodingRoundTrip(s: Bytes)
    ensures Decode(Encode(s)) == Some(s)
  {
    if s != [] {
      assert s == [s[0]] + s[1..];
      EncodeCons(s[0], s[1..]);
      EncodingRoundTrip(s[1..]);
      DecodeByte(s[0], Encode(s[1..]));
    }
  }

  /** Only unreserved characters and percent triplets come out. */
  lemma {:induction false} EncodedAlphabet(s: Bytes)
    ensures forall c :: c in Encode(s) ==> IsUnreserved(c) || c == '%'
  {
    if s != [] {
      EncodedAlphabet(s[..|s| - 1]);
      var c := s[|s| - 1];
      assert forall x :: x in EncodeByte(c) ==> IsUnreserved(x) || x == '%';
    }
  }

  // ---- the template ---------------------------------------------------------------------

  predicate NoDollar(s: string) {
    '$' !in s
  }

  /** A `$` followed by at least one character and no second `$`. */
  predicate IsVariable(v: string) {
    |v| >= 2 && v[0] == '$' && NoDollar(v[1..])
  }

  /** The names of the three variables; host, then URI, then scheme is replaced. */
  datatype Triple = Triple(host: string, uri: string, scheme: string)

  /** What matters of the names: they differ in the character behind the `$`, and the scheme's is
      longer than `http`, no longer than the URI's, and unreserved. */
  predicate Proper(names: Triple) {
    && IsVariable(names.host) && IsVariable(names.uri) && IsVariable(names.scheme)
    && names.host[1] != names.uri[1] && names.host[1] != names.scheme[1] && names.uri[1] != names.scheme[1]
    && 4 < |names.scheme| <= |names.uri|
    && forall c :: c in names.scheme[1..] ==> IsUnreserved(c)
  }

  type Names = t: Triple | Proper(t) witness Triple("$h", "$uuuu", "$ssss")

  /** Names behind the `$`, in place of whole variables. */
  lemma ProperNames(host: string, uri: string, scheme: string)
    requires host != "" && uri != "" && NoDollar(host) && NoDollar(uri) && NoDollar(scheme)
    requires 4 <= |scheme| <= |uri| && host[0] != uri[0] && host[0] != scheme[0] && uri[0] != scheme[0]
    requires forall i :: 0 <= i < |scheme| ==> IsUnreserved(scheme[i])
    ensures Proper(Triple("$" + host, "$" + uri, "$" + scheme))
  {
  }

  lemma TheNamesAreProper()
    ensures Proper(Triple("$" + "host", "$" + "escaped_request_uri", "$" + "scheme"))
  {
    ProperNames("host", "escaped_request_uri", "scheme");
  }

  function TheNames(): Names {
    TheNamesAreProper();
    Triple("$" + "host", "$" + "escaped_request_uri", "$" + "scheme")
  }

  const NAMES: Names := TheNames()

  /** `str::replace`: every non-overlapping occurrence from the left. */
  function Replace(s: string, pattern: string, value: string): string
    requires pattern != []
    decreases |s|
  {
    if s == [] then []
    else if pattern <= s then value + Replace(s[|pattern|..], pattern, value)
    else [s[0]] + Replace(s[1..], pattern, value)
  }

  /** One simultaneous substitution of the three variables. */
  function Substitute(names: Names, t: string, host: string, escaped: string, scheme: string): string
    decreases |t|
  {
    if t == [] then []
    else if names.host <= t then host + Substitute(names, t[|names.host|..], host, escaped, scheme)
    else if names.uri <= t then escaped + Substitute(names, t[|names.uri|..], host, escaped, scheme)
    else if names.scheme <= t then scheme + Substitute(names, t[|names.scheme|..], host, escaped, scheme)
    else [t[0]] + Substitute(names, t[1..], host, escaped, scheme)
  }

  function Sequential(names: Names, t: string, host: string, escaped: string, scheme: string): string {
    Replace(Replace(Replace(t, names.host, host), names.uri, escaped), names.scheme, scheme)
  }

  predicate StartsVariable(names: Names, t: string) {
    names.host <= t || names.uri <= t || names.scheme <= t
  }

  /** `t` begins with a beginning of the pattern that the variable `next` cuts off. */
  predicate CutAt(t: string, pattern: string, next: string, k: nat) {
    0 < k < |pattern| && pattern[..k] + next <= t
  }

  predicate CutOff(t: string, pattern: string, next: string) {
    exists i, k :: 0 <= i <= |t| && 0 < k < |pattern| && CutAt(t[i..], pattern, next, k)
  }

  /** No variable of the template completes the beginning of one that is replaced after it. */
  predicate SafeTemplate(names: Names, t: string) {
    !CutOff(t, names.uri, names.host) && !CutOff(t, names.scheme, names.host) && !CutOff(t, names.scheme, names.uri)
  }

  predicate Comparable(a: string, b: string) {
    a <= b || b <= a
  }

  /** No `$` of `u` begins the pattern, or could once more text follows `u`. */
  predicate Inert(u: string, pattern: string) {
    forall i :: 0 <= i < |u| && u[i] == '$' ==> !Comparable(u[i..], pattern)
  }

  lemma InertTail(u: string, pattern: string)
    requires u != [] && Inert(u, pattern)
    ensures Inert(u[1..], pattern)
  {
    forall i | 0 <= i < |u[1..]| && u[1..][i] == '$' ensures !Comparable(u[1..][i..], pattern) {
      assert u[1..][i..] == u[i + 1..];
    }
  }

  lemma PrefixOfConcat(pattern: string, u: string, x: string)
    requires pattern <= u + x
    ensures Comparable(u, pattern)
  {
    if |pattern| <= |u| {
      assert pattern == (u + x)[..|pattern|] == u[..|pattern|];
    } else {
      assert u == (u + x)[..|u|] == pattern[..|u|];
    }
  }

  /** A pattern is not found across inert text. */
  lemma {:induction false} ReplaceSkips(u: string, x: string, pattern: string, value: string)
    requires pattern != [] && pattern[0] == '$' && Inert(u, pattern)
    ensures Replace(u + x, pattern, value) == u + Replace(x, pattern, value)
    decreases |u|
  {
    if u == [] {
      assert u + x == x;
    } else {
      assert u[0..] == u;
      if pattern <= u + x {
        PrefixOfConcat(pattern, u, x);
        assert false;
      }
      assert (u + x)[0] == u[0] && (u + x)[1..] == u[1..] + x;
      InertTail(u, pattern);
      ReplaceSkips(u[1..], x, pattern, value);
      assert [u[0]] + (u[1..] + Replace(x, pattern, value)) == u + Replace(x, pattern, value);
    }
  }

  /** A variable other than the pattern is copied whole. */
  lemma ReplaceKeepsVariable(v: string, x: string, pattern: string, value: string)
    requires IsVariable(pattern) && IsVariable(v) && v[1] != pattern[1]
    ensures Replace(v + x, pattern, value) == v + Replace(x, pattern, value)
  {
    assert (v + x)[1] == v[1];
    ReplaceKeepsStart(v, x, pattern, value);
  }

  /** A `$` with plain text behind it is copied when the pattern does not begin there. */
  lemma ReplaceKeepsStart(v: string, x: string, pattern: string, value: string)
    requires IsVariable(pattern) && v != [] && NoDollar(v[1..]) && !(pattern <= v + x)
    ensures Replace(v + x, pattern, value) == v + Replace(x, pattern, value)
  {
    var first, rest, r := [v[0]], v[1..], Replace(x, pattern, value);
    assert v + x == first + (rest + x);
    assert Replace(v + x, pattern, value) == first + Replace(rest + x, pattern, value) by {
      assert (v + x)[1..] == rest + x;
    }
    assert Replace(rest + x, pattern, value) == rest + r by { ReplaceSkips(rest, x, pattern, value); }
    assert first + (rest + r) == v + r;
  }

  lemma ReplaceFirst(x: string, pattern: string, value: string)
    requires pattern != []
    ensures Replace(pattern + x, pattern, value) == value + Replace(x, pattern, value)
  {
    assert (pattern + x)[|pattern|..] == x;
  }

  /** The later passes find nothing that begins in the host. */
  predicate HostIsInert(names: Names, host: string) {
    Inert(host, names.uri) && Inert(host, names.scheme)
  }

  /** What the three passes make of a variable in front of the rest. */
  lemma PassesOverVariable(names: Names, v: string, x: string, host: string, escaped: string, scheme: string)
    requires v == names.host || v == names.uri || v == names.scheme
    requires HostIsInert(names, host) && NoDollar(escaped) && NoDollar(scheme)
    ensures Sequential(names, v + x, host, escaped, scheme) ==
            (if v == names.host then host else if v == names.uri then escaped else scheme) + Sequential(names, x, host, escaped, scheme)
  {
    var x1 := Replace(x, names.host, host);
    var x2 := Replace(x1, names.uri, escaped);
    if v == names.host {
      ReplaceFirst(x, names.host, host);
      ReplaceSkips(host, x1, names.uri, escaped);
      ReplaceSkips(host, x2, names.scheme, scheme);
    } else if v == names.uri {
      ReplaceKeepsVariable(names.uri, x, names.host, host);
      ReplaceFirst(x1, names.uri, escaped);
      ReplaceSkips(escaped, x2, names.scheme, scheme);
    } else {
      ReplaceKeepsVariable(names.scheme, x, names.host, host);
      ReplaceKeepsVariable(names.scheme, x1, names.uri, escaped);
      ReplaceFirst(x2, names.scheme, scheme);
    }
  }

  lemma CutCons(c: char, p: string, s: string, pattern: string, k: nat)
    requires p != [] && k < |p| && p[..k] + pattern <= s
    ensures CutAt([c] + s, [c] + p, pattern, k + 1)
  {
    assert ([c] + p)[..k + 1] == [c] + p[..k];
    assert [c] + p[..k] + pattern == [c] + (p[..k] + pattern);
  }

  /** A beginning of the replaced string begins the original, unless a replacement cuts in. */
  lemma {:induction false} PrefixAfterReplace(p: string, s: string, pattern: string, value: string)
    requires p != [] && pattern != [] && p <= Replace(s, pattern, value)
    ensures p <= s || pattern <= s || exists k :: CutAt(s, p, pattern, k)
    decreases |s|, 0
  {
    if s != [] && !(pattern <= s) {
      var c, p', s' := p[0], p[1..], s[1..];
      var r := Replace(s', pattern, value);
      assert p == [c] + p' && p' <= r && c == s[0] by {
        assert p <= [s[0]] + r;
      }
      assert s == [c] + s';
      PrefixOfTail(c, p', s', pattern, value);
    }
  }

  lemma {:induction false} PrefixOfTail(c: char, p: string, s: string, pattern: string, value: string)
    requires pattern != [] && p <= Replace(s, pattern, value)
    ensures [c] + p <= [c] + s || exists k :: CutAt([c] + s, [c] + p, pattern, k)
    decreases |s|, 1
  {
    if p == [] || p <= s {
    } else {
      PrefixAfterReplace(p, s, pattern, value);
      var k: nat := 0;
      if pattern <= s {
        assert p[..0] + pattern == pattern;
      } else {
        k :| CutAt(s, p, pattern, k);
      }
      CutCons(c, p, s, pattern, k);
    }
  }

  /** The first pass makes no later variable out of a head that is none. */
  lemma NothingCompleted(names: Names, t: string, host: string, pattern: string)
    requires !(names.host <= t) && pattern != [] && !(pattern <= t) && !CutOff(t, pattern, names.host)
    ensures !(pattern <= Replace(t, names.host, host))
  {
    assert t[0..] == t;
    if pattern <= Replace(t, names.host, host) {
      PrefixAfterReplace(pattern, t, names.host, host);
    }
  }

  /** Nor does it cut off a later variable that nothing cut off before. */
  lemma NothingCut(names: Names, t: string, host: string, k: nat)
    requires SafeTemplate(names, t) && !(names.host <= t)
    ensures !CutAt(Replace(t, names.host, host), names.scheme, names.uri, k)
  {
    assert t[0..] == t;
    if CutAt(Replace(t, names.host, host), names.scheme, names.uri, k) {
      PrefixAfterReplace(names.scheme[..k] + names.uri, t, names.host, host);
      if !CutAt(t[0..], names.scheme, names.uri, k) {
        var m :| CutAt(t, names.scheme[..k] + names.uri, names.host, m);
        CutInside(names, t, k, m);
      }
    }
  }

  lemma CutInside(names: Names, t: string, k: nat, m: nat)
    requires 0 < k < |names.scheme| && CutAt(t, names.scheme[..k] + names.uri, names.host, m)
    ensures CutOff(t, names.scheme, names.host) || CutOff(t, names.uri, names.host)
  {
    var p := names.scheme[..k] + names.uri;
    assert t[0..] == t;
    if m <= k {
      assert p[..m] == names.scheme[..m];
      assert CutAt(t[0..], names.scheme, names.host, m);
    } else {
      assert p[..m] + names.host == names.scheme[..k] + (names.uri[..m - k] + names.host);
      assert CutAt(t[k..], names.uri, names.host, m - k);
    }
  }

  /** A character that begins no variable of a safe template is copied by all three passes. */
  lemma PassesOverText(names: Names, t: string, host: string, escaped: string, scheme: string)
    requires t != [] && SafeTemplate(names, t) && !StartsVariable(names, t)
    ensures Sequential(names, t, host, escaped, scheme) == [t[0]] + Sequential(names, t[1..], host, escaped, scheme)
  {
    var u, x1 := Replace(t, names.host, host), Replace(t[1..], names.host, host);
    assert u == [t[0]] + x1 && u[1..] == x1;
    NothingCompleted(names, t, host, names.uri);
    NothingCompleted(names, t, host, names.scheme);
    var w, x2 := Replace(u, names.uri, escaped), Replace(x1, names.uri, escaped);
    assert w == [t[0]] + x2 && w[1..] == x2;
    forall k ensures !CutAt(u, names.scheme, names.uri, k) { NothingCut(names, t, host, k); }
    if names.scheme <= w { PrefixAfterReplace(names.scheme, u, names.uri, escaped); }
  }

  /** On a safe template and an inert host, three passes are one substitution. */
  lemma {:induction false} SequentialIsSimultaneous(names: Names, t: string, host: string, escaped: string, scheme: string)
    requires SafeTemplate(names, t) && HostIsInert(names, host) && NoDollar(escaped) && NoDollar(scheme)
    ensures Sequential(names, t, host, escaped, scheme) == Substitute(names, t, host, escaped, scheme)
    decreases |t|
  {
    if t != [] {
      if StartsVariable(names, t) {
        var v := if names.host <= t then names.host else if names.uri <= t then names.uri else names.scheme;
        assert t == v + t[|v|..];
        PassesOverVariable(names, v, t[|v|..], host, escaped, scheme);
        SequentialIsSimultaneous(names, t[|v|..], host, escaped, scheme);
      } else {
        PassesOverText(names, t, host, escaped, scheme);
        SequentialIsSimultaneous(names, t[1..], host, escaped, scheme);
      }
    }
  }

  /** The redirect of a safe template, for a host without `$` among others. */
  lemma SigninLocation(names: Names, template: string, host: string, pathAndQuery: Bytes, scheme: string)
    requires SafeTemplate(names, template) && HostIsInert(names, host) && (scheme == "http" || scheme == "https")
    ensures Sequential(names, template, host, Encode(pathAndQuery), scheme)
            == Substitute(names, template, host, Encode(pathAndQuery), scheme)
    ensures Decode(Encode(pathAndQuery)) == Some(pathAndQuery)
  {
    EncodedAlphabet(pathAndQuery);
    EncodingRoundTrip(pathAndQuery);
    SequentialIsSimultaneous(names, template, host, Encode(pathAndQuery), scheme);
  }

  /** `build_signin_location`: the three replacements in their order. On a safe template and an
      inert host they are the substitution, and the inserted URI decodes to path and query. */
  method BuildSigninLocation(template: string, host: string, pathAndQuery: Bytes, frontendIsTls: bool) returns (out: string)
    ensures var scheme := if frontendIsTls then "https" else "http";
            && out == Sequential(NAMES, template, host, Encode(pathAndQuery), scheme)
            && (SafeTemplate(NAMES, template) && HostIsInert(NAMES, host) ==>
                  out == Substitute(NAMES, template, host, Encode(pathAndQuery), scheme))
    ensures Decode(Encode(pathAndQuery)) == Some(pathAndQuery)
    ensures NAMES.host == "$" + "host" && NAMES.uri == "$" + "escaped_request_uri" && NAMES.scheme == "$" + "scheme"
  {
    var scheme := if frontendIsTls then "https" else "http";
    var escaped := PercentEncode(pathAndQuery);
    out := Replace(template, NAMES.host, host);
    out := Replace(out, NAMES.uri, escaped);
    out := Replace(out, NAMES.scheme, scheme);
    EncodingRoundTrip(pathAndQuery);
    if SafeTemplate(NAMES, template) && HostIsInert(NAMES, host) {
      SigninLocation(NAMES, template, host, pathAndQuery, scheme);
    }
  }

  // ---- exactly which templates are safe ----------------------------------------------------

  function Count(pattern: string, s: string): nat {
    if s == [] then 0 else (if pattern <= s then 1 else 0) + Count(pattern, s[1..])
  }

  lemma {:induction false} CountSkips(u: string, x: string, pattern: string)
    requires IsVariable(pattern) && NoDollar(u)
    ensures Count(pattern, u + x) == Count(pattern, x)
    decreases |u|
  {
    if u == [] {
      assert u + x == x;
    } else {
      assert (u + x)[0] == u[0] && (u + x)[1..] == u[1..] + x;
      CountSkips(u[1..], x, pattern);
    }
  }

  lemma CountVariable(v: string, x: string, pattern: string)
    requires IsVariable(pattern) && IsVariable(v) && (v == pattern || v[1] != pattern[1])
    ensures Count(pattern, v + x) == (if v == pattern then 1 else 0) + Count(pattern, x)
  {
    assert (v + x)[1] == v[1] && (v + x)[1..] == v[1..] + x;
    CountSkips(v[1..], x, pattern);
  }

  /** The cost of `n` replacements that cost `a` characters each. */
  function Times(n: nat, a: nat): nat {
    if n == 0 then 0 else a + Times(n - 1, a)
  }

  /** What a replacement by something shorter costs. */
  lemma {:induction false} ReplaceCost(s: string, pattern: string, value: string, cost: nat)
    requires IsVariable(pattern) && |value| + cost == |pattern|
    ensures |Replace(s, pattern, value)| + Times(Count(pattern, s), cost) == |s|
    decreases |s|
  {
    if s == [] {
    } else if pattern <= s {
      var x := s[|pattern|..];
      assert s == pattern + x;
      CountVariable(pattern, x, pattern);
      ReplaceCost(x, pattern, value, cost);
    } else {
      ReplaceCost(s[1..], pattern, value, cost);
    }
  }

  /** What the substitution, the first pass and the counts make of a host variable in front. */
  lemma HostParts(names: Names, x: string, host: string, escaped: string, scheme: string)
    ensures Substitute(names, names.host + x, host, escaped, scheme) == host + Substitute(names, x, host, escaped, scheme)
    ensures Replace(names.host + x, names.host, host) == host + Replace(x, names.host, host)
    ensures Count(names.uri, names.host + x) == Count(names.uri, x)
    ensures Count(names.scheme, names.host + x) == Count(names.scheme, x)
  {
    assert (names.host + x)[|names.host|..] == x;
    ReplaceFirst(x, names.host, host);
    CountVariable(names.host, x, names.uri);
    CountVariable(names.host, x, names.scheme);
  }

  lemma UriParts(names: Names, x: string, host: string, escaped: string, scheme: string)
    ensures Substitute(names, names.uri + x, host, escaped, scheme) == escaped + Substitute(names, x, host, escaped, scheme)
    ensures Replace(names.uri + x, names.host, host) == names.uri + Replace(x, names.host, host)
    ensures Count(names.uri, names.uri + x) == 1 + Count(names.uri, x)
    ensures Count(names.scheme, names.uri + x) == Count(names.scheme, x)
  {
    assert (names.uri + x)[|names.uri|..] == x;
    ReplaceKeepsVariable(names.uri, x, names.host, host);
    CountVariable(names.uri, x, names.uri);
    CountVariable(names.uri, x, names.scheme);
  }

  lemma SchemeParts(names: Names, x: string, host: string, escaped: string, scheme: string)
    ensures Substitute(names, names.scheme + x, host, escaped, scheme) == scheme + Substitute(names, x, host, escaped, scheme)
    ensures Replace(names.scheme + x, names.host, host) == names.scheme + Replace(x, names.host, host)
    ensures Count(names.uri, names.scheme + x) == Count(names.uri, x)
    ensures Count(names.scheme, names.scheme + x) == 1 + Count(names.scheme, x)
  {
    assert (names.scheme + x)[|names.scheme|..] == x;
    ReplaceKeepsVariable(names.scheme, x, names.host, host);
    CountVariable(names.scheme, x, names.uri);
    CountVariable(names.scheme, x, names.scheme);
  }

  /** `m` replacements at cost `a` and `n` at cost `b` take `whole` down to `rest`. */
  predicate AddsUp(rest: nat, m: nat, n: nat, whole: nat, a: nat, b: nat) {
    rest + Times(m, a) + Times(n, b) == whole
  }

  ghost predicate CostsAddUp(names: Names, t: string, host: string, escaped: string, scheme: string, a: nat, b: nat) {
    AddsUp(|Substitute(names, t, host, escaped, scheme)|, Count(names.uri, t), Count(names.scheme, t),
           |Replace(t, names.host, host)|, a, b)
  }

  lemma CostOfHost(names: Names, x: string, host: string, escaped: string, scheme: string, a: nat, b: nat)
    requires CostsAddUp(names, x, host, escaped, scheme, a, b)
    ensures CostsAddUp(names, names.host + x, host, escaped, scheme, a, b)
  {
    HostParts(names, x, host, escaped, scheme);
  }

  lemma CostOfUri(names: Names, x: string, host: string, escaped: string, scheme: string, a: nat, b: nat)
    requires |escaped| + a == |names.uri| && CostsAddUp(names, x, host, escaped, scheme, a, b)
    ensures CostsAddUp(names, names.uri + x, host, escaped, scheme, a, b)
  {
    UriParts(names, x, host, escaped, scheme);
  }

  lemma CostOfScheme(names: Names, x: string, host: string, escaped: string, scheme: string, a: nat, b: nat)
    requires |scheme| + b == |names.scheme| && CostsAddUp(names, x, host, escaped, scheme, a, b)
    ensures CostsAddUp(names, names.scheme + x, host, escaped, scheme, a, b)
  {
    SchemeParts(names, x, host, escaped, scheme);
  }

  lemma {:induction false} SubstituteCost(names: Names, t: string, host: string, escaped: string, scheme: string, a: nat, b: nat)
    requires |escaped| + a == |names.uri| && |scheme| + b == |names.scheme|
    ensures CostsAddUp(names, t, host, escaped, scheme, a, b)
    decreases |t|
  {
    if t == [] {
    } else if names.host <= t {
      var x := t[|names.host|..];
      assert t == names.host + x;
      SubstituteCost(names, x, host, escaped, scheme, a, b);
      CostOfHost(names, x, host, escaped, scheme, a, b);
    } else if names.uri <= t {
      var x := t[|names.uri|..];
      assert t == names.uri + x;
      SubstituteCost(names, x, host, escaped, scheme, a, b);
      CostOfUri(names, x, host, escaped, scheme, a, b);
    } else if names.scheme <= t {
      var x := t[|names.scheme|..];
      assert t == names.scheme + x;
      SubstituteCost(names, x, host, escaped, scheme, a, b);
      CostOfScheme(names, x, host, escaped, scheme, a, b);
    } else {
      SubstituteCost(names, t[1..], host, escaped, scheme, a, b);
    }
  }

  /** Replacing one variable destroys no occurrence of another. */
  lemma {:induction false} CountNeverFalls(t: string, pattern: string, next: string, value: string)
    requires IsVariable(pattern) && IsVariable(next) && pattern[1] != next[1] && NoDollar(value)
    ensures Count(pattern, t) <= Count(pattern, Replace(t, next, value))
    decreases |t|
  {
    if t == [] {
    } else if next <= t {
      var x := t[|next|..];
      assert t == next + x;
      CountVariable(next, x, pattern);
      CountSkips(value, Replace(x, next, value), pattern);
      CountNeverFalls(x, pattern, next, value);
    } else {
      CountNeverFalls(t[1..], pattern, next, value);
      if pattern <= t {
        assert t == pattern + t[|pattern|..];
        ReplaceKeepsVariable(pattern, t[|pattern|..], next, value);
      }
      assert Replace(t, next, value)[1..] == Replace(t[1..], next, value);
    }
  }

  /** Where a variable is cut off by another, no third kind of variable begins. */
  lemma CutIsNoVariable(t: string, pattern: string, next: string, v: string, k: nat)
    requires IsVariable(pattern) && IsVariable(next) && IsVariable(v) && pattern[1] != v[1]
    requires CutAt(t, pattern, next, k)
    ensures !(v <= t)
  {
    var p := pattern[..k] + next;
    assert p[1] == if k == 1 then next[0] else pattern[1];
    assert v[1..][0] == v[1] && v[1] != '$';
    assert t[1] == p[1];
  }

  lemma CutIsNotWhole(t: string, pattern: string, next: string, k: nat)
    requires IsVariable(pattern) && IsVariable(next) && CutAt(t, pattern, next, k)
    ensures !(pattern <= t)
  {
    var p := pattern[..k] + next;
    assert p[k] == next[0] == '$';
    assert pattern[1..][k - 1] == pattern[k] && pattern[k] != '$';
    assert t[k] == p[k];
  }

  lemma CutParts(t: string, pattern: string, next: string, k: nat) returns (x: string)
    requires IsVariable(pattern) && CutAt(t, pattern, next, k)
    ensures t == pattern[..k] + (next + x) && pattern[..k] != [] && NoDollar(pattern[..k][1..])
  {
    x := t[k + |next|..];
    assert t == (pattern[..k] + next) + x;
    assert forall c :: c in pattern[..k][1..] ==> c in pattern[1..];
  }

  /** Completing a pattern that was cut off makes one more of it. */
  lemma HeadCompleted(t: string, pattern: string, next: string, k: nat)
    requires IsVariable(pattern) && IsVariable(next) && pattern[1] != next[1] && CutAt(t, pattern, next, k)
    ensures pattern <= Replace(t, next, pattern[k..])
  {
    var v := pattern[..k];
    var x := CutParts(t, pattern, next, k);
    CutIsNoVariable(t, pattern, next, next, k);
    ReplaceKeepsStart(v, next + x, next, pattern[k..]);
    ReplaceFirst(x, next, pattern[k..]);
    assert v + (pattern[k..] + Replace(x, next, pattern[k..])) == pattern + Replace(x, next, pattern[k..]);
  }

  /** A variable that is cut off begins behind a whole variable of another kind. */
  lemma CutBehindVariable(t: string, pattern: string, next: string, v: string, i: nat, k: nat)
    requires IsVariable(pattern) && IsVariable(next) && IsVariable(v) && pattern[1] != v[1]
    requires v <= t && i <= |t| && CutAt(t[i..], pattern, next, k)
    ensures |v| <= i
  {
    assert t[i..][0] == pattern[0];
    assert t[0..] == t;
    if i == 0 { CutIsNoVariable(t, pattern, next, v, k); }
  }

  lemma CountRisesAtHead(t: string, pattern: string, next: string, k: nat)
    requires IsVariable(pattern) && IsVariable(next) && pattern[1] != next[1] && CutAt(t, pattern, next, k)
    ensures Count(pattern, t) < Count(pattern, Replace(t, next, pattern[k..]))
  {
    var value := pattern[k..];
    assert NoDollar(value) by { assert forall c :: c in value ==> c in pattern[1..]; }
    CutIsNoVariable(t, pattern, next, next, k);
    assert Replace(t, next, value)[1..] == Replace(t[1..], next, value);
    HeadCompleted(t, pattern, next, k);
    CutIsNotWhole(t, pattern, next, k);
    CountNeverFalls(t[1..], pattern, next, value);
  }

  lemma {:induction false} CountRises(t: string, pattern: string, next: string, i: nat, k: nat)
    requires IsVariable(pattern) && IsVariable(next) && pattern[1] != next[1]
    requires i <= |t| && CutAt(t[i..], pattern, next, k)
    ensures Count(pattern, t) < Count(pattern, Replace(t, next, pattern[k..]))
    decreases |t|
  {
    var value := pattern[k..];
    assert t != [];
    assert NoDollar(value) by { assert forall c :: c in value ==> c in pattern[1..]; }
    if next <= t {
      CutBehindVariable(t, pattern, next, next, i, k);
      var x := t[|next|..];
      assert t == next + x && t[i..] == x[i - |next|..];
      CountVariable(next, x, pattern);
      CountSkips(value, Replace(x, next, value), pattern);
      CountRises(x, pattern, next, i - |next|, k);
    } else if i == 0 {
      assert t[0..] == t;
      CountRisesAtHead(t, pattern, next, k);
    } else {
      assert t[i..] == t[1..][i - 1..];
      CountRises(t[1..], pattern, next, i - 1, k);
      assert Replace(t, next, value)[1..] == Replace(t[1..], next, value);
      if pattern <= t {
        assert t == pattern + t[|pattern|..];
        ReplaceKeepsVariable(pattern, t[|pattern|..], next, value);
      }
    }
  }

  /** More replacements than variables leave less text. */
  lemma MoreFoundThanMeant(names: Names, t: string, host: string, escaped: string, a: nat)
    requires |escaped| + a == |names.uri| && a > 0
    requires var u := Replace(t, names.host, host);
             var w := Replace(u, names.uri, escaped);
             && Count(names.uri, t) <= Count(names.uri, u) && Count(names.scheme, t) <= Count(names.scheme, w)
             && Count(names.uri, t) + Count(names.scheme, t) < Count(names.uri, u) + Count(names.scheme, w)
    ensures Sequential(names, t, host, escaped, "http") != Substitute(names, t, host, escaped, "http")
  {
    var u := Replace(t, names.host, host);
    var w := Replace(u, names.uri, escaped);
    var b := |names.scheme| - 4;
    SubstituteCost(names, t, host, escaped, "http", a, b);
    ReplaceCost(u, names.uri, escaped, a);
    ReplaceCost(w, names.scheme, "http", b);
    TimesGrows(Count(names.uri, t), Count(names.uri, u), a);
    TimesGrows(Count(names.scheme, t), Count(names.scheme, w), b);
  }

  lemma {:induction false} TimesGrows(m: nat, m': nat, a: nat)
    requires m <= m' && a > 0
    ensures Times(m, a) + (m' - m) <= Times(m', a)
    decreases m'
  {
    if m < m' { TimesGrows(m, m' - 1, a); }
  }

  lemma HostCompletes(names: Names, t: string, pattern: string, i: nat, k: nat) returns (host: string)
    requires (pattern == names.uri || pattern == names.scheme) && i <= |t| && CutAt(t[i..], pattern, names.host, k)
    ensures NoDollar(host) && Sequential(names, t, host, [], "http") != Substitute(names, t, host, [], "http")
  {
    host := pattern[k..];
    assert NoDollar(host) by { assert forall c :: c in host ==> c in pattern[1..]; }
    var u := Replace(t, names.host, host);
    CountRises(t, pattern, names.host, i, k);
    CountNeverFalls(t, names.uri, names.host, host);
    CountNeverFalls(t, names.scheme, names.host, host);
    CountNeverFalls(u, names.scheme, names.uri, []);
    MoreFoundThanMeant(names, t, host, [], |names.uri|);
  }

  lemma CutHeadSurvives(t: string, pattern: string, next: string, v: string, k: nat)
    requires IsVariable(pattern) && IsVariable(next) && IsVariable(v) && pattern[1] != v[1] && next[1] != v[1]
    requires CutAt(t, pattern, next, k)
    ensures CutAt(Replace(t, v, []), pattern, next, k)
  {
    var start := pattern[..k];
    var x := CutParts(t, pattern, next, k);
    CutIsNoVariable(t, pattern, next, v, k);
    ReplaceKeepsStart(start, next + x, v, []);
    ReplaceKeepsVariable(next, x, v, []);
    assert start + (next + Replace(x, v, [])) == (start + next) + Replace(x, v, []);
  }

  /** What is cut off by a variable is still cut off by it when another one is erased. */
  lemma {:induction false} CutSurvives(t: string, pattern: string, next: string, v: string, i: nat, k: nat) returns (j: nat)
    requires IsVariable(pattern) && IsVariable(next) && IsVariable(v) && pattern[1] != v[1] && next[1] != v[1]
    requires i <= |t| && CutAt(t[i..], pattern, next, k)
    ensures j <= |Replace(t, v, [])| && CutAt(Replace(t, v, [])[j..], pattern, next, k)
    decreases |t|
  {
    var u := Replace(t, v, []);
    if v <= t {
      CutBehindVariable(t, pattern, next, v, i, k);
      assert t[i..] == t[|v|..][i - |v|..];
      j := CutSurvives(t[|v|..], pattern, next, v, i - |v|, k);
      assert u == Replace(t[|v|..], v, []);
    } else if i == 0 {
      assert t[0..] == t && u[0..] == u;
      CutHeadSurvives(t, pattern, next, v, k);
      j := 0;
    } else {
      assert t[i..] == t[1..][i - 1..];
      j := CutSurvives(t[1..], pattern, next, v, i - 1, k);
      assert u[j + 1..] == Replace(t[1..], v, [])[j..];
      j := j + 1;
    }
  }

  lemma {:induction false} EncodeUnreserved(s: Bytes)
    requires forall c :: c in s ==> IsUnreserved(c)
    ensures Encode(s) == s
  {
    if s != [] {
      var init := s[..|s| - 1];
      assert s == init + [s[|s| - 1]];
      EncodeUnreserved(init);
    }
  }

  lemma PathCompletes(names: Names, t: string, i: nat, k: nat) returns (path: Bytes)
    requires i <= |t| && CutAt(t[i..], names.scheme, names.uri, k)
    ensures Sequential(names, t, [], Encode(path), "http") != Substitute(names, t, [], Encode(path), "http")
  {
    var rest := names.scheme[k..];
    assert forall c :: c in rest ==> IsUnreserved(c);
    assert forall n :: 0 <= n < |rest| ==> rest[n] in rest;
    path := rest;
    EncodeUnreserved(path);
    var j := CutSurvives(t, names.scheme, names.uri, names.host, i, k);
    var u := Replace(t, names.host, []);
    CountNeverFalls(t, names.uri, names.host, []);
    CountNeverFalls(t, names.scheme, names.host, []);
    CountRises(u, names.scheme, names.uri, j, k);
    MoreFoundThanMeant(names, t, [], rest, |names.uri| - |rest|);
  }

  ghost predicate SubstitutedForAll(names: Names, t: string) {
    forall host, pathAndQuery: Bytes, scheme :: HostIsInert(names, host) && (scheme == "http" || scheme == "https") ==>
      Sequential(names, t, host, Encode(pathAndQuery), scheme) == Substitute(names, t, host, Encode(pathAndQuery), scheme)
  }

  lemma CutTemplateFails(names: Names, t: string)
    requires !SafeTemplate(names, t)
    ensures !SubstitutedForAll(names, t)
  {
    var nothing: Bytes := [];
    assert Encode(nothing) == [];
    if CutOff(t, names.uri, names.host) || CutOff(t, names.scheme, names.host) {
      var pattern := if CutOff(t, names.uri, names.host) then names.uri else names.scheme;
      var i, k :| 0 <= i <= |t| && 0 < k < |pattern| && CutAt(t[i..], pattern, names.host, k);
      var host := HostCompletes(names, t, pattern, i, k);
      assert HostIsInert(names, host);
      assert Sequential(names, t, host, Encode(nothing), "http") != Substitute(names, t, host, Encode(nothing), "http");
    } else {
      var i, k :| 0 <= i <= |t| && 0 < k < |names.scheme| && CutAt(t[i..], names.scheme, names.uri, k);
      var path := PathCompletes(names, t, i, k);
      assert HostIsInert(names, []);
    }
  }

  /** A template is substituted simultaneously for every inert host and every path exactly when
      none of its variables cuts off the beginning of one that is replaced later. */
  lemma SafeTemplateIff(names: Names, t: string)
    ensures SubstitutedForAll(names, t) <==> SafeTemplate(names, t)
  {
    if SafeTemplate(names, t) {
      forall host, pathAndQuery: Bytes, scheme | HostIsInert(names, host) && (scheme == "http" || scheme == "https")
        ensures Sequential(names, t, host, Encode(pathAndQuery), scheme) == Substitute(names, t, host, Encode(pathAndQuery), scheme)
      {
        SigninLocation(names, t, host, pathAndQuery, scheme);
      }
    } else {
      CutTemplateFails(names, t);
    }
  }

  // ---- exactly which hosts are safe --------------------------------------------------------

  lemma CutHasDollar(t: string, pattern: string, next: string, i: nat, k: nat)
    requires i <= |t| && IsVariable(next) && CutAt(t[i..], pattern, next, k)
    ensures i + k < |t| && t[i + k] == '$'
  {
    assert (pattern[..k] + next)[k] == next[0];
    assert t[i..][k] == t[i + k];
  }

  lemma OneDollarIsSafe(names: Names, t: string)
    requires forall k :: 0 <= k < |t| && t[k] == '$' ==> k == 0
    ensures SafeTemplate(names, t)
  {
    OneDollarCutsNothing(t, names.uri, names.host);
    OneDollarCutsNothing(t, names.scheme, names.host);
    OneDollarCutsNothing(t, names.scheme, names.uri);
  }

  lemma OneDollarCutsNothing(t: string, pattern: string, next: string)
    requires IsVariable(next) && forall k :: 0 <= k < |t| && t[k] == '$' ==> k == 0
    ensures !CutOff(t, pattern, next)
  {
    forall i, k | 0 <= i <= |t| && 0 < k < |pattern| ensures !CutAt(t[i..], pattern, next, k) {
      if CutAt(t[i..], pattern, next, k) { CutHasDollar(t, pattern, next, i, k); }
    }
  }

  lemma {:induction false} CountFinds(pattern: string, s: string, i: nat)
    requires pattern != [] && i < |s| && pattern <= s[i..]
    ensures Count(pattern, s) >= 1
    decreases i
  {
    if i == 0 {
      assert s[0..] == s;
    } else {
      assert s[1..][i - 1..] == s[i..];
      CountFinds(pattern, s[1..], i - 1);
    }
  }

  /** The template of the host's variable followed by plain text. */
  lemma HostThenText(names: Names, host: string, w: string)
    requires NoDollar(w)
    ensures SafeTemplate(names, names.host + w) && Replace(names.host + w, names.host, host) == host + w
    ensures Count(names.uri, names.host + w) == 0 && Count(names.scheme, names.host + w) == 0
  {
    OneDollarIsSafe(names, names.host + w);
    HostParts(names, w, host, [], []);
    assert w + [] == w;
    ReplaceSkips(w, [], names.host, host);
    CountSkips(w, [], names.uri);
    CountSkips(w, [], names.scheme);
  }

  /** Plain text that completes the pattern at position `i` of the host. */
  lemma Completion(host: string, i: nat, pattern: string) returns (w: string)
    requires i < |host| && Comparable(host[i..], pattern)
    requires pattern != [] && NoDollar(pattern[1..])
    ensures NoDollar(w) && pattern <= (host + w)[i..]
  {
    var rest := host[i..];
    if pattern <= rest {
      w := [];
      assert host + w == host;
    } else {
      w := pattern[|rest|..];
      assert forall c :: c in w ==> c in pattern[1..];
      assert (host + w)[i..] == rest + w == pattern;
    }
  }

  /** A host that holds the pattern, or ends in a beginning of it, is rewritten by a later pass. */
  lemma LiveHostIsRewritten(names: Names, host: string, i: nat, pattern: string) returns (t: string)
    requires i < |host| && Comparable(host[i..], pattern)
    requires pattern == names.uri || pattern == names.scheme
    ensures SafeTemplate(names, t) && Sequential(names, t, host, [], "http") != Substitute(names, t, host, [], "http")
  {
    var w := Completion(host, i, pattern);
    CountFinds(pattern, host + w, i);
    HostThenText(names, host, w);
    CountNeverFalls(host + w, names.scheme, names.uri, []);
    t := names.host + w;
    MoreFoundThanMeant(names, t, host, [], |names.uri|);
  }

  ghost predicate AlwaysSimultaneous(names: Names, host: string) {
    forall t, pathAndQuery: Bytes, scheme :: SafeTemplate(names, t) && (scheme == "http" || scheme == "https") ==>
      Sequential(names, t, host, Encode(pathAndQuery), scheme) == Substitute(names, t, host, Encode(pathAndQuery), scheme)
  }

  lemma OneTemplateFails(names: Names, host: string, t: string)
    requires SafeTemplate(names, t) && Sequential(names, t, host, [], "http") != Substitute(names, t, host, [], "http")
    ensures !AlwaysSimultaneous(names, host)
  {
    var nothing: Bytes := [];
    assert Encode(nothing) == [];
    assert Sequential(names, t, host, Encode(nothing), "http") != Substitute(names, t, host, Encode(nothing), "http");
  }

  lemma LiveHostFails(names: Names, host: string)
    requires !HostIsInert(names, host)
    ensures !AlwaysSimultaneous(names, host)
  {
    var pattern := if !Inert(host, names.uri) then names.uri else names.scheme;
    assert !Inert(host, pattern);
    var i :| 0 <= i < |host| && host[i] == '$' && Comparable(host[i..], pattern);
    var t := LiveHostIsRewritten(names, host, i, pattern);
    OneTemplateFails(names, host, t);
  }

  /** Every safe template is substituted simultaneously exactly when the host is inert. */
  lemma SafeHostIff(names: Names, host: string)
    ensures AlwaysSimultaneous(names, host) <==> HostIsInert(names, host)
  {
    if HostIsInert(names, host) {
      forall t, pathAndQuery: Bytes, scheme | SafeTemplate(names, t) && (scheme == "http" || scheme == "https")
        ensures Sequential(names, t, host, Encode(pathAndQuery), scheme) == Substitute(names, t, host, Encode(pathAndQuery), scheme)
      {
        SigninLocation(names, t, host, pathAndQuery, scheme);
      }
    } else {
      LiveHostFails(names, host);
    }
  }

  /** The shortest unsafe template, a `$` in front of the host's variable: a host that spells the
      rest of the scheme's variable completes it, and the third pass replaces what was text. */
  lemma StrayDollarIsCompleted(names: Names, scheme: string)
    ensures !SafeTemplate(names, "$" + names.host)
    ensures Sequential(names, "$" + names.host, names.scheme[1..], "", scheme) == scheme
    ensures Substitute(names, "$" + names.host, names.scheme[1..], "", scheme) == names.scheme
  {
    var t, rest := "$" + names.host, names.scheme[1..];
    assert t[0..] == t && names.scheme[..1] == "$" && CutAt(t[0..], names.scheme, names.host, 1);
    CutIsNoVariable(t, names.scheme, names.host, names.host, 1);
    CutIsNotWhole(t, names.scheme, names.host, 1);
    assert t[1] == '$' && names.uri[1] == names.uri[1..][0];
    assert names.host + "" == names.host && names.scheme + "" == names.scheme && names.host[|names.host|..] == "";
    ReplaceFirst("", names.host, rest);
    assert t[1..] == names.host && "$" + rest == names.scheme && rest + "" == rest;
    assert Replace(t, names.host, rest) == names.scheme;
    ReplaceKeepsVariable(names.scheme, "", names.uri, "");
    ReplaceFirst("", names.scheme, scheme);
    assert scheme + "" == scheme;
    HostParts(names, "", rest, "", scheme);
    assert !StartsVariable(names, t);
    assert Substitute(names, t, rest, "", scheme) == ['$'] + Substitute(names, names.host, rest, "", scheme);
  }
}
