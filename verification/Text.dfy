/** Byte strings as the two planes see them: ASCII case folding, the bytewise
    order that Go's `<` gives on strings, and prefix tests.
    A `string` stands for its sequence of bytes, one `char` for each byte. */
module Text {

  datatype Option<+T> = None | Some(value: T)

  predicate IsUpper(c: char) {
    'A' <= c <= 'Z'
  }

  function LowerChar(c: char): char {
    if IsUpper(c) then (c as int + 32) as char else c
  }

  function Lower(s: string): string {
    seq(|s|, i requires 0 <= i < |s| => LowerChar(s[i]))
  }

  predicate HasUpper(s: string) {
    exists i :: 0 <= i < |s| && IsUpper(s[i])
  }

  predicate IsPrefix(p: string, s: string) {
    p <= s
  }

  /** `s` is `p` with something behind it. */
  ghost predicate Begins(p: string, s: string) {
    exists rest :: s == p + rest
  }

  lemma PrefixIff(p: string, s: string)
    ensures IsPrefix(p, s) <==> Begins(p, s)
  {
    if IsPrefix(p, s) { assert s == p + s[|p|..]; }
  }

  /** `eq_ignore_ascii_case`. */
  predicate SameIgnoringCase(a: string, b: string) {
    Lower(a) == Lower(b)
  }

  const CAPITALS := "ABCDEFGHIJKLMNOPQRSTUVWXYZ"
  const SMALL := "abcdefghijklmnopqrstuvwxyz"
  const DIGITS := "0123456789"

  lemma LettersIff(c: char)
    ensures c in CAPITALS <==> 'A' <= c <= 'Z'
    ensures c in SMALL <==> 'a' <= c <= 'z'
    ensures c in DIGITS <==> '0' <= c <= '9'
  {
    LetterCodes();
    if 'A' <= c <= 'Z' { assert CAPITALS[c as int - 65] == c; }
    if 'a' <= c <= 'z' { assert SMALL[c as int - 97] == c; }
    assert forall k :: 0 <= k < 10 ==> DIGITS[k] as int == 48 + k;
    if '0' <= c <= '9' { assert DIGITS[c as int - 48] == c; }
  }

  /** `l` is `c`, or its small letter if it is one of the 26 capitals. */
  predicate IsSmallOf(l: char, c: char) {
    (c !in CAPITALS ==> l == c) && forall k :: 0 <= k < 26 && c == CAPITALS[k] ==> l == SMALL[k]
  }

  lemma LowerLetter(c: char)
    ensures IsSmallOf(LowerChar(c), c) && (IsUpper(c) <==> c in CAPITALS)
  {
    LettersIff(c);
    LetterCodes();
  }

  /** Lowercasing replaces each capital by its own small letter, and nothing else. */
  lemma LowerLetters(s: string)
    ensures |Lower(s)| == |s| && forall i :: 0 <= i < |s| ==> IsSmallOf(Lower(s)[i], s[i])
    ensures HasUpper(s) <==> exists i :: 0 <= i < |s| && s[i] in CAPITALS
  {
    forall i | 0 <= i < |s| ensures IsSmallOf(Lower(s)[i], s[i]) && (IsUpper(s[i]) <==> s[i] in CAPITALS) {
      LowerLetter(s[i]);
    }
  }

  lemma LetterCodes()
    ensures forall k :: 0 <= k < 26 ==> CAPITALS[k] as int == 65 + k && SMALL[k] as int == 97 + k
  {
    assert forall k :: 0 <= k < 26 ==> CAPITALS[k] as int == 65 + k;
    assert forall k :: 0 <= k < 26 ==> SMALL[k] as int == 97 + k;
  }

  /** A string is a fixed point of lowercasing exactly when it has no capital. */
  lemma LowerFixedPoint(s: string)
    ensures Lower(s) == s <==> !HasUpper(s)
    ensures !HasUpper(Lower(s))
    ensures Lower(Lower(s)) == Lower(s)
  {
    var l := Lower(s);
    assert forall i :: 0 <= i < |s| ==> l[i] == LowerChar(s[i]);
    if HasUpper(s) {
      var i :| 0 <= i < |s| && IsUpper(s[i]);
      assert l[i] != s[i];
    } else {
      assert forall i :: 0 <= i < |s| ==> !IsUpper(s[i]);
      assert l == s;
    }
    assert Lower(l) == l;
  }

  lemma HasUpperConcat(a: string, b: string)
    ensures HasUpper(a + b) <==> HasUpper(a) || HasUpper(b)
  {
    if HasUpper(a) {
      var i :| 0 <= i < |a| && IsUpper(a[i]);
      assert IsUpper((a + b)[i]);
    }
    if HasUpper(b) {
      var i :| 0 <= i < |b| && IsUpper(b[i]);
      assert IsUpper((a + b)[|a| + i]);
    }
  }

  /** Go's `<` on strings. */
  predicate StrLess(a: string, b: string) {
    if b == [] then false
    else if a == [] then true
    else if a[0] != b[0] then a[0] < b[0]
    else StrLess(a[1..], b[1..])
  }

  lemma {:induction false} StrLessIrreflexive(a: string)
    ensures !StrLess(a, a)
  {
    if a != [] { StrLessIrreflexive(a[1..]); }
  }

  lemma {:induction false} StrLessTransitive(a: string, b: string, c: string)
    requires StrLess(a, b) && StrLess(b, c)
    ensures StrLess(a, c)
  {
    if a != [] && a[0] == b[0] && b[0] == c[0] {
      StrLessTransitive(a[1..], b[1..], c[1..]);
    }
  }

  lemma {:induction false} StrLessTotal(a: string, b: string)
    ensures StrLess(a, b) || StrLess(b, a) || a == b
  {
    if a != [] && b != [] && a[0] == b[0] {
      StrLessTotal(a[1..], b[1..]);
      assert a == [a[0]] + a[1..] && b == [b[0]] + b[1..];
    }
  }

  /** Among the case variants of a name the all-lowercase one is the greatest. */
  lemma {:induction false} LowercaseIsGreatest(m: string, n: string)
    requires Lower(m) == n && m != n
    ensures StrLess(m, n)
  {
    assert |m| == |n|;
    assert n[0] == LowerChar(m[0]);
    if m[0] == n[0] {
      assert Lower(m[1..]) == n[1..];
      assert m == [m[0]] + m[1..] && n == [n[0]] + n[1..];
      LowercaseIsGreatest(m[1..], n[1..]);
    }
  }

  /** The characters of Unicode's White_Space property, which `str::trim` removes. */
  predicate IsWhitespace(c: char) {
    var n := c as int;
    || 0x9 <= n <= 0xD || n == 0x20 || n == 0x85 || n == 0xA0 || n == 0x1680
    || 0x2000 <= n <= 0x200A || n == 0x2028 || n == 0x2029 || n == 0x202F || n == 0x205F || n == 0x3000
  }

  /** The 25 code points. */
  lemma WhitespaceCodes(c: char)
    ensures IsWhitespace(c) <==>
            c as int in {0x9, 0xA, 0xB, 0xC, 0xD, 0x20, 0x85, 0xA0, 0x1680,
                         0x2000, 0x2001, 0x2002, 0x2003, 0x2004, 0x2005, 0x2006, 0x2007, 0x2008, 0x2009, 0x200A,
                         0x2028, 0x2029, 0x202F, 0x205F, 0x3000}
  {
  }

  function TrimStart(s: string): string {
    if s != [] && IsWhitespace(s[0]) then TrimStart(s[1..]) else s
  }

  function TrimEnd(s: string): string {
    if s != [] && IsWhitespace(s[|s| - 1]) then TrimEnd(s[..|s| - 1]) else s
  }

  /** `str::trim`; on strings that hold characters rather than bytes. */
  function Trim(s: string): string {
    TrimEnd(TrimStart(s))
  }

  predicate IsTrimmed(s: string) {
    s == [] || (!IsWhitespace(s[0]) && !IsWhitespace(s[|s| - 1]))
  }

  predicate AllWhitespace(s: string) {
    forall i :: 0 <= i < |s| ==> IsWhitespace(s[i])
  }

  lemma {:induction false} TrimStartCuts(s: string)
    ensures exists a :: s == a + TrimStart(s) && AllWhitespace(a)
  {
    if s != [] && IsWhitespace(s[0]) {
      TrimStartCuts(s[1..]);
      var a :| s[1..] == a + TrimStart(s[1..]) && AllWhitespace(a);
      assert s == ([s[0]] + a) + TrimStart(s) && AllWhitespace([s[0]] + a);
    } else {
      assert s == [] + TrimStart(s) && AllWhitespace([]);
    }
  }

  lemma {:induction false} TrimEndCuts(s: string)
    ensures exists b :: s == TrimEnd(s) + b && AllWhitespace(b)
  {
    if s != [] && IsWhitespace(s[|s| - 1]) {
      var n := |s| - 1;
      TrimEndCuts(s[..n]);
      var b :| s[..n] == TrimEnd(s[..n]) + b && AllWhitespace(b);
      assert s == s[..n] + [s[n]];
      assert s == TrimEnd(s) + (b + [s[n]]) && AllWhitespace(b + [s[n]]);
    } else {
      assert s == TrimEnd(s) + [] && AllWhitespace([]);
    }
  }

  /** Only white space is cut off, at both ends. */
  lemma TrimCuts(s: string)
    ensures exists a, b :: s == a + Trim(s) + b && AllWhitespace(a) && AllWhitespace(b)
  {
    TrimStartCuts(s);
    TrimEndCuts(TrimStart(s));
    var a :| s == a + TrimStart(s) && AllWhitespace(a);
    var b :| TrimStart(s) == Trim(s) + b && AllWhitespace(b);
    assert s == a + Trim(s) + b;
  }

  lemma {:induction false} TrimEndKeepsStart(s: string)
    requires s == [] || !IsWhitespace(s[0])
    ensures IsTrimmed(TrimEnd(s))
  {
    if s != [] && IsWhitespace(s[|s| - 1]) {
      TrimEndKeepsStart(s[..|s| - 1]);
    }
  }

  lemma {:induction false} TrimStartStops(s: string)
    ensures TrimStart(s) == [] || !IsWhitespace(TrimStart(s)[0])
  {
    if s != [] && IsWhitespace(s[0]) {
      TrimStartStops(s[1..]);
    }
  }

  /** Trimming leaves a trimmed string, and a trimmed string alone. */
  lemma TrimIdempotent(s: string)
    ensures IsTrimmed(Trim(s)) && Trim(Trim(s)) == Trim(s)
  {
    TrimStartStops(s);
    TrimEndKeepsStart(TrimStart(s));
  }
}
