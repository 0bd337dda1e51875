/** Request header rewriting: the loop over the rules and its closed form, header by header. */
module Headers {
  import opened Text
  import Wire

  datatype Mode = Set | Append | Remove

  datatype Rule = Rule(name: string, value: Option<string>, mode: Mode)

  /** A header map; a name that is present has at least one value. */
  type HeaderMap = map<string, seq<string>>

  predicate NoEmptyEntry(h: HeaderMap) {
    forall n :: n in h ==> h[n] != []
  }

  function ValuesOf(h: HeaderMap, name: string): seq<string> {
    if name in h then h[name] else []
  }

  // ---- closed form -------------------------------------------------------------------

  /** The rule changes something: `valid` is the test of `HeaderValue::from_str`. */
  predicate Effective(r: Rule, valid: string -> bool) {
    r.mode.Remove? || (r.value.Some? && valid(r.value.value))
  }

  predicate Resets(r: Rule, name: string, valid: string -> bool) {
    r.name == name && !r.mode.Append? && Effective(r, valid)
  }

  predicate Appends(r: Rule, name: string, valid: string -> bool) {
    r.name == name && r.mode.Append? && Effective(r, valid)
  }

  /** The position of the last effective Set or Remove of `name`, or -1. */
  function LastReset(rules: seq<Rule>, name: string, valid: string -> bool): (i: int)
    ensures -1 <= i < |rules|
    ensures i >= 0 ==> Resets(rules[i], name, valid)
  {
    if rules == [] then -1
    else if Resets(rules[|rules| - 1], name, valid) then |rules| - 1
    else LastReset(rules[..|rules| - 1], name, valid)
  }

  lemma {:induction false} LastResetIsLast(rules: seq<Rule>, name: string, valid: string -> bool, j: nat)
    requires LastReset(rules, name, valid) < j < |rules|
    ensures !Resets(rules[j], name, valid)
  {
    if j < |rules| - 1 {
      LastResetIsLast(rules[..|rules| - 1], name, valid, j);
    }
  }

  /** The values of the effective Appends of `name` behind position `i`, in order. */
  function AppendedAfter(rules: seq<Rule>, i: int, name: string, valid: string -> bool): seq<string> {
    if |rules| <= i + 1 || rules == [] then []
    else
      var r := rules[|rules| - 1];
      AppendedAfter(rules[..|rules| - 1], i, name, valid) + if Appends(r, name, valid) then [r.value.value] else []
  }

  /** What is left of the original values after the reset at position `i`, if any. */
  function Base(original: seq<string>, rules: seq<Rule>, i: int): seq<string>
    requires -1 <= i < |rules|
    requires i >= 0 && !rules[i].mode.Remove? ==> rules[i].value.Some?
  {
    if i < 0 then original else if rules[i].mode.Remove? then [] else [rules[i].value.value]
  }

  /** What the rules make of the values of one name: the last reset, then the later appends. */
  function Rewritten(original: seq<string>, rules: seq<Rule>, name: string, valid: string -> bool): seq<string> {
    var i := LastReset(rules, name, valid);
    Base(original, rules, i) + AppendedAfter(rules, i, name, valid)
  }

  lemma LastResetStep(rules: seq<Rule>, r: Rule, name: string, valid: string -> bool)
    ensures LastReset(rules + [r], name, valid) ==
            if Resets(r, name, valid) then |rules| else LastReset(rules, name, valid)
  {
    assert (rules + [r])[..|rules|] == rules;
  }

  /** The effect of one more rule on the values of one name. */
  function Effect(values: seq<string>, r: Rule, name: string, valid: string -> bool): seq<string> {
    if Resets(r, name, valid) then (if r.mode.Remove? then [] else [r.value.value])
    else values + if Appends(r, name, valid) then [r.value.value] else []
  }

  lemma RewrittenStep(original: seq<string>, rules: seq<Rule>, r: Rule, name: string, valid: string -> bool)
    ensures Rewritten(original, rules + [r], name, valid) ==
            Effect(Rewritten(original, rules, name, valid), r, name, valid)
  {
    var all := rules + [r];
    LastResetStep(rules, r, name, valid);
    if !Resets(r, name, valid) {
      var i := LastReset(rules, name, valid);
      assert Base(original, all, i) == Base(original, rules, i);
    }
  }

  /** The closed form rule by rule: no rules change nothing; a rule for another name, and one whose
      value is missing or refused, changes nothing; otherwise a removal leaves no value, a setting
      its own, and an appending adds its own. */
  lemma RewrittenByRule(original: seq<string>, rules: seq<Rule>, r: Rule, valid: string -> bool, name: string)
    ensures Rewritten(original, [], name, valid) == original
    ensures var before, after := Rewritten(original, rules, name, valid), Rewritten(original, rules + [r], name, valid);
            && (r.name != name ==> after == before)
            && (r.name == name && r.mode == Remove ==> after == [])
            && (r.name == name && r.mode != Remove && r.value == None ==> after == before)
            && (forall v :: r.name == name && r.value == Some(v) && !valid(v) && r.mode != Remove ==> after == before)
            && (forall v :: r.name == name && r.value == Some(v) && valid(v) && r.mode == Set ==> after == [v])
            && (forall v :: r.name == name && r.value == Some(v) && valid(v) && r.mode == Append ==> after == before + [v])
  {
    assert original + [] == original;
    RewrittenStep(original, rules, r, name, valid);
  }

  /** The same, one rule after the other. */
  function Folded(original: seq<string>, rules: seq<Rule>, name: string, valid: string -> bool): seq<string> {
    if rules == [] then original
    else Effect(Folded(original, rules[..|rules| - 1], name, valid), rules[|rules| - 1], name, valid)
  }

  lemma {:induction false} FoldedIsRewritten(original: seq<string>, rules: seq<Rule>, name: string, valid: string -> bool)
    ensures Folded(original, rules, name, valid) == Rewritten(original, rules, name, valid)
  {
    if rules == [] {
      assert Rewritten(original, rules, name, valid) == original + [];
    } else {
      var n := |rules| - 1;
      FoldedIsRewritten(original, rules[..n], name, valid);
      RewrittenStep(original, rules[..n], rules[n], name, valid);
      assert rules == rules[..n] + [rules[n]];
    }
  }

  // ---- the loop -----------------------------------------------------------------------

  /** Every header of `out` has the closed form. */
  ghost predicate IsRewrite(out: HeaderMap, headers: HeaderMap, rules: seq<Rule>, valid: string -> bool) {
    NoEmptyEntry(out) && forall n :: ValuesOf(out, n) == Rewritten(ValuesOf(headers, n), rules, n, valid)
  }

  /** `apply_header_rewrites`. */
  method ApplyHeaderRewrites(headers: HeaderMap, rules: seq<Rule>, valid: string -> bool) returns (out: HeaderMap)
    requires NoEmptyEntry(headers)
    ensures IsRewrite(out, headers, rules, valid)
  {
    out := headers;
    for i := 0 to |rules|
      invariant NoEmptyEntry(out)
      invariant forall n :: ValuesOf(out, n) == Folded(ValuesOf(headers, n), rules[..i], n, valid)
    {
      var rule := rules[i];
      ghost var before := out;
      if rule.mode.Remove? {
        out := out - {rule.name};
      } else if rule.value.Some? {
        var value := rule.value.value;
        if valid(value) {
          if rule.mode.Set? {
            out := out[rule.name := [value]];
          } else {
            out := out[rule.name := ValuesOf(out, rule.name) + [value]];
          }
        }
      }
      assert rules[..i + 1][..i] == rules[..i];
      forall n ensures ValuesOf(out, n) == Folded(ValuesOf(headers, n), rules[..i + 1], n, valid) {
        OneRule(before, rule, n, valid, out);
      }
    }
    assert rules[..|rules|] == rules;
    forall n ensures ValuesOf(out, n) == Rewritten(ValuesOf(headers, n), rules, n, valid) {
      FoldedIsRewritten(ValuesOf(headers, n), rules, n, valid);
    }
  }

  lemma OneRule(before: HeaderMap, r: Rule, n: string, valid: string -> bool, after: HeaderMap)
    requires
      if r.mode.Remove? then after == before - {r.name}
      else if r.value.Some? && valid(r.value.value) then
        after == before[r.name := if r.mode.Set? then [r.value.value] else ValuesOf(before, r.name) + [r.value.value]]
      else after == before
    ensures ValuesOf(after, n) == Effect(ValuesOf(before, n), r, n, valid)
  {
  }

  // ---- commutation ------------------------------------------------------------------------

  /** The rules of one name, in order. */
  function Own(rules: seq<Rule>, name: string): seq<Rule> {
    if rules == [] then []
    else
      var r := rules[|rules| - 1];
      Own(rules[..|rules| - 1], name) + if r.name == name then [r] else []
  }

  /** A header depends on its own rules alone. */
  lemma {:induction false} OnlyOwnRulesMatter(original: seq<string>, rules: seq<Rule>, name: string, valid: string -> bool)
    ensures Rewritten(original, rules, name, valid) == Rewritten(original, Own(rules, name), name, valid)
  {
    if rules != [] {
      var n := |rules| - 1;
      var r := rules[n];
      OnlyOwnRulesMatter(original, rules[..n], name, valid);
      assert rules == rules[..n] + [r];
      RewrittenStep(original, rules[..n], r, name, valid);
      if r.name == name {
        RewrittenStep(original, Own(rules[..n], name), r, name, valid);
      } else {
        assert Own(rules, name) == Own(rules[..n], name);
      }
    }
  }

  /** Two rule lists with the same rules for each name, however interleaved, give the same headers. */
  lemma InterleavingIsIrrelevant(h: HeaderMap, rules: seq<Rule>, rules': seq<Rule>, valid: string -> bool, out: HeaderMap, out': HeaderMap)
    requires forall n :: Own(rules, n) == Own(rules', n)
    requires IsRewrite(out, h, rules, valid) && IsRewrite(out', h, rules', valid)
    ensures out == out'
  {
    forall n ensures ValuesOf(out, n) == ValuesOf(out', n) {
      OnlyOwnRulesMatter(ValuesOf(h, n), rules, n, valid);
      OnlyOwnRulesMatter(ValuesOf(h, n), rules', n, valid);
    }
    forall n ensures n in out <==> n in out' {
      assert ValuesOf(out, n) == ValuesOf(out', n);
    }
    forall n | n in out ensures out[n] == out'[n] {
      assert ValuesOf(out, n) == ValuesOf(out', n);
    }
  }

  lemma {:induction false} OwnConcat(a: seq<Rule>, b: seq<Rule>, name: string)
    ensures Own(a + b, name) == Own(a, name) + Own(b, name)
  {
    if b == [] {
      assert a + b == a;
    } else {
      var n := |b| - 1;
      assert (a + b)[..|a + b| - 1] == a + b[..n];
      OwnConcat(a, b[..n], name);
    }
  }

  lemma OwnPair(a: Rule, b: Rule, name: string)
    ensures Own([a, b], name) == (if a.name == name then [a] else []) + if b.name == name then [b] else []
  {
    assert [a, b][..1] == [a] && [a][..0] == [];
    assert Own([a], name) == if a.name == name then [a] else [];
  }

  lemma OwnMiddle(xs: seq<Rule>, m: seq<Rule>, ys: seq<Rule>, name: string)
    ensures Own(xs + m + ys, name) == Own(xs, name) + Own(m, name) + Own(ys, name)
  {
    OwnConcat(xs + m, ys, name);
    OwnConcat(xs, m, name);
  }

  lemma OwnIgnoresExchange(xs: seq<Rule>, a: Rule, b: Rule, ys: seq<Rule>, name: string)
    requires a.name != b.name
    ensures Own(xs + [a, b] + ys, name) == Own(xs + [b, a] + ys, name)
  {
    OwnMiddle(xs, [a, b], ys, name);
    OwnMiddle(xs, [b, a], ys, name);
    OwnPair(a, b, name);
    OwnPair(b, a, name);
    assert Own([a, b], name) == Own([b, a], name);
  }

  /** Neighbouring rules on different names may be exchanged. */
  lemma DifferentNamesCommute(
    h: HeaderMap, xs: seq<Rule>, a: Rule, b: Rule, ys: seq<Rule>, valid: string -> bool, out: HeaderMap, out': HeaderMap)
    requires a.name != b.name
    requires IsRewrite(out, h, xs + [a, b] + ys, valid) && IsRewrite(out', h, xs + [b, a] + ys, valid)
    ensures out == out'
  {
    forall n ensures Own(xs + [a, b] + ys, n) == Own(xs + [b, a] + ys, n) {
      OwnIgnoresExchange(xs, a, b, ys, n);
    }
    InterleavingIsIrrelevant(h, xs + [a, b] + ys, xs + [b, a] + ys, valid, out, out');
  }

  // ---- the rules of a cluster -------------------------------------------------------------

  /** `HeaderRewriteMode::parse`. */
  function ParseMode(mode: string): Option<Mode> {
    var m := Lower(mode);
    if m == "set" then Some(Set)
    else if m == "append" then Some(Append)
    else if m == "remove" then Some(Remove)
    else None
  }

  predicate Usable(item: Wire.HeaderRewrite, parseName: string -> Option<string>) {
    Trim(item.name) != "" && ParseMode(item.mode).Some? && parseName(Trim(item.name)).Some?
  }

  function RuleOf(item: Wire.HeaderRewrite, parseName: string -> Option<string>): Rule
    requires Usable(item, parseName)
  {
    var mode := ParseMode(item.mode).value;
    Rule(parseName(Trim(item.name)).value, if mode.Remove? then None else Some(item.value), mode)
  }

  /** The usable items in order. */
  function Built(items: seq<Wire.HeaderRewrite>, parseName: string -> Option<string>): seq<Rule> {
    if items == [] then []
    else
      var item := items[|items| - 1];
      Built(items[..|items| - 1], parseName) + if Usable(item, parseName) then [RuleOf(item, parseName)] else []
  }

  /** The rule that an item of the cluster says: its trimmed name, a mode in any case, and its value
      unless it removes. */
  predicate Says(item: Wire.HeaderRewrite, parseName: string -> Option<string>, r: Rule) {
    && Trim(item.name) != "" && parseName(Trim(item.name)) == Some(r.name)
    && (|| (Lower(item.mode) == "set" && r.mode == Set && r.value == Some(item.value))
        || (Lower(item.mode) == "append" && r.mode == Append && r.value == Some(item.value))
        || (Lower(item.mode) == "remove" && r.mode == Remove && r.value == None))
  }

  /** `picks` are the positions of the items that say something, in order, and `rules` is what they
      say. */
  ghost predicate SaidBy(
    rules: seq<Rule>, items: seq<Wire.HeaderRewrite>, parseName: string -> Option<string>, picks: seq<nat>)
  {
    && |picks| == |rules|
    && (forall k :: 0 <= k < |picks| ==> picks[k] < |items| && Says(items[picks[k]], parseName, rules[k]))
    && (forall k, l :: 0 <= k < l < |picks| ==> picks[k] < picks[l])
    && (forall j, r :: 0 <= j < |items| && Says(items[j], parseName, r) ==> j in picks)
  }

  lemma UsableSays(item: Wire.HeaderRewrite, parseName: string -> Option<string>, r: Rule)
    ensures Says(item, parseName, r) <==> Usable(item, parseName) && r == RuleOf(item, parseName)
  {
  }

  /** One more item is picked exactly when it is usable. */
  lemma SaidByStep(
    rules: seq<Rule>, items: seq<Wire.HeaderRewrite>, parseName: string -> Option<string>, picks: seq<nat>,
    item: Wire.HeaderRewrite)
    requires SaidBy(rules, items, parseName, picks)
    ensures if Usable(item, parseName)
            then SaidBy(rules + [RuleOf(item, parseName)], items + [item], parseName, picks + [|items|])
            else SaidBy(rules, items + [item], parseName, picks)
  {
    forall r ensures Says(item, parseName, r) <==> Usable(item, parseName) && r == RuleOf(item, parseName) {
      UsableSays(item, parseName, r);
    }
    assert forall j :: 0 <= j < |items| ==> (items + [item])[j] == items[j];
  }

  lemma {:induction false} BuiltSays(items: seq<Wire.HeaderRewrite>, parseName: string -> Option<string>)
    returns (picks: seq<nat>)
    ensures SaidBy(Built(items, parseName), items, parseName, picks)
  {
    picks := [];
    if items != [] {
      var n := |items| - 1;
      assert items == items[..n] + [items[n]];
      picks := BuiltSays(items[..n], parseName);
      SaidByStep(Built(items[..n], parseName), items[..n], parseName, picks, items[n]);
      picks := if Usable(items[n], parseName) then picks + [n] else picks;
    }
  }

  /** `build_header_rewrites`; `parseName` is `HeaderName::from_bytes`. No rule it builds lacks a
      value that the rewriting loop needs. */
  method BuildHeaderRewrites(items: seq<Wire.HeaderRewrite>, parseName: string -> Option<string>) returns (rules: seq<Rule>)
    ensures rules == Built(items, parseName)
    ensures exists picks :: SaidBy(rules, items, parseName, picks)
    ensures forall r :: r in rules ==> (r.value.None? <==> r.mode.Remove?)
  {
    rules := [];
    for i := 0 to |items|
      invariant rules == Built(items[..i], parseName)
      invariant forall r :: r in rules ==> (r.value.None? <==> r.mode.Remove?)
    {
      var item := items[i];
      assert items[..i + 1][..i] == items[..i];
      var name := Trim(item.name);
      if name == "" { continue; }
      var mode := ParseMode(item.mode);
      if mode.None? { continue; }
      var value := if mode.value.Remove? then None else Some(item.value);
      var headerName := parseName(name);
      if headerName.None? { continue; }
      rules := rules + [Rule(headerName.value, value, mode.value)];
    }
    assert items[..|items|] == items;
    ghost var picks := BuiltSays(items, parseName);
  }
}
