/**
 `chomsky_normal_form`: every rule is rewritten into rules of length one or
 two, minting name non-terminals `owner + str(counter)` from a counter that
 starts at 1 and is local to the call.
 */
module Normalize {
  import opened Grammars
  import Decimal

  /** `f"{owner}{counter}"`. */
  function FreshName(owner: Symbol, counter: nat): (n: Symbol)
    ensures |n| > |owner| && n[..|owner|] == owner
  {
    owner + Decimal.NatToString(counter)
  }

  /** The same owner never gets the same name for two counter values. */
  lemma FreshNameInjective(owner: Symbol, c1: nat, c2: nat)
    ensures FreshName(owner, c1) == FreshName(owner, c2) ==> c1 == c2
  {
    if FreshName(owner, c1) == FreshName(owner, c2) {
      assert FreshName(owner, c1)[|owner|..] == Decimal.NatToString(c1);
      assert FreshName(owner, c2)[|owner|..] == Decimal.NatToString(c2);
      Decimal.NatToStringInjective(c1, c2);
    }
  }

  /** The `k`-th name minted from `owner` when the counter stood at `c`. */
  function ChainName(owner: Symbol, c: nat, k: nat): Symbol
  {
    FreshName(owner, c + k)
  }

  /** The names minted from `owner` for the counter values `c .. c + n - 1`. */
  function Minted(owner: Symbol, c: nat, n: nat): set<Symbol>
  {
    set k: nat | k < n :: ChainName(owner, c, k)
  }

  /** The dictionary being built and the name counter, as the loops carry them. */
  datatype State = State(grammar: Grammar, counter: nat)

  /** Every key has at least one rule, and every rule has one or two symbols. */
  predicate Binary(g: Grammar)
  {
    forall k :: k in g.rules ==> BinaryRules(Get(g, k))
  }

  predicate BinaryRules(rules: seq<Rule>)
  {
    rules != [] && forall rule :: rule in rules ==> 1 <= |rule| <= 2
  }

  lemma BinaryPut(g: Grammar, k: Symbol, v: seq<Rule>)
    ensures Binary(g) && BinaryRules(v) ==> Binary(Put(g, k, v))
  {
    PutEffect(g, k, v);
  }

  lemma BinaryAppend(g: Grammar, k: Symbol, rule: Rule)
    ensures Binary(g) && 1 <= |rule| <= 2 ==> Binary(Append(g, k, rule))
  {
    BinaryPut(g, k, Get(g, k) + [rule]);
  }

  lemma MarkerFreePut(g: Grammar, k: Symbol, v: seq<Rule>)
    ensures MarkerFree(g) && k != EmptyMarker && RulesMarkerFree(v) ==> MarkerFree(Put(g, k, v))
  {
    if MarkerFree(g) && k != EmptyMarker && RulesMarkerFree(v) {
      var r := Put(g, k, v);
      PutEffect(g, k, v);
      forall x | x in r.rules
        ensures x != EmptyMarker && RulesMarkerFree(r.rules[x])
      {
        assert r.rules[x] == Get(r, x);
        if x != k {
          assert g.rules[x] == Get(g, x);
        }
      }
    }
  }

  lemma MarkerFreeAppend(g: Grammar, k: Symbol, rule: Rule)
    ensures MarkerFree(g) && k != EmptyMarker && |rule| > 0 && EmptyMarker !in rule
            ==> MarkerFree(Append(g, k, rule))
  {
    if MarkerFree(g) && k in g.rules {
      assert RulesMarkerFree(g.rules[k]);
    }
    MarkerFreePut(g, k, Get(g, k) + [rule]);
  }

  /** Boxing `s` behind `name` and appending `[name]` to `prev` keeps both shapes. */
  lemma BoxPreserves(g: Grammar, name: Symbol, s: Symbol, prev: Symbol)
    ensures Valid(g) ==> Valid(Append(Put(g, name, [[s]]), prev, [name]))
    ensures Binary(g) ==> Binary(Append(Put(g, name, [[s]]), prev, [name]))
    ensures MarkerFree(g) && name != EmptyMarker && prev != EmptyMarker && s != EmptyMarker
            ==> MarkerFree(Append(Put(g, name, [[s]]), prev, [name]))
  {
    var box: seq<Rule> := [[s]];
    var unit: Rule := [name];
    var g0 := Put(g, name, box);
    assert BinaryRules(box);
    BinaryPut(g, name, box);
    BinaryAppend(g0, prev, unit);
    if s != EmptyMarker {
      assert RulesMarkerFree(box);
    }
    MarkerFreePut(g, name, box);
    MarkerFreeAppend(g0, prev, unit);
    PutEffect(g, name, box);
    AppendEffect(g0, prev, unit);
  }

  /** How far one rule advances the counter. */
  function Mints(rule: Rule): nat
  {
    if |rule| == 1 then 1 else if |rule| <= 2 then 0 else |rule| - 1
  }

  /** How far the rules of the keys `keys[i..]` advance the counter. */
  function MintsFrom(g: Grammar, i: nat): nat
    decreases |g.keys| - i
  {
    if i >= |g.keys| then 0 else MintsOf(Get(g, g.keys[i])) + MintsFrom(g, i + 1)
  }

  function MintsOf(rules: seq<Rule>): nat
  {
    if rules == [] then 0 else Mints(rules[0]) + MintsOf(rules[1..])
  }

  /** The inner loop over `rule[1:]`: each symbol is boxed behind a fresh name, which is
      appended as a unit rule to the previous name (the first to `prev`). */
  function Chain(st: State, owner: Symbol, prev: Symbol, syms: seq<Symbol>): (r: State)
    ensures r.counter == st.counter + |syms|
    decreases |syms|
  {
    if syms == [] then st
    else
      var name := FreshName(owner, st.counter);
      var g1 := Append(Put(st.grammar, name, [[syms[0]]]), prev, [name]);
      Chain(State(g1, st.counter + 1), owner, name, syms[1..])
  }

  /** One iteration of the loop over an owner's rules. It advances the counter by one for a
      rule of one symbol, by its length minus one for a rule of more than two, and not at all
      for a rule of two. */
  function NormalizeRule(st: State, owner: Symbol, rule: Rule): (r: State)
    requires |rule| > 0
    ensures r.counter == st.counter + Mints(rule)
  {
    if |rule| == 1 then
      var name := FreshName(owner, st.counter);
      State(Append(Put(st.grammar, name, [[rule[0]]]), owner, [name]), st.counter + 1)
    else if |rule| == 2 then
      State(Append(st.grammar, owner, rule), st.counter)
    else
      Chain(st, owner, rule[0], rule[1..])
  }

  /** The loop over an owner's rules. */
  function NormalizeRules(st: State, owner: Symbol, rules: seq<Rule>): State
    requires forall rule :: rule in rules ==> |rule| > 0
    decreases |rules|
  {
    if rules == [] then st
    else NormalizeRules(NormalizeRule(st, owner, rules[0]), owner, rules[1..])
  }

  /** The loop over the keys `keys[i..]` of the input. */
  function NormalizeKeys(st: State, g: Grammar, i: nat): State
    requires NonEmptyRules(g)
    decreases |g.keys| - i
  {
    if i >= |g.keys| then st
    else NormalizeKeys(NormalizeRules(st, g.keys[i], Get(g, g.keys[i])), g, i + 1)
  }

  /** What `chomsky_normal_form(g)` returns. */
  function Normalized(g: Grammar): Grammar
    requires NonEmptyRules(g)
  {
    NormalizeKeys(State(Empty, 1), g, 0).grammar
  }

  /** The shape every step keeps: a dictionary, binary rules, and (for a marker-free
      input) no empty marker. */
  ghost predicate Shaped(g: Grammar, markerFree: bool)
  {
    Valid(g) && Binary(g) && (markerFree ==> MarkerFree(g))
  }

  lemma BoxShaped(g: Grammar, name: Symbol, s: Symbol, prev: Symbol, markerFree: bool)
    requires Shaped(g, markerFree)
    requires markerFree ==> name != EmptyMarker && prev != EmptyMarker && s != EmptyMarker
    ensures Shaped(Append(Put(g, name, [[s]]), prev, [name]), markerFree)
  {
    BoxPreserves(g, name, s, prev);
  }

  lemma {:induction false} ChainShaped(st: State, owner: Symbol, prev: Symbol, syms: seq<Symbol>, markerFree: bool)
    requires Shaped(st.grammar, markerFree)
    requires markerFree ==> prev != EmptyMarker && EmptyMarker !in syms
    ensures Shaped(Chain(st, owner, prev, syms).grammar, markerFree)
    decreases |syms|
  {
    if syms != [] {
      var name := FreshName(owner, st.counter);
      var st1 := State(Append(Put(st.grammar, name, [[syms[0]]]), prev, [name]), st.counter + 1);
      ChainUnfold(st, owner, prev, syms);
      BoxShaped(st.grammar, name, syms[0], prev, markerFree);
      assert markerFree ==> EmptyMarker !in syms[1..];
      ChainShaped(st1, owner, name, syms[1..], markerFree);
    }
  }

  lemma RuleShaped(st: State, owner: Symbol, rule: Rule, markerFree: bool)
    requires |rule| > 0
    requires Shaped(st.grammar, markerFree)
    requires markerFree ==> owner != EmptyMarker && EmptyMarker !in rule
    ensures Shaped(NormalizeRule(st, owner, rule).grammar, markerFree)
  {
    if |rule| == 1 {
      BoxShaped(st.grammar, FreshName(owner, st.counter), rule[0], owner, markerFree);
    } else if |rule| == 2 {
      BinaryAppend(st.grammar, owner, rule);
      MarkerFreeAppend(st.grammar, owner, rule);
      AppendEffect(st.grammar, owner, rule);
    } else {
      assert markerFree ==> EmptyMarker !in rule[1..];
      ChainShaped(st, owner, rule[0], rule[1..], markerFree);
    }
  }

  lemma {:induction false} RulesShaped(st: State, owner: Symbol, rules: seq<Rule>, markerFree: bool)
    requires forall rule :: rule in rules ==> |rule| > 0
    requires Shaped(st.grammar, markerFree)
    requires markerFree ==> owner != EmptyMarker && RulesMarkerFree(rules)
    ensures Shaped(NormalizeRules(st, owner, rules).grammar, markerFree)
    decreases |rules|
  {
    if rules != [] {
      RuleShaped(st, owner, rules[0], markerFree);
      RulesShaped(NormalizeRule(st, owner, rules[0]), owner, rules[1..], markerFree);
    }
  }

  lemma {:induction false} KeysShaped(st: State, g: Grammar, i: nat)
    requires NonEmptyRules(g) && Valid(g)
    requires Shaped(st.grammar, MarkerFree(g))
    ensures Shaped(NormalizeKeys(st, g, i).grammar, MarkerFree(g))
    decreases |g.keys| - i
  {
    if i < |g.keys| {
      var owner := g.keys[i];
      assert owner in g.rules;
      assert MarkerFree(g) ==> owner != EmptyMarker && RulesMarkerFree(Get(g, owner));
      RulesShaped(st, owner, Get(g, owner), MarkerFree(g));
      KeysShaped(NormalizeRules(st, owner, Get(g, owner)), g, i + 1);
    }
  }

  /** `chomsky_normal_form` returns a dictionary whose every key owns at least one rule and
      whose every rule has one or two symbols; from a marker-free input it never introduces
      the empty marker. */
  lemma NormalizedShape(g: Grammar)
    requires Valid(g) && NonEmptyRules(g)
    ensures Valid(Normalized(g)) && Binary(Normalized(g))
    ensures MarkerFree(g) ==> MarkerFree(Normalized(g))
  {
    KeysShaped(State(Empty, 1), g, 0);
  }

  /** A length-2 rule is appended unchanged to its owner's list; nothing else changes. */
  lemma PairRuleEffect(st: State, owner: Symbol, rule: Rule)
    requires |rule| == 2
    ensures var r := NormalizeRule(st, owner, rule);
      && r.counter == st.counter
      && Get(r.grammar, owner) == Get(st.grammar, owner) + [rule]
      && forall x :: x != owner ==> Get(r.grammar, x) == Get(st.grammar, x)
  {
  }

  /** A length-1 rule `[s]` binds the fresh name `owner + str(counter)` to exactly `[[s]]`,
      appends `[name]` to the owner's list and advances the counter by one. */
  lemma UnitRuleEffect(st: State, owner: Symbol, rule: Rule)
    requires |rule| == 1
    ensures var r := NormalizeRule(st, owner, rule);
      var name := FreshName(owner, st.counter);
      && r.counter == st.counter + 1
      && name != owner
      && Get(r.grammar, name) == [rule]
      && Get(r.grammar, owner) == Get(st.grammar, owner) + [[name]]
      && forall x :: x != owner && x != name ==> Get(r.grammar, x) == Get(st.grammar, x)
  {
    assert rule == [rule[0]];
  }

  /** The chain over `syms`: the `k`-th fresh name is bound to `[[syms[k]]]` followed by a
      unit rule to the next fresh name, `prev` gains a unit rule to the first one, and
      nothing else changes, provided `prev` is not itself one of the minted names. */
  lemma ChainEffect(st: State, owner: Symbol, prev: Symbol, syms: seq<Symbol>)
    requires |syms| > 0
    requires prev !in Minted(owner, st.counter, |syms|)
    ensures var r := Chain(st, owner, prev, syms);
      && Get(r.grammar, prev) == Get(st.grammar, prev) + [[ChainName(owner, st.counter, 0)]]
      && (forall k: nat :: k < |syms| ==>
            Get(r.grammar, ChainName(owner, st.counter, k))
            == [[syms[k]]] + (if k + 1 < |syms| then [[ChainName(owner, st.counter, k + 1)]] else []))
      && (forall x :: x != prev && x !in Minted(owner, st.counter, |syms|) ==>
            Get(r.grammar, x) == Get(st.grammar, x))
  {
    ChainPrev(st, owner, prev, syms);
    forall k: nat | k < |syms| {
      ChainBinding(st, owner, prev, syms, k);
    }
    forall x | x != prev && x !in Minted(owner, st.counter, |syms|) {
      ChainOthers(st, owner, prev, syms, x);
    }
  }

  /** One step of the chain, unfolded. */
  lemma ChainUnfold(st: State, owner: Symbol, prev: Symbol, syms: seq<Symbol>)
    requires |syms| > 0
    ensures var name := FreshName(owner, st.counter);
      && Chain(st, owner, prev, syms)
         == Chain(State(Append(Put(st.grammar, name, [[syms[0]]]), prev, [name]), st.counter + 1),
                  owner, name, syms[1..])
      && name == ChainName(owner, st.counter, 0)
  {
  }

  lemma {:induction false} ChainOthers(st: State, owner: Symbol, prev: Symbol, syms: seq<Symbol>, x: Symbol)
    requires x != prev && x !in Minted(owner, st.counter, |syms|)
    ensures Get(Chain(st, owner, prev, syms).grammar, x) == Get(st.grammar, x)
    decreases |syms|
  {
    if |syms| > 0 {
      var c := st.counter;
      var name := FreshName(owner, c);
      var st1 := State(Append(Put(st.grammar, name, [[syms[0]]]), prev, [name]), c + 1);
      var r1 := Chain(st1, owner, name, syms[1..]);
      ChainUnfold(st, owner, prev, syms);
      assert Chain(st, owner, prev, syms) == r1;
      MintedShift(owner, c, |syms|);
      assert x != name;
      assert x !in Minted(owner, c + 1, |syms| - 1);
      ChainOthers(st1, owner, name, syms[1..], x);
      PutEffect(st.grammar, name, [[syms[0]]]);
      AppendEffect(Put(st.grammar, name, [[syms[0]]]), prev, [name]);
    }
  }

  lemma ChainPrev(st: State, owner: Symbol, prev: Symbol, syms: seq<Symbol>)
    requires |syms| > 0
    requires prev !in Minted(owner, st.counter, |syms|)
    ensures Get(Chain(st, owner, prev, syms).grammar, prev)
            == Get(st.grammar, prev) + [[ChainName(owner, st.counter, 0)]]
  {
    var c := st.counter;
    var name := FreshName(owner, c);
    var g1 := Append(Put(st.grammar, name, [[syms[0]]]), prev, [name]);
    var st1 := State(g1, c + 1);
    var r1 := Chain(st1, owner, name, syms[1..]);
    ChainUnfold(st, owner, prev, syms);
    assert Chain(st, owner, prev, syms) == r1;
    MintedShift(owner, c, |syms|);
    assert prev != name;
    assert prev !in Minted(owner, c + 1, |syms| - 1);
    ChainOthers(st1, owner, name, syms[1..], prev);
    assert Get(r1.grammar, prev) == Get(g1, prev);
    assert Get(g1, prev) == Get(st.grammar, prev) + [[name]];
  }

  /** The first minted name holds its symbol, then a unit rule to the second name, if any. */
  lemma ChainHead(st: State, owner: Symbol, prev: Symbol, syms: seq<Symbol>)
    requires |syms| > 0
    requires prev !in Minted(owner, st.counter, |syms|)
    ensures Get(Chain(st, owner, prev, syms).grammar, ChainName(owner, st.counter, 0))
            == [[syms[0]]] + (if 1 < |syms| then [[ChainName(owner, st.counter, 1)]] else [])
  {
    var c := st.counter;
    var name := FreshName(owner, c);
    var g1 := Append(Put(st.grammar, name, [[syms[0]]]), prev, [name]);
    var st1 := State(g1, c + 1);
    var rest := syms[1..];
    var r1 := Chain(st1, owner, name, rest);
    ChainUnfold(st, owner, prev, syms);
    assert Chain(st, owner, prev, syms) == r1;
    MintedShift(owner, c, |syms|);
    assert Get(g1, name) == [[syms[0]]];
    if |rest| == 0 {
      assert r1 == st1;
    } else {
      MintedAfter(owner, c, |rest|);
      ChainPrev(st1, owner, name, rest);
      assert Get(r1.grammar, name) == Get(g1, name) + [[ChainName(owner, c + 1, 0)]];
      ChainNameShift(owner, c, 1);
    }
  }

  lemma {:induction false} ChainBinding(st: State, owner: Symbol, prev: Symbol, syms: seq<Symbol>, k: nat)
    requires k < |syms|
    requires prev !in Minted(owner, st.counter, |syms|)
    ensures Get(Chain(st, owner, prev, syms).grammar, ChainName(owner, st.counter, k))
            == [[syms[k]]] + (if k + 1 < |syms| then [[ChainName(owner, st.counter, k + 1)]] else [])
    decreases |syms|
  {
    if k == 0 {
      ChainHead(st, owner, prev, syms);
    } else {
      var c := st.counter;
      var c1 := c + 1;
      var name := FreshName(owner, c);
      var g1 := Append(Put(st.grammar, name, [[syms[0]]]), prev, [name]);
      var st1 := State(g1, c1);
      var rest := syms[1..];
      var r1 := Chain(st1, owner, name, rest);
      ChainUnfold(st, owner, prev, syms);
      assert Chain(st, owner, prev, syms) == r1;
      MintedAfter(owner, c, |rest|);
      var k' := k - 1;
      ChainBinding(st1, owner, name, rest, k');
      ChainNameShift(owner, c, k);
      ChainNameShift(owner, c, k + 1);
      assert rest[k'] == syms[k];
    }
  }

  lemma ChainNameShift(owner: Symbol, c: nat, k: nat)
    requires k > 0
    ensures ChainName(owner, c, k) == ChainName(owner, c + 1, k - 1)
  {
    assert c + k == (c + 1) + (k - 1);
  }

  /** The names minted from counter `c` are the first one and those minted from `c + 1`. */
  lemma MintedShift(owner: Symbol, c: nat, n: nat)
    requires n > 0
    ensures Minted(owner, c, n) == {ChainName(owner, c, 0)} + Minted(owner, c + 1, n - 1)
    ensures forall k: nat :: 0 < k <= n ==> ChainName(owner, c, k) == ChainName(owner, c + 1, k - 1)
  {
    var c1 := c + 1;
    forall x | x in Minted(owner, c, n)
      ensures x == ChainName(owner, c, 0) || x in Minted(owner, c1, n - 1)
    {
      var k: nat :| k < n && x == ChainName(owner, c, k);
      if k > 0 {
        assert x == ChainName(owner, c1, k - 1);
      }
    }
    forall x | x in Minted(owner, c1, n - 1)
      ensures x in Minted(owner, c, n)
    {
      var k: nat :| k < n - 1 && x == ChainName(owner, c1, k);
      assert x == ChainName(owner, c, k + 1);
    }
  }

  /** The name for counter `c` is not among those minted later. */
  lemma MintedAfter(owner: Symbol, c: nat, n: nat)
    ensures FreshName(owner, c) !in Minted(owner, c + 1, n)
  {
    if FreshName(owner, c) in Minted(owner, c + 1, n) {
      var k: nat :| k < n && FreshName(owner, c) == ChainName(owner, c + 1, k);
      FreshNameInjective(owner, c, c + 1 + k);
    }
  }

  /** A rule `[s0, .., sk]` with `k >= 2` mints `k` fresh names: the `i`-th is bound to
      `[[s_i]]` and then to a unit rule to the next; `s0`, not the owner, gains a unit rule
      to the first; the counter advances by `k`; nothing else changes. */
  lemma LongRuleEffect(st: State, owner: Symbol, rule: Rule)
    requires |rule| >= 3
    requires rule[0] !in Minted(owner, st.counter, |rule| - 1)
    ensures var r := NormalizeRule(st, owner, rule);
      && r.counter == st.counter + |rule| - 1
      && Get(r.grammar, rule[0]) == Get(st.grammar, rule[0]) + [[FreshName(owner, st.counter)]]
      && (forall k: nat :: 0 < k < |rule| ==>
            Get(r.grammar, ChainName(owner, st.counter, k - 1))
            == [[rule[k]]] + (if k + 1 < |rule| then [[ChainName(owner, st.counter, k)]] else []))
      && (forall x :: x != rule[0] && x !in Minted(owner, st.counter, |rule| - 1) ==>
            Get(r.grammar, x) == Get(st.grammar, x))
      && (rule[0] != owner ==> Get(r.grammar, owner) == Get(st.grammar, owner))
  {
    var r := NormalizeRule(st, owner, rule);
    var rest := rule[1..];
    assert r == Chain(st, owner, rule[0], rest);
    ChainPrev(st, owner, rule[0], rest);
    forall k: nat | 0 < k < |rule|
      ensures Get(r.grammar, ChainName(owner, st.counter, k - 1))
              == [[rule[k]]] + (if k + 1 < |rule| then [[ChainName(owner, st.counter, k)]] else [])
    {
      ChainBinding(st, owner, rule[0], rest, k - 1);
      assert rest[k - 1] == rule[k];
    }
    forall x | x != rule[0] && x !in Minted(owner, st.counter, |rule| - 1)
      ensures Get(r.grammar, x) == Get(st.grammar, x)
    {
      ChainOthers(st, owner, rule[0], rest, x);
    }
    assert owner !in Minted(owner, st.counter, |rule| - 1);
  }

  /** The chain when `prev` is itself the `t`-th name it mints. The `t`-th step overwrites
      `prev`'s list, so the unit rule to the first name that `prev` gained in the first step
      survives only when `t` is 0; then the first name holds its symbol, a unit rule to
      itself and a unit rule to the second name. Every other minted name and every other key
      is as in the general case. */
  lemma ChainCollision(st: State, owner: Symbol, prev: Symbol, syms: seq<Symbol>, t: nat)
    requires t < |syms| && prev == ChainName(owner, st.counter, t)
    ensures var r := Chain(st, owner, prev, syms);
      && Get(r.grammar, ChainName(owner, st.counter, 0))
         == [[syms[0]]] + (if t == 0 then [[prev]] else [])
            + (if 1 < |syms| then [[ChainName(owner, st.counter, 1)]] else [])
      && (forall k: nat :: 0 < k < |syms| ==>
            Get(r.grammar, ChainName(owner, st.counter, k))
            == [[syms[k]]] + (if k + 1 < |syms| then [[ChainName(owner, st.counter, k + 1)]] else []))
      && (forall x :: x !in Minted(owner, st.counter, |syms|) ==> Get(r.grammar, x) == Get(st.grammar, x))
  {
    CollisionHead(st, owner, prev, syms, t);
    forall k: nat | 0 < k < |syms|
      ensures Get(Chain(st, owner, prev, syms).grammar, ChainName(owner, st.counter, k))
              == [[syms[k]]] + (if k + 1 < |syms| then [[ChainName(owner, st.counter, k + 1)]] else [])
    {
      CollisionBinding(st, owner, prev, syms, k);
    }
    forall x | x !in Minted(owner, st.counter, |syms|)
      ensures Get(Chain(st, owner, prev, syms).grammar, x) == Get(st.grammar, x)
    {
      CollisionOthers(st, owner, prev, syms, t, x);
    }
  }

  /** One step of a chain, read at the name it mints: its box, and the unit rule to itself
      when `prev` is that very name. */
  lemma StepHead(g: Grammar, name: Symbol, box: seq<Rule>, prev: Symbol)
    ensures Get(Append(Put(g, name, box), prev, [name]), name) == box + (if prev == name then [[name]] else [])
  {
    PutEffect(g, name, box);
    AppendEffect(Put(g, name, box), prev, [name]);
  }

  /** The first name of a chain whose `prev` is its own `t`-th name. */
  lemma CollisionHead(st: State, owner: Symbol, prev: Symbol, syms: seq<Symbol>, t: nat)
    requires t < |syms| && prev == ChainName(owner, st.counter, t)
    ensures Get(Chain(st, owner, prev, syms).grammar, ChainName(owner, st.counter, 0))
            == [[syms[0]]] + (if t == 0 then [[prev]] else [])
               + (if 1 < |syms| then [[ChainName(owner, st.counter, 1)]] else [])
  {
    var c := st.counter;
    var name := FreshName(owner, c);
    var g1 := Append(Put(st.grammar, name, [[syms[0]]]), prev, [name]);
    ChainUnfold(st, owner, prev, syms);
    if t != 0 {
      FreshNameInjective(owner, c, c + t);
    }
    StepHead(st.grammar, name, [[syms[0]]], prev);
    MintedAfter(owner, c, |syms| - 1);
    PrevAfter(State(g1, c + 1), owner, name, syms[1..]);
    ChainNameShift(owner, c, 1);
  }

  /** What a chain leaves under a `prev` it does not mint: its old list, plus the unit rule
      to the first name when the chain mints any. */
  lemma PrevAfter(st: State, owner: Symbol, prev: Symbol, syms: seq<Symbol>)
    requires prev !in Minted(owner, st.counter, |syms|)
    ensures Get(Chain(st, owner, prev, syms).grammar, prev)
            == Get(st.grammar, prev) + (if syms == [] then [] else [[ChainName(owner, st.counter, 0)]])
  {
    if syms != [] {
      ChainPrev(st, owner, prev, syms);
    }
  }

  /** A key no step of such a chain mints keeps its list. */
  lemma CollisionOthers(st: State, owner: Symbol, prev: Symbol, syms: seq<Symbol>, t: nat, x: Symbol)
    requires t < |syms| && prev == ChainName(owner, st.counter, t)
    requires x !in Minted(owner, st.counter, |syms|)
    ensures Get(Chain(st, owner, prev, syms).grammar, x) == Get(st.grammar, x)
  {
    var c := st.counter;
    var name := FreshName(owner, c);
    var st1 := State(Append(Put(st.grammar, name, [[syms[0]]]), prev, [name]), c + 1);
    var rest := syms[1..];
    ChainUnfold(st, owner, prev, syms);
    MintedShift(owner, c, |syms|);
    assert prev in Minted(owner, c, |syms|);
    ChainOthers(st1, owner, name, rest, x);
    AppendEffect(Put(st.grammar, name, [[syms[0]]]), prev, [name]);
    PutEffect(st.grammar, name, [[syms[0]]]);
  }

  /** Past the first step a chain binds its later names the same way whatever `prev` is. */
  lemma CollisionBinding(st: State, owner: Symbol, prev: Symbol, syms: seq<Symbol>, k: nat)
    requires 0 < k < |syms|
    ensures Get(Chain(st, owner, prev, syms).grammar, ChainName(owner, st.counter, k))
            == [[syms[k]]] + (if k + 1 < |syms| then [[ChainName(owner, st.counter, k + 1)]] else [])
  {
    var c := st.counter;
    var name := FreshName(owner, c);
    var st1 := State(Append(Put(st.grammar, name, [[syms[0]]]), prev, [name]), c + 1);
    var rest := syms[1..];
    ChainUnfold(st, owner, prev, syms);
    MintedAfter(owner, c, |rest|);
    ChainBinding(st1, owner, name, rest, k - 1);
    ChainNameShift(owner, c, k);
    ChainNameShift(owner, c, k + 1);
    assert rest[k - 1] == syms[k];
  }

  /** A long rule whose first symbol is the `t`-th name the rule itself mints, such as
      `A -> A1 x y`: the chain behaves as `ChainCollision` says, the counter advances by the
      number of names minted, and the owner's list is untouched. */
  lemma LongRuleCollision(st: State, owner: Symbol, rule: Rule, t: nat)
    requires |rule| >= 3
    requires t < |rule| - 1 && rule[0] == ChainName(owner, st.counter, t)
    ensures var r := NormalizeRule(st, owner, rule);
      && r.counter == st.counter + |rule| - 1
      && Get(r.grammar, FreshName(owner, st.counter))
         == [[rule[1]]] + (if t == 0 then [[rule[0]]] else []) + [[ChainName(owner, st.counter, 1)]]
      && (forall k: nat :: 1 < k < |rule| ==>
            Get(r.grammar, ChainName(owner, st.counter, k - 1))
            == [[rule[k]]] + (if k + 1 < |rule| then [[ChainName(owner, st.counter, k)]] else []))
      && Get(r.grammar, owner) == Get(st.grammar, owner)
      && (forall x :: x !in Minted(owner, st.counter, |rule| - 1) ==> Get(r.grammar, x) == Get(st.grammar, x))
  {
    var r := NormalizeRule(st, owner, rule);
    var rest := rule[1..];
    assert r == Chain(st, owner, rule[0], rest);
    ChainCollision(st, owner, rule[0], rest, t);
    forall k: nat | 1 < k < |rule|
      ensures Get(r.grammar, ChainName(owner, st.counter, k - 1))
              == [[rule[k]]] + (if k + 1 < |rule| then [[ChainName(owner, st.counter, k)]] else [])
    {
      CollisionBinding(st, owner, rule[0], rest, k - 1);
      assert rest[k - 1] == rule[k];
    }
    assert owner !in Minted(owner, st.counter, |rule| - 1);
  }

  lemma {:induction false} RulesCounter(st: State, owner: Symbol, rules: seq<Rule>)
    requires forall rule :: rule in rules ==> |rule| > 0
    ensures NormalizeRules(st, owner, rules).counter == st.counter + MintsOf(rules)
    decreases |rules|
  {
    if rules != [] {
      RulesCounter(NormalizeRule(st, owner, rules[0]), owner, rules[1..]);
    }
  }

  lemma {:induction false} KeysCounter(st: State, g: Grammar, i: nat)
    requires NonEmptyRules(g)
    ensures NormalizeKeys(st, g, i).counter == st.counter + MintsFrom(g, i)
    decreases |g.keys| - i
  {
    if i < |g.keys| {
      assert g.keys[i] in g.rules ==> forall rule :: rule in Get(g, g.keys[i]) ==> |rule| > 0;
      RulesCounter(st, g.keys[i], Get(g, g.keys[i]));
      KeysCounter(NormalizeRules(st, g.keys[i], Get(g, g.keys[i])), g, i + 1);
    }
  }

  /** The counter of `chomsky_normal_form` ends at one more than the number of names minted:
      one per length-1 rule and `len - 1` per rule longer than two. */
  lemma CounterAdvance(g: Grammar)
    requires NonEmptyRules(g)
    ensures NormalizeKeys(State(Empty, 1), g, 0).counter == 1 + MintsFrom(g, 0)
  {
    KeysCounter(State(Empty, 1), g, 0);
  }

  lemma RulesUnfold(st: State, owner: Symbol, rules: seq<Rule>, j: nat)
    requires j < |rules| && forall rule :: rule in rules ==> |rule| > 0
    ensures NormalizeRules(st, owner, rules[j..])
            == NormalizeRules(NormalizeRule(st, owner, rules[j]), owner, rules[j + 1..])
  {
    assert rules[j..][0] == rules[j] && rules[j..][1..] == rules[j + 1..];
  }

  /** The loop `for symbol in rule[1:]` of a rule longer than two, starting from the
      dictionary `grammar` and the counter `counter`. */
  method ChainSymbols(grammar: Grammar, counter: nat, owner: Symbol, prev: Symbol, syms: seq<Symbol>)
    returns (newGrammar: Grammar, newCounter: nat)
    ensures State(newGrammar, newCounter) == Chain(State(grammar, counter), owner, prev, syms)
  {
    newGrammar, newCounter := grammar, counter;
    ghost var target := Chain(State(grammar, counter), owner, prev, syms);
    var prevNonTerminal := prev;
    var k := 0;
    while k < |syms|
      invariant 0 <= k <= |syms|
      invariant Chain(State(newGrammar, newCounter), owner, prevNonTerminal, syms[k..]) == target
    {
      var symbol := syms[k];
      var name := FreshName(owner, newCounter);
      ChainStep(newGrammar, newCounter, owner, prevNonTerminal, syms, k, name);
      newCounter := newCounter + 1;
      newGrammar := Put(newGrammar, name, [[symbol]]);
      newGrammar := Append(newGrammar, prevNonTerminal, [name]);
      prevNonTerminal := name;
      k := k + 1;
    }
    assert syms[k..] == [];
  }

  lemma ChainStep(grammar: Grammar, counter: nat, owner: Symbol, prev: Symbol, syms: seq<Symbol>, k: nat,
                  name: Symbol)
    requires k < |syms| && name == FreshName(owner, counter)
    ensures Chain(State(grammar, counter), owner, prev, syms[k..])
            == Chain(State(Append(Put(grammar, name, [[syms[k]]]), prev, [name]), counter + 1),
                     owner, name, syms[k + 1..])
  {
    ChainUnfold(State(grammar, counter), owner, prev, syms[k..]);
    assert syms[k..][0] == syms[k] && syms[k..][1..] == syms[k + 1..];
  }

  /** One iteration of the loop `for rule in rules`: the three cases on `len(rule)`. */
  method NormalizeOne(grammar: Grammar, counter: nat, owner: Symbol, rule: Rule)
    returns (newGrammar: Grammar, newCounter: nat)
    requires |rule| > 0
    ensures State(newGrammar, newCounter) == NormalizeRule(State(grammar, counter), owner, rule)
  {
    if |rule| == 1 {
      var name := FreshName(owner, counter);
      newCounter := counter + 1;
      newGrammar := Put(grammar, name, [[rule[0]]]);
      newGrammar := Append(newGrammar, owner, [name]);
    } else if |rule| == 2 {
      newGrammar, newCounter := Append(grammar, owner, rule), counter;
    } else {
      newGrammar, newCounter := ChainSymbols(grammar, counter, owner, rule[0], rule[1..]);
    }
  }

  /** The loop `for rule in rules` over the rules of one key. */
  method NormalizeOwner(grammar: Grammar, counter: nat, owner: Symbol, rules: seq<Rule>)
    returns (newGrammar: Grammar, newCounter: nat)
    requires forall rule :: rule in rules ==> |rule| > 0
    ensures State(newGrammar, newCounter) == NormalizeRules(State(grammar, counter), owner, rules)
  {
    newGrammar, newCounter := grammar, counter;
    var j := 0;
    while j < |rules|
      invariant 0 <= j <= |rules|
      invariant NormalizeRules(State(newGrammar, newCounter), owner, rules[j..])
                == NormalizeRules(State(grammar, counter), owner, rules)
    {
      var rule := rules[j];
      RulesUnfold(State(newGrammar, newCounter), owner, rules, j);
      newGrammar, newCounter := NormalizeOne(newGrammar, newCounter, owner, rule);
      j := j + 1;
    }
    assert rules[j..] == [];
  }

  /** The whole of `chomsky_normal_form`: the loop over the input's keys in order, with a
      fresh dictionary and the counter starting at 1. */
  method ChomskyNormalForm(g: Grammar) returns (r: Grammar)
    requires Valid(g) && NonEmptyRules(g)
    ensures r == Normalized(g)
    ensures Valid(r) && Binary(r)
    ensures MarkerFree(g) ==> MarkerFree(r)
  {
    ghost var final := NormalizeKeys(State(Empty, 1), g, 0);
    var newGrammar := Empty;
    var counter: nat := 1;
    var i := 0;
    while i < |g.keys|
      invariant 0 <= i <= |g.keys|
      invariant NormalizeKeys(State(newGrammar, counter), g, i) == final
    {
      var nonTerminal := g.keys[i];
      var rules := g.rules[nonTerminal];
      assert Get(g, nonTerminal) == rules;
      newGrammar, counter := NormalizeOwner(newGrammar, counter, nonTerminal, rules);
      i := i + 1;
    }
    r := newGrammar;
    NormalizedShape(g);
  }
}
