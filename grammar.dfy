/**
 The grammar value shared by every pass of the minimiser: an insertion-ordered
 dictionary from a non-terminal to its list of rules, read the way Python's
 `defaultdict(list)` is read (a missing key gives the empty list).
 */
module Grammars {

  type Symbol = string
  type Rule = seq<Symbol>

  /** The designated start symbol. */
  const Start: Symbol := "S"
  /** The empty-symbol marker `''`. */
  const EmptyMarker: Symbol := ""

  /** `keys` is the dictionary's insertion order, `rules` its contents. */
  datatype Grammar = Grammar(keys: seq<Symbol>, rules: map<Symbol, seq<Rule>>)

  const Empty: Grammar := Grammar([], map[])

  predicate Distinct(ks: seq<Symbol>)
  {
    forall i, j :: 0 <= i < j < |ks| ==> ks[i] != ks[j]
  }

  /** A dictionary: every key listed once, and the listed keys are the stored ones. */
  ghost predicate Valid(g: Grammar)
  {
    && Distinct(g.keys)
    && (forall k :: k in g.rules <==> k in g.keys)
  }

  /** `grammar[k]` on a `defaultdict(list)`: a stored key reads its list, a missing one the
      empty list. */
  function Get(g: Grammar, k: Symbol): (rules: seq<Rule>)
    ensures k in g.rules ==> rules == g.rules[k]
    ensures k !in g.rules ==> rules == []
  {
    if k in g.rules then g.rules[k] else []
  }

  /** `grammar[k] = v`. */
  function Put(g: Grammar, k: Symbol, v: seq<Rule>): (r: Grammar)
    ensures k in r.rules && Get(r, k) == v
  {
    if k in g.rules then Grammar(g.keys, g.rules[k := v])
    else Grammar(g.keys + [k], g.rules[k := v])
  }

  /** After `grammar[k] = v`, reading `k` gives `v` and every other key reads as before;
      an existing key keeps its place, a new key goes last, and a dictionary stays one. */
  lemma PutEffect(g: Grammar, k: Symbol, v: seq<Rule>)
    ensures forall x :: Get(Put(g, k, v), x) == if x == k then v else Get(g, x)
    ensures Valid(g) ==> Valid(Put(g, k, v))
    ensures Put(g, k, v).rules.Keys == g.rules.Keys + {k}
    ensures Put(g, k, v).keys == if k in g.rules then g.keys else g.keys + [k]
  {
  }

  /** Assigning a key twice is assigning it the second value. */
  lemma PutPut(g: Grammar, k: Symbol, v: seq<Rule>, w: seq<Rule>)
    ensures Put(Put(g, k, v), k, w) == Put(g, k, w)
  {
    assert g.rules[k := v][k := w] == g.rules[k := w];
  }

  /** Regrouping a list that was extended by `here` before `rest` was added. */
  lemma AppendAfter<T>(x: seq<T>, y: seq<T>, here: seq<T>, rest: seq<T>)
    requires y == x + here
    ensures y + rest == x + (here + rest)
  {
  }

  /** `grammar[k].append(rule)`. */
  function Append(g: Grammar, k: Symbol, rule: Rule): (r: Grammar)
    ensures k in r.rules && Get(r, k) == Get(g, k) + [rule]
  {
    Put(g, k, Get(g, k) + [rule])
  }

  /** After `grammar[k].append(rule)`, `k` reads as before plus `rule`; nothing else changes. */
  lemma AppendEffect(g: Grammar, k: Symbol, rule: Rule)
    ensures forall x :: Get(Append(g, k, rule), x) == if x == k then Get(g, k) + [rule] else Get(g, x)
    ensures Valid(g) ==> Valid(Append(g, k, rule))
    ensures Append(g, k, rule).rules.Keys == g.rules.Keys + {k}
    ensures Append(g, k, rule).keys == if k in g.rules then g.keys else g.keys + [k]
  {
    PutEffect(g, k, Get(g, k) + [rule]);
  }

  /** A dictionary in which every key owns at least one rule. */
  ghost predicate ValidFull(g: Grammar)
  {
    Valid(g) && forall k :: k in g.rules ==> Get(g, k) != []
  }

  /** Every rule under every key is non-empty (required before `rule[0]` is read). */
  predicate NonEmptyRules(g: Grammar)
  {
    forall k, rule :: k in g.rules && rule in g.rules[k] ==> |rule| > 0
  }

  /** No rule of the list is empty or mentions the empty marker. */
  predicate RulesMarkerFree(rules: seq<Rule>)
  {
    forall rule :: rule in rules ==> |rule| > 0 && EmptyMarker !in rule
  }

  /** Nothing in the grammar spells the empty marker: no key, no rule symbol; and no rule is empty. */
  predicate MarkerFree(g: Grammar)
  {
    forall k :: k in g.rules ==> k != EmptyMarker && RulesMarkerFree(g.rules[k])
  }

  /** Number of rules stored under the keys `ks`, counted in order. */
  function CountRules(g: Grammar, ks: seq<Symbol>): nat
  {
    if ks == [] then 0 else CountRules(g, ks[..|ks| - 1]) + |Get(g, ks[|ks| - 1])|
  }

  /** Total number of rules in a grammar. */
  function TotalRules(g: Grammar): nat
  {
    CountRules(g, g.keys)
  }

  lemma {:induction false} CountRulesAgree(g: Grammar, h: Grammar, ks: seq<Symbol>)
    requires forall x :: x in ks ==> Get(g, x) == Get(h, x)
    ensures CountRules(g, ks) == CountRules(h, ks)
  {
    if ks != [] {
      CountRulesAgree(g, h, ks[..|ks| - 1]);
    }
  }

  lemma {:induction false} CountRulesUpdate(g: Grammar, h: Grammar, ks: seq<Symbol>, k: Symbol)
    requires Distinct(ks)
    requires forall x :: x != k ==> Get(g, x) == Get(h, x)
    ensures CountRules(h, ks) as int
         == CountRules(g, ks) + (if k in ks then |Get(h, k)| - |Get(g, k)| else 0)
  {
    if ks != [] {
      var init := ks[..|ks| - 1];
      assert ks == init + [ks[|ks| - 1]];
      assert k in ks <==> k in init || k == ks[|ks| - 1];
      assert ks[|ks| - 1] !in init;
      CountRulesUpdate(g, h, init, k);
    }
  }

  /** Overwriting a key changes the rule count by the difference in list lengths. */
  lemma PutCount(g: Grammar, k: Symbol, v: seq<Rule>)
    requires Valid(g)
    ensures TotalRules(Put(g, k, v)) as int == TotalRules(g) - |Get(g, k)| + |v|
  {
    var r := Put(g, k, v);
    PutEffect(g, k, v);
    if k in g.rules {
      CountRulesUpdate(g, r, g.keys, k);
    } else {
      assert r.keys[..|r.keys| - 1] == g.keys;
      CountRulesAgree(g, r, g.keys);
    }
  }

  /** Appending one rule adds exactly one to the rule count. */
  lemma AppendCount(g: Grammar, k: Symbol, rule: Rule)
    requires Valid(g)
    ensures TotalRules(Append(g, k, rule)) == TotalRules(g) + 1
  {
    PutCount(g, k, Get(g, k) + [rule]);
  }

  /** Number of rules stored under the keys `ks`, counted from the front. */
  function CountIn(g: Grammar, ks: seq<Symbol>): nat
  {
    if ks == [] then 0 else |Get(g, ks[0])| + CountIn(g, ks[1..])
  }

  lemma {:induction false} CountInSnoc(g: Grammar, ks: seq<Symbol>, k: Symbol)
    ensures CountIn(g, ks + [k]) == CountIn(g, ks) + |Get(g, k)|
  {
    if ks == [] {
      assert [k][1..] == [];
    } else {
      assert (ks + [k])[0] == ks[0] && (ks + [k])[1..] == ks[1..] + [k];
      CountInSnoc(g, ks[1..], k);
    }
  }

  lemma {:induction false} CountInRules(g: Grammar, ks: seq<Symbol>)
    ensures CountIn(g, ks) == CountRules(g, ks)
  {
    if ks != [] {
      var init := ks[..|ks| - 1];
      assert ks == init + [ks[|ks| - 1]];
      CountInSnoc(g, init, ks[|ks| - 1]);
      CountInRules(g, init);
    }
  }

  /** Counting from the front and from the back agree. */
  lemma CountInTotal(g: Grammar)
    ensures CountIn(g, g.keys) == TotalRules(g)
  {
    CountInRules(g, g.keys);
  }

  /** Every rule is non-empty and free of the empty marker (keys are not constrained). */
  predicate CleanRules(g: Grammar)
  {
    forall k :: k in g.rules ==> RulesMarkerFree(g.rules[k])
  }

  /** Every rule stored under `k`, read as a `defaultdict`, is clean in a clean grammar. */
  lemma CleanGet(g: Grammar, k: Symbol)
    requires CleanRules(g)
    ensures forall rule :: rule in Get(g, k) ==> |rule| > 0 && EmptyMarker !in rule
  {
  }

  lemma CleanPut(g: Grammar, k: Symbol, v: seq<Rule>)
    requires CleanRules(g)
    requires forall rule :: rule in v ==> |rule| > 0 && EmptyMarker !in rule
    ensures CleanRules(Put(g, k, v))
  {
  }

  lemma CleanAppend(g: Grammar, k: Symbol, rule: Rule)
    requires CleanRules(g) && |rule| > 0 && EmptyMarker !in rule
    ensures CleanRules(Append(g, k, rule))
  {
    CleanGet(g, k);
    CleanPut(g, k, Get(g, k) + [rule]);
  }
}
