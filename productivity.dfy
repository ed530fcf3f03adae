/**
 `remove_unproductive`: repeated passes over the keys mark a key productive
 once one of its rules consists only of productive symbols and empty markers;
 the passes stop when one marks nothing, and only the marked keys are kept,
 each with its rules, in the input's key order.
 */
module Productivity {
  import opened Grammars

  /** `all([(symbol in productive) or (symbol == '') for symbol in rule])`. */
  predicate RuleQualifies(p: set<Symbol>, rule: Rule)
  {
    forall s :: s in rule ==> s in p || s == EmptyMarker
  }

  predicate SomeRuleQualifies(p: set<Symbol>, rules: seq<Rule>)
  {
    exists rule :: rule in rules && RuleQualifies(p, rule)
  }

  /** No key outside `q` has a rule made only of members of `q` and empty markers. */
  ghost predicate Closed(g: Grammar, q: set<Symbol>)
  {
    forall k :: k in g.rules && SomeRuleQualifies(q, Get(g, k)) ==> k in q
  }

  /** The productive keys: those in every closed set, i.e. the least closed set of keys. */
  ghost function Productive(g: Grammar): set<Symbol>
  {
    set k | k in g.rules && forall q :: Closed(g, q) ==> k in q
  }

  lemma QualifiesMonotone(p: set<Symbol>, q: set<Symbol>, rule: Rule)
    requires p <= q && RuleQualifies(p, rule)
    ensures RuleQualifies(q, rule)
  {
  }

  /** The productive keys form the least closed set. */
  lemma ProductiveLeast(g: Grammar)
    ensures Productive(g) <= g.rules.Keys
    ensures Closed(g, Productive(g))
    ensures forall q :: Closed(g, q) ==> Productive(g) <= q
  {
    var p := Productive(g);
    forall k | k in g.rules && SomeRuleQualifies(p, Get(g, k))
      ensures k in p
    {
      var rule :| rule in Get(g, k) && RuleQualifies(p, rule);
      forall q | Closed(g, q)
        ensures k in q
      {
        QualifiesMonotone(p, q, rule);
      }
    }
  }

  /** A set of keys that is closed and lies below every closed set is the productive set. */
  /** The productive set depends on the rules alone, not on the key order. */
  lemma ProductiveOfRules(g: Grammar, h: Grammar)
    requires g.rules == h.rules
    ensures Productive(g) == Productive(h)
  {
    forall q ensures Closed(g, q) == Closed(h, q) {
      assert forall k :: Get(g, k) == Get(h, k);
    }
  }

  lemma ProductiveUnique(g: Grammar, p: set<Symbol>)
    requires p <= g.rules.Keys && Closed(g, p)
    requires forall q :: Closed(g, q) ==> p <= q
    ensures p == Productive(g)
  {
    ProductiveLeast(g);
  }

  /** The keys of `ks` that are in `p`, in order. */
  function FilterKeys(ks: seq<Symbol>, p: set<Symbol>): seq<Symbol>
  {
    if ks == [] then [] else (if ks[0] in p then [ks[0]] else []) + FilterKeys(ks[1..], p)
  }

  /** The dictionary comprehension `{k: rules for k, rules in grammar.items() if k in p}`. */
  function Restrict(g: Grammar, p: set<Symbol>): (r: Grammar)
    ensures r.rules.Keys == g.rules.Keys * p
    ensures forall k :: k in r.rules ==> r.rules[k] == g.rules[k]
  {
    Grammar(FilterKeys(g.keys, p), map k | k in g.rules && k in p :: g.rules[k])
  }

  lemma {:induction false} FilterKeysMeaning(ks: seq<Symbol>, p: set<Symbol>)
    ensures forall x :: x in FilterKeys(ks, p) <==> x in ks && x in p
    ensures Distinct(ks) ==> Distinct(FilterKeys(ks, p))
  {
    if ks != [] {
      FilterKeysMeaning(ks[1..], p);
      var rest := FilterKeys(ks[1..], p);
      if Distinct(ks) {
        assert Distinct(ks[1..]) by {
          forall i, j | 0 <= i < j < |ks[1..]| ensures ks[1..][i] != ks[1..][j] {
            assert ks[1..][i] == ks[i + 1] && ks[1..][j] == ks[j + 1];
          }
        }
        assert ks[0] !in ks[1..];
        var head := if ks[0] in p then [ks[0]] else [];
        forall i, j | 0 <= i < j < |head + rest| ensures (head + rest)[i] != (head + rest)[j] {
          if i >= |head| {
            assert (head + rest)[i] == rest[i - |head|] && (head + rest)[j] == rest[j - |head|];
          } else {
            assert (head + rest)[j] in rest;
          }
        }
      }
    }
  }

  /** Keeping the keys of `p` keeps a dictionary a dictionary and leaves the kept keys'
      rules as they were. */
  lemma RestrictMeaning(g: Grammar, p: set<Symbol>)
    requires Valid(g)
    ensures Valid(Restrict(g, p))
    ensures forall x :: Get(Restrict(g, p), x) == if x in p then Get(g, x) else []
    ensures Restrict(g, p).rules.Keys == g.rules.Keys * p
  {
    FilterKeysMeaning(g.keys, p);
  }

  lemma SubsetCard(a: set<Symbol>, b: set<Symbol>)
    requires a <= b
    ensures |a| <= |b|
  {
    assert b == a + (b - a);
  }

  /** `remove_unproductive`. `passes` counts the runs of the `while changed` loop. */
  method RemoveUnproductive(g: Grammar) returns (r: Grammar, ghost passes: nat)
    requires Valid(g)
    ensures r == Restrict(g, Productive(g))
    ensures passes <= |g.rules.Keys| + 1
  {
    var productive: set<Symbol> := {};
    var changed := true;
    passes := 0;
    while changed
      invariant productive <= g.rules.Keys
      invariant forall q :: Closed(g, q) ==> productive <= q
      invariant !changed ==> Closed(g, productive)
      invariant passes <= |productive| + (if changed then 0 else 1)
      decreases g.rules.Keys - productive, if changed then 1 else 0
    {
      changed := false;
      ghost var before := productive;
      var i := 0;
      while i < |g.keys|
        invariant 0 <= i <= |g.keys|
        invariant before <= productive <= g.rules.Keys
        invariant forall q :: Closed(g, q) ==> productive <= q
        invariant changed <==> productive != before
        invariant |productive| >= |before| + (if changed then 1 else 0)
        invariant !changed ==> forall t :: 0 <= t < i ==>
                    g.keys[t] in productive || !SomeRuleQualifies(productive, Get(g, g.keys[t]))
      {
        var nonTerminal := g.keys[i];
        if nonTerminal !in productive {
          var rules := g.rules[nonTerminal];
          assert rules == Get(g, nonTerminal);
          var j := 0;
          while j < |rules|
            invariant 0 <= j <= |rules|
            invariant forall t :: 0 <= t < j ==> !RuleQualifies(productive, rules[t])
          {
            if forall symbol :: symbol in rules[j] ==> symbol in productive || symbol == EmptyMarker {
              forall q | Closed(g, q)
                ensures productive + {nonTerminal} <= q
              {
                QualifiesMonotone(productive, q, rules[j]);
              }
              productive := productive + {nonTerminal};
              changed := true;
              break;
            }
            j := j + 1;
          }
        }
        i := i + 1;
      }
      passes := passes + 1;
      if changed {
        assert g.rules.Keys - productive < g.rules.Keys - before;
      } else {
        forall k | k in g.rules && SomeRuleQualifies(productive, Get(g, k))
          ensures k in productive
        {
          var t :| 0 <= t < |g.keys| && g.keys[t] == k;
        }
      }
    }
    ProductiveUnique(g, productive);
    SubsetCard(productive, g.rules.Keys);
    r := Restrict(g, productive);
  }

  /** A closed set stays closed once only its own keys are kept. */
  lemma RestrictClosed(g: Grammar, p: set<Symbol>)
    requires Valid(g) && Closed(g, p)
    ensures Closed(Restrict(g, p), p)
  {
    RestrictMeaning(g, p);
  }

  /** Keeping only the productive keys leaves exactly the same keys productive. */
  lemma ProductiveRestricted(g: Grammar)
    requires Valid(g)
    ensures Productive(Restrict(g, Productive(g))) == Productive(g)
  {
    var p := Productive(g);
    var h := Restrict(g, p);
    ProductiveLeast(g);
    // `p` is closed in `h`, so the productive keys of `h` lie inside `p` ...
    RestrictClosed(g, p);
    ProductiveLeast(h);
    var ph := Productive(h);
    // ... and those of `h` are closed in `g`, so they hold all of `p`.
    RestrictMeaning(g, p);
    forall k | k in g.rules && SomeRuleQualifies(ph, Get(g, k))
      ensures k in ph
    {
      var rule :| rule in Get(g, k) && RuleQualifies(ph, rule);
      QualifiesMonotone(ph, p, rule);
      assert k in p;
      assert Get(h, k) == Get(g, k);
    }
    assert Closed(g, ph);
  }

  /** A second removal changes nothing: the kept keys are all productive in the result. */
  lemma RemoveUnproductiveIdempotent(g: Grammar)
    requires Valid(g)
    ensures var h := Restrict(g, Productive(g)); Restrict(h, Productive(h)) == h
  {
    var p := Productive(g);
    var h := Restrict(g, p);
    ProductiveRestricted(g);
    FilterKeysTwice(g.keys, p);
    assert (map k | k in h.rules && k in p :: h.rules[k]) == h.rules;
  }

  lemma {:induction false} FilterKeysTwice(ks: seq<Symbol>, p: set<Symbol>)
    ensures FilterKeys(FilterKeys(ks, p), p) == FilterKeys(ks, p)
  {
    if ks != [] {
      FilterKeysTwice(ks[1..], p);
      var f := FilterKeys(ks, p);
      if ks[0] in p {
        assert f == [ks[0]] + FilterKeys(ks[1..], p);
        assert f[0] == ks[0] && f[1..] == FilterKeys(ks[1..], p);
        assert FilterKeys(f, p) == [f[0]] + FilterKeys(f[1..], p);
      } else {
        assert f == FilterKeys(ks[1..], p);
      }
    }
  }

  /** A rule qualifies with no productive symbol at all only if it is empty or made of empty
      markers; without such a rule nothing is productive and the result is empty. */
  lemma NothingProductive(g: Grammar)
    requires Valid(g)
    requires forall k, rule :: k in g.rules && rule in g.rules[k] ==> !RuleQualifies({}, rule)
    ensures Productive(g) == {}
    ensures Restrict(g, Productive(g)) == Empty
  {
    assert Closed(g, {});
    FilterKeysNone(g.keys);
  }

  lemma {:induction false} FilterKeysNone(ks: seq<Symbol>)
    ensures FilterKeys(ks, {}) == []
  {
    if ks != [] {
      FilterKeysNone(ks[1..]);
    }
  }
}
