/**
 `minimize_grammar`: the six passes in order, each feeding the next.
 */
module Pipeline {
  import opened Grammars
  import Lex
  import Normalize
  import Equivalence
  import Merge
  import Reachability
  import Productivity
  import Denormalize
  import Decimal

  /** With the pairs `identify_equivalent` reports, every key is mapped to a key with the
      same rules that does not come after it in string order. */
  lemma MappingRepresentatives(g: Grammar, pairs: set<Merge.Pair>, m: map<Symbol, Symbol>, k: Symbol)
    requires Valid(g)
    requires pairs == Equivalence.EquivalentPairs(g)
    requires Merge.IsMapping(g, pairs, m) && k in m
    ensures m[k] in g.rules
    ensures Equivalence.Equivalent(g, k, m[k])
    ensures !Lex.Less(k, m[k])
  {
    Merge.MappingNotGreater(g, pairs, m, k);
    if Merge.Paired(pairs, k) {
      var p :| p in pairs && Merge.InPair(k, p) && m[k] == Merge.PairMin(p);
      Equivalence.EquivalentPairsMeaning(g, p.0, p.1);
      Equivalence.EquivalentIsEquivalence(g, p.0, p.1, p.0);
      Equivalence.EquivalentIsEquivalence(g, p.1, p.0, p.1);
    } else {
      assert k in g.keys;
      Equivalence.EquivalentIsEquivalence(g, k, k, k);
    }
  }

  /** Each rule of a grammar without a blank rule mentions a symbol that is no marker. */
  lemma NoBlankRule(g: Grammar)
    requires CleanRules(g)
    ensures forall k, rule :: k in g.rules && rule in g.rules[k] ==> !Productivity.RuleQualifies({}, rule)
  {
    forall k, rule | k in g.rules && rule in g.rules[k]
      ensures !Productivity.RuleQualifies({}, rule)
    {
      assert rule[0] in rule;
    }
  }

  /** What the last pass returns is a dictionary of non-empty, marker-free rules, every key
      owning one. */
  lemma OriginalFormClean(productive: Grammar, r: Grammar)
    requires Valid(productive) && r == Denormalize.Denormalized(productive)
    ensures Valid(r)
    ensures forall k :: k in r.rules ==> r.rules[k] != []
    ensures CleanRules(r)
  {
    Denormalize.DenormalizedShape(productive);
    forall k | k in r.rules ensures r.rules[k] != [] {
      assert Get(r, k) == r.rules[k];
    }
    forall k, rule | k in r.rules && rule in r.rules[k]
      ensures |rule| > 0 && EmptyMarker !in rule
    {
      Denormalize.DenormalizedClean(productive, k, rule);
    }
  }

  /** From a marker-free normal form, merging, reachability and productivity leave nothing. */
  lemma NothingSurvives(chomsky: Grammar, pairs: set<Merge.Pair>, mapping: map<Symbol, Symbol>,
                        reachable: Grammar)
    requires Valid(chomsky) && MarkerFree(chomsky)
    requires pairs == Equivalence.EquivalentPairs(chomsky)
    requires Merge.IsMapping(chomsky, pairs, mapping)
    requires Valid(reachable)
    requires forall x :: x in reachable.rules ==> reachable.rules[x] == Get(Merge.Merged(chomsky, mapping), x)
    ensures Productivity.Restrict(reachable, Productivity.Productive(reachable)) == Empty
  {
    forall k | k in mapping ensures mapping[k] != EmptyMarker {
      MappingRepresentatives(chomsky, pairs, mapping, k);
    }
    Merge.MergedClean(chomsky, mapping);
    var merged := Merge.Merged(chomsky, mapping);
    forall x, rule | x in reachable.rules && rule in reachable.rules[x]
      ensures |rule| > 0 && EmptyMarker !in rule
    {
      assert x in merged.rules && merged.rules[x] == Get(merged, x);
    }
    NoBlankRule(reachable);
    Productivity.NothingProductive(reachable);
  }

  /** The input `{'S': [['a', 'b'], ['']]}`. */
  const DanglingInput: Grammar := Grammar(["S"], map["S" := [["a", "b"], [""]]])

  /** Its normal form `{'S': [['a', 'b'], ['S1']], 'S1': [['']]}`. */
  const DanglingNormal: Grammar := Grammar(["S", "S1"], map["S" := [["a", "b"], ["S1"]], "S1" := [[""]]])

  /** The rules `remove_unreachable` keeps of that normal form; its key order is set order. */
  const DanglingExample: Grammar :=
    Grammar(["S", "a", "b", "S1", ""],
            map["S" := [["a", "b"], ["S1"]], "a" := [], "b" := [], "S1" := [[""]], "" := []])

  /** The normal form read pointwise. */
  lemma DanglingNormalGet(x: Symbol)
    ensures Get(DanglingNormal, x) == if x == "S" then [["a", "b"], ["S1"]] else if x == "S1" then [[""]] else []
  {
  }

  lemma DanglingNormalForm()
    ensures Normalize.Normalized(DanglingInput) == DanglingNormal
  {
    var g := DanglingInput;
    assert g.keys[0] == "S" && Get(g, "S") == [["a", "b"], [""]];
    DanglingRules();
    assert Normalize.NormalizeKeys(Normalize.State(Empty, 1), g, 0)
        == Normalize.NormalizeKeys(Normalize.State(DanglingNormal, 2), g, 1);
  }

  /** The rule loop of `chomsky_normal_form` over the two rules of `S`. */
  lemma DanglingRules()
    ensures Normalize.NormalizeRules(Normalize.State(Empty, 1), "S", [["a", "b"], [""]])
            == Normalize.State(DanglingNormal, 2)
  {
    var rules: seq<Rule> := [["a", "b"], [""]];
    DanglingFirstRule();
    DanglingSecondRule();
    assert rules[0] == ["a", "b"] && rules[1..][0] == [""] && rules[1..][1..] == [];
  }

  /** `['a', 'b']` has two symbols and is kept as it is. */
  lemma DanglingFirstRule()
    ensures Normalize.NormalizeRule(Normalize.State(Empty, 1), "S", ["a", "b"])
            == Normalize.State(Grammar(["S"], map["S" := [["a", "b"]]]), 1)
  {
    assert Get(Empty, "S") + [["a", "b"]] == [["a", "b"]];
  }

  /** `['']` has one symbol: it moves behind the fresh name `S1`, and `S` gets `['S1']`. */
  lemma DanglingSecondRule()
    ensures Normalize.NormalizeRule(Normalize.State(Grammar(["S"], map["S" := [["a", "b"]]]), 1), "S", [""])
            == Normalize.State(DanglingNormal, 2)
  {
    var a1 := Grammar(["S"], map["S" := [["a", "b"]]]);
    assert Decimal.NatToString(1) == "1";
    assert Normalize.FreshName("S", 1) == "S1";
    assert "S1" !in a1.rules;
    var p := Grammar(["S", "S1"], map["S" := [["a", "b"]], "S1" := [[""]]]);
    assert Put(a1, "S1", [[""]]) == p;
    assert Get(p, "S") + [["S1"]] == [["a", "b"], ["S1"]];
    assert p.rules["S" := [["a", "b"], ["S1"]]] == DanglingNormal.rules;
    assert Append(p, "S", ["S1"]) == DanglingNormal;
  }

  /** `identify_equivalent` finds no pair in it: `S` has a rule `S1` lacks. */
  lemma DanglingNoPairs()
    ensures Equivalence.EquivalentPairs(DanglingNormal) == {}
  {
    var n := DanglingNormal;
    assert ["a", "b"] in Get(n, "S") && ["a", "b"] !in Get(n, "S1");
    assert !Equivalence.Equivalent(n, n.keys[0], n.keys[1]);
  }

  /** With no pairs, the mapping sends both keys to themselves and nothing else is mapped. */
  lemma DanglingMapping(m: map<Symbol, Symbol>)
    requires Merge.IsMapping(DanglingNormal, {}, m)
    ensures "S" in m && "S1" in m && m["S"] == "S" && m["S1"] == "S1"
    ensures "a" !in m && "b" !in m && "" !in m
  {
    assert !Merge.Paired({}, "S") && !Merge.Paired({}, "S1");
  }

  /** Renaming under that mapping changes no rule of the normal form. */
  lemma DanglingRenamed(m: map<Symbol, Symbol>)
    requires "S" in m && "S1" in m && m["S"] == "S" && m["S1"] == "S1"
    requires "a" !in m && "b" !in m && "" !in m
    ensures Merge.RenameRules(m, Get(DanglingNormal, "S")) == Get(DanglingNormal, "S")
    ensures Merge.RenameRules(m, Get(DanglingNormal, "S1")) == Get(DanglingNormal, "S1")
  {
    var rulesS, rulesS1 := Get(DanglingNormal, "S"), Get(DanglingNormal, "S1");
    assert Merge.RenameRule(m, rulesS[0]) == rulesS[0];
    assert Merge.RenameRule(m, rulesS[1]) == rulesS[1];
    assert Merge.RenameRule(m, rulesS1[0]) == rulesS1[0];
  }

  /** The second loop of `merge_equivalent` over a grammar with two keys. */
  lemma MergedTwoKeys(g: Grammar, m: map<Symbol, Symbol>, a: Symbol, b: Symbol)
    requires g.keys == [a, b]
    ensures Merge.Merged(g, m)
            == Merge.FileRenamed(Merge.FileRenamed(Empty, Merge.Rename(m, a), m, Get(g, a)),
                                 Merge.Rename(m, b), m, Get(g, b))
  {
    var f1 := Merge.FileRenamed(Empty, Merge.Rename(m, a), m, Get(g, a));
    var f2 := Merge.FileRenamed(f1, Merge.Rename(m, b), m, Get(g, b));
    assert g.keys[1..] == [b] && [b][1..] == [];
    assert Merge.MergeKeys(Empty, g, m, g.keys) == Merge.MergeKeys(f1, g, m, [b]);
    assert Merge.MergeKeys(f1, g, m, [b]) == Merge.MergeKeys(f2, g, m, []);
  }

  /** Filing non-empty rules that renaming leaves alone under a new key stores them there. */
  lemma FileUnchanged(acc: Grammar, k: Symbol, m: map<Symbol, Symbol>, rules: seq<Rule>)
    requires rules != [] && k !in acc.rules
    requires Merge.RenameRules(m, rules) == rules
    ensures Merge.FileRenamed(acc, k, m, rules) == Put(acc, k, rules)
  {
    assert Get(acc, k) == [];
    assert Get(acc, k) + Merge.RenameRules(m, rules) == rules;
  }

  /** With no pairs, `merge_equivalent` gives the normal form back. */
  lemma DanglingMerged(m: map<Symbol, Symbol>)
    requires Merge.IsMapping(DanglingNormal, {}, m)
    ensures Merge.Merged(DanglingNormal, m) == DanglingNormal
  {
    DanglingFiled(m);
    DanglingRebuilt();
  }

  /** The second loop files the rules of `S`, then those of `S1`, each under its own name. */
  lemma DanglingFiled(m: map<Symbol, Symbol>)
    requires Merge.IsMapping(DanglingNormal, {}, m)
    ensures Merge.Merged(DanglingNormal, m)
            == Put(Put(Empty, "S", Get(DanglingNormal, "S")), "S1", Get(DanglingNormal, "S1"))
  {
    var n := DanglingNormal;
    DanglingMapping(m);
    DanglingRenamed(m);
    var rulesS, rulesS1 := Get(n, "S"), Get(n, "S1");
    DanglingNormalGet("S");
    DanglingNormalGet("S1");
    assert Merge.Rename(m, "S") == "S" && Merge.Rename(m, "S1") == "S1";
    MergedTwoKeys(n, m, "S", "S1");
    FileUnchanged(Empty, "S", m, rulesS);
    var acc := Put(Empty, "S", rulesS);
    assert "S1" !in acc.rules;
    FileUnchanged(acc, "S1", m, rulesS1);
  }

  /** Storing those two lists in that order gives the normal form. */
  lemma DanglingRebuilt()
    ensures Put(Put(Empty, "S", Get(DanglingNormal, "S")), "S1", Get(DanglingNormal, "S1")) == DanglingNormal
  {
    var rulesS, rulesS1 := [["a", "b"], ["S1"]], [[""]];
    DanglingNormalGet("S");
    DanglingNormalGet("S1");
    assert Put(Empty, "S", rulesS) == Grammar(["S"], map["S" := rulesS]);
    assert "S1" !in map["S" := rulesS];
    assert Put(Grammar(["S"], map["S" := rulesS]), "S1", rulesS1) == Grammar(["S", "S1"], map["S" := rulesS, "S1" := rulesS1]);
  }

  /** The symbols the walk from `S` meets in the normal form. */
  lemma DanglingReaches(x: Symbol)
    ensures Reachability.Reaches(DanglingNormal, Start, x) <==> x in {"S", "a", "b", "S1", ""}
  {
    var n := DanglingNormal;
    var q := {"S", "a", "b", "S1", ""};
    var rs, rs1 := Get(n, "S"), Get(n, "S1");
    assert rs[0] in rs && "a" in rs[0] && "b" in rs[0];
    assert rs[1] in rs && "S1" in rs[1];
    assert rs1[0] in rs1 && "" in rs1[0];
    assert "a" in Reachability.Succ(n, "S") && "b" in Reachability.Succ(n, "S");
    assert "S1" in Reachability.Succ(n, "S") && "" in Reachability.Succ(n, "S1");
    if x in q {
      Reachability.ReachesSelf(n, x);
      if x != "S" {
        if x == "" {
          Reachability.ReachesStep(n, "S1", "", "");
          Reachability.ReachesStep(n, "S", "S1", "");
        } else {
          Reachability.ReachesStep(n, "S", x, x);
        }
      }
    }
    if Reachability.Reaches(n, Start, x) {
      var path :| Reachability.IsPath(n, path) && path[0] == Start && path[|path| - 1] == x;
      forall y | y in q ensures Reachability.Succ(n, y) <= q {
        DanglingSucc(y);
      }
      Reachability.ClosedHoldsReachable(n, q, path);
    }
  }

  lemma DanglingSucc(y: Symbol)
    requires y in {"S", "a", "b", "S1", ""}
    ensures Reachability.Succ(DanglingNormal, y) <= {"S", "a", "b", "S1", ""}
  {
    var n := DanglingNormal;
    if y != "S" && y != "S1" {
      assert Get(n, y) == [];
    }
  }

  /** What `remove_unreachable` returns for the normal form has the rules of `DanglingExample`. */
  lemma DanglingReachable(merged: Grammar, reachable: Grammar)
    requires merged == DanglingNormal
    requires forall x :: x in reachable.rules <==> Reachability.Reaches(merged, Start, x)
    requires forall x :: x in reachable.rules ==> reachable.rules[x] == Get(merged, x)
    ensures reachable.rules == DanglingExample.rules
  {
    var e := DanglingExample.rules;
    forall x ensures (x in reachable.rules <==> x in e) && (x in reachable.rules ==> reachable.rules[x] == e[x]) {
      DanglingReaches(x);
      DanglingExampleKeys(x);
      DanglingExampleGet(x);
    }
    SameMap(reachable.rules, e);
  }

  lemma SameMap(a: map<Symbol, seq<Rule>>, b: map<Symbol, seq<Rule>>)
    requires forall x :: (x in a <==> x in b) && (x in a ==> a[x] == b[x])
    ensures a == b
  {
  }

  lemma DanglingExampleKeys(x: Symbol)
    ensures x in DanglingExample.rules <==> x in {"S", "a", "b", "S1", ""}
  {
  }

  lemma DanglingExampleGet(x: Symbol)
    ensures Get(DanglingExample, x) == Get(DanglingNormal, x)
    ensures x in DanglingExample.rules ==> DanglingExample.rules[x] == Get(DanglingNormal, x)
  {
    DanglingNormalGet(x);
  }

  /** `S1` is productive through its rule `['']` and `S` through its rule `['S1']`. */
  lemma DanglingProductive()
    ensures Productivity.Productive(DanglingExample) == {"S", "S1"}
  {
    var h := DanglingExample;
    var p := {"S", "S1"};
    assert Productivity.RuleQualifies(p, ["S1"]) && Productivity.RuleQualifies(p, [""]);
    assert Productivity.Closed(h, p);
    forall q | Productivity.Closed(h, q) ensures p <= q {
      assert Productivity.RuleQualifies(q, [""]);
      assert Productivity.SomeRuleQualifies(q, Get(h, "S1"));
      assert Productivity.RuleQualifies(q, ["S1"]);
      assert Productivity.SomeRuleQualifies(q, Get(h, "S"));
    }
    Productivity.ProductiveUnique(h, p);
  }

  /** The rules of `S` survive stripping whole, and the only rule of `S1` strips away. */
  lemma DanglingStripped()
    ensures Denormalize.StripRules([["a", "b"], ["S1"]]) == [["a", "b"], ["S1"]]
    ensures Denormalize.StripRules([[""]]) == []
  {
    Denormalize.StripRulesClean([["a", "b"], ["S1"]]);
    assert Denormalize.StripMarker([""]) == [];
  }

  /** `minimize_grammar({'S': [['a', 'b'], ['']]})` is `{'S': [['a', 'b'], ['S1']]}`: a
      productive key keeps every one of its rules, and `original_form` drops `S1`, whose
      only rule strips to nothing, while `S` still refers to it. */
  method MinimizeDangling() returns (r: Grammar)
    ensures r.rules == map["S" := [["a", "b"], ["S1"]]]
    ensures "S1" in r.rules["S"][1] && "S1" !in r.rules
  {
    ghost var merged, reachable;
    DanglingInputValid();
    r, merged, reachable := MinimizeGrammar(DanglingInput);
    DanglingMergedGrammar(merged);
    DanglingReachable(merged, reachable);
    DanglingResult(merged, reachable, r);
  }

  lemma DanglingInputValid()
    ensures Valid(DanglingInput) && NonEmptyRules(DanglingInput)
  {
  }

  /** `merge_equivalent` of the normal form, whatever mapping the first loop builds. */
  lemma DanglingMergedGrammar(merged: Grammar)
    requires exists m :: Merge.IsMapping(Normalize.Normalized(DanglingInput),
                                         Equivalence.EquivalentPairs(Normalize.Normalized(DanglingInput)), m)
                         && merged == Merge.Merged(Normalize.Normalized(DanglingInput), m)
    ensures merged == DanglingNormal
  {
    DanglingNormalForm();
    DanglingNoPairs();
    var m :| Merge.IsMapping(DanglingNormal, {}, m) && merged == Merge.Merged(DanglingNormal, m);
    DanglingMerged(m);
  }

  /** The last two passes on the reachable part: only `S` survives, with both its rules. */
  lemma DanglingResult(merged: Grammar, reachable: Grammar, r: Grammar)
    requires merged == DanglingNormal
    requires reachable.rules == DanglingExample.rules
    requires forall k :: Get(r, k)
                        == if k in Productivity.Productive(reachable) then Denormalize.StripRules(Get(merged, k)) else []
    requires forall k :: k in r.rules ==> r.rules[k] != []
    ensures r.rules == map["S" := [["a", "b"], ["S1"]]]
  {
    Productivity.ProductiveOfRules(reachable, DanglingExample);
    DanglingProductive();
    var p := Productivity.Productive(reachable);
    forall k ensures Get(r, k) == if k == "S" then [["a", "b"], ["S1"]] else [] {
      DanglingKept(k);
    }
    DanglingSurvivor(r);
  }

  /** What `original_form` keeps of each symbol when `S` and `S1` are the productive keys. */
  lemma DanglingKept(x: Symbol)
    ensures (if x in {"S", "S1"} then Denormalize.StripRules(Get(DanglingNormal, x)) else [])
            == if x == "S" then [["a", "b"], ["S1"]] else []
  {
    DanglingStripped();
    DanglingNormalGet(x);
  }

  /** A grammar whose only non-empty read is that of `S` stores `S` alone. */
  lemma DanglingSurvivor(r: Grammar)
    requires forall k :: Get(r, k) == if k == "S" then [["a", "b"], ["S1"]] else []
    requires forall k :: k in r.rules ==> r.rules[k] != []
    ensures r.rules == map["S" := [["a", "b"], ["S1"]]]
  {
    forall x | x in r.rules ensures x == "S" {
      assert Get(r, x) == r.rules[x];
    }
    assert Get(r, "S") != [];
    SingleEntry(r.rules, "S", [["a", "b"], ["S1"]]);
  }

  lemma SingleEntry(m: map<Symbol, seq<Rule>>, k: Symbol, v: seq<Rule>)
    requires k in m && m[k] == v
    requires forall x :: x in m ==> x == k
    ensures m == map[k := v]
  {
  }

  /** The last two passes, read pointwise: a key keeps its rules, stripped of the marker,
      exactly when it is productive, and every key left is reachable and productive. */
  lemma LastPassesGet(merged: Grammar, reachable: Grammar, r: Grammar)
    requires Valid(reachable)
    requires forall x :: x in reachable.rules <==> Reachability.Reaches(merged, Start, x)
    requires forall x :: x in reachable.rules ==> reachable.rules[x] == Get(merged, x)
    requires r == Denormalize.Denormalized(Productivity.Restrict(reachable, Productivity.Productive(reachable)))
    ensures forall k :: Get(r, k)
                        == if k in Productivity.Productive(reachable) then Denormalize.StripRules(Get(merged, k)) else []
    ensures forall k :: k in r.rules ==> Reachability.Reaches(merged, Start, k) && k in Productivity.Productive(reachable)
  {
    var p := Productivity.Productive(reachable);
    var productive := Productivity.Restrict(reachable, p);
    Productivity.ProductiveLeast(reachable);
    Productivity.RestrictMeaning(reachable, p);
    Denormalize.DenormalizedShape(productive);
    forall k ensures Get(r, k) == if k in p then Denormalize.StripRules(Get(merged, k)) else [] {
      Denormalize.DenormalizedGet(productive, k);
      if k in p {
        assert k in reachable.rules;
      } else {
        assert Get(productive, k) == [];
      }
    }
    forall k | k in r.rules ensures Reachability.Reaches(merged, Start, k) && k in p {
      assert Get(r, k) != [];
      if k !in p {
        assert Get(productive, k) == [];
        Denormalize.DenormalizedGet(productive, k);
      }
      assert k in reachable.rules;
    }
  }

  /** `minimize_grammar`. The ghost results are the grammars `merge_equivalent` and
      `remove_unreachable` returned: the merge of the normal form under a mapping of the
      pairs found in it, and its part reachable from `'S'`. The result keeps, for each
      productive key of that part, its rules stripped of the marker, and
      nothing else; so every key it has is reachable and productive. It is a dictionary
      whose every key owns a rule and whose rules are non-empty and free of the marker. A
      grammar that never mentions the marker minimises to the empty dictionary: after
      `remove_unreachable` every terminal is a key with no rules, and `remove_unproductive`
      counts a symbol as productive only when it is a key with a rule made of productive
      keys and markers. */
  method MinimizeGrammar(g: Grammar) returns (r: Grammar, ghost merged: Grammar, ghost reachable: Grammar)
    requires Valid(g) && NonEmptyRules(g)
    ensures exists m :: Merge.IsMapping(Normalize.Normalized(g), Equivalence.EquivalentPairs(Normalize.Normalized(g)), m)
                        && merged == Merge.Merged(Normalize.Normalized(g), m)
    ensures Valid(reachable)
    ensures forall x :: x in reachable.rules <==> Reachability.Reaches(merged, Start, x)
    ensures forall x :: x in reachable.rules ==> reachable.rules[x] == Get(merged, x)
    ensures r == Denormalize.Denormalized(Productivity.Restrict(reachable, Productivity.Productive(reachable)))
    ensures forall k :: Get(r, k)
                        == if k in Productivity.Productive(reachable) then Denormalize.StripRules(Get(merged, k)) else []
    ensures forall k :: k in r.rules ==> Reachability.Reaches(merged, Start, k) && k in Productivity.Productive(reachable)
    ensures Valid(r)
    ensures forall k :: k in r.rules ==> r.rules[k] != []
    ensures CleanRules(r)
    ensures MarkerFree(g) ==> r == Empty
  {
    var chomskyGrammar := Normalize.ChomskyNormalForm(g);
    var equivalentPairs := Equivalence.IdentifyEquivalent(chomskyGrammar);
    var mergedGrammar;
    ghost var mapping;
    mergedGrammar, mapping := Merge.MergeEquivalent(chomskyGrammar, equivalentPairs);
    var reachableGrammar := Reachability.RemoveUnreachable(mergedGrammar);
    var productiveGrammar;
    ghost var passes;
    productiveGrammar, passes := Productivity.RemoveUnproductive(reachableGrammar);
    Productivity.RestrictMeaning(reachableGrammar, Productivity.Productive(reachableGrammar));
    r := Denormalize.OriginalForm(productiveGrammar);
    merged, reachable := mergedGrammar, reachableGrammar;
    OriginalFormClean(productiveGrammar, r);
    LastPassesGet(merged, reachable, r);
    if MarkerFree(g) {
      NothingSurvives(chomskyGrammar, equivalentPairs, mapping, reachableGrammar);
      assert r == Denormalize.Denormalized(Empty);
    }
  }
}
