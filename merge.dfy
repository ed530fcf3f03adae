/**
 `merge_equivalent`: every key is mapped to a representative (the smaller
 element, in Python's string order, of some equivalent pair that contains it,
 or itself), and every rule is re-filed under its owner's representative with
 each symbol that has a representative replaced by it.
 */
module Merge {
  import opened Grammars
  import Lex

  type Pair = (Symbol, Symbol)

  /** `x in pair`. */
  predicate InPair(x: Symbol, p: Pair)
  {
    x == p.0 || x == p.1
  }

  /** `any([x in pair for pair in pairs])`. */
  predicate Paired(pairs: set<Pair>, x: Symbol)
  {
    exists p :: p in pairs && InPair(x, p)
  }

  /** `min(pair)`: one of the two elements, and neither comes before it. */
  function PairMin(p: Pair): (r: Symbol)
    ensures r == p.0 || r == p.1
    ensures !Lex.Less(p.0, r) && !Lex.Less(p.1, r)
  {
    Lex.Min(p.0, p.1)
  }

  /** What the mapping may send `k` to: the smaller element of some pair containing `k`,
      or `k` itself when no pair contains it. */
  ghost predicate MapsWell(pairs: set<Pair>, k: Symbol, v: Symbol)
  {
    if Paired(pairs, k) then exists p :: p in pairs && InPair(k, p) && v == PairMin(p)
    else v == k
  }

  /** The first loop's result: defined on exactly the keys, each mapped well. */
  ghost predicate IsMapping(g: Grammar, pairs: set<Pair>, m: map<Symbol, Symbol>)
  {
    && (forall k :: k in m <==> k in g.keys)
    && (forall k :: k in m ==> MapsWell(pairs, k, m[k]))
  }

  /** The first loop. Python visits `equivalent_pairs` in its set order and stops at the
      first pair containing the key; which pair that is, is left open here. */
  method BuildMapping(g: Grammar, pairs: set<Pair>) returns (mapping: map<Symbol, Symbol>)
    ensures IsMapping(g, pairs, mapping)
  {
    mapping := map[];
    var i := 0;
    while i < |g.keys|
      invariant 0 <= i <= |g.keys|
      invariant forall k :: k in mapping <==> k in g.keys[..i]
      invariant forall k :: k in mapping ==> MapsWell(pairs, k, mapping[k])
    {
      var nonTerminal := g.keys[i];
      if Paired(pairs, nonTerminal) {
        var pair :| pair in pairs && InPair(nonTerminal, pair);
        mapping := mapping[nonTerminal := PairMin(pair)];
      } else {
        mapping := mapping[nonTerminal := nonTerminal];
      }
      assert g.keys[..i + 1] == g.keys[..i] + [nonTerminal];
      i := i + 1;
    }
    assert g.keys[..i] == g.keys;
  }

  /** A representative never comes after the key it represents. */
  lemma MappingNotGreater(g: Grammar, pairs: set<Pair>, m: map<Symbol, Symbol>, k: Symbol)
    requires IsMapping(g, pairs, m) && k in m
    ensures !Lex.Less(k, m[k])
  {
    if Paired(pairs, k) {
      var p :| p in pairs && InPair(k, p) && m[k] == PairMin(p);
    } else {
      Lex.LessIrreflexive(k);
    }
  }

  /** `mapping[symbol] if symbol in mapping else symbol`: a symbol without a representative
      stays, one with a representative becomes a representative. */
  function Rename(m: map<Symbol, Symbol>, s: Symbol): (r: Symbol)
    ensures s !in m ==> r == s
    ensures s in m ==> r in m.Values
  {
    if s in m then m[s] else s
  }

  /** The list comprehension building `new_rule`: the same length, each symbol renamed in
      its place. */
  function RenameRule(m: map<Symbol, Symbol>, rule: Rule): (r: Rule)
    ensures |r| == |rule|
    ensures forall i :: 0 <= i < |rule| && rule[i] !in m ==> r[i] == rule[i]
    ensures forall i :: 0 <= i < |rule| && rule[i] in m ==> r[i] == m[rule[i]]
  {
    seq(|rule|, i requires 0 <= i < |rule| => Rename(m, rule[i]))
  }

  /** Every rule of a list renamed, in order. */
  function RenameRules(m: map<Symbol, Symbol>, rules: seq<Rule>): seq<Rule>
  {
    seq(|rules|, i requires 0 <= i < |rules| => RenameRule(m, rules[i]))
  }

  /** Renaming keeps a rule's length, leaves every symbol that is not a key alone and sends
      every key to a representative the first loop may have chosen for it. */
  lemma RenameRuleMeaning(g: Grammar, pairs: set<Pair>, m: map<Symbol, Symbol>, rule: Rule)
    requires IsMapping(g, pairs, m)
    ensures |RenameRule(m, rule)| == |rule|
    ensures forall i :: 0 <= i < |rule| && rule[i] !in g.keys ==> RenameRule(m, rule)[i] == rule[i]
    ensures forall i :: 0 <= i < |rule| && rule[i] in g.keys ==> MapsWell(pairs, rule[i], RenameRule(m, rule)[i])
  {
  }

  /** The second loop over the rules of one key, appending to `target`. */
  function MergeRules(acc: Grammar, target: Symbol, m: map<Symbol, Symbol>, rules: seq<Rule>): Grammar
    decreases |rules|
  {
    if rules == [] then acc
    else MergeRules(Append(acc, target, RenameRule(m, rules[0])), target, m, rules[1..])
  }

  /** What the loop over one key's rules leaves: the renamed rules appended under `target`,
      which is created only when there is at least one rule. */
  function FileRenamed(acc: Grammar, target: Symbol, m: map<Symbol, Symbol>, rules: seq<Rule>): Grammar
  {
    if rules == [] then acc else Put(acc, target, Get(acc, target) + RenameRules(m, rules))
  }

  /** The second loop over the keys `ks` of `g`. */
  function MergeKeys(acc: Grammar, g: Grammar, m: map<Symbol, Symbol>, ks: seq<Symbol>): Grammar
    decreases |ks|
  {
    if ks == [] then acc
    else MergeKeys(FileRenamed(acc, Rename(m, ks[0]), m, Get(g, ks[0])), g, m, ks[1..])
  }

  /** One step of the second loop: the key at `i` is filed, then the keys after it. */
  lemma MergeKeysAt(acc: Grammar, g: Grammar, m: map<Symbol, Symbol>, ks: seq<Symbol>, i: nat)
    requires i < |ks|
    ensures MergeKeys(acc, g, m, ks[i..])
            == MergeKeys(FileRenamed(acc, Rename(m, ks[i]), m, Get(g, ks[i])), g, m, ks[i + 1..])
  {
    assert ks[i..][0] == ks[i] && ks[i..][1..] == ks[i + 1..];
  }

  /** What the second loop builds from a fresh dictionary. */
  function Merged(g: Grammar, m: map<Symbol, Symbol>): Grammar
  {
    MergeKeys(Empty, g, m, g.keys)
  }

  /** The inner loop of the second pass: every rule of one key, renamed, is appended under
      the key's representative `target`. */
  method AppendRenamed(acc: Grammar, target: Symbol, m: map<Symbol, Symbol>, rules: seq<Rule>)
    returns (merged: Grammar)
    ensures merged == FileRenamed(acc, target, m, rules)
  {
    merged := acc;
    var j := 0;
    while j < |rules|
      invariant 0 <= j <= |rules|
      invariant MergeRules(merged, target, m, rules[j..]) == MergeRules(acc, target, m, rules)
    {
      var rule := rules[j];
      var newRule := seq(|rule|, k requires 0 <= k < |rule| => if rule[k] in m then m[rule[k]] else rule[k]);
      assert newRule == RenameRule(m, rule);
      assert rules[j..][0] == rule && rules[j..][1..] == rules[j + 1..];
      merged := Append(merged, target, newRule);
      j := j + 1;
    }
    assert rules[j..] == [];
    MergeRulesClosed(acc, target, m, rules);
  }

  /** `merge_equivalent`. The mapping is returned as a ghost value so that callers can
      state what it was. */
  method MergeEquivalent(g: Grammar, pairs: set<Pair>) returns (merged: Grammar, ghost mapping: map<Symbol, Symbol>)
    requires Valid(g)
    ensures IsMapping(g, pairs, mapping)
    ensures merged == Merged(g, mapping)
    ensures Valid(merged) && forall k :: k in merged.rules ==> merged.rules[k] != []
    ensures TotalRules(merged) == TotalRules(g)
  {
    var m := BuildMapping(g, pairs);
    mapping := m;
    merged := Empty;
    var i := 0;
    assert g.keys[0..] == g.keys;
    while i < |g.keys|
      invariant 0 <= i <= |g.keys|
      invariant MergeKeys(merged, g, m, g.keys[i..]) == Merged(g, m)
    {
      var nonTerminal := g.keys[i];
      var rules := g.rules[nonTerminal];
      assert nonTerminal in m;
      var target := m[nonTerminal];
      assert target == Rename(m, nonTerminal) && rules == Get(g, nonTerminal);
      MergeKeysAt(merged, g, m, g.keys, i);
      merged := AppendRenamed(merged, target, m, rules);
      i := i + 1;
    }
    assert g.keys[i..] == [];
    MergedValid(g, m);
    forall k | k in merged.rules ensures merged.rules[k] != [] {
      assert Get(merged, k) == merged.rules[k];
    }
  }

  /** Appending the renamed rules one at a time files them all under `target` at once. */
  lemma {:induction false} MergeRulesClosed(acc: Grammar, target: Symbol, m: map<Symbol, Symbol>, rules: seq<Rule>)
    ensures MergeRules(acc, target, m, rules) == FileRenamed(acc, target, m, rules)
    decreases |rules|
  {
    if rules != [] {
      var r := RenameRule(m, rules[0]);
      var v := Get(acc, target) + [r];
      var acc1 := Append(acc, target, r);
      assert acc1 == Put(acc, target, v) && Get(acc1, target) == v;
      MergeRulesClosed(acc1, target, m, rules[1..]);
      var rest := RenameRules(m, rules[1..]);
      assert RenameRules(m, rules) == [r] + rest;
      if rules[1..] == [] {
        assert RenameRules(m, rules) == [r];
      } else {
        PutPut(acc, target, v, v + rest);
        AppendAfter(Get(acc, target), v, [r], rest);
      }
    }
  }

  /** The renamed rules the key `k` re-files under `b`. */
  function RenamedUnder(g: Grammar, m: map<Symbol, Symbol>, k: Symbol, b: Symbol): seq<Rule>
  {
    if Rename(m, k) == b then RenameRules(m, Get(g, k)) else []
  }

  /** The rules re-filed under `b` by the keys `ks`: for each key in order whose
      representative is `b`, its rules renamed. */
  function Gathered(g: Grammar, m: map<Symbol, Symbol>, ks: seq<Symbol>, b: Symbol): seq<Rule>
  {
    if ks == [] then [] else RenamedUnder(g, m, ks[0], b) + Gathered(g, m, ks[1..], b)
  }

  lemma FileRenamedGet(acc: Grammar, g: Grammar, m: map<Symbol, Symbol>, k: Symbol, b: Symbol)
    ensures Get(FileRenamed(acc, Rename(m, k), m, Get(g, k)), b) == Get(acc, b) + RenamedUnder(g, m, k, b)
  {
    if Get(g, k) != [] {
      PutEffect(acc, Rename(m, k), Get(acc, Rename(m, k)) + RenameRules(m, Get(g, k)));
    }
  }

  lemma {:induction false} MergeKeysGet(acc: Grammar, g: Grammar, m: map<Symbol, Symbol>, ks: seq<Symbol>, b: Symbol)
    ensures Get(MergeKeys(acc, g, m, ks), b) == Get(acc, b) + Gathered(g, m, ks, b)
    decreases |ks|
  {
    if ks != [] {
      var acc1 := FileRenamed(acc, Rename(m, ks[0]), m, Get(g, ks[0]));
      MergeKeysGet(acc1, g, m, ks[1..], b);
      FileRenamedGet(acc, g, m, ks[0], b);
      AppendAfter(Get(acc, b), Get(acc1, b), RenamedUnder(g, m, ks[0], b), Gathered(g, m, ks[1..], b));
    }
  }

  /** After merging, a symbol's rules are the renamed rules of every key it represents,
      in key order, and nothing else. */
  lemma MergedGet(g: Grammar, m: map<Symbol, Symbol>, b: Symbol)
    ensures Get(Merged(g, m), b) == Gathered(g, m, g.keys, b)
  {
    MergeKeysGet(Empty, g, m, g.keys, b);
  }

  lemma FileRenamedValid(acc: Grammar, target: Symbol, m: map<Symbol, Symbol>, rules: seq<Rule>)
    requires ValidFull(acc)
    ensures ValidFull(FileRenamed(acc, target, m, rules))
    ensures TotalRules(FileRenamed(acc, target, m, rules)) == TotalRules(acc) + |rules|
  {
    if rules != [] {
      var v := Get(acc, target) + RenameRules(m, rules);
      PutEffect(acc, target, v);
      PutCount(acc, target, v);
    }
  }

  lemma {:induction false} MergeKeysValid(acc: Grammar, g: Grammar, m: map<Symbol, Symbol>, ks: seq<Symbol>)
    requires ValidFull(acc)
    ensures ValidFull(MergeKeys(acc, g, m, ks))
    ensures TotalRules(MergeKeys(acc, g, m, ks)) == TotalRules(acc) + CountIn(g, ks)
    decreases |ks|
  {
    if ks != [] {
      FileRenamedValid(acc, Rename(m, ks[0]), m, Get(g, ks[0]));
      MergeKeysValid(FileRenamed(acc, Rename(m, ks[0]), m, Get(g, ks[0])), g, m, ks[1..]);
    }
  }

  /** Merging builds a dictionary in which every key owns a rule, and it neither loses nor
      duplicates a rule. */
  lemma MergedValid(g: Grammar, m: map<Symbol, Symbol>)
    ensures ValidFull(Merged(g, m))
    ensures TotalRules(Merged(g, m)) == TotalRules(g)
  {
    MergeKeysValid(Empty, g, m, g.keys);
    CountInTotal(g);
  }

  /** A symbol is gathered some rule exactly when it represents a key that owns a rule. */
  lemma {:induction false} GatheredNonEmpty(g: Grammar, m: map<Symbol, Symbol>, ks: seq<Symbol>, b: Symbol)
    ensures Gathered(g, m, ks, b) != []
            <==> exists j :: 0 <= j < |ks| && Rename(m, ks[j]) == b && Get(g, ks[j]) != []
  {
    if ks != [] {
      GatheredNonEmpty(g, m, ks[1..], b);
      if Gathered(g, m, ks[1..], b) != [] {
        var j :| 0 <= j < |ks[1..]| && Rename(m, ks[1..][j]) == b && Get(g, ks[1..][j]) != [];
        assert ks[j + 1] == ks[1..][j];
      }
      if exists j :: 0 <= j < |ks| && Rename(m, ks[j]) == b && Get(g, ks[j]) != [] {
        var j :| 0 <= j < |ks| && Rename(m, ks[j]) == b && Get(g, ks[j]) != [];
        if j > 0 {
          assert ks[1..][j - 1] == ks[j];
        }
      }
    }
  }

  /** The keys of the merged grammar are exactly the representatives of the keys that own
      at least one rule. */
  lemma MergedKeys(g: Grammar, m: map<Symbol, Symbol>, b: Symbol)
    ensures b in Merged(g, m).rules
            <==> exists j :: 0 <= j < |g.keys| && Rename(m, g.keys[j]) == b && Get(g, g.keys[j]) != []
  {
    MergedValid(g, m);
    MergedGet(g, m, b);
    GatheredNonEmpty(g, m, g.keys, b);
  }

  /** A key that owns a rule and is sent to `b` is a key the mapping sends to `b`. */
  lemma OwnerInImage(g: Grammar, pairs: set<Pair>, m: map<Symbol, Symbol>, b: Symbol, j: int)
    requires IsMapping(g, pairs, m)
    requires 0 <= j < |g.keys| && Rename(m, g.keys[j]) == b
    ensures g.keys[j] in m && m[g.keys[j]] == b
  {
  }

  /** In a dictionary whose every key owns a rule, every key the mapping sends somewhere is
      a listed key with a rule. */
  lemma ImageHasOwner(g: Grammar, pairs: set<Pair>, m: map<Symbol, Symbol>, k: Symbol)
    requires ValidFull(g)
    requires IsMapping(g, pairs, m) && k in m
    ensures exists j :: 0 <= j < |g.keys| && g.keys[j] == k
    ensures Get(g, k) != []
  {
    assert k in g.rules;
  }

  /** In a dictionary whose every key owns a rule, the keys that own a rule and are sent to
      `b` are exactly the keys the mapping sends to `b`. */
  lemma OwnersOfImage(g: Grammar, pairs: set<Pair>, m: map<Symbol, Symbol>, b: Symbol)
    requires ValidFull(g)
    requires IsMapping(g, pairs, m)
    ensures (exists j :: 0 <= j < |g.keys| && Rename(m, g.keys[j]) == b && Get(g, g.keys[j]) != [])
            <==> exists k :: k in m && m[k] == b
  {
    if exists j :: 0 <= j < |g.keys| && Rename(m, g.keys[j]) == b && Get(g, g.keys[j]) != [] {
      var j :| 0 <= j < |g.keys| && Rename(m, g.keys[j]) == b && Get(g, g.keys[j]) != [];
      OwnerInImage(g, pairs, m, b, j);
    }
    if exists k :: k in m && m[k] == b {
      var k :| k in m && m[k] == b;
      ImageHasOwner(g, pairs, m, k);
      var j :| 0 <= j < |g.keys| && g.keys[j] == k;
      assert Rename(m, g.keys[j]) == b && Get(g, g.keys[j]) != [];
    }
  }

  /** In a dictionary whose every key owns a rule (as the normal form is), the keys of the
      merged grammar are exactly the representatives the mapping chose. */
  lemma MergedKeysImage(g: Grammar, pairs: set<Pair>, m: map<Symbol, Symbol>, b: Symbol)
    requires ValidFull(g)
    requires IsMapping(g, pairs, m)
    ensures b in Merged(g, m).rules <==> exists k :: k in m && m[k] == b
  {
    MergedKeys(g, m, b);
    OwnersOfImage(g, pairs, m, b);
  }

  /** Renaming with representatives that are not the empty marker introduces neither an
      empty rule nor the marker. */
  lemma RenameRuleClean(m: map<Symbol, Symbol>, rule: Rule)
    requires forall k :: k in m ==> m[k] != EmptyMarker
    requires |rule| > 0 && EmptyMarker !in rule
    ensures |RenameRule(m, rule)| > 0 && EmptyMarker !in RenameRule(m, rule)
  {
    var r := RenameRule(m, rule);
    forall i | 0 <= i < |r| ensures r[i] != EmptyMarker {
      assert r[i] == Rename(m, rule[i]) && rule[i] in rule;
    }
  }

  lemma RenameRulesClean(m: map<Symbol, Symbol>, rules: seq<Rule>)
    requires forall k :: k in m ==> m[k] != EmptyMarker
    requires forall rule :: rule in rules ==> |rule| > 0 && EmptyMarker !in rule
    ensures forall rule :: rule in RenameRules(m, rules) ==> |rule| > 0 && EmptyMarker !in rule
  {
    forall i | 0 <= i < |rules|
      ensures |RenameRules(m, rules)[i]| > 0 && EmptyMarker !in RenameRules(m, rules)[i]
    {
      assert rules[i] in rules;
      RenameRuleClean(m, rules[i]);
    }
  }

  lemma FileRenamedClean(acc: Grammar, target: Symbol, m: map<Symbol, Symbol>, rules: seq<Rule>)
    requires CleanRules(acc)
    requires forall k :: k in m ==> m[k] != EmptyMarker
    requires forall rule :: rule in rules ==> |rule| > 0 && EmptyMarker !in rule
    ensures CleanRules(FileRenamed(acc, target, m, rules))
  {
    if rules != [] {
      CleanGet(acc, target);
      RenameRulesClean(m, rules);
      CleanPut(acc, target, Get(acc, target) + RenameRules(m, rules));
    }
  }

  lemma {:induction false} MergeKeysClean(acc: Grammar, g: Grammar, m: map<Symbol, Symbol>, ks: seq<Symbol>)
    requires CleanRules(acc) && CleanRules(g)
    requires forall k :: k in m ==> m[k] != EmptyMarker
    ensures CleanRules(MergeKeys(acc, g, m, ks))
    decreases |ks|
  {
    if ks != [] {
      var k := ks[0];
      CleanGet(g, k);
      FileRenamedClean(acc, Rename(m, k), m, Get(g, k));
      MergeKeysClean(FileRenamed(acc, Rename(m, k), m, Get(g, k)), g, m, ks[1..]);
    }
  }

  /** Merging a grammar whose rules are non-empty and marker-free, with representatives that
      are not the marker, keeps every rule non-empty and marker-free. */
  lemma MergedClean(g: Grammar, m: map<Symbol, Symbol>)
    requires CleanRules(g)
    requires forall k :: k in m ==> m[k] != EmptyMarker
    ensures CleanRules(Merged(g, m))
  {
    MergeKeysClean(Empty, g, m, g.keys);
  }
}
