/**
 `original_form`: every rule loses its empty markers; a rule left empty is
 dropped, and a key all of whose rules are dropped does not appear in the
 result.
 */
module Denormalize {
  import opened Grammars

  /** `[symbol for symbol in rule if symbol != '']`: no longer than the rule, free of the
      marker, and made of the rule's symbols. */
  function StripMarker(rule: Rule): (r: Rule)
    ensures |r| <= |rule|
    ensures EmptyMarker !in r
    ensures forall s :: s in r ==> s in rule
  {
    if rule == [] then []
    else (if rule[0] == EmptyMarker then [] else [rule[0]]) + StripMarker(rule[1..])
  }

  lemma {:induction false} StripMarkerMember(rule: Rule, s: Symbol)
    ensures s in StripMarker(rule) <==> s in rule && s != EmptyMarker
  {
    if rule != [] {
      StripMarkerMember(rule[1..], s);
      assert rule == [rule[0]] + rule[1..];
    }
  }

  /** Stripping twice is stripping once. */
  lemma {:induction false} StripMarkerTwice(rule: Rule)
    ensures StripMarker(StripMarker(rule)) == StripMarker(rule)
  {
    if rule != [] {
      StripMarkerTwice(rule[1..]);
      var r := StripMarker(rule);
      if rule[0] != EmptyMarker {
        assert r == [rule[0]] + StripMarker(rule[1..]);
        assert r[0] == rule[0] && r[1..] == StripMarker(rule[1..]);
      } else {
        assert r == StripMarker(rule[1..]);
      }
    }
  }

  /** A rule without the marker is left as it is. */
  lemma {:induction false} StripMarkerClean(rule: Rule)
    requires EmptyMarker !in rule
    ensures StripMarker(rule) == rule
  {
    if rule != [] {
      StripMarkerClean(rule[1..]);
      assert rule == [rule[0]] + rule[1..];
    }
  }

  /** `new_rule` as a one-element list when `if new_rule:` keeps it, else nothing. */
  function Kept(rule: Rule): seq<Rule>
  {
    if StripMarker(rule) != [] then [StripMarker(rule)] else []
  }

  /** The stripped rules of a list that are not empty, in order. */
  function StripRules(rules: seq<Rule>): seq<Rule>
  {
    if rules == [] then [] else Kept(rules[0]) + StripRules(rules[1..])
  }

  /** A list of non-empty rules without the marker survives stripping whole. */
  lemma {:induction false} StripRulesClean(rules: seq<Rule>)
    requires forall rule :: rule in rules ==> rule != [] && EmptyMarker !in rule
    ensures StripRules(rules) == rules
  {
    if rules != [] {
      assert rules[0] in rules;
      StripMarkerClean(rules[0]);
      assert Kept(rules[0]) == [rules[0]];
      assert forall rule :: rule in rules[1..] ==> rule in rules;
      StripRulesClean(rules[1..]);
      assert rules == [rules[0]] + rules[1..];
    }
  }

  /** A kept rule is a non-empty, marker-free stripped rule of the list. */
  lemma {:induction false} StripRulesMember(rules: seq<Rule>, rule: Rule)
    requires rule in StripRules(rules)
    ensures rule != [] && EmptyMarker !in rule
    ensures exists r :: r in rules && rule == StripMarker(r)
  {
    var head := StripMarker(rules[0]);
    if head != [] && rule == head {
      StripMarkerMember(rules[0], EmptyMarker);
    } else {
      assert rule in StripRules(rules[1..]);
      StripRulesMember(rules[1..], rule);
      var r :| r in rules[1..] && rule == StripMarker(r);
      assert r in rules;
    }
  }

  lemma {:induction false} StripRulesTwice(rules: seq<Rule>)
    ensures StripRules(StripRules(rules)) == StripRules(rules)
  {
    if rules != [] {
      StripRulesTwice(rules[1..]);
      var head := StripMarker(rules[0]);
      var s := StripRules(rules);
      if head != [] {
        StripMarkerTwice(rules[0]);
        assert s == [head] + StripRules(rules[1..]);
        assert s[0] == head && s[1..] == StripRules(rules[1..]);
      } else {
        assert s == StripRules(rules[1..]);
      }
    }
  }

  /** One iteration of the loop over the rules of one key. */
  function Keep(acc: Grammar, owner: Symbol, rule: Rule): Grammar
  {
    if StripMarker(rule) != [] then Append(acc, owner, StripMarker(rule)) else acc
  }

  /** The loop over the rules of one key. */
  function DenormRules(acc: Grammar, owner: Symbol, rules: seq<Rule>): Grammar
    decreases |rules|
  {
    if rules == [] then acc else DenormRules(Keep(acc, owner, rules[0]), owner, rules[1..])
  }

  /** What the loop over the rules of `owner` leaves: the non-empty stripped rules appended
      under `owner`, which is created only when there is at least one of them. */
  function FileStripped(acc: Grammar, owner: Symbol, rules: seq<Rule>): Grammar
  {
    if StripRules(rules) == [] then acc else Put(acc, owner, Get(acc, owner) + StripRules(rules))
  }

  /** The loop over the keys `ks` of `g`. */
  function DenormKeys(acc: Grammar, g: Grammar, ks: seq<Symbol>): Grammar
    decreases |ks|
  {
    if ks == [] then acc
    else DenormKeys(FileStripped(acc, ks[0], Get(g, ks[0])), g, ks[1..])
  }

  /** What `original_form(g)` returns. */
  function Denormalized(g: Grammar): Grammar
  {
    DenormKeys(Empty, g, g.keys)
  }

  /** The inner loop of `original_form`: each rule of `owner`, stripped of its markers, is
      appended under `owner` unless nothing is left of it. */
  method AppendStripped(acc: Grammar, owner: Symbol, rules: seq<Rule>) returns (r: Grammar)
    ensures r == FileStripped(acc, owner, rules)
  {
    r := acc;
    var j := 0;
    while j < |rules|
      invariant 0 <= j <= |rules|
      invariant DenormRules(r, owner, rules[j..]) == DenormRules(acc, owner, rules)
    {
      var rule := rules[j];
      var newRule := StripMarker(rule);
      assert rules[j..][0] == rule && rules[j..][1..] == rules[j + 1..];
      ghost var before := r;
      if newRule != [] {
        r := Append(r, owner, newRule);
      }
      assert r == Keep(before, owner, rule);
      j := j + 1;
    }
    assert rules[j..] == [];
    DenormRulesClosed(acc, owner, rules);
  }

  /** `original_form`. */
  method OriginalForm(g: Grammar) returns (r: Grammar)
    requires Valid(g)
    ensures r == Denormalized(g)
  {
    r := Empty;
    var i := 0;
    assert g.keys[0..] == g.keys;
    while i < |g.keys|
      invariant 0 <= i <= |g.keys|
      invariant DenormKeys(r, g, g.keys[i..]) == Denormalized(g)
    {
      var nonTerminal := g.keys[i];
      var rules := g.rules[nonTerminal];
      assert rules == Get(g, nonTerminal);
      assert g.keys[i..][0] == nonTerminal && g.keys[i..][1..] == g.keys[i + 1..];
      r := AppendStripped(r, nonTerminal, rules);
      i := i + 1;
    }
    assert g.keys[i..] == [];
  }

  /** Appending the stripped rules one at a time files them all under `owner` at once. */
  lemma {:induction false} DenormRulesClosed(acc: Grammar, owner: Symbol, rules: seq<Rule>)
    ensures DenormRules(acc, owner, rules) == FileStripped(acc, owner, rules)
    decreases |rules|
  {
    if rules != [] {
      var acc1 := Keep(acc, owner, rules[0]);
      DenormRulesClosed(acc1, owner, rules[1..]);
      var rest := StripRules(rules[1..]);
      assert StripRules(rules) == Kept(rules[0]) + rest;
      var s := StripMarker(rules[0]);
      if s != [] {
        var v := Get(acc, owner) + [s];
        assert acc1 == Put(acc, owner, v) && Get(acc1, owner) == v;
        if rest == [] {
          assert StripRules(rules) == [s];
        } else {
          PutPut(acc, owner, v, v + rest);
          AppendAfter(Get(acc, owner), v, [s], rest);
        }
      } else {
        assert acc1 == acc && StripRules(rules) == rest;
      }
    }
  }

  lemma FileStrippedGet(acc: Grammar, g: Grammar, k: Symbol, b: Symbol)
    ensures Get(FileStripped(acc, k, Get(g, k)), b) == Get(acc, b) + FiledUnder(g, k, b)
  {
    if StripRules(Get(g, k)) != [] {
      PutEffect(acc, k, Get(acc, k) + StripRules(Get(g, k)));
    }
  }

  lemma FileStrippedValid(acc: Grammar, owner: Symbol, rules: seq<Rule>)
    requires ValidFull(acc)
    ensures ValidFull(FileStripped(acc, owner, rules))
  {
    if StripRules(rules) != [] {
      PutEffect(acc, owner, Get(acc, owner) + StripRules(rules));
    }
  }

  lemma FileStrippedKeys(acc: Grammar, owner: Symbol, rules: seq<Rule>)
    ensures FileStripped(acc, owner, rules).keys
            == if owner in acc.rules || StripRules(rules) == [] then acc.keys else acc.keys + [owner]
    ensures FileStripped(acc, owner, rules).rules.Keys
            == if StripRules(rules) == [] then acc.rules.Keys else acc.rules.Keys + {owner}
  {
    if StripRules(rules) != [] {
      PutEffect(acc, owner, Get(acc, owner) + StripRules(rules));
    }
  }

  /** The keys of `ks`, in order, whose rules do not all strip to nothing. */
  function Survivors(g: Grammar, ks: seq<Symbol>): seq<Symbol>
  {
    if ks == [] then []
    else (if StripRules(Get(g, ks[0])) != [] then [ks[0]] else []) + Survivors(g, ks[1..])
  }

  /** The stripped rules the key `k` files under `b`. */
  function FiledUnder(g: Grammar, k: Symbol, b: Symbol): seq<Rule>
  {
    if k == b then StripRules(Get(g, k)) else []
  }

  /** The stripped rules filed under `b` by the keys `ks`, in order. */
  function StrippedFrom(g: Grammar, ks: seq<Symbol>, b: Symbol): seq<Rule>
  {
    if ks == [] then [] else FiledUnder(g, ks[0], b) + StrippedFrom(g, ks[1..], b)
  }

  lemma {:induction false} DenormKeysGet(acc: Grammar, g: Grammar, ks: seq<Symbol>, b: Symbol)
    ensures Get(DenormKeys(acc, g, ks), b) == Get(acc, b) + StrippedFrom(g, ks, b)
    decreases |ks|
  {
    if ks != [] {
      var acc1 := FileStripped(acc, ks[0], Get(g, ks[0]));
      DenormKeysGet(acc1, g, ks[1..], b);
      FileStrippedGet(acc, g, ks[0], b);
      AppendAfter(Get(acc, b), Get(acc1, b), FiledUnder(g, ks[0], b), StrippedFrom(g, ks[1..], b));
    }
  }

  /** A key listed once contributes its stripped rules once. */
  lemma {:induction false} StrippedFromDistinct(g: Grammar, ks: seq<Symbol>, b: Symbol)
    requires Distinct(ks)
    ensures StrippedFrom(g, ks, b) == if b in ks then StripRules(Get(g, b)) else []
  {
    if ks != [] {
      assert Distinct(ks[1..]) by {
        forall i, j | 0 <= i < j < |ks[1..]| ensures ks[1..][i] != ks[1..][j] {
          assert ks[1..][i] == ks[i + 1] && ks[1..][j] == ks[j + 1];
        }
      }
      StrippedFromDistinct(g, ks[1..], b);
      assert ks == [ks[0]] + ks[1..];
      if ks[0] == b {
        assert b !in ks[1..];
      }
    }
  }

  lemma {:induction false} DenormKeysValid(acc: Grammar, g: Grammar, ks: seq<Symbol>)
    requires ValidFull(acc)
    ensures ValidFull(DenormKeys(acc, g, ks))
    decreases |ks|
  {
    if ks != [] {
      FileStrippedValid(acc, ks[0], Get(g, ks[0]));
      DenormKeysValid(FileStripped(acc, ks[0], Get(g, ks[0])), g, ks[1..]);
    }
  }

  /** No key of `ks` is in `seen` or repeats an earlier one. */
  predicate Unseen(ks: seq<Symbol>, seen: set<Symbol>)
  {
    ks == [] || (ks[0] !in seen && Unseen(ks[1..], seen + {ks[0]}))
  }

  lemma {:induction false} UnseenSmaller(ks: seq<Symbol>, seen: set<Symbol>, fewer: set<Symbol>)
    requires Unseen(ks, seen) && fewer <= seen
    ensures Unseen(ks, fewer)
  {
    if ks != [] {
      UnseenSmaller(ks[1..], seen + {ks[0]}, fewer + {ks[0]});
    }
  }

  function Elements(ks: seq<Symbol>): set<Symbol>
  {
    set x | x in ks
  }

  lemma {:induction false} DistinctUnseen(ks: seq<Symbol>)
    requires Distinct(ks)
    ensures Unseen(ks, {})
  {
    var i := |ks|;
    while i > 0
      invariant 0 <= i <= |ks|
      invariant Unseen(ks[i..], Elements(ks[..i]))
    {
      i := i - 1;
      assert ks[i..][0] == ks[i] && ks[i..][1..] == ks[i + 1..];
      assert ks[..i + 1] == ks[..i] + [ks[i]];
      assert ks[i] !in ks[..i];
      assert Elements(ks[..i + 1]) == Elements(ks[..i]) + {ks[i]};
    }
    assert ks[..0] == [] && ks[0..] == ks;
    assert Elements(ks[..0]) == {};
  }

  /** One key of the outer loop: an unseen key is appended exactly when it survives. */
  lemma DenormKeysStep(acc: Grammar, g: Grammar, ks: seq<Symbol>)
    requires ks != [] && Unseen(ks, acc.rules.Keys)
    ensures Unseen(ks[1..], FileStripped(acc, ks[0], Get(g, ks[0])).rules.Keys)
    ensures FileStripped(acc, ks[0], Get(g, ks[0])).keys
            == acc.keys + (if StripRules(Get(g, ks[0])) != [] then [ks[0]] else [])
  {
    var k := ks[0];
    var acc1 := FileStripped(acc, k, Get(g, k));
    assert k !in acc.rules && Unseen(ks[1..], acc.rules.Keys + {k});
    FileStrippedKeys(acc, k, Get(g, k));
    UnseenSmaller(ks[1..], acc.rules.Keys + {k}, acc1.rules.Keys);
  }

  lemma {:induction false} DenormKeysKeys(acc: Grammar, g: Grammar, ks: seq<Symbol>)
    requires Unseen(ks, acc.rules.Keys)
    ensures DenormKeys(acc, g, ks).keys == acc.keys + Survivors(g, ks)
    decreases |ks|
  {
    if ks != [] {
      var acc1 := FileStripped(acc, ks[0], Get(g, ks[0]));
      DenormKeysStep(acc, g, ks);
      DenormKeysKeys(acc1, g, ks[1..]);
      var here: seq<Symbol> := if StripRules(Get(g, ks[0])) != [] then [ks[0]] else [];
      AppendAfter(acc.keys, acc1.keys, here, Survivors(g, ks[1..]));
    }
  }

  /** `original_form` keeps a dictionary, with the surviving keys in their input order. */
  lemma DenormalizedShape(g: Grammar)
    requires Valid(g)
    ensures ValidFull(Denormalized(g))
    ensures Denormalized(g).keys == Survivors(g, g.keys)
  {
    DenormKeysValid(Empty, g, g.keys);
    DistinctUnseen(g.keys);
    assert Empty.rules.Keys == {};
    DenormKeysKeys(Empty, g, g.keys);
  }

  /** `original_form` stores under each key exactly its non-empty stripped rules, so it keeps
      a key only when at least one of its rules keeps a symbol. */
  lemma DenormalizedGet(g: Grammar, b: Symbol)
    requires Valid(g)
    ensures Get(Denormalized(g), b) == StripRules(Get(g, b))
  {
    DenormKeysGet(Empty, g, g.keys, b);
    StrippedFromDistinct(g, g.keys, b);
  }

  /** No rule `original_form` keeps is empty or mentions the empty marker. */
  lemma DenormalizedClean(g: Grammar, b: Symbol, rule: Rule)
    requires Valid(g)
    requires b in Denormalized(g).rules && rule in Denormalized(g).rules[b]
    ensures rule != [] && EmptyMarker !in rule
  {
    DenormalizedGet(g, b);
    var d := Denormalized(g);
    assert d.rules[b] == Get(d, b);
    StripRulesMember(Get(g, b), rule);
  }

  lemma {:induction false} SurvivorsAll(g: Grammar, ks: seq<Symbol>)
    requires forall t :: 0 <= t < |ks| ==> StripRules(Get(g, ks[t])) != []
    ensures Survivors(g, ks) == ks
  {
    if ks != [] {
      SurvivorsAll(g, ks[1..]);
      assert ks == [ks[0]] + ks[1..];
    }
  }

  lemma DenormalizedTwiceGet(g: Grammar, b: Symbol)
    requires Valid(g)
    ensures Valid(Denormalized(g))
    ensures Get(Denormalized(Denormalized(g)), b) == Get(Denormalized(g), b)
  {
    DenormalizedShape(g);
    DenormalizedGet(g, b);
    DenormalizedGet(Denormalized(g), b);
    StripRulesTwice(Get(g, b));
  }

  lemma DenormalizedTwiceKeys(g: Grammar)
    requires Valid(g)
    ensures Valid(Denormalized(g))
    ensures Denormalized(Denormalized(g)).keys == Denormalized(g).keys
  {
    var d := Denormalized(g);
    DenormalizedShape(g);
    DenormalizedShape(d);
    forall t | 0 <= t < |d.keys| ensures StripRules(Get(d, d.keys[t])) != [] {
      var k := d.keys[t];
      assert k in d.rules;
      DenormalizedTwiceGet(g, k);
      DenormalizedGet(d, k);
    }
    SurvivorsAll(d, d.keys);
  }

  /** Applying `original_form` twice gives the same dictionary as applying it once. */
  lemma DenormalizedIdempotent(g: Grammar)
    requires Valid(g)
    ensures Denormalized(Denormalized(g)) == Denormalized(g)
  {
    var d := Denormalized(g);
    var dd := Denormalized(d);
    DenormalizedTwiceKeys(g);
    DenormalizedShape(d);
    assert dd.rules.Keys == d.rules.Keys;
    forall b | b in d.rules ensures dd.rules[b] == d.rules[b] {
      DenormalizedTwiceGet(g, b);
    }
  }
}
