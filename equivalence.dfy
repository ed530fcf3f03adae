/**
 `identify_equivalent`: every ordered pair of keys `(A_i, A_j)` with `i < j` in
 the dictionary's key order whose rule lists hold the same rules (each rule of
 one list occurs in the other, in both directions).
 */
module Equivalence {
  import opened Grammars

  /** `all([(rule in b) for rule in a])`. */
  predicate Contained(a: seq<Rule>, b: seq<Rule>)
  {
    forall rule :: rule in a ==> rule in b
  }

  /** The test of `identify_equivalent` for the keys `a` and `b`. */
  predicate Equivalent(g: Grammar, a: Symbol, b: Symbol)
  {
    Contained(Get(g, a), Get(g, b)) && Contained(Get(g, b), Get(g, a))
  }

  /** The pairs found once the outer loop has passed the indices below `i` and the inner
      loop for `i` the indices below `j`. */
  ghost function PairsBelow(g: Grammar, i: int, j: int): set<(Symbol, Symbol)>
  {
    set p, q | 0 <= p < q < |g.keys| && (p < i || (p == i && q < j)) && Equivalent(g, g.keys[p], g.keys[q])
      :: (g.keys[p], g.keys[q])
  }

  /** Everything `identify_equivalent` returns. */
  ghost function EquivalentPairs(g: Grammar): set<(Symbol, Symbol)>
  {
    set p, q | 0 <= p < q < |g.keys| && Equivalent(g, g.keys[p], g.keys[q]) :: (g.keys[p], g.keys[q])
  }

  lemma PairsBelowStep(g: Grammar, i: int, j: int)
    requires 0 <= i < j < |g.keys|
    ensures PairsBelow(g, i, j + 1)
            == PairsBelow(g, i, j) + (if Equivalent(g, g.keys[i], g.keys[j]) then {(g.keys[i], g.keys[j])} else {})
  {
    var extra := if Equivalent(g, g.keys[i], g.keys[j]) then {(g.keys[i], g.keys[j])} else {};
    forall x | x in PairsBelow(g, i, j + 1)
      ensures x in PairsBelow(g, i, j) + extra
    {
      var p, q :| 0 <= p < q < |g.keys| && (p < i || (p == i && q < j + 1))
                  && Equivalent(g, g.keys[p], g.keys[q]) && x == (g.keys[p], g.keys[q]);
      if !(p == i && q == j) {
        assert x in PairsBelow(g, i, j);
      }
    }
    forall x | x in PairsBelow(g, i, j) + extra
      ensures x in PairsBelow(g, i, j + 1)
    {
      if x in PairsBelow(g, i, j) {
        var p, q :| 0 <= p < q < |g.keys| && (p < i || (p == i && q < j))
                    && Equivalent(g, g.keys[p], g.keys[q]) && x == (g.keys[p], g.keys[q]);
        assert p < i || (p == i && q < j + 1);
      } else {
        assert x == (g.keys[i], g.keys[j]);
      }
    }
  }

  lemma PairsBelowRow(g: Grammar, i: int)
    requires 0 <= i
    ensures PairsBelow(g, i, |g.keys|) == PairsBelow(g, i + 1, i + 2)
  {
    forall x | x in PairsBelow(g, i + 1, i + 2)
      ensures x in PairsBelow(g, i, |g.keys|)
    {
      var p, q :| 0 <= p < q < |g.keys| && (p < i + 1 || (p == i + 1 && q < i + 2))
                  && Equivalent(g, g.keys[p], g.keys[q]) && x == (g.keys[p], g.keys[q]);
      assert p < i || (p == i && q < |g.keys|);
    }
  }

  lemma PairsBelowAll(g: Grammar)
    ensures PairsBelow(g, |g.keys|, |g.keys| + 1) == EquivalentPairs(g)
  {
  }

  /** `identify_equivalent`, with its two nested `range` loops. */
  method IdentifyEquivalent(g: Grammar) returns (pairs: set<(Symbol, Symbol)>)
    ensures pairs == EquivalentPairs(g)
  {
    var nonTerminals := g.keys;
    var n := |nonTerminals|;
    pairs := {};
    var i := 0;
    while i < n
      invariant 0 <= i <= n
      invariant pairs == PairsBelow(g, i, i + 1)
    {
      var j := i + 1;
      while j < n
        invariant i + 1 <= j <= n
        invariant pairs == PairsBelow(g, i, j)
      {
        var a, b := nonTerminals[i], nonTerminals[j];
        PairsBelowStep(g, i, j);
        if Contained(Get(g, a), Get(g, b)) && Contained(Get(g, b), Get(g, a)) {
          pairs := pairs + {(a, b)};
        }
        j := j + 1;
      }
      PairsBelowRow(g, i);
      i := i + 1;
    }
    PairsBelowAll(g);
  }

  /** A pair is reported exactly when its first key comes strictly before its second in key
      order and the two rule lists hold the same rules; in a dictionary that excludes `(A, A)`. */
  lemma EquivalentPairsMeaning(g: Grammar, a: Symbol, b: Symbol)
    requires Valid(g)
    ensures (a, b) in EquivalentPairs(g)
            <==> (exists p, q :: 0 <= p < q < |g.keys| && g.keys[p] == a && g.keys[q] == b)
                 && Equivalent(g, a, b)
    ensures (a, b) in EquivalentPairs(g) ==> a != b && a in g.rules && b in g.rules
  {
    if (a, b) in EquivalentPairs(g) {
      var p, q :| 0 <= p < q < |g.keys| && Equivalent(g, g.keys[p], g.keys[q])
                  && (a, b) == (g.keys[p], g.keys[q]);
      assert g.keys[p] in g.keys && g.keys[q] in g.keys;
    }
  }

  /** Equivalence ignores order and multiplicity: two keys are equivalent exactly when their
      rule lists hold the same set of rules. */
  lemma EquivalentAsSets(g: Grammar, a: Symbol, b: Symbol)
    ensures Equivalent(g, a, b) <==> (set r | r in Get(g, a)) == (set r | r in Get(g, b))
  {
    var sa := set r | r in Get(g, a);
    var sb := set r | r in Get(g, b);
    if sa == sb {
      forall r | r in Get(g, a) ensures r in Get(g, b) {
        assert r in sa;
      }
      forall r | r in Get(g, b) ensures r in Get(g, a) {
        assert r in sb;
      }
    }
  }

  /** The test is an equivalence relation. */
  lemma EquivalentIsEquivalence(g: Grammar, a: Symbol, b: Symbol, c: Symbol)
    ensures Equivalent(g, a, a)
    ensures Equivalent(g, a, b) ==> Equivalent(g, b, a)
    ensures Equivalent(g, a, b) && Equivalent(g, b, c) ==> Equivalent(g, a, c)
  {
  }
}
