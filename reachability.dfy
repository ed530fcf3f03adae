/**
 `remove_unreachable`: a depth-first visit from `'S'` collects every symbol
 reachable through the rules (terminals included), and each collected symbol
 is stored under its rules in the input (an empty list for a symbol that is
 not a key).
 */
module Reachability {
  import opened Grammars

  /** The symbols occurring in the rules of `a`. */
  ghost function Succ(g: Grammar, a: Symbol): set<Symbol>
  {
    set rule, s | rule in Get(g, a) && s in rule :: s
  }

  /** Every symbol the visit can meet: the keys, the symbols of their rules, and `'S'`. */
  ghost function Universe(g: Grammar): set<Symbol>
  {
    g.rules.Keys + (set k, rule, s | k in g.rules && rule in g.rules[k] && s in rule :: s) + {Start}
  }

  lemma SuccInUniverse(g: Grammar, a: Symbol)
    ensures Succ(g, a) <= Universe(g)
  {
    forall s | s in Succ(g, a) ensures s in Universe(g) {
      var rule :| rule in Get(g, a) && s in rule;
      assert a in g.rules && rule in g.rules[a];
    }
  }

  /** Each symbol of `path` occurs in a rule of the one before it. */
  ghost predicate IsPath(g: Grammar, path: seq<Symbol>)
  {
    |path| > 0 && forall i :: 0 <= i < |path| - 1 ==> path[i + 1] in Succ(g, path[i])
  }

  /** `b` is met when the visit starts from `a`. */
  ghost predicate Reaches(g: Grammar, a: Symbol, b: Symbol)
  {
    exists path :: IsPath(g, path) && path[0] == a && path[|path| - 1] == b
  }

  lemma ReachesSelf(g: Grammar, a: Symbol)
    ensures Reaches(g, a, a)
  {
    assert IsPath(g, [a]);
  }

  lemma ReachesStep(g: Grammar, a: Symbol, b: Symbol, c: Symbol)
    requires b in Succ(g, a) && Reaches(g, b, c)
    ensures Reaches(g, a, c)
  {
    var path :| IsPath(g, path) && path[0] == b && path[|path| - 1] == c;
    var longer := [a] + path;
    assert forall i :: 0 < i < |longer| ==> longer[i] == path[i - 1];
    assert IsPath(g, longer);
  }

  /** A set that holds `a` and the successors of each of its elements holds everything
      reachable from `a`. */
  lemma {:induction false} ClosedHoldsReachable(g: Grammar, q: set<Symbol>, path: seq<Symbol>)
    requires IsPath(g, path) && path[0] in q
    requires forall x :: x in q ==> Succ(g, x) <= q
    ensures path[|path| - 1] in q
    decreases |path|
  {
    if |path| > 1 {
      var init := path[..|path| - 1];
      assert IsPath(g, init) by {
        assert forall i :: 0 <= i < |init| ==> init[i] == path[i];
      }
      ClosedHoldsReachable(g, q, init);
      assert path[|path| - 1] in Succ(g, path[|path| - 2]);
    }
  }

  /** `visit(symbol)`, with the enclosing `reachable` set passed in and returned. The new
      symbols are exactly those it has reached from `symbol`, and each has all its
      successors collected. */
  method Visit(g: Grammar, symbol: Symbol, reached: set<Symbol>) returns (out: set<Symbol>)
    requires symbol in Universe(g) && reached <= Universe(g)
    ensures reached <= out <= Universe(g)
    ensures symbol in out
    ensures forall x :: x in out && x !in reached ==> Succ(g, x) <= out
    ensures forall x :: x in out && x !in reached ==> Reaches(g, symbol, x)
    decreases Universe(g) - reached
  {
    out := reached;
    if symbol !in reached {
      out := out + {symbol};
      ReachesSelf(g, symbol);
      SuccInUniverse(g, symbol);
      var rules := Get(g, symbol);
      var j := 0;
      while j < |rules|
        invariant 0 <= j <= |rules|
        invariant reached + {symbol} <= out <= Universe(g)
        invariant forall t, s :: 0 <= t < j && s in rules[t] ==> s in out
        invariant forall x :: x in out && x !in reached && x != symbol ==> Succ(g, x) <= out
        invariant forall x :: x in out && x !in reached ==> Reaches(g, symbol, x)
      {
        var rule := rules[j];
        var k := 0;
        while k < |rule|
          invariant 0 <= k <= |rule|
          invariant reached + {symbol} <= out <= Universe(g)
          invariant forall t, s :: 0 <= t < j && s in rules[t] ==> s in out
          invariant forall t :: 0 <= t < k ==> rule[t] in out
          invariant forall x :: x in out && x !in reached && x != symbol ==> Succ(g, x) <= out
          invariant forall x :: x in out && x !in reached ==> Reaches(g, symbol, x)
        {
          var next := rule[k];
          assert rule in Get(g, symbol) && next in rule;
          assert next in Succ(g, symbol);
          var before := out;
          out := Visit(g, next, before);
          forall x | x in out && x !in before
            ensures Reaches(g, symbol, x)
          {
            ReachesStep(g, symbol, next, x);
          }
          k := k + 1;
        }
        j := j + 1;
      }
      forall s | s in Succ(g, symbol)
        ensures s in out
      {
        var rule :| rule in rules && s in rule;
        var t :| 0 <= t < |rules| && rules[t] == rule;
      }
    }
  }

  /** `remove_unreachable`. Python fills the new dictionary in the set order of `reachable`,
      here an unspecified order. */
  method RemoveUnreachable(g: Grammar) returns (r: Grammar)
    ensures Valid(r)
    ensures forall x :: x in r.rules <==> Reaches(g, Start, x)
    ensures forall x :: x in r.rules ==> r.rules[x] == Get(g, x)
  {
    var reachable := Visit(g, Start, {});
    forall x | Reaches(g, Start, x)
      ensures x in reachable
    {
      var path :| IsPath(g, path) && path[0] == Start && path[|path| - 1] == x;
      ClosedHoldsReachable(g, reachable, path);
    }
    r := Empty;
    var todo := reachable;
    while todo != {}
      invariant todo <= reachable
      invariant Valid(r)
      invariant forall x :: x in r.rules <==> x in reachable && x !in todo
      invariant forall x :: x in r.rules ==> r.rules[x] == Get(g, x)
      decreases todo
    {
      var nonTerminal :| nonTerminal in todo;
      PutEffect(r, nonTerminal, Get(g, nonTerminal));
      r := Put(r, nonTerminal, Get(g, nonTerminal));
      todo := todo - {nonTerminal};
    }
  }

  /** What `remove_unreachable` keeps is closed: every symbol of every kept rule is itself
      a key, a terminal with an empty rule list; and `'S'` is always a key. */
  lemma UnreachableRemovedClosed(g: Grammar, r: Grammar)
    requires forall x :: x in r.rules <==> Reaches(g, Start, x)
    requires forall x :: x in r.rules ==> r.rules[x] == Get(g, x)
    ensures Start in r.rules
    ensures forall x, rule, s :: x in r.rules && rule in r.rules[x] && s in rule ==> s in r.rules
  {
    ReachesSelf(g, Start);
    forall x, rule, s | x in r.rules && rule in r.rules[x] && s in rule
      ensures s in r.rules
    {
      var path :| IsPath(g, path) && path[0] == Start && path[|path| - 1] == x;
      assert s in Succ(g, x);
      var longer := path + [s];
      assert forall i :: 0 <= i < |path| ==> longer[i] == path[i];
      assert IsPath(g, longer);
    }
  }
}
