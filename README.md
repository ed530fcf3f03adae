# Grammar minimisation, modelled in Dafny

This project models the grammar minimiser of `minimize/utils.py` and proves
properties of the model. A grammar is an insertion-ordered dictionary. It maps a
non-terminal to its list of rules. A rule is a list of symbol strings, and `''`
is the empty marker. `minimize_grammar` runs six passes in order:

1. `chomsky_normal_form` rewrites every rule into rules of one or two symbols.
   It mints fresh names `owner + str(counter)`, with a counter that starts at 1.
2. `identify_equivalent` reports every pair of keys, in key order, whose rule
   lists contain each other.
3. `merge_equivalent` maps every key to a representative and re-files every
   renamed rule under its owner's representative.
4. `remove_unreachable` keeps the symbols a depth-first walk from `'S'` visits.
5. `remove_unproductive` keeps the keys in the least productive set, computed
   by a `while changed` fixed-point loop.
6. `original_form` strips `''` from every rule and drops rules that become empty.

Modules, one per file:

- `Grammars` (`grammar.dfy`): the shared dictionary value.
  - `Grammar(keys, rules)` holds the key order and the contents.
  - `Valid` says the keys are distinct and the listed keys are the stored ones.
  - `Get` reads like a `defaultdict(list)`: a missing key gives `[]`.
  - `Put` is `d[k] = v`, and `Append` is `d[k].append(rule)`.
- `Lex` (`lex.dfy`): Python's string order, and `min` of two strings.
- `Decimal` (`decimal.dfy`): `str(n)` for a natural number.
- Pass modules: `Normalize`, `Equivalence`, `Merge`, `Reachability`,
  `Productivity` and `Denormalize`.
- `Pipeline` (`pipeline.dfy`): `minimize_grammar`, as the six calls in order.

Each pass is a method with the source's loops. Each method is proved equal to a
specification. For a pass that builds a dictionary by appending, the
specification is a recursive function following the same loop (`Normalized`,
`Merged`, `Denormalized`). For a pass that keeps part of a dictionary, it is a
declarative set: reachability along rule symbols, or the least closed
productive set. The lemmas then describe those specifications pointwise.

The model follows what the code does. The passes carry five comments: the three
case labels of `chomsky_normal_form` (lines 15, 20 and 22: terminal rules,
non-terminal rules, longer rules) and the two step labels of `merge_equivalent`
(lines 49 and 60). The two step labels describe the code as written. The case
labels do not: the code does not split the cases the way they say. These behaviours of the code are worth knowing:

- Every rule of length 1 is moved behind a fresh name, whether or not its
  symbol is a terminal (`NormalizeRule`, `UnitRuleEffect`).
- A rule of three or more symbols adds nothing to its owner. The chain of fresh
  names hangs off the rule's first symbol (`LongRuleEffect`). When that first
  symbol is itself one of the names the chain is about to mint, the chain
  rebinds it: for `{'A': [['A1', 'x', 'y']]}`, `A1` ends up with
  `[['x'], ['A1'], ['A2']]` (`LongRuleCollision`, `ChainCollision`).
- The walk of `remove_unreachable` reads the merged grammar as a
  `defaultdict`. Every visited symbol therefore becomes a key, terminals
  included, and a symbol with no rules keeps `[]` (`RemoveUnreachable`).
- A symbol counts as productive only when it is a key that owns a rule made of
  productive symbols and `''` (`Productive`). After `remove_unreachable` every
  terminal is a key with no rules, so a terminal is never productive, and a rule
  that mentions one never makes its owner productive. A key that is productive
  through some other rule keeps all of its rules, though, including those.
- Without `''` no rule qualifies in the first sweep, so nothing ever becomes
  productive, and an input that never mentions `''` minimises to the empty
  dictionary (`Pipeline.MinimizeGrammar`, last `ensures`).
- The result can refer to a key it does not have. For `{'S': [['a', 'b'], ['']]}`
  the normal form is `{'S': [['a', 'b'], ['S1']], 'S1': [['']]}`. `S1` and `S`
  are productive, and `original_form` then drops `S1`, whose only rule strips to
  nothing. `minimize_grammar` of that input returns `{'S': [['a', 'b'], ['S1']]}`
  (`Pipeline.MinimizeDangling`, proved from the input through each pass).
- `original_form` leaves out a key whose rules all strip to nothing
  (`DenormalizedShape`, `Survivors`).

Preconditions:

- `Valid` is what it means to be a Python dictionary.
- Every input rule must be non-empty (`NonEmptyRules`). `chomsky_normal_form`
  reads `rule[0]` of a rule with zero symbols and raises, and that exception is
  not modelled.

## Model

| member | source | states |
|---|---|---|
| Normalize.ChomskyNormalForm | minimize/utils.py:9-31 | The nested loops compute `Normalized(g)`. The result is a dictionary in which every key owns at least one rule and every rule has one or two symbols. A marker-free input gives a marker-free result. |
| Normalize.NormalizedShape | minimize/utils.py:9-31 | The normal form of a dictionary with non-empty rules is a dictionary of one- and two-symbol rules, every key owning one, and it is marker-free when the input is. |
| Grammars.Get | minimize/utils.py:75 | Reading a `defaultdict(list)` gives the stored list of a key, and `[]` for a missing key. |
| Grammars.Put | minimize/utils.py:18 | After `d[k] = v`, `k` is a key and reads `v`. |
| Grammars.Append | minimize/utils.py:19 | After `d[k].append(rule)`, `k` is a key and reads its old list with `rule` at the end. |
| Grammars.PutEffect | minimize/utils.py:18 | `d[k] = v` changes only what `k` reads, keeps a dictionary one, adds `k` to the keys, and puts a new key last in key order. |
| Grammars.AppendEffect | minimize/utils.py:19 | `d[k].append(rule)` changes only what `k` reads, keeps a dictionary one, adds `k` to the keys, and puts a new key last in key order. |
| Normalize.NormalizeOne | minimize/utils.py:15-29 | One iteration of the loop over an owner's rules produces exactly the state `NormalizeRule` describes. |
| Normalize.NormalizeOwner | minimize/utils.py:14-29 | The loop over one owner's rules produces the state the rule-by-rule fold describes, including the advanced counter. |
| Normalize.ChainSymbols | minimize/utils.py:23-29 | The loop over `rule[1:]` boxes every symbol behind a fresh name and chains each name to the previous one, starting from `rule[0]`. |
| Normalize.NormalizeRule | minimize/utils.py:15-29 | One rule advances the counter by one when it has one symbol, by its length minus one when it has more than two, and not at all when it has two. |
| Normalize.Chain | minimize/utils.py:23-29 | The chain over `rule[1:]` advances the counter by one per symbol. |
| Normalize.UnitRuleEffect | minimize/utils.py:15-19 | A rule `[s]` of `A` binds the fresh name `A + str(c)`, which differs from `A`, to exactly `[[s]]`. It appends `[A + str(c)]` to `A`'s list, bumps the counter by one and leaves every other key as it was. |
| Normalize.PairRuleEffect | minimize/utils.py:20-21 | A two-symbol rule is appended unchanged to its owner's list, and the counter and every other key are untouched. |
| Normalize.LongRuleEffect | minimize/utils.py:22-29 | A rule `[s0..sk]` with `k >= 2` advances the counter by `k` and appends the first fresh name to `s0`'s list. The `i`-th fresh name is bound to `[[s_i]]` followed by a unit rule for the next name. Nothing else changes, and the owner gains nothing unless it is `s0`. |
| Normalize.ChainEffect | minimize/utils.py:23-29 | The chain appends the first name to `prev`, binds every minted name to its symbol and its successor, and leaves every other key as it was. |
| Normalize.ChainCollision | minimize/utils.py:23-29 | If `prev` is the name the chain mints at step `t`, the first minted name holds its symbol, then `[prev]` when `t` is 0, then a unit rule for the next name. Every later minted name is bound as usual, and no key outside the minted names changes. |
| Normalize.CollisionHead | minimize/utils.py:25-29 | When `prev` is the chain's `t`-th name, the first name holds its symbol, then `[prev]` when `t` is 0, then a unit rule for the second name. |
| Normalize.CollisionOthers | minimize/utils.py:25-29 | When `prev` is one of the chain's names, a key the chain does not mint keeps its list. |
| Normalize.PrevAfter | minimize/utils.py:25-29 | A `prev` that the chain does not mint keeps its list, plus a unit rule to the first name when the chain mints any. |
| Normalize.CollisionBinding | minimize/utils.py:25-29 | Whatever `prev` is, every minted name after the first is bound to its symbol followed by a unit rule for the next name. |
| Normalize.LongRuleCollision | minimize/utils.py:22-29 | If `rule[0]` is one of the names the rule mints, the counter still advances by `len(rule) - 1` and the owner gains nothing. The first fresh name holds `[rule[1]]`, then `[rule[0]]` when `rule[0]` is that name, then a unit rule for the next one. Later names are bound as usual, and no other key changes. |
| Normalize.CounterAdvance | minimize/utils.py:11-29 | Starting from 1, the counter ends at 1 plus the number of one-symbol rules plus `len(rule) - 1` summed over the rules longer than two. |
| Normalize.FreshNameInjective | minimize/utils.py:16-17 | Two different counter values give the same owner two different fresh names. |
| Decimal.NatToString | minimize/utils.py:16 | `str(n)` is a non-empty string of decimal digits, with at least two digits from 10 on. |
| Decimal.Digit | minimize/utils.py:16 | The digit character of `d < 10` is the character `'0' + d`. |
| Decimal.NatToStringInjective | minimize/utils.py:16 | `str(n)` is injective on natural numbers. |
| Normalize.FreshName | minimize/utils.py:16 | A fresh name strictly extends its owner's name. |
| Equivalence.IdentifyEquivalent | minimize/utils.py:33-44 | The double index loop returns exactly `EquivalentPairs(g)`: every `(keys[i], keys[j])` with `i < j` whose two rule lists contain each other. |
| Equivalence.EquivalentPairsMeaning | minimize/utils.py:38-42 | A pair is reported iff its first key precedes its second in key order and the two are equivalent. A reported pair never repeats a key, and both of its elements are keys. |
| Equivalence.EquivalentAsSets | minimize/utils.py:41 | Two keys are equivalent iff their rule lists hold the same set of rules: order and multiplicity do not matter. |
| Equivalence.EquivalentIsEquivalence | minimize/utils.py:41 | The containment test is reflexive, symmetric and transitive. |
| Merge.BuildMapping | minimize/utils.py:50-58 | The mapping is defined on exactly the keys. A key in some pair goes to the `min` of a pair that contains it, and any other key goes to itself. |
| Merge.MappingNotGreater | minimize/utils.py:55 | A representative never comes after its key in string order. |
| Lex.Less | minimize/utils.py:55 | String order never relates equal strings, and a proper prefix comes before every extension of it. |
| Lex.LessMeaning | minimize/utils.py:55 | `a < b` holds exactly when `a` is a proper prefix of `b`, or the two agree up to a position where `a` has the smaller character. |
| Lex.Min | minimize/utils.py:55 | `min` of two strings is one of them, and neither comes before it. |
| Merge.PairMin | minimize/utils.py:55 | `min(pair)` is an element of the pair, and neither element comes before it. |
| Lex.LessTotal | minimize/utils.py:55 | Any two distinct strings are ordered one way or the other. |
| Lex.LessAsymmetric | minimize/utils.py:55 | String order is asymmetric. |
| Lex.LessIrreflexive | minimize/utils.py:55 | No string comes before itself. |
| Merge.Rename | minimize/utils.py:63 | A symbol outside the mapping is unchanged, and a symbol in it becomes one of the mapping's values. |
| Merge.RenameRule | minimize/utils.py:63 | `new_rule` has the length of `rule`. Each symbol is renamed in its place: a mapped symbol becomes its image, and any other symbol stays. |
| Merge.RenameRuleMeaning | minimize/utils.py:63 | A renamed rule has the original length. Every non-key symbol is unchanged, and every key symbol becomes a representative the mapping may choose for it. |
| Merge.AppendRenamed | minimize/utils.py:62-64 | The loop over one key's rules appends all of them, renamed, under the representative. The representative is created only when there is at least one rule. |
| Merge.MergeEquivalent | minimize/utils.py:46-66 | The result is `Merged(g, mapping)` for a mapping as `BuildMapping` describes. It is a dictionary in which every key owns a rule, and it holds exactly as many rules as the input. |
| Merge.MergedGet | minimize/utils.py:60-64 | Under a symbol `b`, the merged grammar holds, in key order, the renamed rules of every key whose representative is `b`. |
| Merge.MergedValid | minimize/utils.py:60-64 | The merged grammar is a dictionary in which every key owns a rule, and it holds exactly as many rules as the input. |
| Merge.MergedKeys | minimize/utils.py:60-64 | `b` is a merged key iff some key that owns a rule has `b` as its representative. |
| Merge.MergedKeysImage | minimize/utils.py:60-64 | On the normal form, the merged keys are exactly the image of the mapping. |
| Merge.MergedClean | minimize/utils.py:62-64 | Merging a grammar of non-empty, marker-free rules, with no representative being the marker, gives such rules again. |
| Pipeline.MappingRepresentatives | minimize/utils.py:117-118 | With the pairs `identify_equivalent` found, every key's representative is a key equivalent to it and no greater than it. |
| Reachability.Visit | minimize/utils.py:72-77 | `visit` only grows the visited set, adds its symbol, and adds only symbols reachable from it. Every newly visited symbol has all of its successors visited. It terminates on cyclic grammars, because the unvisited part of the finite symbol universe shrinks. |
| Reachability.RemoveUnreachable | minimize/utils.py:68-84 | The result is a dictionary whose keys are exactly the symbols reachable from `'S'`, terminals included. Each keeps its list from the input, read as a `defaultdict`. |
| Reachability.UnreachableRemovedClosed | minimize/utils.py:79-82 | `'S'` is always a key of the result, and every symbol of every retained rule is a key too. |
| Reachability.ReachesStep | minimize/utils.py:75-77 | Reachability extends along any symbol of a rule. |
| Productivity.RemoveUnproductive | minimize/utils.py:86-102 | The `while changed` loop returns the input restricted to the least productive set. It makes at most one more pass than there are keys. |
| Productivity.ProductiveLeast | minimize/utils.py:90-98 | The productive set is made of keys, is closed under the qualifying test, and is contained in every closed set. |
| Productivity.ProductiveUnique | minimize/utils.py:90-98 | Any set of keys that is closed and contained in every closed set is the productive set. |
| Productivity.QualifiesMonotone | minimize/utils.py:95 | A rule that qualifies for a set of productive symbols still qualifies for any larger set. |
| Productivity.Restrict | minimize/utils.py:100 | The comprehension keeps exactly the keys that are in the set, each with its own rules. |
| Productivity.RestrictMeaning | minimize/utils.py:100 | The comprehension gives a dictionary whose keys are the input keys in the set, in input order, each with its rules unchanged. |
| Productivity.ProductiveRestricted | minimize/utils.py:86-102 | Removing the unproductive keys leaves the productive set as it was. |
| Productivity.RemoveUnproductiveIdempotent | minimize/utils.py:86-102 | Applying `remove_unproductive` twice gives the same grammar as applying it once. |
| Productivity.NothingProductive | minimize/utils.py:95 | When no rule is made only of markers, nothing is productive and the result is empty. |
| Denormalize.AppendStripped | minimize/utils.py:108-111 | The loop over one key's rules appends every rule that still has a symbol once `''` is removed. The key is created only when such a rule exists. |
| Denormalize.OriginalForm | minimize/utils.py:104-113 | The loops compute `Denormalized(g)`. |
| Denormalize.DenormalizedGet | minimize/utils.py:107-111 | Under every key, the result holds the input's rules in order, each with `''` removed, minus those that became empty. |
| Denormalize.DenormalizedShape | minimize/utils.py:107-111 | The result is a dictionary in which every key owns a rule. Its key order is the input's, restricted to the keys with a surviving rule. |
| Denormalize.DenormalizedClean | minimize/utils.py:109-111 | No output rule is empty or contains `''`. |
| Denormalize.StripRulesMember | minimize/utils.py:109-111 | Every surviving rule is non-empty, contains no `''`, and is some input rule with `''` removed. |
| Denormalize.StripMarker | minimize/utils.py:109 | `new_rule` is no longer than `rule`, holds no `''`, and holds only symbols of `rule`. |
| Denormalize.StripMarkerClean | minimize/utils.py:109 | A rule without `''` is left as it is. |
| Denormalize.StripRulesClean | minimize/utils.py:108-111 | A list of non-empty rules without `''` survives stripping whole. |
| Denormalize.StripMarkerMember | minimize/utils.py:109 | A symbol is in the stripped rule iff it is in the rule and is not `''`. |
| Denormalize.DenormalizedIdempotent | minimize/utils.py:104-113 | Applying `original_form` twice gives the same grammar as applying it once. |
| Pipeline.OriginalFormClean | minimize/utils.py:121 | The final grammar is a dictionary whose keys all own a rule, and whose rules are all non-empty and marker-free. |
| Pipeline.NothingSurvives | minimize/utils.py:118-120 | From a marker-free normal form, merging, reachability and productivity leave the empty dictionary. |
| Pipeline.LastPassesGet | minimize/utils.py:119-121 | After reachability, a key keeps its merged rules, stripped of `''` and without those that became empty, exactly when it is productive, and keeps nothing otherwise. Every key left is reachable from `'S'` and productive. |
| Pipeline.MinimizeGrammar | minimize/utils.py:115-122 | The ghost results are the merged grammar, which is the merge of the normal form under a mapping of the pairs found in it, and its part reachable from `'S'`, whose keys are exactly the symbols that reach. The result is the last two passes applied to that part. Read pointwise, a key keeps its merged rules, stripped of `''`, exactly when it is productive, so every key left is reachable and productive. The result is a dictionary of non-empty, marker-free rules, every key owning one. A marker-free input gives the empty dictionary. |
| Pipeline.DanglingNormalGet | minimize/utils.py:9-31 | The hand-written normal form gives `S` the rules `[['a', 'b'], ['S1']]`, `S1` the rules `[['']]`, and every other symbol nothing. |
| Pipeline.DanglingNormalForm | minimize/utils.py:9-31 | `chomsky_normal_form` of `{'S': [['a', 'b'], ['']]}` is exactly `{'S': [['a', 'b'], ['S1']], 'S1': [['']]}`, keys in that order. |
| Pipeline.DanglingRules | minimize/utils.py:14-21 | The rule loop over the two rules of `S` gives that normal form and leaves the counter at 2. |
| Pipeline.DanglingFirstRule | minimize/utils.py:20-21 | `['a', 'b']` has two symbols: it is appended to `S` as it is, and the counter stays at 1. |
| Pipeline.DanglingSecondRule | minimize/utils.py:15-19 | `['']` has one symbol: the fresh name `S1` gets `[['']]`, `S` gets `['S1']`, and the counter moves to 2. |
| Pipeline.DanglingNoPairs | minimize/utils.py:33-44 | That normal form has no equivalent pair. |
| Pipeline.DanglingMapping | minimize/utils.py:50-58 | With no pairs, every mapping the first loop of `merge_equivalent` can build sends `S` and `S1` to themselves and holds nothing else. |
| Pipeline.DanglingRenamed | minimize/utils.py:63 | Renaming by such a mapping leaves the rule lists of `S` and `S1` unchanged. |
| Pipeline.MergedTwoKeys | minimize/utils.py:61-64 | For a grammar with keys `[a, b]`, the second loop files the renamed rules of `a` under its image, then those of `b` under its image. |
| Pipeline.FileUnchanged | minimize/utils.py:62-64 | Filing non-empty rules that renaming leaves alone, under a key not yet present, stores exactly those rules there. |
| Pipeline.DanglingFiled | minimize/utils.py:61-64 | For every such mapping, the second loop stores the rules of `S` under `S` and then those of `S1` under `S1`. |
| Pipeline.DanglingRebuilt | minimize/utils.py:64 | Storing those two lists in that order gives exactly the normal form, keys in order. |
| Pipeline.DanglingMerged | minimize/utils.py:46-66 | `merge_equivalent` of that normal form gives back the normal form, for every such mapping. |
| Pipeline.DanglingMergedGrammar | minimize/utils.py:115-118 | Whatever mapping `minimize_grammar`'s merge step uses on that input, the merged grammar is the normal form. |
| Pipeline.DanglingReaches | minimize/utils.py:72-79 | From `S` in the normal form, exactly `S`, `a`, `b`, `S1` and `''` are reachable. |
| Pipeline.DanglingReachable | minimize/utils.py:68-84 | Any grammar meeting `remove_unreachable`'s contract on the normal form stores exactly the rules of `DanglingExample`: those five symbols, `S` and `S1` with their rules and the rest with `[]`. |
| Pipeline.DanglingProductive | minimize/utils.py:86-98 | On those rules, the productive set is exactly `{'S', 'S1'}`. |
| Productivity.ProductiveOfRules | minimize/utils.py:90-98 | The productive set depends only on the stored rules, not on key order. |
| Pipeline.DanglingStripped | minimize/utils.py:108-111 | `original_form` keeps `S`'s two rules and strips `S1`'s only rule to nothing. |
| Pipeline.DanglingKept | minimize/utils.py:100-111 | With `S` and `S1` the productive keys, `original_form` keeps both rules of `S` and nothing for any other symbol. |
| Pipeline.DanglingSurvivor | minimize/utils.py:104-113 | A result that stores no empty list and whose only non-empty read is `S`'s two rules is exactly `{'S': [['a', 'b'], ['S1']]}`. |
| Pipeline.DanglingResult | minimize/utils.py:86-113 | The last two passes on those rules give exactly `{'S': [['a', 'b'], ['S1']]}`. |
| Pipeline.MinimizeDangling | minimize/utils.py:115-122 | `minimize_grammar({'S': [['a', 'b'], ['']]})` returns exactly `{'S': [['a', 'b'], ['S1']]}`: a rule of the result names `S1`, and `S1` is not a key of the result. |

## Left out

- The Flask application and its routes, the `eval` of request text, directory
  and file creation, and `grammar_to_graph` (graphviz rendering) are I/O and
  foreign calls. `minimize/views.py` is not part of this model.
- Exceptions are not modelled. An empty input rule makes `chomsky_normal_form`
  raise at `rule[0]`, and the model excludes that case by precondition.
- Python's recursion-depth limit on the recursive `visit` is not modelled.
- Merge.BuildMapping: Python's set iteration order decides which pair is found
  first. The model leaves that choice open, and every property holds for every
  choice.
- Reachability.RemoveUnreachable: the loop over the `reachable` set follows set
  iteration order. The model picks elements in an arbitrary order, so the key
  order of the result is not fixed. Later passes depend on key order only
  through `original_form`'s output order.
- List aliasing is not modelled. In the source, the input and output
  dictionaries share rule lists. The model works on values.
- During `visit`, the `defaultdict` inserts missing keys into the merged
  grammar on read. Only the effect "a missing key reads as `[]`" is modelled.
- Merge.MergeEquivalent: the mapping is returned as a ghost value for the
  proofs. The source keeps it local.
- Productivity.RemoveUnproductive: the pass count is a ghost out-parameter. It
  exists only to state the bound on the number of passes.
- Merge.MergedKeys: in general, the keys of the merged grammar are the images of
  the keys that own a rule. On the normal form every key owns a rule, and
  `Merge.MergedKeysImage` then states the exact image of the mapping.
- Normalize.LongRuleEffect: requires that `rule[0]` is none of the names the
  rule mints. The other case is stated separately by
  `Normalize.LongRuleCollision`.
- Normalize.ChainEffect: requires that `prev` is none of the names the chain
  mints. The other case is stated separately by `Normalize.ChainCollision`.
