# A verified model of the loadshedding_GP genetic-programming engine

loadshedding_GP evolves symbolic expressions (parse trees over terminal and operator
atoms) against fitness cases. This project models its engine in Dafny and proves what
the engine promises about it:

- **Atoms** (`atoms.dfy`). An atom is the base atom, a terminal or an operator. An
  operator carries its arity and an evaluation procedure, which defaults to the
  identity.
- **Nodes** (`nodes.dfy`, `paths.dfy`, `laws.dfy`). A node of a parse tree is a value
  `Node(id, value, children)`. Its `id` is a heap object that stands for the identity of
  the Python `Node` object, because every `==` on nodes in the engine compares
  references. The pure queries are recursive functions over this value: depth,
  pre-order linearization, depth-of, lineage, `<`, `>`, `|`, evaluation and the
  symbolic string. A path (a list of child slots) names a position in a tree.
  `paths.dfy` and `laws.dfy` relate the identity-based queries to positions.
- **Parse trees** (`trees.dfy`). `ParseTree` is a class with a mutable `root`. It
  covers random construction (`random`, `_fill_level`), random node picks,
  `replace_node`, `_swap_nodes`, `swap_random_node_pair` and `copy`. An in-place write
  into a node object is modelled as rebuilding the tree around the node with that
  identity. On a tree where every identity occurs once, that rebuild is the
  replacement at the node's path.
- **Population generation** (`generation.dfy`). This covers `PopulationGenerator` with
  its GROW, FULL and RAMPED policies and the integer split of RAMPED into depth strata.
  It also covers the older `Populator`.
- **Fitness** (`fitness.dfy`). `FitnessFunction` holds an append-only case list and a
  cached aggregate. It computes the raw, standardized, adjusted, normalized, average
  and hits-ratio measures over exact reals, with their error conditions.
- **Selection** (`selection.dfy`). `Selector` offers fitness-proportionate (roulette
  wheel) selection, with its prefix-sum array and linear scan, and tournament
  selection.
- **Genetic operators** (`operators.dfy`). `GeneticOperatorSet` holds the twelve
  operators and the dispatch table. Every operator copies a selected parent and edits
  only the copy. Each child is related to its parent by a predicate: crossed,
  mutated, edited, inverted or hoisted.
- **Control** (`control.dfy`). `ControlModel` holds the in-progress gate, the
  iteration counter, evaluation and simplification, and generational or steady-state
  survival.

Errors the engine raises are values of the `Error` datatype (`wrappers.dfy`). An
operation that can raise returns `Result` or `Outcome`. Randomness is a
non-deterministic pick (`:|`) or an explicit draw parameter, so every property holds
for every outcome of the draws.

Some behaviours of the code are modelled as written:

- RAMPED with `max_depth == 1` (allowed with `force_trivial`) divides by zero.
  With `max_depth <= 0` it returns an empty list, or raises ValueError when the
  residue is negative.
- `replace_node` with a target that is not in the tree replaces the root.
- `random_node(exclude_root=True)` on a one-node tree raises IndexError (`random.choice`
  of an empty list).
- `predefine_aggregate` stores the member count before it computes the sum, so the
  count is stored even when an adjusted fitness raises.
- Crossover computes its depth bound on the first attempt and reuses it on later
  retries.

## Model

| member | source | states |
|---|---|---|
| Atoms.Atom.Arity | src/GPAtom.py:9-17 | the base atom and terminals have arity 0; an operator has the arity it was built with |
| Atoms.MakeOperator | src/GPAtom.py:41-50 | the operator keeps the given arity and evaluation procedure |
| Atoms.ArityLaws | src/GPAtom.py:25-59 | terminals always have arity 0; an operator's arity is the constructor's argument; the procedure defaults to the identity |
| Nodes.AddChild | src/GPParseTree.py:64-75 | raises NodeTermination exactly on a terminal node; otherwise the child is appended at the end, with the earlier children, the atom and the identity unchanged |
| Nodes.SetChild | src/GPParseTree.py:77-78 | raises IndexError exactly when the slot is outside the child list; otherwise only that slot changes |
| Nodes.Depth | src/GPParseTree.py:98-110 | the depth is at least 1, and exactly 1 for a terminal |
| Nodes.MaxDepth | src/GPParseTree.py:98-110 | the maximum bounds every child's depth and is 0 for no children |
| Nodes.MaxDepthAttained | src/GPParseTree.py:98-110 | some child attains the maximum child depth |
| Nodes.IndexOf | src/GPParseTree.py:121-134 | the first slot holding the same object, and no earlier slot does |
| Nodes.Linearize | src/GPParseTree.py:112-116 | the pre-order list starts with the node itself unless it is excluded; it is empty exactly when the node is excluded and has no children |
| Nodes.GetNodeLineage | src/GPParseTree.py:121-134 | a lineage that names a node names the target object; when the target is not met, node, parent and slot are all None |
| Nodes.DepthOf | src/GPParseTree.py:136-143 | a depth found is at least the starting level, and equals it exactly when the node itself is the target |
| Nodes.Lt | src/GPParseTree.py:149-159 | definition: false for the same object; otherwise true when `a` is a child of `b` or below one of its children (its meaning is proved as Paths.LtMeaning) |
| Nodes.Gt | src/GPParseTree.py:161-163 | definition: `a > b` is `b < a` |
| Nodes.Independent | src/GPParseTree.py:145-147 | definition: neither node is below the other |
| Nodes.Eval | src/GPParseTree.py:35-52 | definition: a variable reads its binding, a constant its value; any other node applies its atom's procedure to its children's values taken left to right, and the first exception propagates |
| Nodes.Str | src/GPParseTree.py:54-62 | definition: the atom's rendering of its children's strings, in child order |
| Nodes.IsParameterized | src/GPFitnessFunction.py:58 | definition: the subtree holds a variable |
| Paths.Find | src/GPParseTree.py:121-134 | a path it finds leads to the node object searched for |
| Paths.FindComplete | src/GPParseTree.py:121-134 | the search for an identity succeeds exactly when the identity occurs in the tree |
| Paths.FindUnique | src/GPParseTree.py:121-134 | in a tree whose identities are unique, the node at a path is found at that same path |
| Paths.LineageAtPath | src/GPParseTree.py:121-134 | for a node present in a unique tree, the lineage is (node, parent, slot) with the node in that slot of the parent; for the root it is the node with the caller's parent |
| Paths.LineageAbsent | src/GPParseTree.py:121-134 | a target absent from the tree gives (None, None, None) |
| Paths.DepthOfAtPath | src/GPParseTree.py:136-143 | in a unique tree, depth_of a node is its level plus the length of its path |
| Paths.LtMeaning | src/GPParseTree.py:149-159 | `a < b` holds exactly when `a` is a different object that occurs strictly below `b` |
| Paths.LtPaths | src/GPParseTree.py:149-159 | in a unique tree, `<` between two positions is the strict-prefix order on their paths |
| Paths.IndependentPaths | src/GPParseTree.py:145-147 | two different nodes of a unique tree are independent exactly when neither path is a prefix of the other |
| Paths.RootPath | src/GPParseTree.py:283-294 | in a unique tree, only the empty path leads to the root object |
| Paths.SetChildByIdAtPath | src/GPParseTree.py:77-78 | writing a slot of a node object that occurs once is the replacement of the subtree at that slot's path |
| Paths.PathOf | src/GPParseTree.py:121-134 | the path of a node of the tree leads to that node |
| Paths.InTreeAt | src/GPParseTree.py:121-134 | every node at a position of a unique tree is one of its nodes, found at that position |
| NodeLaws.LinearizeIds | src/GPParseTree.py:112-116 | the linearization lists exactly the identities of the subtree, with their multiplicities |
| NodeLaws.LinearizeOnce | src/GPParseTree.py:112-116 | in a unique tree, each node object is listed once |
| NodeLaws.LinearizeExcludeFirst | src/GPParseTree.py:112-116 | the first entry is the subtree root, and exclude_first drops exactly that entry |
| NodeLaws.ExcludeFirstNotRoot | src/GPParseTree.py:112-119 | in a unique tree, no node listed with exclude_first is the root object |
| NodeLaws.LinearizedAt | src/GPParseTree.py:112-116 | every listed node sits at some path of the subtree, and a non-empty path when the root is excluded |
| NodeLaws.PathLinearized | src/GPParseTree.py:112-116 | every node of the subtree is listed, and every proper descendant is listed with exclude_first |
| NodeLaws.LinearizedInTree | src/GPParseTree.py:118-119 | a listed node of a unique tree is a node of that tree, and not the root when the root is excluded |
| NodeLaws.DepthAtPath | src/GPParseTree.py:98-110 | a subtree at path p is at least \|p\| levels less deep than a well-formed tree |
| NodeLaws.DepthOfLaws | src/GPParseTree.py:136-143 | depth_of the root is 1; an absent node gives None; a present node's depth lies in [1, depth of tree]; it equals 1 + its path length |
| NodeLaws.LinearizeRest | src/GPParseTree.py:112-119 | in a well-formed tree, the list without the root is empty exactly when the root is a terminal |
| NodeLaws.DepthReplaceAt | src/GPParseTree.py:283-294 | replacing the subtree at p by v gives at most the larger of the old depth and \|p\| + depth(v) |
| NodeLaws.WellFormedReplaceAt | src/GPParseTree.py:283-294 | a well-formed replacement keeps every node's child count equal to its arity |
| NodeLaws.UniqueReplaceAt | src/GPParseTree.py:283-294 | a replacement made of new node objects keeps the tree's identities unique |
| NodeLaws.DescendantOrder | src/GPParseTree.py:145-163 | `<` is irreflexive and transitive; `>` is its converse; `\|` is symmetric and reflexive |
| NodeLaws.SameShape | src/GPParseTree.py:29-62 | trees with the same arrangement of atoms have the same depth, value under any binding, and string |
| NodeLaws.SameShapeStructure | src/GPParseTree.py:29-33 | trees with the same arrangement of atoms agree on well-formedness and on holding a variable |
| Trees.ChildOptions | src/GPParseTree.py:214-229 | a child is drawn from the terminals, plus the operators only when at least two levels remain |
| Trees.BuiltWellFormed | src/GPParseTree.py:205-231 | a filled tree has exactly arity-many children at every node |
| Trees.BuiltDepth | src/GPParseTree.py:205-231 | a tree filled with rem levels below its root is at most rem + 1 deep |
| Trees.SwapKeeps | src/GPParseTree.py:296-309 | a swap keeps the tree's node objects and well-formedness; for different nodes, each one is now in the other's position |
| Trees.SwapTwice | src/GPParseTree.py:296-309 | swapping the same pair twice restores the tree |
| Trees.ParseTree.FillLevel | src/GPParseTree.py:205-231 | the root keeps its identity and atom; the result is a filled tree of fresh, unique nodes; IndexError only when the draw has no options |
| Trees.ParseTree.Random | src/GPParseTree.py:177-202 | InvalidDepth for max_depth < 2 without force_trivial; otherwise the root is an operator (max_depth ≥ 2) or a terminal; the tree is filled, valid and at most max_depth deep |
| Trees.ParseTree.RandomNode | src/GPParseTree.py:260-261 | a node of the linearization, not the root when it is excluded; IndexError exactly when the root is excluded from a one-node tree |
| Trees.ParseTree.RandomNodePair | src/GPParseTree.py:263-278 | IndexError exactly on a one-node tree; otherwise an independent pair of non-root nodes, or (root, root) after ten failed draws |
| Trees.ParseTree.ReplaceNode | src/GPParseTree.py:283-294 | the subtree at the target's non-root position becomes the replacement; a root or absent target makes the replacement the root |
| Trees.ParseTree.SwapNodes | src/GPParseTree.py:296-309 | the new root is the old one with the two nodes exchanged |
| Trees.ParseTree.SwapRandomNodePair | src/GPParseTree.py:311-312 | IndexError on a one-node tree with the tree unchanged; otherwise the picked pair is exchanged, keeping validity and the node objects |
| Trees.ParseTree.CopyNode | src/GPParseTree.py:29-33 | the copy has the same arrangement of atoms and only new node objects |
| Trees.ParseTree.Copy | src/GPParseTree.py:314-315 | a new valid tree of new nodes with the same arrangement of atoms, so it shares no node with the original |
| Trees.ParseTree.Hoist | src/GPGeneticOperator.py:171-182 | a new tree rooted at the given node |
| Trees.ParseTree.RandomNodeWhere | src/GPGeneticOperator.py:127-142 | None exactly when no node passes the filters; otherwise a node of the tree that passes them |
| Trees.ParseTree.Permute | src/GPGeneticOperator.py:116-125 | the tree stays valid and keeps its node objects |
| Trees.Roots | src/GPControlModel.py:158-173 | the roots of the population, in order |
| Numerics.FloorDiv | src/GPPopulationGenerator.py:107-111 | the quotient q satisfies q ≤ a/b < q + 1 |
| Numerics.Ceil | src/GPSelector.py:61-62 | the least integer at least the argument |
| Numerics.ArgMax | src/GPControlModel.py:170 | the first position of a largest value |
| Numerics.SharesSumToOne | src/GPFitnessFunction.py:94-99 | values divided by their own non-zero sum add up to 1 |
| Generation.RampedSplit | src/GPPopulationGenerator.py:103-111 | strata count times divisions plus residue is size; for max_depth ≥ 2, 0 ≤ residue < max_depth − 1; for max_depth < 1, the count is negative |
| Generation.Blocks | src/GPPopulationGenerator.py:117-125 | n depths per stratum, each depth in [2, max_depth] |
| Generation.BlocksCount | src/GPPopulationGenerator.py:117-125 | every stratum depth occurs exactly n times and nothing else occurs |
| Generation.BlocksSorted | src/GPPopulationGenerator.py:117-125 | strata appear in increasing depth order |
| Generation.GrowPopulation | src/GPPopulationGenerator.py:63-69 | exactly size new valid trees of depth ≤ max_depth; fails only through tree construction |
| Generation.FullPopulation | src/GPPopulationGenerator.py:72-97 | exactly size new valid trees, each of depth exactly max_depth |
| Generation.StrataPopulation | src/GPPopulationGenerator.py:117-125 | one FULL tree per stratum entry, each with exactly its stratum's depth |
| Generation.ResiduePopulation | src/GPPopulationGenerator.py:131-137 | one FULL tree per sampled depth, each with exactly that depth |
| Generation.ResidueDraw | src/GPPopulationGenerator.py:128-137 | ValueError when the residue exceeds the strata or is negative; otherwise that many trees of pairwise different depths in [2, max_depth] |
| Generation.RampedPopulation | src/GPPopulationGenerator.py:100-139 | ZeroDivisionError when max_depth is 1; for max_depth ≥ 2, exactly size trees, the strata first at their depths, then distinct residue depths, all in [2, max_depth]; empty for max_depth < 1 |
| Generation.PopulationGenerator.Create | src/GPPopulationGenerator.py:21-38 | InvalidTerminalSetSize for no terminals, then InvalidOperatorSetSize for no operators; otherwise stores both sets |
| Generation.PopulationGenerator.Generate | src/GPPopulationGenerator.py:40-142 | raises InvalidPopulationGenerationMethod, then InvalidPopulationSize, then InvalidDepth; GROW, FULL and RAMPED give their sizes and depths; an unrecognised method that passes the size and depth checks raises InvalidPopulationGenerationMethod |
| Generation.Populator.Create | src/GPPopulator.py:14-28 | raises on no method, then on size < 1, then on max_depth < 2; otherwise stores the configuration |
| Generation.Populator.Generate | src/GPPopulator.py:31-69 | GROW gives size trees of depth ≤ max_depth, FULL size trees of depth max_depth, RAMPED an empty list |
| Fitness.Collect | src/GPFitnessFunction.py:52-62 | succeeds exactly when every element's value does, and then lists those values in order |
| Fitness.CollectFirstError | src/GPFitnessFunction.py:52-62 | the first element that raises decides the exception |
| Fitness.Penalty | src/GPFitnessFunction.py:58-60 | 0 for a non-trivial individual; +max_fitness when minimising, −max_fitness when maximising |
| Fitness.RawFitness | src/GPFitnessFunction.py:52-70 | definition: the aggregator over the penalized case errors, or the first case's exception |
| Fitness.StandardizedFitness | src/GPFitnessFunction.py:72-75 | definition: raw fitness when minimising, max_fitness − raw fitness when maximising, or raw fitness's exception |
| Fitness.AdjustedFitness | src/GPFitnessFunction.py:77-78 | definition: 1 / (1 + standardized fitness), ZeroDivisionError when 1 + standardized fitness is 0 |
| Fitness.NormalizedFitness | src/GPFitnessFunction.py:94-99 | definition: adjusted fitness over the factor, which is the supplied population's summed adjusted fitness or else the stored aggregate; InvalidAggregation when there is neither; ZeroDivisionError for a zero factor |
| Fitness.Average | src/GPFitnessFunction.py:84-92 | definition: the factor as for normalized fitness over the supplied population's size or else the stored count; InvalidAggregation when either is missing; ZeroDivisionError for no members |
| Fitness.HitsRatioOf | src/GPFitnessFunction.py:101-106 | definition: the number of cases whose output is close to the target over the number of cases; the first evaluation exception, ValueError from `math.isclose` for a negative bound, or ZeroDivisionError for no cases |
| Fitness.HitsRatioErrors | src/GPFitnessFunction.py:101-106 | no cases give ZeroDivisionError; a negative equality bound (never validated by the constructor) gives the first case's evaluation exception or else ValueError; the ratio is a number exactly when there are cases, the bound is non-negative and every case evaluates |
| Fitness.FitnessOf | src/GPFitnessFunction.py:64-67 | definition: the measure selects raw, standardized, adjusted, normalized or hits-ratio fitness |
| Fitness.FitnessFunction.Fitness | src/GPFitnessFunction.py:64-67 | definition: FitnessOf on the object's current cases and stored aggregate |
| Fitness.FitnessFunction.AverageOf | src/GPFitnessFunction.py:84-92 | definition: Average on the object's current cases, stored aggregate and stored count |
| Fitness.FitnessFunction.constructor | src/GPFitnessFunction.py:24-47 | stores the configuration with no cases and no cached aggregate |
| Fitness.FitnessFunction.BindCase | src/GPFitnessFunction.py:49-50 | appends the case at the end and leaves the earlier cases and the cache as they were |
| Fitness.FitnessFunction.Eval | src/GPFitnessFunction.py:52-62 | the loop yields the raw fitness: the aggregator over the per-case penalized errors, in case order |
| Fitness.FitnessFunction.PredefineAggregate | src/GPFitnessFunction.py:80-82 | stores the member count; stores the sum of adjusted fitness, or raises the first adjusted fitness's exception |
| Fitness.CollectFirstErrorAt | src/GPFitnessFunction.py:52-62 | a case whose evaluation raises, after cases that did not, makes raw fitness raise that exception |
| Fitness.StandardizedOrder | src/GPFitnessFunction.py:72-75 | standardized fitness orders individuals like raw fitness when minimising, and in reverse when maximising |
| Fitness.AdjustedRange | src/GPFitnessFunction.py:77-78 | adjusted fitness lies in (0, 1] whenever standardized fitness is non-negative |
| Fitness.AdjustedOrder | src/GPFitnessFunction.py:77-78 | adjusted fitness is antitone in non-negative standardized fitness |
| Fitness.DefaultAdjustedRange | src/GPFitnessFunction.py:69-78 | with a summing aggregator of non-negative errors under MINIMISE, adjusted fitness lies in (0, 1] |
| Fitness.NormalizedDistribution | src/GPFitnessFunction.py:94-99 | over the population it was computed from, each normalized fitness is adjusted / aggregate and they sum to 1, whether the population or the cache supplies the aggregate |
| Fitness.NormalizedShares | src/GPFitnessFunction.py:94-99 | with a non-zero cached aggregate, normalized fitness is adjusted / aggregate for each member |
| Fitness.NormalizedExplicit | src/GPFitnessFunction.py:94-99 | a supplied population takes precedence over the cache |
| Fitness.AverageCache | src/GPFitnessFunction.py:84-92 | a supplied population takes precedence over the cache; the average is aggregate / count; InvalidAggregation without either; ZeroDivisionError for no members |
| Fitness.HitCountBounds | src/GPFitnessFunction.py:101-106 | the hit count never exceeds the case count and equals it exactly when every case passes the closeness test |
| Fitness.HitsRatioLaws | src/GPFitnessFunction.py:101-106 | the hits ratio lies in [0, 1] and is 1 exactly when every case passes |
| Selection.Bin | src/GPSelector.py:50-54 | the first bin whose cumulative share exceeds the draw, or None when no bin does |
| Selection.ProportionateIndex | src/GPSelector.py:31-54 | a selected position is a member of the population |
| Selection.BinInterval | src/GPSelector.py:45-54 | with non-negative shares, member i is selected exactly when the draw lies in [cf[i−1], cf[i]) |
| Selection.BinExists | src/GPSelector.py:50-54 | shares that sum to 1 always select someone for a draw in [0, 1) |
| Selection.ProportionateSelects | src/GPSelector.py:31-54 | under the default measures, a non-empty population always yields a selection |
| Selection.TournamentSize | src/GPSelector.py:61-62 | for a valid proportion, ⌈p·n⌉ lies in [1, n] |
| Selection.TournamentIndex | src/GPSelector.py:56-67 | InvalidTournamentProportion outside (0, 1]; ValueError for no sample; otherwise the first sampled member of largest adjusted fitness |
| Selection.Sampled | src/GPSelector.py:62 | the subset is the population at the drawn positions |
| Selection.TournamentFirstError | src/GPSelector.py:63-67 | the first sampled member whose fitness raises decides the exception |
| Selection.SingletonSelected | src/GPSelector.py:45-67 | on a one-member population both strategies pick that member |
| Selection.Cumulate | src/GPSelector.py:45-47 | the in-place loop leaves cf[i] equal to nf[0] + … + nf[i] |
| Selection.FirstAbove | src/GPSelector.py:50-54 | the scan returns the first bin above the draw, as Bin specifies |
| Selection.Selector.constructor | src/GPSelector.py:19-26 | stores the fitness function, method and proportion, defaulting to fitness-proportionate selection and 0.3 |
| Selection.Selector.SelectProportionate | src/GPSelector.py:31-54 | refreshes the cached aggregate, then returns the member in the draw's bin or None, or the exception the measures raise |
| Selection.Selector.SelectTournament | src/GPSelector.py:56-67 | returns the population member at the tournament's winning sample |
| Selection.Selector.Select | src/GPSelector.py:28-67 | dispatches on the method; a selection is a member of the population; a tournament raises for an invalid proportion and then for an empty population, and otherwise gives the outcome of some draw of ⌈p·n⌉ positions, each in range; fitness-proportionate selection stores the population size and, unless an adjusted fitness raises (which is then the error, with the aggregate unchanged), the sum of adjusted fitness, and gives the roulette outcome (member, None, or error) of some draw in [0, 1) |
| OperatorKinds.Value | src/GPGeneticOperator.py:10-22 | each operator's value indexes its own entry of the dispatch table's order |
| Operators.EditedLaws | src/GPGeneticOperator.py:127-142 | an edit keeps the tree's value under every binding, and either keeps its string or makes the tree strictly smaller |
| Operators.MutatedDepth | src/GPGeneticOperator.py:93-114 | a mutant is no deeper than the deeper of its parent and the depth bound |
| Operators.SplicedCrossed | src/GPGeneticOperator.py:74-80 | exchanging subtrees between copies of two parents is a crossover of those parents |
| Operators.ReplacedMutated | src/GPGeneticOperator.py:95-114 | replacing a node of a copy by a tree within the budget is a mutation of the parent |
| Operators.ReplacedEdited | src/GPGeneticOperator.py:133-142 | replacing a variable-free operator node of a copy by a constant of its value is an edit of the parent at that node's path |
| Operators.SwappedInverted | src/GPGeneticOperator.py:162-169 | swapping two independent nodes of a copy is an inversion of the parent |
| Operators.SubtreeHoisted | src/GPGeneticOperator.py:171-182 | a subtree of a copy at an operator node or at the root is a hoist of the parent |
| Operators.MutationLaws | src/GPGeneticOperator.py:93-114 | a mutation of a copy is well-formed, unique, a mutation of the parent, within the depth bound, and made only of the copy's and the new subtree's nodes |
| Operators.NothingEditable | src/GPGeneticOperator.py:133-137 | when no node of the copy passes the `non_terminal` and `non_parameterized` filters, the original has no variable-free operator node |
| Operators.EditingLaws | src/GPGeneticOperator.py:127-142 | an edit of a copy is well-formed, unique, an edit of the parent, and adds only the constant node |
| Operators.GeneticOperatorSet.constructor | src/GPGeneticOperator.py:32-48 | stores the selector and the generator |
| Operators.GeneticOperatorSet.CopyParent | src/GPGeneticOperator.py:53-54 | AttributeError exactly when nothing was selected; otherwise a new valid copy of the selected tree |
| Operators.GeneticOperatorSet.SelectCopy | src/GPGeneticOperator.py:53-54 | a new valid copy of a member of the population, made of new nodes |
| Operators.GeneticOperatorSet.Reproduce | src/GPGeneticOperator.py:53-54 | one new tree, a copy of a member of the population |
| Operators.GeneticOperatorSet.SelectPair | src/GPGeneticOperator.py:65-69 | two distinct new copies of population members, sharing no node |
| Operators.GeneticOperatorSet.Splice | src/GPGeneticOperator.py:75-80 | the two children are a crossover of their parents and keep, together, their node objects |
| Operators.GeneticOperatorSet.Attempt | src/GPGeneticOperator.py:65-84 | a crossed pair of new valid trees from two population members; the bound is the given one or the deeper parent's depth |
| Operators.GeneticOperatorSet.ReproducePair | src/GPGeneticOperator.py:89-91 | a reproduced tree and a second copy of it |
| Operators.GeneticOperatorSet.Attempts | src/GPGeneticOperator.py:62-86 | up to ten attempts; an accepted pair is a crossover within the bound; the bound is fixed by the first attempt |
| Operators.GeneticOperatorSet.Crossover | src/GPGeneticOperator.py:56-91 | two new trees: either a crossover of population members within the bound, or a reproduced tree and its copy |
| Operators.GeneticOperatorSet.NewSubtree | src/GPGeneticOperator.py:107-112 | a new well-formed GROW tree within the budget, trivial below two levels |
| Operators.GeneticOperatorSet.Mutation | src/GPGeneticOperator.py:93-114 | one new tree, a mutation of a population member, no deeper than the larger of the member's depth and the bound |
| Operators.GeneticOperatorSet.Mutate | src/GPGeneticOperator.py:95-114 | the copy becomes a mutation of its parent within the bound, with only new nodes added |
| Operators.GeneticOperatorSet.Permutation | src/GPGeneticOperator.py:116-125 | one new tree with as many nodes as a population member |
| Operators.GeneticOperatorSet.Editing | src/GPGeneticOperator.py:127-142 | one new tree, an edit of a population member: when the member has a variable-free operator node, one such node is replaced by a constant of its value; when it has none, the copy is returned unchanged |
| Operators.GeneticOperatorSet.Inversion | src/GPGeneticOperator.py:162-169 | IndexError exactly on a one-node parent; otherwise one new tree, an inversion of a population member |
| Operators.GeneticOperatorSet.Hoist | src/GPGeneticOperator.py:171-182 | one new tree, a hoist of a population member |
| Operators.GeneticOperatorSet.Operate | src/GPGeneticOperator.py:50-51 | dispatches on the operator, REPRODUCTION by default; two new valid trees for crossover, one for every other operator |
| Control.Cumulative | src/GPControlModel.py:218 | one running total per weight |
| Control.CumulativeAt | src/GPControlModel.py:218 | each running total is the sum of the weights up to that position |
| Control.Bisect | src/GPControlModel.py:218 | the position found is within the searched range |
| Control.BisectLaws | src/GPControlModel.py:218 | every running total before the found position is at most the draw, and the one found exceeds it |
| Control.Choose | src/GPControlModel.py:218 | IndexError for no operators; ValueError exactly when the weights total at most 0; otherwise an operator's position |
| Control.ChosenHasWeight | src/GPControlModel.py:218 | only an operator of positive weight is chosen |
| Control.WeightedChoiceReachable | src/GPControlModel.py:218 | with non-negative weights, every positive-weight operator is chosen by some draw |
| Control.Evaluation | src/GPControlModel.py:158-173 | the optimal position lies within the population |
| Control.EvaluationLaws | src/GPControlModel.py:158-173 | fails exactly with the first adjusted-fitness error, for an empty population, or for a zero aggregate; otherwise it gives the first member of largest normalized fitness, its adjusted fitness, and aggregate / size |
| Control.OptimalHasBestAdjusted | src/GPControlModel.py:158-173 | with a positive aggregate, the member of largest normalized fitness also has the largest adjusted fitness |
| Control.Take | src/GPControlModel.py:221-224 | the first n trees, or all of them |
| Control.Fill | src/GPControlModel.py:221-226 | offspring are appended in order until the population is full; the surplus is dropped |
| Control.ControlModel.constructor | src/GPControlModel.py:15-99 | the model starts at iteration 0, not in progress, with no optimal member or fitness |
| Control.ControlModel.LoadOperators | src/GPControlModel.py:79-86 | the operators and weights are the given pairs' components, in order, in two parallel lists |
| Control.ControlModel.Create | src/GPControlModel.py:15-99 | the source's defaults (GROW, TOURNAMENT, MINIMISE, `sum`, `abs(y - t)`, 1000000, 0.05, 500, never converged explicitly, the default operator set); the generator's and generation's errors in their order; otherwise population size, tree depth, iteration threshold, convergence condition, atom sets, selection method and the fitness configuration built from the arguments are stored, no optimum or average yet, the default or given operator pairs, and a GROW population of the configured size and depth |
| Control.ControlModel.BindFitnessCase | src/GPControlModel.py:116-120 | appends the case while not in progress, and raises InvalidOperationState with the cases unchanged otherwise |
| Control.ControlModel.Evaluate | src/GPControlModel.py:158-173 | records the optimal member, its adjusted fitness and the average as Evaluation gives them, and stores the population's adjusted-fitness total as the aggregate; on an exception, which comes before any field of the model is set, the optimal member, optimal fitness and average keep their values |
| Control.ControlModel.Simplify | src/GPControlModel.py:178-186 | the optimal member keeps its value under every binding; the loop stops at an editing step that leaves the string unchanged, and that step folded a variable-free operator node whenever one existed |
| Control.ControlModel.Converged | src/GPControlModel.py:188-198 | the iteration count rises by exactly one; convergence holds exactly when the threshold is reached or the explicit condition holds |
| Control.ControlModel.Survive | src/GPControlModel.py:204-232 | base and steady-state survival leave the population alone; generational survival replaces it with exactly population_size offspring, in produced order, with the surplus dropped |
| Control.ControlModel.Breed | src/GPControlModel.py:214-224 | the `while` loop of generational survival: `random.choices`' IndexError or ValueError, else exactly population_size valid new trees, the first population_size of the batches in produced order, each batch non-empty and the last one started while there was room |
| Control.ControlModel.Extend | src/GPControlModel.py:217-224 | one pass of that loop: the drawn operator's batch is appended as far as there is room, so the new population grows and is still the concatenation of the batches cut at population_size |
| Control.ControlModel.Offspring | src/GPControlModel.py:218-219 | an operator of positive weight is drawn and yields its number of valid new trees |
| Control.ControlModel.Next | src/GPControlModel.py:122-140 | sets in-progress for good; base and steady-state steps leave the population alone; on success the iteration rises by one, an optimal member with its fitness and the average are recorded (a population member while evolution goes on), and the result is the negation of convergence |
| Control.ControlModel.Evolve | src/GPControlModel.py:142-156 | iterates until convergence and returns the optimal member, which exists and has its fitness and average recorded, and the population |

## Left out

- Randomness: `random.choice`, `random.sample`, `random.choices` and `random.random` are non-deterministic picks or draw parameters. Seeding (src/GPControlModel.py:53-55) is left out, since no distribution is modelled.
- Console output and the configuration printout (src/GPControlModel.py:100-114), because printing has no effect on the model's state.
- The user callbacks `action_on_evaluation` and `action_on_converged` are not modelled. They cannot reach the engine's state.
- Floating point: every float is an exact real, and `math.isclose` is the abstract predicate `isClose` of the configuration, except that its ValueError for a negative relative tolerance is modelled in `Fitness.HitsRatioOf`. The error metric, the aggregator, the operator procedures and the convergence condition are function-valued parameters, because the engine treats them as opaque callables.
- The atom operations that `src/GPAtom.py` does not define (`eval`, `eval_str`, `Constant` and `Variable`) are given by `Semantics` and `TerminalKind`. The undefined `instance()` (src/GPParseTree.py:196 and 228) is taken to be the atom itself: `Trees.ParseTree.Random` and `Trees.ParseTree.FillLevel` place the drawn atom in the new node.
- Nodes.Eval: a variable that the case's bindings do not name raises `UnboundVariable`. In the source, `bind` stores the value in the shared `Variable` atom (src/GPParseTree.py:43-49), so such a variable keeps the value an earlier case bound. The model keeps no state in atoms, so evaluation without a binding is an error in the model.
- Nodes.Depth: an operator node without children has depth 1 in the model, where `get_depth` raises ValueError on `max([])` (src/GPParseTree.py:98-110). Well-formed trees, the only ones the engine builds, contain no such node.
- `ParseTree.is_parameterized` is not defined in the source. It is modelled as "the subtree holds a variable", which is what the fitness penalty and editing rely on.
- Trees.ParseTree.RandomNodeWhere, Trees.ParseTree.Hoist and Trees.ParseTree.Permute model helpers the source calls but does not define. They carry only the contracts their callers need.
- Operators.GeneticOperatorSet.Permutation states only that the child keeps the parent's node count, because the permutation helper it calls is undefined.
- Operators.GeneticOperatorSet.Operate states the number, validity and freshness of the children only. What each operator makes of its parent is stated by that operator's own method.
- Generation.FullPopulation: the FULL loop has no attempt cap. The model bounds it by a `fuel` parameter and reports `Exhausted` when the fuel runs out, which the source never does.
- Generation.PopulationGenerator.Generate and Generation.RampedPopulation inherit FULL's `fuel` bound and its `Exhausted` error.
- Control.Bisect: `bisect` on the running totals is modelled as a linear scan for the first total above the draw. That agrees with Python's binary search when the weights are non-negative, and need not agree otherwise.
- Encapsulation, decimation, create, compress and expand are TODO stubs in the source that return the unmodified copy. The model does the same, and proves nothing beyond Reproduce's contract for them.
- Node objects are updated in place in the source (`set_child`, `add_child`). The model rebuilds the tree value around the node's identity instead. Aliasing of one node object between two different trees is not modelled; the engine only ever edits fresh copies.
- `ParseTree`'s private construction key (`InvalidParseTreeGenerationException`) is left out, because the model has no caller outside the class.
- `ParseTree.get_root`, `eval`, `get_depth`, `depth_of` and `__str__` delegate to the root node, and are used on the root directly. `Node.__rshift__` and `__lshift__` are `add_child` in the two directions.
- Control.ControlModel.Next: states that an optimal member, its fitness and the average are recorded, but does not restate which member Evaluation selects. Evaluate states that; after convergence the member is the simplified one, and Simplify states that it keeps the selected member's value.
- `ControlModel.optimal` is a plain getter and is read as the field `optimalMember`.
- Nothing of src/LoadSheddingData.py, src/LoadSheddingFunctions.py, src/main.py or src/GPOperator.py is part of this model: they are dataset input, floating-point maps, a driver script and superseded stubs. The exception classes of the engine are the `Error` variants.
- No concurrency is modelled, because the engine has none.
