/** `GeneticOperatorType` and `GeneticOperatorSet.default_set`. */
module OperatorKinds {

  datatype OperatorType =
    | Reproduction | Crossover | Mutation | Permutation | Editing | Encapsulation
    | Decimation | Inversion | Hoist | Create | Compress | Expand

  /** The operators in the order of their enum values, the order of `_operator_index`. */
  const Order: seq<OperatorType> :=
    [Reproduction, Crossover, Mutation, Permutation, Editing, Encapsulation,
     Decimation, Inversion, Hoist, Create, Compress, Expand]

  /** `operator.value`: the position of the operator's method in `_operator_index`. */
  function Value(op: OperatorType): (v: nat)
    ensures v < |Order| && Order[v] == op
  {
    match op
    case Reproduction => 0
    case Crossover => 1
    case Mutation => 2
    case Permutation => 3
    case Editing => 4
    case Encapsulation => 5
    case Decimation => 6
    case Inversion => 7
    case Hoist => 8
    case Create => 9
    case Compress => 10
    case Expand => 11
  }

  /** `default_set`: reproduction, crossover and mutation, each of weight 1. */
  const DefaultSet: seq<(OperatorType, int)> := [(Reproduction, 1), (Crossover, 1), (Mutation, 1)]

  /** How many trees the operator's method returns. */
  function Yield(op: OperatorType): nat {
    if op == Crossover then 2 else 1
  }
}

/** `GeneticOperatorSet`: every operator selects its parents through the selector, copies
    them, and rearranges the copies; the population itself is never changed. */
module Operators {
  import opened Wrappers
  import opened Atoms
  import opened Nodes
  import opened Paths
  import opened NodeLaws
  import opened Trees
  import opened Generation
  import opened Fitness
  import opened Selection
  import K = OperatorKinds

  // ---------------------------------------------------------------------------------
  // What an operator's children are, in terms of the trees they were copied from

  /** `c` has the arrangement of atoms of some member of `pop`: it is a copy of it. */
  ghost predicate CopyOf(c: Node, pop: seq<ParseTree>)
    reads set t | t in pop
  {
    exists m | m in pop :: ShapeOf(c) == ShapeOf(m.root)
  }

  /** `c1` and `c2` are what one crossover attempt makes of copies of `m1` and `m2`: the
      copy of `m1` receives the subtree of `m2` at `q` in the slot at `p`, and the copy of
      `m2` receives the subtree of `m1` at `p` in the slot at `q`. Either path may be the
      root's. */
  ghost predicate Crossed(c1: Node, c2: Node, m1: Node, m2: Node) {
    exists p: Path, q: Path :: CrossedAt(c1, c2, m1, m2, p, q)
  }

  ghost predicate CrossedAt(c1: Node, c2: Node, m1: Node, m2: Node, p: Path, q: Path) {
    && ValidPath(m1, p) && ValidPath(m2, q)
    && ShapeOf(c1) == ShapeOf(ReplaceAt(m1, p, At(m2, q)))
    && ShapeOf(c2) == ShapeOf(ReplaceAt(m2, q, At(m1, p)))
  }

  /** `c` is a copy of `m` whose subtree at `p` was replaced by a new well-formed subtree
      that fits the depth budget `bound - |p|`, and is at least a single node. */
  ghost predicate Mutated(c: Node, m: Node, bound: int) {
    exists p: Path :: MutatedAt(c, m, bound, p)
  }

  ghost predicate MutatedAt(c: Node, m: Node, bound: int, p: Path) {
    && ValidPath(m, p) && ValidPath(c, p)
    && WellFormed(At(c, p)) && Depth(At(c, p)) <= Max(bound - |p|, 1)
    && ShapeOf(c) == ShapeOf(ReplaceAt(m, p, At(c, p)))
  }

  /** A single node holding a constant. */
  predicate IsConstantLeaf(k: Node) {
    k.value.Terminal? && k.value.kind.Constant? && k.children == []
  }

  /** `c1` and `c2` are a crossover of two members of `pop`. */
  ghost predicate CrossOf(c1: Node, c2: Node, pop: seq<ParseTree>)
    reads set t | t in pop
  {
    exists m1, m2 | m1 in pop && m2 in pop :: Crossed(c1, c2, m1.root, m2.root)
  }

  /** `d` is the depth of the deeper of two members of `pop`. */
  ghost predicate DeeperOf(d: int, pop: seq<ParseTree>)
    reads set t | t in pop
  {
    exists m1, m2 | m1 in pop && m2 in pop :: d == Max(Depth(m1.root), Depth(m2.root))
  }

  /** `c` is a copy of `m`, either unchanged, or with one operator node that holds no
      variable replaced by a constant leaf holding that node's value. */
  ghost predicate Edited(c: Node, m: Node, sem: Semantics) {
    || ShapeOf(c) == ShapeOf(m)
    || exists p: Path :: EditedAt(c, m, sem, p)
  }

  /** `m` has an operator node that holds no variable: a node `editing` may fold. */
  ghost predicate Editable(m: Node) {
    exists p: Path :: ValidPath(m, p) && !IsTerminal(At(m, p)) && !IsParameterized(At(m, p))
  }

  /** One step of `editing` on `m`: a foldable node is folded when there is one, and
      otherwise `c` is `m` unchanged. */
  ghost predicate EditStep(c: Node, m: Node, sem: Semantics) {
    && (Editable(m) ==> exists p: Path :: EditedAt(c, m, sem, p))
    && (!Editable(m) ==> ShapeOf(c) == ShapeOf(m))
  }

  ghost predicate EditedAt(c: Node, m: Node, sem: Semantics, p: Path) {
    && ValidPath(m, p) && ValidPath(c, p)
    && !IsTerminal(At(m, p)) && !IsParameterized(At(m, p))
    && IsConstantLeaf(At(c, p)) && Eval(At(m, p), map[], sem) == Ok(At(c, p).value.kind.value)
    && ShapeOf(c) == ShapeOf(ReplaceAt(m, p, At(c, p)))
  }

  /** `c` is a copy of the subtree of `m` at `p`; a proper subtree is an operator node. */
  ghost predicate Hoisted(c: Node, m: Node) {
    exists p: Path :: HoistedAt(c, m, p)
  }

  ghost predicate HoistedAt(c: Node, m: Node, p: Path) {
    && ValidPath(m, p) && ShapeOf(c) == ShapeOf(At(m, p))
    && (p == [] || !IsTerminal(At(m, p)))
  }

  /** `c` is a copy of `m`, either unchanged, or with the subtrees at two paths, neither
      inside the other, swapped. */
  ghost predicate Inverted(c: Node, m: Node) {
    || ShapeOf(c) == ShapeOf(m)
    || exists p: Path, q: Path :: InvertedAt(c, m, p, q)
  }

  ghost predicate InvertedAt(c: Node, m: Node, p: Path, q: Path) {
    && ValidPath(m, p) && ValidPath(m, q) && Incomparable(p, q)
    && ValidPath(ReplaceAt(m, p, At(m, q)), q)
    && ShapeOf(c) == ShapeOf(ReplaceAt(ReplaceAt(m, p, At(m, q)), q, At(m, p)))
  }

  // ---------------------------------------------------------------------------------
  // Shapes carry over from a copy to the tree it was copied from

  /** A path is valid in one of two trees of the same shape exactly when it is valid in
      the other, and leads to subtrees of the same shape. */
  lemma {:induction false} ShapeAt(a: Node, m: Node, p: Path)
    requires ShapeOf(a) == ShapeOf(m)
    ensures ValidPath(a, p) <==> ValidPath(m, p)
    ensures ValidPath(a, p) ==> ShapeOf(At(a, p)) == ShapeOf(At(m, p))
    decreases |p|
  {
    if p != [] {
      ShapeParts(a, m);
      if p[0] < |a.children| {
        ShapeAt(a.children[p[0]], m.children[p[0]], p[1..]);
      }
    }
  }

  /** Replacing subtrees of the same shape at the same path of two trees of the same
      shape gives trees of the same shape. */
  lemma {:induction false} ShapeReplaceAt(a: Node, m: Node, p: Path, v: Node, w: Node)
    requires ShapeOf(a) == ShapeOf(m) && ShapeOf(v) == ShapeOf(w) && ValidPath(a, p)
    ensures ValidPath(m, p)
    ensures ShapeOf(ReplaceAt(a, p, v)) == ShapeOf(ReplaceAt(m, p, w))
    decreases |p|
  {
    ShapeAt(a, m, p);
    if p != [] {
      var k := p[0];
      ShapeParts(a, m);
      ShapeReplaceAt(a.children[k], m.children[k], p[1..], v, w);
      var cs := a.children[k := ReplaceAt(a.children[k], p[1..], v)];
      var ds := m.children[k := ReplaceAt(m.children[k], p[1..], w)];
      ShapeAllEq(cs, ds);
    }
  }

  // ---------------------------------------------------------------------------------
  // Laws of evaluation and size used by editing and mutation

  /** A subtree without variables evaluates the same under every binding. */
  lemma {:induction false} EvalClosed(n: Node, env: map<string, real>, env': map<string, real>, sem: Semantics)
    requires !IsParameterized(n)
    ensures Eval(n, env, sem) == Eval(n, env', sem)
  {
    forall c | c in n.children ensures !IsParameterized(c) { }
    EvalAllClosed(n.children, env, env', sem);
  }

  lemma {:induction false} EvalAllClosed(cs: seq<Node>, env: map<string, real>, env': map<string, real>, sem: Semantics)
    requires forall c :: c in cs ==> !IsParameterized(c)
    ensures EvalAll(cs, env, sem) == EvalAll(cs, env', sem)
  {
    if cs != [] {
      EvalClosed(cs[0], env, env', sem);
      assert forall c :: c in cs[1..] ==> c in cs;
      EvalAllClosed(cs[1..], env, env', sem);
    }
  }

  /** Replacing a subtree by one of the same value keeps the value of the whole tree. */
  lemma {:induction false} EvalReplaceAt(n: Node, p: Path, w: Node, env: map<string, real>, sem: Semantics)
    requires ValidPath(n, p) && Eval(At(n, p), env, sem) == Eval(w, env, sem)
    ensures Eval(ReplaceAt(n, p, w), env, sem) == Eval(n, env, sem)
    decreases |p|
  {
    if p != [] {
      var k := p[0];
      EvalReplaceAt(n.children[k], p[1..], w, env, sem);
      EvalAllUpdate(n.children, k, ReplaceAt(n.children[k], p[1..], w), env, sem);
    }
  }

  lemma {:induction false} EvalAllUpdate(cs: seq<Node>, k: nat, c: Node, env: map<string, real>, sem: Semantics)
    requires k < |cs| && Eval(c, env, sem) == Eval(cs[k], env, sem)
    ensures EvalAll(cs[k := c], env, sem) == EvalAll(cs, env, sem)
    decreases k
  {
    if k > 0 {
      assert cs[k := c][1..] == cs[1..][k - 1 := c];
      EvalAllUpdate(cs[1..], k - 1, c, env, sem);
    } else {
      assert cs[k := c][1..] == cs[1..];
    }
  }

  /** Trees of the same shape have the same number of nodes. */
  lemma {:induction false} SameShapeSize(a: Node, b: Node)
    requires ShapeOf(a) == ShapeOf(b)
    ensures |Ms(a)| == |Ms(b)|
  {
    ShapeParts(a, b);
    SameShapeSizeAll(a.children, b.children);
  }

  lemma {:induction false} SameShapeSizeAll(cs: seq<Node>, ds: seq<Node>)
    requires |cs| == |ds| && forall j :: 0 <= j < |cs| ==> ShapeOf(cs[j]) == ShapeOf(ds[j])
    ensures |MsAll(cs)| == |MsAll(ds)|
  {
    if cs != [] {
      SameShapeSize(cs[0], ds[0]);
      assert forall j :: 0 <= j < |cs| - 1 ==> cs[1..][j] == cs[j + 1] && ds[1..][j] == ds[j + 1];
      SameShapeSizeAll(cs[1..], ds[1..]);
    }
  }

  /** An operator node of a well-formed tree has at least one child. */
  lemma OperatorNodeSize(n: Node)
    requires WellFormed(n) && !IsTerminal(n)
    ensures |Ms(n)| >= 2
  {
    MsAllOne(n.children, 0);
  }

  /** Two trees of the same shape have the same depth. */
  lemma SameDepth(a: Node, b: Node)
    requires ShapeOf(a) == ShapeOf(b)
    ensures Depth(a) == Depth(b)
  {
    var sem := Semantics((x: Atom) => 0.0, (f: string, xs: seq<real>) => 0.0, (x: Atom, ss: seq<string>) => []);
    SameShape(a, b, map[], sem);
  }

  /** Editing keeps the value of the tree under every binding of its variables, and either
      keeps its printed form or makes the tree strictly smaller. */
  lemma EditedLaws(c: Node, m: Node, sem: Semantics)
    requires WellFormed(m) && Edited(c, m, sem)
    ensures forall env :: Eval(c, env, sem) == Eval(m, env, sem)
    ensures Str(c, sem) == Str(m, sem) || |Ms(c)| < |Ms(m)|
  {
    if ShapeOf(c) == ShapeOf(m) {
      forall env ensures Eval(c, env, sem) == Eval(m, env, sem) {
        SameShape(c, m, env, sem);
      }
      SameShape(c, m, map[], sem);
    } else {
      var p: Path :| EditedAt(c, m, sem, p);
      var k := At(c, p);
      var e := ReplaceAt(m, p, k);
      forall env ensures Eval(c, env, sem) == Eval(m, env, sem) {
        EvalClosed(At(m, p), map[], env, sem);
        EvalReplaceAt(m, p, k, env, sem);
        SameShape(c, e, env, sem);
      }
      WellFormedAt(m, p);
      OperatorNodeSize(At(m, p));
      MsReplaceAt(m, p, k);
      assert |Ms(k)| == 1;
      assert |Ms(e) + Ms(At(m, p))| == |Ms(e)| + |Ms(At(m, p))|;
      assert |Ms(m) + Ms(k)| == |Ms(m)| + |Ms(k)|;
      SameShapeSize(c, e);
    }
  }

  /** A mutant is no deeper than the deeper of its parent and the depth bound. */
  lemma MutatedDepth(c: Node, m: Node, bound: int)
    requires WellFormed(m) && Mutated(c, m, bound)
    ensures Depth(c) <= Max(Depth(m), bound)
  {
    var p: Path :| MutatedAt(c, m, bound, p);
    SameDepth(c, ReplaceAt(m, p, At(c, p)));
    DepthReplaceAt(m, p, At(c, p));
    DepthAtPath(m, p);
  }

  // ---------------------------------------------------------------------------------
  // The edits the operators make to a copy, stated about the tree it was copied from

  /** Exchanging subtrees between copies of `m1` and `m2` is a crossover of `m1` and `m2`. */
  lemma SplicedCrossed(a: Node, b: Node, m1: Node, m2: Node, p: Path, q: Path)
    requires ShapeOf(a) == ShapeOf(m1) && ShapeOf(b) == ShapeOf(m2)
    requires ValidPath(a, p) && ValidPath(b, q)
    ensures Crossed(ReplaceAt(a, p, At(b, q)), ReplaceAt(b, q, At(a, p)), m1, m2)
  {
    ShapeAt(a, m1, p);
    ShapeAt(b, m2, q);
    ShapeReplaceAt(a, m1, p, At(b, q), At(m2, q));
    ShapeReplaceAt(b, m2, q, At(a, p), At(m1, p));
    assert CrossedAt(ReplaceAt(a, p, At(b, q)), ReplaceAt(b, q, At(a, p)), m1, m2, p, q);
  }

  /** Replacing a subtree of a copy of `m` by a well-formed tree within the budget is a
      mutation of `m`. */
  lemma ReplacedMutated(a: Node, m: Node, p: Path, v: Node, bound: int)
    requires ShapeOf(a) == ShapeOf(m) && ValidPath(a, p)
    requires WellFormed(v) && Depth(v) <= Max(bound - |p|, 1)
    ensures Mutated(ReplaceAt(a, p, v), m, bound)
  {
    ReplaceAtThenAt(a, p, v);
    ShapeReplaceAt(a, m, p, v, v);
    assert MutatedAt(ReplaceAt(a, p, v), m, bound, p);
  }

  /** Replacing an operator node without variables of a copy of `m` by a constant leaf
      holding its value is an edit of `m`. */
  lemma ReplacedEdited(a: Node, m: Node, p: Path, k: Node, sem: Semantics)
    requires ShapeOf(a) == ShapeOf(m) && ValidPath(a, p)
    requires !IsTerminal(At(a, p)) && !IsParameterized(At(a, p))
    requires IsConstantLeaf(k) && Eval(At(a, p), map[], sem) == Ok(k.value.kind.value)
    ensures EditedAt(ReplaceAt(a, p, k), m, sem, p) && Edited(ReplaceAt(a, p, k), m, sem)
  {
    ShapeAt(a, m, p);
    ShapeParts(At(a, p), At(m, p));
    SameShapeStructure(At(a, p), At(m, p));
    SameShape(At(a, p), At(m, p), map[], sem);
    ReplaceAtThenAt(a, p, k);
    ShapeReplaceAt(a, m, p, k, k);
    assert EditedAt(ReplaceAt(a, p, k), m, sem, p);
  }

  /** Swapping two independent nodes of a copy of `m` is an inversion of `m`. */
  lemma SwappedInverted(a: Node, m: Node, x: Node, y: Node)
    requires ShapeOf(a) == ShapeOf(m) && SwapReady(a, x, y)
    ensures Inverted(Swapped(a, x, y), m)
  {
    if !Is(x, y) {
      var p, q := PathOf(a, x), PathOf(a, y);
      IndependentPaths(a, p, q);
      ReplaceAtElsewhere(a, p, y, q);
      ShapeAt(a, m, p);
      ShapeAt(a, m, q);
      ShapeReplaceAt(a, m, p, y, At(m, q));
      ShapeReplaceAt(ReplaceAt(a, p, y), ReplaceAt(m, p, At(m, q)), q, x, At(m, p));
      assert InvertedAt(Swapped(a, x, y), m, p, q);
    }
  }

  /** The subtree of a copy of `m` at an operator node, or at the root, is a hoist of `m`. */
  lemma SubtreeHoisted(a: Node, m: Node, p: Path)
    requires ShapeOf(a) == ShapeOf(m) && ValidPath(a, p) && (p == [] || !IsTerminal(At(a, p)))
    ensures Hoisted(At(a, p), m)
  {
    ShapeAt(a, m, p);
    ShapeParts(At(a, p), At(m, p));
    assert HoistedAt(At(a, p), m, p);
  }

  /** The nodes of a tree after a replacement come from the tree or the replacement. */
  lemma ReplacedNodes(a: Node, p: Path, v: Node)
    requires ValidPath(a, p)
    ensures forall x | x in Ms(ReplaceAt(a, p, v)) :: x in Ms(a) || x in Ms(v)
  {
    MsReplaceAt(a, p, v);
    forall x | x in Ms(ReplaceAt(a, p, v)) ensures x in Ms(a) + Ms(v) {
      assert (Ms(ReplaceAt(a, p, v)) + Ms(At(a, p)))[x] == (Ms(a) + Ms(v))[x];
    }
  }

  /** What replacing the subtree at `p` of a copy `a` of `m` by a new tree `v` within the
      budget yields: a well-formed unique tree, a mutation of `m` no deeper than the
      deeper of `m` and the bound, made of the nodes of `a` and `v` only. */
  lemma MutationLaws(a: Node, m: Node, p: Path, v: Node, bound: int)
    requires ShapeOf(a) == ShapeOf(m) && ValidPath(a, p) && WellFormed(a) && Unique(a)
    requires WellFormed(v) && Unique(v) && Depth(v) <= Max(bound - |p|, 1) && Ms(a) !! Ms(v)
    ensures WellFormed(ReplaceAt(a, p, v)) && Unique(ReplaceAt(a, p, v))
    ensures Mutated(ReplaceAt(a, p, v), m, bound) && Depth(ReplaceAt(a, p, v)) <= Max(Depth(m), bound)
    ensures forall x | x in Ms(ReplaceAt(a, p, v)) :: x in Ms(a) || x in Ms(v)
  {
    WellFormedReplaceAt(a, p, v);
    UniqueReplaceAt(a, p, v);
    ReplacedNodes(a, p, v);
    ShapeParts(a, m);
    SameShapeStructure(a, m);
    ReplacedMutated(a, m, p, v, bound);
    MutatedDepth(ReplaceAt(a, p, v), m, bound);
  }

  /** What replacing an operator node without variables of a copy `a` of `m` by a new
      constant leaf holding its value yields: a well-formed unique tree, an edit of `m`,
      made of the nodes of `a` and the leaf only. */
  lemma EditingLaws(a: Node, m: Node, p: Path, k: Node, sem: Semantics)
    requires ShapeOf(a) == ShapeOf(m) && ValidPath(a, p) && WellFormed(a) && Unique(a)
    requires !IsTerminal(At(a, p)) && !IsParameterized(At(a, p))
    requires IsConstantLeaf(k) && Eval(At(a, p), map[], sem) == Ok(k.value.kind.value) && k.id !in Ms(a)
    ensures WellFormed(ReplaceAt(a, p, k)) && Unique(ReplaceAt(a, p, k)) && Edited(ReplaceAt(a, p, k), m, sem)
    ensures EditedAt(ReplaceAt(a, p, k), m, sem, p)
    ensures forall x | x in Ms(ReplaceAt(a, p, k)) :: x in Ms(a) || x == k.id
  {
    assert Ms(k) == multiset{k.id};
    WellFormedReplaceAt(a, p, k);
    UniqueReplaceAt(a, p, k);
    ReplacedNodes(a, p, k);
    ReplacedEdited(a, m, p, k, sem);
  }

  /** A copy in which every node is a terminal or holds a variable leaves its original
      nothing to edit. */
  lemma NothingEditable(a: Node, m: Node)
    requires ShapeOf(a) == ShapeOf(m)
    requires forall y :: y in Linearize(a) ==> IsTerminal(y) || IsParameterized(y)
    ensures !Editable(m)
  {
    forall p: Path | ValidPath(m, p) ensures IsTerminal(At(m, p)) || IsParameterized(At(m, p)) {
      ShapeAt(a, m, p);
      PathLinearized(a, p);
      ShapeParts(At(a, p), At(m, p));
      SameShapeStructure(At(a, p), At(m, p));
    }
  }

  /** Two trees that trade parts `s1` and `s2` keep, together, what they held. */
  lemma Exchange<T>(c1: multiset<T>, c2: multiset<T>, a: multiset<T>, b: multiset<T>, s1: multiset<T>, s2: multiset<T>)
    requires c1 + s1 == a + s2 && c2 + s2 == b + s1
    ensures c1 + c2 == a + b
  {
    forall x ensures (c1 + c2)[x] == (a + b)[x] {
      assert (c1 + s1)[x] == (a + s2)[x];
      assert (c2 + s2)[x] == (b + s1)[x];
    }
  }

  // ---------------------------------------------------------------------------------
  // The operator set

  class GeneticOperatorSet {
    const selector: Selector
    const generator: PopulationGenerator

    /** `GeneticOperatorSet(selector, generator)`. */
    constructor (selector: Selector, generator: PopulationGenerator)
      ensures this.selector == selector && this.generator == generator
    {
      this.selector := selector;
      this.generator := generator;
    }

    /** The meaning of the atoms, the one the fitness function evaluates with. */
    function Sem(): Semantics {
      selector.fitness.cfg.sem
    }

    /** The failures of the first `select` every operator makes, whatever it does next: a
        tournament whose proportion lies outside (0, 1], or one over no individuals. */
    ghost predicate SelectFailures<T>(pop: seq<ParseTree>, r: Result<T>) {
      selector.strategy == Tournament ==>
        && (!(0.0 < selector.proportion <= 1.0) ==> r.Err? && r.error == InvalidTournamentProportion)
        && (0.0 < selector.proportion <= 1.0 && pop == [] ==> r.Err? && r.error == ValueError)
    }

    /** `self._selector.select(population)`, seen through what the operators rely on. */
    method SelectParent(pop: seq<ParseTree>) returns (r: Result<Option<ParseTree>>)
      modifies selector.fitness
      ensures selector.fitness.cases == old(selector.fitness.cases)
      ensures SelectFailures(pop, r)
      ensures r.Ok? && r.value.Some? ==> r.value.value in pop
    {
      r := selector.Select(pop);
    }

    /** `.copy()` on what `select` returned; `None` has no `copy` attribute. */
    static method CopyParent(parent: Option<ParseTree>) returns (r: Result<ParseTree>)
      requires parent.Some? ==> parent.value.Valid()
      ensures r.Err? <==> parent.None?
      ensures r.Err? ==> r.error == AttributeError
      ensures r.Ok? ==> fresh(r.value) && r.value.Valid() && ShapeOf(r.value.root) == ShapeOf(parent.value.root)
      ensures r.Ok? ==> forall x | x in Ms(r.value.root) :: fresh(x) && allocated(x)
    {
      if parent.None? {
        return Err(AttributeError);
      }
      var child := parent.value.Copy();
      return Ok(child);
    }

    /** `self._selector.select(population).copy()`. */
    method SelectCopy(pop: seq<ParseTree>) returns (r: Result<ParseTree>, ghost parent: ParseTree?)
      requires AllValid(pop)
      modifies selector.fitness
      ensures selector.fitness.cases == old(selector.fitness.cases)
      ensures SelectFailures(pop, r)
      ensures r.Ok? ==> fresh(r.value) && r.value.Valid()
      ensures r.Ok? ==> parent != null && parent in pop && ShapeOf(r.value.root) == ShapeOf(parent.root)
      ensures r.Err? ==> parent == null
      ensures r.Ok? ==> forall x | x in Ms(r.value.root) :: fresh(x) && allocated(x)
    {
      var selected := SelectParent(pop);
      if selected.Err? {
        return Err(selected.error), null;
      }
      r := CopyParent(selected.value);
      parent := if r.Ok? then selected.value.value else null;
    }

    /** `reproduce`: a one-tree tuple holding a copy of the selected tree. */
    method Reproduce(pop: seq<ParseTree>) returns (r: Result<seq<ParseTree>>)
      requires AllValid(pop)
      modifies selector.fitness
      ensures selector.fitness.cases == old(selector.fitness.cases)
      ensures SelectFailures(pop, r)
      ensures r.Ok? ==> |r.value| == 1 && AllValid(r.value) && forall t | t in r.value :: fresh(t)
      ensures r.Ok? ==> forall t, x | t in r.value && x in Ms(t.root) :: fresh(x)
      ensures r.Ok? ==> CopyOf(r.value[0].root, pop)
    {
      var child, parent := SelectCopy(pop);
      if child.Err? {
        return Err(child.error);
      }
      return Ok([child.value]);
    }

    /** The first half of a crossover attempt: two selections, then two copies. */
    method SelectPair(pop: seq<ParseTree>) returns (r: Result<(ParseTree, ParseTree)>, ghost m1: ParseTree?, ghost m2: ParseTree?)
      requires AllValid(pop)
      modifies selector.fitness
      ensures selector.fitness.cases == old(selector.fitness.cases)
      ensures SelectFailures(pop, r)
      ensures r.Ok? ==> fresh(r.value.0) && fresh(r.value.1) && r.value.0 != r.value.1
      ensures r.Ok? ==> r.value.0.Valid() && r.value.1.Valid() && Ms(r.value.0.root) !! Ms(r.value.1.root)
      ensures r.Ok? ==> forall x | x in Ms(r.value.0.root) + Ms(r.value.1.root) :: fresh(x)
      ensures r.Ok? ==> m1 in pop && ShapeOf(r.value.0.root) == ShapeOf(m1.root)
      ensures r.Ok? ==> m2 in pop && ShapeOf(r.value.1.root) == ShapeOf(m2.root)
    {
      var parent1 := SelectParent(pop);
      if parent1.Err? {
        return Err(parent1.error), null, null;
      }
      var parent2 := SelectParent(pop);
      if parent2.Err? {
        return Err(parent2.error), null, null;
      }
      var child1 := CopyParent(parent1.value);
      if child1.Err? {
        return Err(child1.error), null, null;
      }
      var child2 := CopyParent(parent2.value);
      if child2.Err? {
        return Err(child2.error), null, null;
      }
      forall x | x in Ms(child1.value.root) ensures x !in Ms(child2.value.root) {
      }
      return Ok((child1.value, child2.value)), parent1.value.value, parent2.value.value;
    }

    /** The second half of a crossover attempt: a node is drawn from each tree (either may
        be the root) and each tree receives the other's node in the drawn node's slot. */
    static method Splice(child1: ParseTree, child2: ParseTree, ghost m1: Node, ghost m2: Node)
      requires child1 != child2 && child1.Valid() && child2.Valid()
      requires Ms(child1.root) !! Ms(child2.root)
      requires ShapeOf(child1.root) == ShapeOf(m1) && ShapeOf(child2.root) == ShapeOf(m2)
      modifies child1, child2
      ensures child1.Valid() && child2.Valid()
      ensures Ms(child1.root) + Ms(child2.root) == old(Ms(child1.root) + Ms(child2.root))
      ensures Crossed(child1.root, child2.root, m1, m2)
    {
      ghost var a, b := child1.root, child2.root;
      ghost var p, q;
      var subtree1 := child1.RandomNode();
      var subtree2 := child2.RandomNode();
      var s1, s2 := subtree1.value, subtree2.value;
      p, q := PathOf(a, s1), PathOf(b, s2);
      child1.ReplaceNode(s1, s2);
      child2.ReplaceNode(s2, s1);
      assert ReplaceAt(a, [], s2) == s2 && ReplaceAt(b, [], s1) == s1;
      assert child1.root == ReplaceAt(a, p, At(b, q));
      assert child2.root == ReplaceAt(b, q, At(a, p));
      UniqueAt(a, p);
      UniqueAt(b, q);
      MsAt(a, p);
      MsAt(b, q);
      WellFormedAt(a, p);
      WellFormedAt(b, q);
      WellFormedReplaceAt(a, p, s2);
      WellFormedReplaceAt(b, q, s1);
      UniqueReplaceAt(a, p, s2);
      UniqueReplaceAt(b, q, s1);
      MsReplaceAt(a, p, s2);
      MsReplaceAt(b, q, s1);
      Exchange(Ms(child1.root), Ms(child2.root), Ms(a), Ms(b), Ms(s1), Ms(s2));
      SplicedCrossed(a, b, m1, m2, p, q);
    }

    /** One crossover attempt: two parents selected and copied, then a node drawn from
        each copy and exchanged. `limit` is the bound so far; `chosen` is the bound from
        now on: `limit` itself, or, when there is none yet, the depth of the deeper copy. */
    method Attempt(pop: seq<ParseTree>, limit: Option<int>)
        returns (r: Result<(ParseTree, ParseTree)>, chosen: int, ghost m1: ParseTree?, ghost m2: ParseTree?)
      requires AllValid(pop)
      modifies selector.fitness
      ensures selector.fitness.cases == old(selector.fitness.cases)
      ensures SelectFailures(pop, r)
      ensures r.Ok? ==> fresh(r.value.0) && fresh(r.value.1) && r.value.0 != r.value.1
      ensures r.Ok? ==> r.value.0.Valid() && r.value.1.Valid()
      ensures r.Ok? ==> forall x | x in Ms(r.value.0.root) + Ms(r.value.1.root) :: fresh(x)
      ensures r.Ok? ==> m1 != null && m2 != null && m1 in pop && m2 in pop && Crossed(r.value.0.root, r.value.1.root, m1.root, m2.root)
      ensures r.Ok? && limit.Some? ==> chosen == limit.value
      ensures r.Ok? && limit.None? ==> chosen == Max(Depth(m1.root), Depth(m2.root))
    {
      var pair;
      pair, m1, m2 := SelectPair(pop);
      if pair.Err? {
        return Err(pair.error), 0, null, null;
      }
      var child1, child2 := pair.value.0, pair.value.1;
      chosen := if limit.Some? then limit.value else Max(Depth(child1.root), Depth(child2.root));
      SameDepth(child1.root, m1.root);
      SameDepth(child2.root, m2.root);
      Splice(child1, child2, m1.root, m2.root);
      r := Ok((child1, child2));
    }

    /** What `crossover` falls back on after ten misses: a reproduced tree and a copy of it. */
    method ReproducePair(pop: seq<ParseTree>) returns (r: Result<seq<ParseTree>>)
      requires AllValid(pop)
      modifies selector.fitness
      ensures selector.fitness.cases == old(selector.fitness.cases)
      ensures SelectFailures(pop, r)
      ensures r.Ok? ==> |r.value| == 2 && r.value[0] != r.value[1] && AllValid(r.value)
      ensures r.Ok? ==> forall t | t in r.value :: fresh(t)
      ensures r.Ok? ==> forall x | x in Ms(r.value[0].root) + Ms(r.value[1].root) :: fresh(x)
      ensures r.Ok? ==> CopyOf(r.value[0].root, pop) && ShapeOf(r.value[1].root) == ShapeOf(r.value[0].root)
    {
      var reproduced := Reproduce(pop);
      if reproduced.Err? {
        return Err(reproduced.error);
      }
      var duplicate := reproduced.value[0].Copy();
      return Ok([reproduced.value[0], duplicate]);
    }

    /** The ten attempts of `crossover`: the first pair whose two children both fit the
        bound, or `None` after ten misses. `bound` is `maxDepth`, or, when none is given,
        the depth of the deeper copy of the first attempt, kept for the later ones. */
    method Attempts(pop: seq<ParseTree>, maxDepth: Option<int>)
        returns (r: Result<Option<(ParseTree, ParseTree)>>, ghost bound: int)
      requires AllValid(pop)
      modifies selector.fitness
      ensures selector.fitness.cases == old(selector.fitness.cases)
      ensures SelectFailures(pop, r)
      ensures maxDepth.Some? ==> bound == maxDepth.value
      ensures r.Ok? && r.value.Some? ==>
                var (c1, c2) := r.value.value;
                && fresh(c1) && fresh(c2) && c1 != c2 && c1.Valid() && c2.Valid()
                && (forall x | x in Ms(c1.root) + Ms(c2.root) :: fresh(x))
                && CrossOf(c1.root, c2.root, pop)
                && Depth(c1.root) <= bound && Depth(c2.root) <= bound
                && (maxDepth.None? ==> DeeperOf(bound, pop))
      ensures r.Ok? && r.value.None? ==> (selector.strategy == Tournament ==> 0.0 < selector.proportion <= 1.0 && pop != [])
      ensures r.Ok? && r.value.None? && maxDepth.None? ==> DeeperOf(bound, pop)
    {
      var limit := maxDepth;
      bound := if maxDepth.Some? then maxDepth.value else 0;
      var counter := 0;
      ghost var w1: ParseTree?, w2: ParseTree? := null, null;
      while counter < 10
        invariant 0 <= counter <= 10
        invariant selector.fitness.cases == old(selector.fitness.cases)
        invariant maxDepth.Some? ==> limit == maxDepth && bound == maxDepth.value
        invariant limit == if counter == 0 then maxDepth else Some(bound)
        invariant counter > 0 && maxDepth.None? ==>
                    w1 in pop && w2 in pop && bound == Max(Depth(w1.root), Depth(w2.root))
        invariant counter > 0 && selector.strategy == Tournament ==> 0.0 < selector.proportion <= 1.0 && pop != []
      {
        var attempt, chosen;
        ghost var m1, m2;
        attempt, chosen, m1, m2 := Attempt(pop, limit);
        if attempt.Err? {
          r := Err(attempt.error);
          return;
        }
        if limit.None? {
          w1, w2 := m1, m2;
        }
        limit := Some(chosen);
        bound := chosen;
        var child1, child2 := attempt.value.0, attempt.value.1;
        if Depth(child1.root) <= chosen && Depth(child2.root) <= chosen {
          r := Ok(Some((child1, child2)));
          assert CrossOf(child1.root, child2.root, pop) by {
            assert m1 in pop && m2 in pop && Crossed(child1.root, child2.root, m1.root, m2.root);
          }
          return;
        }
        counter := counter + 1;
      }
      r := Ok(None);
    }

    /** The pair `[a, b]` of two well-formed trees. */
    static method Both(a: ParseTree, b: ParseTree) returns (s: seq<ParseTree>)
      requires a.Valid() && b.Valid()
      ensures s == [a, b] && AllValid(s)
      ensures forall t | t in s :: t == a || t == b
    {
      s := [a, b];
    }

    /** `crossover(population, max_depth)`: up to ten attempts; the first whose two
        children both fit `bound` is returned. After ten misses the result is a reproduced
        tree and a copy of it. */
    method Crossover(pop: seq<ParseTree>, maxDepth: Option<int>) returns (r: Result<seq<ParseTree>>, ghost bound: int)
      requires AllValid(pop)
      modifies selector.fitness
      ensures selector.fitness.cases == old(selector.fitness.cases)
      ensures SelectFailures(pop, r)
      ensures r.Ok? ==> |r.value| == 2 && r.value[0] != r.value[1] && AllValid(r.value)
      ensures r.Ok? ==> forall t | t in r.value :: fresh(t)
      ensures r.Ok? ==> forall x | x in Ms(r.value[0].root) + Ms(r.value[1].root) :: fresh(x)
      ensures maxDepth.Some? ==> bound == maxDepth.value
      ensures r.Ok? && maxDepth.None? ==> DeeperOf(bound, pop)
      ensures r.Ok? ==>
                || (&& CrossOf(r.value[0].root, r.value[1].root, pop)
                    && Depth(r.value[0].root) <= bound && Depth(r.value[1].root) <= bound)
                || (CopyOf(r.value[0].root, pop) && ShapeOf(r.value[1].root) == ShapeOf(r.value[0].root))
    {
      var found;
      found, bound := Attempts(pop, maxDepth);
      if found.Err? {
        return Err(found.error), bound;
      }
      if found.value.Some? {
        var (child1, child2) := found.value.value;
        var both := Both(child1, child2);
        r := Ok(both);
        return;
      }
      r := ReproducePair(pop);
    }

    /** `self._generator.generate(1, subtree_max_depth, force_trivial=...)[0].get_root()`:
        one GROW tree, trivial ones allowed when the budget is below two. */
    method NewSubtree(budget: int) returns (v: Node)
      requires generator.Valid()
      ensures WellFormed(v) && Unique(v) && Depth(v) <= Max(budget, 1)
      ensures forall x | x in Ms(v) :: fresh(x)
    {
      var generated := generator.Generate(1, budget, Some(Grow), budget < 2, 0);
      var grown := generated.value[0];
      assert grown in generated.value;
      v := grown.root;
    }

    /** `mutation(population, max_depth)`: a node of the copy (possibly its root) is
        replaced by a new GROW tree whose depth fits what the bound leaves below that
        node; the bound is `maxDepth`, or the copy's own depth when none is given. */
    method Mutation(pop: seq<ParseTree>, maxDepth: Option<int>) returns (r: Result<seq<ParseTree>>, ghost parent: ParseTree?)
      requires AllValid(pop) && generator.Valid()
      modifies selector.fitness
      ensures selector.fitness.cases == old(selector.fitness.cases)
      ensures SelectFailures(pop, r)
      ensures r.Ok? ==> |r.value| == 1 && AllValid(r.value) && forall t | t in r.value :: fresh(t)
      ensures r.Ok? ==> forall t, x | t in r.value && x in Ms(t.root) :: fresh(x)
      ensures r.Ok? ==> parent != null && parent in pop
      ensures r.Ok? ==>
                var bound := if maxDepth.Some? then maxDepth.value else Depth(parent.root);
                && Mutated(r.value[0].root, parent.root, bound)
                && Depth(r.value[0].root) <= Max(Depth(parent.root), bound)
    {
      var copied;
      copied, parent := SelectCopy(pop);
      if copied.Err? {
        return Err(copied.error), null;
      }
      var child := copied.value;
      Mutate(child, parent.root, maxDepth);
      r := Ok([child]);
    }

    /** The mutation of the copy `child` of `m`: a random node of it (possibly its root)
        is replaced by a new GROW tree fitting the depth the bound leaves below it. */
    method Mutate(child: ParseTree, ghost m: Node, maxDepth: Option<int>)
      requires generator.Valid() && child.Valid() && ShapeOf(child.root) == ShapeOf(m)
      requires forall x | x in Ms(child.root) :: allocated(x)
      modifies child
      ensures child.Valid()
      ensures var bound := if maxDepth.Some? then maxDepth.value else Depth(m);
              && Mutated(child.root, m, bound)
              && Depth(child.root) <= Max(Depth(m), bound)
      ensures forall x | x in Ms(child.root) :: x in Ms(old(child.root)) || fresh(x)
    {
      ghost var a := child.root;
      var removed := child.RandomNode();
      var node := removed.value;
      var bound := if maxDepth.Some? then maxDepth.value else Depth(child.root);
      SameDepth(a, m);
      DepthOfLaws(a, node);
      var nodeDepth := DepthOf(child.root, node).value;
      var v := NewSubtree(bound - nodeDepth + 1);
      ghost var p := PathOf(a, node);
      assert Ms(a) !! Ms(v);
      child.ReplaceNode(node, v);
      assert ReplaceAt(a, [], v) == v;
      MutationLaws(a, m, p, v, bound);
    }

    /** `permutation`: the copy's nodes rearranged into another well-formed tree. */
    method Permutation(pop: seq<ParseTree>) returns (r: Result<seq<ParseTree>>, ghost parent: ParseTree?)
      requires AllValid(pop)
      modifies selector.fitness
      ensures selector.fitness.cases == old(selector.fitness.cases)
      ensures SelectFailures(pop, r)
      ensures r.Ok? ==> |r.value| == 1 && AllValid(r.value) && forall t | t in r.value :: fresh(t)
      ensures r.Ok? ==> forall t, x | t in r.value && x in Ms(t.root) :: fresh(x)
      ensures r.Ok? ==> parent != null && parent in pop && |Ms(r.value[0].root)| == |Ms(parent.root)|
    {
      var copied;
      copied, parent := SelectCopy(pop);
      if copied.Err? {
        return Err(copied.error), null;
      }
      var child := copied.value;
      SameShapeSize(child.root, parent.root);
      child.Permute();
      r := Ok([child]);
    }

    /** `editing`: an operator node without variables is replaced by a constant leaf
        holding its value; a copy with no such node is returned as it is, and a failing
        evaluation fails the operator. */
    method Editing(pop: seq<ParseTree>) returns (r: Result<seq<ParseTree>>, ghost parent: ParseTree?)
      requires AllValid(pop)
      modifies selector.fitness
      ensures selector.fitness.cases == old(selector.fitness.cases)
      ensures SelectFailures(pop, r)
      ensures r.Ok? ==> |r.value| == 1 && AllValid(r.value) && forall t | t in r.value :: fresh(t)
      ensures r.Ok? ==> forall t, x | t in r.value && x in Ms(t.root) :: fresh(x)
      ensures r.Ok? ==> parent != null && parent in pop && Edited(r.value[0].root, parent.root, Sem())
      ensures r.Ok? ==> EditStep(r.value[0].root, parent.root, Sem())
    {
      var copied;
      copied, parent := SelectCopy(pop);
      if copied.Err? {
        return Err(copied.error), null;
      }
      var child := copied.value;
      ghost var a := child.root;
      var found := child.RandomNodeWhere(true, true);
      if found.None? {
        NothingEditable(a, parent.root);
        return Ok([child]), parent;
      }
      var node := found.value;
      var y := Eval(node, map[], Sem());
      if y.Err? {
        return Err(y.error), parent;
      }
      var id := new NodeId();
      var leaf := Node(id, Terminal(Constant(y.value)), []);
      ghost var p := PathOf(a, node);
      child.ReplaceNode(node, leaf);
      assert ReplaceAt(a, [], leaf) == leaf;
      EditingLaws(a, parent.root, p, leaf, Sem());
      r := Ok([child]);
    }

    /** `inversion`: two independent nodes of the copy trade places (the root with itself
        when no independent pair turns up); a one-node copy has no pair and fails. */
    method Inversion(pop: seq<ParseTree>) returns (r: Result<seq<ParseTree>>, ghost parent: ParseTree?)
      requires AllValid(pop)
      modifies selector.fitness
      ensures selector.fitness.cases == old(selector.fitness.cases)
      ensures SelectFailures(pop, r)
      ensures parent != null ==> parent in pop && (r.Err? <==> IsTerminal(parent.root))
      ensures parent != null && r.Err? ==> r.error == IndexError
      ensures r.Ok? ==> |r.value| == 1 && AllValid(r.value) && forall t | t in r.value :: fresh(t)
      ensures r.Ok? ==> forall t, x | t in r.value && x in Ms(t.root) :: fresh(x)
      ensures r.Ok? ==> parent != null && Inverted(r.value[0].root, parent.root)
    {
      var copied;
      copied, parent := SelectCopy(pop);
      if copied.Err? {
        return Err(copied.error), null;
      }
      var child := copied.value;
      ghost var a := child.root;
      ShapeParts(a, parent.root);
      var swapped := child.SwapRandomNodePair();
      if swapped.Err? {
        return Err(swapped.error), parent;
      }
      SwappedInverted(a, parent.root, swapped.value.0, swapped.value.1);
      r := Ok([child]);
    }

    /** `hoist`: the subtree of an operator node of the copy becomes a tree of its own; a
        copy without operator nodes is returned as it is. */
    method Hoist(pop: seq<ParseTree>) returns (r: Result<seq<ParseTree>>, ghost parent: ParseTree?)
      requires AllValid(pop)
      modifies selector.fitness
      ensures selector.fitness.cases == old(selector.fitness.cases)
      ensures SelectFailures(pop, r)
      ensures r.Ok? ==> |r.value| == 1 && AllValid(r.value) && forall t | t in r.value :: fresh(t)
      ensures r.Ok? ==> forall t, x | t in r.value && x in Ms(t.root) :: fresh(x)
      ensures r.Ok? ==> parent != null && parent in pop && Hoisted(r.value[0].root, parent.root)
    {
      var copied;
      copied, parent := SelectCopy(pop);
      if copied.Err? {
        return Err(copied.error), null;
      }
      var child := copied.value;
      ghost var a := child.root;
      var found := child.RandomNodeWhere(true, false);
      if found.None? {
        SubtreeHoisted(a, parent.root, []);
        return Ok([child]), parent;
      }
      ghost var p := PathOf(a, found.value);
      WellFormedAt(a, p);
      UniqueAt(a, p);
      MsAt(a, p);
      SubtreeHoisted(a, parent.root, p);
      var hoisted := ParseTree.Hoist(found.value);
      r := Ok([hoisted]);
    }

    /** `operate(population, operator)`: the operator's entry in the index table, called
        with the population alone. Encapsulation, decimation, create, compress and expand
        are unfinished and return the selected copy, which is what `reproduce` does. */
    method Operate(pop: seq<ParseTree>, op: K.OperatorType := K.Reproduction) returns (r: Result<seq<ParseTree>>)
      requires AllValid(pop) && generator.Valid()
      modifies selector.fitness
      ensures selector.fitness.cases == old(selector.fitness.cases)
      ensures SelectFailures(pop, r)
      ensures r.Ok? ==> |r.value| == K.Yield(op) && AllValid(r.value)
      ensures r.Ok? ==> forall t | t in r.value :: fresh(t)
    {
      ghost var parent: ParseTree?;
      ghost var bound: int;
      match op {
        case Crossover =>
          r, bound := Crossover(pop, None);
        case Mutation =>
          r, parent := Mutation(pop, None);
        case Permutation =>
          r, parent := Permutation(pop);
        case Editing =>
          r, parent := Editing(pop);
        case Inversion =>
          r, parent := Inversion(pop);
        case Hoist =>
          r, parent := Hoist(pop);
        case _ =>
          r := Reproduce(pop);
      }
    }
  }
}
