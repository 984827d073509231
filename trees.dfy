/** `ParseTree`: a mutable wrapper around a root node, with random construction, random
    node choice, replacement of a subtree, swapping of two independent subtrees and
    copying. */
module Trees {
  import opened Wrappers
  import opened Atoms
  import opened Nodes
  import opened Paths
  import opened NodeLaws

  // ---------------------------------------------------------------------------------
  // What ParseTree.random / _fill_level build

  /** The atoms a child may be drawn from when `rem` levels remain: only terminals when
      fewer than two levels remain, terminals and operators otherwise. */
  function ChildOptions(rem: int, terminals: seq<TerminalAtom>, operators: seq<OperatorAtom>): (r: seq<Atom>)
    ensures forall a :: a in r <==> (a in terminals || (rem >= 2 && a in operators))
  {
    var t: seq<Atom> := terminals;
    if rem < 2 then t else t + operators
  }

  /** `n` is what `_fill_level(n, rem)` leaves behind: nothing below it when `rem` is 0,
      otherwise one child per argument, each drawn from `ChildOptions(rem)` and filled
      with one level less. */
  ghost predicate Built(n: Node, rem: int, terminals: seq<TerminalAtom>, operators: seq<OperatorAtom>) {
    && |n.children| == (if rem == 0 then 0 else Arity(n))
    && forall c :: c in n.children ==>
         c.value in ChildOptions(rem, terminals, operators) && Built(c, rem - 1, terminals, operators)
  }

  /** A filled tree is well formed unless an operator was left without children. */
  lemma {:induction false} BuiltWellFormed(n: Node, rem: int, terminals: seq<TerminalAtom>, operators: seq<OperatorAtom>)
    requires Built(n, rem, terminals, operators) && (rem != 0 || IsTerminal(n))
    ensures WellFormed(n)
  {
    forall c | c in n.children ensures WellFormed(c) {
      BuiltWellFormed(c, rem - 1, terminals, operators);
    }
  }

  /** A tree filled with `rem >= 1` levels below its root is at most `rem + 1` deep. */
  lemma {:induction false} BuiltDepth(n: Node, rem: int, terminals: seq<TerminalAtom>, operators: seq<OperatorAtom>)
    requires Built(n, rem, terminals, operators) && (rem >= 1 || IsTerminal(n))
    ensures Depth(n) <= (if rem >= 1 then rem + 1 else 1)
  {
    if !IsTerminal(n) {
      forall i | 0 <= i < |n.children| ensures Depth(n.children[i]) <= rem {
        var c := n.children[i];
        assert c in n.children;
        if rem >= 2 {
          BuiltDepth(c, rem - 1, terminals, operators);
        }
      }
      MaxDepthBound(n.children, rem);
    }
  }

  // ---------------------------------------------------------------------------------
  // Swapping two subtrees

  /** What `_swap_nodes(a, b)` needs to do its work: two independent nodes of one tree
      in which no node object occurs twice. */
  ghost predicate SwapReady(t: Node, a: Node, b: Node) {
    Unique(t) && InTree(t, a) && InTree(t, b) && Independent(a, b)
  }

  /** The tree after `_swap_nodes(a, b)`: unchanged for the same node, otherwise `b` sits
      where `a` was and `a` where `b` was. */
  ghost function Swapped(t: Node, a: Node, b: Node): Node
    requires SwapReady(t, a, b)
  {
    if Is(a, b) then t
    else
      var p, q := PathOf(t, a), PathOf(t, b);
      IndependentPaths(t, p, q);
      ReplaceAtElsewhere(t, p, b, q);
      ReplaceAt(ReplaceAt(t, p, b), q, a)
  }

  /** Swapping keeps the node objects of the tree and its well-formedness, and leaves
      `a` at `b`'s old place and `b` at `a`'s. */
  lemma SwapKeeps(t: Node, a: Node, b: Node)
    requires SwapReady(t, a, b)
    ensures Ms(Swapped(t, a, b)) == Ms(t)
    ensures WellFormed(t) ==> WellFormed(Swapped(t, a, b))
    ensures SwapReady(Swapped(t, a, b), a, b)
    ensures !Is(a, b) ==>
              && PathOf(Swapped(t, a, b), a) == PathOf(t, b)
              && PathOf(Swapped(t, a, b), b) == PathOf(t, a)
  {
    if !Is(a, b) {
      var p, q := PathOf(t, a), PathOf(t, b);
      IndependentPaths(t, p, q);
      ReplaceAtElsewhere(t, p, b, q);
      var t1 := ReplaceAt(t, p, b);
      var t2 := ReplaceAt(t1, q, a);
      MsReplaceAt(t, p, b);
      MsReplaceAt(t1, q, a);
      assert Ms(t2) + Ms(b) == Ms(t) + Ms(b);
      CancelRight(Ms(t2), Ms(t), Ms(b));
      ReplaceAtThenAt(t1, q, a);
      ReplaceAtThenAt(t, p, b);
      ReplaceAtElsewhere(t1, q, a, p);
      InTreeAt(t2, q);
      InTreeAt(t2, p);
      if WellFormed(t) {
        WellFormedAt(t, p);
        WellFormedAt(t, q);
        WellFormedReplaceAt(t, p, b);
        WellFormedReplaceAt(t1, q, a);
      }
    }
  }

  /** Swapping the same pair twice restores the tree. */
  lemma SwapTwice(t: Node, a: Node, b: Node)
    requires SwapReady(t, a, b)
    ensures SwapReady(Swapped(t, a, b), a, b)
    ensures Swapped(Swapped(t, a, b), a, b) == t
  {
    SwapKeeps(t, a, b);
    if !Is(a, b) {
      var p, q := PathOf(t, a), PathOf(t, b);
      IndependentPaths(t, p, q);
      ReplaceAtElsewhere(t, p, b, q);
      var t1 := ReplaceAt(t, p, b);
      var t2 := ReplaceAt(t1, q, a);
      assert Swapped(t, a, b) == t2;
      ReplaceAtThenAt(t, p, b);
      ReplaceAtTwice(t1, q, a, b);
      ReplaceAtCommute(t, p, b, q, b);
      ReplaceAtSelf(t, q);
      assert ReplaceAt(t2, q, b) == t1;
      ReplaceAtTwice(t, p, b, a);
      ReplaceAtSelf(t, p);
      assert ReplaceAt(t1, p, a) == t;
    }
  }

  /** `p.set_child(v, i)` on the parent object of the node at `p` replaces the subtree
      at `p`, when that parent object occurs once. */
  lemma WriteAt(t: Node, p: Path, v: Node)
    requires ValidPath(t, p) && p != [] && ValidPath(t, Init(p))
    requires Ms(t)[At(t, Init(p)).id] == 1
    ensures SetChildById(t, At(t, Init(p)).id, Last(p), v) == ReplaceAt(t, p, v)
  {
    AtInit(t, p);
    SetChildByIdAtPath(t, Init(p), Last(p), v);
    assert Init(p) + [Last(p)] == p;
  }

  /** In a unique tree the parent of a non-root node occurs once. */
  lemma FirstSlot(t: Node, p: Path)
    requires Unique(t) && ValidPath(t, p) && p != []
    ensures ValidPath(t, Init(p)) && Ms(t)[At(t, Init(p)).id] == 1
  {
    AtInit(t, p);
    InMsAt(t, Init(p));
    CountOne(t, At(t, Init(p)).id);
  }

  /** After the first write of a swap, the second node's parent is still where it was and
      still occurs once. */
  lemma SecondSlot(t: Node, p: Path, q: Path)
    requires Unique(t) && ValidPath(t, p) && ValidPath(t, q) && Incomparable(p, q) && q != []
    ensures ValidPath(t, Init(q))
    ensures ValidPath(ReplaceAt(t, p, At(t, q)), q)
    ensures ValidPath(ReplaceAt(t, p, At(t, q)), Init(q))
    ensures At(ReplaceAt(t, p, At(t, q)), Init(q)).id == At(t, Init(q)).id
    ensures Ms(ReplaceAt(t, p, At(t, q)))[At(t, Init(q)).id] == 1
  {
    var v := At(t, q);
    AtInit(t, q);
    var pid2 := At(t, Init(q)).id;
    assert !IsPrefix(p, Init(q)) by {
      if IsPrefix(p, Init(q)) {
        PrefixOfInit(p, q);
        assert false;
      }
    }
    ReplaceAtElsewhere(t, p, v, q);
    ReplaceAtElsewhere(t, p, v, Init(q));
    MsReplaceAt(t, p, v);
    NotInside(t, p, Init(q));
    NotInside(t, q, Init(q));
    FirstSlot(t, q);
    var t1 := ReplaceAt(t, p, v);
    assert (Ms(t1) + Ms(At(t, p)))[pid2] == (Ms(t) + Ms(v))[pid2];
  }

  // ---------------------------------------------------------------------------------
  // The tree object

  class ParseTree {
    var root: Node

    /** Every node has its arity's children and no node object occurs twice. */
    ghost predicate Valid()
      reads this
    {
      WellFormed(root) && Unique(root)
    }

    constructor (root: Node)
      ensures this.root == root
    {
      this.root := root;
    }

    /** `_fill_level(root, remLevels)`: fills the children below `root`, drawing each
        child's atom from `ChildOptions(remLevels)`; drawing from an empty choice raises
        IndexError. Every node below `root` is new. */
    static method FillLevel(root: Node, remLevels: int, terminals: seq<TerminalAtom>, operators: seq<OperatorAtom>)
        returns (r: Result<Node>)
      requires root.children == []
      ensures |terminals| > 0 ==> r.Ok?
      ensures r.Err? ==> r.error == IndexError
      ensures r.Ok? ==> r.value.id == root.id && r.value.value == root.value
      ensures r.Ok? ==> Built(r.value, remLevels, terminals, operators) && Unique(r.value)
      ensures r.Ok? ==> forall x | x in MsAll(r.value.children) :: fresh(x) && allocated(x)
      decreases if remLevels > 0 then remLevels + 1 else if Arity(root) > 0 then 1 else 0
    {
      if remLevels == 0 {
        return Ok(root);
      }
      var options := ChildOptions(remLevels, terminals, operators);
      var kids: seq<Node> := [];
      for i := 0 to Arity(root)
        invariant |kids| == i
        invariant forall c :: c in kids ==> c.value in options && Built(c, remLevels - 1, terminals, operators)
        invariant forall x | x in MsAll(kids) :: fresh(x) && allocated(x) && MsAll(kids)[x] == 1
      {
        if options == [] {
          return Err(IndexError);
        }
        assert options[0] in options;
        var atom :| atom in options;
        var id := new NodeId();
        var child := FillLevel(Node(id, atom, []), remLevels - 1, terminals, operators);
        if child.Err? {
          return Err(child.error);
        }
        MsAllAppend(kids, child.value);
        kids := kids + [child.value];
      }
      return Ok(Node(root.id, root.value, kids));
    }

    /** `ParseTree.random`: a tree whose root is an operator (a terminal when a trivial
        tree is allowed and `maxDepth < 2`), filled with `maxDepth - 1` levels below it. */
    static method Random(maxDepth: int, terminals: seq<TerminalAtom>, operators: seq<OperatorAtom>, forceTrivial: bool := false)
        returns (r: Result<ParseTree>)
      ensures r.Err? ==> r.error == (if maxDepth < 2 && !forceTrivial then InvalidDepth else IndexError)
      ensures maxDepth < 2 && !forceTrivial ==> r.Err?
      ensures maxDepth >= 2 && operators == [] ==> r.Err?
      ensures |terminals| > 0 && (maxDepth >= 2 || forceTrivial) && (maxDepth < 2 || operators != []) ==> r.Ok?
      ensures r.Ok? ==> fresh(r.value) && r.value.Valid()
      ensures r.Ok? ==> forall x | x in Ms(r.value.root) :: fresh(x) && allocated(x)
      ensures r.Ok? && maxDepth >= 2 ==> r.value.root.value in operators
      ensures r.Ok? && maxDepth < 2 ==> r.value.root.value in terminals
      ensures r.Ok? ==> Built(r.value.root, maxDepth - 1, terminals, operators)
      ensures r.Ok? ==> Depth(r.value.root) <= Max(maxDepth, 1)
    {
      if maxDepth < 2 && !forceTrivial {
        return Err(InvalidDepth);
      }
      var choices: seq<Atom> := if maxDepth > 1 then operators else terminals;
      if choices == [] {
        return Err(IndexError);
      }
      assert choices[0] in choices;
      var atom :| atom in choices;
      var id := new NodeId();
      var filled := FillLevel(Node(id, atom, []), maxDepth - 1, terminals, operators);
      if filled.Err? {
        return Err(filled.error);
      }
      BuiltWellFormed(filled.value, maxDepth - 1, terminals, operators);
      BuiltDepth(filled.value, maxDepth - 1, terminals, operators);
      var t := new ParseTree(filled.value);
      return Ok(t);
    }

    /** `random_node(exclude_root)`: some node of the tree in pre-order, not the root when
        it is excluded; a one-node tree has nothing to offer then. */
    method RandomNode(excludeRoot: bool := false) returns (r: Result<Node>)
      requires Valid()
      ensures r.Err? <==> excludeRoot && IsTerminal(root)
      ensures r.Err? ==> r.error == IndexError
      ensures r.Ok? ==> r.value in Linearize(root, excludeRoot) && InTree(root, r.value)
      ensures r.Ok? && excludeRoot ==> PathOf(root, r.value) != []
    {
      var l := Linearize(root, excludeRoot);
      LinearizeRest(root);
      if l == [] {
        return Err(IndexError);
      }
      assert l[0] in l;
      var y :| y in l;
      LinearizedInTree(root, y, excludeRoot);
      return Ok(y);
    }

    /** `_random_node_pair`: up to ten tries to find a non-root node independent of a first
        non-root one; after that, the root twice. */
    method RandomNodePair() returns (r: Result<(Node, Node)>)
      requires Valid()
      ensures r.Err? <==> IsTerminal(root)
      ensures r.Err? ==> r.error == IndexError
      ensures r.Ok? ==> SwapReady(root, r.value.0, r.value.1)
      ensures r.Ok? ==>
                || r.value == (root, root)
                || (PathOf(root, r.value.0) != [] && PathOf(root, r.value.1) != [])
    {
      var first := RandomNode(true);
      if first.Err? {
        return Err(first.error);
      }
      var n1 := first.value;
      var counter := 0;
      while counter < 10
        invariant 0 <= counter <= 10
      {
        var second := RandomNode(true);
        var n2 := second.value;
        if Independent(n1, n2) {
          return Ok((n1, n2));
        }
        counter := counter + 1;
      }
      InTreeAt(root, []);
      return Ok((root, root));
    }

    /** `replace_node(target, replacement)`: the slot holding `target` now holds
        `replacement`; when `target` is the root, or not in the tree at all, the whole tree
        becomes `replacement`. */
    method ReplaceNode(target: Node, replacement: Node)
      requires Unique(root)
      modifies this
      ensures var f := Find(old(root), target.id);
              if f.Some? && f.value != [] then root == ReplaceAt(old(root), f.value, replacement)
              else root == replacement
    {
      var lin := GetNodeLineage(root, target);
      FindComplete(root, target.id);
      var f := Find(root, target.id);
      if f.Some? {
        var p := f.value;
        LineageAtPath(root, p, target, None);
        if p != [] {
          AtInit(root, p);
          InMsAt(root, Init(p));
          CountOne(root, At(root, Init(p)).id);
          SetChildByIdAtPath(root, Init(p), Last(p), replacement);
          assert Init(p) + [Last(p)] == p;
        }
      } else {
        LineageAbsent(root, target, None);
      }
      if lin.parent.None? {
        root := replacement;
      } else {
        root := SetChildById(root, lin.parent.value.id, lin.index.value, replacement);
      }
    }

    /** `_swap_nodes(n1, n2)`: each node is written into the other's slot. */
    method SwapNodes(n1: Node, n2: Node)
      requires SwapReady(root, n1, n2)
      modifies this
      ensures root == Swapped(old(root), n1, n2)
    {
      if Is(n1, n2) {
        return;
      }
      var l1 := GetNodeLineage(root, n1);
      var l2 := GetNodeLineage(root, n2);
      ghost var t := root;
      ghost var p, q := PathOf(t, n1), PathOf(t, n2);
      IndependentPaths(t, p, q);
      assert p != [] && q != [] by {
        assert IsPrefix([], p) && IsPrefix([], q);
      }
      LineageAtPath(t, p, n1, None);
      LineageAtPath(t, q, n2, None);
      FirstSlot(t, p);
      WriteAt(t, p, n2);
      root := SetChildById(root, l1.parent.value.id, l1.index.value, l2.node.value);
      SecondSlot(t, p, q);
      WriteAt(root, q, n1);
      root := SetChildById(root, l2.parent.value.id, l2.index.value, l1.node.value);
    }

    /** `swap_random_node_pair`: swaps the pair `_random_node_pair` picks; a one-node tree
        has no pair to pick. */
    method SwapRandomNodePair() returns (r: Result<(Node, Node)>)
      requires Valid()
      modifies this
      ensures r.Err? <==> old(IsTerminal(root))
      ensures r.Err? ==> r.error == IndexError && root == old(root)
      ensures r.Ok? ==> SwapReady(old(root), r.value.0, r.value.1) && root == Swapped(old(root), r.value.0, r.value.1)
      ensures Valid() && Ms(root) == old(Ms(root))
    {
      r := RandomNodePair();
      if r.Ok? {
        SwapKeeps(root, r.value.0, r.value.1);
        SwapNodes(r.value.0, r.value.1);
      }
    }

    /** `Node.copy`: a new node object for every node, with the same atoms and the same
        arrangement. */
    static method CopyNode(n: Node) returns (r: Node)
      requires WellFormed(n)
      ensures ShapeOf(r) == ShapeOf(n) && Unique(r)
      ensures forall x | x in Ms(r) :: fresh(x) && allocated(x)
    {
      var id := new NodeId();
      var kids: seq<Node> := [];
      for i := 0 to |n.children|
        invariant |kids| == i
        invariant forall j :: 0 <= j < i ==> ShapeOf(kids[j]) == ShapeOf(n.children[j])
        invariant forall x | x in MsAll(kids) :: fresh(x) && allocated(x) && x != id && MsAll(kids)[x] == 1
      {
        assert n.children[i] in n.children;
        var c := CopyNode(n.children[i]);
        MsAllAppend(kids, c);
        kids := kids + [c];
      }
      ShapeAllEq(kids, n.children);
      r := Node(id, n.value, kids);
    }

    /** `ParseTree.copy`: a new tree of new nodes with the same arrangement of atoms. */
    method Copy() returns (t: ParseTree)
      requires Valid()
      ensures fresh(t) && t.Valid() && ShapeOf(t.root) == ShapeOf(root)
      ensures forall x | x in Ms(t.root) :: fresh(x) && allocated(x)
    {
      var r := CopyNode(root);
      SameShapeStructure(r, root);
      t := new ParseTree(r);
    }

    /** `hoist(node)`: a tree whose root is `node` itself, with its subtree. */
    static method Hoist(node: Node) returns (t: ParseTree)
      ensures fresh(t) && t.root == node
    {
      t := new ParseTree(node);
    }

    /** `random_node(non_terminal, non_parameterized)`: some node of the tree that passes
        the requested filters; None when no node does. */
    method RandomNodeWhere(nonTerminal: bool, nonParameterized: bool) returns (r: Option<Node>)
      requires Valid()
      ensures r.None? <==>
                forall y :: y in Linearize(root) ==>
                  (nonTerminal && IsTerminal(y)) || (nonParameterized && IsParameterized(y))
      ensures r.Some? ==>
                && InTree(root, r.value)
                && (nonTerminal ==> !IsTerminal(r.value))
                && (nonParameterized ==> !IsParameterized(r.value))
    {
      var l := Linearize(root);
      var candidates := set y | y in l && !(nonTerminal && IsTerminal(y)) && !(nonParameterized && IsParameterized(y));
      if candidates == {} {
        assert forall y | y in l :: y !in candidates;
        return None;
      }
      var y :| y in candidates;
      LinearizedInTree(root, y, false);
      return Some(y);
    }

    /** `permutation`: the tree's nodes rearranged into another well-formed tree. */
    method Permute()
      requires Valid()
      modifies this
      ensures Valid() && Ms(root) == old(Ms(root))
    {
      var r :| WellFormed(r) && Ms(r) == Ms(root);
      root := r;
    }
  }

  /** The roots of a list of trees, in order. */
  function Roots(pop: seq<ParseTree>): (r: seq<Node>)
    reads set t | t in pop
    ensures |r| == |pop| && forall i :: 0 <= i < |pop| ==> r[i] == pop[i].root
  {
    seq(|pop|, i reads set t | t in pop requires 0 <= i < |pop| => pop[i].root)
  }

  /** Every tree of a population is valid. */
  ghost predicate AllValid(pop: seq<ParseTree>)
    reads set t | t in pop
  {
    forall t | t in pop :: t.Valid()
  }
}
