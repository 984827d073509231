/** `ParseTree.Node`: a node wraps an atom and an ordered list of child nodes.

    Python compares nodes by reference (`Node` defines no `__eq__`). A node's identity is
    modelled by `id`, an object allocated when the node is created; "the same node" means
    "the same `id`". Node values are immutable here: an update of a node object in place
    is modelled by rebuilding the tree around the node with that `id` (see
    `SetChildById`). */
module Nodes {
  import opened Wrappers
  import opened Atoms

  /** The identity of one Python `Node` object. */
  class NodeId {
    constructor () { }
  }

  datatype Node = Node(id: NodeId, value: Atom, children: seq<Node>)

  /** The same Python object: `a == b` on nodes. */
  predicate Is(a: Node, b: Node) {
    a.id == b.id
  }

  function Arity(n: Node): nat {
    n.value.Arity()
  }

  predicate IsTerminal(n: Node) {
    Arity(n) == 0
  }

  // ---------------------------------------------------------------------------------
  // Edits of one node (Node.add_child, Node.set_child)

  /** `add_child`: a terminal node refuses a child; any other node gets it at the end. */
  function AddChild(n: Node, child: Node): (r: Result<Node>)
    ensures r.Err? <==> IsTerminal(n)
    ensures r.Err? ==> r.error == NodeTermination
    ensures r.Ok? ==> r.value.id == n.id && r.value.value == n.value
    ensures r.Ok? ==> |r.value.children| == |n.children| + 1
    ensures r.Ok? ==> r.value.children[..|n.children|] == n.children
    ensures r.Ok? ==> r.value.children[|n.children|] == child
  {
    if IsTerminal(n) then Err(NodeTermination) else Ok(n.(children := n.children + [child]))
  }

  /** `set_child`: overwrites slot `index`; an index outside the list raises. */
  function SetChild(n: Node, child: Node, index: nat): (r: Result<Node>)
    ensures r.Err? <==> index >= |n.children|
    ensures r.Err? ==> r.error == IndexError
    ensures r.Ok? ==> r.value.id == n.id && r.value.value == n.value
    ensures r.Ok? ==> |r.value.children| == |n.children| && r.value.children[index] == child
    ensures r.Ok? ==> forall j :: 0 <= j < |n.children| && j != index ==> r.value.children[j] == n.children[j]
  {
    if index < |n.children| then Ok(n.(children := n.children[index := child])) else Err(IndexError)
  }

  // ---------------------------------------------------------------------------------
  // Structural invariant

  /** Every node has exactly as many children as its atom's arity. */
  predicate WellFormed(n: Node) {
    && |n.children| == Arity(n)
    && forall c :: c in n.children ==> WellFormed(c)
  }

  // ---------------------------------------------------------------------------------
  // Depth (Node.get_depth)

  function Max(a: int, b: int): int {
    if a < b then b else a
  }

  /** `get_depth`: 1 for a terminal, otherwise one more than the deepest child. */
  function Depth(n: Node): (d: nat)
    ensures d >= 1
    ensures IsTerminal(n) ==> d == 1
  {
    if IsTerminal(n) then 1 else 1 + MaxDepth(n.children)
  }

  /** `max([k.get_depth() for k in children])`, with 0 for no children. */
  function MaxDepth(cs: seq<Node>): (d: nat)
    ensures forall i :: 0 <= i < |cs| ==> Depth(cs[i]) <= d
    ensures cs == [] ==> d == 0
  {
    if cs == [] then 0
    else
      var rest := MaxDepth(cs[1..]);
      assert forall i :: 1 <= i < |cs| ==> cs[i] == cs[1..][i - 1];
      Max(Depth(cs[0]), rest)
  }

  /** The maximum is attained by some child. */
  lemma {:induction false} MaxDepthAttained(cs: seq<Node>) returns (i: nat)
    requires cs != []
    ensures i < |cs| && Depth(cs[i]) == MaxDepth(cs)
  {
    if |cs| == 1 || MaxDepth(cs[1..]) <= Depth(cs[0]) {
      i := 0;
    } else {
      var j := MaxDepthAttained(cs[1..]);
      i := j + 1;
    }
  }

  // ---------------------------------------------------------------------------------
  // Pre-order enumeration (Node._linearize)

  /** `_linearize`: the subtree in pre-order; `excludeFirst` leaves out the node itself. */
  function Linearize(n: Node, excludeFirst: bool := false): (r: seq<Node>)
    ensures !excludeFirst ==> r != [] && r[0] == n
    ensures r == [] <==> excludeFirst && n.children == []
  {
    (if excludeFirst then [] else [n]) + LinearizeAll(n.children)
  }

  function LinearizeAll(cs: seq<Node>): (r: seq<Node>)
    ensures r == [] <==> cs == []
  {
    if cs == [] then [] else Linearize(cs[0]) + LinearizeAll(cs[1..])
  }

  /** The identities of a list of nodes, in order. */
  function IdsOf(s: seq<Node>): (r: seq<NodeId>)
    ensures |r| == |s| && forall i :: 0 <= i < |s| ==> r[i] == s[i].id
  {
    seq(|s|, i requires 0 <= i < |s| => s[i].id)
  }

  // ---------------------------------------------------------------------------------
  // The identities in a subtree, and their uniqueness

  /** The multiset of node identities in the subtree. */
  function Ms(n: Node): multiset<NodeId> {
    multiset{n.id} + MsAll(n.children)
  }

  function MsAll(cs: seq<Node>): multiset<NodeId> {
    if cs == [] then multiset{} else Ms(cs[0]) + MsAll(cs[1..])
  }

  /** No node object occurs twice in the subtree. */
  predicate Unique(n: Node) {
    forall x | x in Ms(n) :: Ms(n)[x] == 1
  }

  // ---------------------------------------------------------------------------------
  // Lookup by identity (Node.get_node_lineage, Node.depth_of)

  /** The triple `(node, parent, index)` that `get_node_lineage` returns. */
  datatype Lineage = Lineage(node: Option<Node>, parent: Option<Node>, index: Option<nat>)

  /** `parent._children.index(self)`: the first slot holding the same object
      (`|cs|` if none does; Python raises ValueError, which cannot happen here). */
  function IndexOf(cs: seq<Node>, x: Node): (i: nat)
    ensures i <= |cs|
    ensures i < |cs| ==> Is(cs[i], x) && forall j :: 0 <= j < i ==> !Is(cs[j], x)
    ensures i == |cs| ==> forall j :: 0 <= j < |cs| ==> !Is(cs[j], x)
  {
    if cs == [] then 0 else if Is(cs[0], x) then 0 else 1 + IndexOf(cs[1..], x)
  }

  /** `get_node_lineage(target, parent)`: the first node in pre-order that is `target`,
      with the parent it was reached from and its slot there. */
  function GetNodeLineage(n: Node, target: Node, parent: Option<Node> := None): (l: Lineage)
    ensures l.node.Some? ==> Is(l.node.value, target)
    ensures l.node.None? ==> l == Lineage(None, None, None)
  {
    if Is(n, target) then
      Lineage(Some(n), parent, if parent.Some? then Some(IndexOf(parent.value.children, n)) else None)
    else
      LineageAmong(n.children, target, n)
  }

  function LineageAmong(cs: seq<Node>, target: Node, parent: Node): (l: Lineage)
    ensures l.node.Some? ==> Is(l.node.value, target)
    ensures l.node.None? ==> l == Lineage(None, None, None)
  {
    if cs == [] then Lineage(None, None, None)
    else
      var l := GetNodeLineage(cs[0], target, Some(parent));
      if l.node.Some? then l else LineageAmong(cs[1..], target, parent)
  }

  /** `depth_of(node, level)`: the level at which `node` is first met, or None. */
  function DepthOf(n: Node, target: Node, level: nat := 1): (d: Option<nat>)
    ensures d.Some? ==> d.value >= level
    ensures Is(n, target) <==> d == Some(level)
  {
    if Is(n, target) then Some(level) else DepthOfAmong(n.children, target, level + 1)
  }

  function DepthOfAmong(cs: seq<Node>, target: Node, level: nat): (d: Option<nat>)
    ensures d.Some? ==> d.value >= level
  {
    if cs == [] then None
    else
      var d := DepthOf(cs[0], target, level);
      if d.Some? then d else DepthOfAmong(cs[1..], target, level)
  }

  // ---------------------------------------------------------------------------------
  // Descendant relation (Node.__lt__, __gt__, __or__)

  /** `a < b`: `a` is a proper descendant of `b`. */
  predicate Lt(a: Node, b: Node) {
    if Is(a, b) then false else LtAmong(a, b.children)
  }

  predicate LtAmong(a: Node, cs: seq<Node>) {
    if cs == [] then false
    else if Is(a, cs[0]) then true
    else Lt(a, cs[0]) || LtAmong(a, cs[1..])
  }

  /** `a > b` iff `b < a`. */
  predicate Gt(a: Node, b: Node) {
    Lt(b, a)
  }

  /** `a | b`: neither is a descendant of the other. */
  predicate Independent(a: Node, b: Node) {
    !(Lt(a, b) || Lt(b, a))
  }

  // ---------------------------------------------------------------------------------
  // Writes into the node object with a given identity

  /** `p.set_child(v, i)` where `p` is the node object with identity `pid`: every node of
      the tree that is that object gets `v` in slot `i`. */
  function SetChildById(n: Node, pid: NodeId, i: nat, v: Node): Node {
    if n.id == pid then
      (if i < |n.children| then n.(children := n.children[i := v]) else n)
    else
      n.(children := SetChildByIdAll(n.children, pid, i, v))
  }

  function SetChildByIdAll(cs: seq<Node>, pid: NodeId, i: nat, v: Node): (r: seq<Node>)
    ensures |r| == |cs|
  {
    if cs == [] then [] else [SetChildById(cs[0], pid, i, v)] + SetChildByIdAll(cs[1..], pid, i, v)
  }

  // ---------------------------------------------------------------------------------
  // Evaluation (Node.eval, Node._eval_str) and the parameterized test

  /** `eval(**kwargs)`: a terminal is looked up by name in the bindings (a variable) or
      evaluated on its own; any other node applies its procedure to its children's
      values, evaluated left to right. */
  function Eval(n: Node, env: map<string, real>, sem: Semantics): Result<real> {
    if IsTerminal(n) then EvalTerminal(n.value, env, sem)
    else
      match EvalAll(n.children, env, sem)
      case Ok(args) => ApplyProcedure(n.value, args, sem)
      case Err(e) => Err(e)
  }

  function EvalAll(cs: seq<Node>, env: map<string, real>, sem: Semantics): Result<seq<real>> {
    if cs == [] then Ok([])
    else
      match Eval(cs[0], env, sem)
      case Err(e) => Err(e)
      case Ok(y) =>
        match EvalAll(cs[1..], env, sem)
        case Err(e) => Err(e)
        case Ok(ys) => Ok([y] + ys)
  }

  function EvalTerminal(a: Atom, env: map<string, real>, sem: Semantics): Result<real> {
    match a
    case Terminal(Variable(name)) => if name in env then Ok(env[name]) else Err(UnboundVariable)
    case Terminal(Constant(v)) => Ok(v)
    case Operator(_, _) => ApplyProcedure(a, [], sem)
    case _ => Ok(sem.leaf(a))
  }

  /** An operator's procedure applied to its arguments; `lambda x: x` takes exactly one. */
  function ApplyProcedure(a: Atom, args: seq<real>, sem: Semantics): Result<real> {
    match a
    case Operator(_, Identity) => if |args| == 1 then Ok(args[0]) else Err(TypeError)
    case Operator(_, Named(name)) => Ok(sem.apply(name, args))
    case _ => Ok(sem.leaf(a))
  }

  /** `str(node)`: the symbolic form built by `eval_str`. */
  function Str(n: Node, sem: Semantics): string {
    sem.render(n.value, StrAll(n.children, sem))
  }

  function StrAll(cs: seq<Node>, sem: Semantics): seq<string> {
    if cs == [] then [] else [Str(cs[0], sem)] + StrAll(cs[1..], sem)
  }

  /** `is_parameterized`: the subtree holds a variable. */
  predicate IsParameterized(n: Node) {
    || (n.value.Terminal? && n.value.kind.Variable?)
    || exists c :: c in n.children && IsParameterized(c)
  }

  // ---------------------------------------------------------------------------------
  // Shape: a tree without identities

  datatype Shape = Shape(value: Atom, children: seq<Shape>)

  function ShapeOf(n: Node): Shape {
    Shape(n.value, ShapeAll(n.children))
  }

  function ShapeAll(cs: seq<Node>): (r: seq<Shape>)
    ensures |r| == |cs|
  {
    if cs == [] then [] else [ShapeOf(cs[0])] + ShapeAll(cs[1..])
  }
}
