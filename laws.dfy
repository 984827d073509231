/** What the pure queries of `ParseTree.Node` promise: pre-order enumeration, depth and
    depth-of, the descendant order, and the effect of a subtree replacement on depth,
    arity and identities. */
module NodeLaws {
  import opened Wrappers
  import opened Atoms
  import opened Nodes
  import opened Paths

  // ---------------------------------------------------------------------------------
  // Pre-order enumeration

  lemma IdsOfAppend(a: seq<Node>, b: seq<Node>)
    ensures IdsOf(a + b) == IdsOf(a) + IdsOf(b)
  {
  }

  /** `_linearize` lists exactly the identities of the subtree. */
  lemma {:induction false} LinearizeIds(n: Node)
    ensures multiset(IdsOf(Linearize(n))) == Ms(n)
  {
    LinearizeAllIds(n.children);
    IdsOfAppend([n], LinearizeAll(n.children));
  }

  lemma {:induction false} LinearizeAllIds(cs: seq<Node>)
    ensures multiset(IdsOf(LinearizeAll(cs))) == MsAll(cs)
  {
    if cs != [] {
      LinearizeIds(cs[0]);
      LinearizeAllIds(cs[1..]);
      IdsOfAppend(Linearize(cs[0]), LinearizeAll(cs[1..]));
    }
  }

  lemma CountTwo<T>(s: seq<T>, i: nat, j: nat)
    requires i < j < |s| && s[i] == s[j]
    ensures multiset(s)[s[i]] >= 2
  {
    assert s == s[..i] + [s[i]] + s[i + 1..j] + [s[j]] + s[j + 1..];
  }

  /** In a unique tree each node object is listed once. */
  lemma LinearizeOnce(n: Node)
    requires Unique(n)
    ensures forall i, j :: 0 <= i < j < |Linearize(n)| ==> Linearize(n)[i].id != Linearize(n)[j].id
  {
    var l := Linearize(n);
    LinearizeIds(n);
    forall i, j | 0 <= i < j < |l| ensures l[i].id != l[j].id {
      NotTwice(n, l, i, j);
    }
  }

  lemma NotTwice(n: Node, l: seq<Node>, i: nat, j: nat)
    requires Unique(n) && multiset(IdsOf(l)) == Ms(n) && i < j < |l|
    ensures l[i].id != l[j].id
  {
    var ids := IdsOf(l);
    if l[i].id == l[j].id {
      CountTwo(ids, i, j);
      CountOne(n, ids[i]);
      assert false;
    }
  }

  /** The first entry is the subtree root itself, and `excludeFirst` drops exactly that
      entry. */
  lemma LinearizeExcludeFirst(n: Node)
    ensures Linearize(n)[0] == n
    ensures Linearize(n, true) == Linearize(n)[1..]
  {
    assert Linearize(n) == [n] + LinearizeAll(n.children);
    assert Linearize(n, true) == LinearizeAll(n.children);
  }

  /** In a unique tree no entry but the first is the root's object, so `excludeFirst`
      never yields the root. */
  lemma ExcludeFirstNotRoot(n: Node, y: Node)
    requires Unique(n) && y in Linearize(n, true)
    ensures y.id != n.id
  {
    var l := Linearize(n);
    var j := ExcludedIndex(n, y);
    LinearizeIds(n);
    NotTwice(n, l, 0, j);
  }

  /** A node listed with `excludeFirst` stands after the first entry of the full list. */
  lemma ExcludedIndex(n: Node, y: Node) returns (j: nat)
    requires y in Linearize(n, true)
    ensures 0 < j < |Linearize(n)| && Linearize(n)[j] == y && Linearize(n)[0] == n
  {
    LinearizeExcludeFirst(n);
    var rest := Linearize(n)[1..];
    assert y in rest;
    var k :| 0 <= k < |rest| && rest[k] == y;
    j := k + 1;
  }

  /** Every listed node sits at some path of the subtree, and a node listed with
      `excludeFirst` at a non-empty one. */
  lemma {:induction false} LinearizedAt(n: Node, y: Node, excludeFirst: bool) returns (p: Path)
    requires y in Linearize(n, excludeFirst)
    ensures ValidPath(n, p) && At(n, p) == y
    ensures excludeFirst ==> p != []
  {
    if !excludeFirst && y == n {
      p := [];
    } else {
      assert y in LinearizeAll(n.children);
      var k, q := LinearizedAmongAt(n.children, y);
      p := [k] + q;
      assert p[1..] == q;
    }
  }

  lemma {:induction false} LinearizedAmongAt(cs: seq<Node>, y: Node) returns (k: nat, q: Path)
    requires y in LinearizeAll(cs)
    ensures k < |cs| && ValidPath(cs[k], q) && At(cs[k], q) == y
  {
    if y in Linearize(cs[0]) {
      k := 0;
      q := LinearizedAt(cs[0], y, false);
    } else {
      var k', q' := LinearizedAmongAt(cs[1..], y);
      k, q := k' + 1, q';
    }
  }

  /** Conversely every node of the subtree is listed; every proper descendant survives
      `excludeFirst`. */
  lemma {:induction false} PathLinearized(n: Node, p: Path)
    requires ValidPath(n, p)
    ensures At(n, p) in Linearize(n)
    ensures p != [] ==> At(n, p) in Linearize(n, true)
    decreases |p|
  {
    if p != [] {
      PathLinearized(n.children[p[0]], p[1..]);
      AmongLinearized(n.children, p[0], At(n, p));
    }
  }

  lemma {:induction false} AmongLinearized(cs: seq<Node>, k: nat, y: Node)
    requires k < |cs| && y in Linearize(cs[k])
    ensures y in LinearizeAll(cs)
    decreases k
  {
    if k > 0 {
      AmongLinearized(cs[1..], k - 1, y);
    }
  }

  /** A node listed by `_linearize` of a unique tree is a node of that tree. */
  lemma LinearizedInTree(n: Node, y: Node, excludeFirst: bool)
    requires Unique(n) && y in Linearize(n, excludeFirst)
    ensures InTree(n, y)
    ensures excludeFirst ==> PathOf(n, y) != []
  {
    var p := LinearizedAt(n, y, excludeFirst);
    InTreeAt(n, p);
  }

  // ---------------------------------------------------------------------------------
  // Depth and depth-of

  /** A node at path `p` of a well-formed tree roots a subtree at most `|p|` levels
      shallower than the tree. */
  lemma {:induction false} DepthAtPath(n: Node, p: Path)
    requires WellFormed(n) && ValidPath(n, p)
    ensures |p| + Depth(At(n, p)) <= Depth(n)
    decreases |p|
  {
    if p != [] {
      var c := n.children[p[0]];
      assert c in n.children;
      DepthAtPath(c, p[1..]);
    }
  }

  /** `depth_of` is 1 for the root, and never outside `[level, level + depth - 1]`. */
  lemma {:induction false} DepthOfBounds(n: Node, t: Node, level: nat)
    requires WellFormed(n)
    ensures DepthOf(n, n, 1) == Some(1)
    ensures DepthOf(n, t, level).Some? ==>
              level <= DepthOf(n, t, level).value <= level + Depth(n) - 1
  {
    if !Is(n, t) && !IsTerminal(n) {
      DepthOfAmongBounds(n.children, t, level + 1);
    }
  }

  lemma {:induction false} DepthOfAmongBounds(cs: seq<Node>, t: Node, level: nat)
    requires forall c :: c in cs ==> WellFormed(c)
    ensures DepthOfAmong(cs, t, level).Some? ==>
              level <= DepthOfAmong(cs, t, level).value <= level + MaxDepth(cs) - 1
  {
    if cs != [] {
      assert cs[0] in cs;
      DepthOfBounds(cs[0], t, level);
      assert forall c :: c in cs[1..] ==> c in cs;
      DepthOfAmongBounds(cs[1..], t, level);
    }
  }

  /** The tree-level `depth_of` (a unique, well-formed tree): 1 for the root, None for an
      absent node, and for a present node one more than its path length, which never
      exceeds the tree's depth. */
  lemma DepthOfLaws(t: Node, x: Node)
    requires WellFormed(t) && Unique(t)
    ensures DepthOf(t, t) == Some(1)
    ensures x.id !in Ms(t) ==> DepthOf(t, x) == None
    ensures x.id in Ms(t) ==> DepthOf(t, x).Some? && 1 <= DepthOf(t, x).value <= Depth(t)
    ensures InTree(t, x) ==> DepthOf(t, x) == Some(1 + |PathOf(t, x)|)
  {
    DepthOfBounds(t, x, 1);
    FindComplete(t, x.id);
    if x.id !in Ms(t) {
      DepthOfAbsent(t, x, 1);
    } else {
      DepthOfAtPath(t, Find(t, x.id).value, x, 1);
    }
  }

  lemma MaxDepthBound(cs: seq<Node>, b: int)
    requires forall i :: 0 <= i < |cs| ==> Depth(cs[i]) <= b
    ensures cs != [] ==> MaxDepth(cs) <= b
  {
    if cs != [] {
      var i := MaxDepthAttained(cs);
    }
  }

  /** In a well-formed tree the root is a terminal exactly when it has no children, so
      `_linearize(exclude_first=True)` is empty exactly for a one-node tree. */
  lemma LinearizeRest(n: Node)
    requires WellFormed(n)
    ensures (Linearize(n, true) == []) <==> IsTerminal(n)
  {
    if n.children != [] {
      assert n.children[0] in Linearize(n.children[0]);
      assert Linearize(n, true) == Linearize(n.children[0]) + LinearizeAll(n.children[1..]);
    }
  }

  lemma MaxDepthUpdate(cs: seq<Node>, k: nat, c: Node)
    requires k < |cs|
    ensures MaxDepth(cs[k := c]) <= Max(MaxDepth(cs), Depth(c))
  {
    var cs' := cs[k := c];
    var i := MaxDepthAttained(cs');
    if i != k {
      assert cs'[i] == cs[i];
    }
  }

  /** Putting `v` at path `p` deepens the tree at most to `|p| + depth(v)`. */
  lemma {:induction false} DepthReplaceAt(n: Node, p: Path, v: Node)
    requires ValidPath(n, p)
    ensures Depth(ReplaceAt(n, p, v)) <= Max(Depth(n), |p| + Depth(v))
    decreases |p|
  {
    if p == [] {
    } else if IsTerminal(n) {
      assert IsTerminal(ReplaceAt(n, p, v));
    } else {
      var c := n.children[p[0]];
      var c' := ReplaceAt(c, p[1..], v);
      var n' := ReplaceAt(n, p, v);
      assert n' == n.(children := n.children[p[0] := c']);
      DepthReplaceAt(c, p[1..], v);
      MaxDepthUpdate(n.children, p[0], c');
      assert Depth(n') == 1 + MaxDepth(n.children[p[0] := c']);
      assert Depth(n) == 1 + MaxDepth(n.children);
      assert Depth(c) <= MaxDepth(n.children);
    }
  }

  /** A well-formed replacement keeps the tree well-formed. */
  lemma {:induction false} WellFormedAt(n: Node, p: Path)
    requires WellFormed(n) && ValidPath(n, p)
    ensures WellFormed(At(n, p))
    decreases |p|
  {
    if p != [] {
      assert n.children[p[0]] in n.children;
      WellFormedAt(n.children[p[0]], p[1..]);
    }
  }

  lemma {:induction false} WellFormedReplaceAt(n: Node, p: Path, v: Node)
    requires WellFormed(n) && WellFormed(v) && ValidPath(n, p)
    ensures WellFormed(ReplaceAt(n, p, v))
    decreases |p|
  {
    if p != [] {
      var k := p[0];
      var c := n.children[k];
      assert c in n.children;
      WellFormedReplaceAt(c, p[1..], v);
      var cs' := n.children[k := ReplaceAt(c, p[1..], v)];
      forall d | d in cs' ensures WellFormed(d) {
        var j :| 0 <= j < |cs'| && cs'[j] == d;
        if j != k {
          assert n.children[j] in n.children;
        }
      }
    }
  }

  /** A replacement whose node objects are new to the tree keeps the tree unique. */
  lemma UniqueReplaceAt(n: Node, p: Path, v: Node)
    requires Unique(n) && Unique(v) && ValidPath(n, p) && Ms(n) !! Ms(v)
    ensures Unique(ReplaceAt(n, p, v))
  {
    var n' := ReplaceAt(n, p, v);
    MsReplaceAt(n, p, v);
    forall x | x in Ms(n') ensures Ms(n')[x] == 1 {
      assert (Ms(n') + Ms(At(n, p)))[x] == (Ms(n) + Ms(v))[x];
      CountOne(n, x);
      CountOne(v, x);
    }
  }

  // ---------------------------------------------------------------------------------
  // The descendant order

  /** `<` is irreflexive and, in a unique tree, transitive; `>` is its converse; `|` is
      symmetric and holds of a node with itself. */
  lemma DescendantOrder(t: Node, p: Path, q: Path, r: Path)
    requires Unique(t) && ValidPath(t, p) && ValidPath(t, q) && ValidPath(t, r)
    ensures !Lt(At(t, p), At(t, p))
    ensures Lt(At(t, p), At(t, q)) && Lt(At(t, q), At(t, r)) ==> Lt(At(t, p), At(t, r))
    ensures Gt(At(t, q), At(t, p)) <==> Lt(At(t, p), At(t, q))
    ensures Independent(At(t, p), At(t, q)) <==> Independent(At(t, q), At(t, p))
    ensures Independent(At(t, p), At(t, p))
  {
    LtPaths(t, p, q);
    LtPaths(t, q, r);
    LtPaths(t, p, r);
    if IsPrefix(q, p) && IsPrefix(r, q) {
      assert p[..|r|] == p[..|q|][..|r|];
    }
  }

  // ---------------------------------------------------------------------------------
  // Shape decides every structural query

  /** A shape fixes the atom and, slot by slot, the shapes of the children. */
  lemma ShapeParts(a: Node, b: Node)
    requires ShapeOf(a) == ShapeOf(b)
    ensures a.value == b.value && |a.children| == |b.children|
    ensures forall j :: 0 <= j < |a.children| ==> ShapeOf(a.children[j]) == ShapeOf(b.children[j])
  {
    assert ShapeAll(a.children) == ShapeAll(b.children);
    forall j | 0 <= j < |a.children| ensures ShapeOf(a.children[j]) == ShapeOf(b.children[j]) {
      ShapeAllIndex(a.children, j);
      ShapeAllIndex(b.children, j);
    }
  }

  lemma {:induction false} ShapeAllIndex(cs: seq<Node>, j: nat)
    requires j < |cs|
    ensures ShapeAll(cs)[j] == ShapeOf(cs[j])
    decreases j
  {
    if j > 0 {
      ShapeAllIndex(cs[1..], j - 1);
    }
  }

  /** Two trees of the same shape have the same depth, value and printed form. */
  lemma ShapeAllEq(cs: seq<Node>, ds: seq<Node>)
    requires |cs| == |ds| && forall j :: 0 <= j < |cs| ==> ShapeOf(cs[j]) == ShapeOf(ds[j])
    ensures ShapeAll(cs) == ShapeAll(ds)
  {
    forall j | 0 <= j < |cs| ensures ShapeAll(cs)[j] == ShapeAll(ds)[j] {
      ShapeAllIndex(cs, j);
      ShapeAllIndex(ds, j);
    }
  }

  lemma {:induction false} SameShape(a: Node, b: Node, env: map<string, real>, sem: Semantics)
    requires ShapeOf(a) == ShapeOf(b)
    ensures Depth(a) == Depth(b)
    ensures Eval(a, env, sem) == Eval(b, env, sem)
    ensures Str(a, sem) == Str(b, sem)
  {
    ShapeParts(a, b);
    SameShapeAll(a.children, b.children, env, sem);
  }

  lemma {:induction false} SameShapeAll(cs: seq<Node>, ds: seq<Node>, env: map<string, real>, sem: Semantics)
    requires |cs| == |ds| && forall j :: 0 <= j < |cs| ==> ShapeOf(cs[j]) == ShapeOf(ds[j])
    ensures MaxDepth(cs) == MaxDepth(ds)
    ensures EvalAll(cs, env, sem) == EvalAll(ds, env, sem)
    ensures StrAll(cs, sem) == StrAll(ds, sem)
  {
    if cs != [] {
      SameShape(cs[0], ds[0], env, sem);
      assert forall j :: 0 <= j < |cs| - 1 ==> cs[1..][j] == cs[j + 1] && ds[1..][j] == ds[j + 1];
      SameShapeAll(cs[1..], ds[1..], env, sem);
    }
  }

  /** Two trees of the same shape are both well-formed or both not, and both
      parameterized or both not. */
  lemma SameShapeStructure(a: Node, b: Node)
    requires ShapeOf(a) == ShapeOf(b)
    ensures WellFormed(a) == WellFormed(b)
    ensures IsParameterized(a) == IsParameterized(b)
  {
    SameShapeWellFormed(a, b);
    SameShapeParameterized(a, b);
  }

  lemma {:induction false} SameShapeWellFormed(a: Node, b: Node)
    requires ShapeOf(a) == ShapeOf(b)
    ensures WellFormed(a) == WellFormed(b)
  {
    ShapeParts(a, b);
    forall j | 0 <= j < |a.children|
      ensures WellFormed(a.children[j]) == WellFormed(b.children[j])
    {
      SameShapeWellFormed(a.children[j], b.children[j]);
    }
    assert (forall c :: c in a.children ==> WellFormed(c)) <==> (forall j :: 0 <= j < |a.children| ==> WellFormed(a.children[j]));
    assert (forall c :: c in b.children ==> WellFormed(c)) <==> (forall j :: 0 <= j < |b.children| ==> WellFormed(b.children[j]));
  }

  lemma {:induction false} SameShapeParameterized(a: Node, b: Node)
    requires ShapeOf(a) == ShapeOf(b)
    ensures IsParameterized(a) == IsParameterized(b)
  {
    ShapeParts(a, b);
    forall j | 0 <= j < |a.children|
      ensures IsParameterized(a.children[j]) == IsParameterized(b.children[j])
    {
      SameShapeParameterized(a.children[j], b.children[j]);
    }
    assert (exists c :: c in a.children && IsParameterized(c)) <==> (exists j :: 0 <= j < |a.children| && IsParameterized(a.children[j]));
    assert (exists c :: c in b.children && IsParameterized(c)) <==> (exists j :: 0 <= j < |b.children| && IsParameterized(b.children[j]));
  }
}
