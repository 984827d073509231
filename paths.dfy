/** Positions in a node tree, and what the identity-based queries of `Node` mean in terms
    of them. A path is the list of child slots followed from the root. In a tree where no
    node object occurs twice (`Unique`), every node object has exactly one path, and
    lineage, depth-of, the descendant relation and a write into a parent object are all
    described by that path. */
module Paths {
  import opened Wrappers
  import opened Atoms
  import opened Nodes

  type Path = seq<nat>

  predicate ValidPath(n: Node, p: Path)
    decreases |p|
  {
    p == [] || (p[0] < |n.children| && ValidPath(n.children[p[0]], p[1..]))
  }

  /** The node reached by following `p`. */
  function At(n: Node, p: Path): Node
    requires ValidPath(n, p)
    decreases |p|
  {
    if p == [] then n else At(n.children[p[0]], p[1..])
  }

  /** The tree with the subtree at `p` replaced by `v`. */
  function ReplaceAt(n: Node, p: Path, v: Node): Node
    requires ValidPath(n, p)
    decreases |p|
  {
    if p == [] then v
    else n.(children := n.children[p[0] := ReplaceAt(n.children[p[0]], p[1..], v)])
  }

  predicate IsPrefix(p: Path, q: Path) {
    |p| <= |q| && q[..|p|] == p
  }

  /** Neither path leads into the subtree of the other. */
  predicate Incomparable(p: Path, q: Path) {
    !IsPrefix(p, q) && !IsPrefix(q, p)
  }

  function Init(p: Path): Path
    requires p != []
  {
    p[..|p| - 1]
  }

  function Last(p: Path): nat
    requires p != []
  {
    p[|p| - 1]
  }

  // ---------------------------------------------------------------------------------
  // Path algebra

  lemma {:induction false} AtConcat(n: Node, p: Path, q: Path)
    requires ValidPath(n, p)
    ensures ValidPath(n, p + q) <==> ValidPath(At(n, p), q)
    ensures ValidPath(n, p + q) ==> At(n, p + q) == At(At(n, p), q)
    decreases |p|
  {
    if p != [] {
      assert (p + q)[0] == p[0] && (p + q)[1..] == p[1..] + q;
      AtConcat(n.children[p[0]], p[1..], q);
    } else {
      assert p + q == q;
    }
  }

  lemma {:induction false} AtInit(n: Node, p: Path)
    requires ValidPath(n, p) && p != []
    ensures ValidPath(n, Init(p)) && Last(p) < |At(n, Init(p)).children|
    ensures At(n, p) == At(n, Init(p)).children[Last(p)]
  {
    assert p == Init(p) + [Last(p)];
    ValidPrefix(n, p, |p| - 1);
    AtConcat(n, Init(p), [Last(p)]);
    assert [Last(p)][1..] == [];
  }

  lemma {:induction false} ValidPrefix(n: Node, p: Path, k: nat)
    requires ValidPath(n, p) && k <= |p|
    ensures ValidPath(n, p[..k])
    decreases |p|
  {
    if k > 0 {
      assert p[..k][0] == p[0] && p[..k][1..] == p[1..][..k - 1];
      ValidPrefix(n.children[p[0]], p[1..], k - 1);
    }
  }

  /** Two paths through the same first slot compare like their tails. */
  lemma PrefixTail(p: Path, q: Path)
    requires p != [] && q != [] && p[0] == q[0]
    ensures IsPrefix(p, q) <==> IsPrefix(p[1..], q[1..])
  {
    if IsPrefix(p[1..], q[1..]) {
      assert q[..|p|] == [q[0]] + q[1..][..|p| - 1];
    }
    if IsPrefix(p, q) {
      assert q[1..][..|p| - 1] == q[..|p|][1..];
    }
  }

  lemma PrefixOfInit(p: Path, q: Path)
    requires q != [] && IsPrefix(p, Init(q))
    ensures IsPrefix(p, q) && p != q
  {
    assert q[..|p|] == Init(q)[..|p|];
  }

  /** After the replacement, `p` leads to the replacement. */
  lemma {:induction false} ReplaceAtThenAt(n: Node, p: Path, v: Node)
    requires ValidPath(n, p)
    ensures ValidPath(ReplaceAt(n, p, v), p) && At(ReplaceAt(n, p, v), p) == v
    decreases |p|
  {
    if p != [] {
      ReplaceAtThenAt(n.children[p[0]], p[1..], v);
    }
  }

  /** Putting back what is already there changes nothing. */
  lemma {:induction false} ReplaceAtSelf(n: Node, p: Path)
    requires ValidPath(n, p)
    ensures ReplaceAt(n, p, At(n, p)) == n
    decreases |p|
  {
    if p != [] {
      ReplaceAtSelf(n.children[p[0]], p[1..]);
      assert n.children[p[0] := n.children[p[0]]] == n.children;
    }
  }

  /** A second replacement at the same path overrides the first. */
  lemma {:induction false} ReplaceAtTwice(n: Node, p: Path, v: Node, w: Node)
    requires ValidPath(n, p)
    ensures ValidPath(ReplaceAt(n, p, v), p)
    ensures ReplaceAt(ReplaceAt(n, p, v), p, w) == ReplaceAt(n, p, w)
    decreases |p|
  {
    ReplaceAtThenAt(n, p, v);
    if p != [] {
      ReplaceAtTwice(n.children[p[0]], p[1..], v, w);
    }
  }

  /** A replacement at `p` leaves every path that does not pass through `p` valid, with
      the same node object, atom and number of children there; a path incomparable
      with `p` meets exactly the same subtree. */
  lemma {:induction false} ReplaceAtElsewhere(n: Node, p: Path, v: Node, q: Path)
    requires ValidPath(n, p) && ValidPath(n, q) && !IsPrefix(p, q)
    ensures ValidPath(ReplaceAt(n, p, v), q)
    ensures At(ReplaceAt(n, p, v), q).id == At(n, q).id
    ensures At(ReplaceAt(n, p, v), q).value == At(n, q).value
    ensures |At(ReplaceAt(n, p, v), q).children| == |At(n, q).children|
    ensures !IsPrefix(q, p) ==> At(ReplaceAt(n, p, v), q) == At(n, q)
    decreases |p|
  {
    if q != [] {
      if p[0] == q[0] {
        PrefixTail(p, q);
        PrefixTail(q, p);
        ReplaceAtElsewhere(n.children[p[0]], p[1..], v, q[1..]);
      }
    }
  }

  /** Replacements at incomparable paths commute. */
  lemma {:induction false} ReplaceAtCommute(n: Node, p: Path, v: Node, q: Path, w: Node)
    requires ValidPath(n, p) && ValidPath(n, q) && Incomparable(p, q)
    ensures ValidPath(ReplaceAt(n, p, v), q) && ValidPath(ReplaceAt(n, q, w), p)
    ensures ReplaceAt(ReplaceAt(n, p, v), q, w) == ReplaceAt(ReplaceAt(n, q, w), p, v)
    decreases |p|
  {
    ReplaceAtElsewhere(n, p, v, q);
    ReplaceAtElsewhere(n, q, w, p);
    if p[0] == q[0] {
      PrefixTail(p, q);
      PrefixTail(q, p);
      ReplaceAtCommute(n.children[p[0]], p[1..], v, q[1..], w);
    }
  }

  // ---------------------------------------------------------------------------------
  // Identities along paths

  lemma {:induction false} MsAllSplit(cs: seq<Node>, k: nat)
    requires k < |cs|
    ensures MsAll(cs) == MsAll(cs[..k]) + Ms(cs[k]) + MsAll(cs[k + 1..])
    decreases k
  {
    if k > 0 {
      MsAllSplit(cs[1..], k - 1);
      assert cs[1..][..k - 1] == cs[1..k];
      assert cs[1..][k - 1] == cs[k];
      assert cs[1..][k..] == cs[k + 1..];
      assert cs[..k][0] == cs[0] && cs[..k][1..] == cs[1..k];
    } else {
      assert cs[1..] == cs[k + 1..];
    }
  }

  lemma {:induction false} MsAllAppend(cs: seq<Node>, c: Node)
    ensures MsAll(cs + [c]) == MsAll(cs) + Ms(c)
  {
    if cs != [] {
      assert (cs + [c])[1..] == cs[1..] + [c];
      MsAllAppend(cs[1..], c);
    } else {
      assert [c][1..] == [];
    }
  }

  /** Replacing one child changes the identities by exactly that child's. */
  lemma MsAllUpdate(cs: seq<Node>, k: nat, c: Node)
    requires k < |cs|
    ensures MsAll(cs[k := c]) + Ms(cs[k]) == MsAll(cs) + Ms(c)
  {
    MsAllSplit(cs, k);
    MsAllSplit(cs[k := c], k);
    assert cs[k := c][..k] == cs[..k];
    assert cs[k := c][k + 1..] == cs[k + 1..];
  }

  /** Two different children hold disjoint shares of the identities. */
  lemma MsAllTwo(cs: seq<Node>, j: nat, k: nat)
    requires j < k < |cs|
    ensures Ms(cs[j]) + Ms(cs[k]) <= MsAll(cs)
  {
    MsAllSplit(cs, k);
    MsAllSplit(cs[..k], j);
    assert cs[..k][j] == cs[j];
  }

  lemma MsAllOne(cs: seq<Node>, k: nat)
    requires k < |cs|
    ensures Ms(cs[k]) <= MsAll(cs)
  {
    MsAllSplit(cs, k);
  }

  /** The identities below a node are among the tree's; below a proper descendant they
      come on top of the tree root's own. */
  lemma {:induction false} MsAt(n: Node, p: Path)
    requires ValidPath(n, p)
    ensures Ms(At(n, p)) <= Ms(n)
    ensures p != [] ==> Ms(At(n, p)) + multiset{n.id} <= Ms(n)
    decreases |p|
  {
    if p != [] {
      MsAt(n.children[p[0]], p[1..]);
      MsAllOne(n.children, p[0]);
    }
  }

  /** The identity count law of a replacement. */
  lemma {:induction false} MsReplaceAt(n: Node, p: Path, v: Node)
    requires ValidPath(n, p)
    ensures Ms(ReplaceAt(n, p, v)) + Ms(At(n, p)) == Ms(n) + Ms(v)
    decreases |p|
  {
    if p != [] {
      var c := n.children[p[0]];
      var c' := ReplaceAt(c, p[1..], v);
      MsReplaceAt(c, p[1..], v);
      MsAllUpdate(n.children, p[0], c');
      assert ReplaceAt(n, p, v) == n.(children := n.children[p[0] := c']);
      assert At(n, p) == At(c, p[1..]);
      var ch' := n.children[p[0] := c'];
      Cancel(MsAll(ch'), MsAll(n.children), Ms(c), Ms(c'), Ms(At(c, p[1..])), Ms(v));
      assert Ms(ReplaceAt(n, p, v)) == multiset{n.id} + MsAll(ch');
      assert MsAll(ch') + Ms(At(n, p)) == MsAll(n.children) + Ms(v);
      Prepend(multiset{n.id}, MsAll(ch'), Ms(At(n, p)), MsAll(n.children), Ms(v));
    }
  }

  lemma Cancel<T>(a: multiset<T>, b: multiset<T>, c: multiset<T>, c': multiset<T>, d: multiset<T>, w: multiset<T>)
    requires a + c == b + c' && c' + d == c + w
    ensures a + d == b + w
  {
    forall x ensures (a + d)[x] == (b + w)[x] {
      assert (a + c)[x] == (b + c')[x];
      assert (c' + d)[x] == (c + w)[x];
    }
  }

  lemma Prepend<T>(e: multiset<T>, a: multiset<T>, d: multiset<T>, b: multiset<T>, w: multiset<T>)
    requires a + d == b + w
    ensures e + a + d == e + b + w
  {
    forall x ensures (e + a + d)[x] == (e + b + w)[x] {
      assert (a + d)[x] == (b + w)[x];
    }
  }

  /** The count a unique tree gives each of its identities. */
  lemma CancelRight<T>(a: multiset<T>, b: multiset<T>, c: multiset<T>)
    requires a + c == b + c
    ensures a == b
  {
    forall x ensures a[x] == b[x] {
      assert (a + c)[x] == (b + c)[x];
    }
  }

  lemma CountOne(n: Node, x: NodeId)
    ensures Unique(n) && x in Ms(n) ==> Ms(n)[x] == 1
  {
  }

  lemma UniqueSub(n: Node, m: Node)
    requires Unique(n) && Ms(m) <= Ms(n)
    ensures Unique(m)
  {
    forall x | x in Ms(m) ensures Ms(m)[x] == 1 {
      assert Ms(m)[x] <= Ms(n)[x];
    }
  }

  lemma UniqueAt(n: Node, p: Path)
    requires Unique(n) && ValidPath(n, p)
    ensures Unique(At(n, p))
  {
    MsAt(n, p);
    UniqueSub(n, At(n, p));
  }

  lemma InMsAt(n: Node, p: Path)
    requires ValidPath(n, p)
    ensures At(n, p).id in Ms(n)
  {
    MsAt(n, p);
  }

  /** In a unique tree a node object has one path. */
  lemma {:induction false} UniquePaths(n: Node, p: Path, q: Path)
    requires Unique(n) && ValidPath(n, p) && ValidPath(n, q)
    requires At(n, p).id == At(n, q).id
    ensures p == q
    decreases |p|
  {
    if p == [] && q != [] {
      MsAt(n, q);
      CountOne(n, n.id);
      assert false;
    } else if p != [] && q == [] {
      MsAt(n, p);
      CountOne(n, n.id);
      assert false;
    } else if p != [] {
      if p[0] != q[0] {
        var x := At(n, p).id;
        var j, k := if p[0] < q[0] then p[0] else q[0], if p[0] < q[0] then q[0] else p[0];
        MsAllTwo(n.children, j, k);
        InMsAt(n.children[p[0]], p[1..]);
        InMsAt(n.children[q[0]], q[1..]);
        CountOne(n, x);
        assert false;
      } else {
        MsAllOne(n.children, p[0]);
        UniqueSub(n, n.children[p[0]]);
        UniquePaths(n.children[p[0]], p[1..], q[1..]);
      }
    }
  }

  // ---------------------------------------------------------------------------------
  // Finding the path of a node object

  /** The first path, in pre-order, leading to the node object `x`. */
  function Find(n: Node, x: NodeId): (r: Option<Path>)
    ensures r.Some? ==> ValidPath(n, r.value) && At(n, r.value).id == x
  {
    if n.id == x then Some([])
    else
      match FindAmong(n.children, x)
      case None => None
      case Some(p) => assert p[1..] == p[1..]; Some(p)
  }

  function FindAmong(cs: seq<Node>, x: NodeId): (r: Option<Path>)
    ensures r.Some? ==> |r.value| > 0 && r.value[0] < |cs|
    ensures r.Some? ==> ValidPath(cs[r.value[0]], r.value[1..]) && At(cs[r.value[0]], r.value[1..]).id == x
  {
    if cs == [] then None
    else
      match Find(cs[0], x)
      case Some(p) => Some([0] + p)
      case None =>
        match FindAmong(cs[1..], x)
        case None => None
        case Some(p) =>
          assert cs[1..][p[0]] == cs[p[0] + 1];
          Some([p[0] + 1] + p[1..])
  }

  /** Find succeeds exactly for the identities of the tree. */
  lemma {:induction false} FindComplete(n: Node, x: NodeId)
    ensures Find(n, x).Some? <==> x in Ms(n)
  {
    if n.id != x {
      FindAmongComplete(n.children, x);
    }
  }

  lemma {:induction false} FindAmongComplete(cs: seq<Node>, x: NodeId)
    ensures FindAmong(cs, x).Some? <==> x in MsAll(cs)
  {
    if cs != [] {
      FindComplete(cs[0], x);
      FindAmongComplete(cs[1..], x);
    }
  }

  /** In a unique tree the path of a node object is the one Find gives. */
  lemma FindUnique(n: Node, p: Path)
    requires Unique(n) && ValidPath(n, p)
    ensures Find(n, At(n, p).id) == Some(p)
  {
    InMsAt(n, p);
    FindComplete(n, At(n, p).id);
    UniquePaths(n, p, Find(n, At(n, p).id).value);
  }

  // ---------------------------------------------------------------------------------
  // What the identity-based queries mean

  lemma {:induction false} IndexOfAt(cs: seq<Node>, k: nat)
    requires k < |cs|
    requires forall j :: 0 <= j < k ==> cs[j].id != cs[k].id
    ensures IndexOf(cs, cs[k]) == k
    decreases k
  {
    if k > 0 {
      IndexOfAt(cs[1..], k - 1);
    }
  }

  /** In a unique node the children are distinct objects. */
  lemma ChildrenDistinct(n: Node, j: nat, k: nat)
    requires Unique(n) && j < k < |n.children|
    ensures n.children[j].id != n.children[k].id
  {
    MsAllTwo(n.children, j, k);
    CountOne(n, n.children[j].id);
    if n.children[j].id == n.children[k].id {
      assert false;
    }
  }

  lemma IndexOfChild(n: Node, k: nat)
    requires Unique(n) && k < |n.children|
    ensures IndexOf(n.children, n.children[k]) == k
  {
    forall j | 0 <= j < k ensures n.children[j].id != n.children[k].id {
      ChildrenDistinct(n, j, k);
    }
    IndexOfAt(n.children, k);
  }

  lemma {:induction false} LineageAbsent(n: Node, t: Node, par: Option<Node>)
    requires t.id !in Ms(n)
    ensures GetNodeLineage(n, t, par) == Lineage(None, None, None)
  {
    LineageAmongAbsent(n.children, t, n);
  }

  lemma {:induction false} LineageAmongAbsent(cs: seq<Node>, t: Node, par: Node)
    requires t.id !in MsAll(cs)
    ensures LineageAmong(cs, t, par) == Lineage(None, None, None)
  {
    if cs != [] {
      LineageAbsent(cs[0], t, Some(par));
      LineageAmongAbsent(cs[1..], t, par);
    }
  }

  lemma {:induction false} LineageAmongIndex(cs: seq<Node>, t: Node, par: Node, k: nat)
    requires k < |cs|
    requires forall j :: 0 <= j < k ==> t.id !in Ms(cs[j])
    requires GetNodeLineage(cs[k], t, Some(par)).node.Some?
    ensures LineageAmong(cs, t, par) == GetNodeLineage(cs[k], t, Some(par))
    decreases k
  {
    if k > 0 {
      LineageAbsent(cs[0], t, Some(par));
      LineageAmongIndex(cs[1..], t, par, k - 1);
    }
  }

  /** One step down a path of a unique tree: the node at the end of `p` is neither the
      root nor inside an earlier child, and the child taken is a unique tree. */
  lemma StepDown(n: Node, p: Path)
    requires Unique(n) && ValidPath(n, p) && p != []
    ensures n.id != At(n, p).id
    ensures forall j :: 0 <= j < p[0] ==> At(n, p).id !in Ms(n.children[j])
    ensures Unique(n.children[p[0]])
  {
    var k := p[0];
    var c := n.children[k];
    var x := At(n, p).id;
    MsAt(n, p);
    CountOne(n, n.id);
    if n.id == x {
      assert false;
    }
    MsAllOne(n.children, k);
    UniqueSub(n, c);
    forall j | 0 <= j < k ensures x !in Ms(n.children[j]) {
      MsAllTwo(n.children, j, k);
      InMsAt(c, p[1..]);
      CountOne(n, x);
      if x in Ms(n.children[j]) {
        assert false;
      }
    }
  }

  /** `get_node_lineage` on a unique tree, for a node object at path `p`: the node itself,
      the node at the parent path and the last slot of `p`; for the root, the given parent
      and the root's slot in it. */
  lemma {:induction false} LineageAtPath(n: Node, p: Path, t: Node, par: Option<Node>)
    requires Unique(n) && ValidPath(n, p) && At(n, p).id == t.id
    ensures p == [] ==>
              GetNodeLineage(n, t, par) ==
              Lineage(Some(n), par, if par.Some? then Some(IndexOf(par.value.children, n)) else None)
    ensures p != [] ==>
              && ValidPath(n, Init(p))
              && GetNodeLineage(n, t, par) == Lineage(Some(At(n, p)), Some(At(n, Init(p))), Some(Last(p)))
    decreases |p|
  {
    if p != [] {
      AtInit(n, p);
      var k := p[0];
      var c := n.children[k];
      StepDown(n, p);
      LineageAtPath(c, p[1..], t, Some(n));
      LineageAmongIndex(n.children, t, n, k);
      if p[1..] == [] {
        IndexOfChild(n, k);
        assert Init(p) == [];
      } else {
        assert Init(p) == [k] + Init(p[1..]);
        assert Last(p) == Last(p[1..]);
        assert Init(p)[1..] == Init(p[1..]);
      }
    }
  }

  lemma {:induction false} DepthOfAbsent(n: Node, t: Node, level: nat)
    requires t.id !in Ms(n)
    ensures DepthOf(n, t, level).None?
  {
    DepthOfAmongAbsent(n.children, t, level + 1);
  }

  lemma {:induction false} DepthOfAmongAbsent(cs: seq<Node>, t: Node, level: nat)
    requires t.id !in MsAll(cs)
    ensures DepthOfAmong(cs, t, level).None?
  {
    if cs != [] {
      DepthOfAbsent(cs[0], t, level);
      DepthOfAmongAbsent(cs[1..], t, level);
    }
  }

  lemma {:induction false} DepthOfAmongIndex(cs: seq<Node>, t: Node, level: nat, k: nat)
    requires k < |cs|
    requires forall j :: 0 <= j < k ==> t.id !in Ms(cs[j])
    requires DepthOf(cs[k], t, level).Some?
    ensures DepthOfAmong(cs, t, level) == DepthOf(cs[k], t, level)
    decreases k
  {
    if k > 0 {
      DepthOfAbsent(cs[0], t, level);
      DepthOfAmongIndex(cs[1..], t, level, k - 1);
    }
  }

  /** `depth_of` on a unique tree is the level plus the length of the node's path. */
  lemma {:induction false} DepthOfAtPath(n: Node, p: Path, t: Node, level: nat)
    requires Unique(n) && ValidPath(n, p) && At(n, p).id == t.id
    ensures DepthOf(n, t, level) == Some(level + |p|)
    decreases |p|
  {
    if p != [] {
      var k := p[0];
      var c := n.children[k];
      StepDown(n, p);
      DepthOfAtPath(c, p[1..], t, level + 1);
      DepthOfAmongIndex(n.children, t, level + 1, k);
    }
  }

  /** `a < b` holds exactly when `a`'s object occurs strictly below `b`. */
  lemma {:induction false} LtMeaning(a: Node, b: Node)
    ensures Lt(a, b) <==> a.id != b.id && a.id in MsAll(b.children)
  {
    LtAmongMeaning(a, b.children);
  }

  lemma {:induction false} LtAmongMeaning(a: Node, cs: seq<Node>)
    ensures LtAmong(a, cs) <==> a.id in MsAll(cs)
  {
    if cs != [] {
      LtMeaning(a, cs[0]);
      LtAmongMeaning(a, cs[1..]);
    }
  }

  /** On a unique tree, `<` between the nodes at two paths is the strict-prefix order. */
  lemma LtPaths(n: Node, p: Path, q: Path)
    requires Unique(n) && ValidPath(n, p) && ValidPath(n, q)
    ensures Lt(At(n, p), At(n, q)) <==> IsPrefix(q, p) && p != q
  {
    var a, b := At(n, p), At(n, q);
    LtMeaning(a, b);
    UniqueAt(n, q);
    if Lt(a, b) {
      assert a.id in Ms(b);
      FindComplete(b, a.id);
      var r := Find(b, a.id).value;
      AtConcat(n, q, r);
      UniquePaths(n, p, q + r);
      assert r != [];
      assert (q + r)[..|q|] == q;
    }
    if IsPrefix(q, p) && p != q {
      var r := p[|q|..];
      assert p == q + r;
      AtConcat(n, q, r);
      assert r != [];
      MsAt(b, r);
      InMsAt(b, r);
      if a.id == b.id {
        UniquePaths(n, p, q);
      }
    }
  }

  /** On a unique tree, two different nodes are independent exactly when their paths are
      incomparable. */
  lemma IndependentPaths(n: Node, p: Path, q: Path)
    requires Unique(n) && ValidPath(n, p) && ValidPath(n, q)
    ensures (Independent(At(n, p), At(n, q)) && !Is(At(n, p), At(n, q))) <==> Incomparable(p, q)
  {
    LtPaths(n, p, q);
    LtPaths(n, q, p);
    if At(n, p).id == At(n, q).id {
      UniquePaths(n, p, q);
    }
  }

  /** Every node of a unique tree other than the root has a non-empty path. */
  lemma RootPath(n: Node, p: Path)
    requires Unique(n) && ValidPath(n, p)
    ensures (p == []) <==> Is(At(n, p), n)
  {
    if Is(At(n, p), n) {
      UniquePaths(n, p, []);
    }
  }

  // ---------------------------------------------------------------------------------
  // A write into a parent object

  lemma {:induction false} SetChildByIdAbsent(n: Node, pid: NodeId, i: nat, v: Node)
    requires pid !in Ms(n)
    ensures SetChildById(n, pid, i, v) == n
  {
    SetChildByIdAllAbsent(n.children, pid, i, v);
  }

  lemma {:induction false} SetChildByIdAllAbsent(cs: seq<Node>, pid: NodeId, i: nat, v: Node)
    requires pid !in MsAll(cs)
    ensures SetChildByIdAll(cs, pid, i, v) == cs
  {
    if cs != [] {
      SetChildByIdAbsent(cs[0], pid, i, v);
      SetChildByIdAllAbsent(cs[1..], pid, i, v);
    }
  }

  lemma {:induction false} SetChildByIdAllIndex(cs: seq<Node>, pid: NodeId, i: nat, v: Node, k: nat)
    requires k < |cs|
    ensures SetChildByIdAll(cs, pid, i, v)[k] == SetChildById(cs[k], pid, i, v)
    decreases k
  {
    if k > 0 {
      SetChildByIdAllIndex(cs[1..], pid, i, v, k - 1);
    }
  }

  /** Writing slot `i` of the node object `pid`, which occurs once in the tree at path
      `pp`, is the replacement at `pp + [i]`. */
  lemma {:induction false} SetChildByIdAtPath(n: Node, pp: Path, i: nat, v: Node)
    requires ValidPath(n, pp) && Ms(n)[At(n, pp).id] == 1
    requires i < |At(n, pp).children|
    ensures ValidPath(n, pp + [i])
    ensures SetChildById(n, At(n, pp).id, i, v) == ReplaceAt(n, pp + [i], v)
    decreases |pp|
  {
    var pid := At(n, pp).id;
    AtConcat(n, pp, [i]);
    assert [i][1..] == [];
    if pp == [] {
      assert [i][0] == i;
    } else {
      var k := pp[0];
      var c := n.children[k];
      assert n.id != pid by {
        MsAt(n, pp);
      }
      MsAllOne(n.children, k);
      InMsAt(c, pp[1..]);
      SetChildByIdAtPath(c, pp[1..], i, v);
      assert (pp + [i])[0] == k && (pp + [i])[1..] == pp[1..] + [i];
      var lhs := SetChildByIdAll(n.children, pid, i, v);
      var rhs := n.children[k := ReplaceAt(c, pp[1..] + [i], v)];
      forall j | 0 <= j < |n.children| ensures lhs[j] == rhs[j] {
        SetChildByIdAllIndex(n.children, pid, i, v, j);
        if j != k {
          var lo, hi := if j < k then j else k, if j < k then k else j;
          MsAllTwo(n.children, lo, hi);
          SetChildByIdAbsent(n.children[j], pid, i, v);
        }
      }
      assert lhs == rhs;
    }
  }

  // ---------------------------------------------------------------------------------
  // Membership of a node value in a tree

  /** `x` is a node of the tree `t`: its object occurs in `t`, and the subtree there is `x`. */
  ghost predicate InTree(t: Node, x: Node) {
    var f := Find(t, x.id);
    f.Some? && At(t, f.value) == x
  }

  /** Where the node `x` sits in `t`. */
  ghost function PathOf(t: Node, x: Node): (p: Path)
    requires InTree(t, x)
    ensures ValidPath(t, p) && At(t, p) == x
  {
    Find(t, x.id).value
  }

  /** In a unique tree every node at a path is a node of the tree, with that path. */
  lemma InTreeAt(t: Node, p: Path)
    requires Unique(t) && ValidPath(t, p)
    ensures InTree(t, At(t, p)) && PathOf(t, At(t, p)) == p
  {
    FindUnique(t, p);
  }

  /** A node of a unique tree other than `q`'s node that is not below `q`'s node holds no
      identity of `q`'s subtree; in particular the node at `q` is nowhere inside it. */
  lemma NotInside(t: Node, p: Path, q: Path)
    requires Unique(t) && ValidPath(t, p) && ValidPath(t, q) && !IsPrefix(p, q)
    ensures At(t, q).id !in Ms(At(t, p))
  {
    var x := At(t, q).id;
    if x in Ms(At(t, p)) {
      FindComplete(At(t, p), x);
      var r := Find(At(t, p), x).value;
      AtConcat(t, p, r);
      UniquePaths(t, q, p + r);
      assert false;
    }
  }
}
