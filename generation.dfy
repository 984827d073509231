/** Initial populations: `PopulationGenerator` (GROW, FULL and RAMPED half-and-half) and
    the older `Populator`, which validates its configuration up front. */
module Generation {
  import opened Wrappers
  import opened Atoms
  import opened Nodes
  import opened Trees
  import opened Numerics

  /** The generation methods; `Unrecognised` stands for any other value handed in. */
  datatype Method = Grow | Full | Ramped | Unrecognised

  // ---------------------------------------------------------------------------------
  // The integer arithmetic of RAMPED

  /** `(n_local, n_res)`: `floor(size / (maxDepth - 1))` trees per depth stratum and the
      residue; the division by zero for `maxDepth == 1` is the caller's error case. */
  function RampedSplit(size: int, maxDepth: int): (r: (int, int))
    requires maxDepth != 1
    ensures r.0 * (maxDepth - 1) + r.1 == size
    ensures maxDepth >= 2 && size >= 0 ==> r.0 >= 0 && 0 <= r.1 < maxDepth - 1
    ensures maxDepth < 1 && size >= 1 ==> r.0 < 0 && r.1 <= 0
  {
    var nDiv := maxDepth - 1;
    var nLocal := FloorDiv(size, nDiv);
    (nLocal, size - nLocal * nDiv)
  }

  /** The depths of the strata part of a RAMPED population: `n` trees of depth `lo`, then
      `n` of depth `lo + 1`, and so on below `hi`. */
  function Blocks(n: nat, lo: int, hi: int): (r: seq<int>)
    ensures |r| == if lo <= hi then n * (hi - lo) else 0
    ensures forall k :: 0 <= k < |r| ==> lo <= r[k] < hi
    decreases hi - lo
  {
    if hi <= lo then []
    else
      var b := Blocks(n, lo, hi - 1);
      assert n * (hi - 1 - lo) + n == n * (hi - lo);
      b + seq(n, _ => hi - 1)
  }

  lemma {:induction false} ConstantCount(n: nat, v: int, w: int)
    ensures multiset(seq(n, _ => v))[w] == if w == v then n else 0
  {
    if n > 0 {
      ConstantCount(n - 1, v, w);
      assert seq(n, _ => v) == seq(n - 1, _ => v) + [v];
    }
  }

  /** Every depth stratum gets the same number of trees. */
  lemma {:induction false} BlocksCount(n: nat, lo: int, hi: int, d: int)
    ensures multiset(Blocks(n, lo, hi))[d] == if lo <= d < hi then n else 0
    decreases hi - lo
  {
    if lo < hi {
      BlocksCount(n, lo, hi - 1, d);
      ConstantCount(n, hi - 1, d);
      assert Blocks(n, lo, hi) == Blocks(n, lo, hi - 1) + seq(n, _ => hi - 1);
    }
  }

  /** The strata come in order of depth. */
  lemma BlocksSorted(n: nat, lo: int, hi: int, i: nat, j: nat)
    requires i <= j < |Blocks(n, lo, hi)|
    ensures Blocks(n, lo, hi)[i] <= Blocks(n, lo, hi)[j]
    decreases hi - lo
  {
    if lo < hi {
      var b := Blocks(n, lo, hi - 1);
      assert Blocks(n, lo, hi) == b + seq(n, _ => hi - 1);
      if j < |b| {
        BlocksSorted(n, lo, hi - 1, i, j);
      }
    }
  }

  // ---------------------------------------------------------------------------------
  // The three policies

  /** The configurations under which `ParseTree.random` cannot fail. */
  predicate Buildable(maxDepth: int, terminals: seq<TerminalAtom>, operators: seq<OperatorAtom>, forceTrivial: bool) {
    |terminals| > 0 && (maxDepth >= 2 || forceTrivial) && (maxDepth < 2 || operators != [])
  }

  /** GROW: `size` trees from `ParseTree.random`. */
  method GrowPopulation(size: nat, maxDepth: int, terminals: seq<TerminalAtom>, operators: seq<OperatorAtom>, forceTrivial: bool)
      returns (r: Result<seq<ParseTree>>)
    ensures r.Err? ==> size > 0 && r.error == (if maxDepth < 2 && !forceTrivial then InvalidDepth else IndexError)
    ensures Buildable(maxDepth, terminals, operators, forceTrivial) ==> r.Ok?
    ensures r.Ok? ==> |r.value| == size && (forall t | t in r.value :: fresh(t)) && AllValid(r.value)
    ensures r.Ok? ==> forall t | t in r.value :: Depth(t.root) <= Max(maxDepth, 1)
    ensures r.Ok? ==> forall t, x | t in r.value && x in Ms(t.root) :: fresh(x)
  {
    var population: seq<ParseTree> := [];
    for i := 0 to size
      invariant |population| == i
      invariant forall t | t in population :: fresh(t) && t.Valid() && Depth(t.root) <= Max(maxDepth, 1)
      invariant forall t, x | t in population && x in Ms(t.root) :: fresh(x)
    {
      var t := ParseTree.Random(maxDepth, terminals, operators, forceTrivial);
      if t.Err? {
        return Err(t.error);
      }
      population := population + [t.value];
    }
    return Ok(population);
  }

  /** FULL: draws trees until `size` of them reach exactly `maxDepth`, discarding the
      others. The source loops without bound; here at most `fuel` draws are made. */
  method FullPopulation(size: nat, maxDepth: int, terminals: seq<TerminalAtom>, operators: seq<OperatorAtom>, forceTrivial: bool, fuel: nat)
      returns (r: Result<seq<ParseTree>>)
    requires size >= 1
    ensures r.Err? ==> r.error in {Exhausted, IndexError, InvalidDepth}
    ensures r.Err? && r.error == InvalidDepth ==> maxDepth < 2 && !forceTrivial
    ensures r.Err? && Buildable(maxDepth, terminals, operators, forceTrivial) ==> r.error == Exhausted
    ensures r.Ok? ==> |r.value| == size && (forall t | t in r.value :: fresh(t)) && AllValid(r.value)
    ensures r.Ok? ==> forall t | t in r.value :: Depth(t.root) == maxDepth
  {
    var population: seq<ParseTree> := [];
    var attempts := 0;
    while attempts < fuel
      invariant |population| < size
      invariant forall t | t in population :: fresh(t) && t.Valid() && Depth(t.root) == maxDepth
    {
      var t := ParseTree.Random(maxDepth, terminals, operators, forceTrivial);
      if t.Err? {
        return Err(t.error);
      }
      if Depth(t.value.root) == maxDepth {
        population := population + [t.value];
      }
      if |population| == size {
        return Ok(population);
      }
      attempts := attempts + 1;
    }
    return Err(Exhausted);
  }

  /** The strata part of RAMPED: `n` FULL trees for every depth from 2 to `maxDepth`. */
  method StrataPopulation(n: nat, maxDepth: int, terminals: seq<TerminalAtom>, operators: seq<OperatorAtom>, forceTrivial: bool, fuel: nat)
      returns (r: Result<seq<ParseTree>>)
    requires n >= 1
    ensures r.Err? ==> r.error in {Exhausted, IndexError}
    ensures r.Ok? ==> (forall t | t in r.value :: fresh(t)) && AllValid(r.value)
    ensures r.Ok? ==> |r.value| == |Blocks(n, 2, maxDepth + 1)|
    ensures r.Ok? ==> forall k :: 0 <= k < |r.value| ==> Depth(r.value[k].root) == Blocks(n, 2, maxDepth + 1)[k]
  {
    var population: seq<ParseTree> := [];
    if maxDepth < 2 {
      return Ok(population);
    }
    for depth := 2 to maxDepth + 1
      invariant |population| == |Blocks(n, 2, depth)|
      invariant forall k :: 0 <= k < |population| ==> Depth(population[k].root) == Blocks(n, 2, depth)[k]
      invariant forall t | t in population :: fresh(t) && t.Valid()
    {
      var sub := FullPopulation(n, depth, terminals, operators, forceTrivial, fuel);
      if sub.Err? {
        return Err(sub.error);
      }
      assert Blocks(n, 2, depth + 1) == Blocks(n, 2, depth) + seq(n, _ => depth);
      population := population + sub.value;
    }
    return Ok(population);
  }

  /** The residue part of RAMPED: one FULL tree of each depth in `depths`, in order. */
  method ResiduePopulation(depths: seq<int>, terminals: seq<TerminalAtom>, operators: seq<OperatorAtom>, forceTrivial: bool, fuel: nat)
      returns (r: Result<seq<ParseTree>>)
    requires forall i :: 0 <= i < |depths| ==> depths[i] >= 2
    ensures r.Err? ==> r.error in {Exhausted, IndexError}
    ensures r.Ok? ==> (forall t | t in r.value :: fresh(t)) && AllValid(r.value)
    ensures r.Ok? ==> |r.value| == |depths|
    ensures r.Ok? ==> forall k :: 0 <= k < |depths| ==> Depth(r.value[k].root) == depths[k]
  {
    var population: seq<ParseTree> := [];
    for i := 0 to |depths|
      invariant |population| == i
      invariant forall k :: 0 <= k < i ==> Depth(population[k].root) == depths[k]
      invariant forall t | t in population :: fresh(t) && t.Valid()
    {
      var one := FullPopulation(1, depths[i], terminals, operators, forceTrivial, fuel);
      if one.Err? {
        return Err(one.error);
      }
      population := population + one.value;
    }
    return Ok(population);
  }

  /** RAMPED half-and-half: `n_local` FULL trees for every depth from 2 to `maxDepth`,
      then one FULL tree for each of `n_res` distinct depths drawn from those strata. */
  method RampedPopulation(size: nat, maxDepth: int, terminals: seq<TerminalAtom>, operators: seq<OperatorAtom>, forceTrivial: bool, fuel: nat)
      returns (r: Result<seq<ParseTree>>)
    requires size >= 1
    ensures maxDepth == 1 ==> r == Err(ZeroDivisionError)
    ensures r.Err? ==> r.error in {ZeroDivisionError, ValueError, Exhausted, IndexError}
    ensures r.Ok? ==> (forall t | t in r.value :: fresh(t)) && AllValid(r.value)
    ensures r.Ok? && maxDepth >= 2 ==> |r.value| == size
    ensures r.Ok? && maxDepth >= 2 ==> forall t | t in r.value :: 2 <= Depth(t.root) <= maxDepth
    ensures r.Ok? && maxDepth >= 2 ==>
              var strata := Blocks(RampedSplit(size, maxDepth).0, 2, maxDepth + 1);
              && |strata| <= size
              && (forall k :: 0 <= k < |strata| ==> Depth(r.value[k].root) == strata[k])
              && (forall i, j :: |strata| <= i < j < size ==> Depth(r.value[i].root) != Depth(r.value[j].root))
    ensures r.Ok? && maxDepth < 1 ==> r.value == []
    ensures maxDepth < 1 && RampedSplit(size, maxDepth).1 < 0 ==> r == Err(ValueError)
  {
    if maxDepth == 1 {
      return Err(ZeroDivisionError);
    }
    var split := RampedSplit(size, maxDepth);
    var nLocal, nRes := split.0, split.1;
    var strata: seq<ParseTree> := [];
    if nLocal > 0 {
      var s := StrataPopulation(nLocal, maxDepth, terminals, operators, forceTrivial, fuel);
      if s.Err? {
        return Err(s.error);
      }
      strata := s.value;
    }
    ghost var layout := Blocks(if nLocal > 0 then nLocal else 0, 2, maxDepth + 1);
    assert |strata| == |layout|;
    assert forall k :: 0 <= k < |strata| ==> Depth(strata[k].root) == layout[k];
    var rest := ResidueDraw(nRes, maxDepth, terminals, operators, forceTrivial, fuel);
    if rest.Err? {
      return Err(rest.error);
    }
    var population := strata + rest.value;
    assert forall k :: 0 <= k < |rest.value| ==> population[|strata| + k] == rest.value[k];
    return Ok(population);
  }

  /** The residue of RAMPED: `n_res` distinct depths sampled from `range(2, maxDepth + 1)`,
      one FULL tree of each; a sample larger than the range (or negative) is refused. */
  method ResidueDraw(nRes: int, maxDepth: int, terminals: seq<TerminalAtom>, operators: seq<OperatorAtom>, forceTrivial: bool, fuel: nat)
      returns (r: Result<seq<ParseTree>>)
    ensures (nRes < 0 || nRes > |Range(2, maxDepth + 1)|) ==> r == Err(ValueError)
    ensures r.Err? ==> r.error in {ValueError, Exhausted, IndexError}
    ensures r.Ok? ==> (forall t | t in r.value :: fresh(t)) && AllValid(r.value)
    ensures r.Ok? ==> |r.value| == nRes
    ensures r.Ok? ==> forall t | t in r.value :: 2 <= Depth(t.root) <= maxDepth
    ensures r.Ok? ==> forall i, j :: 0 <= i < j < |r.value| ==> Depth(r.value[i].root) != Depth(r.value[j].root)
  {
    var depths := Range(2, maxDepth + 1);
    if nRes < 0 || nRes > |depths| {
      return Err(ValueError);
    }
    ghost var sample := Range(2, 2 + nRes);
    forall i | 0 <= i < nRes
      ensures sample[i] in depths
    {
      assert depths[i] == sample[i];
    }
    var residue: seq<int> :| && |residue| == nRes
                             && (forall i :: 0 <= i < nRes ==> residue[i] in depths)
                             && (forall i, j :: 0 <= i < j < nRes ==> residue[i] != residue[j]);
    r := ResiduePopulation(residue, terminals, operators, forceTrivial, fuel);
  }

  // ---------------------------------------------------------------------------------
  // PopulationGenerator

  class PopulationGenerator {
    const terminals: seq<TerminalAtom>
    const operators: seq<OperatorAtom>

    /** Both atom sets are non-empty. */
    predicate Valid() {
      |terminals| > 0 && |operators| > 0
    }

    constructor (terminals: seq<TerminalAtom>, operators: seq<OperatorAtom>)
      requires |terminals| > 0 && |operators| > 0
      ensures this.terminals == terminals && this.operators == operators && Valid()
    {
      this.terminals := terminals;
      this.operators := operators;
    }

    /** `PopulationGenerator(terminal_set, operator_set)`: an empty terminal set is refused
        first, then an empty operator set. */
    static method Create(terminals: seq<TerminalAtom>, operators: seq<OperatorAtom>)
        returns (r: Result<PopulationGenerator>)
      ensures terminals == [] ==> r == Err(InvalidTerminalSetSize)
      ensures terminals != [] && operators == [] ==> r == Err(InvalidOperatorSetSize)
      ensures terminals != [] && operators != [] ==>
                && r.Ok? && fresh(r.value) && r.value.Valid()
                && r.value.terminals == terminals && r.value.operators == operators
    {
      if |terminals| == 0 {
        return Err(InvalidTerminalSetSize);
      }
      if |operators| == 0 {
        return Err(InvalidOperatorSetSize);
      }
      var g := new PopulationGenerator(terminals, operators);
      return Ok(g);
    }

    /** `generate(size, max_depth, method, force_trivial)`: the checks run in the order
        method, size, depth; then the chosen policy runs. */
    method Generate(size: int, maxDepth: int, policy: Option<Method>, forceTrivial: bool, fuel: nat)
        returns (r: Result<seq<ParseTree>>)
      requires Valid()
      ensures policy.None? ==> r == Err(InvalidPopulationGenerationMethod)
      ensures policy.Some? && size < 1 ==> r == Err(InvalidPopulationSize)
      ensures policy.Some? && size >= 1 && maxDepth < 2 && !forceTrivial ==> r == Err(InvalidDepth)
      ensures policy == Some(Unrecognised) ==> r.Err? && r.error != IndexError
      ensures policy == Some(Unrecognised) && size >= 1 && (maxDepth >= 2 || forceTrivial) ==>
                r == Err(InvalidPopulationGenerationMethod)
      ensures policy == Some(Grow) && size >= 1 && (maxDepth >= 2 || forceTrivial) ==> r.Ok?
      ensures r.Ok? ==> |r.value| <= size && (forall t | t in r.value :: fresh(t)) && AllValid(r.value)
      ensures r.Ok? && policy == Some(Grow) ==>
                |r.value| == size && forall t | t in r.value :: Depth(t.root) <= Max(maxDepth, 1)
      ensures r.Ok? && policy == Some(Grow) ==> forall t, x | t in r.value && x in Ms(t.root) :: fresh(x)
      ensures r.Ok? && policy == Some(Full) ==>
                |r.value| == size && forall t | t in r.value :: Depth(t.root) == maxDepth
      ensures r.Err? && policy == Some(Full) && size >= 1 && (maxDepth >= 2 || forceTrivial) ==>
                r.error == Exhausted
      ensures r.Ok? && policy == Some(Ramped) && maxDepth >= 2 ==>
                |r.value| == size && forall t | t in r.value :: 2 <= Depth(t.root) <= maxDepth
    {
      if policy.None? {
        return Err(InvalidPopulationGenerationMethod);
      }
      if size < 1 {
        return Err(InvalidPopulationSize);
      }
      if maxDepth < 2 && !forceTrivial {
        return Err(InvalidDepth);
      }
      match policy.value
      case Grow =>
        r := GrowPopulation(size, maxDepth, terminals, operators, forceTrivial);
      case Full =>
        r := FullPopulation(size, maxDepth, terminals, operators, forceTrivial, fuel);
      case Ramped =>
        r := RampedPopulation(size, maxDepth, terminals, operators, forceTrivial, fuel);
        if r.Ok? && maxDepth < 2 {
          assert maxDepth < 1;
        }
      case Unrecognised =>
        r := Err(InvalidPopulationGenerationMethod);
    }
  }

  // ---------------------------------------------------------------------------------
  // Populator

  class Populator {
    const size: int
    const maxDepth: int
    const policy: Method
    const terminals: seq<TerminalAtom>
    const operators: seq<OperatorAtom>

    /** The configuration passed the constructor's checks. */
    predicate Valid() {
      size >= 1 && maxDepth >= 2
    }

    constructor (size: int, maxDepth: int, terminals: seq<TerminalAtom>, operators: seq<OperatorAtom>, policy: Method)
      requires size >= 1 && maxDepth >= 2
      ensures this.size == size && this.maxDepth == maxDepth && this.policy == policy
      ensures this.terminals == terminals && this.operators == operators && Valid()
    {
      this.size := size;
      this.maxDepth := maxDepth;
      this.policy := policy;
      this.terminals := terminals;
      this.operators := operators;
    }

    /** `Populator(size, max_depth, terminal_set, operator_set, method)`: the checks run in
        the order method, size, depth, and the configuration is stored. */
    static method Create(size: int, maxDepth: int, terminals: seq<TerminalAtom>, operators: seq<OperatorAtom>, policy: Option<Method>)
        returns (r: Result<Populator>)
      ensures policy.None? ==> r == Err(InvalidPopulationGenerationMethod)
      ensures policy.Some? && size < 1 ==> r == Err(InvalidPopulationSize)
      ensures policy.Some? && size >= 1 && maxDepth < 2 ==> r == Err(InvalidDepth)
      ensures policy.Some? && size >= 1 && maxDepth >= 2 ==>
                && r.Ok? && fresh(r.value) && r.value.Valid()
                && r.value.size == size && r.value.maxDepth == maxDepth && r.value.policy == policy.value
                && r.value.terminals == terminals && r.value.operators == operators
    {
      if policy.None? {
        return Err(InvalidPopulationGenerationMethod);
      }
      if size < 1 {
        return Err(InvalidPopulationSize);
      }
      if maxDepth < 2 {
        return Err(InvalidDepth);
      }
      var p := new Populator(size, maxDepth, terminals, operators, policy.value);
      return Ok(p);
    }

    /** `generate()`: GROW and FULL as for the generator, without trivial trees; RAMPED is
        unfinished and yields no trees. The atom sets were never checked, so an empty one
        surfaces as IndexError from `ParseTree.random`. */
    method Generate(fuel: nat) returns (r: Result<seq<ParseTree>>)
      requires Valid()
      ensures policy == Ramped ==> r == Ok([])
      ensures policy == Unrecognised ==> r == Err(InvalidPopulationGenerationMethod)
      ensures policy == Grow && |terminals| > 0 && |operators| > 0 ==> r.Ok?
      ensures r.Err? && policy != Unrecognised ==> r.error in {IndexError, Exhausted}
      ensures r.Ok? ==> (forall t | t in r.value :: fresh(t)) && AllValid(r.value)
      ensures r.Ok? && policy == Grow ==>
                |r.value| == size && forall t | t in r.value :: Depth(t.root) <= maxDepth
      ensures r.Ok? && policy == Full ==>
                |r.value| == size && forall t | t in r.value :: Depth(t.root) == maxDepth
    {
      match policy
      case Grow =>
        r := GrowPopulation(size, maxDepth, terminals, operators, false);
      case Full =>
        r := FullPopulation(size, maxDepth, terminals, operators, false, fuel);
      case Ramped =>
        r := Ok([]);
      case Unrecognised =>
        r := Err(InvalidPopulationGenerationMethod);
    }
  }
}
