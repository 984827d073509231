/** The control models: `ControlModel` drives generations of evaluation, survival and a
    convergence test; `GenerationalControlModel` replaces the population by the
    offspring of weighted-random genetic operators, `SteadyStateModel` and the base model
    leave it as it is. */
module Control {
  import opened Wrappers
  import opened Atoms
  import opened Nodes
  import opened Trees
  import opened Numerics
  import opened Generation
  import opened Fitness
  import opened Selection
  import K = OperatorKinds
  import opened Operators

  /** Which `_survive` the model runs: the base class's, `GenerationalControlModel`'s or
      `SteadyStateModel`'s. */
  datatype Survival = Base | Generational | SteadyState

  // ---------------------------------------------------------------------------------
  // random.choices(operators, weights, k=1)[0]

  /** `sum(weights)` over integer weights. */
  function Total(ws: seq<int>): int {
    if ws == [] then 0 else Total(ws[..|ws| - 1]) + ws[|ws| - 1]
  }

  /** `itertools.accumulate(weights)`: the running totals. */
  function Cumulative(ws: seq<int>): (c: seq<int>)
    ensures |c| == |ws|
  {
    if ws == [] then [] else Cumulative(ws[..|ws| - 1]) + [Total(ws)]
  }

  /** The running total at `i` is the sum of the weights up to and including `i`. */
  lemma {:induction false} CumulativeAt(ws: seq<int>, i: nat)
    requires i < |ws|
    ensures Cumulative(ws)[i] == Total(ws[..i + 1])
  {
    var init := ws[..|ws| - 1];
    if i == |ws| - 1 {
      assert ws[..i + 1] == ws;
    } else {
      CumulativeAt(init, i);
      assert init[..i + 1] == ws[..i + 1];
    }
  }

  /** `bisect(c, x, 0, hi)` read as a scan: the first of the first `hi` positions whose
      running total exceeds `x`, or `hi` when none does. On running totals of
      non-negative weights this is where the binary search lands. */
  function Bisect(c: seq<int>, x: real, hi: nat): (i: nat)
    requires hi <= |c|
    ensures i <= hi
  {
    if hi == 0 then 0
    else
      var i := Bisect(c, x, hi - 1);
      if i < hi - 1 then i else if x < c[hi - 1] as real then hi - 1 else hi
  }

  /** Every running total before the position found is at most `x`, and the one found
      exceeds it. */
  lemma {:induction false} BisectLaws(c: seq<int>, x: real, hi: nat)
    requires hi <= |c|
    ensures var i := Bisect(c, x, hi);
            && (i < hi ==> x < c[i] as real)
            && forall j :: 0 <= j < i ==> c[j] as real <= x
  {
    if hi > 0 {
      BisectLaws(c, x, hi - 1);
    }
  }

  /** `random.choices(range(len(weights)), weights)[0]` for the draw `u` of `random()`:
      no weights is an IndexError, a total that is not positive a ValueError. */
  function Choose(weights: seq<int>, u: real): (r: Result<nat>)
    requires 0.0 <= u < 1.0
    ensures weights == [] ==> r == Err(IndexError)
    ensures weights != [] ==> (r.Err? <==> Total(weights) <= 0)
    ensures weights != [] && r.Err? ==> r.error == ValueError
    ensures r.Ok? ==> r.value < |weights|
  {
    if weights == [] then Err(IndexError)
    else if Total(weights) <= 0 then Err(ValueError)
    else Ok(Bisect(Cumulative(weights), u * Total(weights) as real, |weights| - 1))
  }

  lemma TotalStep(ws: seq<int>, i: nat)
    requires i < |ws|
    ensures Total(ws[..i + 1]) == Total(ws[..i]) + ws[i]
  {
    assert ws[..i + 1][..i] == ws[..i];
  }

  lemma {:induction false} TotalNonNegative(ws: seq<int>)
    requires forall i :: 0 <= i < |ws| ==> ws[i] >= 0
    ensures Total(ws) >= 0
  {
    if ws != [] {
      TotalNonNegative(ws[..|ws| - 1]);
    }
  }

  /** Running totals of non-negative weights never decrease. */
  lemma {:induction false} CumulativeMonotone(ws: seq<int>, i: nat, j: nat)
    requires i <= j < |ws| && forall k :: 0 <= k < |ws| ==> ws[k] >= 0
    ensures Cumulative(ws)[i] <= Cumulative(ws)[j]
    decreases j - i
  {
    if i < j {
      CumulativeMonotone(ws, i, j - 1);
      CumulativeAt(ws, j - 1);
      CumulativeAt(ws, j);
      TotalStep(ws, j);
    }
  }

  /** Only an operator of positive weight is ever chosen. */
  lemma ChosenHasWeight(weights: seq<int>, u: real)
    requires 0.0 <= u < 1.0
    requires Choose(weights, u).Ok?
    ensures weights[Choose(weights, u).value] > 0
  {
    var n, total := |weights|, Total(weights);
    var c, x := Cumulative(weights), u * total as real;
    ChooseIs(weights, u, x);
    var i := Bisect(c, x, n - 1);
    MulBelow(u, total as real);
    FoundBetween(weights, x, i);
  }

  /** Kept apart from the facts about `Choose`, where the solver does not always find it. */
  lemma MulBelow(u: real, t: real)
    requires 0.0 <= u < 1.0 && t > 0.0
    ensures 0.0 <= u * t < t
  {
  }

  /** The position found has a running total past `x` and, when it is not the first,
      a predecessor whose running total is not. */
  lemma FoundBetween(weights: seq<int>, x: real, i: nat)
    requires weights != [] && 0.0 <= x < Total(weights) as real
    requires i == Bisect(Cumulative(weights), x, |weights| - 1)
    ensures weights[i] > 0
  {
    var n, c := |weights|, Cumulative(weights);
    BisectLaws(c, x, n - 1);
    CumulativeAt(weights, i);
    TotalStep(weights, i);
    if i == n - 1 {
      assert weights[..n] == weights;
    }
    assert x < c[i] as real;
    if i > 0 {
      CumulativeAt(weights, i - 1);
      assert c[i - 1] as real <= x;
    }
  }

  /** What `Choose` finds when it finds something. */
  lemma ChooseIs(weights: seq<int>, u: real, x: real)
    requires weights != [] && Total(weights) > 0 && 0.0 <= u < 1.0 && x == u * Total(weights) as real
    ensures Choose(weights, u) == Ok(Bisect(Cumulative(weights), x, |weights| - 1))
  {
    var c, y := Cumulative(weights), u * Total(weights) as real;
    assert y == x;
    assert Choose(weights, u) == Ok(Bisect(c, y, |weights| - 1));
  }

  /** With non-negative weights, every operator of positive weight is chosen by some
      draw: the one that lands on its running total's start. */
  lemma WeightedChoiceReachable(weights: seq<int>, i: nat)
    requires i < |weights| && weights[i] > 0 && forall k :: 0 <= k < |weights| ==> weights[k] >= 0
    ensures exists u: real :: 0.0 <= u < 1.0 && Choose(weights, u) == Ok(i)
  {
    var total, start := Total(weights), Total(weights[..i]);
    ScanFindsStart(weights, i);
    var u := DrawFor(start, total);
    ChooseAt(weights, u, start as real, i);
  }

  /** The draw that lands on `start` out of `total`. */
  lemma DrawFor(start: int, total: int) returns (u: real)
    requires 0 <= start < total
    ensures 0.0 <= u < 1.0 && u * total as real == start as real
  {
    u := start as real / total as real;
    DivBetween(start as real, total as real, 0.0, 1.0);
    DivCancel(start as real, total as real);
  }

  lemma ChooseAt(weights: seq<int>, u: real, x: real, i: nat)
    requires weights != [] && Total(weights) > 0 && 0.0 <= u < 1.0
    requires x == u * Total(weights) as real && Bisect(Cumulative(weights), x, |weights| - 1) == i
    ensures Choose(weights, u) == Ok(i)
  {
    ChooseIs(weights, u, x);
  }

  /** Operator `i`'s share of the running total starts at `Total(weights[..i])`, and
      the scan for that value stops at `i`. */
  lemma ScanFindsStart(weights: seq<int>, i: nat)
    requires i < |weights| && weights[i] > 0 && forall k :: 0 <= k < |weights| ==> weights[k] >= 0
    ensures 0 <= Total(weights[..i]) < Total(weights)
    ensures Bisect(Cumulative(weights), Total(weights[..i]) as real, |weights| - 1) == i
  {
    var n := |weights|;
    var c := Cumulative(weights);
    assert weights[..n] == weights;
    CumulativeMonotone(weights, i, n - 1);
    CumulativeAt(weights, i);
    CumulativeAt(weights, n - 1);
    TotalStep(weights, i);
    var start := Total(weights[..i]);
    TotalNonNegative(weights[..i]);
    forall j | 0 <= j < i ensures c[j] as real <= start as real {
      CumulativeMonotone(weights, j, i - 1);
      CumulativeAt(weights, i - 1);
    }
    BisectAt(c, start as real, n - 1, i);
  }

  /** The scan stops at the first position past `x`. */
  lemma BisectAt(c: seq<int>, x: real, hi: nat, i: nat)
    requires i <= hi <= |c|
    requires forall j :: 0 <= j < i ==> c[j] as real <= x
    requires i < hi ==> x < c[i] as real
    ensures Bisect(c, x, hi) == i
  {
    BisectLaws(c, x, hi);
  }

  lemma DivCancel(a: real, t: real)
    requires t != 0.0
    ensures a / t * t == a
  {
  }

  lemma DivOrder(a: real, b: real, t: real)
    requires t > 0.0 && a / t <= b / t
    ensures a <= b
  {
    DivCancel(a, t);
    DivCancel(b, t);
    assert a / t * t <= b / t * t;
  }

  /** What `_evaluate` computes once the population's aggregate is stored: the position
      of the optimal member (the first of largest normalized fitness), its adjusted
      fitness and the population's average adjusted fitness; the first step that raises
      ends it with its exception. */
  function Evaluation(cfg: Config, cases: seq<Case>, roots: seq<Node>): (r: Result<(nat, real, real)>)
    ensures r.Ok? ==> r.value.0 < |roots|
  {
    match AdjustedAll(cfg, cases, roots)
    case Err(e) => Err(e)
    case Ok(adj) =>
      match Measures(cfg, cases, Some(Sum(adj)), roots, None, Normalized)
      case Err(e) => Err(e)
      case Ok(nf) =>
        if nf == [] then Err(ValueError)
        else
          var i := ArgMax(nf);
          match FitnessOf(cfg, cases, Some(Sum(adj)), roots[i], None, Adjusted)
          case Err(e) => Err(e)
          case Ok(a) =>
            match Average(cfg, cases, Some(Sum(adj)), Some(|roots|), None)
            case Err(e) => Err(e)
            case Ok(avg) => Ok((i, a, avg))
  }

  /** The evaluation fails exactly when some adjusted fitness raises (with the first such
      exception), when there is no member (numpy's argmax of nothing), or when the adjusted
      fitness adds up to zero (the normalization divides by it). Otherwise the optimal
      member has the largest normalized fitness and comes first among those that do, its
      adjusted fitness is reported, and the average is the total over the size. */
  lemma EvaluationLaws(cfg: Config, cases: seq<Case>, roots: seq<Node>)
    ensures var adj := AdjustedAll(cfg, cases, roots);
            var e := Evaluation(cfg, cases, roots);
            && (adj.Err? ==> e == Err(adj.error))
            && (adj.Ok? && roots == [] ==> e == Err(ValueError))
            && (adj.Ok? && roots != [] && Sum(adj.value) == 0.0 ==> e.Err?)
            && (adj.Ok? && roots != [] && Sum(adj.value) != 0.0 ==> e.Ok?)
    ensures var e := Evaluation(cfg, cases, roots);
            e.Ok? ==>
              var adj := AdjustedAll(cfg, cases, roots).value;
              var nf := Measures(cfg, cases, Some(Sum(adj)), roots, None, Normalized).value;
              var i := e.value.0;
              && |nf| == |roots|
              && (forall j :: 0 <= j < |roots| ==> nf[j] <= nf[i])
              && (forall j :: 0 <= j < i ==> nf[j] < nf[i])
              && e.value.1 == adj[i]
              && e.value.2 == Sum(adj) / |roots| as real
  {
    var adj := AdjustedAll(cfg, cases, roots);
    if adj.Ok? {
      AverageCache(cfg, cases, roots, None, None);
      if roots != [] && Sum(adj.value) != 0.0 {
        NormalizedDistribution(cfg, cases, roots);
      }
      if roots != [] && Sum(adj.value) == 0.0 {
        var f := (r: Node) => FitnessOf(cfg, cases, Some(Sum(adj.value)), r, None, Normalized);
        assert AdjustedFitness(cfg, cases, roots[0]).Ok?;
        assert f(roots[0]) == Err(ZeroDivisionError);
      }
    }
  }

  /** When the population's adjusted fitness adds up to a positive total, the member of
      largest normalized fitness is also one of largest adjusted fitness. */
  lemma OptimalHasBestAdjusted(cfg: Config, cases: seq<Case>, roots: seq<Node>, best: nat)
    requires AdjustedAll(cfg, cases, roots).Ok? && Sum(AdjustedAll(cfg, cases, roots).value) > 0.0
    requires best < |roots|
    requires var nf := Measures(cfg, cases, Some(Sum(AdjustedAll(cfg, cases, roots).value)), roots, None, Normalized);
             nf.Ok? && |nf.value| == |roots| && forall j :: 0 <= j < |roots| ==> nf.value[j] <= nf.value[best]
    ensures var adj := AdjustedAll(cfg, cases, roots).value;
            forall j :: 0 <= j < |roots| ==> adj[j] <= adj[best]
  {
    NormalizedDistribution(cfg, cases, roots);
    var adj := AdjustedAll(cfg, cases, roots).value;
    var total := Sum(adj);
    var nf := Measures(cfg, cases, Some(total), roots, None, Normalized).value;
    forall j | 0 <= j < |roots| ensures adj[j] <= adj[best] {
      DivOrder(adj[j], adj[best], total);
    }
  }

  // ---------------------------------------------------------------------------------
  // Generational survival, as lists of offspring

  /** The offspring lists one after the other. */
  function Concat(batches: seq<seq<ParseTree>>): seq<ParseTree> {
    if batches == [] then [] else Concat(batches[..|batches| - 1]) + batches[|batches| - 1]
  }

  /** Appending a batch extends the concatenation by it. */
  lemma ConcatSnoc(batches: seq<seq<ParseTree>>, b: seq<ParseTree>)
    ensures (batches + [b])[..|batches|] == batches
    ensures Concat(batches + [b]) == Concat(batches) + b
  {
    assert (batches + [b])[..|batches|] == batches;
  }

  /** The first `n` trees, or all of them when there are fewer. */
  function Take(s: seq<ParseTree>, n: int): (r: seq<ParseTree>)
    ensures |r| == if |s| <= n then |s| else if n <= 0 then 0 else n
    ensures r == s[..|r|]
  {
    if |s| <= n then s else if n <= 0 then [] else s[..n]
  }

  /** The inner loop of generational survival: offspring are appended, in order, while
      the new population has room. */
  method Fill(next: seq<ParseTree>, subset: seq<ParseTree>, size: int) returns (r: seq<ParseTree>)
    requires |next| <= size
    ensures r == Take(next + subset, size)
    ensures forall t | t in r :: t in next || t in subset
  {
    r := next;
    var k := 0;
    while k < |subset| && |r| < size
      invariant 0 <= k <= |subset| && r == next + subset[..k] && |r| <= size
    {
      r := r + [subset[k]];
      k := k + 1;
    }
    assert subset[..|subset|] == subset;
    if k < |subset| {
      assert r == (next + subset)[..size];
    }
    forall t | t in r ensures t in next || t in subset {
      assert t in next + subset[..k];
    }
  }

  // ---------------------------------------------------------------------------------
  // The model

  class ControlModel {
    const kind: Survival
    const populationSize: int
    const maxTreeDepth: int
    const iterationThreshold: int
    /** `explicit_convergence_condition`, applied to the optimal fitness (None before the
        first evaluation). */
    const explicitConvergence: Option<real> -> bool
    const generator: PopulationGenerator
    const fitness: FitnessFunction
    const selector: Selector
    const operatorSet: GeneticOperatorSet
    /** `_genetic_operators` and `_genetic_operator_weights`, kept parallel. */
    const operators: seq<K.OperatorType>
    const weights: seq<int>

    var iteration: int
    var inProgress: bool
    var population: seq<ParseTree>
    var optimalMember: ParseTree?
    var optimalFitness: Option<real>
    var avgFitness: Option<real>

    /** The components are wired as the constructor wires them, the two operator lists are
        parallel, and every tree the model holds is valid. */
    ghost predicate Valid()
      reads this, (set t | t in population), optimalMember
    {
      && operatorSet.selector == selector && operatorSet.generator == generator
      && selector.fitness == fitness
      && generator.Valid()
      && |operators| == |weights|
      && AllValid(population)
      && (optimalMember != null ==> optimalMember.Valid())
    }

    /** The meaning of the atoms the fitness function evaluates with. */
    function Sem(): Semantics {
      fitness.cfg.sem
    }

    constructor (kind: Survival, populationSize: int, maxTreeDepth: int, iterationThreshold: int,
                 explicitConvergence: Option<real> -> bool, generator: PopulationGenerator,
                 fitness: FitnessFunction, selector: Selector, operatorSet: GeneticOperatorSet,
                 operators: seq<K.OperatorType>, weights: seq<int>, population: seq<ParseTree>)
      ensures this.kind == kind && this.populationSize == populationSize
      ensures this.maxTreeDepth == maxTreeDepth && this.iterationThreshold == iterationThreshold
      ensures this.explicitConvergence == explicitConvergence && this.generator == generator
      ensures this.fitness == fitness && this.selector == selector && this.operatorSet == operatorSet
      ensures this.operators == operators && this.weights == weights && this.population == population
      ensures iteration == 0 && !inProgress
      ensures optimalMember == null && optimalFitness == None && avgFitness == None
    {
      this.kind := kind;
      this.populationSize := populationSize;
      this.maxTreeDepth := maxTreeDepth;
      this.iterationThreshold := iterationThreshold;
      this.explicitConvergence := explicitConvergence;
      this.generator := generator;
      this.fitness := fitness;
      this.selector := selector;
      this.operatorSet := operatorSet;
      this.operators := operators;
      this.weights := weights;
      this.population := population;
      iteration := 0;
      inProgress := false;
      optimalMember := null;
      optimalFitness := None;
      avgFitness := None;
    }

    /** The loop that loads the operator pairs into two parallel lists. */
    static method LoadOperators(pairs: seq<(K.OperatorType, int)>) returns (ops: seq<K.OperatorType>, ws: seq<int>)
      ensures |ops| == |pairs| && |ws| == |pairs|
      ensures forall i :: 0 <= i < |pairs| ==> ops[i] == pairs[i].0 && ws[i] == pairs[i].1
    {
      ops, ws := [], [];
      for i := 0 to |pairs|
        invariant |ops| == i && |ws| == i
        invariant forall j :: 0 <= j < i ==> ops[j] == pairs[j].0 && ws[j] == pairs[j].1
      {
        ops := ops + [pairs[i].0];
        ws := ws + [pairs[i].1];
      }
    }

    /** `ControlModel(...)`: the population generator (which checks both atom sets), the
        fitness function (trivial trees penalised), a selector with the default tournament
        proportion 0.3 (and this constructor's own default of tournament selection), the operator set, the operator lists (the default set when none is
        given), and the initial population. Printing and seeding are left out. */
    static method Create(kind: Survival, populationSize: int, maxTreeDepth: int,
                         terminals: seq<TerminalAtom>, atoms: seq<OperatorAtom>,
                         sem: Semantics, isClose: (real, real, real) -> bool, fuel: nat,
                         policy: Method := Grow, selection: SelectionMethod := Tournament,
                         objective: Objective := Minimise,
                         aggregator: seq<real> -> real := (s: seq<real>) => Sum(s),
                         error: (real, real) -> real := (y: real, t: real) => if y >= t then y - t else t - y,
                         maxFitness: real := 1000000.0, equalityThreshold: real := 0.05,
                         iterationThreshold: int := 500,
                         explicitConvergence: Option<real> -> bool := (_: Option<real>) => false,
                         geneticOperators: Option<seq<(K.OperatorType, int)>> := None)
        returns (r: Result<ControlModel>)
      ensures terminals == [] ==> r == Err(InvalidTerminalSetSize)
      ensures terminals != [] && atoms == [] ==> r == Err(InvalidOperatorSetSize)
      ensures terminals != [] && atoms != [] && populationSize < 1 ==> r == Err(InvalidPopulationSize)
      ensures terminals != [] && atoms != [] && populationSize >= 1 && maxTreeDepth < 2 ==> r == Err(InvalidDepth)
      ensures terminals != [] && atoms != [] && populationSize >= 1 && maxTreeDepth >= 2 && policy == Grow ==> r.Ok?
      ensures r.Ok? ==> fresh(r.value) && fresh(r.value.fitness) && r.value.Valid()
      ensures r.Ok? ==> r.value.kind == kind && r.value.iteration == 0 && !r.value.inProgress
      ensures r.Ok? ==> r.value.optimalMember == null && r.value.fitness.cases == []
      ensures r.Ok? ==> r.value.fitness.cfg.allowTrivial == false && r.value.selector.proportion == 0.3
      ensures r.Ok? ==>
                && r.value.populationSize == populationSize && r.value.maxTreeDepth == maxTreeDepth
                && r.value.iterationThreshold == iterationThreshold
                && r.value.explicitConvergence == explicitConvergence
                && r.value.fitness.cfg == Config(objective, aggregator, error, maxFitness, equalityThreshold, false, sem, isClose)
                && r.value.selector.strategy == selection
                && r.value.generator.terminals == terminals && r.value.generator.operators == atoms
                && r.value.optimalFitness == None && r.value.avgFitness == None
      ensures r.Ok? ==>
                var pairs := if geneticOperators.Some? then geneticOperators.value else K.DefaultSet;
                && |r.value.operators| == |pairs|
                && forall i :: 0 <= i < |pairs| ==> r.value.operators[i] == pairs[i].0 && r.value.weights[i] == pairs[i].1
      ensures r.Ok? && policy == Grow ==>
                |r.value.population| == populationSize
                && forall t | t in r.value.population :: Depth(t.root) <= maxTreeDepth
    {
      var made := PopulationGenerator.Create(terminals, atoms);
      if made.Err? {
        return Err(made.error);
      }
      var generator := made.value;
      var cfg := Config(objective, aggregator, error, maxFitness, equalityThreshold, false, sem, isClose);
      var fitness := new FitnessFunction(cfg);
      var selector := new Selector(fitness, selection, 0.3);
      var operatorSet := new GeneticOperatorSet(selector, generator);
      var pairs := if geneticOperators.Some? then geneticOperators.value else K.DefaultSet;
      var ops, ws := LoadOperators(pairs);
      var population := generator.Generate(populationSize, maxTreeDepth, Some(policy), false, fuel);
      if population.Err? {
        return Err(population.error);
      }
      var model := new ControlModel(kind, populationSize, maxTreeDepth, iterationThreshold, explicitConvergence,
                                    generator, fitness, selector, operatorSet, ops, ws, population.value);
      return Ok(model);
    }

    /** `bind_fitness_case(target, **kwargs)`: refused once evolution has begun. */
    method BindFitnessCase(args: map<string, real>, target: real) returns (o: Outcome)
      modifies fitness
      ensures inProgress ==> o == Fail(InvalidOperationState) && fitness.cases == old(fitness.cases)
      ensures !inProgress ==> o == Pass && fitness.cases == old(fitness.cases) + [Case(args, target)]
      ensures fitness.aggregateAdjusted == old(fitness.aggregateAdjusted)
      ensures fitness.aggregateMembers == old(fitness.aggregateMembers)
    {
      if inProgress {
        return Fail(InvalidOperationState);
      }
      fitness.BindCase(args, target);
      return Pass;
    }

    /** `_evaluate`: after the population's aggregate is stored, the optimal member is the
        first with maximal normalized fitness; its adjusted fitness and the population's
        average are recorded. An empty population has no argmax. */
    method Evaluate() returns (o: Outcome, ghost roots: seq<Node>)
      requires Valid()
      modifies this, fitness
      ensures Valid()
      ensures population == old(population) && iteration == old(iteration) && inProgress == old(inProgress)
      ensures fitness.cases == old(fitness.cases) && fitness.aggregateMembers == Some(|population|)
      ensures |roots| == |population| && forall i :: 0 <= i < |population| ==> roots[i] == population[i].root
      ensures var e := Evaluation(fitness.cfg, fitness.cases, roots);
              && (e.Err? ==> o == Fail(e.error))
              && (e.Ok? ==> && o == Pass && optimalMember == population[e.value.0]
                            && optimalFitness == Some(e.value.1) && avgFitness == Some(e.value.2))
      ensures o.Fail? ==>
                && optimalMember == old(optimalMember)
                && optimalFitness == old(optimalFitness) && avgFitness == old(avgFitness)
      ensures var adj := AdjustedAll(fitness.cfg, fitness.cases, roots);
              && (adj.Ok? ==> fitness.aggregateAdjusted == Some(Sum(adj.value)))
              && (adj.Err? ==> fitness.aggregateAdjusted == old(fitness.aggregateAdjusted))
    {
      roots := Roots(population);
      var stored := fitness.PredefineAggregate(population);
      if stored.Fail? {
        return stored, roots;
      }
      ghost var adj := AdjustedAll(fitness.cfg, fitness.cases, roots);
      assert adj.Ok? && fitness.aggregateAdjusted == Some(Sum(adj.value));
      var e := Evaluation(fitness.cfg, fitness.cases, Roots(population));
      if e.Err? {
        return Fail(e.error), roots;
      }
      Record(e.value.0, e.value.1, e.value.2);
      return Pass, roots;
    }

    /** Stores the optimal member, its fitness and the average. */
    method Record(best: nat, optimal: real, average: real)
      requires Valid() && best < |population|
      modifies this
      ensures Valid()
      ensures population == old(population) && iteration == old(iteration) && inProgress == old(inProgress)
      ensures optimalMember == population[best] && optimalFitness == Some(optimal) && avgFitness == Some(average)
    {
      optimalMember := population[best];
      optimalFitness := Some(optimal);
      avgFitness := Some(average);
    }

    /** `_simplify`: editing is applied to the optimal member until a step leaves its
        string form unchanged. Each step keeps the member's value on every binding, and a
        step that changes the string shrinks the tree, so the loop ends. */
    method Simplify() returns (o: Outcome, ghost last: Node)
      requires Valid() && optimalMember != null
      modifies this, fitness
      ensures Valid() && optimalMember != null
      ensures population == old(population) && iteration == old(iteration) && inProgress == old(inProgress)
      ensures optimalFitness == old(optimalFitness) && avgFitness == old(avgFitness)
      ensures fitness.cases == old(fitness.cases)
      ensures forall env :: Eval(optimalMember.root, env, Sem()) == Eval(old(optimalMember.root), env, Sem())
      ensures o == Pass ==> Edited(optimalMember.root, last, Sem()) && Str(optimalMember.root, Sem()) == Str(last, Sem())
      ensures o == Pass ==> EditStep(optimalMember.root, last, Sem())
    {
      var identity := Str(optimalMember.root, Sem());
      last := optimalMember.root;
      while true
        invariant Valid() && optimalMember != null
        invariant population == old(population) && iteration == old(iteration) && inProgress == old(inProgress)
        invariant optimalFitness == old(optimalFitness) && avgFitness == old(avgFitness)
        invariant fitness.cases == old(fitness.cases)
        invariant identity == Str(optimalMember.root, Sem())
        invariant forall env :: Eval(optimalMember.root, env, Sem()) == Eval(old(optimalMember.root), env, Sem())
        decreases |Ms(optimalMember.root)|
      {
        var pre := identity;
        last := optimalMember.root;
        var edited;
        ghost var parent;
        edited, parent := operatorSet.Editing([optimalMember]);
        if edited.Err? {
          return Fail(edited.error), last;
        }
        optimalMember := edited.value[0];
        assert optimalMember in edited.value;
        identity := Str(optimalMember.root, Sem());
        EditedLaws(optimalMember.root, last, Sem());
        if pre == identity {
          return Pass, last;
        }
      }
    }

    /** `_converged`: counts the iteration; convergence is the iteration bound reached or
        the explicit condition holding on the optimal fitness, and it simplifies the
        optimal member. */
    method Converged() returns (r: Result<bool>)
      requires Valid() && optimalMember != null
      modifies this, fitness
      ensures Valid() && optimalMember != null
      ensures iteration == old(iteration) + 1
      ensures population == old(population) && inProgress == old(inProgress)
      ensures optimalFitness == old(optimalFitness) && avgFitness == old(avgFitness)
      ensures fitness.cases == old(fitness.cases)
      ensures r.Ok? ==> (r.value <==> iteration >= iterationThreshold || explicitConvergence(optimalFitness))
      ensures r.Ok? && !r.value ==> optimalMember == old(optimalMember)
      ensures forall env :: Eval(optimalMember.root, env, Sem()) == Eval(old(optimalMember.root), env, Sem())
    {
      iteration := iteration + 1;
      var reached := iteration >= iterationThreshold;
      var explicit := explicitConvergence(optimalFitness);
      var met := reached || explicit;
      if met {
        var simplified;
        ghost var last;
        simplified, last := Simplify();
        if simplified.Fail? {
          return Err(simplified.error);
        }
      }
      return Ok(met);
    }

    /** `_survive`. The generational model fills a new population with the offspring of
        weighted-random operators applied to the current one, in the order produced,
        dropping what does not fit, and then replaces the population with it; an error
        leaves the population as it was. The others leave the population alone. */
    method Survive() returns (o: Outcome, ghost batches: seq<seq<ParseTree>>)
      requires Valid()
      modifies this, fitness
      ensures Valid()
      ensures iteration == old(iteration) && inProgress == old(inProgress) && optimalMember == old(optimalMember)
      ensures optimalFitness == old(optimalFitness) && avgFitness == old(avgFitness)
      ensures fitness.cases == old(fitness.cases)
      ensures kind != Generational ==> o == Pass && population == old(population)
      ensures o.Fail? ==> population == old(population)
      ensures kind == Generational && populationSize >= 1 && operators == [] ==> o == Fail(IndexError)
      ensures kind == Generational && populationSize >= 1 && operators != [] && Total(weights) <= 0 ==>
                o == Fail(ValueError)
      ensures kind == Generational && o == Pass ==>
                && |population| == (if populationSize < 0 then 0 else populationSize)
                && population == Take(Concat(batches), populationSize)
                && (forall b | b in batches :: b != [])
                && (batches != [] ==> |Concat(batches[..|batches| - 1])| < populationSize)
                && (forall t | t in population :: fresh(t))
    {
      batches := [];
      if kind != Generational {
        return Pass, batches;
      }
      var next;
      next, batches := Breed();
      if next.Err? {
        return Fail(next.error), batches;
      }
      Replace(next.value);
      return Pass, batches;
    }

    /** The loop of generational survival: batches of offspring are appended, in the
        order produced, until the new population is full; the surplus is dropped. */
    method Breed() returns (r: Result<seq<ParseTree>>, ghost batches: seq<seq<ParseTree>>)
      requires Valid()
      modifies fitness
      ensures fitness.cases == old(fitness.cases)
      ensures populationSize >= 1 && operators == [] ==> r == Err(IndexError)
      ensures populationSize >= 1 && operators != [] && Total(weights) <= 0 ==> r == Err(ValueError)
      ensures r.Ok? ==>
                && |r.value| == (if populationSize < 0 then 0 else populationSize)
                && r.value == Take(Concat(batches), populationSize)
                && (forall b | b in batches :: b != [])
                && (batches != [] ==> |Concat(batches[..|batches| - 1])| < populationSize)
                && AllValid(r.value) && (forall t | t in r.value :: fresh(t))
    {
      batches := [];
      var next: seq<ParseTree> := [];
      while |next| < populationSize
        invariant Valid() && fitness.cases == old(fitness.cases)
        invariant next == Take(Concat(batches), populationSize)
        invariant forall b | b in batches :: b != []
        invariant batches != [] ==> |Concat(batches[..|batches| - 1])| < populationSize
        invariant batches != [] ==> operators != [] && Total(weights) > 0
        invariant AllValid(next) && forall t | t in next :: fresh(t)
        invariant batches == [] ==> next == []
        decreases populationSize - |next|
      {
        var grown;
        grown, batches := Extend(next, batches);
        if grown.Err? {
          return Err(grown.error), batches;
        }
        next := grown.value;
      }
      return Ok(next), batches;
    }

    /** One pass of the survival loop: a batch of offspring is appended to the new
        population, as far as it has room. */
    method Extend(next: seq<ParseTree>, ghost batches: seq<seq<ParseTree>>)
        returns (r: Result<seq<ParseTree>>, ghost batches': seq<seq<ParseTree>>)
      requires Valid() && |next| < populationSize
      requires next == Take(Concat(batches), populationSize) && AllValid(next)
      modifies fitness
      ensures Valid() && fitness.cases == old(fitness.cases)
      ensures operators == [] ==> r == Err(IndexError)
      ensures operators != [] && Total(weights) <= 0 ==> r == Err(ValueError)
      ensures r.Err? ==> batches' == batches
      ensures r.Ok? ==>
                && operators != [] && Total(weights) > 0
                && |batches'| == |batches| + 1 && batches' == batches + [batches'[|batches|]] && batches'[|batches|] != []
                && |Concat(batches'[..|batches|])| < populationSize
                && r.value == Take(Concat(batches'), populationSize) && |next| < |r.value|
                && AllValid(r.value) && (forall t | t in r.value :: t in next || fresh(t))
    {
      assert next == Concat(batches);
      batches' := batches;
      var offspring;
      ghost var k;
      offspring, k := Offspring();
      if offspring.Err? {
        return Err(offspring.error), batches';
      }
      var subset := offspring.value;
      var grown := Fill(next, subset, populationSize);
      ConcatSnoc(batches, subset);
      batches' := batches + [subset];
      return Ok(grown), batches';
    }

    /** Installs the new population. */
    method Replace(next: seq<ParseTree>)
      requires Valid() && AllValid(next)
      modifies this
      ensures Valid() && population == next
      ensures iteration == old(iteration) && inProgress == old(inProgress) && optimalMember == old(optimalMember)
      ensures optimalFitness == old(optimalFitness) && avgFitness == old(avgFitness)
    {
      population := next;
    }

    /** One round of generational survival: an operator drawn with the configured
        weights, applied to the population. Only an operator of positive weight is drawn. */
    method Offspring() returns (r: Result<seq<ParseTree>>, ghost k: nat)
      requires Valid()
      modifies fitness
      ensures fitness.cases == old(fitness.cases)
      ensures operators == [] ==> r == Err(IndexError)
      ensures operators != [] && Total(weights) <= 0 ==> r == Err(ValueError)
      ensures r.Ok? ==> operators != [] && Total(weights) > 0
      ensures r.Ok? ==> && k < |operators| && weights[k] > 0
                        && |r.value| == K.Yield(operators[k]) && r.value != []
                        && AllValid(r.value) && forall t | t in r.value :: fresh(t)
    {
      k := 0;
      var u: real :| 0.0 <= u < 1.0;
      var chosen := Choose(weights, u);
      if chosen.Err? {
        return Err(chosen.error), k;
      }
      ChosenHasWeight(weights, u);
      k := chosen.value;
      r := operatorSet.Operate(population, operators[chosen.value]);
    }

    /** `next`: marks evolution as begun (for good), survives, evaluates and tests for
        convergence; the answer is whether to go on. */
    method Next() returns (r: Result<bool>)
      requires Valid()
      modifies this, fitness
      ensures Valid() && inProgress
      ensures fitness.cases == old(fitness.cases)
      ensures old(iteration) <= iteration <= old(iteration) + 1
      ensures r.Ok? ==> iteration == old(iteration) + 1
      ensures r.Ok? ==> (r.value <==> !(iteration >= iterationThreshold || explicitConvergence(optimalFitness)))
      ensures kind != Generational ==> population == old(population)
      ensures r.Ok? ==> optimalMember != null && optimalFitness.Some? && avgFitness.Some?
      ensures r.Ok? && r.value ==> optimalMember in population
    {
      inProgress := true;
      var survived;
      ghost var batches;
      survived, batches := Survive();
      if survived.Fail? {
        return Err(survived.error);
      }
      var evaluated;
      ghost var roots;
      evaluated, roots := Evaluate();
      if evaluated.Fail? {
        return Err(evaluated.error);
      }
      var met := Converged();
      if met.Err? {
        return Err(met.error);
      }
      return Ok(!met.value);
    }

    /** `evolve`: iterations until one reports convergence; the result is the optimal
        member and the population. The iteration count bounds the loop. */
    method Evolve() returns (r: Result<(ParseTree?, seq<ParseTree>)>)
      requires Valid()
      modifies this, fitness
      ensures Valid() && inProgress
      ensures fitness.cases == old(fitness.cases)
      ensures r.Ok? ==> r.value == (optimalMember, population)
      ensures r.Ok? ==> iteration > old(iteration)
      ensures r.Ok? ==> iteration >= iterationThreshold || explicitConvergence(optimalFitness)
      ensures r.Ok? ==> r.value.0 != null && optimalFitness.Some? && avgFitness.Some?
    {
      ghost var start := iteration;
      while true
        invariant Valid() && iteration >= start
        invariant fitness.cases == old(fitness.cases)
        decreases iterationThreshold - iteration
      {
        var more := Next();
        if more.Err? {
          return Err(more.error);
        }
        if !more.value {
          return Ok((optimalMember, population));
        }
      }
    }
  }
}
