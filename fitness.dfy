/** `FitnessFunction`: the raw, standardized, adjusted and normalized fitness measures and
    the hits ratio of an individual over the bound fitness cases (Koza's measures). */
module Fitness {
  import opened Wrappers
  import opened Atoms
  import opened Nodes
  import opened Trees
  import opened Numerics

  datatype Objective = Minimise | Maximise

  /** `FitnessMeasure`; `fitness` dispatches on it. */
  datatype Measure = Raw | Standardized | Adjusted | Normalized | HitsRatio

  /** A fitness case: the variable bindings and the expected value. */
  datatype Case = Case(args: map<string, real>, target: real)

  /** The constructor's arguments. The aggregator defaults to `sum`, the error to
      `abs(y - t)`; `isClose(a, b, relTol)` stands for `math.isclose`, and `sem` for the
      meaning of the atoms the individuals are built from. */
  datatype Config = Config(
    objective: Objective,
    aggregator: seq<real> -> real,
    error: (real, real) -> real,
    maxFitness: real,
    bound: real,
    allowTrivial: bool,
    sem: Semantics,
    isClose: (real, real, real) -> bool)

  // ---------------------------------------------------------------------------------
  // List comprehensions whose elements can raise

  /** `[f(x) for x in xs]`, where the first element that raises ends the comprehension
      with its exception. */
  function Collect<T>(xs: seq<T>, f: T -> Result<real>): (r: Result<seq<real>>)
    ensures r.Ok? <==> forall i :: 0 <= i < |xs| ==> f(xs[i]).Ok?
    ensures r.Ok? ==> |r.value| == |xs| && forall i :: 0 <= i < |xs| ==> r.value[i] == f(xs[i]).value
  {
    if xs == [] then Ok([])
    else
      var init := xs[..|xs| - 1];
      assert forall i :: 0 <= i < |init| ==> init[i] == xs[i];
      match Collect(init, f)
      case Err(e) => Err(e)
      case Ok(vs) =>
        match f(xs[|xs| - 1])
        case Err(e) => Err(e)
        case Ok(v) => Ok(vs + [v])
  }

  /** The exception of a comprehension is that of its first raising element. */
  lemma {:induction false} CollectFirstError<T>(xs: seq<T>, f: T -> Result<real>, i: nat)
    requires i < |xs| && f(xs[i]).Err?
    requires forall j :: 0 <= j < i ==> f(xs[j]).Ok?
    ensures Collect(xs, f) == Err(f(xs[i]).error)
  {
    var init := xs[..|xs| - 1];
    assert forall j :: 0 <= j < |init| ==> init[j] == xs[j];
    if i < |xs| - 1 {
      CollectFirstError(init, f, i);
    } else {
      assert Collect(init, f).Ok?;
    }
  }

  // ---------------------------------------------------------------------------------
  // Raw, standardized and adjusted fitness

  /** A tree holding no variable is trivial, and trivial trees are penalised unless the
      configuration allows them. */
  predicate Trivial(cfg: Config, root: Node) {
    !IsParameterized(root) && !cfg.allowTrivial
  }

  /** The penalty added to every case error of a trivial tree: it makes the tree worse
      for either objective. */
  function Penalty(cfg: Config, root: Node): (p: real)
    ensures !Trivial(cfg, root) ==> p == 0.0
    ensures Trivial(cfg, root) && cfg.objective == Minimise ==> p == cfg.maxFitness
    ensures Trivial(cfg, root) && cfg.objective == Maximise ==> p == -cfg.maxFitness
  {
    if Trivial(cfg, root) then (if cfg.objective == Minimise then cfg.maxFitness else -cfg.maxFitness)
    else 0.0
  }

  /** One pass of the loop in `_eval`: the error of the tree's output on a case. */
  function CaseError(cfg: Config, c: Case, root: Node): Result<real> {
    match Eval(root, c.args, cfg.sem)
    case Err(e) => Err(e)
    case Ok(y) => Ok(cfg.error(y, c.target) + Penalty(cfg, root))
  }

  /** The accumulator `_eval` builds. */
  function Errors(cfg: Config, cases: seq<Case>, root: Node): Result<seq<real>> {
    Collect(cases, (c: Case) => CaseError(cfg, c, root))
  }

  /** `_raw_fitness`: the aggregate of the case errors. */
  function RawFitness(cfg: Config, cases: seq<Case>, root: Node): Result<real> {
    match Errors(cfg, cases, root)
    case Err(e) => Err(e)
    case Ok(es) => Ok(cfg.aggregator(es))
  }

  /** `_standardized_fitness`: raw fitness turned so that lower is better. */
  function StandardizedFitness(cfg: Config, cases: seq<Case>, root: Node): Result<real> {
    match RawFitness(cfg, cases, root)
    case Err(e) => Err(e)
    case Ok(v) => Ok(if cfg.objective == Minimise then v else cfg.maxFitness - v)
  }

  /** `_adjusted_fitness`: `1 / (1 + standardized)`. */
  function AdjustedFitness(cfg: Config, cases: seq<Case>, root: Node): Result<real> {
    match StandardizedFitness(cfg, cases, root)
    case Err(e) => Err(e)
    case Ok(s) => if 1.0 + s == 0.0 then Err(ZeroDivisionError) else Ok(1.0 / (1.0 + s))
  }

  /** `[self._adjusted_fitness(p) for p in population]`. */
  function AdjustedAll(cfg: Config, cases: seq<Case>, roots: seq<Node>): Result<seq<real>> {
    Collect(roots, (r: Node) => AdjustedFitness(cfg, cases, r))
  }

  // ---------------------------------------------------------------------------------
  // Normalized fitness and the average

  /** The `factor` of `average` and `_normalized_fitness`: the summed adjusted fitness of
      the given population, or else the stored aggregate, if any. */
  function Factor(cfg: Config, cases: seq<Case>, cache: Option<real>, pop: Option<seq<Node>>): Result<Option<real>> {
    if pop.None? then Ok(cache)
    else
      match AdjustedAll(cfg, cases, pop.value)
      case Err(e) => Err(e)
      case Ok(adj) => Ok(Some(Sum(adj)))
  }

  /** `_normalized_fitness`: the individual's share of the population's adjusted fitness. */
  function NormalizedFitness(cfg: Config, cases: seq<Case>, cache: Option<real>, root: Node, pop: Option<seq<Node>>): Result<real> {
    match Factor(cfg, cases, cache, pop)
    case Err(e) => Err(e)
    case Ok(None) => Err(InvalidAggregation)
    case Ok(Some(f)) =>
      match AdjustedFitness(cfg, cases, root)
      case Err(e) => Err(e)
      case Ok(a) => if f == 0.0 then Err(ZeroDivisionError) else Ok(a / f)
  }

  /** `average`: the mean adjusted fitness of the given population, or else of the
      population whose aggregate was stored. */
  function Average(cfg: Config, cases: seq<Case>, cache: Option<real>, members: Option<nat>, pop: Option<seq<Node>>): Result<real> {
    match Factor(cfg, cases, cache, pop)
    case Err(e) => Err(e)
    case Ok(None) => Err(InvalidAggregation)
    case Ok(Some(f)) =>
      var m := if pop.None? then members else Some(|pop.value|);
      if m.None? then Err(InvalidAggregation)
      else if m.value == 0 then Err(ZeroDivisionError)
      else Ok(f / m.value as real)
  }

  // ---------------------------------------------------------------------------------
  // Hits

  /** The tree's outputs on the cases, in order. */
  function Outputs(cfg: Config, cases: seq<Case>, root: Node): Result<seq<real>> {
    Collect(cases, (c: Case) => Eval(root, c.args, cfg.sem))
  }

  /** The number of cases whose output is close to the target. */
  function HitCount(cfg: Config, cases: seq<Case>, ys: seq<real>): nat
    requires |ys| == |cases|
  {
    if cases == [] then 0
    else HitCount(cfg, cases[..|cases| - 1], ys[..|ys| - 1])
         + (if cfg.isClose(ys[|ys| - 1], cases[|cases| - 1].target, cfg.bound) then 1 else 0)
  }

  /** `_hits_ratio`: the proportion of cases hit. Each case is evaluated and then tested
      with `math.isclose`, which raises ValueError for a negative relative tolerance; so
      with a negative bound the first case's evaluation decides the exception. */
  function HitsRatioOf(cfg: Config, cases: seq<Case>, root: Node): Result<real> {
    if cases != [] && cfg.bound < 0.0 then
      match Eval(root, cases[0].args, cfg.sem)
      case Err(e) => Err(e)
      case Ok(_) => Err(ValueError)
    else
      match Outputs(cfg, cases, root)
      case Err(e) => Err(e)
      case Ok(ys) =>
        if |cases| == 0 then Err(ZeroDivisionError)
        else Ok(HitCount(cfg, cases, ys) as real / |cases| as real)
  }

  // ---------------------------------------------------------------------------------
  // Dispatch

  /** `fitness(individual, population, measure)`. */
  function FitnessOf(cfg: Config, cases: seq<Case>, cache: Option<real>, root: Node, pop: Option<seq<Node>>, measure: Measure): Result<real> {
    match measure
    case Raw => RawFitness(cfg, cases, root)
    case Standardized => StandardizedFitness(cfg, cases, root)
    case Adjusted => AdjustedFitness(cfg, cases, root)
    case Normalized => NormalizedFitness(cfg, cases, cache, root, pop)
    case HitsRatio => HitsRatioOf(cfg, cases, root)
  }

  /** `[fitness(p, population, measure) for p in roots]`. */
  function Measures(cfg: Config, cases: seq<Case>, cache: Option<real>, roots: seq<Node>, pop: Option<seq<Node>>, measure: Measure): Result<seq<real>> {
    Collect(roots, (r: Node) => FitnessOf(cfg, cases, cache, r, pop, measure))
  }

  // ---------------------------------------------------------------------------------
  // The fitness function object

  class FitnessFunction {
    const cfg: Config
    var cases: seq<Case>
    var aggregateAdjusted: Option<real>
    var aggregateMembers: Option<nat>

    constructor (cfg: Config)
      ensures this.cfg == cfg && cases == [] && aggregateAdjusted == None && aggregateMembers == None
    {
      this.cfg := cfg;
      cases := [];
      aggregateAdjusted := None;
      aggregateMembers := None;
    }

    /** `bind_case(args, target)`: appends a case. */
    method BindCase(args: map<string, real>, target: real)
      modifies this
      ensures cases == old(cases) + [Case(args, target)]
      ensures aggregateAdjusted == old(aggregateAdjusted) && aggregateMembers == old(aggregateMembers)
    {
      cases := cases + [Case(args, target)];
    }

    /** `_eval`: the loop over the cases, accumulating each case's error. */
    method Eval(individual: ParseTree) returns (r: Result<real>)
      ensures r == RawFitness(cfg, cases, individual.root)
    {
      var root := individual.root;
      var accumulator: seq<real> := [];
      for i := 0 to |cases|
        invariant Errors(cfg, cases[..i], root) == Ok(accumulator)
      {
        var c := cases[i];
        var y := Nodes.Eval(root, c.args, cfg.sem);
        if y.Err? {
          CollectFirstErrorAt(cfg, cases, root, i, accumulator);
          return Err(y.error);
        }
        var isTrivial := !IsParameterized(root) && !cfg.allowTrivial;
        var e := cfg.error(y.value, c.target)
                 + (if isTrivial then (if cfg.objective == Minimise then cfg.maxFitness else -cfg.maxFitness) else 0.0);
        assert cases[..i + 1][..i] == cases[..i];
        accumulator := accumulator + [e];
      }
      assert cases[..|cases|] == cases;
      return Ok(cfg.aggregator(accumulator));
    }

    /** `fitness(individual, population, measure)` on the current cases and aggregate. */
    function Fitness(root: Node, pop: Option<seq<Node>>, measure: Measure): Result<real>
      reads this
    {
      FitnessOf(cfg, cases, aggregateAdjusted, root, pop, measure)
    }

    /** `average(population)` on the current cases and aggregate. */
    function AverageOf(pop: Option<seq<Node>>): Result<real>
      reads this
    {
      Average(cfg, cases, aggregateAdjusted, aggregateMembers, pop)
    }

    /** `predefine_aggregate(population)`: stores the population's size, then its summed
        adjusted fitness; when that raises, the size is already stored. */
    method PredefineAggregate(pop: seq<ParseTree>) returns (o: Outcome)
      modifies this
      ensures cases == old(cases) && aggregateMembers == Some(|pop|)
      ensures var adj := AdjustedAll(cfg, cases, Roots(pop));
              && (adj.Ok? ==> o == Pass && aggregateAdjusted == Some(Sum(adj.value)))
              && (adj.Err? ==> o == Fail(adj.error) && aggregateAdjusted == old(aggregateAdjusted))
    {
      aggregateMembers := Some(|pop|);
      var adj := AdjustedAll(cfg, cases, Roots(pop));
      if adj.Err? {
        return Fail(adj.error);
      }
      aggregateAdjusted := Some(Sum(adj.value));
      return Pass;
    }
  }

  /** The loop of `_eval` stops at the first case whose evaluation raises. */
  lemma CollectFirstErrorAt(cfg: Config, cases: seq<Case>, root: Node, i: nat, acc: seq<real>)
    requires i < |cases| && Errors(cfg, cases[..i], root) == Ok(acc)
    requires Eval(root, cases[i].args, cfg.sem).Err?
    ensures RawFitness(cfg, cases, root) == Err(Eval(root, cases[i].args, cfg.sem).error)
  {
    var f := (c: Case) => CaseError(cfg, c, root);
    forall j | 0 <= j < i
      ensures f(cases[j]).Ok?
    {
      assert cases[..i][j] == cases[j];
    }
    CollectFirstError(cases, f, i);
  }

  // ---------------------------------------------------------------------------------
  // Properties of the measures

  /** Standardized fitness ranks individuals the same way for both objectives: lower is
      better, so it follows raw fitness when minimising and reverses it when maximising. */
  lemma StandardizedOrder(cfg: Config, cases: seq<Case>, a: Node, b: Node)
    requires RawFitness(cfg, cases, a).Ok? && RawFitness(cfg, cases, b).Ok?
    ensures StandardizedFitness(cfg, cases, a).Ok? && StandardizedFitness(cfg, cases, b).Ok?
    ensures var ra, rb := RawFitness(cfg, cases, a).value, RawFitness(cfg, cases, b).value;
            StandardizedFitness(cfg, cases, a).value <= StandardizedFitness(cfg, cases, b).value
            <==> (if cfg.objective == Minimise then ra <= rb else rb <= ra)
  {
  }

  lemma ReciprocalBounds(x: real)
    requires x >= 1.0
    ensures 0.0 < 1.0 / x <= 1.0
  {
    var q := 1.0 / x;
    assert q * x == 1.0;
  }

  lemma PositiveFactor(a: real, x: real)
    requires x > 0.0 && a * x >= 0.0
    ensures a >= 0.0
  {
  }

  lemma ReciprocalAntitone(x: real, y: real)
    requires x >= 1.0 && y >= 1.0
    ensures 1.0 / x <= 1.0 / y <==> y <= x
  {
    var p, q := 1.0 / x, 1.0 / y;
    assert p * x == 1.0 && q * y == 1.0;
    ReciprocalBounds(x);
    ReciprocalBounds(y);
    if y <= x {
      assert q * x - q * y == q * (x - y);
      PositiveFactor(x - y, q);
      assert (q - p) * x == q * x - 1.0;
      PositiveFactor(q - p, x);
    } else {
      assert p * y - p * x == p * (y - x);
      assert (p - q) * y == p * y - 1.0;
      PositiveFactor(y - x, p);
      assert p * (y - x) > 0.0;
      if p <= q {
        PositiveFactor(q - p, y);
        assert false;
      }
    }
  }

  /** A non-negative standardized fitness gives an adjusted fitness in (0, 1]. */
  lemma AdjustedRange(cfg: Config, cases: seq<Case>, root: Node)
    requires StandardizedFitness(cfg, cases, root).Ok? && StandardizedFitness(cfg, cases, root).value >= 0.0
    ensures AdjustedFitness(cfg, cases, root).Ok?
    ensures 0.0 < AdjustedFitness(cfg, cases, root).value <= 1.0
  {
    ReciprocalBounds(1.0 + StandardizedFitness(cfg, cases, root).value);
  }

  /** Adjusted fitness reverses standardized fitness: higher is better. */
  lemma AdjustedOrder(cfg: Config, cases: seq<Case>, a: Node, b: Node)
    requires StandardizedFitness(cfg, cases, a).Ok? && StandardizedFitness(cfg, cases, a).value >= 0.0
    requires StandardizedFitness(cfg, cases, b).Ok? && StandardizedFitness(cfg, cases, b).value >= 0.0
    ensures AdjustedFitness(cfg, cases, a).Ok? && AdjustedFitness(cfg, cases, b).Ok?
    ensures AdjustedFitness(cfg, cases, a).value <= AdjustedFitness(cfg, cases, b).value
            <==> StandardizedFitness(cfg, cases, b).value <= StandardizedFitness(cfg, cases, a).value
  {
    ReciprocalAntitone(1.0 + StandardizedFitness(cfg, cases, a).value, 1.0 + StandardizedFitness(cfg, cases, b).value);
  }

  /** With the default aggregator (`sum`), a non-negative error such as the default
      `abs(y - t)`, a non-negative penalty and a minimising objective, every individual
      that evaluates on all cases has an adjusted fitness in (0, 1]. */
  lemma DefaultAdjustedRange(cfg: Config, cases: seq<Case>, root: Node)
    requires cfg.objective == Minimise && cfg.maxFitness >= 0.0
    requires forall s :: cfg.aggregator(s) == Sum(s)
    requires forall y, t :: cfg.error(y, t) >= 0.0
    requires RawFitness(cfg, cases, root).Ok?
    ensures AdjustedFitness(cfg, cases, root).Ok?
    ensures 0.0 < AdjustedFitness(cfg, cases, root).value <= 1.0
  {
    var es := Errors(cfg, cases, root).value;
    forall i | 0 <= i < |es|
      ensures es[i] >= 0.0
    {
      var y := Eval(root, cases[i].args, cfg.sem).value;
      assert es[i] == cfg.error(y, cases[i].target) + Penalty(cfg, root);
    }
    SumNonNegative(es);
    AdjustedRange(cfg, cases, root);
  }

  /** After `predefine_aggregate(population)`, the normalized fitness of the members,
      read from the stored aggregate, is each member's share of the total and the shares
      add up to 1; passing the population explicitly gives the same values. */
  lemma NormalizedDistribution(cfg: Config, cases: seq<Case>, roots: seq<Node>)
    requires AdjustedAll(cfg, cases, roots).Ok?
    requires Sum(AdjustedAll(cfg, cases, roots).value) != 0.0
    ensures var adj := AdjustedAll(cfg, cases, roots).value;
            var nf := Measures(cfg, cases, Some(Sum(adj)), roots, None, Normalized);
            && nf.Ok? && |nf.value| == |roots|
            && (forall i :: 0 <= i < |roots| ==> nf.value[i] == adj[i] / Sum(adj))
            && Sum(nf.value) == 1.0
    ensures forall cache: Option<real> ::
              Measures(cfg, cases, cache, roots, Some(roots), Normalized)
              == Measures(cfg, cases, Some(Sum(AdjustedAll(cfg, cases, roots).value)), roots, None, Normalized)
  {
    var adj := AdjustedAll(cfg, cases, roots).value;
    var total := Sum(adj);
    NormalizedShares(cfg, cases, roots, total);
    var nf := Measures(cfg, cases, Some(total), roots, None, Normalized);
    forall cache: Option<real>
      ensures Measures(cfg, cases, cache, roots, Some(roots), Normalized) == nf
    {
      NormalizedExplicit(cfg, cases, roots, cache);
    }
  }

  /** With the aggregate `total` stored, each member's normalized fitness is its share,
      and the shares add up to 1. */
  lemma NormalizedShares(cfg: Config, cases: seq<Case>, roots: seq<Node>, total: real)
    requires AdjustedAll(cfg, cases, roots).Ok?
    requires total == Sum(AdjustedAll(cfg, cases, roots).value) && total != 0.0
    ensures var nf := Measures(cfg, cases, Some(total), roots, None, Normalized);
            && nf.Ok? && |nf.value| == |roots|
            && (forall i :: 0 <= i < |roots| ==> nf.value[i] == AdjustedAll(cfg, cases, roots).value[i] / total)
            && Sum(nf.value) == 1.0
  {
    var adj := AdjustedAll(cfg, cases, roots).value;
    var f := (r: Node) => FitnessOf(cfg, cases, Some(total), r, None, Normalized);
    forall i | 0 <= i < |roots|
      ensures f(roots[i]) == Ok(adj[i] / total)
    {
      assert AdjustedFitness(cfg, cases, roots[i]) == Ok(adj[i]);
    }
    SharesSumToOne(adj, Measures(cfg, cases, Some(total), roots, None, Normalized).value);
  }

  /** Passing the population explicitly gives the same normalized fitness as reading the
      stored aggregate, whatever was stored before. */
  lemma NormalizedExplicit(cfg: Config, cases: seq<Case>, roots: seq<Node>, cache: Option<real>)
    requires AdjustedAll(cfg, cases, roots).Ok?
    ensures Measures(cfg, cases, cache, roots, Some(roots), Normalized)
            == Measures(cfg, cases, Some(Sum(AdjustedAll(cfg, cases, roots).value)), roots, None, Normalized)
  {
    var total := Sum(AdjustedAll(cfg, cases, roots).value);
    var f := (r: Node) => FitnessOf(cfg, cases, Some(total), r, None, Normalized);
    var g := (r: Node) => FitnessOf(cfg, cases, cache, r, Some(roots), Normalized);
    forall i | 0 <= i < |roots|
      ensures g(roots[i]) == f(roots[i])
    {
      assert Factor(cfg, cases, cache, Some(roots)) == Ok(Some(total));
    }
    CollectSame(roots, g, f);
  }

  /** Two comprehensions whose functions agree on the list agree. */
  lemma {:induction false} CollectSame<T>(xs: seq<T>, f: T -> Result<real>, g: T -> Result<real>)
    requires forall i :: 0 <= i < |xs| ==> f(xs[i]) == g(xs[i])
    ensures Collect(xs, f) == Collect(xs, g)
  {
    if xs != [] {
      var init := xs[..|xs| - 1];
      assert forall i :: 0 <= i < |init| ==> init[i] == xs[i];
      CollectSame(init, f, g);
    }
  }

  /** `average()` after `predefine_aggregate(population)` equals `average(population)`:
      the mean adjusted fitness; an empty population divides by zero, and without either a
      population or a stored aggregate the call raises. */
  lemma AverageCache(cfg: Config, cases: seq<Case>, roots: seq<Node>, cache: Option<real>, members: Option<nat>)
    requires AdjustedAll(cfg, cases, roots).Ok?
    ensures var total := Sum(AdjustedAll(cfg, cases, roots).value);
            && Average(cfg, cases, cache, members, Some(roots)) == Average(cfg, cases, Some(total), Some(|roots|), None)
            && Average(cfg, cases, Some(total), Some(|roots|), None)
               == (if roots == [] then Err(ZeroDivisionError) else Ok(total / |roots| as real))
    ensures Average(cfg, cases, None, members, None) == Err(InvalidAggregation)
    ensures Average(cfg, cases, cache, None, None) == Err(InvalidAggregation)
  {
  }

  lemma {:induction false} HitCountBounds(cfg: Config, cases: seq<Case>, ys: seq<real>)
    requires |ys| == |cases|
    ensures HitCount(cfg, cases, ys) <= |cases|
    ensures HitCount(cfg, cases, ys) == |cases|
            <==> forall i :: 0 <= i < |cases| ==> cfg.isClose(ys[i], cases[i].target, cfg.bound)
  {
    if cases != [] {
      var n := |cases| - 1;
      HitCountBounds(cfg, cases[..n], ys[..n]);
      assert forall i :: 0 <= i < n ==> cases[..n][i] == cases[i] && ys[..n][i] == ys[i];
    }
  }

  lemma RatioBounds(h: nat, n: nat)
    requires 0 < n && h <= n
    ensures 0.0 <= h as real / n as real <= 1.0
    ensures h as real / n as real == 1.0 <==> h == n
  {
    var r := h as real / n as real;
    assert r * n as real == h as real;
    if h < n {
      DivBetween(h as real, n as real, 0.0, 1.0);
    } else {
      DivBetween(h as real, n as real, 0.0, 2.0);
      assert (r - 1.0) * n as real == 0.0;
    }
  }

  /** The hits ratio lies in [0, 1], and it is 1 exactly when every case's output is close
      to its target. */
  lemma HitsRatioLaws(cfg: Config, cases: seq<Case>, root: Node)
    requires HitsRatioOf(cfg, cases, root).Ok?
    ensures 0.0 <= HitsRatioOf(cfg, cases, root).value <= 1.0
    ensures HitsRatioOf(cfg, cases, root).value == 1.0
            <==> forall i :: 0 <= i < |cases| ==>
                   cfg.isClose(Eval(root, cases[i].args, cfg.sem).value, cases[i].target, cfg.bound)
  {
    var ys := Outputs(cfg, cases, root).value;
    HitCountBounds(cfg, cases, ys);
    RatioBounds(HitCount(cfg, cases, ys), |cases|);
  }

  /** The hits ratio's exceptions: ZeroDivisionError without cases, and with a negative
      bound the first case's evaluation error or `math.isclose`'s ValueError; it is a
      number exactly when there are cases, the bound is non-negative and every case
      evaluates. */
  lemma HitsRatioErrors(cfg: Config, cases: seq<Case>, root: Node)
    ensures cases == [] ==> HitsRatioOf(cfg, cases, root) == Err(ZeroDivisionError)
    ensures cases != [] && cfg.bound < 0.0 ==>
              var y := Eval(root, cases[0].args, cfg.sem);
              HitsRatioOf(cfg, cases, root) == Err(if y.Err? then y.error else ValueError)
    ensures HitsRatioOf(cfg, cases, root).Ok?
            <==> cases != [] && cfg.bound >= 0.0
                 && forall i :: 0 <= i < |cases| ==> Eval(root, cases[i].args, cfg.sem).Ok?
  {
    var f := (c: Case) => Eval(root, c.args, cfg.sem);
    assert forall i :: 0 <= i < |cases| ==> f(cases[i]) == Eval(root, cases[i].args, cfg.sem);
    assert Outputs(cfg, cases, root) == Collect(cases, f);
  }
}
