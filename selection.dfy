/** `Selector`: fitness-proportionate (roulette-wheel) and tournament selection. */
module Selection {
  import opened Wrappers
  import opened Nodes
  import opened Trees
  import opened Numerics
  import opened Fitness

  datatype SelectionMethod = FitnessProportionate | Tournament

  // ---------------------------------------------------------------------------------
  // Fitness-proportionate selection

  /** The bin the draw `x` falls in: the first position whose cumulative share exceeds
      `x`, if any. */
  function Bin(nf: seq<real>, x: real): (b: Option<nat>)
    ensures b.Some? ==> b.value < |nf| && x < PrefixSum(nf, b.value)
    ensures b.Some? ==> forall j :: 0 <= j < b.value ==> PrefixSum(nf, j) <= x
    ensures b.None? ==> forall j :: 0 <= j < |nf| ==> PrefixSum(nf, j) <= x
  {
    BinFrom(nf, x, 0)
  }

  function BinFrom(nf: seq<real>, x: real, i: nat): (b: Option<nat>)
    requires i <= |nf|
    requires forall j :: 0 <= j < i ==> PrefixSum(nf, j) <= x
    ensures b.Some? ==> i <= b.value < |nf| && x < PrefixSum(nf, b.value)
    ensures b.Some? ==> forall j :: 0 <= j < b.value ==> PrefixSum(nf, j) <= x
    ensures b.None? ==> forall j :: 0 <= j < |nf| ==> PrefixSum(nf, j) <= x
    decreases |nf| - i
  {
    if i == |nf| then None
    else if x < PrefixSum(nf, i) then Some(i)
    else BinFrom(nf, x, i + 1)
  }

  /** `_select_proportionate` after the aggregate `total` is stored: the position of the
      selected individual, or `None` when the draw is beyond every bin. */
  function ProportionateIndex(cfg: Config, cases: seq<Case>, total: real, roots: seq<Node>, x: real): (r: Result<Option<nat>>)
    ensures r.Ok? && r.value.Some? ==> r.value.value < |roots|
  {
    match Measures(cfg, cases, Some(total), roots, None, Normalized)
    case Err(e) => Err(e)
    case Ok(nf) => Ok(Bin(nf, x))
  }

  /** Roulette wheel: with non-negative shares, individual `i` is selected exactly when
      the draw lies in `[nf[0] + ... + nf[i-1], nf[0] + ... + nf[i])`, an interval as wide
      as its share. */
  lemma BinInterval(nf: seq<real>, x: real, i: nat)
    requires i < |nf| && x >= 0.0
    requires forall k :: 0 <= k < |nf| ==> nf[k] >= 0.0
    ensures Bin(nf, x) == Some(i)
            <==> (if i == 0 then 0.0 else PrefixSum(nf, i - 1)) <= x < PrefixSum(nf, i)
  {
    if (if i == 0 then 0.0 else PrefixSum(nf, i - 1)) <= x < PrefixSum(nf, i) {
      forall j | 0 <= j < i
        ensures PrefixSum(nf, j) <= x
      {
        PrefixSumMonotone(nf, j, i - 1);
      }
    }
  }

  /** When the shares are non-negative and add up to 1, every draw from [0, 1) selects
      somebody. */
  lemma BinExists(nf: seq<real>, x: real)
    requires forall k :: 0 <= k < |nf| ==> nf[k] >= 0.0
    requires Sum(nf) == 1.0 && 0.0 <= x < 1.0
    ensures Bin(nf, x).Some?
  {
    assert nf != [];
    assert nf[..|nf|] == nf;
    assert PrefixSum(nf, |nf| - 1) == 1.0;
  }

  /** Under the default measures every member's adjusted fitness is positive. */
  lemma DefaultPositive(cfg: Config, cases: seq<Case>, roots: seq<Node>)
    requires cfg.objective == Minimise && cfg.maxFitness >= 0.0
    requires forall s :: cfg.aggregator(s) == Sum(s)
    requires forall y, t :: cfg.error(y, t) >= 0.0
    requires forall i :: 0 <= i < |roots| ==> RawFitness(cfg, cases, roots[i]).Ok?
    ensures AdjustedAll(cfg, cases, roots).Ok?
    ensures forall i :: 0 <= i < |roots| ==> AdjustedAll(cfg, cases, roots).value[i] > 0.0
  {
    forall i | 0 <= i < |roots|
      ensures AdjustedFitness(cfg, cases, roots[i]).Ok? && AdjustedFitness(cfg, cases, roots[i]).value > 0.0
    {
      DefaultAdjustedRange(cfg, cases, roots[i]);
    }
  }

  lemma SharesNonNegative(adj: seq<real>, total: real, nf: seq<real>)
    requires total > 0.0 && |nf| == |adj|
    requires forall k :: 0 <= k < |adj| ==> adj[k] > 0.0 && nf[k] == adj[k] / total
    ensures forall k :: 0 <= k < |nf| ==> nf[k] >= 0.0
  {
    forall k | 0 <= k < |nf|
      ensures nf[k] >= 0.0
    {
      DivBetween(adj[k], total, 0.0, adj[k] / total + 1.0);
    }
  }

  /** Under the default measures (a minimising, sum-of-non-negative-errors fitness), a
      non-empty population that evaluates on every case always yields a selection: the
      normalized shares are non-negative and add up to 1, so each draw from [0, 1) falls in
      some member's bin. */
  lemma ProportionateSelects(cfg: Config, cases: seq<Case>, roots: seq<Node>, x: real)
    requires cfg.objective == Minimise && cfg.maxFitness >= 0.0
    requires forall s :: cfg.aggregator(s) == Sum(s)
    requires forall y, t :: cfg.error(y, t) >= 0.0
    requires roots != [] && forall i :: 0 <= i < |roots| ==> RawFitness(cfg, cases, roots[i]).Ok?
    requires 0.0 <= x < 1.0
    ensures AdjustedAll(cfg, cases, roots).Ok?
    ensures ProportionateIndex(cfg, cases, Sum(AdjustedAll(cfg, cases, roots).value), roots, x).Ok?
    ensures ProportionateIndex(cfg, cases, Sum(AdjustedAll(cfg, cases, roots).value), roots, x).value.Some?
  {
    DefaultPositive(cfg, cases, roots);
    var adj := AdjustedAll(cfg, cases, roots).value;
    SumPositive(adj);
    var total := Sum(adj);
    NormalizedDistribution(cfg, cases, roots);
    var nf := Measures(cfg, cases, Some(total), roots, None, Normalized).value;
    SharesNonNegative(adj, total, nf);
    BinExists(nf, x);
  }

  // ---------------------------------------------------------------------------------
  // Tournament selection

  /** A valid proportion of a non-empty population draws between 1 and all of it. */
  lemma TournamentSize(p: real, n: nat)
    requires 0.0 < p <= 1.0 && n >= 1
    ensures 1 <= Ceil(p * n as real) <= n
  {
    assert (1.0 - p) * n as real >= 0.0;
    assert p * n as real > 0.0;
  }

  /** `_select_tournament` on the draws `picks` of `random.choices`: the position among
      the draws of the first one with the highest adjusted fitness. */
  function TournamentIndex(cfg: Config, cases: seq<Case>, roots: seq<Node>, proportion: real, picks: seq<nat>): (r: Result<nat>)
    requires forall k :: 0 <= k < |picks| ==> picks[k] < |roots|
    ensures !(0.0 < proportion <= 1.0) ==> r == Err(InvalidTournamentProportion)
    ensures 0.0 < proportion <= 1.0 && picks == [] ==> r == Err(ValueError)
    ensures (&& 0.0 < proportion <= 1.0 && picks != []
             && forall k :: 0 <= k < |picks| ==> AdjustedFitness(cfg, cases, roots[picks[k]]).Ok?)
            ==> r.Ok?
    ensures r.Ok? ==>
              && r.value < |picks|
              && (forall k :: 0 <= k < |picks| ==> AdjustedFitness(cfg, cases, roots[picks[k]]).Ok?)
              && (forall k :: 0 <= k < |picks| ==>
                    AdjustedFitness(cfg, cases, roots[picks[k]]).value
                    <= AdjustedFitness(cfg, cases, roots[picks[r.value]]).value)
              && (forall k :: 0 <= k < r.value ==>
                    AdjustedFitness(cfg, cases, roots[picks[k]]).value
                    < AdjustedFitness(cfg, cases, roots[picks[r.value]]).value)
  {
    if !(0.0 < proportion <= 1.0) then Err(InvalidTournamentProportion)
    else
      SampledFitness(cfg, cases, roots, picks);
      match Collect(Sampled(roots, picks), (s: Node) => AdjustedFitness(cfg, cases, s))
      case Err(e) => Err(e)
      case Ok(values) => if values == [] then Err(ValueError) else Ok(ArgMax(values))
  }

  /** The sample's adjusted fitness values are those of the drawn members, in draw order. */
  lemma SampledFitness(cfg: Config, cases: seq<Case>, roots: seq<Node>, picks: seq<nat>)
    requires forall k :: 0 <= k < |picks| ==> picks[k] < |roots|
    ensures var c := Collect(Sampled(roots, picks), (s: Node) => AdjustedFitness(cfg, cases, s));
            && (c.Ok? <==> forall k :: 0 <= k < |picks| ==> AdjustedFitness(cfg, cases, roots[picks[k]]).Ok?)
            && (c.Ok? ==> |c.value| == |picks|
                          && forall k :: 0 <= k < |picks| ==> c.value[k] == AdjustedFitness(cfg, cases, roots[picks[k]]).value)
  {
    var sub := Sampled(roots, picks);
    assert forall k :: 0 <= k < |picks| ==> sub[k] == roots[picks[k]];
  }

  /** `random.choices(population, k)` for the drawn positions `picks`. */
  function Sampled(roots: seq<Node>, picks: seq<nat>): (sub: seq<Node>)
    requires forall k :: 0 <= k < |picks| ==> picks[k] < |roots|
    ensures |sub| == |picks| && forall k :: 0 <= k < |picks| ==> sub[k] == roots[picks[k]]
  {
    seq(|picks|, k requires 0 <= k < |picks| => roots[picks[k]])
  }

  /** A tournament whose sampled individuals' fitness raises fails with the exception of
      the first of them. */
  lemma TournamentFirstError(cfg: Config, cases: seq<Case>, roots: seq<Node>, proportion: real, picks: seq<nat>, k: nat)
    requires forall k :: 0 <= k < |picks| ==> picks[k] < |roots|
    requires 0.0 < proportion <= 1.0 && k < |picks|
    requires AdjustedFitness(cfg, cases, roots[picks[k]]).Err?
    requires forall j :: 0 <= j < k ==> AdjustedFitness(cfg, cases, roots[picks[j]]).Ok?
    ensures TournamentIndex(cfg, cases, roots, proportion, picks) == Err(AdjustedFitness(cfg, cases, roots[picks[k]]).error)
  {
    CollectFirstError(Sampled(roots, picks), (s: Node) => AdjustedFitness(cfg, cases, s), k);
  }

  /** On a one-member population both strategies pick that member: its normalized share
      is 1, so every draw from [0, 1) falls in its bin, and every tournament sample is it. */
  lemma SingletonSelected(cfg: Config, cases: seq<Case>, r: Node, x: real, proportion: real, picks: seq<nat>)
    requires AdjustedAll(cfg, cases, [r]).Ok? && Sum(AdjustedAll(cfg, cases, [r]).value) != 0.0
    requires 0.0 <= x < 1.0
    requires forall k :: 0 <= k < |picks| ==> picks[k] < 1
    ensures ProportionateIndex(cfg, cases, Sum(AdjustedAll(cfg, cases, [r]).value), [r], x) == Ok(Some(0))
    ensures var t := TournamentIndex(cfg, cases, [r], proportion, picks);
            t.Ok? ==> picks[t.value] == 0
  {
    var total := Sum(AdjustedAll(cfg, cases, [r]).value);
    NormalizedShares(cfg, cases, [r], total);
    var nf := Measures(cfg, cases, Some(total), [r], None, Normalized).value;
    assert nf[..1] == nf;
    assert x < PrefixSum(nf, 0);
  }

  /** `cf = nf.copy()` and the loop that turns it into cumulative frequencies in place. */
  method Cumulate(nf: seq<real>) returns (cf: array<real>)
    ensures fresh(cf) && cf.Length == |nf|
    ensures forall j :: 0 <= j < |nf| ==> cf[j] == PrefixSum(nf, j)
  {
    cf := new real[|nf|](i requires 0 <= i < |nf| => nf[i]);
    if cf.Length == 0 {
      return;
    }
    assert nf[..1][..0] == [];
    assert Sum(nf[..1]) == Sum(nf[..1][..0]) + nf[..1][0];
    for i := 1 to cf.Length
      invariant forall j :: 0 <= j < i ==> cf[j] == PrefixSum(nf, j)
      invariant forall j :: i <= j < cf.Length ==> cf[j] == nf[j]
    {
      assert nf[..i + 1][..i] == nf[..i];
      cf[i] := cf[i] + cf[i - 1];
    }
  }

  /** The scan over the cumulative frequencies for the first bin above the draw. */
  method FirstAbove(cf: array<real>, nf: seq<real>, x: real) returns (b: Option<nat>)
    requires cf.Length == |nf| && forall j :: 0 <= j < |nf| ==> cf[j] == PrefixSum(nf, j)
    ensures b == Bin(nf, x)
  {
    for i := 0 to cf.Length
      invariant forall j :: 0 <= j < i ==> PrefixSum(nf, j) <= x
    {
      if x < cf[i] {
        return Some(i);
      }
    }
    return None;
  }

  /** `_select_proportionate`'s outcome when `random.random()` draws `x` and the stored
      aggregate is `aggregate`: the member whose roulette bin holds `x`, nobody, or the
      exception raised. */
  predicate ProportionateOutcome(cfg: Config, cases: seq<Case>, pop: seq<ParseTree>, aggregate: real,
                                 x: real, r: Result<Option<ParseTree>>)
    reads set t | t in pop
  {
    && 0.0 <= x < 1.0
    && var k := ProportionateIndex(cfg, cases, aggregate, Roots(pop), x);
       && (k.Err? ==> r == Err(k.error))
       && (k.Ok? && k.value.None? ==> r == Ok(None))
       && (k.Ok? && k.value.Some? ==> r == Ok(Some(pop[k.value.value])))
  }

  /** `_select_proportionate` with its draw taken: when an adjusted fitness raises, that
      exception with the stored aggregate left as `before`; otherwise the sum of adjusted
      fitness is stored as `after` and the result is the roulette outcome of some draw. */
  ghost predicate ProportionateSelected(cfg: Config, cases: seq<Case>, pop: seq<ParseTree>, before: Option<real>,
                                        after: Option<real>, r: Result<Option<ParseTree>>)
    reads set t | t in pop
  {
    var adj := AdjustedAll(cfg, cases, Roots(pop));
    && (adj.Err? ==> r == Err(adj.error) && after == before)
    && (adj.Ok? ==> after == Some(Sum(adj.value)))
    && (adj.Ok? ==> exists x: real :: ProportionateOutcome(cfg, cases, pop, Sum(adj.value), x, r))
  }

  /** `_select_tournament`'s outcome when `random.choices` draws the positions `picks`:
      the sampled member of highest adjusted fitness, or the exception raised. */
  predicate TournamentOutcome(cfg: Config, cases: seq<Case>, pop: seq<ParseTree>, proportion: real,
                              picks: seq<nat>, r: Result<Option<ParseTree>>)
    reads set t | t in pop
  {
    && (forall k :: 0 <= k < |picks| ==> picks[k] < |pop|)
    && var i := TournamentIndex(cfg, cases, Roots(pop), proportion, picks);
       && (i.Err? ==> r == Err(i.error))
       && (i.Ok? ==> r == Ok(Some(pop[picks[i.value]])))
  }

  // ---------------------------------------------------------------------------------
  // The selector object

  class Selector {
    const fitness: FitnessFunction
    const strategy: SelectionMethod
    const proportion: real

    /** `Selector(fitness, method, proportion)`, with the source's defaults. */
    constructor (fitness: FitnessFunction, strategy: SelectionMethod := FitnessProportionate, proportion: real := 0.3)
      ensures this.fitness == fitness && this.strategy == strategy && this.proportion == proportion
    {
      this.fitness := fitness;
      this.strategy := strategy;
      this.proportion := proportion;
    }

    /** `_select_proportionate` for the draw `x` of `random.random()`: stores the
        population's aggregate, takes each member's normalized fitness from it, turns the
        shares into cumulative bins and returns the member whose bin holds `x`; a draw
        beyond every bin selects nobody. */
    method SelectProportionate(pop: seq<ParseTree>, x: real) returns (r: Result<Option<ParseTree>>)
      modifies fitness
      ensures fitness.cases == old(fitness.cases) && fitness.aggregateMembers == Some(|pop|)
      ensures var adj := AdjustedAll(fitness.cfg, fitness.cases, Roots(pop));
              && (adj.Err? ==> r == Err(adj.error) && fitness.aggregateAdjusted == old(fitness.aggregateAdjusted))
              && (adj.Ok? ==> fitness.aggregateAdjusted == Some(Sum(adj.value)))
              && (adj.Ok? ==>
                    var k := ProportionateIndex(fitness.cfg, fitness.cases, Sum(adj.value), Roots(pop), x);
                    && (k.Err? ==> r == Err(k.error))
                    && (k.Ok? && k.value.None? ==> r == Ok(None))
                    && (k.Ok? && k.value.Some? ==> r == Ok(Some(pop[k.value.value]))))
    {
      var o := fitness.PredefineAggregate(pop);
      if o.Fail? {
        return Err(o.error);
      }
      var shares := Measures(fitness.cfg, fitness.cases, fitness.aggregateAdjusted, Roots(pop), None, Normalized);
      if shares.Err? {
        return Err(shares.error);
      }
      var cf := Cumulate(shares.value);
      var b := FirstAbove(cf, shares.value, x);
      if b.None? {
        return Ok(None);
      }
      return Ok(Some(pop[b.value]));
    }

    /** `_select_tournament` for the draws `picks` of `random.choices`: the sampled member
        with the highest adjusted fitness, the first such on a tie. */
    method SelectTournament(pop: seq<ParseTree>, picks: seq<nat>) returns (r: Result<ParseTree>)
      requires forall k :: 0 <= k < |picks| ==> picks[k] < |pop|
      ensures var i := TournamentIndex(fitness.cfg, fitness.cases, Roots(pop), proportion, picks);
              && (i.Err? ==> r == Err(i.error))
              && (i.Ok? ==> r == Ok(pop[picks[i.value]]))
    {
      var i := TournamentIndex(fitness.cfg, fitness.cases, Roots(pop), proportion, picks);
      if i.Err? {
        return Err(i.error);
      }
      return Ok(pop[picks[i.value]]);
    }

    /** `select(population)`: the configured method, with its random draws taken here. */
    method Select(pop: seq<ParseTree>) returns (r: Result<Option<ParseTree>>)
      modifies fitness
      ensures fitness.cases == old(fitness.cases)
      ensures r.Ok? && r.value.Some? ==> r.value.value in pop
      ensures strategy == Tournament ==>
                && fitness.aggregateAdjusted == old(fitness.aggregateAdjusted)
                && fitness.aggregateMembers == old(fitness.aggregateMembers)
                && (!(0.0 < proportion <= 1.0) ==> r == Err(InvalidTournamentProportion))
                && (0.0 < proportion <= 1.0 && pop == [] ==> r == Err(ValueError))
                && (r.Ok? ==> r.value.Some?)
                && exists picks: seq<nat> ::
                     && (0.0 < proportion <= 1.0 ==> |picks| == Ceil(proportion * |pop| as real))
                     && TournamentOutcome(fitness.cfg, fitness.cases, pop, proportion, picks, r)
      ensures strategy == FitnessProportionate ==>
                && fitness.aggregateMembers == Some(|pop|)
                && ProportionateSelected(fitness.cfg, fitness.cases, pop, old(fitness.aggregateAdjusted),
                                         fitness.aggregateAdjusted, r)
    {
      if strategy == FitnessProportionate {
        var x: real :| 0.0 <= x < 1.0;
        r := SelectProportionate(pop, x);
        ghost var adj := AdjustedAll(fitness.cfg, fitness.cases, Roots(pop));
        if adj.Ok? {
          assert ProportionateOutcome(fitness.cfg, fitness.cases, pop, Sum(adj.value), x, r);
        }
        assert ProportionateSelected(fitness.cfg, fitness.cases, pop, old(fitness.aggregateAdjusted),
                                     fitness.aggregateAdjusted, r);
      } else {
        var picks: seq<nat> := [];
        if 0.0 < proportion <= 1.0 && pop != [] {
          TournamentSize(proportion, |pop|);
          var size := Ceil(proportion * |pop| as real);
          var zeros: seq<nat> := seq(size, _ => 0);
          assert |zeros| == size && forall k :: 0 <= k < |zeros| ==> zeros[k] < |pop|;
          picks :| |picks| == size && forall k :: 0 <= k < |picks| ==> picks[k] < |pop|;
          assert picks != [];
        }
        if 0.0 < proportion <= 1.0 && pop == [] {
          assert Ceil(proportion * |pop| as real) == 0;
        }
        var t := SelectTournament(pop, picks);
        r := if t.Ok? then Ok(Some(t.value)) else Err(t.error);
        assert TournamentOutcome(fitness.cfg, fitness.cases, pop, proportion, picks, r);
      }
    }
  }
}
