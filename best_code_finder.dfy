/** The search for the best code among `n_codes_to_try` randomly generated
    candidates. Seeds are drawn from the caller's random source in index
    order before any evaluation; candidate `i` is generated and simulated
    from a sub-source seeded by seed `i`; the candidates are reduced with
    `get_best_between` starting from `(None, worse_result())`.

    The code generator, the erasure decoder, the seeded sub-source and the
    simulation result are collaborators whose code is not part of this
    model: they appear as function values, and the result type only through
    its `is_better_than` relation and its `worse_result` constant. */
module BestCodeFinder {
  import opened Wrappers

  /** A `u64` seed. */
  type Seed = x: int | 0 <= x < 0x1_0000_0000_0000_0000

  /** How a candidate is simulated: `n` decoding iterations, or until `n`
      successes and `n` failures were seen. */
  datatype StoppingPolicy = NIterations | NEvents

  /** `CodeAndResult`: a code, if any, and its simulation result. */
  datatype CodeAndResult<Code, Res> = CodeAndResult(code: Option<Code>, result: Res)

  /** What the finder uses of `SimulationResult`. */
  datatype ResultOrder<!Res> = ResultOrder(isBetterThan: (Res, Res) -> bool, worseResult: Res)

  /** The collaborators of one search, other than the code generator.
      `seedFromU64` is `ChaCha8Rng::seed_from_u64`; the two simulations are
      `ErasureDecoder::with_prob(p).for_code(code)` followed by
      `simulate_n_iterations_with_rng(n, rng)` or
      `simulate_until_n_events_are_found_with_rng(n, rng)`. */
  datatype Collaborators<!Src, !Code, !Res> = Collaborators(
    seedFromU64: Seed -> Src,
    simulateNIterations: (Code, real, nat, Src) -> Res,
    simulateUntilNEvents: (Code, real, nat, Src) -> Res,
    order: ResultOrder<Res>)

  /** What a search of one stopping policy reads from its finder. */
  datatype SearchConfig<!Src, !Code> = SearchConfig(
    codeGenerator: Src -> (Code, Src),
    erasureProb: real,
    policy: StoppingPolicy,
    target: nat)

  datatype ConfigError = ProbNotBetween0And1

  /** The check of `with_erasure_prob`. */
  predicate ProbInRange(prob: real) {
    !(prob < 0.0 || prob > 1.0)
  }

  // ---------------------------------------------------------------------------
  // The caller's random source
  // ---------------------------------------------------------------------------

  /** The caller's source after `k` draws of a `u64`. */
  function Advance<R>(draw: R -> (Seed, R), rng: R, k: nat): R {
    if k == 0 then rng else draw(Advance(draw, rng, k - 1)).1
  }

  /** The first `n` seeds the caller's source yields, in order. */
  function DrawSeeds<R>(draw: R -> (Seed, R), rng: R, n: nat): seq<Seed> {
    seq(n, i requires 0 <= i => NthSeed(draw, rng, i))
  }

  /** The seed of the draw that follows `i` draws. */
  function NthSeed<R>(draw: R -> (Seed, R), rng: R, i: nat): Seed {
    draw(Advance(draw, rng, i)).0
  }

  /** `rng.sample_iter(Standard).take(n).collect()`: exactly `n` seeds, the
      i-th being the i-th draw, and the source advanced by exactly `n` draws. */
  method SampleSeeds<R>(draw: R -> (Seed, R), rng: R, n: nat) returns (seeds: seq<Seed>, rngAfter: R)
    ensures |seeds| == n
    ensures forall i :: 0 <= i < n ==> seeds[i] == draw(Advance(draw, rng, i)).0
    ensures seeds == DrawSeeds(draw, rng, n)
    ensures rngAfter == Advance(draw, rng, n)
  {
    seeds, rngAfter := [], rng;
    while |seeds| < n
      invariant |seeds| <= n
      invariant rngAfter == Advance(draw, rng, |seeds|)
      invariant forall i :: 0 <= i < |seeds| ==> seeds[i] == draw(Advance(draw, rng, i)).0
    {
      var next := draw(rngAfter);
      seeds, rngAfter := seeds + [next.0], next.1;
    }
  }

  // ---------------------------------------------------------------------------
  // One candidate, and the reduction
  // ---------------------------------------------------------------------------

  /** `get_rng_for(index)`: a fresh sub-source seeded by seed `index`, which
      every caller keeps in bounds. */
  function GetRngFor<Src, Code, Res>(x: Collaborators<Src, Code, Res>, seeds: seq<Seed>, index: nat): (r: Src)
    requires index < |seeds|
    ensures r == x.seedFromU64(seeds[index])
  {
    x.seedFromU64(seeds[index])
  }

  /** `simulate_one_code_with_rng`: generate a code from `rng`, then simulate
      it under the policy with the same, advanced, source; the decoder hands
      the code back. The two stopping policies differ only in the call. */
  function SimulateOneCodeWithRng<Src, Code, Res>(x: Collaborators<Src, Code, Res>, cfg: SearchConfig<Src, Code>, rng: Src)
    : (r: CodeAndResult<Code, Res>)
    ensures r.code.Some? && r.code.value == cfg.codeGenerator(rng).0
  {
    var generated := cfg.codeGenerator(rng);
    var code, rngAfterGeneration := generated.0, generated.1;
    var result := match cfg.policy
      case NIterations => x.simulateNIterations(code, cfg.erasureProb, cfg.target, rngAfterGeneration)
      case NEvents => x.simulateUntilNEvents(code, cfg.erasureProb, cfg.target, rngAfterGeneration);
    CodeAndResult(Some(code), result)
  }

  /** The identity of the reduction: no code, the worst result. */
  function Identity<Code, Res>(order: ResultOrder<Res>): CodeAndResult<Code, Res> {
    CodeAndResult(None, order.worseResult)
  }

  /** `get_best_between`: `first` only when it is strictly better, so a tie
      goes to `second`. */
  function GetBestBetween<Code, Res>(order: ResultOrder<Res>, first: CodeAndResult<Code, Res>, second: CodeAndResult<Code, Res>)
    : (r: CodeAndResult<Code, Res>)
    ensures r == first || r == second
    ensures order.isBetterThan(first.result, second.result) ==> r == first
    ensures !order.isBetterThan(first.result, second.result) ==> r == second
  {
    if order.isBetterThan(first.result, second.result) then first else second
  }

  /** The reduction of `cs[lo..hi]`, folded from the left starting at the
      identity, as one worker of the parallel reduction does. It returns the
      identity or one of the candidates in the run, and the identity when
      the run is empty. */
  function ReduceRange<Code, Res>(order: ResultOrder<Res>, cs: seq<CodeAndResult<Code, Res>>, lo: nat, hi: nat)
    : (r: CodeAndResult<Code, Res>)
    requires lo <= hi <= |cs|
    ensures hi == lo ==> r == Identity(order)
    ensures r == Identity(order) || exists i :: lo <= i < hi && r == cs[i]
    decreases hi - lo
  {
    if hi == lo then Identity(order)
    else GetBestBetween(order, ReduceRange(order, cs, lo, hi - 1), cs[hi - 1])
  }

  /** The map step: one candidate per index `i < n`, each carrying a code
      and simulated from the sub-source of seed `i`. */
  function Candidates<Src, Code, Res>(x: Collaborators<Src, Code, Res>, cfg: SearchConfig<Src, Code>, seeds: seq<Seed>, n: nat)
    : (r: seq<CodeAndResult<Code, Res>>)
    requires n <= |seeds|
    ensures |r| == n
    ensures forall i :: 0 <= i < n ==> r[i].code.Some?
    ensures forall i :: 0 <= i < n ==> r[i] == SimulateOneCodeWithRng(x, cfg, x.seedFromU64(seeds[i]))
  {
    seq(n, i requires 0 <= i < n => SimulateOneCodeWithRng(x, cfg, GetRngFor(x, seeds, i)))
  }

  /** The map/reduce of `find_with_rng` over the indices `0..n`, once the
      seeds are drawn. With no candidate it is the identity: neither the
      generator nor the decoder is called. */
  function Search<Src, Code, Res>(x: Collaborators<Src, Code, Res>, cfg: SearchConfig<Src, Code>, seeds: seq<Seed>, n: nat)
    : (r: CodeAndResult<Code, Res>)
    requires n <= |seeds|
    ensures n == 0 ==> r == Identity(x.order)
  {
    ReduceRange(x.order, Candidates(x, cfg, seeds, n), 0, n)
  }

  // ---------------------------------------------------------------------------
  // Properties of the reduction
  // ---------------------------------------------------------------------------

  /** `is_better_than` ranks results from worst to best, ties allowed:
      irreflexive, transitive, and "not better" is transitive too. */
  ghost predicate StrictWeakOrder<Res(!new)>(better: (Res, Res) -> bool) {
    && (forall a :: !better(a, a))
    && (forall a, b, c :: better(a, b) && better(b, c) ==> better(a, c))
    && (forall a, b, c :: better(a, c) ==> better(a, b) || better(b, c))
  }

  /** No result is worse than `worse_result()`. */
  ghost predicate WorstIsBottom<Res(!new)>(order: ResultOrder<Res>) {
    forall a :: !order.isBetterThan(order.worseResult, a)
  }

  ghost predicate ValidOrder<Res(!new)>(order: ResultOrder<Res>) {
    StrictWeakOrder(order.isBetterThan) && WorstIsBottom(order)
  }

  /** Neither operand is strictly better than what `get_best_between` keeps. */
  lemma GetBestBetweenKeepsBest<Code, Res(!new)>(order: ResultOrder<Res>, first: CodeAndResult<Code, Res>, second: CodeAndResult<Code, Res>)
    requires StrictWeakOrder(order.isBetterThan)
    ensures var r := GetBestBetween(order, first, second);
      !order.isBetterThan(first.result, r.result) && !order.isBetterThan(second.result, r.result)
  {
  }

  /** `get_best_between` is associative, so any grouping of the candidates in
      index order reduces to the same pair. */
  lemma GetBestBetweenAssociative<Code, Res(!new)>(order: ResultOrder<Res>, a: CodeAndResult<Code, Res>, b: CodeAndResult<Code, Res>, c: CodeAndResult<Code, Res>)
    requires StrictWeakOrder(order.isBetterThan)
    ensures GetBestBetween(order, GetBestBetween(order, a, b), c)
         == GetBestBetween(order, a, GetBestBetween(order, b, c))
  {
    var better := order.isBetterThan;
    if better(a.result, b.result) && !better(a.result, c.result) {
      assert !better(b.result, c.result);
    } else if !better(a.result, b.result) && !better(b.result, c.result) {
      assert !better(a.result, c.result);
    }
  }

  /** No candidate is strictly better than what the reduction keeps. */
  lemma {:induction false} ReduceKeepsBest<Code, Res(!new)>(order: ResultOrder<Res>, cs: seq<CodeAndResult<Code, Res>>, n: nat)
    requires StrictWeakOrder(order.isBetterThan) && n <= |cs|
    ensures forall i :: 0 <= i < n ==> !order.isBetterThan(cs[i].result, ReduceRange(order, cs, 0, n).result)
  {
    if n > 0 {
      ReduceKeepsBest(order, cs, n - 1);
      var better := order.isBetterThan;
      var acc, c := ReduceRange(order, cs, 0, n - 1), cs[n - 1];
      var r := ReduceRange(order, cs, 0, n);
      forall i | 0 <= i < n ensures !better(cs[i].result, r.result) {
        if i < n - 1 {
          assert !better(cs[i].result, acc.result);
        }
      }
    }
  }

  /** The reduction of a non-empty run keeps one of its candidates, and that
      candidate is strictly better than every later one: among equally good
      candidates the last one wins. */
  lemma {:induction false} ReduceKeepsLastOfBest<Code, Res(!new)>(order: ResultOrder<Res>, cs: seq<CodeAndResult<Code, Res>>, n: nat)
    requires WorstIsBottom(order) && 0 < n <= |cs|
    ensures exists j :: 0 <= j < n && ReduceRange(order, cs, 0, n) == cs[j]
                        && forall k :: j < k < n ==> order.isBetterThan(cs[j].result, cs[k].result)
  {
    var better := order.isBetterThan;
    var acc, c := ReduceRange(order, cs, 0, n - 1), cs[n - 1];
    var r := ReduceRange(order, cs, 0, n);
    assert r == GetBestBetween(order, acc, c);
    if better(acc.result, c.result) {
      assert acc.result != order.worseResult;
      ReduceKeepsLastOfBest(order, cs, n - 1);
      var j :| 0 <= j < n - 1 && acc == cs[j]
               && forall k :: j < k < n - 1 ==> better(cs[j].result, cs[k].result);
      assert r == cs[j];
      assert forall k :: j < k < n ==> better(cs[j].result, cs[k].result);
    } else {
      assert r == cs[n - 1];
    }
  }

  /** Reducing two adjacent runs separately and combining them gives the
      reduction of the whole run. */
  lemma {:induction false} ReduceSplit<Code, Res(!new)>(order: ResultOrder<Res>, cs: seq<CodeAndResult<Code, Res>>, lo: nat, mid: nat, hi: nat)
    requires ValidOrder(order) && lo <= mid < hi <= |cs|
    ensures GetBestBetween(order, ReduceRange(order, cs, lo, mid), ReduceRange(order, cs, mid, hi))
         == ReduceRange(order, cs, lo, hi)
    decreases hi - mid
  {
    if hi > mid + 1 {
      ReduceSplit(order, cs, lo, mid, hi - 1);
      GetBestBetweenAssociative(order, ReduceRange(order, cs, lo, mid), ReduceRange(order, cs, mid, hi - 1), cs[hi - 1]);
    }
  }

  /** How the parallel reduction splits a run of candidates: one worker folds
      it, or it is cut in two non-empty halves reduced separately and
      combined in index order. */
  datatype SplitTree = Sequential | Split(at: nat, left: SplitTree, right: SplitTree)

  function ParallelReduce<Code, Res>(order: ResultOrder<Res>, cs: seq<CodeAndResult<Code, Res>>, lo: nat, hi: nat, t: SplitTree)
    : CodeAndResult<Code, Res>
    requires lo <= hi <= |cs|
    decreases t
  {
    match t
    case Sequential => ReduceRange(order, cs, lo, hi)
    case Split(mid, left, right) =>
      if lo < mid < hi then
        GetBestBetween(order, ParallelReduce(order, cs, lo, mid, left), ParallelReduce(order, cs, mid, hi, right))
      else
        ReduceRange(order, cs, lo, hi)
  }

  /** However the work is split, the parallel reduction returns what the
      sequential left fold returns. */
  lemma {:induction false} ParallelReduceIsSequential<Code, Res(!new)>(order: ResultOrder<Res>, cs: seq<CodeAndResult<Code, Res>>, lo: nat, hi: nat, t: SplitTree)
    requires ValidOrder(order) && lo <= hi <= |cs|
    ensures ParallelReduce(order, cs, lo, hi, t) == ReduceRange(order, cs, lo, hi)
    decreases t
  {
    match t
    case Sequential =>
    case Split(mid, left, right) =>
      if lo < mid < hi {
        ParallelReduceIsSequential(order, cs, lo, mid, left);
        ParallelReduceIsSequential(order, cs, mid, hi, right);
        ReduceSplit(order, cs, lo, mid, hi);
      }
  }

  /** Two candidates, the first strictly better: the search keeps the first;
      otherwise it keeps the second. */
  lemma TwoCandidates<Code, Res(!new)>(order: ResultOrder<Res>, a: CodeAndResult<Code, Res>, b: CodeAndResult<Code, Res>)
    requires WorstIsBottom(order)
    ensures ReduceRange(order, [a, b], 0, 2) == if order.isBetterThan(a.result, b.result) then a else b
  {
    assert ReduceRange(order, [a, b], 0, 1) == a;
  }

  /** The search returns a generated code whenever at least one candidate is
      tried, and no candidate's result is strictly better than the returned
      one; the winner is the last of the best candidates. */
  lemma SearchFindsBest<Src, Code, Res(!new)>(x: Collaborators<Src, Code, Res>, cfg: SearchConfig<Src, Code>, seeds: seq<Seed>, n: nat)
    requires ValidOrder(x.order) && n <= |seeds|
    ensures var r := Search(x, cfg, seeds, n);
      && (n > 0 ==> r.code.Some?)
      && (forall i :: 0 <= i < n ==>
            !x.order.isBetterThan(SimulateOneCodeWithRng(x, cfg, GetRngFor(x, seeds, i)).result, r.result))
      && (n > 0 ==> exists j :: 0 <= j < n && r == SimulateOneCodeWithRng(x, cfg, GetRngFor(x, seeds, j)))
  {
    var cs := Candidates(x, cfg, seeds, n);
    assert forall i :: 0 <= i < n ==> cs[i] == SimulateOneCodeWithRng(x, cfg, GetRngFor(x, seeds, i));
    ReduceKeepsBest(x.order, cs, n);
    if n > 0 {
      ReduceKeepsLastOfBest(x.order, cs, n);
      var j :| 0 <= j < n && ReduceRange(x.order, cs, 0, n) == cs[j]
               && forall k :: j < k < n ==> x.order.isBetterThan(cs[j].result, cs[k].result);
      assert cs[j].code.Some?;
    }
  }

  // ---------------------------------------------------------------------------
  // The finders
  // ---------------------------------------------------------------------------

  /** `BestCodeFinderUsingErasure`: the generator, the erasure probability and
      the number of candidates, set by chained setters. */
  class BestCodeFinderUsingErasure<Src, Code> {
    const codeGenerator: Src -> (Code, Src)
    var erasureProb: real
    var nCodesToTry: nat

    /** `from_code_generator`: probability 0.5, no candidate. */
    constructor FromCodeGenerator(codeGenerator: Src -> (Code, Src))
      ensures this.codeGenerator == codeGenerator
      ensures erasureProb == 0.5 && nCodesToTry == 0
    {
      this.codeGenerator := codeGenerator;
      erasureProb := 0.5;
      nCodesToTry := 0;
    }

    method AmongNCodes(nCodes: nat)
      modifies this
      ensures nCodesToTry == nCodes && erasureProb == old(erasureProb)
    {
      nCodesToTry := nCodes;
    }

    /** A probability outside [0, 1] is refused (the source panics) and
        nothing changes; otherwise it is stored and nothing else changes. */
    method WithErasureProb(prob: real) returns (outcome: Outcome<ConfigError>)
      modifies this
      ensures outcome.Pass? <==> ProbInRange(prob)
      ensures outcome == Pass || outcome == Fail(ProbNotBetween0And1)
      ensures erasureProb == if outcome.Pass? then prob else old(erasureProb)
      ensures nCodesToTry == old(nCodesToTry)
    {
      if !ProbInRange(prob) {
        return Fail(ProbNotBetween0And1);
      }
      erasureProb := prob;
      outcome := Pass;
    }

    /** The best of `nCodesToTry` candidates, each simulated over
        `nIterations` decodings: a function of the first `nCodesToTry` draws
        of the caller's source and of the configuration only. */
    method FindBestCodeSimulatingNIterationsWithRng<R, Res>(
      x: Collaborators<Src, Code, Res>, nIterations: nat, draw: R -> (Seed, R), rng: R)
      returns (best: CodeAndResult<Code, Res>, rngAfter: R)
      ensures rngAfter == Advance(draw, rng, nCodesToTry)
      ensures best == Search(x, SearchConfig(codeGenerator, erasureProb, NIterations, nIterations),
                             DrawSeeds(draw, rng, nCodesToTry), nCodesToTry)
    {
      var finder := new PolicyFinder.From(this, NIterations);
      finder.WithTarget(nIterations);
      best, rngAfter := finder.FindWithRng(x, draw, rng);
    }

    /** As above, each candidate simulated until `nEvents` successes and
        `nEvents` failures. */
    method FindBestCodeSimulatingNEventsWithRng<R, Res>(
      x: Collaborators<Src, Code, Res>, nEvents: nat, draw: R -> (Seed, R), rng: R)
      returns (best: CodeAndResult<Code, Res>, rngAfter: R)
      ensures rngAfter == Advance(draw, rng, nCodesToTry)
      ensures best == Search(x, SearchConfig(codeGenerator, erasureProb, NEvents, nEvents),
                             DrawSeeds(draw, rng, nCodesToTry), nCodesToTry)
    {
      var finder := new PolicyFinder.From(this, NEvents);
      finder.WithTarget(nEvents);
      best, rngAfter := finder.FindWithRng(x, draw, rng);
    }
  }

  /** The two private finders `NIterationsBestCodeFinderUsingErasure` and
      `NEventsBestCodeFinderUsingErasure` as one, tagged by its policy. */
  class PolicyFinder<Src, Code> {
    const codeFinder: BestCodeFinderUsingErasure<Src, Code>
    const policy: StoppingPolicy
    var target: nat
    var randomSeeds: seq<Seed>

    /** `from`: target 0, no seed yet. */
    constructor From(codeFinder: BestCodeFinderUsingErasure<Src, Code>, policy: StoppingPolicy)
      ensures this.codeFinder == codeFinder && this.policy == policy
      ensures target == 0 && randomSeeds == []
    {
      this.codeFinder := codeFinder;
      this.policy := policy;
      target := 0;
      randomSeeds := [];
    }

    /** `with_n_iterations` / `with_n_events`. */
    method WithTarget(target: nat)
      modifies this
      ensures this.target == target && randomSeeds == old(randomSeeds)
    {
      this.target := target;
    }

    function Config(): SearchConfig<Src, Code>
      reads this, codeFinder
    {
      SearchConfig(codeFinder.codeGenerator, codeFinder.erasureProb, policy, target)
    }

    /** `initialize_random_seeds_with_rng`: one seed per candidate, drawn in
        order from the caller's source. */
    method InitializeRandomSeedsWithRng<R>(draw: R -> (Seed, R), rng: R) returns (rngAfter: R)
      modifies this
      ensures randomSeeds == DrawSeeds(draw, rng, codeFinder.nCodesToTry)
      ensures rngAfter == Advance(draw, rng, codeFinder.nCodesToTry)
      ensures target == old(target)
    {
      randomSeeds, rngAfter := SampleSeeds(draw, rng, codeFinder.nCodesToTry);
    }

    /** `find_with_rng`: all seeds are drawn before any candidate is
        evaluated, then every candidate index is mapped and reduced. */
    method FindWithRng<R, Res>(x: Collaborators<Src, Code, Res>, draw: R -> (Seed, R), rng: R)
      returns (best: CodeAndResult<Code, Res>, rngAfter: R)
      modifies this
      ensures randomSeeds == DrawSeeds(draw, rng, codeFinder.nCodesToTry)
      ensures rngAfter == Advance(draw, rng, codeFinder.nCodesToTry)
      ensures target == old(target)
      ensures best == Search(x, Config(), randomSeeds, codeFinder.nCodesToTry)
    {
      rngAfter := InitializeRandomSeedsWithRng(draw, rng);
      best := Search(x, Config(), randomSeeds, codeFinder.nCodesToTry);
    }
  }

  /** The reproducibility scenario: a finder with probability 0.25 and ten
      candidates, run twice from two copies of the same caller source under
      each policy, returns equal pairs both times. */
  method Reproducibility<Src, Code(==), Res(==), R>(
    codeGenerator: Src -> (Code, Src), x: Collaborators<Src, Code, Res>, draw: R -> (Seed, R), rng: R)
    returns (sameNIterations: bool, sameNEvents: bool)
    ensures sameNIterations && sameNEvents
  {
    var finder := new BestCodeFinderUsingErasure.FromCodeGenerator(codeGenerator);
    var outcome := finder.WithErasureProb(0.25);
    finder.AmongNCodes(10);
    var first, _ := finder.FindBestCodeSimulatingNIterationsWithRng(x, 50, draw, rng);
    var second, _ := finder.FindBestCodeSimulatingNIterationsWithRng(x, 50, draw, rng);
    sameNIterations := first == second;
    var third, _ := finder.FindBestCodeSimulatingNEventsWithRng(x, 50, draw, rng);
    var fourth, _ := finder.FindBestCodeSimulatingNEventsWithRng(x, 50, draw, rng);
    sameNEvents := third == fourth;
  }
}
