/** The population manager: elitism, a breeding pool of the best ranked
    networks, and children bred by crossover and mutation. The random choices
    and the random arrays are supplied by the caller. */
module GeneticAlgorithm {
  import opened RealMath
  import opened Constants
  import opened NeuralNetwork

  datatype GeneticAlgorithm = GeneticAlgorithm(
    populationSize: nat,
    mutationRate: real,
    selectionSize: nat,
    population: seq<Network>)

  /** `max(1, int(n * SELECTION_PERCENTAGE))`: `int` truncates, which for a
      non-negative product is the floor. */
  function SelectionSizeFor(n: nat): (r: nat)
    ensures r >= 1
    ensures r == 1 || (r as real <= n as real * SelectionPercentage < r as real + 1.0)
    ensures n as real * SelectionPercentage >= 1.0 ==> r as real <= n as real * SelectionPercentage < r as real + 1.0
  {
    var k := (n as real * SelectionPercentage).Floor;
    if k >= 1 then k as nat else 1
  }

  /** The configured population of 50 breeds from its best 10. */
  lemma DefaultSelectionSize()
    ensures SelectionSizeFor(PopulationSize) == 10
  {
  }

  /** The random arrays one `NeuralNetwork()` draws. */
  datatype InitialDraws = InitialDraws(gaussInputHidden: Matrix, gaussHiddenOutput: Matrix)

  predicate InitialDrawsShaped(d: InitialDraws) {
    IsShape(d.gaussInputHidden, InputSize, HiddenSize) && IsShape(d.gaussHiddenOutput, HiddenSize, OutputSize)
  }

  /** `GeneticAlgorithm()` with `_create_initial_population`: POPULATION_SIZE
      fresh networks, the k-th built from the k-th draws. */
  function NewGeneticAlgorithm(m: MathLib, draws: seq<InitialDraws>): (ga: GeneticAlgorithm)
    requires |draws| == PopulationSize
    requires forall k :: 0 <= k < |draws| ==> InitialDrawsShaped(draws[k])
    ensures ga.populationSize == PopulationSize && ga.mutationRate == MutationRate
    ensures ga.selectionSize == SelectionSizeFor(PopulationSize) && ga.selectionSize >= 1
    ensures |ga.population| == ga.populationSize
    ensures forall k :: 0 <= k < |draws| ==> ga.population[k] == FreshNetwork(m, draws[k])
    ensures forall k :: 0 <= k < |ga.population| ==> WellShaped(ga.population[k])
  {
    GeneticAlgorithm(PopulationSize, MutationRate, SelectionSizeFor(PopulationSize),
      seq(|draws|, k requires 0 <= k < |draws| => FreshNetwork(m, draws[k])))
  }

  /** One `NeuralNetwork()` built from its draws. */
  function FreshNetwork(m: MathLib, d: InitialDraws): (n: Network)
    requires InitialDrawsShaped(d)
    ensures WellShaped(n)
  {
    NewNetwork(m, d.gaussInputHidden, d.gaussHiddenOutput)
  }

  /** A network together with the reward its car collected. */
  datatype Ranked = Ranked(brain: Network, reward: real)

  /** The brains of a ranked list, in order. */
  function Brains(ranked: seq<Ranked>): (r: seq<Network>)
    ensures |r| == |ranked|
    ensures forall k :: 0 <= k < |ranked| ==> r[k] == ranked[k].brain
  {
    seq(|ranked|, k requires 0 <= k < |ranked| => ranked[k].brain)
  }

  /** The padding loop of the breeding pool: while the pool holds fewer than 2
      and the population has more than one member, a clone of a randomly chosen
      pool member (the `pick(step)`-th draw, reduced modulo the pool size) is
      appended. */
  function PadPool(pool: seq<Network>, populationSize: nat, pick: nat -> nat, step: nat): (r: seq<Network>)
    requires |pool| >= 1
    ensures |pool| <= |r| && r[..|pool|] == pool
    ensures |r| == if populationSize > 1 && |pool| < 2 then 2 else |pool|
    ensures forall k :: 0 <= k < |r| ==> r[k] in pool
    decreases 2 - |pool|
  {
    if |pool| < 2 && populationSize > 1 then
      var chosen := Clone(pool[pick(step) % |pool|]);
      var r := PadPool(pool + [chosen], populationSize, pick, step + 1);
      assert (pool + [chosen])[..|pool|] == pool;
      r
    else pool
  }

  /** The breeding pool: the first `selectionSize` ranked brains, padded. */
  function BreedingPool(ranked: seq<Ranked>, selectionSize: nat, populationSize: nat, pick: nat -> nat): (pool: seq<Network>)
    requires |ranked| >= 1 && selectionSize >= 1
    ensures |pool| >= 1
    ensures populationSize > 1 ==> |pool| >= 2
    ensures forall k :: 0 <= k < |pool| ==> pool[k] in Take(Brains(ranked), selectionSize)
    ensures Take(Brains(ranked), selectionSize) <= pool
    ensures (forall k :: 0 <= k < |ranked| ==> WellShaped(ranked[k].brain)) ==>
      forall k :: 0 <= k < |pool| ==> WellShaped(pool[k])
  {
    var pool := PadPool(Take(Brains(ranked), selectionSize), populationSize, pick, 0);
    MembersShaped(ranked, selectionSize, pool);
    pool
  }

  /** Networks drawn from the leading ranked brains are shaped when those are. */
  lemma MembersShaped(ranked: seq<Ranked>, selectionSize: nat, pool: seq<Network>)
    requires forall k :: 0 <= k < |pool| ==> pool[k] in Take(Brains(ranked), selectionSize)
    ensures (forall k :: 0 <= k < |ranked| ==> WellShaped(ranked[k].brain)) ==>
      forall k :: 0 <= k < |pool| ==> WellShaped(pool[k])
  {
    var lead := Take(Brains(ranked), selectionSize);
    forall k | 0 <= k < |pool| && (forall j :: 0 <= j < |ranked| ==> WellShaped(ranked[j].brain))
      ensures WellShaped(pool[k])
    {
      var j :| 0 <= j < |lead| && lead[j] == pool[k];
      assert lead[j] == ranked[j].brain;
    }
  }

  /** Python's slice `s[:n]`: the first n elements, or all of them. */
  function Take<T>(s: seq<T>, n: nat): (r: seq<T>)
    ensures |r| == if n <= |s| then n else |s|
    ensures r <= s
  {
    if n <= |s| then s[..n] else s
  }

  /** The draws that breed one child: two pool choices and the random arrays of
      its crossover and of its mutation. */
  datatype Breeding = Breeding(first: nat, second: nat, crossoverDraws: Network, mutationDraws: Network, noise: Network)

  predicate BreedingShaped(b: Breeding) {
    WellShaped(b.crossoverDraws) && WellShaped(b.mutationDraws) && WellShaped(b.noise)
  }

  /** One child: `parent1.crossover(parent2)` followed by `mutate`, the two
      parents chosen from the pool independently, so possibly the same one. */
  function Breed(pool: seq<Network>, b: Breeding): (child: Network)
    requires |pool| >= 1 && BreedingShaped(b)
    requires forall k :: 0 <= k < |pool| ==> WellShaped(pool[k])
    ensures WellShaped(child)
    ensures exists i, j ::
      && 0 <= i < |pool| && 0 <= j < |pool|
      && child == Mutate(Crossover(pool[i], pool[j], b.crossoverDraws), b.mutationDraws, b.noise)
  {
    var i, j := b.first % |pool|, b.second % |pool|;
    Mutate(Crossover(pool[i], pool[j], b.crossoverDraws), b.mutationDraws, b.noise)
  }

  /** One child per breeding, in order. */
  function Children(pool: seq<Network>, breedings: seq<Breeding>): (r: seq<Network>)
    requires |pool| >= 1
    requires forall k :: 0 <= k < |pool| ==> WellShaped(pool[k])
    requires forall k :: 0 <= k < |breedings| ==> BreedingShaped(breedings[k])
    ensures |r| == |breedings|
    ensures forall k :: 0 <= k < |r| ==> r[k] == Breed(pool, breedings[k]) && WellShaped(r[k])
  {
    seq(|breedings|, k requires 0 <= k < |breedings| => Breed(pool, breedings[k]))
  }

  /** `create_next_generation`: the clone of the best brain, then one child per
      remaining slot, bred from the pool. An empty ranking fails in the source
      (it reads element 0). */
  function CreateNextGeneration(ga: GeneticAlgorithm, ranked: seq<Ranked>, pick: nat -> nat, breedings: seq<Breeding>): (r: (GeneticAlgorithm, seq<Network>))
    requires |ranked| >= 1 && ga.selectionSize >= 1
    requires forall k :: 0 <= k < |ranked| ==> WellShaped(ranked[k].brain)
    requires |breedings| == if ga.populationSize >= 1 then ga.populationSize - 1 else 0
    requires forall k :: 0 <= k < |breedings| ==> BreedingShaped(breedings[k])
    ensures var (ga', next) := r;
      && ga'.population == next
      && ga'.populationSize == ga.populationSize && ga'.mutationRate == ga.mutationRate
      && ga'.selectionSize == ga.selectionSize
      && |next| == 1 + |breedings|
      && next[0] == ranked[0].brain
      && (forall k :: 0 <= k < |next| ==> WellShaped(next[k]))
      && next[1..] == Children(BreedingPool(ranked, ga.selectionSize, ga.populationSize, pick), breedings)
  {
    var pool := BreedingPool(ranked, ga.selectionSize, ga.populationSize, pick);
    var next := [Clone(ranked[0].brain)] + Children(pool, breedings);
    (ga.(population := next), next)
  }

  /** A population of size at least one is replaced by one of the same size. */
  lemma NextGenerationKeepsSize(ga: GeneticAlgorithm, ranked: seq<Ranked>, pick: nat -> nat, breedings: seq<Breeding>)
    requires |ranked| >= 1 && ga.selectionSize >= 1 && ga.populationSize >= 1
    requires forall k :: 0 <= k < |ranked| ==> WellShaped(ranked[k].brain)
    requires |breedings| == ga.populationSize - 1
    requires forall k :: 0 <= k < |breedings| ==> BreedingShaped(breedings[k])
    ensures |CreateNextGeneration(ga, ranked, pick, breedings).1| == ga.populationSize
  {
  }

  /** With a single ranked brain and a population of more than one, the pool
      holds two copies of it, so every child's crossover is between equal
      parents and only mutation changes it. */
  lemma SingleSurvivorChildrenAreMutants(ranked: seq<Ranked>, selectionSize: nat, populationSize: nat,
                                         pick: nat -> nat, b: Breeding)
    requires |ranked| == 1 && selectionSize >= 1 && populationSize > 1
    requires WellShaped(ranked[0].brain) && BreedingShaped(b)
    ensures var pool := BreedingPool(ranked, selectionSize, populationSize, pick);
      |pool| == 2 && Breed(pool, b) == Mutate(ranked[0].brain, b.mutationDraws, b.noise)
  {
    var pool := BreedingPool(ranked, selectionSize, populationSize, pick);
    assert pool[0] == ranked[0].brain && pool[1] == ranked[0].brain;
    CrossoverSelf(ranked[0].brain, b.crossoverDraws);
  }
}
