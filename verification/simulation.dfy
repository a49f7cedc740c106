/** The generation scheduler: a state machine over the tick counter, the
    generation index, the cars of the running generation and the per-generation
    counters. One call of `Frame` is one pass through the training part of the
    frame loop. */
module Simulation {
  import opened Wrappers
  import opened RealMath
  import opened Constants
  import opened Geometry
  import opened NeuralNetwork
  import opened GeneticAlgorithm
  import opened ParkingSpot
  import opened Agent

  /** The static world of a run: the target spot, the obstacle cars and the
      spawn pose of every car. */
  datatype Scenario = Scenario(spot: Rect, obstacles: seq<Rect>, spawn: Vec2, spawnAngle: real)

  /** The scenario the trainer starts from: the spot in the middle of the
      screen, one obstacle car on either side of it, and the spawn point near
      the lower-left corner, heading left. */
  function DefaultScenario(): (sc: Scenario)
    ensures sc.spot == DefaultSpot(ScreenWidth / 2.0, ScreenHeight / 2.0)
    ensures |sc.obstacles| == 2
    ensures forall k :: 0 <= k < 2 ==>
      && sc.obstacles[k].angle == sc.spot.angle
      && sc.obstacles[k].center.y == sc.spot.center.y
      && Abs(sc.obstacles[k].center.x - sc.spot.center.x) == ParkHeight
    ensures sc.spawn == Vec2(100.0, ScreenHeight - 100.0) && sc.spawnAngle == -90.0
  {
    var spot := DefaultSpot(ScreenWidth / 2.0, ScreenHeight / 2.0);
    Scenario(spot,
      [ObstacleBody(Vec2(spot.center.x + ParkHeight, spot.center.y), spot.angle),
       ObstacleBody(Vec2(spot.center.x - ParkHeight, spot.center.y), spot.angle)],
      Vec2(100.0, ScreenHeight - 100.0), -90.0)
  }

  /** The trainer's state. `best` is the best reward of the generation, `None`
      standing for minus infinity. */
  datatype Session = Session(
    generation: nat,
    ga: GeneticAlgorithm,
    cars: seq<Car>,
    tick: int,
    best: Option<real>,
    parkedCount: nat,
    collisionCount: nat)

  // ---------------------------------------------------------------------
  // Counting

  /** The number of true entries. */
  function Count(s: seq<bool>): (n: nat)
    ensures n <= |s|
  {
    if s == [] then 0 else Count(s[..|s| - 1]) + (if s[|s| - 1] then 1 else 0)
  }

  /** Counting a pointwise disjoint union adds the counts. */
  lemma {:induction false} CountDisjointUnion(a: seq<bool>, b: seq<bool>, c: seq<bool>)
    requires |a| == |b| == |c|
    requires forall i :: 0 <= i < |a| ==> (a[i] <==> b[i] || c[i]) && !(b[i] && c[i])
    ensures Count(a) == Count(b) + Count(c)
  {
    if a != [] {
      CountDisjointUnion(a[..|a| - 1], b[..|b| - 1], c[..|c| - 1]);
    }
  }

  /** Counting nothing. */
  lemma {:induction false} CountNone(a: seq<bool>)
    requires forall i :: 0 <= i < |a| ==> !a[i]
    ensures Count(a) == 0
  {
    if a != [] {
      CountNone(a[..|a| - 1]);
    }
  }

  /** The cars that finished parked. */
  function ParkedFlags(cars: seq<Car>): (r: seq<bool>)
    ensures |r| == |cars|
    ensures forall i :: 0 <= i < |cars| ==> (r[i] <==> !cars[i].active && cars[i].parked)
  {
    seq(|cars|, i requires 0 <= i < |cars| => !cars[i].active && cars[i].parked)
  }

  /** The cars that finished by a collision without parking. */
  function CollidedFlags(cars: seq<Car>): (r: seq<bool>)
    ensures |r| == |cars|
    ensures forall i :: 0 <= i < |cars| ==> (r[i] <==> !cars[i].active && !cars[i].parked && cars[i].collided)
  {
    seq(|cars|, i requires 0 <= i < |cars| => !cars[i].active && !cars[i].parked && cars[i].collided)
  }

  /** The cars that were active before the tick and parked during it. */
  function NewlyParked(before: seq<Car>, after: seq<Car>): (r: seq<bool>)
    requires |before| == |after|
    ensures |r| == |before|
  {
    seq(|before|, i requires 0 <= i < |before| => before[i].active && !after[i].active && after[i].parked)
  }

  /** The cars that were active before the tick and collided during it. */
  function NewlyCollided(before: seq<Car>, after: seq<Car>): (r: seq<bool>)
    requires |before| == |after|
    ensures |r| == |before|
  {
    seq(|before|, i requires 0 <= i < |before| => before[i].active && !after[i].active && !after[i].parked && after[i].collided)
  }

  // ---------------------------------------------------------------------
  // Setting up a generation

  /** `setup_new_generation`: POPULATION_SIZE fresh cars at the spawn pose, the
      i-th driven by the i-th network of the population, each remembering its
      spawn distance to the spot; the counters start over. The source reads
      `brains[i]`, so the population must be that large. */
  function SetupNewGeneration(m: MathLib, sc: Scenario, s: Session): (r: Session)
    requires |s.ga.population| >= PopulationSize
    ensures r.generation == s.generation && r.ga == s.ga
    ensures |r.cars| == PopulationSize
    ensures forall i :: 0 <= i < PopulationSize ==>
      r.cars[i] == NewCar(sc.spawn, sc.spawnAngle, s.ga.population[i], Distance(m, sc.spawn, sc.spot.center))
    ensures r.tick == 0 && r.best == None && r.parkedCount == 0 && r.collisionCount == 0
  {
    var d := Distance(m, sc.spawn, sc.spot.center);
    var cars := seq(PopulationSize, i requires 0 <= i < PopulationSize => NewCar(sc.spawn, sc.spawnAngle, s.ga.population[i], d));
    Session(s.generation, s.ga, cars, 0, None, 0, 0)
  }

  // ---------------------------------------------------------------------
  // The tick

  /** One car's tick: update, then the collision check, then the reward. */
  function StepCar(m: MathLib, sc: Scenario, c: Car): (r: Car)
    requires c.active ==> WellShaped(c.brain) && SteeringInRange(c.steering)
    ensures !c.active ==> r == c
    ensures r.brain == c.brain
    ensures SteeringInRange(c.steering) ==> SteeringInRange(r.steering)
    ensures VelocityInRange(c.velocity) ==> VelocityInRange(r.velocity)
    ensures c.active && !r.active ==> r.parked || r.collided
  {
    CalculateReward(m, CheckCollisions(m, Update(m, c, sc.spot), sc.obstacles), sc.spot).0
  }

  ghost predicate CarsDrivable(cars: seq<Car>) {
    forall i :: 0 <= i < |cars| ==>
      WellShaped(cars[i].brain) && SteeringInRange(cars[i].steering) && VelocityInRange(cars[i].velocity)
  }

  /** The cars after a tick in which every car active at its start is
      advanced; the others are left as they are. */
  function StepCars(m: MathLib, sc: Scenario, cars: seq<Car>): (r: seq<Car>)
    requires CarsDrivable(cars)
    ensures |r| == |cars| && CarsDrivable(r)
    ensures forall i :: 0 <= i < |cars| && !cars[i].active ==> r[i] == cars[i]
    ensures forall i :: 0 <= i < |cars| && cars[i].active && !r[i].active ==> r[i].parked || r[i].collided
  {
    seq(|cars|, i requires 0 <= i < |cars| => if cars[i].active then StepCar(m, sc, cars[i]) else cars[i])
  }

  /** Every car active at the start of the tick takes one step. */
  lemma StepCarsStepActive(m: MathLib, sc: Scenario, cars: seq<Car>, i: nat)
    requires CarsDrivable(cars) && i < |cars| && cars[i].active
    ensures StepCars(m, sc, cars)[i] == StepCar(m, sc, cars[i])
  {
  }

  predicate AnyActive(cars: seq<Car>) {
    exists i :: 0 <= i < |cars| && cars[i].active
  }

  /** The session after the cars are replaced by `after` and the counters
      take in the cars that retired meanwhile. */
  function Advanced(s: Session, after: seq<Car>): (r: Session)
    requires |after| == |s.cars|
    ensures r.cars == after && r.tick == s.tick && r.generation == s.generation && r.ga == s.ga && r.best == s.best
    ensures r.parkedCount == s.parkedCount + Count(NewlyParked(s.cars, after))
    ensures r.collisionCount == s.collisionCount + Count(NewlyCollided(s.cars, after))
  {
    s.(cars := after,
       parkedCount := s.parkedCount + Count(NewlyParked(s.cars, after)),
       collisionCount := s.collisionCount + Count(NewlyCollided(s.cars, after)))
  }

  /** Lines 197-213: while the generation's time is not up, advance the active
      cars and count those that stopped during the tick, parked ones as parked
      and the rest as collided; with no active car left, jump to the end of the
      generation. */
  function TickPhase(m: MathLib, sc: Scenario, s: Session): (r: Session)
    requires CarsDrivable(s.cars)
    ensures CarsDrivable(r.cars) && |r.cars| == |s.cars|
    ensures r.generation == s.generation && r.ga == s.ga && r.best == s.best
    ensures s.tick >= SimulationDurationTicks ==> r == s
    ensures s.tick < SimulationDurationTicks && !AnyActive(s.cars) ==> r == s.(tick := SimulationDurationTicks)
    ensures s.tick < SimulationDurationTicks && AnyActive(s.cars) ==> r == Advanced(s, StepCars(m, sc, s.cars))
  {
    if s.tick >= SimulationDurationTicks then s
    else if !AnyActive(s.cars) then s.(tick := SimulationDurationTicks)
    else Advanced(s, StepCars(m, sc, s.cars))
  }

  // ---------------------------------------------------------------------
  // Ranking

  /** The cars' (brain, reward) pairs, in car order. */
  function Rewards(cars: seq<Car>): (r: seq<Ranked>)
    ensures |r| == |cars|
    ensures forall i :: 0 <= i < |cars| ==> r[i] == Ranked(cars[i].brain, cars[i].reward)
  {
    seq(|cars|, i requires 0 <= i < |cars| => Ranked(cars[i].brain, cars[i].reward))
  }

  ghost predicate SortedDescending(s: seq<Ranked>) {
    forall i, j :: 0 <= i < j < |s| ==> s[j].reward <= s[i].reward
  }

  /** Inserts `x` in front of the first element whose reward is not larger,
      so that it stays before the equal rewards that came after it. */
  function Insert(x: Ranked, s: seq<Ranked>): (r: seq<Ranked>)
    requires SortedDescending(s)
    ensures SortedDescending(r)
    ensures multiset(r) == multiset(s) + multiset{x}
    ensures r[0] == if s == [] || s[0].reward <= x.reward then x else s[0]
  {
    if s == [] || s[0].reward <= x.reward then
      ConsSorted(x, s);
      [x] + s
    else
      var t := Insert(x, s[1..]);
      assert multiset(s) == multiset{s[0]} + multiset(s[1..]) by { assert s == [s[0]] + s[1..]; }
      BoundedByHead(x, s, t);
      ConsSorted(s[0], t);
      [s[0]] + t
  }

  /** A pair followed by a sorted list it is not below is sorted. */
  lemma ConsSorted(h: Ranked, t: seq<Ranked>)
    requires SortedDescending(t)
    requires forall k :: 0 <= k < |t| ==> t[k].reward <= h.reward
    ensures SortedDescending([h] + t)
  {
    var r := [h] + t;
    forall i, j | 0 <= i < j < |r| ensures r[j].reward <= r[i].reward {
      assert r[j] == t[j - 1];
      if i > 0 {
        assert r[i] == t[i - 1];
      }
    }
  }

  /** Everything in the rest of a sorted list, and a pair ranked below its
      head, is not above the head. */
  lemma BoundedByHead(x: Ranked, s: seq<Ranked>, t: seq<Ranked>)
    requires SortedDescending(s) && s != [] && x.reward < s[0].reward
    requires multiset(t) == multiset(s[1..]) + multiset{x}
    ensures forall k :: 0 <= k < |t| ==> t[k].reward <= s[0].reward
  {
    forall k | 0 <= k < |t| ensures t[k].reward <= s[0].reward {
      assert t[k] in multiset(t);
      if t[k] != x {
        var i :| 0 <= i < |s[1..]| && s[1..][i] == t[k];
        assert s[i + 1] == t[k];
      }
    }
  }

  /** `sort(key=reward, reverse=True)`: a stable sort into descending order of
      reward. Stability: the pairs sharing any one reward keep their order. */
  function SortByReward(s: seq<Ranked>): (r: seq<Ranked>)
    ensures SortedDescending(r)
    ensures multiset(r) == multiset(s)
    ensures |r| == |s|
    ensures forall y :: WithReward(r, y) == WithReward(s, y)
  {
    if s == [] then []
    else
      assert s == [s[0]] + s[1..];
      InsertKeepsTies(s[0], SortByReward(s[1..]));
      Insert(s[0], SortByReward(s[1..]))
  }

  /** The pairs of `s` whose reward is `y`, in order. */
  function WithReward(s: seq<Ranked>, y: real): seq<Ranked> {
    if s == [] then [] else Tie(s[0], y) + WithReward(s[1..], y)
  }

  /** `x` alone when its reward is `y`, and nothing otherwise. */
  function Tie(x: Ranked, y: real): seq<Ranked> {
    if x.reward == y then [x] else []
  }

  /** Inserting puts the new pair ahead of every pair with the same reward. */
  lemma {:induction false} InsertKeepsTies(x: Ranked, s: seq<Ranked>)
    requires SortedDescending(s)
    ensures forall y :: WithReward(Insert(x, s), y) == Tie(x, y) + WithReward(s, y)
  {
    var r := Insert(x, s);
    if s == [] || s[0].reward <= x.reward {
      assert r[0] == x && r[1..] == s;
    } else {
      var t := Insert(x, s[1..]);
      InsertKeepsTies(x, s[1..]);
      assert r[0] == s[0] && r[1..] == t;
      forall y ensures WithReward(r, y) == Tie(x, y) + WithReward(s, y) {
        assert Tie(s[0], y) == [] || Tie(x, y) == [];
      }
    }
  }

  /** The rewards of a ranking, in order. */
  function RewardList(s: seq<Ranked>): (r: seq<real>)
    ensures |r| == |s|
    ensures forall i :: 0 <= i < |s| ==> r[i] == s[i].reward
  {
    seq(|s|, i requires 0 <= i < |s| => s[i].reward)
  }

  /** Index i holds a highest reward, and every pair before it has a
      strictly lower one. */
  ghost predicate FirstMaximum(s: seq<Ranked>, i: nat) {
    && i < |s|
    && (forall j :: 0 <= j < |s| ==> s[j].reward <= s[i].reward)
    && (forall j :: 0 <= j < i ==> s[j].reward < s[i].reward)
  }

  /** Putting a pair in front: it becomes the first maximum when its reward
      is at least the tail's highest, and otherwise the tail's first maximum
      moves one place back. */
  lemma FirstMaximumCons(s: seq<Ranked>, k: nat)
    requires |s| > 1 && FirstMaximum(s[1..], k)
    ensures FirstMaximum(s, if s[k + 1].reward <= s[0].reward then 0 else k + 1)
  {
    var tail := s[1..];
    var i := if s[k + 1].reward <= s[0].reward then 0 else k + 1;
    forall j | 0 <= j < |s| ensures s[j].reward <= s[i].reward && (j < i ==> s[j].reward < s[i].reward) {
      if j > 0 {
        assert s[j] == tail[j - 1];
      }
    }
  }

  /** The head of the sorted list is the first pair with the highest reward. */
  lemma {:induction false} SortHeadIsFirst(s: seq<Ranked>) returns (i: nat)
    requires |s| > 0
    ensures FirstMaximum(s, i) && SortByReward(s)[0] == s[i]
  {
    if |s| == 1 {
      i := 0;
    } else {
      var k := SortHeadIsFirst(s[1..]);
      assert s[1..][k] == s[k + 1];
      SortHeadStep(s);
      FirstMaximumCons(s, k);
      i := if s[k + 1].reward <= s[0].reward then 0 else k + 1;
    }
  }

  /** The sorted head is the input's head or the sorted tail's head,
      whichever has the higher reward; a tie goes to the input's head. */
  lemma SortHeadStep(s: seq<Ranked>)
    requires |s| > 1
    ensures var h := SortByReward(s[1..])[0];
      SortByReward(s)[0] == if h.reward <= s[0].reward then s[0] else h
  {
  }

  /** The head of the ranking is the first of the pairs with the highest
      reward: the same pair `np.argmax` would pick. */
  lemma SortHeadIsFirstMaximum(s: seq<Ranked>)
    requires |s| > 0
    ensures SortByReward(s)[0] == s[ArgMax(RewardList(s))]
  {
    var i := SortHeadIsFirst(s);
    ArgMaxUnique(RewardList(s), i);
  }

  // ---------------------------------------------------------------------
  // End of a generation

  /** The random choices of one run of the genetic algorithm. */
  datatype GenerationDraws = GenerationDraws(pick: nat -> nat, breedings: seq<Breeding>)

  /** What the session keeps true between frames: a full set of cars with
      shaped networks and speeds and steering within their limits, a
      population manager in its configured shape, a generation index below
      GENERATIONS, and counters that agree with the retired cars. */
  ghost predicate Valid(s: Session) {
    && |s.cars| == PopulationSize
    && CarsDrivable(s.cars)
    && s.ga.populationSize == PopulationSize && s.ga.selectionSize >= 1
    && |s.ga.population| == PopulationSize
    && (forall k :: 0 <= k < |s.ga.population| ==> WellShaped(s.ga.population[k]))
    && s.generation <= Generations - 1
    && s.parkedCount == Count(ParkedFlags(s.cars))
    && s.collisionCount == Count(CollidedFlags(s.cars))
  }

  ghost predicate DrawsFit(d: GenerationDraws) {
    && |d.breedings| == PopulationSize - 1
    && forall k :: 0 <= k < |d.breedings| ==> BreedingShaped(d.breedings[k])
  }

  /** Lines 216-232: once the time is up, rank the cars by reward and record the
      best one; unless this was the last generation, breed the next population,
      advance the generation index and set up its cars, which resets the best
      reward to minus infinity again. */
  function EndPhase(m: MathLib, sc: Scenario, s: Session, d: GenerationDraws): (r: Session)
    requires Valid(s) && DrawsFit(d)
    ensures s.tick < SimulationDurationTicks ==> r == s
    ensures s.tick >= SimulationDurationTicks && s.generation < Generations - 1 ==>
      && r.generation == s.generation + 1
      && r.ga == CreateNextGeneration(s.ga, Ranking(s.cars), d.pick, d.breedings).0
      && r.tick == 0 && r.best == None && r.parkedCount == 0 && r.collisionCount == 0
      && |r.cars| == PopulationSize
      && (forall i :: 0 <= i < PopulationSize ==>
            r.cars[i] == NewCar(sc.spawn, sc.spawnAngle, r.ga.population[i], Distance(m, sc.spawn, sc.spot.center)))
    ensures s.tick >= SimulationDurationTicks && s.generation == Generations - 1 ==>
      && r == s.(best := Some(Ranking(s.cars)[0].reward))
      && (forall i :: 0 <= i < |s.cars| ==> s.cars[i].reward <= r.best.value)
  {
    if s.tick < SimulationDurationTicks then s
    else
      var ranked := Ranking(s.cars);
      var s1 := s.(best := Some(ranked[0].reward));
      if s.generation < Generations - 1 then
        var ga := CreateNextGeneration(s.ga, ranked, d.pick, d.breedings).0;
        SetupNewGeneration(m, sc, s1.(ga := ga, generation := s.generation + 1))
      else s1
  }

  /** The generation's ranking: the cars' (brain, reward) pairs sorted by
      descending reward. */
  function Ranking(cars: seq<Car>): (r: seq<Ranked>)
    ensures |r| == |cars|
    ensures SortedDescending(r) && multiset(r) == multiset(Rewards(cars))
    ensures forall y :: WithReward(r, y) == WithReward(Rewards(cars), y)
    ensures CarsDrivable(cars) ==> forall k :: 0 <= k < |r| ==> WellShaped(r[k].brain)
    ensures |cars| > 0 ==> forall i :: 0 <= i < |cars| ==> cars[i].reward <= r[0].reward
  {
    BestIsMaximum(cars);
    RankedShaped(cars);
    SortByReward(Rewards(cars))
  }

  /** The best reward is at least every car's reward. */
  lemma BestIsMaximum(cars: seq<Car>)
    ensures |cars| > 0 ==> forall i :: 0 <= i < |cars| ==> cars[i].reward <= SortByReward(Rewards(cars))[0].reward
  {
    var ranked := SortByReward(Rewards(cars));
    forall i | 0 <= i < |cars| ensures cars[i].reward <= ranked[0].reward {
      assert Rewards(cars)[i] in multiset(Rewards(cars));
      var j :| 0 <= j < |ranked| && ranked[j] == Rewards(cars)[i];
    }
  }

  /** Every ranked brain is shaped when every car's is. */
  lemma RankedShaped(cars: seq<Car>)
    ensures CarsDrivable(cars) ==>
      forall k :: 0 <= k < |SortByReward(Rewards(cars))| ==> WellShaped(SortByReward(Rewards(cars))[k].brain)
  {
    var ranked := SortByReward(Rewards(cars));
    forall k | 0 <= k < |ranked| && CarsDrivable(cars) ensures WellShaped(ranked[k].brain) {
      assert ranked[k] in multiset(Rewards(cars));
      var j :| 0 <= j < |cars| && Rewards(cars)[j] == ranked[k];
    }
  }

  /** One frame of training: the tick phase, the end-of-generation phase, and
      the tick counter's increment, which happens on every frame, also after
      the last generation. */
  function Frame(m: MathLib, sc: Scenario, s: Session, d: GenerationDraws): (r: Session)
    requires Valid(s) && DrawsFit(d)
    ensures Valid(r)
    ensures r.generation == s.generation || r.generation == s.generation + 1
  {
    var s1 := TickPhase(m, sc, s);
    TickKeepsCounters(m, sc, s);
    var s2 := EndPhase(m, sc, s1, d);
    EndPhaseValid(m, sc, s1, d);
    s2.(tick := s2.tick + 1)
  }

  /** The tick phase keeps the session valid: a car that stops during the tick
      is counted once, under parked when it parked and under collided
      otherwise, and retired cars never change again. */
  lemma TickKeepsCounters(m: MathLib, sc: Scenario, s: Session)
    requires Valid(s)
    ensures Valid(TickPhase(m, sc, s))
  {
    if s.tick < SimulationDurationTicks && AnyActive(s.cars) {
      RunningTickKeepsCounters(m, sc, s);
    }
  }

  /** The case of a running generation: the counters grow by the cars that
      retire during the tick. */
  lemma RunningTickKeepsCounters(m: MathLib, sc: Scenario, s: Session)
    requires Valid(s) && s.tick < SimulationDurationTicks && AnyActive(s.cars)
    ensures Valid(TickPhase(m, sc, s))
  {
    AdvancedValid(s, StepCars(m, sc, s.cars));
  }

  /** Advancing a valid session's cars, leaving the retired ones alone, keeps
      it valid. */
  lemma AdvancedValid(s: Session, after: seq<Car>)
    requires Valid(s) && |after| == |s.cars| && CarsDrivable(after)
    requires forall i :: 0 <= i < |after| && !s.cars[i].active ==> after[i] == s.cars[i]
    ensures Valid(Advanced(s, after))
  {
    RetiredCounts(s.cars, after);
  }

  /** Over one tick, the retired cars are those retired before plus those
      retired during the tick, under the same heading. */
  lemma RetiredCounts(cars: seq<Car>, after: seq<Car>)
    requires |after| == |cars|
    requires forall i :: 0 <= i < |after| && !cars[i].active ==> after[i] == cars[i]
    ensures Count(ParkedFlags(after)) == Count(ParkedFlags(cars)) + Count(NewlyParked(cars, after))
    ensures Count(CollidedFlags(after)) == Count(CollidedFlags(cars)) + Count(NewlyCollided(cars, after))
  {
    var pa, pb, pc := ParkedFlags(after), ParkedFlags(cars), NewlyParked(cars, after);
    var ca, cb, cc := CollidedFlags(after), CollidedFlags(cars), NewlyCollided(cars, after);
    forall i | 0 <= i < |cars|
      ensures (pa[i] <==> pb[i] || pc[i]) && !(pb[i] && pc[i])
      ensures (ca[i] <==> cb[i] || cc[i]) && !(cb[i] && cc[i])
    {
      if !cars[i].active {
        assert after[i] == cars[i];
      }
    }
    CountDisjointUnion(pa, pb, pc);
    CountDisjointUnion(ca, cb, cc);
  }

  /** A freshly set-up generation is valid. */
  lemma SetupValid(m: MathLib, sc: Scenario, s: Session)
    requires |s.cars| == PopulationSize
    requires s.ga.populationSize == PopulationSize && s.ga.selectionSize >= 1
    requires |s.ga.population| == PopulationSize
    requires forall k :: 0 <= k < |s.ga.population| ==> WellShaped(s.ga.population[k])
    requires s.generation <= Generations - 1
    ensures Valid(SetupNewGeneration(m, sc, s))
  {
    var r := SetupNewGeneration(m, sc, s);
    CountNone(ParkedFlags(r.cars));
    CountNone(CollidedFlags(r.cars));
  }

  /** The end-of-generation phase keeps the session valid. */
  lemma EndPhaseValid(m: MathLib, sc: Scenario, s: Session, d: GenerationDraws)
    requires Valid(s) && DrawsFit(d)
    ensures Valid(EndPhase(m, sc, s, d))
  {
    if s.tick >= SimulationDurationTicks && s.generation < Generations - 1 {
      var ranked := Ranking(s.cars);
      var ga := CreateNextGeneration(s.ga, ranked, d.pick, d.breedings).0;
      SetupValid(m, sc, s.(best := Some(ranked[0].reward), ga := ga, generation := s.generation + 1));
    }
  }

  /** The first session: the population manager's initial population on the
      default scenario, at generation 0. */
  function Start(m: MathLib, sc: Scenario, ga: GeneticAlgorithm): (s: Session)
    requires ga.populationSize == PopulationSize && ga.selectionSize >= 1
    requires |ga.population| == PopulationSize
    requires forall k :: 0 <= k < |ga.population| ==> WellShaped(ga.population[k])
    ensures Valid(s) && s.generation == 0 && s.tick == 0
  {
    var s0 := Session(0, ga, seq(PopulationSize, i => Car(Vec2(0.0, 0.0), 0.0, 0.0, 0.0, 0, ga.population[0], 0.0, false, false, false, 0.0)), 0, None, 0, 0);
    SetupValid(m, sc, s0);
    SetupNewGeneration(m, sc, s0)
  }

  /** Each retired car is counted once: the counters together never exceed
      the number of cars. */
  lemma CountersBounded(s: Session)
    requires Valid(s)
    ensures s.parkedCount + s.collisionCount <= PopulationSize
  {
    var retired := seq(|s.cars|, i requires 0 <= i < |s.cars| => !s.cars[i].active && (s.cars[i].parked || s.cars[i].collided));
    CountDisjointUnion(retired, ParkedFlags(s.cars), CollidedFlags(s.cars));
  }

  /** The genetic algorithm runs, and the generation index grows, only while
      the index is below GENERATIONS - 1; after the last generation the frame
      only re-ranks the same cars and counts the tick. */
  lemma LastGenerationRepeats(m: MathLib, sc: Scenario, s: Session, d: GenerationDraws)
    requires Valid(s) && DrawsFit(d)
    requires s.generation == Generations - 1 && s.tick >= SimulationDurationTicks
    ensures var r := Frame(m, sc, s, d);
      && r.generation == s.generation && r.ga == s.ga && r.cars == s.cars
      && r.tick == s.tick + 1 && r.tick >= SimulationDurationTicks
      && r.parkedCount == s.parkedCount && r.collisionCount == s.collisionCount
  {
  }

  /** Below the last generation, a frame whose tick phase finds the time up,
      or no car running, starts a new generation and leaves the tick counter
      at 1, since the increment follows the set-up. */
  lemma RolloverLeavesTickOne(m: MathLib, sc: Scenario, s: Session, d: GenerationDraws)
    requires Valid(s) && DrawsFit(d)
    requires s.generation < Generations - 1
    requires s.tick >= SimulationDurationTicks || !AnyActive(s.cars)
    ensures Frame(m, sc, s, d).generation == s.generation + 1
    ensures Frame(m, sc, s, d).tick == 1
  {
  }

  /** Before the time is up and with a car still running, a frame advances the
      tick by exactly one and keeps the generation. */
  lemma RunningFrame(m: MathLib, sc: Scenario, s: Session, d: GenerationDraws)
    requires Valid(s) && DrawsFit(d)
    requires s.tick < SimulationDurationTicks - 1 && AnyActive(s.cars)
    ensures Frame(m, sc, s, d).tick == s.tick + 1
    ensures Frame(m, sc, s, d).generation == s.generation
  {
  }
}
