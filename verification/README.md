# Park_IA in Dafny

A functional model of the training core of Park_IA. Park_IA is a car-parking game in which a population of cars learns to park. Each car is driven by a small neural network, and a genetic algorithm breeds the networks generation after generation. The model covers:

- **`Geometry`** (`utils.py`): vectors and oriented rectangles, `normalize_angle`, and the separating-axis overlap test `do_polygons_collide`. It also covers `point_to_line_distance` and the corner computation shared by the car, the obstacle cars and the parking spot.
- **`NeuralNetwork`** (`neural_network.py`): the 10-64-5 perceptron with a tanh hidden layer, uniform crossover, masked additive mutation and cloning.
- **`GeneticAlgorithm`** (`genetic_algorithm.py`): the initial population, and the next generation built from one elite clone plus children bred from a breeding pool.
- **`Agent`** (`car.py`):
  - the learning car's 10-entry observation;
  - the five-way action dispatch with clamped speed and steering;
  - the stopped timer and the gated kinematic step;
  - the corner-based collision check;
  - the reward-shaping state machine over the `active`, `collided` and `parked_successfully` flags.
- **`ParkingSpot`** (`parking_spot.py`): the spot's constructor, `set_center` and corners.
- **`Simulation`** (`simulation.py`): `setup_new_generation` and the tick and end-of-generation block of the training loop, as a state machine over the tick counter, the generation index, the cars and the parked and collided counters.
- **`Prototype`** (`parking.py`), the manual prototype:
  - its differently gated `update`, with an action branch and a keyboard branch;
  - `reset`;
  - its overlap test, which has no zero-length-edge guard;
  - its parked test, which folds opposite headings together.

`RealMath`, `Constants` and `Wrappers` hold the real-number helpers, the configuration values of `constants.py` and `Option`.

## How the model is built

Numbers are `real`. The model treats sin, cos, tan (of degrees), `degrees`, `tanh` and `sqrt` as uninterpreted. They are fields of a `RealMath.MathLib` value passed to every operation that needs them. Only three facts are assumed of them:

- the square root is non-negative;
- the square root is positive on positive arguments;
- the tangent of a non-zero angle strictly between -90 and 90 degrees is non-zero.

Where a proof needs cos² + sin² = 1, the lemma requires it for the angle at hand (`RealMath.Pythagorean`).

Python's float `% 360` is `RealMath.Mod360`, whose remainder lies in [0, 360).

Random draws are inputs:

- `np.random.rand` and `np.random.randn` arrays are networks of draws;
- the `random.choice` indices are naturals, reduced modulo the pool size;
- the masks are computed from the uniform draws exactly as the source compares them (`> 0.5`, `< MUTATION_RATE`).

Objects that Python mutates in place are values here. Each method becomes a function that returns the new value, and `calculate_reward` returns the updated car together with the reward change.

Some behaviours of the code are easy to misread; the model keeps them as written:

- **Distance term.** The term is `|prev - current| * DISTANCE_REWARD_MULTIPLIER` in both branches of `car.py:124-133`, so moving away from the spot is rewarded like coming closer. It is modelled as written (`Agent.DistanceTerm`).
- **Kinematic step, trainer car.** The trainer's car moves along its old heading and then turns (`car.py:231-244`).
- **Kinematic step, prototype.** The prototype turns first and then moves along the new heading (`parking.py:147-153`).
- **Stopped timer.** The timer compares the signed speed, so reversing counts as being stopped (`car.py:218`).
- **Tick after rollover.** The tick counter is incremented after `setup_new_generation` has reset it, so a new generation starts its first frame at tick 1 (`simulation.py:228`, `simulation.py:274`).
- **Duplicate corner code.** The corner computations of `car.py:264-280`, `parking_spot.py:32-48`, `parking.py:157-171` and `parking.py:218-232` are identical. All are modelled by `Geometry.Corners`.
- **Crossover parents.** `crossover` builds fresh arrays and never changes either parent, which holds of the functional model by construction.

## Model

| member | source | states |
|---|---|---|
| RealMath.Mod360 | utils.py:77 | The remainder lies in [0, 360) and differs from the input by a whole number of turns, as Python's float `%` with a positive divisor does. |
| RealMath.Mod360Periodic | utils.py:77 | Inputs that differ by whole turns have the same remainder. |
| Geometry.NormalizeAngle | utils.py:75-82 | The folded angle lies in (-180, 180] and differs from the input by a whole multiple of 360. The `< -180` branch is never taken, because the remainder is never negative. |
| Geometry.NormalizeAngleUnique | utils.py:75-82 | The folded angle is the only value in (-180, 180] that differs from the input by whole turns. |
| Geometry.NormalizeAngleIdempotent | utils.py:75-82 | Folding twice is folding once. |
| Geometry.NormalizeAngleHalfTurn | utils.py:77-79 | Both 180 and -180 fold to 180. |
| Geometry.ScanEdges | utils.py:24-65 | The edge scan from index i answers true exactly when no non-degenerate edge from i on has a normal along which the two projection intervals are strictly apart. Zero-length edges are skipped, and normalising the axis does not change the verdict. |
| Geometry.PolygonsCollide | utils.py:13-68 | `do_polygons_collide` is false exactly when some non-degenerate edge normal of either polygon gives strictly disjoint projection intervals. |
| Geometry.SeparatedScale | utils.py:41-64 | Scaling an axis by a positive factor, as `normalize` does, keeps the separation verdict. |
| Geometry.BeforeIffAllBefore | utils.py:44-64 | The interval comparison `maxA < minB` holds exactly when every vertex of A projects strictly before every vertex of B. |
| Geometry.PolygonsCollideSymmetric | utils.py:24-65 | The verdict does not depend on the order of the two polygons. |
| Geometry.PolygonCollidesWithItself | utils.py:44-65 | A polygon always collides with itself. |
| Geometry.CoincidentOwnEdgesNeverSeparate | utils.py:38-39 | A polygon whose vertices all coincide is never separated by its own edges, since they are all skipped. |
| Geometry.DistinctPointsCollide | utils.py:38-39 | Two one-point polygons at different places are reported as colliding. |
| Geometry.AxisAlignedApartDoNotCollide | utils.py:13-68 | Two unrotated rectangles whose centers are further apart along x than the sum of their half-widths do not collide. |
| Geometry.Corners | car.py:264-280 | Four corners, with opposite corners symmetric about the center: c0 + c2 = c1 + c3 = 2 * center, for any sine and cosine. |
| Geometry.CornersSideLengths | parking_spot.py:36-47 | Given cos² + sin² = 1, consecutive corners are `width` and `height` apart, alternately. |
| Geometry.SegmentParameter | utils.py:88-89 | The projection parameter is clamped into [0, 1]. |
| Geometry.SegmentParameterIsNearest | utils.py:88-91 | The clamped parameter gives a point of the segment nearest to the point. |
| Geometry.PointToSegmentDistance | utils.py:84-91 | For `a == b` the result is the distance to `a`. Otherwise it is the distance to a nearest point of the segment. |
| NeuralNetwork.NewNetwork | neural_network.py:13-18 | Weights are INPUT x HIDDEN and HIDDEN x OUTPUT, He-scaled from the normal draws. Biases are all-zero of widths HIDDEN and OUTPUT. |
| NeuralNetwork.Feedforward | neural_network.py:20-27 | An INPUT_SIZE observation yields exactly OUTPUT_SIZE scores. Score j is the affine output layer applied to the tanh hidden activations. |
| NeuralNetwork.NewNetworkZeroInput | neural_network.py:13-27 | With zero biases, a fresh network maps the all-zero observation to all-zero scores, given tanh(0) = 0. |
| NeuralNetwork.Crossover | neural_network.py:28-41 | Each element of each of the child's four arrays is the first parent's where its uniform draw exceeds 0.5 and the second parent's otherwise. Shapes are preserved. |
| NeuralNetwork.CrossoverInheritsElements | neural_network.py:31-36 | Every weight of the child is the corresponding weight of one of the parents, and which one is decided by its draw. |
| NeuralNetwork.CrossoverSelf | neural_network.py:36-39 | Crossing a network with itself reproduces it, whatever the draws. |
| NeuralNetwork.Mutate | neural_network.py:43-52 | Each element is unchanged unless its uniform draw is below MUTATION_RATE. In that case exactly its own normal draw times 0.1 is added. Shapes are preserved. |
| NeuralNetwork.MutateNoMask | neural_network.py:45-47 | Mutation with an all-false mask is the identity. |
| NeuralNetwork.MutateUndo | neural_network.py:44-52 | Mutating again with the same mask and negated noise restores the network. Each element changed by its own noise and by nothing else. |
| NeuralNetwork.Clone | neural_network.py:54-60 | The copy holds the same four arrays as the original. Arrays are values in the model, so the clone is the identity and shares nothing that a later mutation could change. |
| GeneticAlgorithm.SelectionSizeFor | genetic_algorithm.py:11 | `max(1, int(n * SELECTION_PERCENTAGE))` is at least 1. It is the truncated product whenever that product is at least 1. |
| GeneticAlgorithm.DefaultSelectionSize | genetic_algorithm.py:11 | The configured population of 50 breeds from its best 10. |
| GeneticAlgorithm.NewGeneticAlgorithm | genetic_algorithm.py:8-15 | The configured sizes and rate. The initial population holds exactly POPULATION_SIZE well-shaped fresh networks, the k-th built from the k-th draws. |
| GeneticAlgorithm.PadPool | genetic_algorithm.py:26-27 | The padding loop keeps the pool as a prefix. It pads the pool to 2 exactly when it holds fewer than 2 and the population has more than one member. It adds only copies of pool members, and it terminates. |
| GeneticAlgorithm.BreedingPool | genetic_algorithm.py:24-27 | The pool starts with the first `selection_size` ranked brains and holds nothing else. It is non-empty, and holds at least 2 when the population has more than one member. |
| GeneticAlgorithm.Breed | genetic_algorithm.py:32-35 | A child is `mutate(crossover(p1, p2))` with p1 and p2 drawn from the pool, possibly the same member. |
| GeneticAlgorithm.Children | genetic_algorithm.py:31-37 | One well-shaped child per breeding, in order. |
| GeneticAlgorithm.CreateNextGeneration | genetic_algorithm.py:17-41 | The new population is the returned list, with 1 + (population_size - 1) members. Element 0 equals the top-ranked brain, and the rest are the children bred from the pool. Sizes and rate are unchanged. |
| GeneticAlgorithm.NextGenerationKeepsSize | genetic_algorithm.py:19-39 | A population of size n >= 1 is replaced by one of size n. |
| GeneticAlgorithm.SingleSurvivorChildrenAreMutants | genetic_algorithm.py:24-35 | With one ranked brain and a population above one, the pool is two copies of it, so every child is a mutant of that brain. |
| ParkingSpot.NewSpot | parking_spot.py:7-12 | The spot stores center, width, height and angle as given. Without an angle, `float(None)` fails, so the result is an error. |
| ParkingSpot.DefaultSpot | simulation.py:26 | The trainer's spot is the constructor's result with PARK_WIDTH, PARK_HEIGHT and PARK_ANGLE. |
| ParkingSpot.SetCenter | parking_spot.py:21-24 | The center becomes `pos` and the angle changes only when one is passed. Width and height are unchanged. |
| ParkingSpot.SetCenterBack | parking_spot.py:21-24 | Moving without an angle and back restores the spot. |
| ParkingSpot.SetCenterLastWins | parking_spot.py:21-24 | Of two moves only the last position matters, and the last angle passed wins. |
| ParkingSpot.SpotCorners | parking_spot.py:32-48 | Four corners, opposite ones symmetric about the center. |
| Agent.NewCar | car.py:17-62 | A new car is at rest with straight wheels, active, not collided, not parked, and has no reward yet. It keeps the given pose and network. |
| Agent.CarCorners | car.py:264-280 | Four corners symmetric about the car's position. |
| Agent.CarCornersSpanTheBody | car.py:264-280 | Given cos² + sin² = 1, the corners span a CAR_WIDTH by CAR_HEIGHT rectangle. |
| Agent.ObstacleBody | car.py:283-287 | An obstacle car is a static OBSTACLE_WIDTH by OBSTACLE_HEIGHT rectangle at its pose. |
| Agent.GetState | car.py:82-112 | Ten entries. The heading entries lie in (-1, 1], and the boundary entries pair up to sum to 1. |
| Agent.StateRecoversPositions | car.py:100-110 | The observation determines the car's position and the spot's center. |
| Agent.StateOnScreen | car.py:107-110 | The car is on the screen exactly when all four boundary entries lie in [0, 1]. |
| Agent.StateBounded | car.py:97-99 | Speed and steering within their limits give speed and steering entries in [-1, 1]. |
| Agent.ArgMax | car.py:182 | `np.argmax` picks a maximal score, and every earlier score is strictly lower. |
| Agent.ArgMaxUnique | car.py:182 | Exactly one index has both properties. |
| Agent.ActionRoundTrip | car.py:184-188 | Numbering the five actions and reading them back is the identity. |
| Agent.Decide | car.py:180-182 | The chosen action is the first one with the highest score of the network on the observation. |
| Agent.TowardZero | car.py:194-203 | Braking and friction move a value toward zero by the step without crossing zero. |
| Agent.DecayMagnitude | car.py:194-203 | n decrements shorten the magnitude by n steps, floored at zero. |
| Agent.DecayReachesZero | car.py:194-203 | After enough decrements the value is zero. |
| Agent.Throttle | car.py:190-203 | Speed stays within [-MAX_VELOCITY/2, MAX_VELOCITY] if it started there. Forward adds ACCELERATION_RATE capped at the maximum, and backward subtracts it floored at the reverse limit. Brake and friction move toward zero without crossing. |
| Agent.Steer | car.py:205-213 | Steering stays within ±MAX_STEERING_ANGLE. Left and right move it by exactly one TURN_RATE step whenever that step stays within the limit, and otherwise to the limit. The other actions move it toward zero by TURN_RATE/2 without crossing. |
| Agent.NextTimer | car.py:215-221 | The stopped timer counts up while the signed speed is below 0.1, so also when reversing, and is reset to 0 otherwise. |
| Agent.TimerCountsSlowSuffix | car.py:215-221 | After a run of ticks, the timer is the number of ticks since the last one at or above 0.1. With no such tick, it keeps counting from its start value. |
| Agent.Drive | car.py:222-244 | Position and heading change only when abs(speed) > 0.1, and the position moves along the old heading. The heading also needs abs(steering) > 0.1, and the new heading lies in [0, 360), whole turns away from the old heading plus the bicycle-model turn. |
| Agent.DriveStraightIsReversible | car.py:231-233 | Driving straight and then back at the opposite speed returns to the start. |
| Agent.DriveHeadingPeriodic | car.py:244 | Headings that are whole turns apart turn to the same new heading. |
| Agent.DisplacementLength | car.py:231-233 | Given cos² + sin² = 1, one tick covers exactly abs(speed). |
| Agent.Update | car.py:177-246 | An inactive car is unchanged. Otherwise the network's first best action sets speed and steering, then the timer and pose advance. Flags, reward, network and previous distance are kept, and speed and steering stay within their limits. |
| Agent.AnyOffScreen | car.py:253-256 | The corner scan finds an off-screen corner exactly when one exists. |
| Agent.AnyObstacleHit | car.py:259-262 | The obstacle scan finds an overlapping obstacle exactly when one exists. |
| Agent.CheckCollisions | car.py:248-262 | An inactive car is unchanged, `collided` is never cleared, and nothing but `collided` changes. An active car is marked collided exactly when a corner leaves [0, W] x [0, H] or it overlaps an obstacle. |
| Agent.CheckCollisionsIdempotent | car.py:248-262 | Checking twice is checking once. |
| Agent.DistanceTerm | car.py:124-133 | Both branches add abs(prev - current) * DISTANCE_REWARD_MULTIPLIER, which is never negative. |
| Agent.DistanceTermSymmetric | car.py:124-133 | Moving away earns exactly as much as coming closer, and any change at all earns a positive amount. |
| Agent.AngleDifference | car.py:135 | The heading difference to the spot lies in [0, 180]. |
| Agent.AlmostParkedTerm | car.py:165-166 | The almost-parked bonus lies in (0, ALMOST_PARKED_BONUS]. |
| Agent.CalculateReward | car.py:114-174 | An inactive car earns 0 and is unchanged. Otherwise the returned change is the tick's term sum `Agent.RewardDelta`, the reward grows by exactly that change, and the previous distance becomes the current one. The car stays active exactly when it has not collided and not met all four parking conditions; meeting them sets `parked_successfully`. Pose, speed, timer and network are kept. |
| Agent.RewardDelta | car.py:118-171 | Apart from the distance term, the change is at least the collision penalty, a half-turn of angle penalty, the stopped penalty and the step penalty together, and at most the alignment reward plus the step penalty plus the parking bonus when the car parks or the almost-parked bonus when it almost parks. |
| Agent.RewardDeltaHistory | car.py:118-133 | The previous distance enters the change only through the distance term: replacing it changes the change by exactly the difference of the two distance terms. |
| Agent.RewardDeltaCollision | car.py:120-122 | The collided flag adds exactly COLLISION_PENALTY and changes no other term, parking included. |
| Agent.SameBodySameTerms | car.py:124-166 | Two cars with the same pose, speed and stopped timer get the same distance to the spot, heading difference, parked and almost-parked verdicts and almost-parked bonus. |
| Agent.ParkingDominates | car.py:153-163 | A tick in which the car parks earns more than the parking bonus less the largest penalties. |
| Agent.OrdinaryTickBound | car.py:118-171 | Without collision, parking or almost parking, a tick earns at most the distance term plus the alignment reward plus the step penalty. |
| Agent.InactiveCarIsFrozen | car.py:114-250 | A retired car is left alone by `update`, `check_collisions` and `calculate_reward`. |
| Agent.CollisionRetires | car.py:120-122 | An active car that crashes is retired, as collided, by the reward computation of the same tick. |
| Simulation.DefaultScenario | simulation.py:26-41 | The spot is at the screen center with the default size and angle. One obstacle car sits PARK_HEIGHT to either side of it at its heading. The spawn pose is (100, SCREEN_HEIGHT - 100), heading -90. |
| Simulation.SetupNewGeneration | simulation.py:53-75 | POPULATION_SIZE new cars at the spawn pose, car i driven by population member i, each remembering its spawn distance to the spot. Tick, best reward and both counters restart. |
| Simulation.StepCar | simulation.py:203-206 | One car's step keeps a retired car as it is, keeps its network and limits, and retires a car only as parked or collided. |
| Simulation.StepCars | simulation.py:199-206 | Only cars active at the start of the tick are advanced; the others are unchanged. |
| Simulation.StepCarsStepActive | simulation.py:203-206 | Each car active at the start of the tick takes exactly one step: update, then check_collisions, then calculate_reward. |
| Simulation.Advanced | simulation.py:209-213 | The counters grow by the cars that retired during the tick: parked ones as parked, the others as collided. |
| Simulation.TickPhase | simulation.py:197-213 | Once time is up the session is unchanged. With no active car the tick counter jumps to SIMULATION_DURATION_TICKS. Otherwise the active cars are advanced and counted. Generation, population and best reward are kept. |
| Simulation.Insert | simulation.py:218 | Inserting into a descending list keeps it descending and adds exactly the new pair. |
| Simulation.InsertKeepsTies | simulation.py:218 | Insertion places the new pair ahead of every pair with the same reward and keeps their order. |
| Simulation.SortByReward | simulation.py:218 | The sort yields a permutation of its input in descending order of reward, and it is stable: for every reward, the pairs with that reward appear in their input order. |
| Simulation.SortHeadIsFirstMaximum | simulation.py:218-221 | The head of the sorted list is the first pair with the highest reward: the stable sort keeps the earliest of equal rewards first. |
| Simulation.Ranking | simulation.py:216-221 | The ranking is a permutation of the cars' (brain, reward) pairs, in descending order, with cars of equal reward in car order. Its head's reward is at least every car's reward. |
| Simulation.EndPhase | simulation.py:216-232 | Before time is up the session is unchanged. After it, the best reward is the ranking's head. Below the last generation the population is replaced by the next generation, the index grows by one and a new generation is set up: POPULATION_SIZE new cars at the spawn pose, car i driven by network i of the new population. At the last generation only the best reward changes. |
| Simulation.Frame | simulation.py:197-274 | A frame keeps the session valid, and the generation index grows by at most one. |
| Simulation.TickKeepsCounters | simulation.py:209-213 | The tick phase keeps the session valid. Each car is counted at most once, parked taking precedence over collided, and the counters agree with the retired cars. |
| Simulation.RetiredCounts | simulation.py:209-213 | The cars retired after a tick are those retired before plus those retired during it, under the same heading. |
| Simulation.SetupValid | simulation.py:53-75 | A freshly set-up generation is valid, with both counters zero. |
| Simulation.EndPhaseValid | simulation.py:216-232 | The end-of-generation phase keeps the session valid. In particular the generation index never exceeds GENERATIONS - 1. |
| Simulation.Start | simulation.py:44-50 | The first session is valid at generation 0 and tick 0. |
| Simulation.CountersBounded | simulation.py:209-213 | The parked and collided counters together never exceed the number of cars. |
| Simulation.LastGenerationRepeats | simulation.py:225-232 | After the last generation a frame only counts the tick. The genetic algorithm does not run, the index stays, and the cars and counters are unchanged, so the end block fires again on the next frame. |
| Simulation.RolloverLeavesTickOne | simulation.py:199-274 | Below the last generation, a frame that finds the time up, or no car running, starts a new generation. The tick counter is then 1, since the increment follows the set-up. |
| Simulation.RunningFrame | simulation.py:199-274 | While time is not up and a car is running, a frame advances the tick by exactly one and keeps the generation. |
| Prototype.NewManualCar | parking.py:43-71 | A new car is at rest with straight wheels, and its pose is also its initial pose. |
| Prototype.Reset | parking.py:75-80 | `reset` restores the initial position and angle and zeroes speed and steering. |
| Prototype.ResetIdempotent | parking.py:75-80 | Resetting twice is resetting once, and a new car is already reset. |
| Prototype.ResetIsRebuild | parking.py:75-80 | A reset car equals a new car built at its initial pose. |
| Prototype.ActionControls | parking.py:89-116 | Speed and steering stay within their limits, and action 0 caps speed at MAX_VELOCITY while action 1 floors it at -MAX_VELOCITY/2. Actions 2 and 3 do nothing at standstill; while moving they turn the wheels one TURN_RATE step, clamped at ±MAX_STEERING_ANGLE, and the steering is not touched afterwards. Re-centering happens only for other actions while moving, and friction only for actions other than 0, 1 and 4, both toward zero without crossing. |
| Prototype.ActionMatchesTrainerWhileMoving | parking.py:89-116 | While the car keeps moving, an action has the same effect as in the trainer's car. |
| Prototype.StandstillSteeringDiffers | parking.py:94-99 | At standstill a steering action does nothing here, while the trainer's car turns its wheels. |
| Prototype.KeyControls | parking.py:119-144 | W accelerates and S reverses, and neither applies friction. A and D steer, even at standstill. Re-centering happens only while moving. Speed and steering stay within their limits. |
| Prototype.Move | parking.py:146-153 | The heading changes only when steering and speed are both non-zero, and then lies in [0, 360). The car then moves along the new heading. |
| Prototype.AtRestStaysPut | parking.py:146-153 | A car at rest stays where it is, with the same heading. |
| Prototype.Update | parking.py:87-155 | With an action the action branch sets speed and steering, with keys the keyboard branch, and with neither they are kept. The car then takes the kinematic step with the new speed and steering. Steering and speed stay within their limits, and the initial pose is kept. |
| Prototype.PrototypeNormal | parking.py:264 | This variant's edge normal is the opposite of the shared one. |
| Prototype.PrototypeAxisAgrees | parking.py:264 | For a non-degenerate edge, the normalised opposite normal separates exactly when the shared normal does. |
| Prototype.UnguardedScan | parking.py:258-283 | The scan fails, with `None`, only when some edge has zero length, and it always answers when no edge has. When it answers, it answers as the guarded scan does. |
| Prototype.UnguardedCollide | parking.py:256-284 | Whenever the test answers, it agrees with the guarded `do_polygons_collide`, and it always answers for polygons without zero-length edges. |
| Prototype.SinglePointsFail | parking.py:264 | On two one-point polygons this test fails, while the guarded test reports a collision. |
| Prototype.RectanglesNeverFail | parking.py:256-284 | Given cos² + sin² = 1, two rectangles with positive sides always get an answer, the guarded one. |
| Prototype.FoldAngle | parking.py:419-422 | The prototype's folding agrees with `normalize_angle`. |
| Prototype.ParkedAngleDifference | parking.py:424-428 | The folded heading difference lies in [0, 360). |
| Prototype.HeadingsAligned | parking.py:424-428 | Headings that are equal or opposite, up to whole turns, have difference 0. |
| Prototype.ParkedCheck | parking.py:417-442 | Parked means all four conditions: overlap within 0.7 times the spot's larger side, folded heading difference below 15, abs(speed) below 0.5 and distance below CAR_WIDTH * 0.75. The test can fail only when the overlap test is reached, and a far car is never parked. |
| Prototype.ParkedWhenAllHold | parking.py:430-442 | Conversely, a car whose body overlaps the spot and which meets the other three conditions is parked. |
| Prototype.ParkedEitherWayRound | parking.py:417-442 | A car at rest, close to the spot's center, overlapping it and at the spot's heading or the opposite one, is parked. |

## Left out

- Rendering and input. Everything pygame is left out: images, masks, sprites, fonts, drawing, messages, the event loops, the mouse-driven scenario editor and `show_message_on_screen`.
- The obstacle-overlap warning of the prototype's main loop: it only sets a message.
- The prototype frame's collision handling. The boundary and obstacle resets of `parking.py:387-408` are not a function of their own. Their one effect on the parked test, that it uses the corners computed before a reset, is kept: `Prototype.ParkedCheck` takes those corners as a parameter.
- Numerical behaviour: floating-point rounding, and the values of trigonometry, `tanh`, `sqrt` and the He scaling. These are uninterpreted functions, and the values of `feedforward` and of the heading update are not computed.
- Randomness. The draws are inputs, so the statistics of mutation and selection are not modelled.
- `sigmoid`: it is unused.
- `check_collision_car_corners_rect`: it works on pixel masks, and its drawing call is malformed.
- `Car.reset` of `car.py`: the trainer never calls it. Each generation builds new cars.
- The default network a `Car` builds when none is passed: the trainer always passes one, so the network is a parameter of `Agent.NewCar`.
- `initial_distance_to_spot` being `None` before set-up: the trainer sets it right after constructing each car, so it is a plain real.
- The order in which the active cars of a tick are processed. The cars do not interact, so a tick advances them as a map.
- The prototype's own constants: a 1200 x 900 screen and 50 x 80 obstacles. They only matter for its main loop and drawing, so the model does not declare them.
- The storage a clone does not share with its original: arrays are values in the model, so there is no aliasing to model.
- Agent.Update: requires steering within ±MAX_STEERING_ANGLE for an active car, so that the tangent in the heading update is non-zero. Every car starts with straight wheels and `Agent.Steer` keeps steering in range.
- Geometry.CornersSideLengths, Agent.CarCornersSpanTheBody, Agent.DisplacementLength and Prototype.RectanglesNeverFail: these hold only for angles at which cos² + sin² = 1 is assumed. It is not assumed of the trigonometric functions in general.
- Geometry.PolygonsCollide, Agent.CheckCollisions and the SAT lemmas: the polygons are non-empty. When one polygon is empty and the other has an edge of non-zero length, `do_polygons_collide` compares `None` with a float at `utils.py:61` and raises `TypeError`; it returns True only when both are empty or the non-empty one has only zero-length edges. None of these cases is modelled.
- Simulation.SetupNewGeneration: requires a population of at least POPULATION_SIZE, since the source reads `brains[i]` for every car.
- GeneticAlgorithm.CreateNextGeneration: requires a non-empty ranking, since the source reads element 0 of it.
