/** Configuration values of the trainer, as fixed at process start. */
module Constants {

  // Screen
  const ScreenWidth: real := 1500.0
  const ScreenHeight: real := 1000.0
  const Fps: int := 60

  // Car and obstacle bodies
  const CarWidth: real := 30.0
  const CarHeight: real := 60.0
  const ParkWidth: real := 50.0
  const ParkHeight: real := 80.0
  const ParkAngle: real := 90.0
  const ObstacleWidth: real := 40.0
  const ObstacleHeight: real := 80.0

  // Car physics
  const MaxVelocity: real := 3.0
  const AccelerationRate: real := 0.1
  const BrakingRate: real := 0.2
  const TurnRate: real := 2.0
  const Friction: real := 0.05
  const MaxSteeringAngle: real := 40.0

  // Parking success criteria
  const ParkingMinVelocity: real := 0.5
  const ParkingMaxAngleDiff: real := 15.0
  const ParkingMaxDistToCenter: real := CarWidth * 0.75

  // Genetic algorithm
  const PopulationSize: nat := 50
  const Generations: nat := 200
  const SimulationDurationSeconds: int := 8
  const SimulationDurationTicks: int := SimulationDurationSeconds * Fps
  const MutationRate: real := 0.15
  const SelectionPercentage: real := 0.2

  // Controller dimensions
  const InputSize: nat := 10
  const HiddenSize: nat := 64
  const OutputSize: nat := 5

  // Reward weights
  const CollisionPenalty: real := -99.0
  const ParkingBonus: real := 999999.0
  const DistanceRewardMultiplier: real := 5.0
  const AnglePenaltyMultiplier: real := -1.0
  const AlmostParkedBonus: real := 300.0
  const SpeedPenaltyMultiplier: real := -0.0
  const StepPenalty: real := -1.0
  const StoppedPenalty: real := -10.0
  const AlignmentReward: real := 1.0
}
