/**
 * AAgent (Source/FlockAI/Private/Agent.cpp) as a class: its tuning values,
 * its published and pending headings, and the per-tick accumulators that
 * ResetComponents, CalculateNewMoveVector and ComputeStimuliComponent update
 * in place. What the engine supplies (the overlap query, the agent's
 * location, the hit report of the swept move) comes in as parameters;
 * the moves Tick asks the engine for are returned.
 */
module Agents {
  import opened Vectors
  import opened Steering
  import opened Movement

  // Constructor defaults.
  const DefaultBaseMovementSpeed: real := 200.0
  const DefaultMaxMovementSpeed: real := 300.0
  const DefaultAlignmentWeight: real := 1.0
  const DefaultCohesionWeight: real := 0.5
  const DefaultSeparationWeight: real := 0.5
  const DefaultVisionRadius: real := 400.0
  const DefaultAgentPhysicalRadius: real := 45.0

  class Agent {
    /** Identity of this agent in overlap results. */
    const id: nat
    /** The vector length (FVector::Size) all computations use. */
    const size: Vec -> real

    /** Whether the vision sphere component exists. */
    var hasVisionSphere: bool
    /** The actor location, as the engine reports it. */
    var location: Vec

    var baseMovementSpeed: real
    var maxMovementSpeed: real
    var alignmentWeight: real
    var cohesionWeight: real
    var separationWeight: real
    var visionRadius: real
    var agentPhysicalRadius: real

    /** The heading other agents read (published at the start of a tick). */
    var currentMoveVector: Vec
    /** The heading computed for this tick. */
    var newMoveVector: Vec

    var alignmentComponent: Vec
    var cohesionComponent: Vec
    var separationComponent: Vec
    var negativeStimuliComponent: Vec
    var negativeStimuliMaxFactor: real
    var positiveStimuliComponent: Vec
    var positiveStimuliMaxFactor: real

    /** The agents last seen in the vision sphere, the agent itself removed. */
    var neighbourhood: seq<AgentView>

    ghost predicate Valid() {
      IsEuclidean(size)
    }

    function CurrentWeights(): Weights
      reads this
    {
      Weights(alignmentWeight, cohesionWeight, separationWeight)
    }

    /** A new agent with the default tuning values, zero headings and empty accumulators. */
    constructor(id: nat, size: Vec -> real, location: Vec)
      requires IsEuclidean(size)
      ensures Valid()
      ensures this.id == id && this.size == size && this.location == location
      ensures hasVisionSphere
      ensures baseMovementSpeed == DefaultBaseMovementSpeed && maxMovementSpeed == DefaultMaxMovementSpeed
      ensures alignmentWeight == DefaultAlignmentWeight && cohesionWeight == DefaultCohesionWeight
      ensures separationWeight == DefaultSeparationWeight
      ensures visionRadius == DefaultVisionRadius && agentPhysicalRadius == DefaultAgentPhysicalRadius
      ensures negativeStimuliMaxFactor == 0.0 && positiveStimuliMaxFactor == 0.0
      ensures currentMoveVector == Zero && newMoveVector == Zero
      ensures neighbourhood == []
    {
      this.id := id;
      this.size := size;
      this.location := location;
      hasVisionSphere := true;
      baseMovementSpeed := DefaultBaseMovementSpeed;
      maxMovementSpeed := DefaultMaxMovementSpeed;
      alignmentWeight := DefaultAlignmentWeight;
      cohesionWeight := DefaultCohesionWeight;
      separationWeight := DefaultSeparationWeight;
      visionRadius := DefaultVisionRadius;
      negativeStimuliMaxFactor := 0.0;
      positiveStimuliMaxFactor := 0.0;
      agentPhysicalRadius := DefaultAgentPhysicalRadius;
      currentMoveVector := Zero;
      newMoveVector := Zero;
      alignmentComponent := Zero;
      cohesionComponent := Zero;
      separationComponent := Zero;
      negativeStimuliComponent := Zero;
      positiveStimuliComponent := Zero;
      neighbourhood := [];
    }

    /** Starts the agent off along its facing direction, normalised. */
    method BeginPlay(facing: Vec)
      requires Valid()
      modifies this`newMoveVector
      ensures newMoveVector == SafeNormal(size, facing)
      ensures newMoveVector == Zero || size(newMoveVector) == 1.0
    {
      newMoveVector := SafeNormal(size, facing);
    }

    /** Zeroes the five components and the two running maxima. */
    method ResetComponents()
      modifies this`alignmentComponent, this`cohesionComponent, this`separationComponent,
               this`negativeStimuliComponent, this`negativeStimuliMaxFactor,
               this`positiveStimuliComponent, this`positiveStimuliMaxFactor
      ensures alignmentComponent == Zero && cohesionComponent == Zero && separationComponent == Zero
      ensures negativeStimuliComponent == Zero && negativeStimuliMaxFactor == 0.0
      ensures positiveStimuliComponent == Zero && positiveStimuliMaxFactor == 0.0
    {
      alignmentComponent := Zero;
      cohesionComponent := Zero;
      separationComponent := Zero;
      negativeStimuliComponent := Zero;
      negativeStimuliMaxFactor := 0.0;
      positiveStimuliComponent := Zero;
      positiveStimuliMaxFactor := 0.0;
    }

    /**
     * The body of the stimulus loop for one stimulus s: a repelling one adds
     * its term to the negative sum and may raise the negative maximum; an
     * attracting one replaces the positive choice if its factor is strictly
     * larger. Having folded `seen` from the given start values, the
     * accumulators then hold the folds of seen + [s].
     */
    method AccumulateStimulus(s: Stimulus, ghost seen: seq<Stimulus>,
                              ghost negStart: Vec, ghost negMaxStart: real, ghost posStart: Attraction)
      requires Valid()
      requires NegativeDefined(size, seen + [s], location, agentPhysicalRadius)
      requires PositiveDefined(size, seen + [s], location)
      requires negativeStimuliComponent == NegativeSum(size, seen, location, agentPhysicalRadius, negStart)
      requires negativeStimuliMaxFactor == NegativeMaxFactor(size, seen, location, agentPhysicalRadius, negMaxStart)
      requires Attraction(positiveStimuliComponent, positiveStimuliMaxFactor) == PositiveChoice(size, seen, location, posStart)
      modifies this`negativeStimuliComponent, this`negativeStimuliMaxFactor,
               this`positiveStimuliComponent, this`positiveStimuliMaxFactor
      ensures negativeStimuliComponent == NegativeSum(size, seen + [s], location, agentPhysicalRadius, negStart)
      ensures negativeStimuliMaxFactor == NegativeMaxFactor(size, seen + [s], location, agentPhysicalRadius, negMaxStart)
      ensures Attraction(positiveStimuliComponent, positiveStimuliMaxFactor)
              == PositiveChoice(size, seen + [s], location, posStart)
    {
      AppendStimulus(size, seen, s, location, agentPhysicalRadius, negStart, negMaxStart, posStart);
      if s.value < 0.0 {
        var term := NegativeTerm(size, s, location, agentPhysicalRadius);
        negativeStimuliComponent := Add(negativeStimuliComponent, term);
        negativeStimuliMaxFactor := Max(size(term), negativeStimuliMaxFactor);
      } else {
        var factor := Factor(size, s, location);
        if factor > positiveStimuliMaxFactor {
          positiveStimuliComponent := Pull(size, s, location);
          positiveStimuliMaxFactor := factor;
        }
      }
    }

    /**
     * The stimulus loop: folds the stimuli among the overlapping actors into
     * the negative sum, the negative running maximum and the positive
     * arg-max, each starting from its current value; other actors are skipped.
     */
    method AccumulateStimuli(actors: seq<Actor>)
      requires Valid()
      requires NegativeDefined(size, StimuliOf(actors), location, agentPhysicalRadius)
      requires PositiveDefined(size, StimuliOf(actors), location)
      modifies this`negativeStimuliComponent, this`negativeStimuliMaxFactor,
               this`positiveStimuliComponent, this`positiveStimuliMaxFactor
      ensures negativeStimuliComponent
              == NegativeSum(size, StimuliOf(actors), location, agentPhysicalRadius, old(negativeStimuliComponent))
      ensures negativeStimuliMaxFactor
              == NegativeMaxFactor(size, StimuliOf(actors), location, agentPhysicalRadius, old(negativeStimuliMaxFactor))
      ensures Attraction(positiveStimuliComponent, positiveStimuliMaxFactor)
              == PositiveChoice(size, StimuliOf(actors), location,
                                Attraction(old(positiveStimuliComponent), old(positiveStimuliMaxFactor)))
    {
      ghost var negStart, negMaxStart := negativeStimuliComponent, negativeStimuliMaxFactor;
      ghost var posStart := Attraction(positiveStimuliComponent, positiveStimuliMaxFactor);
      var i := 0;
      ghost var done: seq<Actor> := [];
      while i < |actors|
        invariant 0 <= i <= |actors| && done == actors[..i]
        invariant NegativeDefined(size, StimuliOf(done), location, agentPhysicalRadius)
        invariant PositiveDefined(size, StimuliOf(done), location)
        invariant negativeStimuliComponent
                  == NegativeSum(size, StimuliOf(done), location, agentPhysicalRadius, negStart)
        invariant negativeStimuliMaxFactor
                  == NegativeMaxFactor(size, StimuliOf(done), location, agentPhysicalRadius, negMaxStart)
        invariant Attraction(positiveStimuliComponent, positiveStimuliMaxFactor)
                  == PositiveChoice(size, StimuliOf(done), location, posStart)
        modifies this`negativeStimuliComponent, this`negativeStimuliMaxFactor,
                 this`positiveStimuliComponent, this`positiveStimuliMaxFactor
      {
        assert done + [actors[i]] == actors[..i + 1];
        StimuliPrefixDefined(size, actors, i + 1, location, agentPhysicalRadius);
        AppendActor(done, actors[i]);
        if actors[i].StimulusActor? {
          AccumulateStimulus(actors[i].stimulus, StimuliOf(done), negStart, negMaxStart, posStart);
        }
        done := done + [actors[i]];
        i := i + 1;
      }
      assert done == actors;
    }

    /**
     * Folds the stimuli among the overlapping actors into the stimulus
     * components, starting from their current values, then combines all
     * five components into the new heading. Without a vision sphere nothing
     * changes.
     */
    method ComputeStimuliComponent(actors: seq<Actor>)
      requires Valid()
      requires hasVisionSphere ==>
                 NegativeDefined(size, StimuliOf(actors), location, agentPhysicalRadius)
                 && PositiveDefined(size, StimuliOf(actors), location)
      modifies this`negativeStimuliComponent, this`negativeStimuliMaxFactor,
               this`positiveStimuliComponent, this`positiveStimuliMaxFactor, this`newMoveVector
      ensures !hasVisionSphere ==> unchanged(this)
      ensures hasVisionSphere ==>
                negativeStimuliMaxFactor
                == NegativeMaxFactor(size, StimuliOf(actors), location, agentPhysicalRadius, old(negativeStimuliMaxFactor))
      ensures hasVisionSphere ==>
                negativeStimuliComponent
                == Scale(SafeNormal(size, NegativeSum(size, StimuliOf(actors), location, agentPhysicalRadius,
                                                      old(negativeStimuliComponent))),
                         negativeStimuliMaxFactor)
      ensures hasVisionSphere ==>
                Attraction(positiveStimuliComponent, positiveStimuliMaxFactor)
                == PositiveChoice(size, StimuliOf(actors), location,
                                  Attraction(old(positiveStimuliComponent), old(positiveStimuliMaxFactor)))
      ensures hasVisionSphere ==>
                newMoveVector == Combine(CurrentWeights(), alignmentComponent, cohesionComponent, separationComponent,
                                         negativeStimuliComponent, positiveStimuliComponent)
    {
      if !hasVisionSphere {
        return;
      }
      AccumulateStimuli(actors);
      negativeStimuliComponent := Scale(SafeNormal(size, negativeStimuliComponent), negativeStimuliMaxFactor);
      newMoveVector := Combine(CurrentWeights(), alignmentComponent, cohesionComponent, separationComponent,
                               negativeStimuliComponent, positiveStimuliComponent);
    }

    /**
     * The alignment loop: adds the normalised heading of every overlapping
     * agent, this one included (read through its own current heading).
     */
    method AccumulateAlignment()
      requires Valid()
      modifies this`alignmentComponent
      ensures alignmentComponent
              == HeadingSum(size, neighbourhood, id, currentMoveVector, old(alignmentComponent))
    {
      var ns, selfHeading := neighbourhood, currentMoveVector;
      ghost var start := alignmentComponent;
      var i := 0;
      ghost var done: seq<AgentView> := [];
      while i < |ns|
        invariant 0 <= i <= |ns| && done == ns[..i]
        invariant alignmentComponent == HeadingSum(size, done, id, selfHeading, start)
        modifies this`alignmentComponent
      {
        assert done + [ns[i]] == ns[..i + 1];
        AppendHeading(size, done, ns[i], id, selfHeading, start);
        var heading := if ns[i].id == id then selfHeading else ns[i].heading;
        alignmentComponent := Add(alignmentComponent, SafeNormal(size, heading));
        done := done + [ns[i]];
        i := i + 1;
      }
      assert done == ns;
    }

    /**
     * The alignment section: the loop, then normalisation of the sum. From
     * the reset value it yields Alignment of the overlap.
     */
    method ComputeAlignment()
      requires Valid()
      modifies this`alignmentComponent
      ensures old(alignmentComponent) == Zero ==>
                alignmentComponent == Alignment(size, neighbourhood, id, currentMoveVector)
    {
      AccumulateAlignment();
      alignmentComponent := SafeNormal(size, alignmentComponent);
    }

    /** The cohesion loop: adds the offset from this agent to every neighbour. */
    method AccumulateCohesion()
      modifies this`cohesionComponent
      ensures cohesionComponent == OffsetSum(neighbourhood, location, old(cohesionComponent))
    {
      var ns, loc := neighbourhood, location;
      ghost var start := cohesionComponent;
      var i := 0;
      ghost var done: seq<AgentView> := [];
      while i < |ns|
        invariant 0 <= i <= |ns| && done == ns[..i]
        invariant cohesionComponent == OffsetSum(done, loc, start)
        modifies this`cohesionComponent
      {
        assert done + [ns[i]] == ns[..i + 1];
        AppendOffset(done, ns[i], loc, start);
        cohesionComponent := Add(cohesionComponent, Sub(ns[i].location, loc));
        done := done + [ns[i]];
        i := i + 1;
      }
      assert done == ns;
    }

    /**
     * The cohesion section, entered only with neighbours: the loop, then
     * division by their number and by 100. From the reset value it yields
     * Cohesion of the neighbourhood.
     */
    method ComputeCohesion()
      requires |neighbourhood| > 0
      modifies this`cohesionComponent
      ensures old(cohesionComponent) == Zero ==> cohesionComponent == Cohesion(neighbourhood, location)
    {
      AccumulateCohesion();
      cohesionComponent := Scale(Scale(cohesionComponent, 1.0 / (|neighbourhood| as real)), 1.0 / CohesionDivisor);
    }

    /**
     * The separation loop: adds, for every neighbour, the unit vector from it
     * to this agent divided by |distance - 2 · physical radius|.
     */
    method AccumulateSeparation()
      requires Valid() && SeparationDefined(size, neighbourhood, location, agentPhysicalRadius)
      modifies this`separationComponent
      ensures separationComponent
              == SeparationSum(size, neighbourhood, location, agentPhysicalRadius, old(separationComponent))
    {
      var ns, loc, radius := neighbourhood, location, agentPhysicalRadius;
      ghost var start := separationComponent;
      var i := 0;
      ghost var done: seq<AgentView> := [];
      while i < |ns|
        invariant 0 <= i <= |ns| && done == ns[..i]
        invariant SeparationDefined(size, done, loc, radius)
        invariant separationComponent == SeparationSum(size, done, loc, radius, start)
        modifies this`separationComponent
      {
        assert done + [ns[i]] == ns[..i + 1];
        SeparationPrefixDefined(size, ns, i + 1, loc, radius);
        AppendSeparation(size, done, ns[i], loc, radius, start);
        var locDiff := Sub(loc, ns[i].location);
        separationComponent := Add(separationComponent,
                                   Scale(SafeNormal(size, locDiff), 1.0 / Abs(size(locDiff) - radius * 2.0)));
        done := done + [ns[i]];
        i := i + 1;
      }
      assert done == ns;
    }

    /**
     * The separation section, entered only with neighbours: the loop, then
     * the sum s becomes 100·s + 100·s·(5/N). From the reset value it yields
     * Separation of the neighbourhood.
     */
    method ComputeSeparation()
      requires Valid() && |neighbourhood| > 0
      requires SeparationDefined(size, neighbourhood, location, agentPhysicalRadius)
      modifies this`separationComponent
      ensures old(separationComponent) == Zero ==>
                separationComponent == Separation(size, neighbourhood, location, agentPhysicalRadius)
    {
      AccumulateSeparation();
      var separationLoc := Scale(separationComponent, SeparationScale);
      separationComponent := Add(separationLoc, Scale(separationLoc, SeparationDensity / (|neighbourhood| as real)));
    }

    /**
     * The flocking part of a recomputation: the agents overlapping the vision
     * sphere become the neighbourhood, alignment is taken over all of them,
     * the agent itself is removed, and cohesion and separation are taken
     * over the rest when any remain. From the reset values each component is
     * the corresponding rule applied to the overlap.
     */
    method ComputeFlockingComponents(actors: seq<Actor>)
      requires Valid()
      requires SeparationDefined(size, Without(AgentsOf(actors), id), location, agentPhysicalRadius)
      modifies this`alignmentComponent, this`cohesionComponent, this`separationComponent, this`neighbourhood
      ensures neighbourhood == Without(AgentsOf(actors), id)
      ensures old(alignmentComponent) == Zero ==>
                alignmentComponent == Alignment(size, AgentsOf(actors), id, currentMoveVector)
      ensures old(cohesionComponent) == Zero ==> cohesionComponent == Cohesion(neighbourhood, location)
      ensures old(separationComponent) == Zero ==>
                separationComponent == Separation(size, neighbourhood, location, agentPhysicalRadius)
    {
      neighbourhood := AgentsOf(actors);
      ComputeAlignment();
      neighbourhood := Without(neighbourhood, id);
      if |neighbourhood| > 0 {
        ComputeCohesion();
        ComputeSeparation();
      }
    }

    /**
     * Recomputes every component from the actors overlapping the vision
     * sphere and, through ComputeStimuliComponent, the new heading. The
     * agent's own entry contributes its current heading to alignment and is
     * then removed from the neighbourhood. Without a vision sphere only the
     * reset happens and the new heading keeps its value.
     */
    method CalculateNewMoveVector(actors: seq<Actor>)
      requires Valid()
      requires hasVisionSphere ==>
                 HeadingDefined(size, id, location, agentPhysicalRadius, AgentsOf(actors), StimuliOf(actors))
      modifies this`alignmentComponent, this`cohesionComponent, this`separationComponent,
               this`negativeStimuliComponent, this`negativeStimuliMaxFactor,
               this`positiveStimuliComponent, this`positiveStimuliMaxFactor,
               this`neighbourhood, this`newMoveVector
      ensures !hasVisionSphere ==>
                && alignmentComponent == Zero && cohesionComponent == Zero && separationComponent == Zero
                && negativeStimuliComponent == Zero && negativeStimuliMaxFactor == 0.0
                && positiveStimuliComponent == Zero && positiveStimuliMaxFactor == 0.0
                && neighbourhood == old(neighbourhood) && newMoveVector == old(newMoveVector)
      ensures hasVisionSphere ==>
                && neighbourhood == Without(AgentsOf(actors), id)
                && alignmentComponent == Alignment(size, AgentsOf(actors), id, currentMoveVector)
                && cohesionComponent == Cohesion(neighbourhood, location)
                && separationComponent == Separation(size, neighbourhood, location, agentPhysicalRadius)
                && negativeStimuliComponent == NegativeComponent(size, StimuliOf(actors), location, agentPhysicalRadius)
                && negativeStimuliMaxFactor == NegativeMaxFactor(size, StimuliOf(actors), location, agentPhysicalRadius, 0.0)
                && Attraction(positiveStimuliComponent, positiveStimuliMaxFactor)
                   == PositiveChoice(size, StimuliOf(actors), location, NoAttraction)
                && newMoveVector == DesiredHeading(size, CurrentWeights(), id, location, currentMoveVector,
                                                   agentPhysicalRadius, AgentsOf(actors), StimuliOf(actors))
    {
      ResetComponents();
      if !hasVisionSphere {
        return;
      }
      assert NegativeDefined(size, StimuliOf(actors), location, agentPhysicalRadius);
      assert PositiveDefined(size, StimuliOf(actors), location);
      ComputeFlockingComponents(actors);
      ComputeStimuliComponent(actors);
    }

    /**
     * One frame: publish the heading computed last frame, compute the new
     * one, and return the speed-capped first move and, when that move
     * reports a blocking hit, the deflected second move.
     */
    method Tick(dt: real, actors: seq<Actor>, hit: HitResult) returns (firstMove: Vec, secondMove: Option<Vec>)
      requires Valid()
      requires hasVisionSphere ==>
                 HeadingDefined(size, id, location, agentPhysicalRadius, AgentsOf(actors), StimuliOf(actors))
      modifies this`currentMoveVector,
               this`alignmentComponent, this`cohesionComponent, this`separationComponent,
               this`negativeStimuliComponent, this`negativeStimuliMaxFactor,
               this`positiveStimuliComponent, this`positiveStimuliMaxFactor,
               this`neighbourhood, this`newMoveVector
      ensures currentMoveVector == old(newMoveVector)
      ensures hasVisionSphere ==>
                newMoveVector == DesiredHeading(size, CurrentWeights(), id, location, old(newMoveVector),
                                                agentPhysicalRadius, AgentsOf(actors), StimuliOf(actors))
      ensures !hasVisionSphere ==> newMoveVector == old(newMoveVector)
      ensures !hasVisionSphere ==>
                && alignmentComponent == Zero && cohesionComponent == Zero && separationComponent == Zero
                && negativeStimuliComponent == Zero && negativeStimuliMaxFactor == 0.0
                && positiveStimuliComponent == Zero && positiveStimuliMaxFactor == 0.0
                && neighbourhood == old(neighbourhood)
      ensures hasVisionSphere ==>
                && neighbourhood == Without(AgentsOf(actors), id)
                && alignmentComponent == Alignment(size, AgentsOf(actors), id, currentMoveVector)
                && cohesionComponent == Cohesion(neighbourhood, location)
                && separationComponent == Separation(size, neighbourhood, location, agentPhysicalRadius)
                && negativeStimuliComponent == NegativeComponent(size, StimuliOf(actors), location, agentPhysicalRadius)
                && negativeStimuliMaxFactor == NegativeMaxFactor(size, StimuliOf(actors), location, agentPhysicalRadius, 0.0)
                && Attraction(positiveStimuliComponent, positiveStimuliMaxFactor)
                   == PositiveChoice(size, StimuliOf(actors), location, NoAttraction)
      ensures firstMove == Displacement(size, newMoveVector, baseMovementSpeed, maxMovementSpeed, dt)
      ensures 0.0 <= maxMovementSpeed * dt ==> size(firstMove) <= maxMovementSpeed * dt
      ensures secondMove == SecondMove(size, firstMove, hit)
      ensures secondMove.Some? <==> hit.isValidBlockingHit
    {
      currentMoveVector := newMoveVector;
      CalculateNewMoveVector(actors);
      firstMove, secondMove := Move(dt, hit);
    }

    /**
     * The movement part of a frame: the heading times base speed times dt,
     * clamped to max speed times dt, and, after a blocking hit, that move
     * projected onto the plane of the horizontal hit normal and scaled by the
     * fraction of the frame left. The agent's state is not changed.
     */
    method Move(dt: real, hit: HitResult) returns (firstMove: Vec, secondMove: Option<Vec>)
      requires Valid()
      ensures firstMove == Displacement(size, newMoveVector, baseMovementSpeed, maxMovementSpeed, dt)
      ensures 0.0 <= maxMovementSpeed * dt ==> size(firstMove) <= maxMovementSpeed * dt
      ensures secondMove == SecondMove(size, firstMove, hit)
      ensures secondMove.Some? <==> hit.isValidBlockingHit
    {
      firstMove := ClampToMaxSize(size, Scale(Scale(newMoveVector, baseMovementSpeed), dt), maxMovementSpeed * dt);
      if hit.isValidBlockingHit {
        secondMove := Some(Deflection(size, firstMove, hit));
      } else {
        secondMove := None;
      }
    }
  }
}
