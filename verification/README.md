# FlockAI agent steering in Dafny

This project models `AAgent` from the FlockAI Unreal Engine sample. An agent
steers by four flocking and stimulus rules:

- alignment: follow the common heading of the agents in its vision sphere;
- cohesion: move toward the centroid of its neighbours;
- separation: push away from neighbours that are close to contact;
- stimuli: flee repelling stimuli and head for the most attractive one.

The model covers every step of one frame:

- the constructor defaults;
- the initial heading set in `BeginPlay`;
- the reset of the per-frame accumulators;
- the loops of `CalculateNewMoveVector` and `ComputeStimuliComponent` that
  update the accumulators in place;
- the weighted combination into the new heading;
- the movement arithmetic of `Tick`: publish the heading, make a
  speed-capped first move and, after a blocking hit, a deflected second move.

Files and modules:

- `vectors.dfy` (`Vectors`): three-component vectors over exact reals.
  - Dafny has no square root. The engine's vector length is therefore a
    parameter `size`, constrained by `IsEuclidean(size)`: the length is
    non-negative, zero only on the zero vector, homogeneous, and its square
    is `v·v`.
  - These constraints determine `size` completely (`EuclideanSizeUnique`).
  - Safe normalisation (`SafeNormal`, `SafeNormal2D`) is defined from `size`.
- `steering.dfy` (`Steering`): the steering rules as functions over the
  actors that overlap the vision sphere, with their properties as lemmas.
  - Every `+=` loop of the source is specified by a fold over a prefix of the
    sequence. The fold takes an initial accumulator, so the fold itself
    serves as a loop invariant.
- `movement.dfy` (`Movement`): the clamp, the plane projection and the
  deflection used by `Tick`, with their geometric properties.
- `agent.dfy` (`Agents`): class `Agent`.
  - Its fields are the fields of `AAgent`.
  - Its methods update them in place with the source's loops.
  - Each method is proved against the `Steering` and `Movement` functions.

The engine is represented by inputs and outputs:

- The overlap query is a sequence of `Actor`s: agents with their published
  heading, stimuli with their value, or anything else.
- The result of the swept move is a `HitResult`.
- `Tick` returns the displacements it would hand to `MoveComponent`.

The code divides by a distance or a gap in three places:

- `Agent.cpp:101`: the gap between the distance and twice the physical radius;
- `Agent.cpp:140`: the gap between the distance and the physical radius;
- `Agent.cpp:148`: the distance itself.

None of these divisions is guarded in the code. The model follows the
code: each division is
excluded by a precondition: `SeparationDefined`, `NegativeDefined` and
`PositiveDefined`, gathered in `HeadingDefined`. So the model does not invent
a clamp the code does not have.

## Model

| member | source | states |
|---|---|---|
| Vectors.SafeNormal | Source/FlockAI/Private/Agent.cpp:80 | The safe normal of the zero vector is zero. Every other vector gives a unit vector, and scaling that unit vector by the original length gives back the original vector. |
| Vectors.SafeNormalScaleInvariant | Source/FlockAI/Private/Agent.cpp:80 | Normalising a positive multiple of a vector gives the same direction as the vector itself. |
| Vectors.EuclideanSizeUnique | Source/FlockAI/Private/Agent.cpp:101 | Any two length functions that meet IsEuclidean agree on every vector, so the length parameter is the Euclidean length. |
| Vectors.SafeNormal2D | Source/FlockAI/Private/Agent.cpp:57 | The horizontal safe normal has no vertical part. It is a unit vector unless x and y are both zero, and it points along the flattened vector. |
| Steering.AgentsOf | Source/FlockAI/Private/Agent.cpp:69 | The agent filter of the overlap query returns no more entries than there are actors. |
| Steering.AgentsOfMembers | Source/FlockAI/Private/Agent.cpp:69 | The agent filter keeps exactly the agents among the overlapping actors. |
| Steering.StimuliOf | Source/FlockAI/Private/Agent.cpp:129-133 | The stimulus cast returns no more entries than there are actors. |
| Steering.StimuliOfMembers | Source/FlockAI/Private/Agent.cpp:129-133 | The stimulus cast keeps exactly the stimuli among the overlapping actors. |
| Steering.AgentsOfKeepsOrder | Source/FlockAI/Private/Agent.cpp:69-78 | The agent filter keeps the order of the actors: filtering a concatenation is the concatenation of the filtered parts. |
| Steering.StimuliOfKeepsOrder | Source/FlockAI/Private/Agent.cpp:131-133 | The stimulus filter keeps the order of the actors in the same way. "First" in PositiveChoiceIsFirstArgMax is therefore first in the order of the overlap. |
| Steering.HeadingSum | Source/FlockAI/Private/Agent.cpp:72-78 | The fold behind the alignment loop: the starting accumulator plus the safe-normalised heading of every overlapping agent, in order, with the agent's own entry read through its own heading. Its properties are stated by Alignment, AlignmentScaleInvariant and Agents.Agent.AccumulateAlignment. |
| Steering.Alignment | Source/FlockAI/Private/Agent.cpp:72-80 | Alignment is a unit vector, or zero exactly when the summed normalised headings cancel out. Scaled by the length of that sum, it gives the sum back. |
| Steering.AlignmentScaleInvariant | Source/FlockAI/Private/Agent.cpp:72-80 | Alignment depends only on the directions of the headings. Multiplying every heading, the agent's own included, by a positive factor leaves it unchanged. |
| Steering.Without | Source/FlockAI/Private/Agent.cpp:82 | Removing the agent never lengthens the neighbourhood. |
| Steering.WithoutMembers | Source/FlockAI/Private/Agent.cpp:82 | Removal keeps exactly the entries of other agents. It changes nothing when the agent is absent, and leaves nothing when only the agent is present. |
| Steering.OffsetSum | Source/FlockAI/Private/Agent.cpp:87-91 | The fold behind the cohesion loop: the starting accumulator plus the offset from the agent to every neighbour. Its properties are stated by OffsetSumShiftsLocationSum and Agents.Agent.AccumulateCohesion. |
| Steering.Cohesion | Source/FlockAI/Private/Agent.cpp:84-93 | The cohesion component: the summed offsets divided by the neighbour count and by 100, zero without neighbours. CohesionTowardCentroid states that it is the offset to the neighbours' centroid over 100. |
| Steering.CohesionTowardCentroid | Source/FlockAI/Private/Agent.cpp:84-93 | With neighbours, cohesion is the offset from the agent to the neighbours' centroid, divided by 100. With no neighbours it is exactly zero. |
| Steering.SeparationTerm | Source/FlockAI/Private/Agent.cpp:98-101 | One neighbour's separation term: the unit vector from the neighbour to the agent, divided by the gap abs(distance - 2 radius). SeparationSingleNeighbour gives its effect on the component's length. |
| Steering.SeparationSum | Source/FlockAI/Private/Agent.cpp:96-102 | The fold behind the separation loop: the starting accumulator plus every neighbour's term. Agents.Agent.AccumulateSeparation is proved equal to it. |
| Steering.Separation | Source/FlockAI/Private/Agent.cpp:96-105 | The separation component. SeparationFactor, SeparationOfOne, SeparationSingleNeighbour and SeparationGrowsTowardContact state its factor, its single-neighbour length and its growth toward contact. |
| Steering.SeparationFactor | Source/FlockAI/Private/Agent.cpp:96-105 | With neighbours, separation is the sum of the terms times 100, then times 1 + 5/N. With no neighbours it is exactly zero. |
| Steering.SeparationOfOne | Source/FlockAI/Private/Agent.cpp:96-105 | With one neighbour, separation is 600 times that neighbour's term. |
| Steering.SeparationSingleNeighbour | Source/FlockAI/Private/Agent.cpp:96-105 | One neighbour at distance d gives a separation of length 600 / abs(d - 2r). |
| Steering.SeparationGrowsTowardContact | Source/FlockAI/Private/Agent.cpp:98-101 | Beyond contact distance, a nearer single neighbour gives a strictly longer separation than a farther one. |
| Steering.NegativeTerm | Source/FlockAI/Private/Agent.cpp:135-140 | One repelling stimulus's term. NegativeTermLength and NegativeTermRepels state its length and that it points away from the stimulus. |
| Steering.NegativeSum | Source/FlockAI/Private/Agent.cpp:137-141 | The fold behind the negative branch of the stimulus loop: the starting accumulator plus the terms of the repelling stimuli, attracting ones skipped. Agents.Agent.AccumulateStimuli is proved equal to it. |
| Steering.NegativeMaxFactor | Source/FlockAI/Private/Agent.cpp:143 | The running maximum of the repelling terms' lengths never falls below its start. NegativeMaxFactorIsMax states that it is the maximum. |
| Steering.NegativeTermLength | Source/FlockAI/Private/Agent.cpp:140 | A repelling stimulus contributes a term of length 100·abs(value) / abs(distance - radius). |
| Steering.NegativeTermRepels | Source/FlockAI/Private/Agent.cpp:135-140 | A repelling term points from the stimulus toward the agent, away from the stimulus. |
| Steering.NegativeMaxFactorIsMax | Source/FlockAI/Private/Agent.cpp:143 | The running maximum is at least its start and at least every repelling term's length. It equals either its start or one of those lengths. |
| Steering.NegativeComponent | Source/FlockAI/Private/Agent.cpp:137-158 | The negative stimuli component: the direction of the summed repelling terms, scaled to the largest single term. NegativeComponentMagnitude states its length. |
| Steering.NegativeComponentMagnitude | Source/FlockAI/Private/Agent.cpp:137-158 | The negative component is as long as the strongest single repeller, not the sum of them. It is zero when there are no repellers or their terms cancel out. Otherwise no single term is longer than it. |
| Steering.Factor | Source/FlockAI/Private/Agent.cpp:148 | The attraction score of a stimulus: its value over its distance. PositiveChoiceIsFirstArgMax states that the choice maximises it. |
| Steering.Pull | Source/FlockAI/Private/Agent.cpp:151 | The pull of the chosen attractor: the unit vector toward it times its value. ChosenAt ties the chosen component to it. |
| Steering.PositiveChoice | Source/FlockAI/Private/Agent.cpp:146-153 | The running arg-max over the attracting stimuli never lowers the factor it starts from. PositiveChoiceIsFirstArgMax and PositiveChoiceFromReset state that it picks the first attractor of largest factor. |
| Steering.PositiveChoiceIsFirstArgMax | Source/FlockAI/Private/Agent.cpp:146-153 | The chosen factor is the largest of the starting factor and every attractor's value/distance. If nothing beats the start, the start is kept. Otherwise the choice is the pull of the first attractor that attains the maximum. |
| Steering.PositiveChoiceFromReset | Source/FlockAI/Private/Agent.cpp:146-153 | After the reset, the chosen factor is non-negative. A zero factor leaves the positive component zero. A stimulus of value zero is never chosen. |
| Steering.LoneAgentKeepsDirection | Source/FlockAI/Private/Agent.cpp:72-160 | An agent that sees only itself and no stimulus gets a new heading equal to its normalised current heading times the alignment weight. |
| Steering.Combine | Source/FlockAI/Private/Agent.cpp:160 | The new heading as the three weighted flocking components plus the two unweighted stimulus components. Agents.Agent.ComputeStimuliComponent is proved to store it. |
| Steering.DesiredHeading | Source/FlockAI/Private/Agent.cpp:63-160 | The heading one recomputation produces from the overlap. Agents.Agent.CalculateNewMoveVector and Agents.Agent.Tick are proved to produce it, and LoneAgentKeepsDirection states its value for an agent that sees only itself. |
| Movement.ClampToMaxSize | Source/FlockAI/Private/Agent.cpp:49 | A non-positive limit gives zero. The result is never longer than a non-negative limit. A vector within the limit is returned unchanged, and a longer one is shortened to exactly the limit. |
| Movement.ClampKeepsDirection | Source/FlockAI/Private/Agent.cpp:49 | Clamping to a positive limit keeps the direction. |
| Movement.ClampIdempotent | Source/FlockAI/Private/Agent.cpp:49 | Clamping twice to the same limit is the same as clamping once. |
| Movement.Displacement | Source/FlockAI/Private/Agent.cpp:49 | The first move is never longer than max speed times dt. It is heading times base speed times dt whenever that is within the cap. |
| Movement.DisplacementKeepsDirection | Source/FlockAI/Private/Agent.cpp:49 | With a positive cap, the first move points along the heading. |
| Movement.DisplacementUncapped | Source/FlockAI/Private/Agent.cpp:49 | Below the cap, the first move is heading times base speed times dt, of length base speed times the heading length times dt. |
| Movement.DisplacementCapped | Source/FlockAI/Private/Agent.cpp:49 | Above the cap, the first move is exactly max speed times dt long. |
| Movement.DisplacementLength | Source/FlockAI/Private/Agent.cpp:49 | The first move is min(base speed times the heading length, max speed) times dt long. |
| Movement.SpeedCapExample | Source/FlockAI/Private/Agent.cpp:49 | With the default speeds (200, cap 300) and a heading of length 5, one second moves exactly 300. |
| Movement.PlaneProject | Source/FlockAI/Private/Agent.cpp:58 | Projection onto the plane of a normal. PlaneProjectProperties states that it is orthogonal to a unit normal and never longer. |
| Vectors.Flatten | Source/FlockAI/Private/Agent.cpp:57 | The horizontal part of a vector. SafeNormal2D states that the 2D normal points along it. |
| Movement.Deflection | Source/FlockAI/Private/Agent.cpp:58 | The deflected second move. DeflectionSlidesAlongWall, DeflectionKeepsVertical, DeflectionLength, DeflectionNoLonger and ParallelWallKeepsDirection state its properties. |
| Movement.PlaneProjectProperties | Source/FlockAI/Private/Agent.cpp:58 | Projecting onto the plane of a unit or zero normal leaves no component along the normal and never lengthens the vector. |
| Movement.DeflectionSlidesAlongWall | Source/FlockAI/Private/Agent.cpp:57-58 | The deflected move has no component along the horizontal hit normal. |
| Movement.DeflectionKeepsVertical | Source/FlockAI/Private/Agent.cpp:57-58 | Because the normal is made horizontal, the vertical part of the move is only scaled by 1 - time. |
| Movement.DeflectionLength | Source/FlockAI/Private/Agent.cpp:58 | The deflected move is abs(1 - time) times the projected move long. |
| Movement.DeflectionNoLonger | Source/FlockAI/Private/Agent.cpp:58 | For a hit time in [0, 1], the deflected move is at most (1 - time) times the first move's length. |
| Movement.ParallelWallKeepsDirection | Source/FlockAI/Private/Agent.cpp:58 | A wall parallel to the move deflects nothing: the second move is the unmade fraction of the first. |
| Movement.SecondMove | Source/FlockAI/Private/Agent.cpp:55-60 | A second move exists exactly when the first move reported a valid blocking hit. |
| Agents.Agent.constructor | Source/FlockAI/Private/Agent.cpp:8-22 | A new agent has base speed 200, max speed 300, weights 1 / 0.5 / 0.5, vision radius 400, physical radius 45, both stimulus factors 0, a vision sphere, zero headings and an empty neighbourhood. |
| Agents.Agent.BeginPlay | Source/FlockAI/Private/Agent.cpp:35-40 | The initial pending heading is the safe normal of the facing direction, so a unit vector or zero. |
| Agents.Agent.ResetComponents | Source/FlockAI/Private/Agent.cpp:113-122 | Every per-frame accumulator and both stimulus factors are zero afterwards, so nothing from the previous frame leaks in. Resetting twice is the same as resetting once. |
| Agents.Agent.AccumulateStimulus | Source/FlockAI/Private/Agent.cpp:133-155 | Handling one stimulus advances the negative sum, the running maximum and the positive choice to their folds over the stimuli seen so far plus that stimulus. |
| Agents.Agent.AccumulateStimuli | Source/FlockAI/Private/Agent.cpp:131-156 | After the loop, the accumulators are the folds over every stimulus among the actors, taken from their values before the loop. |
| Agents.Agent.ComputeStimuliComponent | Source/FlockAI/Private/Agent.cpp:124-162 | Without a vision sphere nothing changes. Otherwise the negative component is the direction of the summed repelling terms scaled to the largest term, the positive component is the arg-max choice, and the new heading is the weighted combination of the five components. |
| Agents.Agent.AccumulateAlignment | Source/FlockAI/Private/Agent.cpp:72-78 | The loop adds the normalised heading of every overlapping agent. The agent's own entry is read through its own current heading. |
| Agents.Agent.ComputeAlignment | Source/FlockAI/Private/Agent.cpp:71-80 | From the reset value, the alignment component becomes Alignment of the overlap set. |
| Agents.Agent.AccumulateCohesion | Source/FlockAI/Private/Agent.cpp:87-91 | The loop adds the offset from the agent to every neighbour. |
| Agents.Agent.ComputeCohesion | Source/FlockAI/Private/Agent.cpp:86-93 | From the reset value, with neighbours present, the cohesion component becomes Cohesion of the neighbourhood, the centroid offset over 100. |
| Agents.Agent.AccumulateSeparation | Source/FlockAI/Private/Agent.cpp:96-102 | The loop adds every neighbour's separation term. |
| Agents.Agent.ComputeSeparation | Source/FlockAI/Private/Agent.cpp:95-105 | From the reset value, with neighbours present, the separation component becomes Separation of the neighbourhood. |
| Agents.Agent.ComputeFlockingComponents | Source/FlockAI/Private/Agent.cpp:67-106 | The neighbourhood becomes the overlapping agents minus the agent itself. Alignment is taken over all overlapping agents. From the reset values, cohesion and separation are taken over the remaining neighbours, and stay zero when none remain. |
| Agents.Agent.CalculateNewMoveVector | Source/FlockAI/Private/Agent.cpp:63-111 | Without a vision sphere, only the reset happens and the pending heading keeps its value. Otherwise every component is its steering rule applied to the overlap, and the pending heading is DesiredHeading. |
| Agents.Agent.Tick | Source/FlockAI/Private/Agent.cpp:42-61 | The published heading becomes last frame's pending heading. The recomputation from it leaves every component and the neighbourhood as CalculateNewMoveVector does: each steering rule applied to the overlap with a vision sphere, all reset to zero without one. The new pending heading is DesiredHeading. The first move is the capped displacement along it. A second, deflected move exists exactly on a blocking hit. |
| Agents.Agent.Move | Source/FlockAI/Private/Agent.cpp:49-60 | Without changing the agent, the first move is the capped displacement and is never longer than max speed times dt. The second move is the deflection, present exactly on a blocking hit. |

## Left out

- Floating point: all arithmetic is over exact reals. Rounding, NaN and infinity are not modelled. The `float` casts at `Agent.cpp:93` and `:105` are exact.
- Vectors.SafeNormal: the engine treats vectors shorter than a small tolerance as degenerate. Here only the zero vector is degenerate. The clamp at `Agent.cpp:49` is likewise exact.
- The unguarded divisions at `Agent.cpp:101`, `:140` and `:148` are preconditions (`SeparationDefined`, `NegativeDefined`, `PositiveDefined`). The model does not describe what the code computes when a denominator is zero.
- The engine's overlap queries at `Agent.cpp:69` and `:129` are an input sequence of actors. Actors are visited in the order of that sequence, which stands for the unspecified iteration order of the engine's set and array. A stimulus that is also an agent is not modelled.
- Other agents' headings are read from the `heading` each overlapping agent publishes. The order in which the engine ticks different agents is not modelled.
- `Agent.h` and `Stimulus.h` are not part of this model. A stimulus is its location and its `Value`. `VisionSphere` is the flag `hasVisionSphere`, for the pointer test at `Agent.cpp:67` and `:126`.
- Rotation: `BeginPlay` takes the facing vector of the actor's rotation (`Agent.cpp:39`) as a parameter. The rotation computed at `Agent.cpp:50` is left out, because it only orients the mesh.
- `MoveComponent` (`Agent.cpp:53`, `:59`) is engine code. `Tick` returns the two displacements it would request and takes the hit report of the first as the input `hit`. The agent's location is therefore not advanced by the model.
- The tick flag, mesh and sphere setup (`Agent.cpp:10`, `:24-32`) are engine configuration. `visionRadius` is kept as a field. The overlap set is an input rather than derived from that radius.
- `Super::BeginPlay` and `Super::Tick` are engine code and are left out.
- The commented-out debug message at `Agent.cpp:144` has no effect and is left out.
- Agents.Agent.ComputeAlignment, Agents.Agent.ComputeCohesion, Agents.Agent.ComputeSeparation: these name sections of `CalculateNewMoveVector`, not source functions. Their result is stated only from a zero starting accumulator, which is how `CalculateNewMoveVector` runs them after `ResetComponents`. From any other start, the `Accumulate*` contracts describe the loop.
- Agents.Agent.ComputeCohesion, Agents.Agent.ComputeSeparation: these require a non-empty neighbourhood, because the source runs them only inside the count check at `Agent.cpp:84`.
