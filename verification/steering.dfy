/**
 * The steering rules of an agent (Source/FlockAI/Private/Agent.cpp,
 * CalculateNewMoveVector and ComputeStimuliComponent) as functions over the
 * snapshot of its surroundings, with the properties they promise.
 *
 * Every accumulation the source performs with a `+=` loop is specified by a
 * function that recurses on the prefix of the sequence, so that a loop over
 * s[..i] can keep "accumulator == F(s[..i])" as its invariant.
 */
module Steering {
  import opened Vectors

  /** One agent of the overlap set: identity, location, published heading. */
  datatype AgentView = AgentView(id: nat, location: Vec, heading: Vec)

  /** A stimulus: negative values repel, non-negative values attract. */
  datatype Stimulus = Stimulus(location: Vec, value: real)

  /** An actor overlapping the vision sphere: an agent, a stimulus, or anything else. */
  datatype Actor = AgentActor(view: AgentView) | StimulusActor(stimulus: Stimulus) | OtherActor

  /** The agents among the overlapping actors, in order (the query filtered by agent class). */
  function AgentsOf(actors: seq<Actor>): (r: seq<AgentView>)
    ensures |r| <= |actors|
    decreases |actors|
  {
    if actors == [] then []
    else
      var prefix := AgentsOf(actors[..|actors| - 1]);
      match actors[|actors| - 1]
      case AgentActor(a) => prefix + [a]
      case _ => prefix
  }

  /** The stimuli among the overlapping actors, in order (the actors the stimulus cast accepts). */
  function StimuliOf(actors: seq<Actor>): (r: seq<Stimulus>)
    ensures |r| <= |actors|
    decreases |actors|
  {
    if actors == [] then []
    else
      var prefix := StimuliOf(actors[..|actors| - 1]);
      match actors[|actors| - 1]
      case StimulusActor(s) => prefix + [s]
      case _ => prefix
  }

  /** The agent filter keeps exactly the agents among the actors. */
  lemma {:induction false} AgentsOfMembers(actors: seq<Actor>)
    ensures forall a :: a in AgentsOf(actors) <==> AgentActor(a) in actors
    decreases |actors|
  {
    if actors != [] {
      var init, last := actors[..|actors| - 1], actors[|actors| - 1];
      AgentsOfMembers(init);
      assert actors == init + [last];
    }
  }

  /** The stimulus filter keeps exactly the stimuli among the actors. */
  lemma {:induction false} StimuliOfMembers(actors: seq<Actor>)
    ensures forall s :: s in StimuliOf(actors) <==> StimulusActor(s) in actors
    decreases |actors|
  {
    if actors != [] {
      var init, last := actors[..|actors| - 1], actors[|actors| - 1];
      StimuliOfMembers(init);
      assert actors == init + [last];
    }
  }

  /** The three flocking weights of an agent. */
  datatype Weights = Weights(alignment: real, cohesion: real, separation: real)

  /** The summed cohesion offset is divided by this after averaging. */
  const CohesionDivisor: real := 100.0
  /** The summed separation terms are multiplied by this. */
  const SeparationScale: real := 100.0
  /** Separation is amplified by a further factor SeparationDensity / N. */
  const SeparationDensity: real := 5.0
  /** Each negative stimulus term is multiplied by this (and by the value). */
  const NegativeStimulusScale: real := 100.0

  // ---------------------------------------------------------------------
  // Alignment
  // ---------------------------------------------------------------------

  /**
   * The heading read for an overlapping agent. The entry for the agent
   * itself is read through its own field, which holds `selfHeading`.
   */
  function HeadingOf(a: AgentView, selfId: nat, selfHeading: Vec): Vec {
    if a.id == selfId then selfHeading else a.heading
  }

  /**
   * The accumulator `init` plus the safe-normalised heading of every agent in
   * the overlap set, added in order.
   */
  function HeadingSum(size: Vec -> real, ns: seq<AgentView>, selfId: nat, selfHeading: Vec, init: Vec): Vec
    requires IsEuclidean(size)
    decreases |ns|
  {
    if ns == [] then init
    else Add(HeadingSum(size, ns[..|ns| - 1], selfId, selfHeading, init),
             SafeNormal(size, HeadingOf(ns[|ns| - 1], selfId, selfHeading)))
  }

  /**
   * The alignment component: the direction of the summed headings, so a unit
   * vector or, when the headings cancel out, zero.
   */
  function Alignment(size: Vec -> real, ns: seq<AgentView>, selfId: nat, selfHeading: Vec): (r: Vec)
    requires IsEuclidean(size)
    ensures size(r) == 0.0 || size(r) == 1.0
    ensures r == Zero <==> HeadingSum(size, ns, selfId, selfHeading, Zero) == Zero
    ensures Scale(r, size(HeadingSum(size, ns, selfId, selfHeading, Zero))) == HeadingSum(size, ns, selfId, selfHeading, Zero)
  {
    SafeNormal(size, HeadingSum(size, ns, selfId, selfHeading, Zero))
  }

  /** The overlap set with every published heading multiplied by k. */
  function ScaleHeadings(ns: seq<AgentView>, k: real): (r: seq<AgentView>)
    decreases |ns|
  {
    if ns == [] then []
    else ScaleHeadings(ns[..|ns| - 1], k) + [ns[|ns| - 1].(heading := Scale(ns[|ns| - 1].heading, k))]
  }

  lemma {:induction false} HeadingSumScaleInvariant(size: Vec -> real, ns: seq<AgentView>, selfId: nat, selfHeading: Vec, k: real)
    requires IsEuclidean(size) && 0.0 < k
    ensures HeadingSum(size, ScaleHeadings(ns, k), selfId, Scale(selfHeading, k), Zero)
         == HeadingSum(size, ns, selfId, selfHeading, Zero)
    decreases |ns|
  {
    if ns != [] {
      var init, last := ns[..|ns| - 1], ns[|ns| - 1];
      var scaled := ScaleHeadings(ns, k);
      assert scaled[..|scaled| - 1] == ScaleHeadings(init, k);
      assert scaled[|scaled| - 1] == last.(heading := Scale(last.heading, k));
      HeadingSumScaleInvariant(size, init, selfId, selfHeading, k);
      if last.id == selfId {
        SafeNormalScaleInvariant(size, selfHeading, k);
      } else {
        SafeNormalScaleInvariant(size, last.heading, k);
      }
    }
  }

  /**
   * Multiplying every heading (the agent's own included) by a positive factor
   * leaves the alignment component unchanged: only directions count.
   */
  lemma AlignmentScaleInvariant(size: Vec -> real, ns: seq<AgentView>, selfId: nat, selfHeading: Vec, k: real)
    requires IsEuclidean(size) && 0.0 < k
    ensures Alignment(size, ScaleHeadings(ns, k), selfId, Scale(selfHeading, k))
         == Alignment(size, ns, selfId, selfHeading)
  {
    HeadingSumScaleInvariant(size, ns, selfId, selfHeading, k);
  }

  // ---------------------------------------------------------------------
  // Removing the agent itself (TArray::Remove)
  // ---------------------------------------------------------------------

  /**
   * The overlap set with every entry of the agent itself removed, the
   * order of the others kept.
   */
  function Without(ns: seq<AgentView>, selfId: nat): (r: seq<AgentView>)
    ensures |r| <= |ns|
    decreases |ns|
  {
    if ns == [] then []
    else if ns[0].id == selfId then Without(ns[1..], selfId)
    else [ns[0]] + Without(ns[1..], selfId)
  }

  /**
   * Removal keeps exactly the entries of other agents: nothing changes when
   * the agent is absent, and nothing is left when only the agent is there.
   */
  lemma {:induction false} WithoutMembers(ns: seq<AgentView>, selfId: nat)
    ensures forall a :: a in Without(ns, selfId) <==> a in ns && a.id != selfId
    ensures (forall a :: a in ns ==> a.id != selfId) ==> Without(ns, selfId) == ns
    ensures (forall a :: a in ns ==> a.id == selfId) ==> Without(ns, selfId) == []
    decreases |ns|
  {
    if ns != [] {
      var rest := ns[1..];
      WithoutMembers(rest, selfId);
      assert ns == [ns[0]] + rest;
      assert forall a :: a in rest ==> a in ns;
    }
  }

  // ---------------------------------------------------------------------
  // Cohesion
  // ---------------------------------------------------------------------

  /** The accumulator `init` plus (neighbour location - own location) for every neighbour. */
  function OffsetSum(ns: seq<AgentView>, loc: Vec, init: Vec): Vec
    decreases |ns|
  {
    if ns == [] then init
    else Add(OffsetSum(ns[..|ns| - 1], loc, init), Sub(ns[|ns| - 1].location, loc))
  }

  function LocationSum(ns: seq<AgentView>): Vec
    decreases |ns|
  {
    if ns == [] then Zero
    else Add(LocationSum(ns[..|ns| - 1]), ns[|ns| - 1].location)
  }

  /** The mean location of the neighbours. */
  function Centroid(ns: seq<AgentView>): Vec
    requires |ns| > 0
  {
    Scale(LocationSum(ns), 1.0 / (|ns| as real))
  }

  /** The cohesion component (zero when there are no neighbours). */
  function Cohesion(ns: seq<AgentView>, loc: Vec): Vec {
    if |ns| > 0 then Scale(Scale(OffsetSum(ns, loc, Zero), 1.0 / (|ns| as real)), 1.0 / CohesionDivisor)
    else Zero
  }

  lemma {:induction false} OffsetSumShiftsLocationSum(ns: seq<AgentView>, loc: Vec)
    ensures OffsetSum(ns, loc, Zero) == Sub(LocationSum(ns), Scale(loc, |ns| as real))
    decreases |ns|
  {
    if ns != [] {
      OffsetSumShiftsLocationSum(ns[..|ns| - 1], loc);
    }
  }

  /**
   * Cohesion is the offset from the agent to the centroid of its neighbours,
   * divided by 100; with no neighbours it is exactly zero.
   */
  lemma CohesionTowardCentroid(ns: seq<AgentView>, loc: Vec)
    ensures |ns| == 0 ==> Cohesion(ns, loc) == Zero
    ensures |ns| > 0 ==> Cohesion(ns, loc) == Scale(Sub(Centroid(ns), loc), 1.0 / CohesionDivisor)
  {
    if |ns| > 0 {
      var n := |ns| as real;
      var l := LocationSum(ns);
      OffsetSumShiftsLocationSum(ns, loc);
      assert (l.x - loc.x * n) * (1.0 / n) == l.x * (1.0 / n) - loc.x;
      assert (l.y - loc.y * n) * (1.0 / n) == l.y * (1.0 / n) - loc.y;
      assert (l.z - loc.z * n) * (1.0 / n) == l.z * (1.0 / n) - loc.z;
    }
  }

  // ---------------------------------------------------------------------
  // Separation
  // ---------------------------------------------------------------------

  /** No neighbour is at exactly twice the physical radius (the code divides by that gap). */
  ghost predicate SeparationDefined(size: Vec -> real, ns: seq<AgentView>, loc: Vec, radius: real) {
    forall a :: a in ns ==> size(Sub(loc, a.location)) != radius * 2.0
  }

  /** Unit vector from the neighbour to the agent, divided by |distance - 2·radius|. */
  function SeparationTerm(size: Vec -> real, a: AgentView, loc: Vec, radius: real): Vec
    requires IsEuclidean(size) && size(Sub(loc, a.location)) != radius * 2.0
  {
    var diff := Sub(loc, a.location);
    Scale(SafeNormal(size, diff), 1.0 / Abs(size(diff) - radius * 2.0))
  }

  /** The accumulator `init` plus the separation term of every neighbour. */
  function SeparationSum(size: Vec -> real, ns: seq<AgentView>, loc: Vec, radius: real, init: Vec): Vec
    requires IsEuclidean(size) && SeparationDefined(size, ns, loc, radius)
    decreases |ns|
  {
    if ns == [] then init
    else Add(SeparationSum(size, ns[..|ns| - 1], loc, radius, init), SeparationTerm(size, ns[|ns| - 1], loc, radius))
  }

  /** The separation component (zero when there are no neighbours). */
  function Separation(size: Vec -> real, ns: seq<AgentView>, loc: Vec, radius: real): Vec
    requires IsEuclidean(size) && SeparationDefined(size, ns, loc, radius)
  {
    if |ns| > 0 then
      var scaled := Scale(SeparationSum(size, ns, loc, radius, Zero), SeparationScale);
      Add(scaled, Scale(scaled, SeparationDensity / (|ns| as real)))
    else Zero
  }

  /**
   * Separation is the summed terms times 100, then times (1 + 5/N), and
   * exactly zero without neighbours.
   */
  lemma SeparationFactor(size: Vec -> real, ns: seq<AgentView>, loc: Vec, radius: real)
    requires IsEuclidean(size) && SeparationDefined(size, ns, loc, radius)
    ensures |ns| == 0 ==> Separation(size, ns, loc, radius) == Zero
    ensures |ns| > 0 ==>
              Separation(size, ns, loc, radius)
              == Scale(Scale(SeparationSum(size, ns, loc, radius, Zero), SeparationScale),
                       1.0 + SeparationDensity / (|ns| as real))
  {
    if |ns| > 0 {
      var scaled := Scale(SeparationSum(size, ns, loc, radius, Zero), SeparationScale);
      AddScales(scaled, 1.0, SeparationDensity / (|ns| as real));
      assert Scale(scaled, 1.0) == scaled;
    }
  }

  /** With a single neighbour, separation is 600 times that neighbour's term (100 · (1 + 5/1)). */
  lemma SeparationOfOne(size: Vec -> real, a: AgentView, loc: Vec, radius: real)
    requires IsEuclidean(size) && size(Sub(loc, a.location)) != radius * 2.0
    ensures SeparationDefined(size, [a], loc, radius)
    ensures Separation(size, [a], loc, radius) == Scale(SeparationTerm(size, a, loc, radius), 600.0)
  {
    var t := SeparationTerm(size, a, loc, radius);
    assert [a][..0] == [];
    assert SeparationSum(size, [a], loc, radius, Zero) == Add(Zero, t);
    assert Add(Zero, t) == t;
    SeparationFactor(size, [a], loc, radius);
    ScaleScale(t, SeparationScale, 1.0 + SeparationDensity / (|[a]| as real));
    assert SeparationScale * (1.0 + SeparationDensity / (|[a]| as real)) == 600.0;
  }

  /**
   * With a single neighbour at distance d from the agent (d > 0, d != 2r),
   * the separation component has length 600 / |d - 2r|.
   */
  lemma SeparationSingleNeighbour(size: Vec -> real, a: AgentView, loc: Vec, radius: real)
    requires IsEuclidean(size)
    requires loc != a.location && size(Sub(loc, a.location)) != radius * 2.0
    ensures SeparationDefined(size, [a], loc, radius)
    ensures size(Separation(size, [a], loc, radius))
         == 600.0 / Abs(size(Sub(loc, a.location)) - radius * 2.0)
  {
    var diff := Sub(loc, a.location);
    var g := Abs(size(diff) - radius * 2.0);
    assert 0.0 < g;
    var u := SafeNormal(size, diff);
    assert size(u) == 1.0;
    var t := SeparationTerm(size, a, loc, radius);
    assert t == Scale(u, 1.0 / g);
    assert size(t) == 1.0 / g;
    SeparationOfOne(size, a, loc, radius);
    assert size(Scale(t, 600.0)) == 600.0 * (1.0 / g);
    assert 600.0 * (1.0 / g) == 600.0 / g;
  }

  /**
   * Outside contact distance, a single neighbour pushes harder the closer it
   * is: the separation length grows strictly as the distance falls toward
   * twice the physical radius.
   */
  lemma SeparationGrowsTowardContact(size: Vec -> real, near: AgentView, far: AgentView, loc: Vec, radius: real)
    requires IsEuclidean(size) && 0.0 <= radius
    requires radius * 2.0 < size(Sub(loc, near.location)) < size(Sub(loc, far.location))
    ensures SeparationDefined(size, [near], loc, radius) && SeparationDefined(size, [far], loc, radius)
    ensures size(Separation(size, [far], loc, radius)) < size(Separation(size, [near], loc, radius))
  {
    assert Sub(loc, near.location) != Zero;
    assert Sub(loc, far.location) != Zero;
    SeparationSingleNeighbour(size, near, loc, radius);
    SeparationSingleNeighbour(size, far, loc, radius);
    var gNear := size(Sub(loc, near.location)) - radius * 2.0;
    var gFar := size(Sub(loc, far.location)) - radius * 2.0;
    assert Abs(gNear) == gNear && Abs(gFar) == gFar;
    DivideByLarger(600.0, gNear, gFar);
  }

  // ---------------------------------------------------------------------
  // Stimuli
  // ---------------------------------------------------------------------

  /** No repelling stimulus is at exactly the physical radius (the code divides by that gap). */
  ghost predicate NegativeDefined(size: Vec -> real, ss: seq<Stimulus>, loc: Vec, radius: real) {
    forall s :: s in ss && s.value < 0.0 ==> size(Sub(s.location, loc)) != radius
  }

  /** No attracting stimulus is at the agent's own location (the code divides by the distance). */
  ghost predicate PositiveDefined(size: Vec -> real, ss: seq<Stimulus>, loc: Vec) {
    forall s :: s in ss && 0.0 <= s.value ==> size(Sub(s.location, loc)) != 0.0
  }

  /**
   * The term of one repelling stimulus: the unit vector toward it, divided by
   * |distance - radius|, times 100 and times its (negative) value.
   */
  function NegativeTerm(size: Vec -> real, s: Stimulus, loc: Vec, radius: real): Vec
    requires IsEuclidean(size) && size(Sub(s.location, loc)) != radius
  {
    var diff := Sub(s.location, loc);
    Scale(Scale(Scale(SafeNormal(size, diff), 1.0 / Abs(size(diff) - radius)), NegativeStimulusScale), s.value)
  }

  /**
   * A repelling term is 100·|value| / |distance - radius| long
   * (value < 0, so |value| = -value).
   */
  lemma NegativeTermLength(size: Vec -> real, s: Stimulus, loc: Vec, radius: real)
    requires IsEuclidean(size) && s.value < 0.0 && s.location != loc
    requires size(Sub(s.location, loc)) != radius
    ensures size(NegativeTerm(size, s, loc, radius))
         == (1.0 / Abs(size(Sub(s.location, loc)) - radius)) * NegativeStimulusScale * -s.value
  {
    var diff := Sub(s.location, loc);
    assert diff != Zero;
    ScaledUnitLength(size, SafeNormal(size, diff), Abs(size(diff) - radius), NegativeStimulusScale, s.value);
  }

  /**
   * A repelling term points away from its stimulus: its direction is that of
   * the vector from the stimulus to the agent.
   */
  lemma NegativeTermRepels(size: Vec -> real, s: Stimulus, loc: Vec, radius: real)
    requires IsEuclidean(size) && s.value < 0.0 && s.location != loc
    requires size(Sub(s.location, loc)) != radius
    ensures SafeNormal(size, NegativeTerm(size, s, loc, radius)) == SafeNormal(size, Sub(loc, s.location))
  {
    var diff := Sub(s.location, loc);
    assert diff != Zero;
    ScaledNormalReversed(size, diff, Abs(size(diff) - radius), NegativeStimulusScale, s.value);
    assert Sub(loc, s.location) == Scale(diff, -1.0);
  }

  /** The accumulator `init` plus the terms of the repelling stimuli. */
  function NegativeSum(size: Vec -> real, ss: seq<Stimulus>, loc: Vec, radius: real, init: Vec): Vec
    requires IsEuclidean(size) && NegativeDefined(size, ss, loc, radius)
    decreases |ss|
  {
    if ss == [] then init
    else
      var acc := NegativeSum(size, ss[..|ss| - 1], loc, radius, init);
      if ss[|ss| - 1].value < 0.0 then Add(acc, NegativeTerm(size, ss[|ss| - 1], loc, radius)) else acc
  }

  /** Running maximum of the lengths of those terms, starting from `init`. */
  function NegativeMaxFactor(size: Vec -> real, ss: seq<Stimulus>, loc: Vec, radius: real, init: real): (r: real)
    requires IsEuclidean(size) && NegativeDefined(size, ss, loc, radius)
    ensures init <= r
    decreases |ss|
  {
    if ss == [] then init
    else
      var acc := NegativeMaxFactor(size, ss[..|ss| - 1], loc, radius, init);
      if ss[|ss| - 1].value < 0.0 then Max(size(NegativeTerm(size, ss[|ss| - 1], loc, radius)), acc) else acc
  }

  /** No repelling term is longer than the running maximum. */
  lemma {:induction false} NegativeMaxFactorBounds(size: Vec -> real, ss: seq<Stimulus>, loc: Vec, radius: real, init: real)
    requires IsEuclidean(size) && NegativeDefined(size, ss, loc, radius)
    ensures forall i :: 0 <= i < |ss| && ss[i].value < 0.0 ==>
              size(NegativeTerm(size, ss[i], loc, radius)) <= NegativeMaxFactor(size, ss, loc, radius, init)
    decreases |ss|
  {
    if ss != [] {
      var prefix := ss[..|ss| - 1];
      var last := |ss| - 1;
      NegativeMaxFactorBounds(size, prefix, loc, radius, init);
      forall i | 0 <= i < |ss| && ss[i].value < 0.0
        ensures size(NegativeTerm(size, ss[i], loc, radius)) <= NegativeMaxFactor(size, ss, loc, radius, init)
      {
        if i < last {
          assert ss[i] == prefix[i];
        }
      }
    }
  }

  /** The running maximum is its start or the length of one of the repelling terms. */
  lemma {:induction false} NegativeMaxFactorAttained(size: Vec -> real, ss: seq<Stimulus>, loc: Vec, radius: real, init: real)
    requires IsEuclidean(size) && NegativeDefined(size, ss, loc, radius)
    ensures NegativeMaxFactor(size, ss, loc, radius, init) == init ||
            exists i :: 0 <= i < |ss| && ss[i].value < 0.0 &&
              size(NegativeTerm(size, ss[i], loc, radius)) == NegativeMaxFactor(size, ss, loc, radius, init)
    decreases |ss|
  {
    if ss != [] {
      var prefix := ss[..|ss| - 1];
      var last := |ss| - 1;
      NegativeMaxFactorAttained(size, prefix, loc, radius, init);
      var m := NegativeMaxFactor(size, ss, loc, radius, init);
      var m0 := NegativeMaxFactor(size, prefix, loc, radius, init);
      if m != init && !(ss[last].value < 0.0 && m == size(NegativeTerm(size, ss[last], loc, radius))) {
        assert m == m0;
        var i :| 0 <= i < |prefix| && prefix[i].value < 0.0 &&
                 size(NegativeTerm(size, prefix[i], loc, radius)) == m0;
        assert ss[i] == prefix[i];
      }
    }
  }

  /**
   * NegativeMaxFactor is the largest of `init` and the lengths of the
   * repelling terms: at least each of them, and equal to one of them.
   */
  lemma NegativeMaxFactorIsMax(size: Vec -> real, ss: seq<Stimulus>, loc: Vec, radius: real, init: real)
    requires IsEuclidean(size) && NegativeDefined(size, ss, loc, radius)
    ensures init <= NegativeMaxFactor(size, ss, loc, radius, init)
    ensures forall i :: 0 <= i < |ss| && ss[i].value < 0.0 ==>
              size(NegativeTerm(size, ss[i], loc, radius)) <= NegativeMaxFactor(size, ss, loc, radius, init)
    ensures NegativeMaxFactor(size, ss, loc, radius, init) == init ||
            exists i :: 0 <= i < |ss| && ss[i].value < 0.0 &&
              size(NegativeTerm(size, ss[i], loc, radius)) == NegativeMaxFactor(size, ss, loc, radius, init)
  {
    NegativeMaxFactorBounds(size, ss, loc, radius, init);
    NegativeMaxFactorAttained(size, ss, loc, radius, init);
  }

  /**
   * The negative stimuli component: the direction of the summed terms,
   * scaled to the largest single term length.
   */
  function NegativeComponent(size: Vec -> real, ss: seq<Stimulus>, loc: Vec, radius: real): Vec
    requires IsEuclidean(size) && NegativeDefined(size, ss, loc, radius)
  {
    Scale(SafeNormal(size, NegativeSum(size, ss, loc, radius, Zero)), NegativeMaxFactor(size, ss, loc, radius, 0.0))
  }

  /**
   * The negative component is as long as the strongest single repeller, not
   * as the sum of them (and zero if there are none or their terms cancel out).
   */
  lemma NegativeComponentMagnitude(size: Vec -> real, ss: seq<Stimulus>, loc: Vec, radius: real)
    requires IsEuclidean(size) && NegativeDefined(size, ss, loc, radius)
    ensures size(NegativeComponent(size, ss, loc, radius))
         == if NegativeSum(size, ss, loc, radius, Zero) == Zero then 0.0 else NegativeMaxFactor(size, ss, loc, radius, 0.0)
    ensures forall i :: 0 <= i < |ss| && ss[i].value < 0.0 && NegativeSum(size, ss, loc, radius, Zero) != Zero ==>
              size(NegativeTerm(size, ss[i], loc, radius)) <= size(NegativeComponent(size, ss, loc, radius))
  {
    NegativeMaxFactorIsMax(size, ss, loc, radius, 0.0);
  }

  /** Value over distance: closer and stronger attractors score higher. */
  function Factor(size: Vec -> real, s: Stimulus, loc: Vec): real
    requires size(Sub(s.location, loc)) != 0.0
  {
    s.value / size(Sub(s.location, loc))
  }

  /** The pull of one attracting stimulus: unit vector toward it times its value. */
  function Pull(size: Vec -> real, s: Stimulus, loc: Vec): Vec
    requires IsEuclidean(size)
  {
    Scale(SafeNormal(size, Sub(s.location, loc)), s.value)
  }

  /** The state of the running arg-max: chosen component and its factor. */
  datatype Attraction = Attraction(component: Vec, factor: real)

  /** The state the arg-max starts from after the components are reset. */
  const NoAttraction: Attraction := Attraction(Zero, 0.0)

  /**
   * The running arg-max over the attracting stimuli, starting from `init`
   * and replacing the choice only on a strictly larger factor.
   */
  function PositiveChoice(size: Vec -> real, ss: seq<Stimulus>, loc: Vec, init: Attraction): (r: Attraction)
    requires IsEuclidean(size) && PositiveDefined(size, ss, loc)
    ensures init.factor <= r.factor
    decreases |ss|
  {
    if ss == [] then init
    else
      var acc := PositiveChoice(size, ss[..|ss| - 1], loc, init);
      var s := ss[|ss| - 1];
      if s.value < 0.0 then acc
      else if Factor(size, s, loc) > acc.factor then Attraction(Pull(size, s, loc), Factor(size, s, loc))
      else acc
  }

  /**
   * Stimulus i is the one chosen: it attracts (value >= 0), attains the chosen
   * factor, gives the chosen component, and every attracting stimulus before
   * it scores strictly less.
   */
  ghost predicate ChosenAt(size: Vec -> real, ss: seq<Stimulus>, loc: Vec, i: int, c: Attraction)
    requires IsEuclidean(size) && PositiveDefined(size, ss, loc)
  {
    && 0 <= i < |ss|
    && 0.0 <= ss[i].value
    && Factor(size, ss[i], loc) == c.factor
    && c.component == Pull(size, ss[i], loc)
    && forall j :: 0 <= j < i && 0.0 <= ss[j].value ==> Factor(size, ss[j], loc) < c.factor
  }

  /**
   * The positive choice has the largest of init's factor and the attracting
   * stimuli's factors; if no stimulus beats init, init is kept unchanged,
   * otherwise the choice comes from the first stimulus attaining the maximum.
   */
  lemma {:induction false} PositiveChoiceIsFirstArgMax(size: Vec -> real, ss: seq<Stimulus>, loc: Vec, init: Attraction)
    requires IsEuclidean(size) && PositiveDefined(size, ss, loc)
    ensures init.factor <= PositiveChoice(size, ss, loc, init).factor
    ensures forall i :: 0 <= i < |ss| && 0.0 <= ss[i].value ==>
              Factor(size, ss[i], loc) <= PositiveChoice(size, ss, loc, init).factor
    ensures PositiveChoice(size, ss, loc, init).factor == init.factor ==> PositiveChoice(size, ss, loc, init) == init
    ensures init.factor < PositiveChoice(size, ss, loc, init).factor ==>
              exists i :: ChosenAt(size, ss, loc, i, PositiveChoice(size, ss, loc, init))
    decreases |ss|
  {
    if ss != [] {
      var prefix := ss[..|ss| - 1];
      var last := |ss| - 1;
      PositiveChoiceIsFirstArgMax(size, prefix, loc, init);
      var c0 := PositiveChoice(size, prefix, loc, init);
      var c := PositiveChoice(size, ss, loc, init);
      forall i | 0 <= i < |ss| && 0.0 <= ss[i].value
        ensures Factor(size, ss[i], loc) <= c.factor
      {
        if i < last {
          assert ss[i] == prefix[i];
        }
      }
      if init.factor < c.factor {
        if 0.0 <= ss[last].value && Factor(size, ss[last], loc) > c0.factor {
          forall j | 0 <= j < last && 0.0 <= ss[j].value
            ensures Factor(size, ss[j], loc) < c.factor
          {
            assert ss[j] == prefix[j];
          }
          assert ChosenAt(size, ss, loc, last, c);
        } else {
          var i :| ChosenAt(size, prefix, loc, i, c0);
          forall j | 0 <= j < i && 0.0 <= ss[j].value
            ensures Factor(size, ss[j], loc) < c.factor
          {
            assert ss[j] == prefix[j];
          }
          assert ss[i] == prefix[i];
          assert ChosenAt(size, ss, loc, i, c);
        }
      }
    }
  }

  /**
   * From the reset state, an attractor is chosen only if its value is
   * strictly positive (a zero-valued stimulus never wins), and otherwise the
   * positive component stays zero.
   */
  lemma PositiveChoiceFromReset(size: Vec -> real, ss: seq<Stimulus>, loc: Vec)
    requires IsEuclidean(size) && PositiveDefined(size, ss, loc)
    ensures 0.0 <= PositiveChoice(size, ss, loc, NoAttraction).factor
    ensures PositiveChoice(size, ss, loc, NoAttraction).factor == 0.0 ==>
              PositiveChoice(size, ss, loc, NoAttraction).component == Zero
    ensures forall i :: (ChosenAt(size, ss, loc, i, PositiveChoice(size, ss, loc, NoAttraction)) &&
                         0.0 < PositiveChoice(size, ss, loc, NoAttraction).factor) ==> 0.0 < ss[i].value
  {
    PositiveChoiceIsFirstArgMax(size, ss, loc, NoAttraction);
  }

  /** How each stimulus fold advances when one more stimulus is seen. */
  lemma AppendStimulus(size: Vec -> real, ss: seq<Stimulus>, s: Stimulus, loc: Vec, radius: real,
                       sumInit: Vec, negInit: real, posInit: Attraction)
    requires IsEuclidean(size)
    requires NegativeDefined(size, ss + [s], loc, radius) && PositiveDefined(size, ss + [s], loc)
    ensures NegativeDefined(size, ss, loc, radius) && PositiveDefined(size, ss, loc)
    ensures s.value < 0.0 ==>
              && NegativeSum(size, ss + [s], loc, radius, sumInit)
                 == Add(NegativeSum(size, ss, loc, radius, sumInit), NegativeTerm(size, s, loc, radius))
              && NegativeMaxFactor(size, ss + [s], loc, radius, negInit)
                 == Max(size(NegativeTerm(size, s, loc, radius)), NegativeMaxFactor(size, ss, loc, radius, negInit))
              && PositiveChoice(size, ss + [s], loc, posInit) == PositiveChoice(size, ss, loc, posInit)
    ensures 0.0 <= s.value ==>
              && NegativeSum(size, ss + [s], loc, radius, sumInit) == NegativeSum(size, ss, loc, radius, sumInit)
              && NegativeMaxFactor(size, ss + [s], loc, radius, negInit) == NegativeMaxFactor(size, ss, loc, radius, negInit)
              && PositiveChoice(size, ss + [s], loc, posInit)
                 == (var acc := PositiveChoice(size, ss, loc, posInit);
                     if Factor(size, s, loc) > acc.factor then Attraction(Pull(size, s, loc), Factor(size, s, loc)) else acc)
  {
    assert (ss + [s])[..|ss|] == ss;
    assert (ss + [s])[|ss|] == s;
  }

  /** What holds of the stimuli among some actors holds of those among a prefix of them. */
  lemma StimuliPrefixDefined(size: Vec -> real, actors: seq<Actor>, i: nat, loc: Vec, radius: real)
    requires i <= |actors|
    requires NegativeDefined(size, StimuliOf(actors), loc, radius) && PositiveDefined(size, StimuliOf(actors), loc)
    ensures NegativeDefined(size, StimuliOf(actors[..i]), loc, radius) && PositiveDefined(size, StimuliOf(actors[..i]), loc)
  {
    StimuliOfMembers(actors);
    StimuliOfMembers(actors[..i]);
    forall s | s in StimuliOf(actors[..i])
      ensures s in StimuliOf(actors)
    {
      assert StimulusActor(s) in actors[..i];
    }
  }

  /** The filters advance by the one actor appended. */
  lemma AppendActor(actors: seq<Actor>, x: Actor)
    ensures AgentsOf(actors + [x]) == (if x.AgentActor? then AgentsOf(actors) + [x.view] else AgentsOf(actors))
    ensures StimuliOf(actors + [x]) == (if x.StimulusActor? then StimuliOf(actors) + [x.stimulus] else StimuliOf(actors))
  {
    assert (actors + [x])[..|actors|] == actors;
  }

  /** Filtering one more actor appends the filtered singleton. */
  lemma FiltersSnoc(actors: seq<Actor>, x: Actor)
    ensures AgentsOf(actors + [x]) == AgentsOf(actors) + AgentsOf([x])
    ensures StimuliOf(actors + [x]) == StimuliOf(actors) + StimuliOf([x])
  {
    assert (actors + [x])[..|actors|] == actors;
    assert [x][..0] == [];
  }

  /**
   * The agent filter keeps the order of the overlap: filtering a
   * concatenation is filtering each part and concatenating the results, so an
   * agent that comes before another among the actors comes before it in the
   * result.
   */
  lemma {:induction false} AgentsOfKeepsOrder(front: seq<Actor>, back: seq<Actor>)
    ensures AgentsOf(front + back) == AgentsOf(front) + AgentsOf(back)
    decreases |back|
  {
    if back == [] {
      assert front + back == front;
    } else {
      var init, last := back[..|back| - 1], back[|back| - 1];
      calc {
        AgentsOf(front + back);
        { assert front + back == (front + init) + [last]; }
        AgentsOf((front + init) + [last]);
        { FiltersSnoc(front + init, last); }
        AgentsOf(front + init) + AgentsOf([last]);
        { AgentsOfKeepsOrder(front, init); }
        AgentsOf(front) + AgentsOf(init) + AgentsOf([last]);
        { FiltersSnoc(init, last); assert back == init + [last]; }
        AgentsOf(front) + AgentsOf(back);
      }
    }
  }

  /** The stimulus filter keeps the order of the overlap in the same way. */
  lemma {:induction false} StimuliOfKeepsOrder(front: seq<Actor>, back: seq<Actor>)
    ensures StimuliOf(front + back) == StimuliOf(front) + StimuliOf(back)
    decreases |back|
  {
    if back == [] {
      assert front + back == front;
    } else {
      var init, last := back[..|back| - 1], back[|back| - 1];
      calc {
        StimuliOf(front + back);
        { assert front + back == (front + init) + [last]; }
        StimuliOf((front + init) + [last]);
        { FiltersSnoc(front + init, last); }
        StimuliOf(front + init) + StimuliOf([last]);
        { StimuliOfKeepsOrder(front, init); }
        StimuliOf(front) + StimuliOf(init) + StimuliOf([last]);
        { FiltersSnoc(init, last); assert back == init + [last]; }
        StimuliOf(front) + StimuliOf(back);
      }
    }
  }

  /** The alignment sum advances by the normalised heading of the agent appended. */
  lemma AppendHeading(size: Vec -> real, ns: seq<AgentView>, a: AgentView, selfId: nat, selfHeading: Vec, init: Vec)
    requires IsEuclidean(size)
    ensures HeadingSum(size, ns + [a], selfId, selfHeading, init)
         == Add(HeadingSum(size, ns, selfId, selfHeading, init), SafeNormal(size, HeadingOf(a, selfId, selfHeading)))
  {
    assert (ns + [a])[..|ns|] == ns;
  }

  /** The cohesion sum advances by the offset of the neighbour appended. */
  lemma AppendOffset(ns: seq<AgentView>, a: AgentView, loc: Vec, init: Vec)
    ensures OffsetSum(ns + [a], loc, init) == Add(OffsetSum(ns, loc, init), Sub(a.location, loc))
  {
    assert (ns + [a])[..|ns|] == ns;
  }

  /** The separation sum advances by the term of the neighbour appended. */
  lemma AppendSeparation(size: Vec -> real, ns: seq<AgentView>, a: AgentView, loc: Vec, radius: real, init: Vec)
    requires IsEuclidean(size) && SeparationDefined(size, ns + [a], loc, radius)
    ensures SeparationDefined(size, ns, loc, radius)
    ensures SeparationSum(size, ns + [a], loc, radius, init)
         == Add(SeparationSum(size, ns, loc, radius, init), SeparationTerm(size, a, loc, radius))
  {
    assert a in ns + [a];
    assert forall b :: b in ns ==> b in ns + [a];
    assert (ns + [a])[..|ns|] == ns;
  }

  /** What the separation sum needs of some neighbours holds of a prefix of them. */
  lemma SeparationPrefixDefined(size: Vec -> real, ns: seq<AgentView>, i: nat, loc: Vec, radius: real)
    requires i <= |ns| && SeparationDefined(size, ns, loc, radius)
    ensures SeparationDefined(size, ns[..i], loc, radius)
  {
    forall a | a in ns[..i]
      ensures a in ns
    {
    }
  }

  // ---------------------------------------------------------------------
  // The combined heading
  // ---------------------------------------------------------------------

  /** The weighted flocking terms plus the two (unweighted) stimulus terms. */
  function Combine(w: Weights, alignment: Vec, cohesion: Vec, separation: Vec, negative: Vec, positive: Vec): Vec {
    Add(Add(Add(Add(Scale(alignment, w.alignment), Scale(cohesion, w.cohesion)),
                Scale(separation, w.separation)), negative), positive)
  }

  /** Everything the computation of one new heading divides by is non-zero. */
  ghost predicate HeadingDefined(size: Vec -> real, selfId: nat, loc: Vec, radius: real,
                                 overlap: seq<AgentView>, ss: seq<Stimulus>)
  {
    && SeparationDefined(size, Without(overlap, selfId), loc, radius)
    && NegativeDefined(size, ss, loc, radius)
    && PositiveDefined(size, ss, loc)
  }

  /**
   * The new heading of an agent at `loc` whose own current heading is
   * `selfHeading`, given the agents and stimuli overlapping its vision sphere.
   */
  function DesiredHeading(size: Vec -> real, w: Weights, selfId: nat, loc: Vec, selfHeading: Vec, radius: real,
                          overlap: seq<AgentView>, ss: seq<Stimulus>): Vec
    requires IsEuclidean(size) && HeadingDefined(size, selfId, loc, radius, overlap, ss)
  {
    var ns := Without(overlap, selfId);
    Combine(w, Alignment(size, overlap, selfId, selfHeading), Cohesion(ns, loc), Separation(size, ns, loc, radius),
            NegativeComponent(size, ss, loc, radius), PositiveChoice(size, ss, loc, NoAttraction).component)
  }

  lemma {:induction false} SelfOnlyHeadingSum(size: Vec -> real, ns: seq<AgentView>, selfId: nat, selfHeading: Vec)
    requires IsEuclidean(size)
    requires forall i :: 0 <= i < |ns| ==> ns[i].id == selfId
    ensures HeadingSum(size, ns, selfId, selfHeading, Zero) == Scale(SafeNormal(size, selfHeading), |ns| as real)
    decreases |ns|
  {
    if ns != [] {
      var u := SafeNormal(size, selfHeading);
      var n := (|ns| - 1) as real;
      SelfOnlyHeadingSum(size, ns[..|ns| - 1], selfId, selfHeading);
      assert u.x * n + u.x == u.x * (n + 1.0);
      assert u.y * n + u.y == u.y * (n + 1.0);
      assert u.z * n + u.z == u.z * (n + 1.0);
    }
  }

  /**
   * An agent that sees only itself and no stimulus keeps its own direction:
   * the new heading is its normalised current heading times the alignment
   * weight.
   */
  lemma LoneAgentKeepsDirection(size: Vec -> real, w: Weights, selfId: nat, loc: Vec, selfHeading: Vec,
                                radius: real, overlap: seq<AgentView>)
    requires IsEuclidean(size)
    requires |overlap| > 0 && forall i :: 0 <= i < |overlap| ==> overlap[i].id == selfId
    ensures HeadingDefined(size, selfId, loc, radius, overlap, [])
    ensures DesiredHeading(size, w, selfId, loc, selfHeading, radius, overlap, [])
         == Scale(SafeNormal(size, selfHeading), w.alignment)
  {
    var u := SafeNormal(size, selfHeading);
    WithoutMembers(overlap, selfId);
    assert Without(overlap, selfId) == [];
    SelfOnlyHeadingSum(size, overlap, selfId, selfHeading);
    var n := |overlap| as real;
    SafeNormalScaleInvariant(size, u, n);
    if selfHeading != Zero {
      assert SafeNormal(size, u) == u by {
        assert Scale(u, 1.0 / 1.0) == u;
      }
    }
    assert Alignment(size, overlap, selfId, selfHeading) == u;
  }
}
