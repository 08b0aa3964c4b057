/**
 * Tour assembly for the Dubins travelling salesman problem with neighbourhoods
 * (data_collection/DTSPNSolver.py): sampling the goal regions, closing an ordered
 * list of configurations into a Dubins tour, and the decoupled and Noon-Bean
 * planners, which pick one sample per goal.
 *
 * The geometry is abstract. A sample is identified by its goal and its position
 * and heading steps; the Dubins primitive and the TSP solver are parameters.
 */
module DTSPNSolver {
  import opened Permutations

  /**
   * A candidate configuration on the boundary of goal region `goal`. Its position
   * lies at angle positionStep * 2pi / position_resolution around the goal centre,
   * at the sensing radius; its heading is headingStep * 2pi / heading_resolution.
   * Step 0 is angle 0 and heading 0.
   */
  datatype Sample = Sample(goal: nat, positionStep: nat, headingStep: nat)

  /**
   * The Dubins shortest-path primitive, supplied from outside: `shortestPath`
   * computes a path of type `P` between two configurations for a turning radius,
   * `pathLength` is its length and `sampleMany` samples it at a given step.
   */
  datatype DubinsPrimitive<!C, !P> = DubinsPrimitive(
    shortestPath: (C, C, real) -> P,
    pathLength: P -> real,
    sampleMany: (P, real) -> seq<C>)

  /** Both planners sample every goal region at 8 positions and 8 headings. */
  const PlannerResolution: nat := 8

  /** `row` holds the samples of goal `goal`, position steps outer and heading steps inner. */
  ghost predicate RowOf(row: seq<Sample>, goal: nat, headingResolution: nat) {
    forall k :: 0 <= k < |row| ==>
      headingResolution > 0 && row[k] == Sample(goal, k / headingResolution, k % headingResolution)
  }

  /** A multiple of a positive number by at least one is at least that number. */
  lemma MultipleAtLeast(a: int, h: int)
    requires a >= 1 && h > 0
    ensures a * h >= h
  {
    assert a * h == (a - 1) * h + h;
  }

  /** Euclidean division undoes the flattening sp * h + sh of a (position, heading) pair. */
  lemma FlatIndex(sp: nat, sh: nat, h: nat)
    requires sh < h
    ensures (sp * h + sh) / h == sp && (sp * h + sh) % h == sh
  {
    var n := sp * h + sh;
    var q, r := n / h, n % h;
    assert q * h + r == sp * h + sh;
    assert (q - sp) * h == sh - r;
    if q > sp {
      MultipleAtLeast(q - sp, h);
    } else if q < sp {
      MultipleAtLeast(sp - q, h);
    }
  }

  /** A flattened (position, heading) index stays inside the row. */
  lemma FlatIndexBound(sp: nat, sh: nat, positionResolution: nat, h: nat)
    requires sp < positionResolution && sh < h
    ensures sp * h + sh < positionResolution * h
  {
    assert (sp + 1) * h <= positionResolution * h;
  }

  /** In a full row, position step sp and heading step sh sit at index sp * h + sh. */
  lemma SampleAt(row: seq<Sample>, goal: nat, positionResolution: nat, h: nat, sp: nat, sh: nat)
    requires |row| == positionResolution * h && RowOf(row, goal, h)
    requires sp < positionResolution && sh < h
    ensures sp * h + sh < |row| && row[sp * h + sh] == Sample(goal, sp, sh)
  {
    FlatIndexBound(sp, sh, positionResolution, h);
    FlatIndex(sp, sh, h);
  }

  /**
   * The inner loops of create_samples for goal `goal`: position steps outer,
   * heading steps inner, one sample each.
   */
  method CreateRow(goal: nat, positionResolution: nat, headingResolution: nat) returns (row: seq<Sample>)
    ensures |row| == positionResolution * headingResolution
    ensures RowOf(row, goal, headingResolution)
  {
    row := [];
    for sp := 0 to positionResolution
      invariant |row| == sp * headingResolution
      invariant RowOf(row, goal, headingResolution)
    {
      for sh := 0 to headingResolution
        invariant |row| == sp * headingResolution + sh
        invariant RowOf(row, goal, headingResolution)
      {
        FlatIndex(sp, sh, headingResolution);
        row := row + [Sample(goal, sp, sh)];
      }
      assert sp * headingResolution + headingResolution == (sp + 1) * headingResolution;
    }
  }

  /**
   * create_samples: one row per goal, in goal order; each row holds
   * position_resolution * heading_resolution samples and the sample at index
   * sp * heading_resolution + sh has position step sp and heading step sh.
   */
  method CreateSamples<G>(goals: seq<G>, positionResolution: nat, headingResolution: nat)
    returns (samples: seq<seq<Sample>>)
    ensures |samples| == |goals|
    ensures forall idx :: 0 <= idx < |samples| ==>
      |samples[idx]| == positionResolution * headingResolution
    ensures forall idx, k :: 0 <= idx < |samples| && 0 <= k < |samples[idx]| ==>
      samples[idx][k] == Sample(idx, k / headingResolution, k % headingResolution)
  {
    samples := [];
    for idx := 0 to |goals|
      invariant |samples| == idx
      invariant forall i :: 0 <= i < idx ==>
        |samples[i]| == positionResolution * headingResolution && RowOf(samples[i], i, headingResolution)
    {
      var row := CreateRow(idx, positionResolution, headingResolution);
      samples := samples + [row];
    }
  }

  /**
   * The segment that leaves configuration `a` of the closed tour: it goes to
   * configuration a + 1, and the last segment returns to configuration 0.
   */
  function SegmentEnds<C>(configurations: seq<C>, a: nat): (ends: (C, C))
    requires a < |configurations|
    ensures ends.0 == configurations[a]
    ensures a + 1 < |configurations| ==> ends.1 == configurations[a + 1]
    ensures a + 1 == |configurations| ==> ends.1 == configurations[0]
  {
    (configurations[a], configurations[(a + 1) % |configurations|])
  }

  /** The Dubins path of the segment that leaves configuration `a`. */
  function Segment<C, P>(dubins: DubinsPrimitive<C, P>, configurations: seq<C>, turningRadius: real, a: nat): P
    requires a < |configurations|
  {
    var ends := SegmentEnds(configurations, a);
    dubins.shortestPath(ends.0, ends.1, turningRadius)
  }

  /** The sampling step along a Dubins path: 0.01 of the turning radius. */
  function StepSize(turningRadius: real): real {
    0.01 * turningRadius
  }

  /** The sum of the lengths of the first `k` segments of the closed tour. */
  function TourLength<C, P>(dubins: DubinsPrimitive<C, P>, configurations: seq<C>, turningRadius: real, k: nat): real
    requires k <= |configurations|
  {
    if k == 0 then 0.0
    else TourLength(dubins, configurations, turningRadius, k - 1)
         + dubins.pathLength(Segment(dubins, configurations, turningRadius, k - 1))
  }

  /** The samplings of the first `k` segments of the closed tour, concatenated in segment order. */
  function TourSamples<C, P>(dubins: DubinsPrimitive<C, P>, configurations: seq<C>, turningRadius: real, k: nat): seq<C>
    requires k <= |configurations|
  {
    if k == 0 then []
    else TourSamples(dubins, configurations, turningRadius, k - 1)
         + dubins.sampleMany(Segment(dubins, configurations, turningRadius, k - 1), StepSize(turningRadius))
  }

  /**
   * configurations_to_path: walks the N segments of the closed tour, concatenating
   * their samplings and summing their lengths. No configurations give an empty
   * path of length 0.
   */
  method ConfigurationsToPath<C, P>(configurations: seq<C>, turningRadius: real, dubins: DubinsPrimitive<C, P>)
    returns (path: seq<C>, pathLen: real)
    ensures path == TourSamples(dubins, configurations, turningRadius, |configurations|)
    ensures pathLen == TourLength(dubins, configurations, turningRadius, |configurations|)
    ensures |configurations| == 0 ==> path == [] && pathLen == 0.0
  {
    var n := |configurations|;
    path := [];
    pathLen := 0.0;
    for a := 0 to n
      invariant path == TourSamples(dubins, configurations, turningRadius, a)
      invariant pathLen == TourLength(dubins, configurations, turningRadius, a)
    {
      var b := (a + 1) % n;
      var start := configurations[a];
      var end := configurations[b];
      var stepSize := 0.01 * turningRadius;
      var dubinsPath := dubins.shortestPath(start, end, turningRadius);
      var segmentLen := dubins.pathLength(dubinsPath);
      var stepConfigurations := dubins.sampleMany(dubinsPath, stepSize);
      path := path + stepConfigurations;
      pathLen := pathLen + segmentLen;
    }
  }

  /** When every Dubins path has a non-negative length, so has every prefix of the tour. */
  lemma {:induction false} TourLengthNonNegative<C, P>(
    dubins: DubinsPrimitive<C, P>, configurations: seq<C>, turningRadius: real, k: nat)
    requires k <= |configurations|
    requires forall p :: dubins.pathLength(p) >= 0.0
    ensures TourLength(dubins, configurations, turningRadius, k) >= 0.0
  {
    if k > 0 {
      TourLengthNonNegative(dubins, configurations, turningRadius, k - 1);
    }
  }

  /** The squared table of goal distances that the decoupled planner hands to the TSP solver. */
  function EtspMatrix<G>(goals: seq<G>, dist: (G, G) -> real): seq<seq<real>> {
    seq(|goals|, a requires 0 <= a < |goals| =>
      seq(|goals|, b requires 0 <= b < |goals| => dist(goals[a], goals[b])))
  }

  /** The rows of a two-dimensional array, as the solver receives them. */
  function Rows(m: array2<real>): seq<seq<real>>
    reads m
  {
    seq(m.Length0, a requires 0 <= a < m.Length0 reads m =>
      seq(m.Length1, b requires 0 <= b < m.Length1 reads m => m[a, b]))
  }

  /**
   * The in-place fill of etsp_distances in plan_tour_decoupled: an N x N array
   * whose entry [a, b] depends only on goals a and b. It has a zero diagonal and
   * is symmetric whenever the distance function is.
   */
  method EtspDistances<G>(goals: seq<G>, dist: (G, G) -> real) returns (m: array2<real>)
    ensures fresh(m) && m.Length0 == |goals| && m.Length1 == |goals|
    ensures forall a, b :: 0 <= a < |goals| && 0 <= b < |goals| ==> m[a, b] == dist(goals[a], goals[b])
    ensures Rows(m) == EtspMatrix(goals, dist)
    ensures (forall g :: dist(g, g) == 0.0) ==> forall a :: 0 <= a < |goals| ==> m[a, a] == 0.0
    ensures (forall g, h :: dist(g, h) == dist(h, g)) ==>
      forall a, b :: 0 <= a < |goals| && 0 <= b < |goals| ==> m[a, b] == m[b, a]
  {
    var n := |goals|;
    m := new real[n, n]((a, b) => 0.0);
    for a := 0 to n
      invariant forall i, j :: 0 <= i < a && 0 <= j < n ==> m[i, j] == dist(goals[i], goals[j])
    {
      for b := 0 to n
        invariant forall i, j :: 0 <= i < a && 0 <= j < n ==> m[i, j] == dist(goals[i], goals[j])
        invariant forall j :: 0 <= j < b ==> m[a, j] == dist(goals[a], goals[j])
      {
        m[a, b] := dist(goals[a], goals[b]);
      }
    }
    assert forall a :: 0 <= a < n ==> Rows(m)[a] == EtspMatrix(goals, dist)[a];
  }

  /**
   * The selection loop shared by both planners: position idx of the tour takes
   * sample selectedSamples[idx] of goal sequence[idx].
   */
  method PickConfigurations(samples: seq<seq<Sample>>, sequence: seq<nat>, selectedSamples: seq<nat>)
    returns (configurations: seq<Sample>)
    requires |selectedSamples| == |sequence|
    requires forall idx :: 0 <= idx < |sequence| ==>
      sequence[idx] < |samples| && selectedSamples[idx] < |samples[sequence[idx]]|
    ensures |configurations| == |sequence|
    ensures forall idx :: 0 <= idx < |sequence| ==>
      configurations[idx] == samples[sequence[idx]][selectedSamples[idx]]
  {
    configurations := [];
    for idx := 0 to |sequence|
      invariant |configurations| == idx
      invariant forall i :: 0 <= i < idx ==> configurations[i] == samples[sequence[i]][selectedSamples[i]]
    {
      configurations := configurations + [samples[sequence[idx]][selectedSamples[idx]]];
    }
  }

  /** The configurations both planners stitch: sample 0 of every goal, in the order of `sequence`. */
  function FirstSamples(sequence: seq<nat>): seq<Sample> {
    seq(|sequence|, idx requires 0 <= idx < |sequence| => Sample(sequence[idx], 0, 0))
  }

  /**
   * The poses the samples stand for, in order. `configuration` computes the
   * (x, y, heading) of a sample from the goal centre, the sensing radius and the
   * two steps, as create_samples does with its trigonometry.
   */
  function Place<C>(configuration: Sample -> C, samples: seq<Sample>): seq<C> {
    seq(|samples|, idx requires 0 <= idx < |samples| => configuration(samples[idx]))
  }

  /** The goal that each configuration of a tour belongs to. */
  function GoalsOf(configurations: seq<Sample>): seq<nat> {
    seq(|configurations|, idx requires 0 <= idx < |configurations| => configurations[idx].goal)
  }

  /**
   * When the goal sequence is a permutation of 0..N-1, the stitched configurations
   * are N, every goal contributes exactly one of them, and each is taken at
   * position step 0 and heading step 0.
   */
  lemma FirstSamplesVisitEachGoalOnce(sequence: seq<nat>, n: nat)
    requires IsPermutation(sequence, n)
    ensures |FirstSamples(sequence)| == n
    ensures IsPermutation(GoalsOf(FirstSamples(sequence)), n)
    ensures forall g: nat :: g < n ==> g in GoalsOf(FirstSamples(sequence))
    ensures forall idx :: 0 <= idx < n ==>
      FirstSamples(sequence)[idx].positionStep == 0 && FirstSamples(sequence)[idx].headingStep == 0
  {
    assert GoalsOf(FirstSamples(sequence)) == sequence;
    PermutationCovers(sequence, n);
  }

  /**
   * plan_tour_decoupled: fills the ETSP distance matrix, asks the TSP solver for a
   * goal sequence, samples each goal region 8 x 8 and stitches sample 0 of every
   * goal in solver order, each placed as its pose by `configuration`. The solver
   * is assumed to return a permutation.
   */
  method PlanTourDecoupled<G, C, P>(
    goals: seq<G>, dist: (G, G) -> real, solveTSP: seq<seq<real>> -> seq<nat>,
    configuration: Sample -> C, turningRadius: real, dubins: DubinsPrimitive<C, P>)
    returns (path: seq<C>, pathLen: real)
    requires IsPermutation(solveTSP(EtspMatrix(goals, dist)), |goals|)
    ensures var configurations := Place(configuration, FirstSamples(solveTSP(EtspMatrix(goals, dist))));
      && path == TourSamples(dubins, configurations, turningRadius, |goals|)
      && pathLen == TourLength(dubins, configurations, turningRadius, |goals|)
    ensures (forall p :: dubins.pathLength(p) >= 0.0) ==> pathLen >= 0.0
  {
    var n := |goals|;
    var etspDistances := EtspDistances(goals, dist);
    var sequence := solveTSP(Rows(etspDistances));
    var samples := CreateSamples(goals, PlannerResolution, PlannerResolution);
    var selectedSamples := seq(n, _ => 0);
    var picked := PickConfigurations(samples, sequence, selectedSamples);
    assert picked == FirstSamples(sequence);
    var configurations := Place(configuration, picked);
    path, pathLen := ConfigurationsToPath(configurations, turningRadius, dubins);
    if forall p :: dubins.pathLength(p) >= 0.0 {
      TourLengthNonNegative(dubins, configurations, turningRadius, n);
    }
  }

  /**
   * plan_tour_noon_bean as written: the transformed distance matrix is allocated
   * but never filled, the goal order is a random permutation (here an input) and
   * sample 0 of every goal, placed as its pose by `configuration`, is stitched
   * in that order.
   */
  method PlanTourNoonBean<G, C, P>(
    goals: seq<G>, order: seq<nat>, configuration: Sample -> C, turningRadius: real, dubins: DubinsPrimitive<C, P>)
    returns (path: seq<C>, pathLen: real)
    requires IsPermutation(order, |goals|)
    ensures path == TourSamples(dubins, Place(configuration, FirstSamples(order)), turningRadius, |goals|)
    ensures pathLen == TourLength(dubins, Place(configuration, FirstSamples(order)), turningRadius, |goals|)
    ensures (forall p :: dubins.pathLength(p) >= 0.0) ==> pathLen >= 0.0
  {
    var n := |goals|;
    var samples := CreateSamples(goals, PlannerResolution, PlannerResolution);
    var m := PlannerResolution * PlannerResolution;
    var distances := new real[n * m, n * m]((i, j) => 0.0);
    var selectedSamples := seq(n, _ => 0);
    var picked := PickConfigurations(samples, order, selectedSamples);
    assert picked == FirstSamples(order);
    var configurations := Place(configuration, picked);
    path, pathLen := ConfigurationsToPath(configurations, turningRadius, dubins);
    if forall p :: dubins.pathLength(p) >= 0.0 {
      TourLengthNonNegative(dubins, configurations, turningRadius, n);
    }
  }
}
