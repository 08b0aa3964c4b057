/**
 * The self-organising ring planner (data_collection/SOMSolver.py): a ring of
 * neurons that goals inhibit one at a time in every epoch, the winner update,
 * the gain decay, the stopping rule and the reconstruction of the tour from
 * the inhibited neurons.
 *
 * The winner selection and the goal position are the stubs of select_winner
 * and update_goal_position: the winner is the last uninhibited neuron of the ring and the alternate goal
 * position is the goal itself.
 */
module SOMSolver {
  import opened Wrappers
  import opened Permutations

  /** A point of the plane, over the reals. */
  datatype Point = Point(x: real, y: real)

  function SquaredDistance(p: Point, q: Point): real {
    (p.x - q.x) * (p.x - q.x) + (p.y - q.y) * (p.y - q.y)
  }

  function Max(a: real, b: real): real {
    if a >= b then a else b
  }

  /** One coordinate moved from `a` towards `b` with gain `beta`. */
  function Towards(a: real, beta: real, b: real): real {
    a + beta * (b - a)
  }

  /** One learning step of a neuron towards `goal` with gain `beta`, coordinate by coordinate. */
  function Adapt(position: Point, beta: real, goal: Point): Point {
    Point(Towards(position.x, beta, goal.x), Towards(position.y, beta, goal.y))
  }

  /**
   * Gain 0 leaves the position alone, gain 1 lands on the goal, and the squared
   * distance to the goal shrinks by the factor (1 - beta)^2.
   */
  lemma AdaptMovesTowardsGoal(position: Point, beta: real, goal: Point)
    ensures beta == 0.0 ==> Adapt(position, beta, goal) == position
    ensures beta == 1.0 ==> Adapt(position, beta, goal) == goal
    ensures SquaredDistance(Adapt(position, beta, goal), goal) ==
            (1.0 - beta) * (1.0 - beta) * SquaredDistance(position, goal)
  {
    var moved := Adapt(position, beta, goal);
    assert moved.x - goal.x == (1.0 - beta) * (position.x - goal.x);
    assert moved.y - goal.y == (1.0 - beta) * (position.y - goal.y);
  }

  /** The ring size int(2.5 * N): at least one neuron per goal. */
  function NeuronCount(n: nat): (m: nat)
    ensures n <= m
    ensures 2 * m <= 5 * n < 2 * m + 2
  {
    (5 * n) / 2
  }

  /** The gain after one epoch of decay at rate `alpha`. */
  function Decay(sigma: real, alpha: real): real {
    (1.0 - alpha) * sigma
  }

  /** The epoch cap of plan_tour. */
  const MaxIterations: nat := 120

  /** The gain with which a winner moves towards its goal. */
  const WinnerBeta: real := 0.1

  /** The error threshold max(dev) * 1e-5, where dev is the per-axis spread of the goals. */
  function MaxError(dev: Point): real {
    Max(dev.x, dev.y) * 0.00001
  }

  /** The square of max_error: the squared error below which plan_tour stops. */
  function ErrorThreshold(dev: Point): real {
    MaxError(dev) * MaxError(dev)
  }

  /** Squaring is strictly monotone on the non-negative reals. */
  lemma SquareMonotone(r: real, m: real)
    requires r >= 0.0 && m >= 0.0
    ensures r < m <==> r * r < m * m
  {
    if r < m {
      var d, e := m - r, m + r;
      assert d * e > 0.0;
      assert d * e == m * m - r * r;
    } else {
      var d, e := r - m, r + m;
      assert d * e >= 0.0;
      assert d * e == r * r - m * m;
    }
  }

  /**
   * plan_tour stops when sqrt(error_sq) < max_error. For a non-negative error r
   * and a non-negative spread that is the same test as r^2 < max_error^2, the one
   * the model makes on the squared error.
   */
  lemma SquaredStoppingTest(r: real, dev: Point)
    requires r >= 0.0 && dev.x >= 0.0 && dev.y >= 0.0
    ensures r < MaxError(dev) <==> r * r < ErrorThreshold(dev)
  {
    SquareMonotone(r, MaxError(dev));
  }

  /** The goal indices held by the entries that are present, in order. */
  function Somes(owners: seq<Option<nat>>): seq<nat> {
    if owners == [] then []
    else (if owners[0].Some? then [owners[0].value] else []) + Somes(owners[1..])
  }

  /**
   * The ring marks after an epoch of the stub selection over `order` with `m`
   * neurons: the goal at position k of the order inhibits neuron m - 1 - k, and
   * the first m - |order| neurons stay free.
   */
  function EpochOwners(order: seq<nat>, m: nat): (owners: seq<Option<nat>>)
    requires |order| <= m
    ensures |owners| == m
    ensures forall i :: 0 <= i < m - |order| ==> owners[i] == None
    ensures forall i :: m - |order| <= i < m ==> owners[i] == Some(order[m - 1 - i])
  {
    seq(m, i requires 0 <= i < m => if i < m - |order| then None else Some(order[m - 1 - i]))
  }

  /** The marks of a ring in which the first `free` neurons are free and the rest hold `tail`. */
  lemma {:induction false} SomesOfFreeThenHeld(owners: seq<Option<nat>>, free: nat, tail: seq<nat>)
    requires |owners| == free + |tail|
    requires forall i :: 0 <= i < free ==> owners[i] == None
    requires forall j :: 0 <= j < |tail| ==> owners[free + j] == Some(tail[j])
    ensures Somes(owners) == tail
    decreases |owners|
  {
    if free > 0 {
      SomesOfFreeThenHeld(owners[1..], free - 1, tail);
    } else if tail != [] {
      SomesOfFreeThenHeld(owners[1..], 0, tail[1..]);
      assert owners[0] == Some(tail[0]);
      assert tail == [tail[0]] + tail[1..];
    }
  }

  /**
   * An epoch over a permutation of the N goals on a ring of at least N neurons
   * inhibits exactly N neurons whose goals, read in ring order, are the order
   * reversed: pairwise distinct, and covering every goal 0..N-1.
   */
  lemma EpochInhibitsOnePerGoal(order: seq<nat>, n: nat, m: nat)
    requires IsPermutation(order, n) && n <= m
    ensures Somes(EpochOwners(order, m)) == Reverse(order)
    ensures |Somes(EpochOwners(order, m))| == n
    ensures IsPermutation(Somes(EpochOwners(order, m)), n)
    ensures forall g: nat :: g < n ==> g in Somes(EpochOwners(order, m))
  {
    var owners := EpochOwners(order, m);
    var tail := Reverse(order);
    forall j | 0 <= j < |tail| ensures owners[m - n + j] == Some(tail[j]) {
      assert m - 1 - (m - n + j) == n - 1 - j;
    }
    SomesOfFreeThenHeld(owners, m - n, tail);
    ReversePermutation(order, n);
    PermutationCovers(tail, n);
  }

  /** The closed tour through the goals listed in `tour`, back to the first one. */
  function ClosedTour(goals: seq<Point>, tour: seq<nat>): (path: seq<Point>)
    requires forall j :: 0 <= j < |tour| ==> tour[j] < |goals|
    ensures |path| == if tour == [] then 0 else |tour| + 1
    ensures forall j :: 0 <= j < |tour| ==> path[j] == goals[tour[j]]
    ensures tour != [] ==> path[|tour|] == path[0]
  {
    var open := seq(|tour|, j requires 0 <= j < |tour| => goals[tour[j]]);
    if |open| > 0 then open + [open[0]] else open
  }

  /** The goal marks of a list of neurons. */
  function OwnersOf(ns: seq<Neuron>): (owners: seq<Option<nat>>)
    reads ns
    ensures |owners| == |ns| && forall i :: 0 <= i < |ns| ==> owners[i] == ns[i].goalIdx
  {
    seq(|ns|, i requires 0 <= i < |ns| reads ns => ns[i].goalIdx)
  }

  /**
   * The stub selection of select_winner over the marks of a ring: the last free
   * neuron, None when every neuron is marked.
   */
  function LastFree(marks: seq<Option<nat>>): (winner: Option<nat>)
    ensures winner.Some? ==> winner.value < |marks|
  {
    if marks == [] then None
    else if marks[|marks| - 1] == None then Some(|marks| - 1)
    else LastFree(marks[..|marks| - 1])
  }

  /** LastFree selects a free neuron after which every neuron is marked. */
  lemma {:induction false} LastFreeIsLastUnmarked(marks: seq<Option<nat>>, f: nat)
    ensures LastFree(marks) == Some(f) <==>
      && f < |marks| && marks[f] == None
      && forall j :: f < j < |marks| ==> marks[j].Some?
  {
    if marks != [] && marks[|marks| - 1] != None {
      var prefix := marks[..|marks| - 1];
      LastFreeIsLastUnmarked(prefix, f);
      assert forall j :: 0 <= j < |prefix| ==> prefix[j] == marks[j];
    }
  }

  /** LastFree selects no neuron exactly when every neuron is marked. */
  lemma {:induction false} LastFreeNoneWhenAllMarked(marks: seq<Option<nat>>)
    ensures LastFree(marks) == None <==> forall j :: 0 <= j < |marks| ==> marks[j].Some?
  {
    if marks != [] {
      var prefix := marks[..|marks| - 1];
      LastFreeNoneWhenAllMarked(prefix);
      assert forall j :: 0 <= j < |prefix| ==> prefix[j] == marks[j];
    }
  }

  /**
   * The marks and positions of a ring part way through the goal loop of
   * learn_epoch, after the first `k` goals of `order`: the neuron k places from
   * the end of the ring, counting from 1, is marked by order[k - 1] and has moved
   * from its `start` position towards that goal with gain 0.1; the neurons
   * before them are free and unmoved.
   */
  ghost predicate Progressed(marks: seq<Option<nat>>, positions: seq<Point>, goals: seq<Point>,
                             order: seq<nat>, k: nat, start: seq<Point>)
  {
    && |marks| == |positions| == |start| && k <= |order| <= |marks|
    && (forall j :: 0 <= j < |order| ==> order[j] < |goals|)
    && (forall i :: 0 <= i < |marks| - k ==> marks[i] == None && positions[i] == start[i])
    && (forall i :: |marks| - k <= i < |marks| ==>
          && marks[i] == Some(order[|marks| - 1 - i])
          && positions[i] == Adapt(start[i], WinnerBeta, goals[order[|marks| - 1 - i]]))
  }

  /** Marking and moving the neuron just before the marked ones extends the progress by one goal. */
  lemma ProgressExtends(marks: seq<Option<nat>>, positions: seq<Point>, goals: seq<Point>,
                        order: seq<nat>, k: nat, start: seq<Point>)
    requires Progressed(marks, positions, goals, order, k, start) && k < |order|
    ensures Progressed(marks[|marks| - 1 - k := Some(order[k])],
                       positions[|marks| - 1 - k := Adapt(positions[|marks| - 1 - k], WinnerBeta, goals[order[k]])],
                       goals, order, k + 1, start)
  {
    var f := |marks| - 1 - k;
    var marks', positions' := marks[f := Some(order[k])], positions[f := Adapt(positions[f], WinnerBeta, goals[order[k]])];
    forall i | |marks| - (k + 1) <= i < |marks|
      ensures marks'[i] == Some(order[|marks| - 1 - i])
      ensures positions'[i] == Adapt(start[i], WinnerBeta, goals[order[|marks| - 1 - i]])
    {
      if i == f {
        assert |marks| - 1 - i == k;
      }
    }
  }

  /**
   * The next turn of the goal loop: the stub selection picks the neuron just
   * before the marked ones, and marking and moving it extends the progress by
   * one goal.
   */
  lemma ProgressStep(marks: seq<Option<nat>>, positions: seq<Point>, goals: seq<Point>,
                     order: seq<nat>, k: nat, start: seq<Point>)
    requires Progressed(marks, positions, goals, order, k, start) && k < |order|
    ensures LastFree(marks) == Some(|marks| - 1 - k)
    ensures Progressed(marks[|marks| - 1 - k := Some(order[k])],
                       positions[|marks| - 1 - k := Adapt(positions[|marks| - 1 - k], WinnerBeta, goals[order[k]])],
                       goals, order, k + 1, start)
  {
    LastFreeIsLastUnmarked(marks, |marks| - 1 - k);
    ProgressExtends(marks, positions, goals, order, k, start);
  }

  /**
   * The ring positions after one epoch of the stub over `order` from `start`:
   * the goal at position k of `order` has moved neuron M - 1 - k towards itself
   * with gain 0.1, and the first M - |order| neurons are where they were.
   */
  function EpochPositions(start: seq<Point>, goals: seq<Point>, order: seq<nat>): (positions: seq<Point>)
    requires |order| <= |start| && forall j :: 0 <= j < |order| ==> order[j] < |goals|
    ensures |positions| == |start|
  {
    seq(|start|, i requires 0 <= i < |start| =>
      if i < |start| - |order| then start[i] else Adapt(start[i], WinnerBeta, goals[order[|start| - 1 - i]]))
  }

  /**
   * The squared error of every neuron of a ring at `positions` after an epoch
   * over `order`: the squared distance to its goal for a marked neuron, None for
   * a free one.
   */
  function EpochErrors(positions: seq<Point>, goals: seq<Point>, order: seq<nat>): (errors: seq<Option<real>>)
    requires |order| <= |positions| && forall j :: 0 <= j < |order| ==> order[j] < |goals|
    ensures |errors| == |positions|
  {
    seq(|positions|, i requires 0 <= i < |positions| =>
      if i < |positions| - |order| then None
      else Some(SquaredDistance(positions[i], goals[order[|positions| - 1 - i]])))
  }

  /** The goal orders of the epochs: each a permutation of the n goals, on a ring of m >= n neurons. */
  ghost predicate EpochOrders(orders: seq<seq<nat>>, n: nat, m: nat) {
    n <= m && forall e :: 0 <= e < |orders| ==> IsPermutation(orders[e], n)
  }

  /** The ring positions after the first `e` epochs of plan_tour, starting from `start`. */
  function PositionsAfter(start: seq<Point>, goals: seq<Point>, orders: seq<seq<nat>>, e: nat): (positions: seq<Point>)
    requires e <= |orders| && EpochOrders(orders, |goals|, |start|)
    ensures |positions| == |start|
  {
    if e == 0 then start
    else EpochPositions(PositionsAfter(start, goals, orders, e - 1), goals, orders[e - 1])
  }

  /** The squared error that statistics measures after epoch `e` of a run, counting epochs from 1. */
  function ErrorAfter(start: seq<Point>, goals: seq<Point>, orders: seq<seq<nat>>, e: nat): real
    requires 1 <= e <= |orders| && EpochOrders(orders, |goals|, |start|)
  {
    MaxPresent(EpochErrors(PositionsAfter(start, goals, orders, e), goals, orders[e - 1]))
  }

  /**
   * The number of epochs plan_tour runs, looking from epoch `e` on: it stops
   * right after the first epoch whose squared error is below `threshold`, or
   * after the last epoch.
   */
  function EpochsRun(start: seq<Point>, goals: seq<Point>, orders: seq<seq<nat>>, threshold: real, e: nat): (epochs: nat)
    requires 1 <= e <= |orders| && EpochOrders(orders, |goals|, |start|)
    ensures e <= epochs <= |orders|
    decreases |orders| - e
  {
    if e == |orders| || ErrorAfter(start, goals, orders, e) < threshold then e
    else EpochsRun(start, goals, orders, threshold, e + 1)
  }

  /**
   * EpochsRun is the first epoch from `e` on whose error is below the threshold,
   * or the last epoch when there is none.
   */
  lemma {:induction false} EpochsRunIsFirstBelow(
    start: seq<Point>, goals: seq<Point>, orders: seq<seq<nat>>, threshold: real, e: nat, stop: nat)
    requires 1 <= e <= stop <= |orders| && EpochOrders(orders, |goals|, |start|)
    requires forall d :: e <= d < stop ==> ErrorAfter(start, goals, orders, d) >= threshold
    requires stop == |orders| || ErrorAfter(start, goals, orders, stop) < threshold
    ensures EpochsRun(start, goals, orders, threshold, e) == stop
    decreases stop - e
  {
    if e < stop {
      EpochsRunIsFirstBelow(start, goals, orders, threshold, e + 1, stop);
    }
  }

  /**
   * EpochsRun stops at an epoch whose error is below the threshold, or at the
   * last epoch, and every epoch from `e` before it has an error at or above the
   * threshold.
   */
  lemma {:induction false} EpochsRunStops(
    start: seq<Point>, goals: seq<Point>, orders: seq<seq<nat>>, threshold: real, e: nat)
    requires 1 <= e <= |orders| && EpochOrders(orders, |goals|, |start|)
    ensures var stop := EpochsRun(start, goals, orders, threshold, e);
      stop == |orders| || ErrorAfter(start, goals, orders, stop) < threshold
    ensures forall d :: e <= d < EpochsRun(start, goals, orders, threshold, e) ==>
      ErrorAfter(start, goals, orders, d) >= threshold
    decreases |orders| - e
  {
    var stop := EpochsRun(start, goals, orders, threshold, e);
    if e < |orders| && ErrorAfter(start, goals, orders, e) >= threshold {
      assert stop == EpochsRun(start, goals, orders, threshold, e + 1);
      EpochsRunStops(start, goals, orders, threshold, e + 1);
      forall d | e <= d < stop
        ensures ErrorAfter(start, goals, orders, d) >= threshold
      {
        if d > e {
          assert e + 1 <= d < EpochsRun(start, goals, orders, threshold, e + 1);
        }
      }
    } else {
      assert stop == e;
    }
  }

  /** The squared errors measured after each of the first k epochs, in order. */
  function ErrorsUpTo(start: seq<Point>, goals: seq<Point>, orders: seq<seq<nat>>, k: nat): (errors: seq<real>)
    requires k <= |orders| && EpochOrders(orders, |goals|, |start|)
    ensures |errors| == k
  {
    if k == 0 then [] else ErrorsUpTo(start, goals, orders, k - 1) + [ErrorAfter(start, goals, orders, k)]
  }

  /** Entry d - 1 of ErrorsUpTo is the error measured after epoch d. */
  lemma {:induction false} ErrorsUpToAreErrorsAfter(start: seq<Point>, goals: seq<Point>, orders: seq<seq<nat>>, k: nat)
    requires k <= |orders| && EpochOrders(orders, |goals|, |start|)
    ensures forall d :: 1 <= d <= k ==> ErrorsUpTo(start, goals, orders, k)[d - 1] == ErrorAfter(start, goals, orders, d)
  {
    if k > 0 {
      ErrorsUpToAreErrorsAfter(start, goals, orders, k - 1);
    }
  }

  /**
   * `errors` are the squared errors measured after the first |errors| epochs,
   * and the run has not stopped before the last of them.
   */
  ghost predicate RunReached(start: seq<Point>, goals: seq<Point>, orders: seq<seq<nat>>, threshold: real, errors: seq<real>)
  {
    && |errors| <= |orders| && EpochOrders(orders, |goals|, |start|)
    && errors == ErrorsUpTo(start, goals, orders, |errors|)
    && (|errors| > 0 ==> EpochsRun(start, goals, orders, threshold, 1) == EpochsRun(start, goals, orders, threshold, |errors|))
  }

  /** An epoch that follows an error at or above the threshold is run, and its error is recorded. */
  lemma RunReachedStep(start: seq<Point>, goals: seq<Point>, orders: seq<seq<nat>>, threshold: real,
                       errors: seq<real>, error: real)
    requires RunReached(start, goals, orders, threshold, errors) && |errors| < |orders|
    requires |errors| > 0 ==> errors[|errors| - 1] >= threshold
    requires error == ErrorAfter(start, goals, orders, |errors| + 1)
    ensures RunReached(start, goals, orders, threshold, errors + [error])
  {
    var k := |errors|;
    if k > 0 {
      assert ErrorAfter(start, goals, orders, k) == errors[k - 1];
      assert EpochsRun(start, goals, orders, threshold, k) == EpochsRun(start, goals, orders, threshold, k + 1);
    }
  }

  /**
   * A run that stops after its error falls below the threshold, or after the
   * last epoch, has run EpochsRun epochs: every error but the last is at or
   * above the threshold, and the last is below it unless every epoch ran.
   */
  lemma RunReachedEnd(start: seq<Point>, goals: seq<Point>, orders: seq<seq<nat>>, threshold: real, errors: seq<real>)
    requires RunReached(start, goals, orders, threshold, errors) && |errors| >= 1
    requires |errors| == |orders| || errors[|errors| - 1] < threshold
    ensures |errors| == EpochsRun(start, goals, orders, threshold, 1)
    ensures forall e :: 0 <= e < |errors| - 1 ==> errors[e] >= threshold
    ensures |errors| < |orders| ==> errors[|errors| - 1] < threshold
  {
    var epochs := |errors|;
    ErrorsUpToAreErrorsAfter(start, goals, orders, epochs);
    assert EpochsRun(start, goals, orders, threshold, epochs) == epochs;
    EpochsRunStops(start, goals, orders, threshold, 1);
    forall e | 0 <= e < epochs - 1
      ensures errors[e] >= threshold
    {
      assert errors[e] == ErrorAfter(start, goals, orders, e + 1);
    }
  }

  /** At the end of the goal loop the ring is where EpochPositions puts it. */
  lemma ProgressedPositions(marks: seq<Option<nat>>, positions: seq<Point>, goals: seq<Point>,
                            order: seq<nat>, start: seq<Point>)
    requires Progressed(marks, positions, goals, order, |order|, start)
    ensures positions == EpochPositions(start, goals, order)
  {
    assert forall i :: 0 <= i < |positions| ==> positions[i] == EpochPositions(start, goals, order)[i];
  }

  /** A ring whose marks are laid out as after an epoch over `order` has EpochOwners(order, |ns|) as its marks. */
  lemma EpochMarksAreEpochOwners(ns: seq<Neuron>, order: seq<nat>)
    requires |order| <= |ns|
    requires forall i :: 0 <= i < |ns| - |order| ==> ns[i].goalIdx == None
    requires forall i :: |ns| - |order| <= i < |ns| ==> ns[i].goalIdx == Some(order[|ns| - 1 - i])
    ensures OwnersOf(ns) == EpochOwners(order, |ns|)
  {
    assert forall i :: 0 <= i < |ns| ==> OwnersOf(ns)[i] == EpochOwners(order, |ns|)[i];
  }

  /** Places i and j of `ns` hold different neurons. */
  predicate Apart(ns: seq<Neuron>, i: int, j: int) {
    0 <= i < |ns| && 0 <= j < |ns| && ns[i] != ns[j]
  }

  /**
   * No neuron appears twice. The fact for a pair of places is drawn out by
   * mentioning Apart for that pair, which keeps it out of proofs that do not
   * need it.
   */
  predicate Distinct(ns: seq<Neuron>) {
    forall i, j {:trigger Apart(ns, i, j)} :: 0 <= i < |ns| && 0 <= j < |ns| && i != j ==> Apart(ns, i, j)
  }

  /** The positions of a list of neurons. */
  function PositionsOf(ns: seq<Neuron>): (positions: seq<Point>)
    reads ns
    ensures |positions| == |ns| && forall i :: 0 <= i < |ns| ==> positions[i] == ns[i].position
  {
    seq(|ns|, i requires 0 <= i < |ns| reads ns => ns[i].position)
  }

  /**
   * The neurons carrying a goal mark, in ring order: each is one of `ns`, every
   * marked neuron of `ns` is among them, and their marks are the marks present
   * in `ns`, in the same order.
   */
  function InhibitedOf(ns: seq<Neuron>): (inhibited: seq<Neuron>)
    reads ns
    ensures forall n :: n in inhibited ==> n in ns && n.goalIdx.Some?
    ensures forall n :: n in ns && n.goalIdx.Some? ==> n in inhibited
    ensures |inhibited| == |Somes(OwnersOf(ns))|
    ensures forall j :: 0 <= j < |inhibited| ==> inhibited[j].goalIdx == Some(Somes(OwnersOf(ns))[j])
  {
    if ns == [] then []
    else
      assert OwnersOf(ns)[1..] == OwnersOf(ns[1..]);
      (if ns[0].goalIdx.Some? then [ns[0]] else []) + InhibitedOf(ns[1..])
  }

  /** The goal positions of the given neurons, closed by repeating the first one. */
  function GoalPath(inhibited: seq<Neuron>): (path: seq<Point>)
    reads inhibited
    requires forall j :: 0 <= j < |inhibited| ==> inhibited[j].goalPosition.Some?
    ensures |path| == if inhibited == [] then 0 else |inhibited| + 1
    ensures forall j :: 0 <= j < |inhibited| ==> path[j] == inhibited[j].goalPosition.value
    ensures inhibited != [] ==> path[|inhibited|] == path[0]
  {
    var open := seq(|inhibited|, j requires 0 <= j < |inhibited| && inhibited[j].goalPosition.Some? reads inhibited =>
      inhibited[j].goalPosition.value);
    if |open| > 0 then open + [open[0]] else open
  }

  /**
   * When every marked neuron holds the position of the goal it is marked by,
   * the inhibited neurons, read in ring order, hold the positions of the goals
   * of the marks in that order, so their goal path is the closed tour through
   * those goals.
   */
  lemma InhibitedHoldTheirGoals(ns: seq<Neuron>, goals: seq<Point>)
    requires forall i :: 0 <= i < |ns| && ns[i].goalIdx.Some? ==>
      ns[i].goalIdx.value < |goals| && ns[i].goalPosition == Some(goals[ns[i].goalIdx.value])
    ensures forall j :: 0 <= j < |Somes(OwnersOf(ns))| ==> Somes(OwnersOf(ns))[j] < |goals|
    ensures forall j :: 0 <= j < |InhibitedOf(ns)| ==>
      InhibitedOf(ns)[j].goalPosition == Some(goals[Somes(OwnersOf(ns))[j]])
    ensures GoalPath(InhibitedOf(ns)) == ClosedTour(goals, Somes(OwnersOf(ns)))
  {
    var inhibited := InhibitedOf(ns);
    var owners := Somes(OwnersOf(ns));
    forall j | 0 <= j < |inhibited| ensures owners[j] < |goals| && inhibited[j].goalPosition == Some(goals[owners[j]]) {
      var i :| 0 <= i < |ns| && ns[i] == inhibited[j];
    }
    var path, tour := GoalPath(inhibited), ClosedTour(goals, owners);
    assert |path| == |tour|;
    forall j | 0 <= j < |path| ensures path[j] == tour[j] {
      if j == |inhibited| {
        assert path[j] == path[0] && tour[j] == tour[0];
      }
    }
  }

  /**
   * The squared distance between each neuron and its goal position, present
   * only for the neurons marked in this epoch.
   */
  function SquaredErrorsOf(ns: seq<Neuron>): (errors: seq<Option<real>>)
    reads ns
    ensures |errors| == |ns|
  {
    seq(|ns|, i requires 0 <= i < |ns| reads ns =>
      if ns[i].goalIdx.Some? && ns[i].goalPosition.Some?
      then Some(SquaredDistance(ns[i].position, ns[i].goalPosition.value)) else None)
  }

  /** The largest of the present values, scanning in order; 0 when none is present. */
  function MaxPresent(errors: seq<Option<real>>): real {
    if errors == [] then 0.0
    else
      var rest := MaxPresent(errors[..|errors| - 1]);
      var last := errors[|errors| - 1];
      if last.Some? then Max(rest, last.value) else rest
  }

  /** MaxPresent is a maximum: non-negative, above every present value, and equal to one of them unless it is 0. */
  lemma {:induction false} MaxPresentIsMaximum(errors: seq<Option<real>>)
    ensures MaxPresent(errors) >= 0.0
    ensures forall i :: 0 <= i < |errors| && errors[i].Some? ==> errors[i].value <= MaxPresent(errors)
    ensures MaxPresent(errors) == 0.0 ||
      exists i :: 0 <= i < |errors| && errors[i] == Some(MaxPresent(errors))
  {
    if errors != [] {
      var front := errors[..|errors| - 1];
      MaxPresentIsMaximum(front);
      assert forall i :: 0 <= i < |front| ==> front[i] == errors[i];
    }
  }

  /**
   * The error of statistics before its square root: the largest squared distance
   * between a marked neuron and its goal position, 0 when none is marked.
   */
  function MaxSquaredError(ns: seq<Neuron>): real
    reads ns
  {
    MaxPresent(SquaredErrorsOf(ns))
  }

  /**
   * Under the invariant that marked neurons hold a goal position, MaxSquaredError
   * is a maximum: non-negative, above every marked neuron's squared error, and
   * reached by one of them unless it is 0.
   */
  lemma MaxSquaredErrorIsMaximum(ns: seq<Neuron>)
    requires forall n :: n in ns && n.goalIdx.Some? ==> n.goalPosition.Some?
    ensures MaxSquaredError(ns) >= 0.0
    ensures forall i :: 0 <= i < |ns| && ns[i].goalIdx.Some? ==>
      SquaredDistance(ns[i].position, ns[i].goalPosition.value) <= MaxSquaredError(ns)
    ensures MaxSquaredError(ns) == 0.0 ||
      exists i :: 0 <= i < |ns| && ns[i].goalIdx.Some? &&
                  SquaredDistance(ns[i].position, ns[i].goalPosition.value) == MaxSquaredError(ns)
  {
    var errors := SquaredErrorsOf(ns);
    MaxPresentIsMaximum(errors);
    forall i | 0 <= i < |ns| && ns[i].goalIdx.Some?
      ensures SquaredDistance(ns[i].position, ns[i].goalPosition.value) <= MaxSquaredError(ns)
    {
      assert ns[i] in ns;
      assert errors[i].Some?;
    }
  }

  class Neuron {
    /** The position of the neuron in the plane. */
    var position: Point
    /** The goal position associated with the neuron; None until it first wins. */
    var goalPosition: Option<Point>
    /** The goal that inhibited the neuron in the current epoch, if any. */
    var goalIdx: Option<nat>

    constructor ()
      ensures position == Point(0.0, 0.0) && goalPosition == None && goalIdx == None
    {
      position := Point(0.0, 0.0);
      goalPosition := None;
      goalIdx := None;
    }

    /** adapt_neuron: moves the neuron towards `goal` with gain `beta`, x first, then y. */
    method AdaptNeuron(beta: real, goal: Point)
      modifies this
      ensures position == Adapt(old(position), beta, goal)
      ensures goalPosition == old(goalPosition) && goalIdx == old(goalIdx)
    {
      position := Point(Towards(position.x, beta, goal.x), position.y);
      position := Point(position.x, Towards(position.y, beta, goal.y));
    }

    /** update_goal_position as written: the goal itself becomes the goal position, whatever the radius. */
    method UpdateGoalPosition(goal: Point, radius: real) returns (alternate: Point)
      modifies this
      ensures goalPosition == Some(goal) && alternate == goal
      ensures position == old(position) && goalIdx == old(goalIdx)
    {
      goalPosition := Some(goal);
      alternate := goal;
    }
  }

  /** The neurons of a new ring: one fresh, unmarked neuron at each of the given positions. */
  method CreateRing(ring: seq<Point>) returns (created: seq<Neuron>)
    ensures |created| == |ring|
    ensures forall i :: 0 <= i < |ring| ==>
      && fresh(created[i]) && created[i].position == ring[i]
      && created[i].goalIdx == None && created[i].goalPosition == None
    ensures Distinct(created)
  {
    created := [];
    for i := 0 to |ring|
      invariant |created| == i
      invariant forall j :: 0 <= j < i ==>
        && fresh(created[j]) && created[j].position == ring[j]
        && created[j].goalIdx == None && created[j].goalPosition == None
      invariant forall j, l :: 0 <= j < l < i ==> created[j] != created[l]
    {
      var n := new Neuron();
      n.position := ring[i];
      created := created + [n];
    }
    forall j, l | 0 <= j < |created| && 0 <= l < |created| && j != l ensures Apart(created, j, l) {
    }
  }

  class SOMSolver {
    var goals: seq<Point>
    var radius: real
    /** The number of goals. */
    var N: nat
    /** The number of neurons. */
    var M: nat
    /** The neighbourhood gain, decayed once per epoch. */
    var sigma: real
    /** The learning rate. */
    var mi: real
    /** The gain decreasing rate. */
    var alpha: real
    /** The ring, in ring order. */
    var neurons: seq<Neuron>

    /** The sizes agree and the ring holds distinct neurons. */
    ghost predicate Shape()
      reads this
    {
      && N == |goals| && M == NeuronCount(N) && |neurons| == M
      && Distinct(neurons)
    }

    /** Shape, and every marked neuron is marked by a goal and holds that goal's position. */
    ghost predicate Valid()
      reads this, neurons
    {
      && Shape()
      && forall i :: 0 <= i < |neurons| && neurons[i].goalIdx.Some? ==>
           neurons[i].goalIdx.value < N && neurons[i].goalPosition == Some(goals[neurons[i].goalIdx.value])
    }

    /**
     * The marks of the ring are those an epoch over `order` leaves: the goal at
     * position k of `order` marks neuron M - 1 - k, and the first M - |order|
     * neurons are free.
     */
    ghost predicate HoldsEpochMarks(order: seq<nat>)
      reads this, neurons
    {
      && |order| <= M == |neurons|
      && (forall i :: 0 <= i < M - |order| ==> neurons[i].goalIdx == None)
      && (forall i :: M - |order| <= i < M ==> neurons[i].goalIdx == Some(order[M - 1 - i]))
    }

    /** The goal marks of the ring, in ring order. */
    function Owners(): seq<Option<nat>>
      reads this, neurons
    {
      OwnersOf(neurons)
    }

    /** An empty solver: no goals, no neurons, gain 0, learning rate 0.5, decay 0.1. */
    constructor ()
      ensures Valid() && goals == [] && neurons == [] && N == 0 && M == 0
      ensures radius == 0.0 && sigma == 0.0 && mi == 0.5 && alpha == 0.1
    {
      goals := [];
      radius := 0.0;
      N := 0;
      M := 0;
      // sigma is first set to 12.41 * N + 0.6 and then overwritten with N
      sigma := 0.0;
      mi := 0.5;
      alpha := 0.1;
      neurons := [];
    }

    /**
     * select_winner with the stub policy: marks the last free neuron of the ring
     * with `goalIdx` and changes nothing else. None stands for the failure of
     * select_winner, which indexes the ring with None when every neuron is
     * already marked.
     */
    method SelectWinner(goalIdx: nat) returns (winner: Option<nat>)
      requires Shape() && goalIdx < |goals|
      modifies neurons
      ensures winner == LastFree(old(Owners()))
      ensures winner.Some? ==> Owners() == old(Owners())[winner.value := Some(goalIdx)]
      ensures winner.None? ==> Owners() == old(Owners())
      ensures forall j :: 0 <= j < |neurons| ==>
        neurons[j].position == old(neurons[j].position) && neurons[j].goalPosition == old(neurons[j].goalPosition)
    {
      var actGoal := goals[goalIdx];
      ghost var marks := Owners();
      var bestIdx: Option<nat> := None;
      for idx := 0 to |neurons|
        invariant bestIdx == LastFree(marks[..idx])
      {
        assert marks[..idx + 1][..idx] == marks[..idx];
        if neurons[idx].goalIdx == None {
          bestIdx := Some(idx);
        }
      }
      assert marks[..|neurons|] == marks;
      if bestIdx.Some? {
        forall j | 0 <= j < |neurons| && j != bestIdx.value ensures neurons[j] != neurons[bestIdx.value] {
          assert Apart(neurons, j, bestIdx.value);
        }
        neurons[bestIdx.value].goalIdx := Some(goalIdx);
        assert Owners() == marks[bestIdx.value := Some(goalIdx)];
      } else {
        assert Owners() == marks;
      }
      winner := bestIdx;
    }

    /** The first step of learn_epoch: every neuron loses its goal mark; nothing else changes. */
    method ClearMarks()
      requires Shape()
      modifies neurons
      ensures forall j :: 0 <= j < |neurons| ==> neurons[j].goalIdx == None
      ensures forall j :: 0 <= j < |neurons| ==>
        neurons[j].position == old(neurons[j].position) && neurons[j].goalPosition == old(neurons[j].goalPosition)
    {
      for i := 0 to |neurons|
        invariant forall j :: 0 <= j < i ==> neurons[j].goalIdx == None
        invariant forall j :: 0 <= j < |neurons| ==>
          neurons[j].position == old(neurons[j].position) && neurons[j].goalPosition == old(neurons[j].goalPosition)
      {
        forall j | 0 <= j < |neurons| && j != i ensures neurons[j] != neurons[i] {
          assert Apart(neurons, j, i);
        }
        neurons[i].goalIdx := None;
      }
    }

    /**
     * One turn of the goal loop of learn_epoch: select_winner marks the winner
     * with `goalIdx`, update_goal_position hands it the goal and adapt_neuron
     * moves it towards the goal with gain 0.1. No other neuron changes. None
     * stands for the failure of select_winner when every neuron is marked.
     */
    method LearnGoal(goalIdx: nat) returns (winnerIdx: Option<nat>)
      requires Valid() && goalIdx < N
      modifies neurons
      ensures Valid()
      ensures winnerIdx == LastFree(old(Owners()))
      ensures winnerIdx.Some? ==>
        && Owners() == old(Owners())[winnerIdx.value := Some(goalIdx)]
        && PositionsOf(neurons) == old(PositionsOf(neurons))[winnerIdx.value :=
             Adapt(old(neurons[winnerIdx.value].position), WinnerBeta, goals[goalIdx])]
      ensures winnerIdx.None? ==> Owners() == old(Owners()) && PositionsOf(neurons) == old(PositionsOf(neurons))
    {
      var actGoal := goals[goalIdx];
      winnerIdx := SelectWinner(goalIdx);
      if winnerIdx.Some? {
        AttractWinner(winnerIdx.value, goalIdx, actGoal);
      }
    }

    /**
     * The rest of a turn for the winner `w`: update_goal_position hands it the
     * goal and adapt_neuron moves it towards the goal with gain 0.1; no mark
     * changes and no other neuron moves.
     */
    method AttractWinner(w: nat, goalIdx: nat, actGoal: Point)
      requires Shape() && w < M && goalIdx < N && actGoal == goals[goalIdx]
      requires neurons[w].goalIdx == Some(goalIdx)
      requires forall i :: 0 <= i < M && i != w && neurons[i].goalIdx.Some? ==>
        neurons[i].goalIdx.value < N && neurons[i].goalPosition == Some(goals[neurons[i].goalIdx.value])
      modifies neurons[w]
      ensures Valid()
      ensures Owners() == old(Owners())
      ensures PositionsOf(neurons) == old(PositionsOf(neurons))[w := Adapt(old(neurons[w].position), WinnerBeta, actGoal)]
    {
      ghost var marks, positions := Owners(), PositionsOf(neurons);
      forall j | 0 <= j < |neurons| && j != w ensures neurons[j] != neurons[w] {
        assert Apart(neurons, j, w);
      }
      var winner := neurons[w];
      var alternateGoal := winner.UpdateGoalPosition(actGoal, radius);
      var actBeta := 0.1;
      winner.AdaptNeuron(actBeta, alternateGoal);
      assert Owners() == marks;
      assert PositionsOf(neurons) == positions[w := Adapt(positions[w], WinnerBeta, actGoal)];
    }

    /**
     * The state of the goal loop of learn_epoch after the first `k` goals of
     * `order`: neuron M - 1 - j is marked by order[j] and has moved from its
     * `start` position towards that goal with gain 0.1; the neurons before them
     * are free and unmoved.
     */
    ghost predicate EpochProgress(order: seq<nat>, k: nat, start: seq<Point>)
      reads this, neurons
    {
      Valid() && Progressed(Owners(), PositionsOf(neurons), goals, order, k, start)
    }

    /** One turn of the goal loop of learn_epoch: goal order[k] marks and attracts neuron M - 1 - k. */
    method LearnTurn(order: seq<nat>, k: nat, ghost start: seq<Point>)
      requires EpochProgress(order, k, start) && k < |order|
      modifies neurons
      ensures EpochProgress(order, k + 1, start)
    {
      ProgressStep(Owners(), PositionsOf(neurons), goals, order, k, start);
      var winnerIdx := LearnGoal(order[k]);
    }

    /**
     * The neuron part of learn_epoch: every mark is cleared, then the goal at
     * position k of `order` marks neuron M - 1 - k and moves it towards itself
     * with gain 0.1; the first M - |order| neurons stay free and where they were.
     */
    method LearnGoals(order: seq<nat>)
      requires Valid() && |order| <= M && forall k :: 0 <= k < |order| ==> order[k] < N
      modifies neurons
      ensures EpochProgress(order, |order|, old(PositionsOf(neurons)))
    {
      ghost var start := PositionsOf(neurons);
      ClearMarks();
      for k := 0 to |order|
        invariant EpochProgress(order, k, start)
      {
        LearnTurn(order, k, start);
      }
    }

    /**
     * learn_epoch: decays sigma by (1 - alpha), clears every mark and lets each
     * goal of `order` in turn mark and attract its winner with gain 0.1. With the
     * stub selection the marks end as EpochOwners(order, M), and only the marked
     * neurons have moved, each exactly once, towards its own goal.
     */
    method LearnEpoch(order: seq<nat>)
      requires Valid() && |order| <= M && forall k :: 0 <= k < |order| ==> order[k] < N
      modifies this, neurons
      ensures goals == old(goals) && neurons == old(neurons) && N == old(N) && M == old(M)
      ensures radius == old(radius) && mi == old(mi) && alpha == old(alpha)
      ensures sigma == Decay(old(sigma), alpha)
      ensures EpochProgress(order, |order|, old(PositionsOf(neurons)))
    {
      // learn_epoch decays sigma after the goal loop; the loop never reads sigma
      // (the neighbourhood gains it computes from sigma go unused), so the order
      // of the two steps makes no difference.
      sigma := Decay(sigma, alpha);
      LearnGoals(order);
    }

    /** The neurons marked in this epoch, in ring order (get_inhibited_neurons). */
    function GetInhibitedNeurons(): (inhibited: seq<Neuron>)
      reads this, neurons
      ensures forall n :: n in inhibited ==> n in neurons && n.goalIdx.Some?
      ensures forall i :: 0 <= i < |neurons| && neurons[i].goalIdx.Some? ==> neurons[i] in inhibited
      ensures |inhibited| == |Somes(Owners())|
      ensures forall j :: 0 <= j < |inhibited| ==> inhibited[j].goalIdx == Some(Somes(Owners())[j])
    {
      InhibitedOf(neurons)
    }

    /**
     * reconstruct_path: the goal positions of the marked neurons in ring order,
     * closed by repeating the first one; empty when no neuron is marked.
     */
    function ReconstructPath(): (path: seq<Point>)
      reads this, neurons
      requires Valid()
      ensures forall j :: 0 <= j < |Somes(Owners())| ==> Somes(Owners())[j] < |goals|
      ensures path == ClosedTour(goals, Somes(Owners()))
    {
      InhibitedHoldTheirGoals(neurons, goals);
      GoalPath(GetInhibitedNeurons())
    }

    /**
     * After an epoch over a permutation of the goals, the marks read in ring
     * order are the order reversed, so the reconstructed path is the closed tour
     * through every goal exactly once.
     */
    lemma EpochTour(order: seq<nat>)
      requires Valid() && IsPermutation(order, N) && HoldsEpochMarks(order)
      ensures Owners() == EpochOwners(order, M)
      ensures Somes(Owners()) == Reverse(order)
      ensures IsPermutation(Somes(Owners()), N)
      ensures ReconstructPath() == ClosedTour(goals, Reverse(order))
      ensures |ReconstructPath()| == if N == 0 then 0 else N + 1
    {
      EpochMarksAreEpochOwners(neurons, order);
      EpochInhibitsOnePerGoal(order, N, M);
    }

    /** get_neurons_path: every neuron position in ring order, closed by the first one. */
    function GetNeuronsPath(): (path: seq<Point>)
      reads this, neurons
      ensures |path| == if neurons == [] then 0 else |neurons| + 1
      ensures forall i :: 0 <= i < |neurons| ==> path[i] == neurons[i].position
      ensures neurons != [] ==> path[|neurons|] == neurons[0].position
    {
      var path := seq(|neurons|, i requires 0 <= i < |neurons| reads this, neurons => neurons[i].position);
      if |path| > 0 then path + [path[0]] else path
    }

    /**
     * The error of statistics before its square root: the largest squared distance
     * between a marked neuron and its goal position, 0 when none is marked.
     */
    method Statistics() returns (errorSq: real)
      requires Valid()
      ensures errorSq == MaxSquaredError(neurons)
      ensures errorSq >= 0.0
      ensures forall i :: 0 <= i < |neurons| && neurons[i].goalIdx.Some? ==>
        SquaredDistance(neurons[i].position, neurons[i].goalPosition.value) <= errorSq
    {
      ghost var errors := SquaredErrorsOf(neurons);
      errorSq := 0.0;
      for i := 0 to |neurons|
        invariant errorSq == MaxPresent(errors[..i])
      {
        var n := neurons[i];
        assert errors[..i + 1][..i] == errors[..i];
        assert n in neurons;
        if n.goalIdx.Some? {
          var dx := n.position.x - n.goalPosition.value.x;
          var dy := n.position.y - n.goalPosition.value.y;
          var dstSq := dx * dx + dy * dy;
          errorSq := Max(errorSq, dstSq);
        }
      }
      assert errors[..|neurons|] == errors;
      MaxSquaredErrorIsMaximum(neurons);
    }

    /** After an epoch over `order`, the squared error of the ring is that of its layout. */
    lemma EpochErrorOfRing(order: seq<nat>)
      requires Valid() && HoldsEpochMarks(order) && forall j :: 0 <= j < |order| ==> order[j] < N
      ensures MaxSquaredError(neurons) == MaxPresent(EpochErrors(PositionsOf(neurons), goals, order))
    {
      var positions := PositionsOf(neurons);
      forall i | 0 <= i < M
        ensures SquaredErrorsOf(neurons)[i] == EpochErrors(positions, goals, order)[i]
      {
        if i >= M - |order| {
          assert neurons[i].goalIdx == Some(order[M - 1 - i]);
        }
      }
      assert SquaredErrorsOf(neurons) == EpochErrors(positions, goals, order);
    }

    /** One turn of the epoch loop of plan_tour: learn_epoch over `order`, then the squared error. */
    method Epoch(order: seq<nat>) returns (error: real)
      requires Valid() && IsPermutation(order, N)
      modifies this, neurons
      ensures Valid()
      ensures goals == old(goals) && neurons == old(neurons) && N == old(N) && M == old(M)
      ensures radius == old(radius) && mi == old(mi) && alpha == old(alpha)
      ensures sigma == Decay(old(sigma), alpha)
      ensures HoldsEpochMarks(order)
      ensures PositionsOf(neurons) == EpochPositions(old(PositionsOf(neurons)), goals, order)
      ensures error == MaxSquaredError(neurons)
      ensures error == MaxPresent(EpochErrors(PositionsOf(neurons), goals, order))
    {
      ghost var start := PositionsOf(neurons);
      LearnEpoch(order);
      ProgressedPositions(Owners(), PositionsOf(neurons), goals, order, start);
      assert HoldsEpochMarks(order);
      error := Statistics();
      EpochErrorOfRing(order);
    }

    /**
     * The state of plan_tour's epoch loop after the epochs whose errors are
     * `errors`, for a run that started with the ring at `start` and the goals
     * `targets`: the ring is at PositionsAfter that many epochs, carries the
     * marks of the last one, and the last error is the ring's squared error.
     */
    ghost predicate TrainedFor(start: seq<Point>, targets: seq<Point>, orders: seq<seq<nat>>, threshold: real, errors: seq<real>)
      reads this, neurons
    {
      && Valid() && goals == targets && |start| == M && EpochOrders(orders, N, M)
      && RunReached(start, targets, orders, threshold, errors)
      && PositionsOf(neurons) == PositionsAfter(start, targets, orders, |errors|)
      && (|errors| > 0 ==> HoldsEpochMarks(orders[|errors| - 1]) && errors[|errors| - 1] == MaxSquaredError(neurons))
    }

    /**
     * The next epoch of plan_tour's loop, run because the last error was at or
     * above the threshold: its error is recorded and the loop state moves on by
     * one epoch.
     */
    method TrainEpoch(ghost start: seq<Point>, ghost targets: seq<Point>, orders: seq<seq<nat>>, threshold: real,
                      ghost errors: seq<real>, k: nat)
      returns (error: real)
      requires TrainedFor(start, targets, orders, threshold, errors) && k == |errors| < |orders|
      requires k > 0 ==> errors[k - 1] >= threshold
      modifies this, neurons
      ensures TrainedFor(start, targets, orders, threshold, errors + [error])
      ensures goals == old(goals) && neurons == old(neurons) && N == old(N) && M == old(M)
      ensures radius == old(radius) && mi == old(mi) && alpha == old(alpha)
    {
      error := Epoch(orders[k]);
      RunReachedStep(start, targets, orders, threshold, errors, error);
    }

    /**
     * The loop state when plan_tour's epoch loop ends, after an error below the
     * threshold or after the last epoch: what Train promises, in the loop's terms.
     */
    lemma TrainedEnd(start: seq<Point>, targets: seq<Point>, orders: seq<seq<nat>>, threshold: real,
                     errors: seq<real>, epochs: nat)
      requires TrainedFor(start, targets, orders, threshold, errors) && 1 <= epochs == |errors|
      requires epochs == |orders| || errors[epochs - 1] < threshold
      ensures Valid() && HoldsEpochMarks(orders[epochs - 1])
      ensures errors[epochs - 1] == MaxSquaredError(neurons)
      ensures forall e :: 0 <= e < epochs - 1 ==> errors[e] >= threshold
      ensures epochs < |orders| ==> errors[epochs - 1] < threshold
      ensures errors == ErrorsUpTo(start, targets, orders, epochs)
      ensures epochs == EpochsRun(start, targets, orders, threshold, 1)
      ensures PositionsOf(neurons) == PositionsAfter(start, targets, orders, epochs)
    {
      RunReachedEnd(start, targets, orders, threshold, errors);
    }

    /**
     * The epoch loop of plan_tour: epoch e visits the goals in orders[e], then the
     * squared error is measured; the loop stops once it falls below `threshold`
     * or after 120 epochs. `errors` records the squared error after each epoch.
     */
    method Train(orders: seq<seq<nat>>, threshold: real, ghost start: seq<Point>)
      returns (ghost epochs: nat, ghost errors: seq<real>)
      requires Valid() && PositionsOf(neurons) == start
      requires |orders| == MaxIterations && EpochOrders(orders, N, M)
      modifies this, neurons
      ensures Valid()
      ensures goals == old(goals) && neurons == old(neurons) && N == old(N) && M == old(M)
      ensures radius == old(radius) && mi == old(mi) && alpha == old(alpha)
      ensures 1 <= epochs <= MaxIterations && |errors| == epochs
      ensures forall e :: 0 <= e < epochs - 1 ==> errors[e] >= threshold
      ensures errors[epochs - 1] == MaxSquaredError(neurons)
      ensures epochs < MaxIterations ==> errors[epochs - 1] < threshold
      ensures TrainedFor(start, goals, orders, threshold, errors)
      ensures errors == ErrorsUpTo(start, goals, orders, epochs)
      ensures epochs == EpochsRun(start, goals, orders, threshold, 1)
      ensures PositionsOf(neurons) == PositionsAfter(start, goals, orders, epochs)
    {
      ghost var targets := goals;
      epochs := 0;
      errors := [];
      for epochIdx := 0 to MaxIterations
        invariant epochs == epochIdx && |errors| == epochIdx
        invariant goals == old(goals) && neurons == old(neurons) && N == old(N) && M == old(M)
        invariant radius == old(radius) && mi == old(mi) && alpha == old(alpha)
        invariant epochIdx > 0 ==> errors[epochIdx - 1] >= threshold
        invariant TrainedFor(start, targets, orders, threshold, errors)
      {
        var error := TrainEpoch(start, targets, orders, threshold, errors, epochIdx);
        errors := errors + [error];
        epochs := epochIdx + 1;
        if error < threshold {
          break;
        }
      }
      TrainedEnd(start, targets, orders, threshold, errors, epochs);
    }

    /**
     * The set-up part of plan_tour: the goals and the sensing radius are stored,
     * a fresh unmarked neuron is placed at each ring position, the gain starts at
     * N, the learning rate at 0.5 and the decay rate at 0.1.
     */
    method Reset(goals: seq<Point>, radius: real, ring: seq<Point>)
      requires |ring| == NeuronCount(|goals|)
      modifies this
      ensures Valid() && this.goals == goals && this.radius == radius && N == |goals| && M == |ring|
      ensures sigma == N as real && mi == 0.5 && alpha == 0.1
      ensures forall i :: 0 <= i < M ==>
        fresh(neurons[i]) && neurons[i].position == ring[i] && neurons[i].goalIdx == None
    {
      var created := CreateRing(ring);
      this.goals := goals;
      this.radius := radius;
      N := |goals|;
      M := |ring|;
      // plan_tour first sets sigma to 12.41 * N + 0.6 and then overwrites it
      sigma := N as real;
      mi := 0.5;
      alpha := 0.1;
      neurons := created;
    }

    /**
     * plan_tour: builds a ring of int(2.5 N) fresh neurons at the given ellipse
     * positions, runs the epochs (epoch e visits the goals in orders[e]) until the
     * squared error falls below max_error^2 or 120 epochs have run, and returns
     * the reconstructed closed tour, which visits every goal exactly once.
     */
    method PlanTour(goals: seq<Point>, radius: real, ring: seq<Point>, dev: Point, orders: seq<seq<nat>>)
      returns (tour: seq<Point>, ghost epochs: nat, ghost errors: seq<real>)
      requires |goals| >= 1
      requires |ring| == NeuronCount(|goals|)
      requires |orders| == MaxIterations
      requires forall e :: 0 <= e < |orders| ==> IsPermutation(orders[e], |goals|)
      requires dev.x >= 0.0 && dev.y >= 0.0
      modifies this
      ensures Valid() && this.goals == goals && this.radius == radius && N == |goals| && M == NeuronCount(N)
      ensures forall i :: 0 <= i < M ==> fresh(neurons[i])
      ensures mi == 0.5 && alpha == 0.1
      ensures 1 <= epochs <= MaxIterations && |errors| == epochs
      ensures forall e :: 0 <= e < epochs - 1 ==> errors[e] >= ErrorThreshold(dev)
      ensures errors[epochs - 1] == MaxSquaredError(neurons)
      ensures epochs < MaxIterations ==> errors[epochs - 1] < ErrorThreshold(dev)
      ensures IsPermutation(orders[epochs - 1], N)
      ensures Owners() == EpochOwners(orders[epochs - 1], M)
      ensures Somes(Owners()) == Reverse(orders[epochs - 1])
      ensures IsPermutation(Somes(Owners()), N)
      ensures tour == ClosedTour(goals, Reverse(orders[epochs - 1]))
      ensures |tour| == N + 1
      ensures epochs == EpochsRun(ring, goals, orders, ErrorThreshold(dev), 1)
      ensures errors == ErrorsUpTo(ring, goals, orders, epochs)
      ensures PositionsOf(neurons) == PositionsAfter(ring, goals, orders, epochs)
    {
      Reset(goals, radius, ring);
      assert PositionsOf(neurons) == ring;
      epochs, errors := Train(orders, ErrorThreshold(dev), ring);
      TrainedEnd(ring, goals, orders, ErrorThreshold(dev), errors, epochs);
      EpochTour(orders[epochs - 1]);
      tour := ReconstructPath();
    }
  }
}
