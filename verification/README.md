# Tour planning for data collection: a Dafny model

This project models the discrete core of a planner for data-collection tours.
The planner visits a set of goal regions with a robot and covers three parts:

- **Dubins TSP with neighbourhoods** (`dtspn_solver.dfy`, module `DTSPNSolver`).
  - Goal regions are sampled into a goal × (position step × heading step) matrix.
  - An ordered list of configurations is closed into a tour, built from Dubins
    segments between consecutive configurations.
  - Two planners pick one sample per goal: the decoupled one, which uses a TSP
    order over the goal centres, and the Noon-Bean one, which uses a random order.
  - Geometry is abstract. A sample is identified by its goal and its position
    and heading steps. The planners place each picked sample as a pose of a
    separate configuration type through a `configuration` function, so the
    points sampled along the Dubins curves are poses, not goal samples.
  - The Dubins primitive (shortest path, length, sampling) and the TSP solver
    are function parameters.
- **Self-organising map solver** (`som_solver.dfy`, module `SOMSolver`).
  - A ring of int(2.5·N) neurons (classes `Neuron` and `SOMSolver`) is trained
    epoch by epoch. In each epoch, every goal, in a given order, marks one free
    neuron (the winner) and pulls it towards itself.
  - Training stops once the largest squared distance between a marked neuron
    and its goal falls below max_error², or after 120 epochs.
  - The tour is read off the marked neurons in ring order.
  - The main invariant: an epoch over a permutation of the N goals marks exactly
    N neurons, one per goal. The reconstructed tour therefore visits every goal
    exactly once.
- **Message records** (`message.dfy`, module `Messages`).
  - The base record constructor checks its arguments: positional or keyword but
    not both, exact positional arity, and only declared attribute names. It then
    sets every declared attribute.
  - `__str__` renders each attribute as `name:value`.

`permutations.dfy` holds the facts about permutations of 0..N-1 used by both
planners: the pigeonhole lemma and reversal. `wrappers.dfy` holds `Option` and
`Result`.

Imperative code stays imperative:

- The sampling, stitching and matrix-filling loops, the epoch loop, the goal
  loop, the winner search, the error scan, argument validation and rendering are
  all `method`s with loop invariants.
- Each is proved against a specification function (`TourSamples`,
  `TourLength`, `EpochOwners`, `MaxSquaredError`, `InitFields`, `Render`, and
  so on). Training is pinned by `PositionsAfter`, `ErrorsUpTo` and
  `EpochsRun`: the ring after each epoch, the error after each epoch, and the
  epoch at which the loop stops, all as functions of the starting ring. The lemmas beside each function state what the source promises.
- Neurons and the solver are classes whose methods update their fields.
- The comprehensions `get_inhibited_neurons`, `reconstruct_path` and
  `get_neurons_path` are functions.

## Model

| member | source | states |
|---|---|---|
| DTSPNSolver.CreateRow | data_collection/DTSPNSolver.py:80-86 | one goal's row has position_resolution·heading_resolution samples; sample k has position step k / heading_resolution and heading step k mod heading_resolution (positions outer, headings inner) |
| DTSPNSolver.CreateSamples | data_collection/DTSPNSolver.py:77-87 | one row per goal, in goal order; every row has position_resolution·heading_resolution samples (none when a resolution is 0); sample k of row idx belongs to goal idx with steps (k / h, k mod h), so sample 0 has position step 0 and heading step 0 |
| DTSPNSolver.SampleAt | data_collection/DTSPNSolver.py:80-86 | in a full row, index sp·h + sh lies inside the row and holds position step sp and heading step sh |
| DTSPNSolver.SegmentEnds | data_collection/DTSPNSolver.py:45-48 | segment a starts at configuration a and ends at a + 1; the last segment returns to configuration 0 |
| DTSPNSolver.ConfigurationsToPath | data_collection/DTSPNSolver.py:42-55 | the path is `TourSamples` (the concatenation of the N segment samplings in pair order, sampled at step 0.01·turning_radius) and the length is `TourLength` (the sum of the N segment lengths); no configurations give an empty path of length 0 |
| DTSPNSolver.TourLengthNonNegative | data_collection/DTSPNSolver.py:51-54 | the summed length is non-negative whenever every Dubins length is |
| DTSPNSolver.EtspDistances | data_collection/DTSPNSolver.py:111-116 | a fresh N×N array whose entry [a, b] is the distance of goals a and b; zero diagonal when the distance is zero on equal goals, symmetric when the distance is symmetric; its rows are the matrix handed to the solver |
| DTSPNSolver.PickConfigurations | data_collection/DTSPNSolver.py:139-141 | one configuration per position of the goal sequence, configurations[idx] = samples[sequence[idx]][selected_samples[idx]] |
| DTSPNSolver.FirstSamplesVisitEachGoalOnce | data_collection/DTSPNSolver.py:137-141 | for a permutation of the N goals, the stitched configurations are N; each goal contributes exactly one, and every one has position step 0 and heading step 0 |
| DTSPNSolver.PlanTourDecoupled | data_collection/DTSPNSolver.py:108-143 | the result is the closed Dubins tour through the poses of sample 0 of every goal, in the order the TSP solver returns for the goal distance matrix; its length is non-negative when Dubins lengths are |
| DTSPNSolver.PlanTourNoonBean | data_collection/DTSPNSolver.py:164-185 | the result is the closed Dubins tour through the poses of sample 0 of every goal, in the given random order; its length is non-negative when Dubins lengths are |
| Permutations.PermutationCovers | data_collection/SOMSolver.py:174 | pigeonhole: a permutation of 0..N-1 contains every goal index below N |
| SOMSolver.AdaptMovesTowardsGoal | data_collection/SOMSolver.py:60-62 | gain 0 leaves a neuron in place, gain 1 puts it on the goal, and the squared distance to the goal is scaled by (1 − beta)² |
| SOMSolver.NeuronCount | data_collection/SOMSolver.py:103 | M = int(2.5·N) is the floor of 5N/2 (2M ≤ 5N < 2M + 2), hence M ≥ N |
| SOMSolver.SquaredStoppingTest | data_collection/SOMSolver.py:129-140 | for a non-negative error and spread, sqrt(error_sq) < max_error holds exactly when error_sq < max_error², the test the model makes |
| SOMSolver.EpochOwners | data_collection/SOMSolver.py:181-185 | the ring marks after an epoch over `order` on m neurons: the goal at position k marks neuron m − 1 − k, and the first m − \|order\| neurons stay free |
| SOMSolver.EpochInhibitsOnePerGoal | data_collection/SOMSolver.py:174-185 | with M ≥ N and a permutation of the N goals, the marks read in ring order are the order reversed: exactly N of them, pairwise distinct, covering every goal 0..N-1 |
| SOMSolver.ClosedTour | data_collection/SOMSolver.py:196-198 | the tour through the listed goals has the goal of position j at position j and repeats the first at the end: length k + 1 with first = last, or 0 when empty |
| SOMSolver.LastFreeIsLastUnmarked | data_collection/SOMSolver.py:154-160 | the stub selection over the ring's marks picks neuron f exactly when f is free and every neuron after it is marked |
| SOMSolver.LastFreeNoneWhenAllMarked | data_collection/SOMSolver.py:154-160 | the stub selection picks no neuron exactly when every neuron is marked |
| SOMSolver.ProgressExtends | data_collection/SOMSolver.py:181-189 | marking the neuron just before the k marked ones with order[k] and moving it once towards that goal gives the layout after k + 1 goals |
| SOMSolver.ProgressedPositions | data_collection/SOMSolver.py:174-189 | at the end of the goal loop the ring positions are `EpochPositions` of the start: the goal at position k of the order has moved neuron M − 1 − k by gain 0.1 towards itself, every other neuron is where it was |
| SOMSolver.EpochsRun | data_collection/SOMSolver.py:134-141 | the number of epochs the loop runs, counting from epoch e, lies between e and the number of epochs available |
| SOMSolver.EpochsRunIsFirstBelow | data_collection/SOMSolver.py:134-141 | if every epoch from e before `stop` has an error at or above the threshold, and `stop` is the last epoch or its error is below the threshold, then the loop runs exactly `stop` epochs |
| SOMSolver.EpochsRunStops | data_collection/SOMSolver.py:134-141 | conversely, the loop stops at the last epoch or at one whose error is below the threshold, and every earlier epoch has an error at or above it |
| SOMSolver.ErrorsUpToAreErrorsAfter | data_collection/SOMSolver.py:135-136 | entry d − 1 of the recorded errors is `ErrorAfter` epoch d, the squared error of the ring at `PositionsAfter` d epochs |
| SOMSolver.RunReachedStep | data_collection/SOMSolver.py:134-141 | when the last error is at or above the threshold, the next epoch runs and its error extends the record |
| SOMSolver.RunReachedEnd | data_collection/SOMSolver.py:134-141 | a record that ends below the threshold, or after the last epoch, is exactly `EpochsRun` long: every error but the last is at or above the threshold, the last below it unless every epoch ran |
| SOMSolver.ProgressStep | data_collection/SOMSolver.py:154-189 | part way through an epoch after k goals, the selection picks neuron M − 1 − k, and that turn extends the layout to k + 1 goals |
| SOMSolver.InhibitedOf | data_collection/SOMSolver.py:222-223 | exactly the marked neurons, in ring order: every marked neuron is kept, no unmarked one is, and the j-th kept neuron holds the j-th mark |
| SOMSolver.GoalPath | data_collection/SOMSolver.py:196-198 | the goal positions of the given neurons in their order, closed by repeating the first: element j is the goal position of neuron j, the last equals the first, length k + 1, or 0 when none |
| SOMSolver.InhibitedHoldTheirGoals | data_collection/SOMSolver.py:194-199 | when every marked neuron holds its goal's position, the goal path of the inhibited neurons is the closed tour through the goals of the marks in ring order |
| SOMSolver.MaxPresentIsMaximum | data_collection/SOMSolver.py:203-207 | the running max of the present squared errors is non-negative, no smaller than any of them, and equal to one of them unless it is 0 |
| SOMSolver.MaxSquaredErrorIsMaximum | data_collection/SOMSolver.py:203-207 | the error of the ring is non-negative, no smaller than the squared distance of any marked neuron to its goal position, and reached by one of them unless it is 0 |
| SOMSolver.Neuron.constructor | data_collection/SOMSolver.py:51-57 | a new neuron sits at the origin, with no goal position and no mark |
| SOMSolver.Neuron.AdaptNeuron | data_collection/SOMSolver.py:60-62 | the position moves to position + beta·(goal − position) per coordinate, x then y; the goal position and the mark are unchanged |
| SOMSolver.Neuron.UpdateGoalPosition | data_collection/SOMSolver.py:65-69 | the goal itself becomes the goal position and is returned, whatever the radius; nothing else changes |
| SOMSolver.CreateRing | data_collection/SOMSolver.py:118-124 | M fresh, pairwise distinct, unmarked neurons without goal position, neuron i at ring position i |
| SOMSolver.SOMSolver.constructor | data_collection/SOMSolver.py:75-88 | an empty solver: no goals, no neurons, sigma = N = 0, learning rate 0.5, decay rate 0.1 |
| SOMSolver.SOMSolver.SelectWinner | data_collection/SOMSolver.py:151-163 | the winner is `LastFree` of the marks before the call (the last free neuron, None when all are marked); the marks change only at the winner, which now carries the goal index; no position or goal position changes |
| SOMSolver.SOMSolver.ClearMarks | data_collection/SOMSolver.py:170-171 | every neuron loses its mark; positions and goal positions are unchanged |
| SOMSolver.SOMSolver.LearnGoal | data_collection/SOMSolver.py:182-189 | the winner is the last free neuron; the marks and positions of the ring change only at the winner, which gets the goal's mark and moves towards the goal with gain 0.1; the ring invariant is kept |
| SOMSolver.SOMSolver.AttractWinner | data_collection/SOMSolver.py:184-189 | the winner receives its goal position and moves towards it with gain 0.1; no mark changes, no other neuron moves, and the ring invariant is restored |
| SOMSolver.SOMSolver.LearnTurn | data_collection/SOMSolver.py:181-189 | one more goal of the order has marked and moved neuron M − 1 − k, extending the epoch's progress by one goal |
| SOMSolver.SOMSolver.LearnGoals | data_collection/SOMSolver.py:170-189 | after clearing and the goal loop, the goal at position k of the order marks neuron M − 1 − k, which moved once from its starting position towards that goal with gain 0.1; the first M − \|order\| neurons are free and unmoved |
| SOMSolver.SOMSolver.LearnEpoch | data_collection/SOMSolver.py:168-192 | the marks and moves of LearnGoals, and sigma multiplied by (1 − alpha) exactly once; no other field changes |
| SOMSolver.SOMSolver.GetInhibitedNeurons | data_collection/SOMSolver.py:222-223 | exactly the marked neurons of the ring, in ring order, the j-th holding the j-th mark |
| SOMSolver.SOMSolver.ReconstructPath | data_collection/SOMSolver.py:194-199 | the closed tour through the goals of the marks in ring order; every mark is a goal index |
| SOMSolver.SOMSolver.EpochTour | data_collection/SOMSolver.py:174-199 | after an epoch over a permutation of the goals, the marks are `EpochOwners(order, M)`, the marks in ring order are the order reversed, a permutation of the N goals, and the reconstructed path is the closed tour through every goal once (N + 1 points) |
| SOMSolver.SOMSolver.GetNeuronsPath | data_collection/SOMSolver.py:216-220 | every neuron position in ring order, closed by the first: length M + 1, or 0 for an empty ring |
| SOMSolver.SOMSolver.EpochErrorOfRing | data_collection/SOMSolver.py:202-209 | after an epoch over an order, the ring's squared error is the largest squared distance of the marked neurons (M − 1 − k for goal k of the order) to their goals |
| SOMSolver.SOMSolver.Statistics | data_collection/SOMSolver.py:202-209 | the scan returns the ring's squared error `MaxSquaredError` (the largest squared distance of a marked neuron to its goal position, 0 when none is marked): non-negative and no smaller than the squared distance of any marked neuron to its goal position |
| SOMSolver.SOMSolver.Epoch | data_collection/SOMSolver.py:135-136 | one epoch keeps the ring invariant, leaves the marks of the order (the layout `EpochOwners(order, M)` describes), moves the ring to `EpochPositions` of its old positions, decays sigma once and returns the ring's squared error, which is the largest squared goal distance of that layout |
| SOMSolver.SOMSolver.TrainEpoch | data_collection/SOMSolver.py:134-141 | an epoch run after an error at or above the threshold moves the loop state on by one epoch: the ring is at `PositionsAfter` one more epoch, carries its marks, and the error recorded is `ErrorAfter` that epoch |
| SOMSolver.SOMSolver.TrainedEnd | data_collection/SOMSolver.py:134-141 | when the loop ends, after an error below the threshold or after the last epoch, the epochs run are `EpochsRun`, the errors are `ErrorsUpTo` them, the ring is at `PositionsAfter` them and carries the last epoch's marks |
| SOMSolver.SOMSolver.Train | data_collection/SOMSolver.py:128-141 | between 1 and 120 epochs run, exactly `EpochsRun` of them (the first epoch whose error is below the threshold, or 120); the errors are `ErrorsUpTo` that epoch (the error after each epoch in turn); every error before the last is at or above the threshold, the last is the ring's error `MaxSquaredError` and is below the threshold unless all 120 ran; the ring is at `PositionsAfter` that many epochs and carries the marks of the last epoch's order |
| SOMSolver.SOMSolver.Reset | data_collection/SOMSolver.py:98-124 | goals and radius stored, N = number of goals, M neurons, fresh and unmarked at the ring positions; sigma = N, learning rate 0.5, decay rate 0.1 |
| SOMSolver.SOMSolver.PlanTour | data_collection/SOMSolver.py:90-149 | the epochs run are exactly `EpochsRun` from the given ring (at most 120, stopping right after the first error below max_error²), the errors are `ErrorsUpTo` that epoch, the final ring is `PositionsAfter` those epochs, and the returned tour is the closed tour through the goals of the last epoch's order reversed: every goal exactly once, back to its first point (N + 1 points) |
| Messages.Lookup | messages/Message.py:33-36 | the value of the keyword with the given name, None exactly when no keyword has that name |
| Messages.FirstUnknown | messages/Message.py:27-29 | the first keyword, in call order, that is not an attribute; None exactly when every keyword is an attribute |
| Messages.InitSucceedsIff | messages/Message.py:14-29 | construction succeeds iff the arguments are not mixed, a positional call has one argument per attribute and a keyword call names only attributes; mixed arguments give the TypeError, a wrong count gives the arity TypeError, and an unknown keyword gives an AttributeError naming the first unknown keyword |
| Messages.PositionalFields | messages/Message.py:18-23 | with the right count and distinct attributes, attribute i receives args[i] and no other attribute is set |
| Messages.KeywordFields | messages/Message.py:31-36 | a keyword call naming only attributes, including a call with no arguments, sets every declared attribute to its keyword's value, or to None when no keyword names it |
| Messages.AssignedLast | messages/Message.py:22-23 | when attributes are assigned in turn, each receives the value assigned to it last |
| Messages.CheckKeywords | messages/Message.py:27-29 | the validation loop reports the first keyword that is not an attribute, before anything is assigned |
| Messages.Message.SetPositional | messages/Message.py:22-23 | the attributes are assigned args[i] in declared order |
| Messages.Message.SetKeywords | messages/Message.py:32-36 | the attributes are assigned, in declared order, their keyword's value or None |
| Messages.Create | messages/Message.py:10-36 | succeeds exactly when `InitFields` does: a fresh record with exactly the attribute map `InitFields` gives, or else `InitFields`' error (the one the constructor raises), with nothing assigned |
| Messages.SectionLayout | messages/Message.py:41-48 | an attribute's section is `name:`, then a newline exactly when the text holds ':', then the text; it ends in a newline, which is added only when the text does not already end in one |
| Messages.Render | messages/Message.py:38-50 | the rendering of a non-empty attribute list ends in a newline; no attributes give the empty string |
| Messages.RenderPrefix | messages/Message.py:41 | sections appear in declared attribute order: the rendering of the first k attributes is a prefix of the whole |
| Messages.AppendSection | messages/Message.py:42-48 | one turn of the loop appends exactly `Section(name, text)`, the attribute's section laid out as `SectionLayout` states |
| Messages.Message.ToString | messages/Message.py:38-50 | the string is the sections of all attributes in declared order, each with the text of its value ("None" when unset) |

## Left out

- Floating-point geometry: the pose conversions and the cos/sin positions and headings of the samples and of the initial ellipse. Samples are (goal, position step, heading step); the pose of a sample is the `configuration` parameter of the planners. The ellipse positions and the per-axis spread of the goals enter `PlanTour` as inputs (`ring`, `dev`).
- The Dubins primitive, the TSP solver and the goal distance (`norm`) are function parameters. The solver's promise to return a permutation is a precondition of `PlanTourDecoupled`, because the source does not check it.
- Randomness: the per-epoch goal orders of the SOM solver and the Noon-Bean order are input permutations.
- The neighbourhood function `exp(-d²/σ²)` and the `betas` computed from it. The source never uses them, so sigma is modelled only through its decay.
- The square root in `statistics`: the model compares the squared error with max_error². `SquaredStoppingTest` shows that this is the same test for a non-negative spread, which `PlanTour` requires (the spread is a standard deviation).
- The temporary attributes `gx` and `gy` that `learn_epoch` sets to None: nothing reads them.
- Printing and timing in `statistics`, animation in `plan_tour`, and plotting.
- Wrapping the SOM tour into `Path`/`Pose` messages (SOMSolver.py:144-147): `PlanTour` returns the point sequence. Quaternion, Vector3, Pose and the other message subclasses are not part of this model. This includes the subclasses that call the base constructor with positional arguments only.
- The distance matrix that `plan_tour_noon_bean` allocates but never fills: it is allocated in the model and then ignored, as in the source.
- SOMSolver.SOMSolver.PlanTour: requires at least one goal. With none, the source fails with a TypeError when it takes max over the scalar spread, before any epoch runs.
- SOMSolver.SOMSolver.PlanTour: does not state the final sigma (N·0.9^epochs). `LearnEpoch` and `Epoch` state the decay for each epoch.
- SOMSolver.SOMSolver.LearnEpoch: decays sigma before the goal loop instead of after it. The loop never reads sigma, so the resulting state is the same.
- SOMSolver.Neuron.AdaptNeuron: positions are real from construction on. The source creates a neuron at the integer array (0, 0), and adapt_neuron writes into that array in place, so on a neuron that has not been placed yet it truncates each new coordinate to an integer: gain 0.1 towards (5, 5) leaves it at (0, 0), where the model moves it to (0.5, 0.5). plan_tour places every neuron on the ellipse, as a float array, before any adaptation, so `PlanTour` is unaffected.
- SOMSolver.SOMSolver.SelectWinner: returns None where the source fails by indexing the ring with None. That cannot happen inside `PlanTour`, since M ≥ N.
- Messages.Message.ToString: requires every declared attribute to be set. The source would raise AttributeError from `getattr` otherwise, which cannot happen after a successful construction.
- Messages: a Python value and its `str` are a type parameter and a `show` function. Keyword arguments are a sequence of (name, value) pairs in call order.
- The model follows the code as written, stubs included:
  - the ring has int(2.5·N) neurons, the floor, not the ceiling;
  - the winner is the last free neuron, not the nearest one;
  - the alternate goal position is the goal itself;
  - the winner moves with gain 0.1, not `mi`, and no other neuron moves;
  - the decoupled planner always takes sample 0;
  - the Noon-Bean planner uses a random order instead of the transformation;
  - the SOM tour is the current ring's tour, not a best-so-far;
  - there are no checks of resolutions, the turning radius or the solver result, so a zero resolution gives empty rows.
