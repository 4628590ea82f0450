# Student-to-group assignment with CP-SAT, modelled in Dafny

`solve_assignment` (src/assignment/solver.py) places students into groups. It builds a CP-SAT
model in four steps:

- one Boolean `x[s, g]` per student and each group that student may join;
- every student in exactly one group;
- every group filled to exactly its size;
- excluded pairs never together.

Each criterion configured on a group adds a scaled group sum. A `constraint` criterion adds a
threshold on that sum. A `minimize` or `maximize` criterion adds a one-sided squared penalty
against a target. The sum of the penalties is minimised. The engine is called once. The true
variables come back as assignment records sorted by student id.

The project models this in the same form, file by file:

- `models.dfy`: the request and response records.
- `scaling.dfy`: the fixed-point codec `int(v * SCALING_FACTOR)`, with truncation toward zero.
- `penalty.dfy`: the squared penalties as integer functions.
- `cpsat.dfy`:
  - the constraint language and what a solution is;
  - the mutable `CpModel` object the solver fills in;
  - the engine's contract.
- `encoding.dfy`: the model `solve_assignment` builds, as functions of the request.
- `solver.dfy`: `solve_assignment` itself, as imperative methods. It has loops that post to the
  `CpModel` object, an in-place sort of the records, and one call of the engine. Each method is
  proved to build exactly what the `encoding.dfy` functions describe.
- `hard.dfy`: what the uniqueness, capacity and exclusion constraints mean for a placement.
- `criteria.dfy`: what the criterion constraints mean. A placement extends to a solution of them
  exactly when its group sums meet their bounds and thresholds. The squared-penalty variables
  then hold the placement's penalties.
- `properties.dfy`: the whole model is sound and complete for feasible placements, and its
  objective is the placement's total penalty. Consequences:
  - an OPTIMAL answer is a cheapest feasible placement;
  - the records read back describe a feasible placement;
  - certain requests can never be solved.
- `seqs.dfy`: sequence identities used by the proofs.

The engine is a parameter `engine: Formulation -> EngineAnswer`. What is proved about its answer
assumes `Sound`:

- a solved status (OPTIMAL or FEASIBLE) comes with a valuation that satisfies every posted
  constraint;
- OPTIMAL also minimises the objective.

### Two behaviours of the code a reader might not expect

- **Rounding.** Scaled values, thresholds and targets use Python's `int(...)`
  (solver.py:49, 59, 66, 83). That truncates toward zero; it does not round.
  `Scaling.ScaleRoundTrip` proves the consequence: a descaled value lies within 1/10000 *below*
  the exact value, never above it.
- **Empty eligible list.** A student whose eligible list is empty is not short-circuited. The code
  posts `sum([]) == 1` (solver.py:17-18) and calls the engine anyway. `Properties.EmptyListNeverSolved`
  proves that such a model is never reported solved, so the output is empty with whatever
  unsolved status the engine reports. Only a group nobody may join that has a positive size
  returns `INFEASIBLE` without the engine (solver.py:23-26).

## Model

| member | source | states |
|---|---|---|
| Scaling.Trunc | src/assignment/solver.py:49 | `int(x)` truncates toward zero: for x ≥ 0 the result is the largest integer ≤ x; for x < 0, the smallest ≥ x |
| Scaling.Scale | src/assignment/solver.py:49 | a value in [0, 1] scales to an integer in [0, 10000] |
| Scaling.ScaledShare | src/assignment/solver.py:59 | a ratio or target in [0, 1] of a group of size n scales into [0, 10000·n]; a zero ratio or zero size gives 0 |
| Scaling.ScaleRoundTrip | src/assignment/solver.py:49 | scaling then descaling loses less than 1/10000 and never overshoots |
| Penalty.MinimizePenalty | src/assignment/solver.py:68-77 | the minimize penalty is ≥ 0, is 0 exactly when the sum is at or below the target, and is at least the overshoot otherwise |
| Penalty.MaximizePenalty | src/assignment/solver.py:85-93 | the maximize penalty is ≥ 0, is 0 exactly when the sum is at or above the target, and is at least the shortfall otherwise |
| Penalty.PenaltiesMirror | src/assignment/solver.py:68-93 | the maximize penalty is the minimize penalty reflected around the target |
| Penalty.MinimizePenaltyMonotone | src/assignment/solver.py:68-77 | a larger group sum never lowers the minimize penalty |
| Penalty.MaximizePenaltyMonotone | src/assignment/solver.py:85-93 | a smaller group sum never lowers the maximize penalty |
| Penalty.SquaredPenaltyPrefersSpread | src/assignment/solver.py:75-77 | with squared penalties, one deviation of d1 + d2 costs at least as much as deviations d1 and d2 in two groups |
| CpSat.Count | src/assignment/solver.py:18 | a 0/1 sum is at most the number of terms, and is 0 exactly when no term is true |
| CpSat.Optimum | src/assignment/solver.py:96-101 | defines an optimal answer: a solution whose objective sum is no larger than that of any other solution (any solution when no objective is set) |
| CpSat.Sound | src/assignment/solver.py:100-101 | defines the engine's contract for one `solver.Solve(model)`: OPTIMAL or FEASIBLE comes with a solution, OPTIMAL with an optimal one |
| CpSat.StatusName | src/assignment/solver.py:109-111 | defines `solver.StatusName`: the upper-case name of each terminal status |
| CpSat.UnsatisfiableNeverSolved | src/assignment/solver.py:100-103 | a model containing a constraint no valuation meets is never reported OPTIMAL or FEASIBLE by a sound engine |
| CpSat.CpModel.constructor | src/assignment/solver.py:8 | a new model has no variables, no constraints and no objective |
| CpSat.CpModel.NewIntVar | src/assignment/solver.py:52 | creates the next integer variable with the given domain and changes nothing else |
| CpSat.CpModel.Add | src/assignment/solver.py:18 | appends one constraint and changes nothing else |
| CpSat.CpModel.AddMaxEquality | src/assignment/solver.py:73 | appends `target == max(a, b)` and changes nothing else (also used at line 90) |
| CpSat.CpModel.AddMultiplicationEquality | src/assignment/solver.py:77 | appends `target == a * b` and changes nothing else (also used at line 93) |
| CpSat.CpModel.Minimize | src/assignment/solver.py:97-98 | sets the objective to the sum of the given variables |
| Encoding.InsertKey | src/assignment/solver.py:14 | assigning `x[k]` keeps each key once, keeps the existing order, and appends a new key |
| Encoding.AddStudentKeys | src/assignment/solver.py:13-14 | one student's loop adds exactly its (id, group) keys to the table and keeps the keys distinct |
| Encoding.VariableTable | src/assignment/solver.py:11-14 | the table's keys are distinct and are exactly the eligible (student, group) pairs |
| Encoding.Eligible | src/assignment/solver.py:22 | the relevant students of a group are exactly those listing it, in request order |
| Encoding.UniquenessConstraints | src/assignment/solver.py:17-18 | defines one `sum(x[s.id, g] for g in s.possible_groups) == 1` per student, in request order, also for an empty list |
| Encoding.Blocked | src/assignment/solver.py:22-25 | defines a group that stops the solver: nobody may join it and its size is positive |
| Encoding.ShortCircuits | src/assignment/solver.py:21-26 | defines when `INFEASIBLE` is returned before any search: some group is blocked |
| Encoding.CapacityConstraint | src/assignment/solver.py:22-28 | defines one group's `sum(relevant_student_vars) == g.size`, and no constraint when nobody may join it |
| Encoding.CapacityConstraints | src/assignment/solver.py:21-28 | defines the capacity constraints of all groups, in group order |
| Encoding.PairConstraints | src/assignment/solver.py:35-37 | defines `x[s1, g] + x[s2, g] <= 1` for each group, in order, where both variables exist |
| Encoding.ExclusionConstraints | src/assignment/solver.py:31-37 | defines the pair constraints of every exclusion list: a list with fewer than two ids is skipped, and only the first two ids of a longer one are read |
| Encoding.ValueOf | src/assignment/solver.py:49 | defines `s.values.get(name, 0)` |
| Encoding.ScaledValue | src/assignment/solver.py:49 | a missing attribute counts 0; a value in [0, 1] scales into [0, 10000] |
| Encoding.Put | src/assignment/solver.py:49 | defines storing `d[k] = w` in an insertion-ordered dict: an existing key keeps its place and takes the new value, a new key goes to the end |
| Encoding.PutFresh | src/assignment/solver.py:49 | storing a new key in the scaled-values dict appends it at the end |
| Encoding.ScaledVals | src/assignment/solver.py:49 | defines the dict comprehension `scaled_vals`, built entry by entry with `Put` |
| Encoding.ScaledValsOfDistinctIds | src/assignment/solver.py:49 | with distinct student ids the dict has one entry per relevant student, in request order, holding that student's scaled value |
| Encoding.WithGroupSum | src/assignment/solver.py:52-53 | posting `group_sum` only appends one variable and one constraint |
| Encoding.WithPenalty | src/assignment/solver.py:69-78 | posting `diff`, `penalty` and `penalty_sq` only appends to the model and the penalty list |
| Encoding.EncodeCriterion | src/assignment/solver.py:44-94 | one criterion only appends to the model; a `constraint` criterion adds no penalty |
| Encoding.EncodeCriteria | src/assignment/solver.py:43-94 | the criteria of a group only append to the model |
| Encoding.EncodeGroups | src/assignment/solver.py:42-94 | the criteria of all groups only append to the model |
| Encoding.Formulate | src/assignment/solver.py:7-98 | defines the model handed to the engine: the hard constraints, then each group's criteria in order, with the objective set to the sum of the penalties only when there is one |
| Encoding.Selected | src/assignment/solver.py:103-107 | a record is read back exactly when its key is in the table and true; distinct keys give distinct records |
| HardSemantics.UniquenessMeaning | src/assignment/solver.py:17-18 | the uniqueness constraints hold exactly when every student's 0/1 sum over its list is 1 |
| HardSemantics.PlacedOnce | src/assignment/solver.py:17-18 | a student whose sum is 1 is in exactly one group of its list |
| HardSemantics.EmptyListUnsatisfiable | src/assignment/solver.py:17-18 | a student with an empty list makes the uniqueness constraints unsatisfiable |
| HardSemantics.EmptyGroupPostsNothing | src/assignment/solver.py:23-27 | a group nobody may join gets no capacity constraint |
| HardSemantics.GroupFilledMeaning | src/assignment/solver.py:22-28 | one group's capacity constraint holds exactly when the group receives exactly `size` eligible students (or nobody may join it) |
| HardSemantics.CapacityMeaning | src/assignment/solver.py:21-28 | the capacity constraints hold exactly when every group is filled as above |
| HardSemantics.PairConstraintMeaning | src/assignment/solver.py:37 | `x1 + x2 <= 1` holds exactly when not both are placed |
| HardSemantics.PairMeaning | src/assignment/solver.py:35-37 | one pair's constraints hold exactly when the two students never share a group in which both may be |
| HardSemantics.ExclusionMeaning | src/assignment/solver.py:31-37 | the exclusion constraints hold exactly when every list of two or more ids keeps its first two ids apart |
| HardSemantics.HardMeaning | src/assignment/solver.py:16-37 | all hard constraints hold exactly when uniqueness, capacity and exclusion are met |
| CriteriaSemantics.PenaltyChainSound | src/assignment/solver.py:69-77 | in any solution, `penalty_sq` equals max(0, diff)² and diff lies in its domain |
| CriteriaSemantics.GroupSumSound | src/assignment/solver.py:52-53 | in any solution, `group_sum` equals the weighted sum of the placed eligible students and lies in [0, 10000·size] |
| CriteriaSemantics.ThresholdSound | src/assignment/solver.py:55-60 | a solution meets a `constraint` criterion's threshold and adds no penalty |
| CriteriaSemantics.MinimizeSound | src/assignment/solver.py:62-78 | a solution's new penalty variable holds max(0, sum − target)², and the deviation stays in range |
| CriteriaSemantics.MaximizeSound | src/assignment/solver.py:80-94 | a solution's new penalty variable holds max(0, target − sum)², and the deviation stays in range |
| CriteriaSemantics.CriterionSound | src/assignment/solver.py:44-94 | a solution meets one criterion, and its new penalty variables hold that criterion's penalties |
| CriteriaSemantics.CriteriaSound | src/assignment/solver.py:43-94 | a solution meets every criterion of a group, and its penalty variables hold their penalties in order |
| CriteriaSemantics.GroupsSound | src/assignment/solver.py:42-94 | a solution meets every criterion of every group, and its penalty variables hold all penalties in order |
| CriteriaSemantics.PenaltyChainComplete | src/assignment/solver.py:69-77 | setting diff, its positive part and its square satisfies the penalty chain whenever diff is within the bound |
| CriteriaSemantics.GroupSumComplete | src/assignment/solver.py:52-53 | setting `group_sum` to the weighted sum satisfies its constraint when the sum is in range |
| CriteriaSemantics.ThresholdComplete | src/assignment/solver.py:55-60 | a placement meeting the threshold satisfies what a `constraint` criterion posts |
| CriteriaSemantics.MinimizeComplete | src/assignment/solver.py:62-78 | a placement within range of the target satisfies what a `minimize` criterion posts |
| CriteriaSemantics.MaximizeComplete | src/assignment/solver.py:80-94 | a placement within range of the target satisfies what a `maximize` criterion posts |
| CriteriaSemantics.CriterionComplete | src/assignment/solver.py:44-94 | a placement meeting a criterion, with its variables set, satisfies everything that criterion posts |
| CriteriaSemantics.CriteriaComplete | src/assignment/solver.py:43-94 | the same for all criteria of a group |
| CriteriaSemantics.GroupsComplete | src/assignment/solver.py:42-94 | the same for all groups |
| CriteriaSemantics.AllWitnessFits | src/assignment/solver.py:42-94 | the values listed in creation order set every criterion variable as the completeness lemmas require |
| Properties.CostNonNegative | src/assignment/solver.py:96-98 | the sum of the squared penalties of any placement is ≥ 0 |
| Properties.FormulationSound | src/assignment/solver.py:7-98 | every solution of the model places students feasibly; the objective is set exactly when there are penalties, and then equals the placement's total penalty |
| Properties.FormulationComplete | src/assignment/solver.py:7-98 | every feasible placement extends to a solution of the model |
| Properties.OptimumIsCheapest | src/assignment/solver.py:96-101 | an optimal solution's placement costs no more than any feasible placement |
| Properties.NoFeasiblePlacementNeverSolved | src/assignment/solver.py:100-103 | without a feasible placement, a sound engine never reports the model solved |
| Properties.EmptyListNeverSolved | src/assignment/solver.py:17-18 | a student with an empty list makes every answer of a sound engine unsolved |
| Properties.ExcludedPairInOnlyGroupIsInfeasible | src/assignment/solver.py:16-37 | for any request: if two students have the same single group as their only possible group and an exclusion list names them first and second, no placement is feasible (uniqueness forces both into it, the exclusion forbids it) |
| Properties.ExcludedPairRequestIsInfeasible | src/assignment/solver.py:16-37 | a concrete request of that shape (students 1 and 2, both only in group 7, excluded from each other) has no feasible placement |
| Properties.GroupSumAgree | src/assignment/solver.py:49-53 | a group sum reads only variables of the table |
| Properties.HardMetAgree | src/assignment/solver.py:16-37 | the hard constraints read only variables of the table |
| Properties.GroupsAgree | src/assignment/solver.py:42-94 | the criteria and penalties read only variables of the table |
| Properties.FeasibleAgree | src/assignment/solver.py:11-94 | placements agreeing on the table are equally feasible and cost the same |
| Properties.SelectedRecords | src/assignment/solver.py:103-108 | any reordering of the records read back holds only table keys and describes the solution's placement on the table |
| Properties.EveryStudentPlacedOnce | src/assignment/solver.py:17-18 | under the hard constraints every student is in exactly one group of its list |
| Properties.OutputValid | src/assignment/solver.py:103-109 | the records read from a solution describe a feasible placement of the same cost, with each student in exactly one group of its list |
| Properties.AnswerValid | src/assignment/solver.py:100-109 | a solved answer of a sound engine yields valid records; an OPTIMAL one yields records no feasible placement undercuts |
| Solver.AllocateVariables | src/assignment/solver.py:11-14 | the loop builds exactly the variable table: distinct keys, one per eligible pair |
| Solver.PostUniqueness | src/assignment/solver.py:17-18 | appends exactly the uniqueness constraints |
| Solver.PostCapacity | src/assignment/solver.py:21-28 | reports blocked exactly when some group nobody may join has positive size; otherwise appends exactly the capacity constraints |
| Solver.PostPair | src/assignment/solver.py:35-37 | appends exactly one pair's exclusion constraints |
| Solver.PostExclusions | src/assignment/solver.py:31-37 | appends exactly the exclusion constraints |
| Solver.PostGroupSum | src/assignment/solver.py:49-53 | creates `group_sum` and posts its defining constraint, as the encoding does |
| Solver.PostPenalty | src/assignment/solver.py:69-78 | creates diff, penalty and penalty_sq, posts their constraints and returns penalty_sq, as the encoding does |
| Solver.PostCriterion | src/assignment/solver.py:44-94 | leaves the model and penalty list exactly as the encoding of one criterion says |
| Solver.PostCriteria | src/assignment/solver.py:42-94 | leaves the model and penalty list exactly as the encoding of all criteria says |
| Solver.CollectAssignments | src/assignment/solver.py:104-107 | collects exactly the true table variables, in table order |
| Solver.SortByStudentId | src/assignment/solver.py:108 | sorts the records in place by student id, as a permutation, and stably: each student's records keep their relative order |
| Solver.StableSortIsUnique | src/assignment/solver.py:108 | two sequences sorted by student id that list each student's records in the same order are equal, so the sorted output is fixed by the records read back |
| Solver.MapResult | src/assignment/solver.py:103-111 | a solved status gives the true records sorted by student id, each student's records in table order; any other status gives none; the status name is passed through |
| Solver.SolveAssignment | src/assignment/solver.py:7-111 | See the list after this table. |

`Solver.SolveAssignment` states:

- a short-circuited request answers ([], "INFEASIBLE") whatever the engine would say;
- otherwise the engine receives exactly the model built by `Encoding.Formulate`, and its status name is passed through;
- a solved answer gives the records of the true variables, sorted by student id, with each student's records in table order (by `Solver.StableSortIsUnique`, this fixes the output sequence);
- with a sound engine, those records are valid;
- with a sound engine, OPTIMAL records are a cheapest feasible placement.

## Left out

- The HTTP layer (src/assignment/main.py) and the input validation of src/assignment/models.py are not part of this model. `numStudents` and `numGroups` are carried but, as in the code, never read.
- The CP-SAT search is not modelled. The engine is a parameter and only its contract (`CpSat.Sound`) is assumed.
- Time limits, worker threads and the engine's own status reasons are not modelled. UNKNOWN and MODEL_INVALID are just statuses that are not solved.
- Exceptions the code can raise are not modelled; the model is total and always returns an output where the program would raise (and end with exit status 1 or HTTP 500):
  - `int(...)` at solver.py:49, 59, 66 and 83 raises OverflowError on an infinite value and ValueError on NaN; the JSON reader and the request models accept both;
  - OR-Tools keeps domains and coefficients within 64 bits: `NewIntVar(0, (SCALING_FACTOR * g.size)**2)` at solver.py:76 and 92 raises once `g.size` exceeds about 303,700, and a scaled value above 2^63 raises at solver.py:53. The model's integers are unbounded.
- Floating point: request values are exact reals. `int(v * 10000)` truncates the exact product, so IEEE-754 rounding of the product is not captured.
- Variable names (`f'x_s{...}'`, `f'sum_{...}'`, ...) are not modelled: variables are identified by key or index.
- Assigning `x[s.id, g_id]` a second time, for a repeated student id or group, leaves an unused Boolean variable in the model. That variable is not modelled, since no constraint mentions it.
- CriteriaSemantics.CriterionMet: the domains of `group_sum` ([0, 10000·size]) and of `diff` ([−10000·size, 10000·size]) are part of what a criterion demands. So a placement whose group sum falls outside them is infeasible, exactly as for the engine.
