/** What the whole model built by `solve_assignment` (src/assignment/solver.py:7-98) means:
    its solutions are exactly the placements that meet the hard constraints and the criteria,
    its objective is the sum of the squared penalties of the placement, and the records read
    back from a solution (solver.py:103-111) describe such a placement. */
module Properties {
  import opened Models
  import opened CpSat
  import opened Encoding
  import opened Penalty
  import opened HardSemantics
  import opened CriteriaSemantics

  /** The encoder's starting point: the hard constraints, no integer variable, no penalty. */
  function Start(data: ProblemInput): EncState
  {
    EncState(Formulation([], HardConstraints(data), None), [])
  }

  /** A placement the request accepts: hard constraints and every criterion met. */
  ghost predicate FeasiblePlacement(data: ProblemInput, x: Key -> bool)
  {
    HardMet(data, x) && AllCriteriaMet(data.students, data.groups, x)
  }

  /** What a placement costs: the sum of its squared penalties. */
  function Cost(data: ProblemInput, x: Key -> bool): int
  {
    Sum(AllPenalties(data.students, data.groups, x))
  }

  // ---------------------------------------------------------------------------------------
  // The objective never goes negative
  // ---------------------------------------------------------------------------------------

  lemma {:induction false} CriteriaCostNonNegative(ss: seq<StudentConfig>, g: GroupConfig, cs: seq<(string, CriterionConfig)>, x: Key -> bool)
    ensures Sum(CriteriaPenalties(ss, g, cs, x)) >= 0
  {
    if cs != [] {
      var pre, c := cs[..|cs| - 1], cs[|cs| - 1];
      CriteriaCostNonNegative(ss, g, pre, x);
      SumAppend(CriteriaPenalties(ss, g, pre, x), CriterionPenalty(ss, g, c.0, c.1, x));
    }
  }

  lemma {:induction false} CostNonNegative(data: ProblemInput, x: Key -> bool)
    ensures Cost(data, x) >= 0
    decreases |data.groups|
  {
    var gs := data.groups;
    if gs != [] {
      var pre, g := gs[..|gs| - 1], gs[|gs| - 1];
      CostNonNegative(data.(groups := pre), x);
      CriteriaCostNonNegative(data.students, g, g.criteria, x);
      SumAppend(AllPenalties(data.students, pre, x), CriteriaPenalties(data.students, g, g.criteria, x));
    }
  }

  // ---------------------------------------------------------------------------------------
  // Soundness and completeness of the whole model
  // ---------------------------------------------------------------------------------------

  /** Every solution of the model places the students feasibly; the objective is set exactly
      when the placement has penalties to pay, and then its value is the placement's cost. */
  lemma FormulationSound(data: ProblemInput, v: Valuation)
    requires Satisfies(Formulate(data), v)
    ensures FeasiblePlacement(data, v.x)
    ensures Formulate(data).objective.None? <==> AllPenalties(data.students, data.groups, v.x) == []
    ensures Formulate(data).objective.Some? ==> SumOf(Formulate(data).objective.value, v) == Cost(data, v.x)
  {
    var st := Start(data);
    var r := EncodeGroups(st, data.students, data.groups);
    GroupsSound(st, data.students, data.groups, v);
    assert Values(r.penalties, v) == AllPenalties(data.students, data.groups, v.x) by {
      assert Values(st.penalties, v) == [];
    }
    ExtendsKeepsSolutions(st, r, v);
    HardMeaning(data, v);
    SumOfIsSumOfValues(r.penalties, v);
  }

  /** Every feasible placement is the placement part of some solution of the model. */
  lemma FormulationComplete(data: ProblemInput, x: Key -> bool)
    requires FeasiblePlacement(data, x)
    ensures exists iv :: Satisfies(Formulate(data), Valuation(x, iv))
  {
    var w := AllWitness(data.students, data.groups, x);
    var v := Valuation(x, Lookup(w));
    assert Carries(v, 0, w);
    AllWitnessFits(v, 0, data.students, data.groups);
    HardMeaning(data, v);
    GroupsComplete(Start(data), data.students, data.groups, v);
  }

  /** A solution the engine reports as optimal places the students at the least cost any
      feasible placement has. */
  lemma OptimumIsCheapest(data: ProblemInput, v: Valuation, y: Key -> bool)
    requires Optimum(Formulate(data), v)
    requires FeasiblePlacement(data, y)
    ensures Cost(data, v.x) <= Cost(data, y)
  {
    var f := Formulate(data);
    FormulationComplete(data, y);
    var iv :| Satisfies(f, Valuation(y, iv));
    FormulationSound(data, v);
    FormulationSound(data, Valuation(y, iv));
  }

  /** When some feasible placement exists nowhere, an engine that keeps its contract never
      reports the model solved. */
  lemma NoFeasiblePlacementNeverSolved(data: ProblemInput, a: EngineAnswer)
    requires Sound(Formulate(data), a)
    requires forall x :: !FeasiblePlacement(data, x)
    ensures !Solved(a.status)
  {
    if Solved(a.status) {
      FormulationSound(data, a.value);
    }
  }

  /** A student with an empty eligible list is not short-circuited: the request reaches the
      engine, whose answer can only be unsolved. */
  lemma EmptyListNeverSolved(data: ProblemInput, i: nat, a: EngineAnswer)
    requires i < |data.students| && data.students[i].possibleGroups == []
    requires Sound(Formulate(data), a)
    ensures !Solved(a.status)
  {
    forall x ensures !FeasiblePlacement(data, x) {
      EmptyListUnsatisfiable(data.students, i, Valuation(x, _ => 0));
      HardMeaning(data, Valuation(x, _ => 0));
    }
    NoFeasiblePlacementNeverSolved(data, a);
  }

  /** Two students whose only possible group is the same group of the request, named first and
      second in an exclusion list: uniqueness puts both in that group and the exclusion forbids
      it, so no placement is feasible, whatever the group sizes. */
  lemma ExcludedPairInOnlyGroupIsInfeasible(data: ProblemInput, i: nat, j: nat, k: nat, e: nat, x: Key -> bool)
    requires i < |data.students| && j < |data.students| && k < |data.groups| && e < |data.exclude|
    requires data.students[i].possibleGroups == [data.groups[k].id]
    requires data.students[j].possibleGroups == [data.groups[k].id]
    requires |data.exclude[e]| >= 2
    requires data.exclude[e][0] == data.students[i].id && data.exclude[e][1] == data.students[j].id
    ensures !FeasiblePlacement(data, x)
  {
    var ss, t, gid := data.students, VariableTable(data.students), data.groups[k].id;
    if UniquenessMet(ss, x) {
      PlacedOnce(ss[i], x);
      PlacedOnce(ss[j], x);
      assert x((ss[i].id, gid)) && x((ss[j].id, gid));
      assert ss[i] in ss && ss[j] in ss;
      assert EligiblePair(ss, (ss[i].id, gid)) && EligiblePair(ss, (ss[j].id, gid));
      assert !Apart(t, ss[i].id, ss[j].id, data.groups, x);
      assert !KeptApart(t, data.exclude[e], data.groups, x);
    }
  }

  /** Two students, ids 1 and 2, whose only possible group is group 7 of size two, with an
      exclusion between them. */
  function ExcludedPairRequest(): ProblemInput
  {
    ProblemInput(2, 1, [GroupConfig(7, 2, [])],
                 [StudentConfig(1, [7], map[]), StudentConfig(2, [7], map[])],
                 [[1, 2]])
  }

  /** That request is an instance: it has no feasible placement. */
  lemma ExcludedPairRequestIsInfeasible(x: Key -> bool)
    ensures !FeasiblePlacement(ExcludedPairRequest(), x)
  {
    ExcludedPairInOnlyGroupIsInfeasible(ExcludedPairRequest(), 0, 1, 0, 0, x);
  }

  // ---------------------------------------------------------------------------------------
  // Only the variables of the table matter
  // ---------------------------------------------------------------------------------------

  /** x and y give the same value to every variable of the table t. */
  ghost predicate Agree(t: seq<Key>, x: Key -> bool, y: Key -> bool)
  {
    forall k :: k in t ==> x(k) == y(k)
  }

  lemma {:induction false} CountAgree(ks: seq<Key>, x: Key -> bool, y: Key -> bool)
    requires forall i :: 0 <= i < |ks| ==> x(ks[i]) == y(ks[i])
    ensures Count(ks, x) == Count(ks, y)
  {
    if ks != [] {
      assert x(ks[0]) == y(ks[0]);
      CountAgree(ks[1..], x, y);
    }
  }

  lemma {:induction false} WeightedSumAgree(terms: seq<(int, Key)>, x: Key -> bool, y: Key -> bool)
    requires forall i :: 0 <= i < |terms| ==> x(terms[i].1) == y(terms[i].1)
    ensures WeightedSum(terms, x) == WeightedSum(terms, y)
  {
    if terms != [] {
      assert x(terms[0].1) == y(terms[0].1);
      WeightedSumAgree(terms[1..], x, y);
    }
  }

  lemma {:induction false} PutIds(d: seq<(int, int)>, k: int, w: int)
    ensures forall j :: j in Ids(Put(d, k, w)) ==> j in Ids(d) || j == k
  {
    if d != [] {
      if d[0].0 == k {
        assert Ids(Put(d, k, w)) == [k] + Ids(d[1..]) by {
          assert Put(d, k, w)[1..] == d[1..];
        }
      } else {
        PutIds(d[1..], k, w);
        assert Ids(Put(d, k, w)) == [d[0].0] + Ids(Put(d[1..], k, w)) by {
          assert Put(d, k, w)[1..] == Put(d[1..], k, w);
        }
      }
    }
  }

  /** The dict of scaled values has a key only for a student of the list. */
  lemma {:induction false} ScaledValsIds(ss: seq<StudentConfig>, name: string)
    ensures forall j :: j in Ids(ScaledVals(ss, name)) ==> exists s :: s in ss && s.id == j
  {
    if ss != [] {
      var pre := ss[..|ss| - 1];
      ScaledValsIds(pre, name);
      PutIds(ScaledVals(pre, name), ss[|ss| - 1].id, ScaledValue(ss[|ss| - 1], name));
      forall j | j in Ids(ScaledVals(ss, name)) ensures exists s :: s in ss && s.id == j {
        if j != ss[|ss| - 1].id {
          var s :| s in pre && s.id == j;
          assert s in ss;
        }
      }
    }
  }

  lemma GroupSumAgree(ss: seq<StudentConfig>, g: GroupConfig, name: string, x: Key -> bool, y: Key -> bool)
    requires Agree(VariableTable(ss), x, y)
    ensures GroupSum(ss, g, name, x) == GroupSum(ss, g, name, y)
  {
    var d := ScaledVals(Eligible(ss, g.id), name);
    var terms := SumTerms(d, g.id);
    ScaledValsIds(Eligible(ss, g.id), name);
    forall i | 0 <= i < |terms| ensures x(terms[i].1) == y(terms[i].1) {
      assert Ids(d)[i] == d[i].0;
      assert d[i].0 in Ids(d);
      var s :| s in Eligible(ss, g.id) && s.id == d[i].0;
      assert EligiblePair(ss, terms[i].1);
    }
    WeightedSumAgree(terms, x, y);
  }

  lemma CriterionAgree(ss: seq<StudentConfig>, g: GroupConfig, name: string, cfg: CriterionConfig, x: Key -> bool, y: Key -> bool)
    requires Agree(VariableTable(ss), x, y)
    ensures CriterionMet(ss, g, name, cfg, x) <==> CriterionMet(ss, g, name, cfg, y)
    ensures CriterionPenalty(ss, g, name, cfg, x) == CriterionPenalty(ss, g, name, cfg, y)
  {
    GroupSumAgree(ss, g, name, x, y);
  }

  lemma {:induction false} CriteriaAgree(ss: seq<StudentConfig>, g: GroupConfig, cs: seq<(string, CriterionConfig)>, x: Key -> bool, y: Key -> bool)
    requires Agree(VariableTable(ss), x, y)
    ensures CriteriaMet(ss, g, cs, x) <==> CriteriaMet(ss, g, cs, y)
    ensures CriteriaPenalties(ss, g, cs, x) == CriteriaPenalties(ss, g, cs, y)
  {
    if cs != [] {
      CriteriaAgree(ss, g, cs[..|cs| - 1], x, y);
      CriterionAgree(ss, g, cs[|cs| - 1].0, cs[|cs| - 1].1, x, y);
    }
  }

  lemma {:induction false} GroupsAgree(ss: seq<StudentConfig>, gs: seq<GroupConfig>, x: Key -> bool, y: Key -> bool)
    requires Agree(VariableTable(ss), x, y)
    ensures AllCriteriaMet(ss, gs, x) <==> AllCriteriaMet(ss, gs, y)
    ensures AllPenalties(ss, gs, x) == AllPenalties(ss, gs, y)
  {
    if gs != [] {
      GroupsAgree(ss, gs[..|gs| - 1], x, y);
      CriteriaAgree(ss, gs[|gs| - 1], gs[|gs| - 1].criteria, x, y);
    }
  }

  lemma UniquenessAgree(ss: seq<StudentConfig>, x: Key -> bool, y: Key -> bool)
    requires Agree(VariableTable(ss), x, y)
    requires UniquenessMet(ss, x)
    ensures UniquenessMet(ss, y)
  {
    forall i | 0 <= i < |ss| ensures Count(StudentKeys(ss[i]), y) == 1 {
      var ks := StudentKeys(ss[i]);
      forall j | 0 <= j < |ks| ensures x(ks[j]) == y(ks[j]) {
        assert EligiblePair(ss, ks[j]);
      }
      CountAgree(ks, x, y);
    }
  }

  lemma CapacityAgree(ss: seq<StudentConfig>, gs: seq<GroupConfig>, x: Key -> bool, y: Key -> bool)
    requires Agree(VariableTable(ss), x, y)
    requires CapacityMet(ss, gs, x)
    ensures CapacityMet(ss, gs, y)
  {
    forall i | 0 <= i < |gs| ensures GroupFilled(ss, gs[i], y) {
      var g := gs[i];
      var ks := KeysFor(Eligible(ss, g.id), g.id);
      forall j | 0 <= j < |ks| ensures x(ks[j]) == y(ks[j]) {
        assert Eligible(ss, g.id)[j] in Eligible(ss, g.id);
        assert EligiblePair(ss, ks[j]);
      }
      CountAgree(ks, x, y);
    }
  }

  lemma HardMetAgree(data: ProblemInput, x: Key -> bool, y: Key -> bool)
    requires Agree(VariableTable(data.students), x, y)
    requires HardMet(data, x)
    ensures HardMet(data, y)
  {
    UniquenessAgree(data.students, x, y);
    CapacityAgree(data.students, data.groups, x, y);
  }

  /** Placements that agree on the table are equally feasible and cost the same. */
  lemma FeasibleAgree(data: ProblemInput, x: Key -> bool, y: Key -> bool)
    requires Agree(VariableTable(data.students), x, y)
    requires FeasiblePlacement(data, x)
    ensures FeasiblePlacement(data, y) && Cost(data, x) == Cost(data, y)
  {
    HardMetAgree(data, x, y);
    GroupsAgree(data.students, data.groups, x, y);
  }

  // ---------------------------------------------------------------------------------------
  // The records read back from a solution
  // ---------------------------------------------------------------------------------------

  /** The placement a list of records describes. */
  function Placed(rs: seq<AssignmentResult>): Key -> bool
  {
    (k: Key) => AssignmentResult(k.0, k.1) in rs
  }

  /** The records place students only in groups they may join, and the placement they describe
      meets every hard constraint and every criterion. */
  ghost predicate ValidOutput(data: ProblemInput, rs: seq<AssignmentResult>)
  {
    (forall a :: a in rs ==> EligiblePair(data.students, (a.studentId, a.groupId)))
    && FeasiblePlacement(data, Placed(rs))
  }

  /** The records of any ordering of the selected table variables describe the same
      placement on the table, and hold only table keys. */
  lemma SelectedRecords(t: seq<Key>, x: Key -> bool, rs: seq<AssignmentResult>)
    requires multiset(rs) == multiset(Selected(t, x))
    ensures forall a :: a in rs ==> (a.studentId, a.groupId) in t
    ensures Agree(t, x, Placed(rs))
  {
    var r := Selected(t, x);
    forall a ensures a in rs <==> a in r {
      assert a in rs <==> a in multiset(rs);
    }
    forall k | k in t ensures x(k) == Placed(rs)(k) {
      assert AssignmentResult(k.0, k.1) in r <==> (k.0, k.1) in t && x((k.0, k.1));
    }
  }

  /** Every student of a placement meeting the hard constraints is in exactly one group of
      its list. */
  lemma EveryStudentPlacedOnce(data: ProblemInput, x: Key -> bool)
    requires HardMet(data, x)
    ensures forall s :: s in data.students ==> InExactlyOneGroup(s, x)
  {
    forall s | s in data.students ensures InExactlyOneGroup(s, x) {
      var i :| 0 <= i < |data.students| && data.students[i] == s;
      PlacedOnce(s, x);
    }
  }

  /** The records of any ordering of the true table variables of a solution form a valid
      output, at the cost of the solution's placement; each student appears in exactly one
      group of its list. */
  lemma OutputValid(data: ProblemInput, v: Valuation, rs: seq<AssignmentResult>)
    requires Satisfies(Formulate(data), v)
    requires multiset(rs) == multiset(Selected(VariableTable(data.students), v.x))
    ensures ValidOutput(data, rs)
    ensures Cost(data, Placed(rs)) == Cost(data, v.x)
    ensures forall s :: s in data.students ==> InExactlyOneGroup(s, Placed(rs))
  {
    SelectedRecords(VariableTable(data.students), v.x, rs);
    FormulationSound(data, v);
    FeasibleAgree(data, v.x, Placed(rs));
    EveryStudentPlacedOnce(data, Placed(rs));
  }

  /** What an engine that keeps its contract guarantees of the final answer: a solved status
      comes with valid records, and OPTIMAL with records no feasible placement undercuts. */
  lemma AnswerValid(data: ProblemInput, a: EngineAnswer, rs: seq<AssignmentResult>)
    requires Sound(Formulate(data), a)
    requires Solved(a.status)
    requires multiset(rs) == multiset(Selected(VariableTable(data.students), a.value.x))
    ensures ValidOutput(data, rs)
    ensures a.status == Optimal ==> forall y :: FeasiblePlacement(data, y) ==> Cost(data, Placed(rs)) <= Cost(data, y)
  {
    OutputValid(data, a.value, rs);
    if a.status == Optimal {
      forall y | FeasiblePlacement(data, y) ensures Cost(data, Placed(rs)) <= Cost(data, y) {
        OptimumIsCheapest(data, a.value, y);
      }
    }
  }
}
