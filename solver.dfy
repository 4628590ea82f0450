/** `solve_assignment` (src/assignment/solver.py:7-111) as the step-by-step procedure it is:
    loops that fill the variable table, post constraints to the mutable CpModel object,
    collect penalties, call the engine once, and read back and sort the assignments. */
module Solver {
  import opened Models
  import opened Scaling
  import opened CpSat
  import opened Encoding
  import opened Properties
  import opened Seqs

  /** solver.py:11-14: one entry `x[s.id, g]` per student and eligible group. */
  method AllocateVariables(ss: seq<StudentConfig>) returns (x: seq<Key>)
    ensures x == VariableTable(ss)
    ensures Distinct(x) && forall k :: k in x <==> EligiblePair(ss, k)
  {
    x := [];
    for i := 0 to |ss|
      invariant x == VariableTable(ss[..i])
    {
      var s := ss[i];
      ghost var before := x;
      for j := 0 to |s.possibleGroups|
        invariant x == AddStudentKeys(before, s.id, s.possibleGroups[..j])
      {
        var k := (s.id, s.possibleGroups[j]);
        if k !in x {
          x := x + [k];
        }
        assert s.possibleGroups[..j + 1][..j] == s.possibleGroups[..j];
      }
      assert s.possibleGroups[..|s.possibleGroups|] == s.possibleGroups;
      assert ss[..i + 1][..i] == ss[..i];
    }
    assert ss[..|ss|] == ss;
  }

  /** solver.py:17-18: every student must take exactly one of its eligible groups. */
  method PostUniqueness(model: CpModel, ss: seq<StudentConfig>)
    modifies model
    ensures model.constraints == old(model.constraints) + UniquenessConstraints(ss)
    ensures model.intDomains == old(model.intDomains) && model.objective == old(model.objective)
  {
    for i := 0 to |ss|
      invariant model.constraints == old(model.constraints) + UniquenessConstraints(ss[..i])
      invariant model.intDomains == old(model.intDomains) && model.objective == old(model.objective)
    {
      model.Add(BoolSumEq(StudentKeys(ss[i]), 1));
      assert UniquenessConstraints(ss[..i + 1]) == UniquenessConstraints(ss[..i]) + [BoolSumEq(StudentKeys(ss[i]), 1)];
    }
    assert ss[..|ss|] == ss;
  }

  /** solver.py:21-28: each group must receive exactly its size; the first group nobody may
      join but whose size is positive stops the encoding (`blocked`). */
  method PostCapacity(model: CpModel, ss: seq<StudentConfig>, gs: seq<GroupConfig>) returns (blocked: bool)
    modifies model
    ensures blocked <==> exists i :: 0 <= i < |gs| && Blocked(ss, gs[i])
    ensures !blocked ==> model.constraints == old(model.constraints) + CapacityConstraints(ss, gs)
    ensures model.intDomains == old(model.intDomains) && model.objective == old(model.objective)
  {
    for i := 0 to |gs|
      invariant model.constraints == old(model.constraints) + CapacityConstraints(ss, gs[..i])
      invariant model.intDomains == old(model.intDomains) && model.objective == old(model.objective)
      invariant forall k :: 0 <= k < i ==> !Blocked(ss, gs[k])
    {
      var g := gs[i];
      assert gs[..i + 1][..i] == gs[..i];
      var relevant := KeysFor(Eligible(ss, g.id), g.id);
      if relevant == [] {
        if g.size > 0 {
          return true;
        }
        AppendNil(CapacityConstraints(ss, gs[..i]));
        continue;
      }
      model.Add(BoolSumEq(relevant, g.size));
      AppendAssoc(old(model.constraints), CapacityConstraints(ss, gs[..i]), [BoolSumEq(relevant, g.size)]);
    }
    assert gs[..|gs|] == gs;
    return false;
  }

  /** solver.py:35-37: `x[s1, g] + x[s2, g] <= 1` for every group in which both may be. */
  method PostPair(model: CpModel, x: seq<Key>, s1: int, s2: int, gs: seq<GroupConfig>)
    modifies model
    ensures model.constraints == old(model.constraints) + PairConstraints(x, s1, s2, gs)
    ensures model.intDomains == old(model.intDomains) && model.objective == old(model.objective)
  {
    for j := 0 to |gs|
      invariant model.constraints == old(model.constraints) + PairConstraints(x, s1, s2, gs[..j])
      invariant model.intDomains == old(model.intDomains) && model.objective == old(model.objective)
    {
      var g := gs[j];
      assert gs[..j + 1][..j] == gs[..j];
      if (s1, g.id) in x && (s2, g.id) in x {
        model.Add(BoolSumLe([(s1, g.id), (s2, g.id)], 1));
        AppendAssoc(old(model.constraints), PairConstraints(x, s1, s2, gs[..j]), [BoolSumLe([(s1, g.id), (s2, g.id)], 1)]);
      } else {
        AppendNil(PairConstraints(x, s1, s2, gs[..j]));
      }
    }
    assert gs[..|gs|] == gs;
  }

  /** solver.py:31-37: two excluded students never share a group in which both may be. */
  method PostExclusions(model: CpModel, x: seq<Key>, ex: seq<seq<int>>, gs: seq<GroupConfig>)
    modifies model
    ensures model.constraints == old(model.constraints) + ExclusionConstraints(x, ex, gs)
    ensures model.intDomains == old(model.intDomains) && model.objective == old(model.objective)
  {
    for i := 0 to |ex|
      invariant model.constraints == old(model.constraints) + ExclusionConstraints(x, ex[..i], gs)
      invariant model.intDomains == old(model.intDomains) && model.objective == old(model.objective)
    {
      var pair := ex[i];
      assert ex[..i + 1][..i] == ex[..i];
      if |pair| < 2 {
        AppendNil(ExclusionConstraints(x, ex[..i], gs));
        continue;
      }
      var s1, s2 := pair[0], pair[1];
      PostPair(model, x, s1, s2, gs);
      AppendAssoc(old(model.constraints), ExclusionConstraints(x, ex[..i], gs), PairConstraints(x, s1, s2, gs));
    }
    assert ex[..|ex|] == ex;
  }

  /** solver.py:49-53: `group_sum`, a new variable in [0, F * size], equals the weighted sum of
      the scaled values of the relevant students placed in g. */
  method PostGroupSum(model: CpModel, relevant: seq<StudentConfig>, g: GroupConfig, name: string) returns (groupSum: nat)
    modifies model
    ensures groupSum == |old(model.intDomains)|
    ensures model.Snapshot() == WithGroupSum(EncState(old(model.Snapshot()), []), relevant, g, name).model
  {
    var scaledVals := ScaledVals(relevant, name);
    var bound := ScalingFactor * g.size;
    groupSum := model.NewIntVar(0, bound);
    model.Add(WeightedSumEq(groupSum, SumTerms(scaledVals, g.id)));
  }

  /** solver.py:69-77 and 86-93: `diff == plus - minus` in [-bound, bound], `penalty ==
      max(0, diff)`, `penalty_sq == penalty * penalty`; returns `penalty_sq`. */
  method PostPenalty(model: CpModel, bound: int, plus: IntExpr, minus: IntExpr) returns (penaltySq: nat)
    requires |model.intDomains| > 0
    modifies model
    ensures penaltySq == |old(model.intDomains)| + 2
    ensures EncState(model.Snapshot(), [penaltySq]) ==
            WithPenalty(EncState(old(model.Snapshot()), []), |old(model.intDomains)| - 1, bound, plus, minus)
  {
    var diff := model.NewIntVar(-bound, bound);
    model.Add(DiffEq(diff, plus, minus));
    var penalty := model.NewIntVar(0, bound);
    model.AddMaxEquality(penalty, Const(0), Ref(diff));
    penaltySq := model.NewIntVar(0, bound * bound);
    model.AddMultiplicationEquality(penaltySq, Ref(penalty), Ref(penalty));
  }

  /** solver.py:44-94, one criterion of one group: the group sum, then a threshold or a
      squared penalty. */
  method PostCriterion(model: CpModel, ss: seq<StudentConfig>, g: GroupConfig, name: string, cfg: CriterionConfig, penalties: seq<nat>)
    returns (penalties': seq<nat>)
    modifies model
    ensures EncState(model.Snapshot(), penalties') == EncodeCriterion(EncState(old(model.Snapshot()), penalties), ss, g, name, cfg)
  {
    penalties' := penalties;
    var relevant := Eligible(ss, g.id);
    if relevant == [] {
      return;
    }
    var groupSum := PostGroupSum(model, relevant, g, name);
    ghost var withSum := WithGroupSum(EncState(old(model.Snapshot()), penalties), relevant, g, name);
    assert model.Snapshot() == withSum.model;
    var bound := ScalingFactor * g.size;
    match cfg.kind {
      case Constraint =>
        if cfg.minRatio.None? {
          return;
        }
        var threshold := ScaledShare(cfg.minRatio.value, g.size);
        model.Add(IntGe(groupSum, threshold));
      case Minimize =>
        if cfg.target.None? {
          return;
        }
        var targetSum := ScaledShare(cfg.target.value, g.size);
        var penaltySq := PostPenalty(model, bound, Ref(groupSum), Const(targetSum));
        penalties' := penalties' + [penaltySq];
        assert EncState(model.Snapshot(), penalties') == WithPenalty(withSum, groupSum, Bound(g), Ref(groupSum), Const(targetSum));
      case Maximize =>
        if cfg.target.None? {
          return;
        }
        var targetSum := ScaledShare(cfg.target.value, g.size);
        var penaltySq := PostPenalty(model, bound, Const(targetSum), Ref(groupSum));
        penalties' := penalties' + [penaltySq];
        assert EncState(model.Snapshot(), penalties') == WithPenalty(withSum, groupSum, Bound(g), Const(targetSum), Ref(groupSum));
    }
  }

  /** solver.py:39-94: all criteria of all groups, in order. */
  method PostCriteria(model: CpModel, ss: seq<StudentConfig>, gs: seq<GroupConfig>) returns (penalties: seq<nat>)
    modifies model
    ensures EncState(model.Snapshot(), penalties) == EncodeGroups(EncState(old(model.Snapshot()), []), ss, gs)
  {
    ghost var start := EncState(model.Snapshot(), []);
    penalties := [];
    for i := 0 to |gs|
      invariant EncState(model.Snapshot(), penalties) == EncodeGroups(start, ss, gs[..i])
    {
      var g := gs[i];
      assert gs[..i + 1][..i] == gs[..i];
      ghost var before := EncState(model.Snapshot(), penalties);
      for j := 0 to |g.criteria|
        invariant EncState(model.Snapshot(), penalties) == EncodeCriteria(before, ss, g, g.criteria[..j])
      {
        var (name, cfg) := g.criteria[j];
        assert g.criteria[..j + 1][..j] == g.criteria[..j];
        penalties := PostCriterion(model, ss, g, name, cfg, penalties);
      }
      assert g.criteria[..|g.criteria|] == g.criteria;
    }
    assert gs[..|gs|] == gs;
  }

  /** solver.py:105-107: the records of the true variables, in table order. */
  method CollectAssignments(x: seq<Key>, value: Key -> bool) returns (assignments: seq<AssignmentResult>)
    ensures assignments == Selected(x, value)
  {
    assignments := [];
    for i := 0 to |x|
      invariant assignments == Selected(x[..i], value)
    {
      var (sid, gid) := x[i];
      assert x[..i + 1][..i] == x[..i];
      if value((sid, gid)) {
        assignments := assignments + [AssignmentResult(sid, gid)];
      }
    }
    assert x[..|x|] == x;
  }

  /** The prefix s[..i+1] is ordered by student id except for pairs ending at position j,
      the slot of the element being inserted. */
  ghost predicate OrderedExcept(s: seq<AssignmentResult>, i: nat, j: nat)
    requires j <= i < |s|
  {
    forall p, q :: 0 <= p < q <= i && q != j ==> s[p].studentId <= s[q].studentId
  }

  /** Swapping the inserted element one step down keeps the rest ordered. */
  lemma SwapDownKeepsOrder(s: seq<AssignmentResult>, i: nat, j: nat)
    requires 0 < j <= i < |s|
    requires OrderedExcept(s, i, j)
    requires s[j - 1].studentId > s[j].studentId
    ensures OrderedExcept(s[j - 1 := s[j]][j := s[j - 1]], i, j - 1)
  {
  }

  /** Once the inserted element is not below its left neighbour, the prefix is ordered. */
  lemma InsertionDone(s: seq<AssignmentResult>, i: nat, j: nat)
    requires j <= i < |s|
    requires OrderedExcept(s, i, j)
    requires j == 0 || s[j - 1].studentId <= s[j].studentId
    ensures SortedByStudent(s[..i + 1])
  {
  }

  lemma {:induction false} OfStudentAppend(s: seq<AssignmentResult>, t: seq<AssignmentResult>, sid: int)
    ensures OfStudent(s + t, sid) == OfStudent(s, sid) + OfStudent(t, sid)
  {
    if s == [] {
      assert s + t == t;
    } else {
      assert (s + t)[0] == s[0];
      assert (s + t)[1..] == s[1..] + t;
      OfStudentAppend(s[1..], t, sid);
    }
  }

  /** Two records of different students, in either order, give each student the same list. */
  lemma TwoOfStudent(p: AssignmentResult, q: AssignmentResult, sid: int)
    requires p.studentId != q.studentId
    ensures OfStudent([p, q], sid) == OfStudent([q, p], sid)
  {
    assert [p, q][1..] == [q] && [q, p][1..] == [p];
  }

  /** Swapping neighbours of different students keeps every student's records in order. */
  lemma SwapKeepsStudentOrder(s: seq<AssignmentResult>, j: nat)
    requires 0 < j < |s|
    requires s[j - 1].studentId != s[j].studentId
    ensures SameStudentOrder(s[j - 1 := s[j]][j := s[j - 1]], s)
  {
    var s' := s[j - 1 := s[j]][j := s[j - 1]];
    var pre, post := s[..j - 1], s[j + 1..];
    var mid, mid' := [s[j - 1], s[j]], [s[j], s[j - 1]];
    assert s == pre + mid + post;
    assert s' == pre + mid' + post;
    forall sid
      ensures OfStudent(s', sid) == OfStudent(s, sid)
    {
      TwoOfStudent(s[j - 1], s[j], sid);
      OfStudentAppend(pre + mid, post, sid);
      OfStudentAppend(pre + mid', post, sid);
      OfStudentAppend(pre, mid, sid);
      OfStudentAppend(pre, mid', sid);
    }
  }

  /** Two sorted, stable reorderings of each other start with the same record. */
  lemma SameFirstRecord(s: seq<AssignmentResult>, t: seq<AssignmentResult>)
    requires s != [] && t != []
    requires SortedByStudent(s) && SortedByStudent(t)
    requires SameStudentOrder(s, t)
    ensures s[0] == t[0]
  {
    var m, n := s[0].studentId, t[0].studentId;
    assert s[0] in OfStudent(t, m);
    assert t[0] in OfStudent(s, n);
    assert OfStudent(s, m)[0] == s[0] && OfStudent(t, m)[0] == t[0];
  }

  /** Dropping a common first record keeps the per-student order. */
  lemma SameOrderAfterFirst(s: seq<AssignmentResult>, t: seq<AssignmentResult>)
    requires s != [] && t != [] && s[0] == t[0]
    requires SameStudentOrder(s, t)
    ensures SameStudentOrder(s[1..], t[1..])
  {
    forall k
      ensures OfStudent(s[1..], k) == OfStudent(t[1..], k)
    {
      var h := if s[0].studentId == k then [s[0]] else [];
      assert OfStudent(s, k) == h + OfStudent(s[1..], k);
      assert OfStudent(t, k) == h + OfStudent(t[1..], k);
      assert (h + OfStudent(s[1..], k))[|h|..] == OfStudent(s[1..], k);
      assert (h + OfStudent(t[1..], k))[|h|..] == OfStudent(t[1..], k);
    }
  }

  lemma FirstStudentListed(s: seq<AssignmentResult>)
    ensures s != [] ==> OfStudent(s, s[0].studentId) != []
  {
  }

  /** A sorted, stable reordering is unique: two sequences sorted by student id that list
      every student's records in the same order are equal. So the sorted output is fixed by
      the records and their table order. */
  lemma {:induction false} StableSortIsUnique(s: seq<AssignmentResult>, t: seq<AssignmentResult>)
    requires SortedByStudent(s) && SortedByStudent(t)
    requires SameStudentOrder(s, t)
    ensures s == t
    decreases |s|
  {
    if s != [] && t != [] {
      SameFirstRecord(s, t);
      SameOrderAfterFirst(s, t);
      StableSortIsUnique(s[1..], t[1..]);
      assert s == [s[0]] + s[1..] && t == [t[0]] + t[1..];
    } else {
      FirstStudentListed(s);
      FirstStudentListed(t);
    }
  }

  method Swap(a: array<AssignmentResult>, i: nat, j: nat)
    requires i < j < a.Length
    modifies a
    ensures a[..] == old(a[..])[i := old(a[j])][j := old(a[i])]
    ensures multiset(a[..]) == old(multiset(a[..]))
  {
    a[i], a[j] := a[j], a[i];
  }

  /** solver.py:108: `assignments.sort(key=lambda a: a.student_id)`, in place (insertion sort
      that swaps only strictly out-of-order neighbours, so the sort is stable like Python's). */
  method SortByStudentId(a: array<AssignmentResult>)
    modifies a
    ensures SortedByStudent(a[..])
    ensures multiset(a[..]) == old(multiset(a[..]))
    ensures SameStudentOrder(a[..], old(a[..]))
  {
    var i := 0;
    while i < a.Length
      invariant 0 <= i <= a.Length
      invariant SortedByStudent(a[..i])
      invariant multiset(a[..]) == old(multiset(a[..]))
      invariant SameStudentOrder(a[..], old(a[..]))
    {
      var j := i;
      assert OrderedExcept(a[..], i, j);
      while j > 0 && a[j - 1].studentId > a[j].studentId
        invariant 0 <= j <= i
        invariant multiset(a[..]) == old(multiset(a[..]))
        invariant SameStudentOrder(a[..], old(a[..]))
        invariant OrderedExcept(a[..], i, j)
      {
        SwapDownKeepsOrder(a[..], i, j);
        SwapKeepsStudentOrder(a[..], j);
        Swap(a, j - 1, j);
        j := j - 1;
      }
      InsertionDone(a[..], i, j);
      i := i + 1;
    }
    assert a[..a.Length] == a[..];
  }

  /** solver.py:103-111: a solved status yields the true variables sorted by student id; any
      other status an empty list. */
  method MapResult(x: seq<Key>, answer: EngineAnswer) returns (out: ProblemOutput)
    ensures out.status == StatusName(answer.status)
    ensures Solved(answer.status) ==> SortedByStudent(out.assignments)
    ensures Solved(answer.status) ==> multiset(out.assignments) == multiset(Selected(x, answer.value.x))
    ensures Solved(answer.status) ==> SameStudentOrder(out.assignments, Selected(x, answer.value.x))
    ensures !Solved(answer.status) ==> out.assignments == []
  {
    if answer.status == Optimal || answer.status == Feasible {
      var assignments := CollectAssignments(x, answer.value.x);
      var a := new AssignmentResult[|assignments|](i requires 0 <= i < |assignments| => assignments[i]);
      assert a[..] == assignments;
      SortByStudentId(a);
      out := ProblemOutput(a[..], StatusName(answer.status));
    } else {
      out := ProblemOutput([], StatusName(answer.status));
    }
  }

  /** solver.py:7-111. The engine is a parameter: it is handed the finished model once, after
      every constraint and the objective are in place. A short-circuited request is answered
      without it: the output is the same whatever the engine would have said. */
  method SolveAssignment(data: ProblemInput, engine: Formulation -> EngineAnswer) returns (out: ProblemOutput)
    ensures ShortCircuits(data) ==> out == ProblemOutput([], "INFEASIBLE")
    ensures !ShortCircuits(data) ==> out.status == StatusName(engine(Formulate(data)).status)
    ensures !ShortCircuits(data) && Solved(engine(Formulate(data)).status) ==>
              SortedByStudent(out.assignments)
              && multiset(out.assignments) == multiset(Selected(VariableTable(data.students), engine(Formulate(data)).value.x))
              && SameStudentOrder(out.assignments, Selected(VariableTable(data.students), engine(Formulate(data)).value.x))
    ensures !ShortCircuits(data) && !Solved(engine(Formulate(data)).status) ==> out.assignments == []
    ensures !ShortCircuits(data) && Sound(Formulate(data), engine(Formulate(data))) && Solved(engine(Formulate(data)).status) ==>
              ValidOutput(data, out.assignments)
    ensures !ShortCircuits(data) && Sound(Formulate(data), engine(Formulate(data))) && engine(Formulate(data)).status == Optimal ==>
              forall y :: FeasiblePlacement(data, y) ==> Cost(data, Placed(out.assignments)) <= Cost(data, y)
  {
    var model := new CpModel();
    var x := AllocateVariables(data.students);
    PostUniqueness(model, data.students);
    ghost var c1 := model.constraints;
    assert c1 == UniquenessConstraints(data.students);
    var blocked := PostCapacity(model, data.students, data.groups);
    assert blocked <==> ShortCircuits(data);
    if blocked {
      return ProblemOutput([], "INFEASIBLE");
    }
    ghost var c2 := model.constraints;
    assert c2 == c1 + CapacityConstraints(data.students, data.groups);
    PostExclusions(model, x, data.exclude, data.groups);
    assert model.constraints == c2 + ExclusionConstraints(x, data.exclude, data.groups);
    assert model.constraints == HardConstraints(data);
    assert model.intDomains == [] && model.objective == None;
    ghost var st := EncodeGroups(EncState(model.Snapshot(), []), data.students, data.groups);
    var penalties := PostCriteria(model, data.students, data.groups);
    assert model.Snapshot() == st.model && penalties == st.penalties;
    if penalties != [] {
      model.Minimize(penalties);
    }
    ghost var f := Formulate(data);
    assert f == Formulation(st.model.intDomains, st.model.constraints, if st.penalties == [] then None else Some(st.penalties));
    assert model.Snapshot() == f;
    var answer := engine(model.Snapshot());
    out := MapResult(x, answer);
    if Sound(f, answer) && Solved(answer.status) {
      AnswerValid(data, answer, out.assignments);
    }
  }
}
