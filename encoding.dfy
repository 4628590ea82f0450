/** What `solve_assignment` (src/assignment/solver.py) posts to the CP-SAT model, stated as
    functions of the request. The imperative solver in module Solver is proved to build exactly
    these; module Properties proves what a solution of them means. */
module Encoding {
  import opened Models
  import opened Scaling
  import opened CpSat

  predicate Distinct<T(==)>(s: seq<T>)
  {
    forall i, j :: 0 <= i < j < |s| ==> s[i] != s[j]
  }

  // ---------------------------------------------------------------------------------------
  // The variable table x (solver.py:11-14)
  // ---------------------------------------------------------------------------------------

  /** Assigning `x[k]` in a dict: a new key goes to the end, an existing key keeps its place. */
  function InsertKey(t: seq<Key>, k: Key): (r: seq<Key>)
    ensures forall j :: j in r <==> j in t || j == k
    ensures t <= r
    ensures Distinct(t) ==> Distinct(r)
  {
    if k in t then t else t + [k]
  }

  /** The keys (sid, g) for the groups gs of one student, added in order. */
  function AddStudentKeys(t: seq<Key>, sid: int, gs: seq<int>): (r: seq<Key>)
    ensures forall k :: k in r <==> k in t || (k.0 == sid && k.1 in gs)
    ensures t <= r
    ensures Distinct(t) ==> Distinct(r)
    decreases |gs|
  {
    if gs == [] then t
    else InsertKey(AddStudentKeys(t, sid, gs[..|gs| - 1]), (sid, gs[|gs| - 1]))
  }

  /** Group g is in the eligible list of some student with id sid. */
  ghost predicate EligiblePair(ss: seq<StudentConfig>, k: Key)
  {
    exists s :: s in ss && s.id == k.0 && k.1 in s.possibleGroups
  }

  /** The keys of x in insertion order: one per eligible (student, group) pair and no other. */
  function VariableTable(ss: seq<StudentConfig>): (r: seq<Key>)
    ensures Distinct(r)
    ensures forall k :: k in r <==> EligiblePair(ss, k)
  {
    if ss == [] then []
    else
      var last := ss[|ss| - 1];
      var r := AddStudentKeys(VariableTable(ss[..|ss| - 1]), last.id, last.possibleGroups);
      assert forall k :: EligiblePair(ss, k) <==> EligiblePair(ss[..|ss| - 1], k) || (k.0 == last.id && k.1 in last.possibleGroups) by {
        forall k ensures EligiblePair(ss, k) ==> EligiblePair(ss[..|ss| - 1], k) || (k.0 == last.id && k.1 in last.possibleGroups) {
          if EligiblePair(ss, k) {
            var s :| s in ss && s.id == k.0 && k.1 in s.possibleGroups;
            if s != last {
              assert s in ss[..|ss| - 1];
            }
          }
        }
      }
      r
  }

  // ---------------------------------------------------------------------------------------
  // Eligibility of a group
  // ---------------------------------------------------------------------------------------

  /** The students whose eligible list contains gid, in request order. */
  function Eligible(ss: seq<StudentConfig>, gid: int): (r: seq<StudentConfig>)
    ensures forall s :: s in r <==> s in ss && gid in s.possibleGroups
    ensures |r| <= |ss|
  {
    if ss == [] then []
    else Eligible(ss[..|ss| - 1], gid) + (if gid in ss[|ss| - 1].possibleGroups then [ss[|ss| - 1]] else [])
  }

  /** The keys (s.id, gid) for the given students, in order. */
  function KeysFor(ss: seq<StudentConfig>, gid: int): seq<Key>
  {
    seq(|ss|, i requires 0 <= i < |ss| => (ss[i].id, gid))
  }

  /** The keys x[s.id, g] over the eligible list of one student, in that list's order. */
  function StudentKeys(s: StudentConfig): seq<Key>
  {
    seq(|s.possibleGroups|, j requires 0 <= j < |s.possibleGroups| => (s.id, s.possibleGroups[j]))
  }

  // ---------------------------------------------------------------------------------------
  // Hard constraints (solver.py:16-37)
  // ---------------------------------------------------------------------------------------

  /** One `sum(x[s.id, g] for g in s.possible_groups) == 1` per student, also for an empty list. */
  function UniquenessConstraints(ss: seq<StudentConfig>): seq<Constraint>
  {
    seq(|ss|, i requires 0 <= i < |ss| => BoolSumEq(StudentKeys(ss[i]), 1))
  }

  /** A group nobody may join but whose size is positive: the solver gives up on it. */
  predicate Blocked(ss: seq<StudentConfig>, g: GroupConfig)
  {
    Eligible(ss, g.id) == [] && g.size > 0
  }

  /** The request is answered INFEASIBLE before any search. */
  predicate ShortCircuits(data: ProblemInput)
  {
    exists i :: 0 <= i < |data.groups| && Blocked(data.students, data.groups[i])
  }

  /** The capacity constraint of one group: none when nobody may join it. */
  function CapacityConstraint(ss: seq<StudentConfig>, g: GroupConfig): seq<Constraint>
  {
    var keys := KeysFor(Eligible(ss, g.id), g.id);
    if keys == [] then [] else [BoolSumEq(keys, g.size)]
  }

  function CapacityConstraints(ss: seq<StudentConfig>, gs: seq<GroupConfig>): seq<Constraint>
  {
    if gs == [] then []
    else CapacityConstraints(ss, gs[..|gs| - 1]) + CapacityConstraint(ss, gs[|gs| - 1])
  }

  /** `x[s1, g] + x[s2, g] <= 1` for each group, in order, where both variables exist. */
  function PairConstraints(t: seq<Key>, s1: int, s2: int, gs: seq<GroupConfig>): seq<Constraint>
  {
    if gs == [] then []
    else
      var gid := gs[|gs| - 1].id;
      PairConstraints(t, s1, s2, gs[..|gs| - 1])
      + (if (s1, gid) in t && (s2, gid) in t then [BoolSumLe([(s1, gid), (s2, gid)], 1)] else [])
  }

  /** The exclusion constraints of all pairs; a list with fewer than two ids is skipped and
      only the first two ids of a longer one are read. */
  function ExclusionConstraints(t: seq<Key>, ex: seq<seq<int>>, gs: seq<GroupConfig>): seq<Constraint>
  {
    if ex == [] then []
    else
      var p := ex[|ex| - 1];
      ExclusionConstraints(t, ex[..|ex| - 1], gs) + (if |p| < 2 then [] else PairConstraints(t, p[0], p[1], gs))
  }

  // ---------------------------------------------------------------------------------------
  // Criteria (solver.py:39-94)
  // ---------------------------------------------------------------------------------------

  /** `s.values.get(name, 0)`. */
  function ValueOf(s: StudentConfig, name: string): real
  {
    if name in s.values then s.values[name] else 0.0
  }

  /** `int(s.values.get(name, 0) * SCALING_FACTOR)`: a student without the attribute adds 0. */
  function ScaledValue(s: StudentConfig, name: string): (r: int)
    ensures name !in s.values ==> r == 0
    ensures 0.0 <= ValueOf(s, name) <= 1.0 ==> 0 <= r <= ScalingFactor
  {
    Scale(ValueOf(s, name))
  }

  /** The keys of a dict kept as a list of entries. */
  function Ids(d: seq<(int, int)>): (r: seq<int>)
    ensures |r| == |d| && forall i :: 0 <= i < |d| ==> r[i] == d[i].0
  {
    if d == [] then [] else [d[0].0] + Ids(d[1..])
  }

  /** Storing `d[k] = w` in a dict kept as a list of entries in insertion order: an existing
      key keeps its place and takes the new value, a new key goes to the end. */
  function Put(d: seq<(int, int)>, k: int, w: int): seq<(int, int)>
  {
    if d == [] then [(k, w)]
    else if d[0].0 == k then [(k, w)] + d[1..]
    else [d[0]] + Put(d[1..], k, w)
  }

  /** A key not yet in the dict is appended. */
  lemma {:induction false} PutFresh(d: seq<(int, int)>, k: int, w: int)
    requires k !in Ids(d)
    ensures Put(d, k, w) == d + [(k, w)]
  {
    if d != [] {
      assert Ids(d) == [d[0].0] + Ids(d[1..]);
      PutFresh(d[1..], k, w);
      assert [d[0]] + (d[1..] + [(k, w)]) == d + [(k, w)];
    }
  }

  /** The dict `{s.id: int(s.values.get(name, 0) * SCALING_FACTOR) for s in ss}`. */
  function ScaledVals(ss: seq<StudentConfig>, name: string): seq<(int, int)>
  {
    if ss == [] then []
    else Put(ScaledVals(ss[..|ss| - 1], name), ss[|ss| - 1].id, ScaledValue(ss[|ss| - 1], name))
  }

  /** When student ids are distinct, the dict holds one entry per student, in request order. */
  lemma {:induction false} ScaledValsOfDistinctIds(ss: seq<StudentConfig>, name: string)
    requires forall i, j :: 0 <= i < j < |ss| ==> ss[i].id != ss[j].id
    ensures |ScaledVals(ss, name)| == |ss|
    ensures forall i :: 0 <= i < |ss| ==> ScaledVals(ss, name)[i] == (ss[i].id, ScaledValue(ss[i], name))
  {
    if ss != [] {
      var p, last := ss[..|ss| - 1], ss[|ss| - 1];
      ScaledValsOfDistinctIds(p, name);
      var d := ScaledVals(p, name);
      assert last.id !in Ids(d) by {
        forall i | 0 <= i < |d|
          ensures Ids(d)[i] != last.id
        {
          assert Ids(d)[i] == p[i].id == ss[i].id;
        }
      }
      PutFresh(d, last.id, ScaledValue(last, name));
    }
  }

  /** The terms `scaled_vals[s_id] * x[s_id, gid]` of a group sum. */
  function SumTerms(d: seq<(int, int)>, gid: int): seq<(int, Key)>
  {
    seq(|d|, i requires 0 <= i < |d| => (d[i].1, (d[i].0, gid)))
  }

  /** The model built so far and the list `penalties`. */
  datatype EncState = EncState(model: Formulation, penalties: seq<nat>)

  /** Encoders only ever append variables, constraints and penalties. */
  predicate Extends(st: EncState, st': EncState)
  {
    st.model.intDomains <= st'.model.intDomains
    && st.model.constraints <= st'.model.constraints
    && st.penalties <= st'.penalties
    && st'.model.objective == st.model.objective
  }

  /** The bound `SCALING_FACTOR * g.size` of a group's sums and penalties. */
  function Bound(g: GroupConfig): int
  {
    ScalingFactor * g.size
  }

  /** After the group sum (variable n) is in place: diff (n+1) == plus - minus,
      penalty (n+2) == max(0, diff), penalty_sq (n+3) == penalty * penalty, and penalty_sq
      joins the penalties. */
  function WithPenalty(st: EncState, n: nat, bound: int, plus: IntExpr, minus: IntExpr): (r: EncState)
    ensures Extends(st, r)
  {
    EncState(
      Formulation(
        st.model.intDomains + [Domain(-bound, bound), Domain(0, bound), Domain(0, bound * bound)],
        st.model.constraints + [DiffEq(n + 1, plus, minus), MaxEq(n + 2, Const(0), Ref(n + 1)), MulEq(n + 3, Ref(n + 2), Ref(n + 2))],
        st.model.objective),
      st.penalties + [n + 3])
  }

  /** `group_sum` (the next variable, with domain [0, F * size]) equals the weighted sum of the
      scaled values of the relevant students over their placement variables for g. */
  function WithGroupSum(st: EncState, relevant: seq<StudentConfig>, g: GroupConfig, name: string): (r: EncState)
    ensures Extends(st, r)
  {
    EncState(
      Formulation(
        st.model.intDomains + [Domain(0, Bound(g))],
        st.model.constraints + [WeightedSumEq(|st.model.intDomains|, SumTerms(ScaledVals(relevant, name), g.id))],
        st.model.objective),
      st.penalties)
  }

  /** What one criterion of one group posts (solver.py:44-94). */
  function EncodeCriterion(st: EncState, ss: seq<StudentConfig>, g: GroupConfig, name: string, cfg: CriterionConfig): (r: EncState)
    ensures Extends(st, r)
    ensures cfg.kind == Constraint ==> r.penalties == st.penalties
  {
    var relevant := Eligible(ss, g.id);
    if relevant == [] then st
    else
      var n := |st.model.intDomains|;
      var withSum := WithGroupSum(st, relevant, g, name);
      match cfg.kind
      case Constraint =>
        if cfg.minRatio.None? then withSum
        else
          var m := withSum.model;
          EncState(Formulation(m.intDomains, m.constraints + [IntGe(n, ScaledShare(cfg.minRatio.value, g.size))], m.objective), withSum.penalties)
      case Minimize =>
        if cfg.target.None? then withSum
        else WithPenalty(withSum, n, Bound(g), Ref(n), Const(ScaledShare(cfg.target.value, g.size)))
      case Maximize =>
        if cfg.target.None? then withSum
        else WithPenalty(withSum, n, Bound(g), Const(ScaledShare(cfg.target.value, g.size)), Ref(n))
  }

  function EncodeCriteria(st: EncState, ss: seq<StudentConfig>, g: GroupConfig, cs: seq<(string, CriterionConfig)>): (r: EncState)
    ensures Extends(st, r)
  {
    if cs == [] then st
    else
      var c := cs[|cs| - 1];
      EncodeCriterion(EncodeCriteria(st, ss, g, cs[..|cs| - 1]), ss, g, c.0, c.1)
  }

  function EncodeGroups(st: EncState, ss: seq<StudentConfig>, gs: seq<GroupConfig>): (r: EncState)
    ensures Extends(st, r)
  {
    if gs == [] then st
    else
      var g := gs[|gs| - 1];
      EncodeCriteria(EncodeGroups(st, ss, gs[..|gs| - 1]), ss, g, g.criteria)
  }

  // ---------------------------------------------------------------------------------------
  // The whole model (solver.py:7-98)
  // ---------------------------------------------------------------------------------------

  function HardConstraints(data: ProblemInput): seq<Constraint>
  {
    UniquenessConstraints(data.students)
    + CapacityConstraints(data.students, data.groups)
    + ExclusionConstraints(VariableTable(data.students), data.exclude, data.groups)
  }

  /** The model handed to the engine when the request is not short-circuited; the objective is
      set only when some penalty exists. */
  function Formulate(data: ProblemInput): Formulation
  {
    var st := EncodeGroups(EncState(Formulation([], HardConstraints(data), None), []), data.students, data.groups);
    Formulation(st.model.intDomains, st.model.constraints, if st.penalties == [] then None else Some(st.penalties))
  }

  // ---------------------------------------------------------------------------------------
  // Reading the solution back (solver.py:103-111)
  // ---------------------------------------------------------------------------------------

  /** The records for the variables of table t that are true, in table order. */
  function Selected(t: seq<Key>, x: Key -> bool): (r: seq<AssignmentResult>)
    ensures forall a :: a in r <==> (a.studentId, a.groupId) in t && x((a.studentId, a.groupId))
    ensures Distinct(t) ==> Distinct(r)
  {
    if t == [] then []
    else
      var k := t[|t| - 1];
      var r := Selected(t[..|t| - 1], x) + (if x(k) then [AssignmentResult(k.0, k.1)] else []);
      assert forall j :: j in t <==> j in t[..|t| - 1] || j == k by {
        assert t == t[..|t| - 1] + [k];
      }
      r
  }

  predicate SortedByStudent(s: seq<AssignmentResult>)
  {
    forall i, j :: 0 <= i < j < |s| ==> s[i].studentId <= s[j].studentId
  }

  /** The records of student sid, in the order they appear in s. */
  function OfStudent(s: seq<AssignmentResult>, sid: int): (r: seq<AssignmentResult>)
    ensures |r| <= |s|
    ensures forall a :: a in r <==> a in s && a.studentId == sid
  {
    if s == [] then []
    else (if s[0].studentId == sid then [s[0]] else []) + OfStudent(s[1..], sid)
  }

  /** t lists the records of every student in the same order as s: a stable reordering. */
  ghost predicate SameStudentOrder(s: seq<AssignmentResult>, t: seq<AssignmentResult>)
  {
    forall sid :: OfStudent(s, sid) == OfStudent(t, sid)
  }
}
