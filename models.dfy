/** The request and response records of the assignment service (src/assignment/models.py).
    Floating-point fields are modelled as exact `real` values. */
module Models {

  datatype Option<T> = None | Some(value: T)

  /** How a criterion configured on a group is enforced: a closed three-way choice. */
  datatype CriterionType = Minimize | Maximize | Constraint

  /** `minRatio` is read for `Constraint` criteria, `target` for `Minimize`/`Maximize` ones;
      either may be absent. */
  datatype CriterionConfig = CriterionConfig(kind: CriterionType, minRatio: Option<real>, target: Option<real>)

  /** A group with its exact capacity and its criteria, in the dictionary's insertion order. */
  datatype GroupConfig = GroupConfig(id: int, size: int, criteria: seq<(string, CriterionConfig)>)

  /** A student, the ids of the groups it may join, and its attribute values (meant to lie in [0, 1]). */
  datatype StudentConfig = StudentConfig(id: int, possibleGroups: seq<int>, values: map<string, real>)

  /** `exclude` holds lists of student ids; only the first two ids of each list are read. */
  datatype ProblemInput = ProblemInput(
    numStudents: int,
    numGroups: int,
    groups: seq<GroupConfig>,
    students: seq<StudentConfig>,
    exclude: seq<seq<int>>)

  datatype AssignmentResult = AssignmentResult(studentId: int, groupId: int)

  datatype ProblemOutput = ProblemOutput(assignments: seq<AssignmentResult>, status: string)
}
