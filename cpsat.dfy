/** The part of the CP-SAT modelling interface that the solver uses: Boolean placement
    variables, bounded integer variables, the constraints posted on them, an optional
    objective, and what a valuation of the variables must satisfy. The engine that searches
    for such a valuation is external; only its contract is stated here. */
module CpSat {
  import opened Models

  /** A Boolean variable is named by the (student id, group id) pair it stands for. */
  type Key = (int, int)

  /** The closed range an integer variable is created with (`NewIntVar(lo, hi, ...)`). */
  datatype Domain = Domain(lo: int, hi: int)

  /** An integer operand: a constant, or the integer variable with the given index. */
  datatype IntExpr = Const(c: int) | Ref(v: nat)

  datatype Constraint =
    | BoolSumEq(vars: seq<Key>, rhs: int)               // sum of the listed 0/1 variables == rhs
    | BoolSumLe(vars: seq<Key>, rhs: int)               // sum of the listed 0/1 variables <= rhs
    | WeightedSumEq(total: nat, terms: seq<(int, Key)>) // total == sum of weight * variable
    | IntGe(v: nat, bound: int)                         // v >= bound
    | DiffEq(d: nat, plus: IntExpr, minus: IntExpr)     // d == plus - minus
    | MaxEq(target: nat, a: IntExpr, b: IntExpr)        // AddMaxEquality(target, [a, b])
    | MulEq(target: nat, a: IntExpr, b: IntExpr)        // AddMultiplicationEquality(target, [a, b])

  /** A whole model: integer variable i has domain intDomains[i]; the objective, when set, is
      the sum of the listed integer variables, to be minimised. */
  datatype Formulation = Formulation(intDomains: seq<Domain>, constraints: seq<Constraint>, objective: Option<seq<nat>>)

  /** A value for every Boolean and every integer variable. */
  datatype Valuation = Valuation(x: Key -> bool, iv: nat -> int)

  /** How many of the listed Boolean variables are true, a variable listed twice counted twice. */
  function Count(ks: seq<Key>, x: Key -> bool): (n: nat)
    ensures n <= |ks|
    ensures n == 0 <==> forall i :: 0 <= i < |ks| ==> !x(ks[i])
  {
    if ks == [] then 0 else (if x(ks[0]) then 1 else 0) + Count(ks[1..], x)
  }

  function WeightedSum(terms: seq<(int, Key)>, x: Key -> bool): int
  {
    if terms == [] then 0 else (if x(terms[0].1) then terms[0].0 else 0) + WeightedSum(terms[1..], x)
  }

  function Eval(e: IntExpr, v: Valuation): int
  {
    match e
    case Const(c) => c
    case Ref(i) => v.iv(i)
  }

  predicate Holds(c: Constraint, v: Valuation)
  {
    match c
    case BoolSumEq(ks, rhs) => Count(ks, v.x) == rhs
    case BoolSumLe(ks, rhs) => Count(ks, v.x) <= rhs
    case WeightedSumEq(t, terms) => v.iv(t) == WeightedSum(terms, v.x)
    case IntGe(t, bound) => v.iv(t) >= bound
    case DiffEq(d, a, b) => v.iv(d) == Eval(a, v) - Eval(b, v)
    case MaxEq(t, a, b) => v.iv(t) == (if Eval(a, v) >= Eval(b, v) then Eval(a, v) else Eval(b, v))
    case MulEq(t, a, b) => v.iv(t) == Eval(a, v) * Eval(b, v)
  }

  /** Every integer variable lies in its domain (checked from the last variable back, so that
      the model's append-only growth is mirrored by one unfolding). */
  predicate InDomains(ds: seq<Domain>, v: Valuation)
    decreases |ds|
  {
    ds == [] || (InDomains(ds[..|ds| - 1], v) && ds[|ds| - 1].lo <= v.iv(|ds| - 1) <= ds[|ds| - 1].hi)
  }

  /** Every constraint holds (checked from the last one back). */
  predicate HoldsAll(cs: seq<Constraint>, v: Valuation)
    decreases |cs|
  {
    cs == [] || (HoldsAll(cs[..|cs| - 1], v) && Holds(cs[|cs| - 1], v))
  }

  lemma {:induction false} InDomainsMeaning(ds: seq<Domain>, v: Valuation)
    ensures InDomains(ds, v) <==> forall i :: 0 <= i < |ds| ==> ds[i].lo <= v.iv(i) <= ds[i].hi
    decreases |ds|
  {
    if ds != [] {
      var pre := ds[..|ds| - 1];
      InDomainsMeaning(pre, v);
      assert forall i :: 0 <= i < |pre| ==> pre[i] == ds[i];
    }
  }

  lemma {:induction false} HoldsAllMeaning(cs: seq<Constraint>, v: Valuation)
    ensures HoldsAll(cs, v) <==> forall i :: 0 <= i < |cs| ==> Holds(cs[i], v)
    decreases |cs|
  {
    if cs != [] {
      var pre := cs[..|cs| - 1];
      HoldsAllMeaning(pre, v);
      assert forall i :: 0 <= i < |pre| ==> pre[i] == cs[i];
    }
  }

  /** The domains of a + b hold exactly when those of a hold and the variables after them lie in
      the domains of b. */
  lemma InDomainsAppend(a: seq<Domain>, b: seq<Domain>, v: Valuation)
    ensures InDomains(a + b, v) <==> InDomains(a, v) && forall i :: 0 <= i < |b| ==> b[i].lo <= v.iv(|a| + i) <= b[i].hi
  {
    InDomainsMeaning(a + b, v);
    InDomainsMeaning(a, v);
    var ab := a + b;
    assert forall i :: 0 <= i < |a| ==> ab[i] == a[i];
    assert forall i :: 0 <= i < |b| ==> ab[|a| + i] == b[i];
    if forall i :: 0 <= i < |b| ==> b[i].lo <= v.iv(|a| + i) <= b[i].hi {
      forall i | |a| <= i < |ab| ensures ab[i].lo <= v.iv(i) <= ab[i].hi {
        assert ab[|a| + (i - |a|)] == b[i - |a|];
      }
    }
  }

  lemma HoldsAllAppend(a: seq<Constraint>, b: seq<Constraint>, v: Valuation)
    ensures HoldsAll(a + b, v) <==> HoldsAll(a, v) && HoldsAll(b, v)
  {
    HoldsAllMeaning(a + b, v);
    HoldsAllMeaning(a, v);
    HoldsAllMeaning(b, v);
    var ab := a + b;
    assert forall i :: 0 <= i < |a| ==> ab[i] == a[i];
    assert forall i :: 0 <= i < |b| ==> ab[|a| + i] == b[i];
    if HoldsAll(a, v) && HoldsAll(b, v) {
      forall i | |a| <= i < |ab| ensures Holds(ab[i], v) {
        assert ab[|a| + (i - |a|)] == b[i - |a|];
      }
    }
  }

  /** `v` is a solution of `f`: every integer variable lies in its domain and every constraint holds. */
  predicate Satisfies(f: Formulation, v: Valuation)
  {
    InDomains(f.intDomains, v) && HoldsAll(f.constraints, v)
  }

  function SumOf(vars: seq<nat>, v: Valuation): int
  {
    if vars == [] then 0 else v.iv(vars[0]) + SumOf(vars[1..], v)
  }

  /** The mutable model object the solver fills in (`cp_model.CpModel()`). */
  class CpModel {
    var intDomains: seq<Domain>
    var constraints: seq<Constraint>
    var objective: Option<seq<nat>>

    /** The model built so far, as a value. */
    function Snapshot(): Formulation
      reads this
    {
      Formulation(intDomains, constraints, objective)
    }

    constructor ()
      ensures Snapshot() == Formulation([], [], None)
    {
      intDomains, constraints, objective := [], [], None;
    }

    /** Creates the next integer variable, with domain [lo, hi], and returns its index. */
    method NewIntVar(lo: int, hi: int) returns (v: nat)
      modifies this
      ensures v == |old(intDomains)|
      ensures intDomains == old(intDomains) + [Domain(lo, hi)]
      ensures constraints == old(constraints) && objective == old(objective)
    {
      v := |intDomains|;
      intDomains := intDomains + [Domain(lo, hi)];
    }

    method Add(c: Constraint)
      modifies this
      ensures constraints == old(constraints) + [c]
      ensures intDomains == old(intDomains) && objective == old(objective)
    {
      constraints := constraints + [c];
    }

    method AddMaxEquality(target: nat, a: IntExpr, b: IntExpr)
      modifies this
      ensures constraints == old(constraints) + [MaxEq(target, a, b)]
      ensures intDomains == old(intDomains) && objective == old(objective)
    {
      Add(MaxEq(target, a, b));
    }

    method AddMultiplicationEquality(target: nat, a: IntExpr, b: IntExpr)
      modifies this
      ensures constraints == old(constraints) + [MulEq(target, a, b)]
      ensures intDomains == old(intDomains) && objective == old(objective)
    {
      Add(MulEq(target, a, b));
    }

    /** Sets the objective: minimise the sum of the given integer variables. */
    method Minimize(terms: seq<nat>)
      modifies this
      ensures objective == Some(terms)
      ensures intDomains == old(intDomains) && constraints == old(constraints)
    {
      objective := Some(terms);
    }
  }

  /** The terminal statuses the engine reports. */
  datatype SolveStatus = Optimal | Feasible | Infeasible | Unknown | ModelInvalid

  /** `solver.StatusName(status)`. */
  function StatusName(s: SolveStatus): string
  {
    match s
    case Optimal => "OPTIMAL"
    case Feasible => "FEASIBLE"
    case Infeasible => "INFEASIBLE"
    case Unknown => "UNKNOWN"
    case ModelInvalid => "MODEL_INVALID"
  }

  predicate Solved(s: SolveStatus) { s == Optimal || s == Feasible }

  /** What one `solver.Solve(model)` call yields: a status and, read through `solver.Value`,
      a value for every variable (meaningful only when the status is OPTIMAL or FEASIBLE). */
  datatype EngineAnswer = EngineAnswer(status: SolveStatus, value: Valuation)

  /** v is a solution of f and, when f has an objective, no solution has a smaller one. */
  ghost predicate Optimum(f: Formulation, v: Valuation)
  {
    Satisfies(f, v)
    && (f.objective.Some? ==> forall w :: Satisfies(f, w) ==> SumOf(f.objective.value, v) <= SumOf(f.objective.value, w))
  }

  /** The engine's contract on one model: a solved status comes with a valuation that
      satisfies every posted constraint, and OPTIMAL with one that also minimises the
      objective. */
  ghost predicate Sound(f: Formulation, a: EngineAnswer)
  {
    (Solved(a.status) ==> Satisfies(f, a.value))
    && (a.status == Optimal ==> Optimum(f, a.value))
  }

  /** A model whose constraint list contains a constraint no valuation meets is never solved
      by an engine that keeps its contract. */
  lemma UnsatisfiableNeverSolved(f: Formulation, a: EngineAnswer, c: Constraint)
    requires Sound(f, a)
    requires c in f.constraints
    requires forall v :: !Holds(c, v)
    ensures !Solved(a.status)
  {
    if Solved(a.status) {
      HoldsAllMeaning(f.constraints, a.value);
    }
  }
}
