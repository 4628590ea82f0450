/** What the per-group, per-criterion encoding (solver.py:42-94) means for the placement
    variables: a placement extends to a solution of the criterion constraints exactly when every
    group sum stays within its bounds and thresholds, and then every squared-penalty variable
    equals the one-sided squared deviation of the group sum from its target. */
module CriteriaSemantics {
  import opened Models
  import opened Scaling
  import opened CpSat
  import opened Encoding
  import opened Penalty
  import opened Seqs

  /** The value the variable `group_sum` is constrained to: the scaled values of the eligible
      students that are placed in g. */
  function GroupSum(ss: seq<StudentConfig>, g: GroupConfig, name: string, x: Key -> bool): int
  {
    WeightedSum(SumTerms(ScaledVals(Eligible(ss, g.id), name), g.id), x)
  }

  /** `target_sum = int(target * size * SCALING_FACTOR)` of a minimize/maximize criterion. */
  function TargetSum(g: GroupConfig, cfg: CriterionConfig): int
    requires cfg.target.Some?
  {
    ScaledShare(cfg.target.value, g.size)
  }

  /** What one criterion demands of a placement: the group sum lies in [0, F * size], meets the
      threshold of a `constraint` criterion, and stays within F * size of the target of a
      `minimize`/`maximize` one (the range of `diff`). A group nobody may join is skipped. */
  ghost predicate CriterionMet(ss: seq<StudentConfig>, g: GroupConfig, name: string, cfg: CriterionConfig, x: Key -> bool)
  {
    Eligible(ss, g.id) == [] ||
    var s, b := GroupSum(ss, g, name, x), Bound(g);
    && 0 <= s <= b
    && (cfg.kind == Constraint && cfg.minRatio.Some? ==> s >= ScaledShare(cfg.minRatio.value, g.size))
    && (cfg.kind == Minimize && cfg.target.Some? ==> -b <= s - TargetSum(g, cfg) <= b)
    && (cfg.kind == Maximize && cfg.target.Some? ==> -b <= TargetSum(g, cfg) - s <= b)
  }

  /** The penalty one criterion contributes under a placement: none, or one squared deviation. */
  function CriterionPenalty(ss: seq<StudentConfig>, g: GroupConfig, name: string, cfg: CriterionConfig, x: Key -> bool): seq<int>
  {
    if Eligible(ss, g.id) == [] then []
    else
      match cfg.kind
      case Constraint => []
      case Minimize => if cfg.target.None? then [] else [MinimizePenalty(GroupSum(ss, g, name, x), TargetSum(g, cfg))]
      case Maximize => if cfg.target.None? then [] else [MaximizePenalty(GroupSum(ss, g, name, x), TargetSum(g, cfg))]
  }

  /** Values for the integer variables one criterion creates, in creation order:
      group_sum, then diff, penalty and penalty_sq when a penalty is posted. */
  function CriterionWitness(ss: seq<StudentConfig>, g: GroupConfig, name: string, cfg: CriterionConfig, x: Key -> bool): seq<int>
  {
    if Eligible(ss, g.id) == [] then []
    else
      var s := GroupSum(ss, g, name, x);
      match cfg.kind
      case Constraint => [s]
      case Minimize =>
        if cfg.target.None? then [s]
        else var d := s - TargetSum(g, cfg); [s, d, Max(0, d), Max(0, d) * Max(0, d)]
      case Maximize =>
        if cfg.target.None? then [s]
        else var d := TargetSum(g, cfg) - s; [s, d, Max(0, d), Max(0, d) * Max(0, d)]
  }

  /** Every criterion of cs is met (checked from the last one back, as the encoder appends). */
  ghost predicate CriteriaMet(ss: seq<StudentConfig>, g: GroupConfig, cs: seq<(string, CriterionConfig)>, x: Key -> bool)
    decreases |cs|
  {
    cs == [] || (CriteriaMet(ss, g, cs[..|cs| - 1], x) && CriterionMet(ss, g, cs[|cs| - 1].0, cs[|cs| - 1].1, x))
  }

  function CriteriaPenalties(ss: seq<StudentConfig>, g: GroupConfig, cs: seq<(string, CriterionConfig)>, x: Key -> bool): seq<int>
  {
    if cs == [] then []
    else CriteriaPenalties(ss, g, cs[..|cs| - 1], x) + CriterionPenalty(ss, g, cs[|cs| - 1].0, cs[|cs| - 1].1, x)
  }

  function CriteriaWitness(ss: seq<StudentConfig>, g: GroupConfig, cs: seq<(string, CriterionConfig)>, x: Key -> bool): seq<int>
  {
    if cs == [] then []
    else CriteriaWitness(ss, g, cs[..|cs| - 1], x) + CriterionWitness(ss, g, cs[|cs| - 1].0, cs[|cs| - 1].1, x)
  }

  /** Every criterion of every group is met. */
  ghost predicate AllCriteriaMet(ss: seq<StudentConfig>, gs: seq<GroupConfig>, x: Key -> bool)
    decreases |gs|
  {
    gs == [] || (AllCriteriaMet(ss, gs[..|gs| - 1], x) && CriteriaMet(ss, gs[|gs| - 1], gs[|gs| - 1].criteria, x))
  }

  /** The penalties of all groups, in the order the solver appends them. */
  function AllPenalties(ss: seq<StudentConfig>, gs: seq<GroupConfig>, x: Key -> bool): seq<int>
  {
    if gs == [] then []
    else AllPenalties(ss, gs[..|gs| - 1], x) + CriteriaPenalties(ss, gs[|gs| - 1], gs[|gs| - 1].criteria, x)
  }

  function AllWitness(ss: seq<StudentConfig>, gs: seq<GroupConfig>, x: Key -> bool): seq<int>
  {
    if gs == [] then []
    else AllWitness(ss, gs[..|gs| - 1], x) + CriteriaWitness(ss, gs[|gs| - 1], gs[|gs| - 1].criteria, x)
  }

  function Sum(s: seq<int>): int
  {
    if s == [] then 0 else s[0] + Sum(s[1..])
  }

  /** The values of the listed integer variables. */
  function Values(ps: seq<nat>, v: Valuation): (r: seq<int>)
    ensures |r| == |ps|
  {
    if ps == [] then [] else [v.iv(ps[0])] + Values(ps[1..], v)
  }

  // ---------------------------------------------------------------------------------------
  // Small facts used below
  // ---------------------------------------------------------------------------------------

  lemma {:induction false} ValuesAppend(a: seq<nat>, b: seq<nat>, v: Valuation)
    ensures Values(a + b, v) == Values(a, v) + Values(b, v)
  {
    if a == [] {
      assert a + b == b;
    } else {
      TailOfAppend(a, b);
      ValuesAppend(a[1..], b, v);
      AppendAssoc([v.iv(a[0])], Values(a[1..], v), Values(b, v));
    }
  }

  lemma {:induction false} SumAppend(a: seq<int>, b: seq<int>)
    ensures Sum(a + b) == Sum(a) + Sum(b)
  {
    if a == [] {
      assert a + b == b;
    } else {
      SumAppend(a[1..], b);
      assert (a + b)[1..] == a[1..] + b;
    }
  }

  lemma {:induction false} SumOfIsSumOfValues(ps: seq<nat>, v: Valuation)
    ensures SumOf(ps, v) == Sum(Values(ps, v))
  {
    if ps != [] {
      SumOfIsSumOfValues(ps[1..], v);
    }
  }

  lemma {:induction false} CriteriaMetMeaning(ss: seq<StudentConfig>, g: GroupConfig, cs: seq<(string, CriterionConfig)>, x: Key -> bool)
    ensures CriteriaMet(ss, g, cs, x) <==> forall i :: 0 <= i < |cs| ==> CriterionMet(ss, g, cs[i].0, cs[i].1, x)
    decreases |cs|
  {
    if cs != [] {
      var pre := cs[..|cs| - 1];
      CriteriaMetMeaning(ss, g, pre, x);
      assert forall i :: 0 <= i < |pre| ==> pre[i] == cs[i];
    }
  }

  lemma {:induction false} AllCriteriaMetMeaning(ss: seq<StudentConfig>, gs: seq<GroupConfig>, x: Key -> bool)
    ensures AllCriteriaMet(ss, gs, x) <==> forall i :: 0 <= i < |gs| ==> CriteriaMet(ss, gs[i], gs[i].criteria, x)
    decreases |gs|
  {
    if gs != [] {
      var pre := gs[..|gs| - 1];
      AllCriteriaMetMeaning(ss, pre, x);
      assert forall i :: 0 <= i < |pre| ==> pre[i] == gs[i];
    }
  }

  /** A state that an encoder extended is satisfied whenever the extension is. */
  lemma ExtendsKeepsSolutions(st: EncState, st': EncState, v: Valuation)
    requires Extends(st, st')
    requires InDomains(st'.model.intDomains, v) && HoldsAll(st'.model.constraints, v)
    ensures InDomains(st.model.intDomains, v) && HoldsAll(st.model.constraints, v)
  {
    InDomainsMeaning(st.model.intDomains, v);
    InDomainsMeaning(st'.model.intDomains, v);
    HoldsAllMeaning(st.model.constraints, v);
    HoldsAllMeaning(st'.model.constraints, v);
    forall i | 0 <= i < |st.model.intDomains|
      ensures st.model.intDomains[i].lo <= v.iv(i) <= st.model.intDomains[i].hi
    {
      assert st.model.intDomains[i] == st'.model.intDomains[i];
    }
    forall i | 0 <= i < |st.model.constraints| ensures Holds(st.model.constraints[i], v) {
      assert st.model.constraints[i] == st'.model.constraints[i];
    }
  }

  // ---------------------------------------------------------------------------------------
  // Soundness: a solution of the criterion constraints meets the criteria, and its penalty
  // variables carry the squared deviations
  // ---------------------------------------------------------------------------------------

  /** The squared-penalty chain diff / max / multiplication computes the one-sided square. */
  lemma PenaltyChainSound(st: EncState, n: nat, bound: int, plus: IntExpr, minus: IntExpr, v: Valuation)
    requires n == |st.model.intDomains| - 1
    requires var r := WithPenalty(st, n, bound, plus, minus); InDomains(r.model.intDomains, v) && HoldsAll(r.model.constraints, v)
    ensures -bound <= Eval(plus, v) - Eval(minus, v) <= bound
    ensures var d := Eval(plus, v) - Eval(minus, v);
            Values(WithPenalty(st, n, bound, plus, minus).penalties, v) == Values(st.penalties, v) + [Max(0, d) * Max(0, d)]
  {
    var ds := [Domain(-bound, bound), Domain(0, bound), Domain(0, bound * bound)];
    var cs := [DiffEq(n + 1, plus, minus), MaxEq(n + 2, Const(0), Ref(n + 1)), MulEq(n + 3, Ref(n + 2), Ref(n + 2))];
    InDomainsAppend(st.model.intDomains, ds, v);
    assert ds[0].lo <= v.iv(n + 1) <= ds[0].hi by {
      assert n + 1 == |st.model.intDomains| + 0;
    }
    HoldsAllAppend(st.model.constraints, cs, v);
    HoldsAllMeaning(cs, v);
    assert Holds(cs[0], v) && Holds(cs[1], v) && Holds(cs[2], v);
    ValuesAppend(st.penalties, [n + 3], v);
  }

  /** The group-sum variable of a solution carries the group sum, within [0, F * size]. */
  lemma GroupSumSound(st: EncState, ss: seq<StudentConfig>, g: GroupConfig, name: string, r: EncState, v: Valuation)
    requires Extends(WithGroupSum(st, Eligible(ss, g.id), g, name), r)
    requires InDomains(r.model.intDomains, v) && HoldsAll(r.model.constraints, v)
    ensures var n := |st.model.intDomains|; v.iv(n) == GroupSum(ss, g, name, v.x) && 0 <= v.iv(n) <= Bound(g)
  {
    var withSum := WithGroupSum(st, Eligible(ss, g.id), g, name);
    var n := |st.model.intDomains|;
    var sumC := WeightedSumEq(n, SumTerms(ScaledVals(Eligible(ss, g.id), name), g.id));
    ExtendsKeepsSolutions(withSum, r, v);
    InDomainsAppend(st.model.intDomains, [Domain(0, Bound(g))], v);
    assert v.iv(n + 0) == v.iv(n);
    HoldsAllAppend(st.model.constraints, [sumC], v);
    HoldsAllMeaning([sumC], v);
    assert Holds([sumC][0], v);
  }

  /** A `constraint` criterion: the group sum meets the threshold and adds no penalty. */
  lemma ThresholdSound(st: EncState, ss: seq<StudentConfig>, g: GroupConfig, name: string, cfg: CriterionConfig, v: Valuation)
    requires Eligible(ss, g.id) != [] && cfg.kind == Constraint
    requires var r := EncodeCriterion(st, ss, g, name, cfg); InDomains(r.model.intDomains, v) && HoldsAll(r.model.constraints, v)
    ensures CriterionMet(ss, g, name, cfg, v.x)
    ensures Values(EncodeCriterion(st, ss, g, name, cfg).penalties, v) == Values(st.penalties, v) + CriterionPenalty(ss, g, name, cfg, v.x)
  {
    var r := EncodeCriterion(st, ss, g, name, cfg);
    var withSum := WithGroupSum(st, Eligible(ss, g.id), g, name);
    GroupSumSound(st, ss, g, name, r, v);
    if cfg.minRatio.Some? {
      var ge := IntGe(|st.model.intDomains|, ScaledShare(cfg.minRatio.value, g.size));
      HoldsAllAppend(withSum.model.constraints, [ge], v);
      HoldsAllMeaning([ge], v);
      assert Holds([ge][0], v);
    }
    AppendNil(Values(st.penalties, v));
  }

  /** A `minimize` criterion with a target: the overshoot stays in range and the penalty
      variable carries its square. */
  lemma MinimizeSound(st: EncState, ss: seq<StudentConfig>, g: GroupConfig, name: string, cfg: CriterionConfig, v: Valuation)
    requires Eligible(ss, g.id) != [] && cfg.kind == Minimize && cfg.target.Some?
    requires var r := EncodeCriterion(st, ss, g, name, cfg); InDomains(r.model.intDomains, v) && HoldsAll(r.model.constraints, v)
    ensures CriterionMet(ss, g, name, cfg, v.x)
    ensures Values(EncodeCriterion(st, ss, g, name, cfg).penalties, v) == Values(st.penalties, v) + CriterionPenalty(ss, g, name, cfg, v.x)
  {
    var n, ts := |st.model.intDomains|, TargetSum(g, cfg);
    var withSum := WithGroupSum(st, Eligible(ss, g.id), g, name);
    var r := WithPenalty(withSum, n, Bound(g), Ref(n), Const(ts));
    assert r == EncodeCriterion(st, ss, g, name, cfg);
    GroupSumSound(st, ss, g, name, r, v);
    PenaltyChainSound(withSum, n, Bound(g), Ref(n), Const(ts), v);
    var s := GroupSum(ss, g, name, v.x);
    assert CriterionPenalty(ss, g, name, cfg, v.x) == [MinimizePenalty(s, ts)];
  }

  /** A `maximize` criterion with a target: the shortfall stays in range and the penalty
      variable carries its square. */
  lemma MaximizeSound(st: EncState, ss: seq<StudentConfig>, g: GroupConfig, name: string, cfg: CriterionConfig, v: Valuation)
    requires Eligible(ss, g.id) != [] && cfg.kind == Maximize && cfg.target.Some?
    requires var r := EncodeCriterion(st, ss, g, name, cfg); InDomains(r.model.intDomains, v) && HoldsAll(r.model.constraints, v)
    ensures CriterionMet(ss, g, name, cfg, v.x)
    ensures Values(EncodeCriterion(st, ss, g, name, cfg).penalties, v) == Values(st.penalties, v) + CriterionPenalty(ss, g, name, cfg, v.x)
  {
    var n, ts := |st.model.intDomains|, TargetSum(g, cfg);
    var withSum := WithGroupSum(st, Eligible(ss, g.id), g, name);
    var r := WithPenalty(withSum, n, Bound(g), Const(ts), Ref(n));
    assert r == EncodeCriterion(st, ss, g, name, cfg);
    GroupSumSound(st, ss, g, name, r, v);
    PenaltyChainSound(withSum, n, Bound(g), Const(ts), Ref(n), v);
    var s := GroupSum(ss, g, name, v.x);
    assert CriterionPenalty(ss, g, name, cfg, v.x) == [MaximizePenalty(s, ts)];
  }

  lemma CriterionSound(st: EncState, ss: seq<StudentConfig>, g: GroupConfig, name: string, cfg: CriterionConfig, v: Valuation)
    requires var r := EncodeCriterion(st, ss, g, name, cfg); InDomains(r.model.intDomains, v) && HoldsAll(r.model.constraints, v)
    ensures CriterionMet(ss, g, name, cfg, v.x)
    ensures Values(EncodeCriterion(st, ss, g, name, cfg).penalties, v) == Values(st.penalties, v) + CriterionPenalty(ss, g, name, cfg, v.x)
  {
    if Eligible(ss, g.id) == [] {
      AppendNil(Values(st.penalties, v));
    } else if cfg.kind == Constraint {
      ThresholdSound(st, ss, g, name, cfg, v);
    } else if cfg.target.Some? {
      if cfg.kind == Minimize {
        MinimizeSound(st, ss, g, name, cfg, v);
      } else {
        MaximizeSound(st, ss, g, name, cfg, v);
      }
    } else {
      GroupSumSound(st, ss, g, name, EncodeCriterion(st, ss, g, name, cfg), v);
      AppendNil(Values(st.penalties, v));
    }
  }

  lemma {:induction false} CriteriaSound(st: EncState, ss: seq<StudentConfig>, g: GroupConfig, cs: seq<(string, CriterionConfig)>, v: Valuation)
    requires var r := EncodeCriteria(st, ss, g, cs); InDomains(r.model.intDomains, v) && HoldsAll(r.model.constraints, v)
    ensures CriteriaMet(ss, g, cs, v.x)
    ensures Values(EncodeCriteria(st, ss, g, cs).penalties, v) == Values(st.penalties, v) + CriteriaPenalties(ss, g, cs, v.x)
  {
    if cs != [] {
      var pre, c := cs[..|cs| - 1], cs[|cs| - 1];
      var mid := EncodeCriteria(st, ss, g, pre);
      var r := EncodeCriterion(mid, ss, g, c.0, c.1);
      assert r == EncodeCriteria(st, ss, g, cs);
      ExtendsKeepsSolutions(mid, r, v);
      CriteriaSound(st, ss, g, pre, v);
      CriterionSound(mid, ss, g, c.0, c.1, v);
      var a, b, d := Values(st.penalties, v), CriteriaPenalties(ss, g, pre, v.x), CriterionPenalty(ss, g, c.0, c.1, v.x);
      assert CriteriaPenalties(ss, g, cs, v.x) == b + d;
      AppendAssoc(a, b, d);
    } else {
      assert CriteriaPenalties(ss, g, cs, v.x) == [];
      AppendNil(Values(st.penalties, v));
    }
  }

  lemma {:induction false} GroupsSound(st: EncState, ss: seq<StudentConfig>, gs: seq<GroupConfig>, v: Valuation)
    requires var r := EncodeGroups(st, ss, gs); InDomains(r.model.intDomains, v) && HoldsAll(r.model.constraints, v)
    ensures AllCriteriaMet(ss, gs, v.x)
    ensures Values(EncodeGroups(st, ss, gs).penalties, v) == Values(st.penalties, v) + AllPenalties(ss, gs, v.x)
  {
    if gs != [] {
      var pre, g := gs[..|gs| - 1], gs[|gs| - 1];
      var mid := EncodeGroups(st, ss, pre);
      var r := EncodeCriteria(mid, ss, g, g.criteria);
      assert r == EncodeGroups(st, ss, gs);
      ExtendsKeepsSolutions(mid, r, v);
      GroupsSound(st, ss, pre, v);
      CriteriaSound(mid, ss, g, g.criteria, v);
      var a, b, d := Values(st.penalties, v), AllPenalties(ss, pre, v.x), CriteriaPenalties(ss, g, g.criteria, v.x);
      assert AllPenalties(ss, gs, v.x) == b + d;
      AppendAssoc(a, b, d);
    } else {
      assert AllPenalties(ss, gs, v.x) == [];
      AppendNil(Values(st.penalties, v));
    }
  }

  // ---------------------------------------------------------------------------------------
  // Completeness: a placement meeting the criteria extends to a solution
  // ---------------------------------------------------------------------------------------

  lemma PenaltyChainComplete(st: EncState, n: nat, bound: int, plus: IntExpr, minus: IntExpr, v: Valuation)
    requires n == |st.model.intDomains| - 1
    requires InDomains(st.model.intDomains, v) && HoldsAll(st.model.constraints, v)
    requires var d := Eval(plus, v) - Eval(minus, v);
             && -bound <= d <= bound
             && v.iv(n + 1) == d && v.iv(n + 2) == Max(0, d) && v.iv(n + 3) == Max(0, d) * Max(0, d)
    ensures var r := WithPenalty(st, n, bound, plus, minus); InDomains(r.model.intDomains, v) && HoldsAll(r.model.constraints, v)
  {
    var d := Eval(plus, v) - Eval(minus, v);
    var p := Max(0, d);
    SquareWithin(p, bound);
    var ds := [Domain(-bound, bound), Domain(0, bound), Domain(0, bound * bound)];
    var cs := [DiffEq(n + 1, plus, minus), MaxEq(n + 2, Const(0), Ref(n + 1)), MulEq(n + 3, Ref(n + 2), Ref(n + 2))];
    forall i | 0 <= i < |ds| ensures ds[i].lo <= v.iv(|st.model.intDomains| + i) <= ds[i].hi {
      assert |st.model.intDomains| + i == n + 1 + i;
    }
    InDomainsAppend(st.model.intDomains, ds, v);
    HoldsAllMeaning(cs, v);
    HoldsAllAppend(st.model.constraints, cs, v);
  }

  lemma SquareWithin(p: int, bound: int)
    requires 0 <= p <= bound
    ensures 0 <= p * p <= bound * bound
  {
    assert p * p <= p * bound <= bound * bound;
  }

  /** The group-sum variable, set to the group sum, satisfies its domain and its equation. */
  lemma GroupSumComplete(st: EncState, ss: seq<StudentConfig>, g: GroupConfig, name: string, v: Valuation)
    requires InDomains(st.model.intDomains, v) && HoldsAll(st.model.constraints, v)
    requires var s := GroupSum(ss, g, name, v.x); 0 <= s <= Bound(g) && v.iv(|st.model.intDomains|) == s
    ensures var r := WithGroupSum(st, Eligible(ss, g.id), g, name); InDomains(r.model.intDomains, v) && HoldsAll(r.model.constraints, v)
  {
    var n := |st.model.intDomains|;
    var sumC := WeightedSumEq(n, SumTerms(ScaledVals(Eligible(ss, g.id), name), g.id));
    assert v.iv(n + 0) == v.iv(n);
    InDomainsAppend(st.model.intDomains, [Domain(0, Bound(g))], v);
    HoldsAllMeaning([sumC], v);
    HoldsAllAppend(st.model.constraints, [sumC], v);
  }

  /** How many integer variables one criterion creates. */
  function CriterionVarCount(ss: seq<StudentConfig>, g: GroupConfig, cfg: CriterionConfig): nat
  {
    if Eligible(ss, g.id) == [] then 0
    else if cfg.kind != Constraint && cfg.target.Some? then 4
    else 1
  }

  function CriteriaVarCount(ss: seq<StudentConfig>, g: GroupConfig, cs: seq<(string, CriterionConfig)>): nat
  {
    if cs == [] then 0
    else CriteriaVarCount(ss, g, cs[..|cs| - 1]) + CriterionVarCount(ss, g, cs[|cs| - 1].1)
  }

  function AllVarCount(ss: seq<StudentConfig>, gs: seq<GroupConfig>): nat
  {
    if gs == [] then 0
    else AllVarCount(ss, gs[..|gs| - 1]) + CriteriaVarCount(ss, gs[|gs| - 1], gs[|gs| - 1].criteria)
  }

  /** The one-sided deviation `diff` of a minimize (sum above target) or maximize (target above
      sum) criterion. */
  function Deviation(ss: seq<StudentConfig>, g: GroupConfig, name: string, cfg: CriterionConfig, x: Key -> bool): int
    requires cfg.target.Some?
  {
    if cfg.kind == Minimize then GroupSum(ss, g, name, x) - TargetSum(g, cfg)
    else TargetSum(g, cfg) - GroupSum(ss, g, name, x)
  }

  /** The variables of one criterion, starting at lo, hold the group sum and, where a penalty
      is posted, the deviation, its positive part and that part squared. */
  ghost predicate CriterionVarsSet(v: Valuation, lo: nat, ss: seq<StudentConfig>, g: GroupConfig, name: string, cfg: CriterionConfig)
  {
    Eligible(ss, g.id) == [] ||
    (v.iv(lo) == GroupSum(ss, g, name, v.x)
     && (cfg.kind != Constraint && cfg.target.Some? ==>
           var d := Deviation(ss, g, name, cfg, v.x);
           v.iv(lo + 1) == d && v.iv(lo + 2) == Max(0, d) && v.iv(lo + 3) == Max(0, d) * Max(0, d)))
  }

  ghost predicate CriteriaVarsSet(v: Valuation, lo: nat, ss: seq<StudentConfig>, g: GroupConfig, cs: seq<(string, CriterionConfig)>)
    decreases |cs|
  {
    cs == [] ||
    (CriteriaVarsSet(v, lo, ss, g, cs[..|cs| - 1])
     && CriterionVarsSet(v, lo + CriteriaVarCount(ss, g, cs[..|cs| - 1]), ss, g, cs[|cs| - 1].0, cs[|cs| - 1].1))
  }

  ghost predicate AllVarsSet(v: Valuation, lo: nat, ss: seq<StudentConfig>, gs: seq<GroupConfig>)
    decreases |gs|
  {
    gs == [] ||
    (AllVarsSet(v, lo, ss, gs[..|gs| - 1])
     && CriteriaVarsSet(v, lo + AllVarCount(ss, gs[..|gs| - 1]), ss, gs[|gs| - 1], gs[|gs| - 1].criteria))
  }

  lemma ThresholdComplete(st: EncState, ss: seq<StudentConfig>, g: GroupConfig, name: string, cfg: CriterionConfig, v: Valuation)
    requires Eligible(ss, g.id) != [] && cfg.kind == Constraint
    requires CriterionVarsSet(v, |st.model.intDomains|, ss, g, name, cfg)
    requires InDomains(st.model.intDomains, v) && HoldsAll(st.model.constraints, v)
    requires CriterionMet(ss, g, name, cfg, v.x)
    ensures var r := EncodeCriterion(st, ss, g, name, cfg);
            && |r.model.intDomains| == |st.model.intDomains| + CriterionVarCount(ss, g, cfg)
            && InDomains(r.model.intDomains, v) && HoldsAll(r.model.constraints, v)
  {
    var n := |st.model.intDomains|;
    GroupSumComplete(st, ss, g, name, v);
    if cfg.minRatio.Some? {
      var withSum := WithGroupSum(st, Eligible(ss, g.id), g, name);
      var ge := IntGe(n, ScaledShare(cfg.minRatio.value, g.size));
      HoldsAllMeaning([ge], v);
      HoldsAllAppend(withSum.model.constraints, [ge], v);
    }
  }

  lemma MinimizeComplete(st: EncState, ss: seq<StudentConfig>, g: GroupConfig, name: string, cfg: CriterionConfig, v: Valuation)
    requires Eligible(ss, g.id) != [] && cfg.kind == Minimize && cfg.target.Some?
    requires CriterionVarsSet(v, |st.model.intDomains|, ss, g, name, cfg)
    requires InDomains(st.model.intDomains, v) && HoldsAll(st.model.constraints, v)
    requires CriterionMet(ss, g, name, cfg, v.x)
    ensures var r := EncodeCriterion(st, ss, g, name, cfg);
            && |r.model.intDomains| == |st.model.intDomains| + CriterionVarCount(ss, g, cfg)
            && InDomains(r.model.intDomains, v) && HoldsAll(r.model.constraints, v)
  {
    var n, ts := |st.model.intDomains|, TargetSum(g, cfg);
    GroupSumComplete(st, ss, g, name, v);
    var withSum := WithGroupSum(st, Eligible(ss, g.id), g, name);
    PenaltyChainComplete(withSum, n, Bound(g), Ref(n), Const(ts), v);
    assert WithPenalty(withSum, n, Bound(g), Ref(n), Const(ts)) == EncodeCriterion(st, ss, g, name, cfg);
  }

  lemma MaximizeComplete(st: EncState, ss: seq<StudentConfig>, g: GroupConfig, name: string, cfg: CriterionConfig, v: Valuation)
    requires Eligible(ss, g.id) != [] && cfg.kind == Maximize && cfg.target.Some?
    requires CriterionVarsSet(v, |st.model.intDomains|, ss, g, name, cfg)
    requires InDomains(st.model.intDomains, v) && HoldsAll(st.model.constraints, v)
    requires CriterionMet(ss, g, name, cfg, v.x)
    ensures var r := EncodeCriterion(st, ss, g, name, cfg);
            && |r.model.intDomains| == |st.model.intDomains| + CriterionVarCount(ss, g, cfg)
            && InDomains(r.model.intDomains, v) && HoldsAll(r.model.constraints, v)
  {
    var n, ts := |st.model.intDomains|, TargetSum(g, cfg);
    GroupSumComplete(st, ss, g, name, v);
    var withSum := WithGroupSum(st, Eligible(ss, g.id), g, name);
    PenaltyChainComplete(withSum, n, Bound(g), Const(ts), Ref(n), v);
    assert WithPenalty(withSum, n, Bound(g), Const(ts), Ref(n)) == EncodeCriterion(st, ss, g, name, cfg);
  }

  /** A placement that meets a criterion, with the criterion's variables set as above, satisfies
      everything the criterion posts. */
  lemma CriterionComplete(st: EncState, ss: seq<StudentConfig>, g: GroupConfig, name: string, cfg: CriterionConfig, v: Valuation)
    requires CriterionVarsSet(v, |st.model.intDomains|, ss, g, name, cfg)
    requires InDomains(st.model.intDomains, v) && HoldsAll(st.model.constraints, v)
    requires CriterionMet(ss, g, name, cfg, v.x)
    ensures var r := EncodeCriterion(st, ss, g, name, cfg);
            && |r.model.intDomains| == |st.model.intDomains| + CriterionVarCount(ss, g, cfg)
            && InDomains(r.model.intDomains, v) && HoldsAll(r.model.constraints, v)
  {
    if Eligible(ss, g.id) != [] {
      if cfg.kind == Constraint {
        ThresholdComplete(st, ss, g, name, cfg, v);
      } else if cfg.target.None? {
        GroupSumComplete(st, ss, g, name, v);
      } else if cfg.kind == Minimize {
        MinimizeComplete(st, ss, g, name, cfg, v);
      } else {
        MaximizeComplete(st, ss, g, name, cfg, v);
      }
    }
  }

  lemma {:induction false} CriteriaComplete(st: EncState, ss: seq<StudentConfig>, g: GroupConfig, cs: seq<(string, CriterionConfig)>, v: Valuation)
    requires CriteriaVarsSet(v, |st.model.intDomains|, ss, g, cs)
    requires InDomains(st.model.intDomains, v) && HoldsAll(st.model.constraints, v)
    requires CriteriaMet(ss, g, cs, v.x)
    ensures var r := EncodeCriteria(st, ss, g, cs);
            && |r.model.intDomains| == |st.model.intDomains| + CriteriaVarCount(ss, g, cs)
            && InDomains(r.model.intDomains, v) && HoldsAll(r.model.constraints, v)
  {
    if cs != [] {
      var pre, c := cs[..|cs| - 1], cs[|cs| - 1];
      CriteriaComplete(st, ss, g, pre, v);
      CriterionComplete(EncodeCriteria(st, ss, g, pre), ss, g, c.0, c.1, v);
    }
  }

  lemma {:induction false} GroupsComplete(st: EncState, ss: seq<StudentConfig>, gs: seq<GroupConfig>, v: Valuation)
    requires AllVarsSet(v, |st.model.intDomains|, ss, gs)
    requires InDomains(st.model.intDomains, v) && HoldsAll(st.model.constraints, v)
    requires AllCriteriaMet(ss, gs, v.x)
    ensures var r := EncodeGroups(st, ss, gs);
            && |r.model.intDomains| == |st.model.intDomains| + AllVarCount(ss, gs)
            && InDomains(r.model.intDomains, v) && HoldsAll(r.model.constraints, v)
  {
    if gs != [] {
      var pre, g := gs[..|gs| - 1], gs[|gs| - 1];
      GroupsComplete(st, ss, pre, v);
      CriteriaComplete(EncodeGroups(st, ss, pre), ss, g, g.criteria, v);
    }
  }

  // ---------------------------------------------------------------------------------------
  // A valuation that sets every criterion variable
  // ---------------------------------------------------------------------------------------

  /** The integer variables lo, lo + 1, ... of v hold the values of part. */
  ghost predicate Carries(v: Valuation, lo: nat, part: seq<int>)
  {
    forall k :: 0 <= k < |part| ==> v.iv(lo + k) == part[k]
  }

  lemma CarriesSplit(v: Valuation, lo: nat, a: seq<int>, b: seq<int>)
    requires Carries(v, lo, a + b)
    ensures Carries(v, lo, a) && Carries(v, lo + |a|, b)
  {
    forall k | 0 <= k < |a| ensures v.iv(lo + k) == a[k] {
      assert (a + b)[k] == a[k];
    }
    forall k | 0 <= k < |b| ensures v.iv(lo + |a| + k) == b[k] {
      assert (a + b)[|a| + k] == b[k];
      assert v.iv(lo + (|a| + k)) == (a + b)[|a| + k];
    }
  }

  /** The integer part of a valuation read from a list of values (0 past its end). */
  function Lookup(w: seq<int>): nat -> int
  {
    (i: nat) => if i < |w| then w[i] else 0
  }

  lemma CriterionWitnessFits(v: Valuation, lo: nat, ss: seq<StudentConfig>, g: GroupConfig, name: string, cfg: CriterionConfig)
    requires Carries(v, lo, CriterionWitness(ss, g, name, cfg, v.x))
    ensures CriterionVarsSet(v, lo, ss, g, name, cfg)
    ensures |CriterionWitness(ss, g, name, cfg, v.x)| == CriterionVarCount(ss, g, cfg)
  {
    var w := CriterionWitness(ss, g, name, cfg, v.x);
    if Eligible(ss, g.id) != [] {
      assert v.iv(lo + 0) == w[0];
      if cfg.kind != Constraint && cfg.target.Some? {
        assert v.iv(lo + 1) == w[1] && v.iv(lo + 2) == w[2] && v.iv(lo + 3) == w[3];
      }
    }
  }

  lemma {:induction false} CriteriaWitnessFits(v: Valuation, lo: nat, ss: seq<StudentConfig>, g: GroupConfig, cs: seq<(string, CriterionConfig)>)
    requires Carries(v, lo, CriteriaWitness(ss, g, cs, v.x))
    ensures CriteriaVarsSet(v, lo, ss, g, cs)
    ensures |CriteriaWitness(ss, g, cs, v.x)| == CriteriaVarCount(ss, g, cs)
  {
    if cs != [] {
      var pre, c := cs[..|cs| - 1], cs[|cs| - 1];
      var a := CriteriaWitness(ss, g, pre, v.x);
      CarriesSplit(v, lo, a, CriterionWitness(ss, g, c.0, c.1, v.x));
      CriteriaWitnessFits(v, lo, ss, g, pre);
      CriterionWitnessFits(v, lo + |a|, ss, g, c.0, c.1);
    }
  }

  lemma {:induction false} AllWitnessFits(v: Valuation, lo: nat, ss: seq<StudentConfig>, gs: seq<GroupConfig>)
    requires Carries(v, lo, AllWitness(ss, gs, v.x))
    ensures AllVarsSet(v, lo, ss, gs)
    ensures |AllWitness(ss, gs, v.x)| == AllVarCount(ss, gs)
  {
    if gs != [] {
      var pre, g := gs[..|gs| - 1], gs[|gs| - 1];
      var a := AllWitness(ss, pre, v.x);
      CarriesSplit(v, lo, a, CriteriaWitness(ss, g, g.criteria, v.x));
      AllWitnessFits(v, lo, ss, pre);
      CriteriaWitnessFits(v, lo + |a|, ss, g, g.criteria);
    }
  }
}
