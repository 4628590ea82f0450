/** What the uniqueness, capacity and exclusion constraints (solver.py:16-37) mean for the
    placement variables, in both directions: a placement satisfies the posted constraints
    exactly when it meets these conditions. */
module HardSemantics {
  import opened Models
  import opened CpSat
  import opened Encoding
  import opened Seqs

  // ---------------------------------------------------------------------------------------
  // Uniqueness (solver.py:17-18)
  // ---------------------------------------------------------------------------------------

  /** Every student's 0/1 sum over its eligible list is 1. */
  ghost predicate UniquenessMet(ss: seq<StudentConfig>, x: Key -> bool)
  {
    forall i :: 0 <= i < |ss| ==> Count(StudentKeys(ss[i]), x) == 1
  }

  lemma UniquenessMeaning(ss: seq<StudentConfig>, v: Valuation)
    ensures HoldsAll(UniquenessConstraints(ss), v) <==> UniquenessMet(ss, v.x)
  {
    var cs := UniquenessConstraints(ss);
    HoldsAllMeaning(cs, v);
    if HoldsAll(cs, v) {
      forall i | 0 <= i < |ss| ensures Count(StudentKeys(ss[i]), v.x) == 1 {
        assert Holds(cs[i], v);
      }
    }
  }

  /** The student is placed in exactly one group of its list (a group listed twice counts
      once). */
  ghost predicate InExactlyOneGroup(s: StudentConfig, x: Key -> bool)
  {
    exists g :: g in s.possibleGroups && x((s.id, g))
      && forall h :: h in s.possibleGroups && x((s.id, h)) ==> h == g
  }

  /** A 0/1 sum equal to 1 has exactly one true position. */
  lemma {:induction false} CountOne(ks: seq<Key>, x: Key -> bool)
    requires Count(ks, x) == 1
    ensures exists i :: 0 <= i < |ks| && x(ks[i]) && forall j :: 0 <= j < |ks| && x(ks[j]) ==> j == i
  {
    if x(ks[0]) {
      assert Count(ks[1..], x) == 0;
      forall j | 0 < j < |ks| ensures !x(ks[j]) {
        assert ks[1..][j - 1] == ks[j];
      }
    } else {
      CountOne(ks[1..], x);
      var i :| 0 <= i < |ks[1..]| && x(ks[1..][i]) && forall j :: 0 <= j < |ks[1..]| && x(ks[1..][j]) ==> j == i;
      forall j | 0 <= j < |ks| && x(ks[j]) ensures j == i + 1 {
        assert j != 0;
        assert ks[1..][j - 1] == ks[j];
      }
    }
  }

  /** The uniqueness constraint of one student places it in exactly one of its groups. */
  lemma PlacedOnce(s: StudentConfig, x: Key -> bool)
    requires Count(StudentKeys(s), x) == 1
    ensures InExactlyOneGroup(s, x)
  {
    var ks := StudentKeys(s);
    CountOne(ks, x);
    var i :| 0 <= i < |ks| && x(ks[i]) && forall j :: 0 <= j < |ks| && x(ks[j]) ==> j == i;
    var g := s.possibleGroups[i];
    forall h | h in s.possibleGroups && x((s.id, h)) ensures h == g {
      var j :| 0 <= j < |s.possibleGroups| && s.possibleGroups[j] == h;
      assert ks[j] == (s.id, h);
    }
  }

  /** A student with an empty eligible list posts `0 == 1`, which nothing satisfies. */
  lemma EmptyListUnsatisfiable(ss: seq<StudentConfig>, i: nat, v: Valuation)
    requires i < |ss| && ss[i].possibleGroups == []
    ensures !HoldsAll(UniquenessConstraints(ss), v)
  {
    UniquenessMeaning(ss, v);
    assert StudentKeys(ss[i]) == [];
  }

  // ---------------------------------------------------------------------------------------
  // Capacity (solver.py:21-28)
  // ---------------------------------------------------------------------------------------

  /** A group somebody may join receives exactly `size` students; one nobody may join is
      unconstrained. */
  ghost predicate GroupFilled(ss: seq<StudentConfig>, g: GroupConfig, x: Key -> bool)
  {
    Eligible(ss, g.id) == [] || Count(KeysFor(Eligible(ss, g.id), g.id), x) == g.size
  }

  ghost predicate CapacityMet(ss: seq<StudentConfig>, gs: seq<GroupConfig>, x: Key -> bool)
  {
    forall i :: 0 <= i < |gs| ==> GroupFilled(ss, gs[i], x)
  }

  /** A group nobody may join contributes no constraint. */
  lemma EmptyGroupPostsNothing(ss: seq<StudentConfig>, g: GroupConfig)
    requires Eligible(ss, g.id) == []
    ensures CapacityConstraint(ss, g) == []
  {
    assert KeysFor(Eligible(ss, g.id), g.id) == [];
  }

  lemma GroupFilledMeaning(ss: seq<StudentConfig>, g: GroupConfig, v: Valuation)
    ensures HoldsAll(CapacityConstraint(ss, g), v) <==> GroupFilled(ss, g, v.x)
  {
    var keys := KeysFor(Eligible(ss, g.id), g.id);
    assert keys == [] <==> Eligible(ss, g.id) == [];
    if keys != [] {
      var c := BoolSumEq(keys, g.size);
      assert CapacityConstraint(ss, g) == [c];
      assert HoldsAll([c], v) <==> Holds(c, v) by {
        assert c in [c];
      }
    }
  }

  lemma CapacityMetSnoc(ss: seq<StudentConfig>, pre: seq<GroupConfig>, g: GroupConfig, x: Key -> bool)
    ensures CapacityMet(ss, pre + [g], x) <==> CapacityMet(ss, pre, x) && GroupFilled(ss, g, x)
  {
    var gs := pre + [g];
    if CapacityMet(ss, gs, x) {
      forall i | 0 <= i < |pre| ensures GroupFilled(ss, pre[i], x) {
        assert gs[i] == pre[i];
      }
      assert gs[|pre|] == g;
    }
  }

  lemma {:induction false} CapacityMeaning(ss: seq<StudentConfig>, gs: seq<GroupConfig>, v: Valuation)
    ensures HoldsAll(CapacityConstraints(ss, gs), v) <==> CapacityMet(ss, gs, v.x)
  {
    if gs != [] {
      var pre, g := gs[..|gs| - 1], gs[|gs| - 1];
      LastSplit(gs);
      CapacityMeaning(ss, pre, v);
      HoldsAllAppend(CapacityConstraints(ss, pre), CapacityConstraint(ss, g), v);
      GroupFilledMeaning(ss, g, v);
      CapacityMetSnoc(ss, pre, g, v.x);
    }
  }

  // ---------------------------------------------------------------------------------------
  // Exclusion (solver.py:31-37)
  // ---------------------------------------------------------------------------------------

  /** In every group of gs for which both of its variables exist, the pair (s1, s2) is not
      placed together; when s1 == s2 the student is kept out of that group altogether. */
  ghost predicate Apart(t: seq<Key>, s1: int, s2: int, gs: seq<GroupConfig>, x: Key -> bool)
  {
    forall i :: 0 <= i < |gs| && (s1, gs[i].id) in t && (s2, gs[i].id) in t ==>
      !(x((s1, gs[i].id)) && x((s2, gs[i].id)))
  }

  /** An exclusion list with fewer than two ids constrains nothing; otherwise its first two ids
      are kept apart. */
  ghost predicate KeptApart(t: seq<Key>, p: seq<int>, gs: seq<GroupConfig>, x: Key -> bool)
  {
    |p| < 2 || Apart(t, p[0], p[1], gs, x)
  }

  ghost predicate ExclusionMet(t: seq<Key>, ex: seq<seq<int>>, gs: seq<GroupConfig>, x: Key -> bool)
  {
    forall e :: 0 <= e < |ex| ==> KeptApart(t, ex[e], gs, x)
  }

  /** The constraint `x[s1, g] + x[s2, g] <= 1` forbids exactly placing both. */
  lemma PairConstraintMeaning(k1: Key, k2: Key, v: Valuation)
    ensures Holds(BoolSumLe([k1, k2], 1), v) <==> !(v.x(k1) && v.x(k2))
  {
    assert [k1, k2][1..] == [k2];
    assert [k2][1..] == [];
    assert Count([k2], v.x) == (if v.x(k2) then 1 else 0);
    assert Count([k1, k2], v.x) == (if v.x(k1) then 1 else 0) + (if v.x(k2) then 1 else 0);
  }

  lemma ApartSnoc(t: seq<Key>, s1: int, s2: int, pre: seq<GroupConfig>, g: GroupConfig, x: Key -> bool)
    ensures Apart(t, s1, s2, pre + [g], x) <==>
            Apart(t, s1, s2, pre, x) && ((s1, g.id) in t && (s2, g.id) in t ==> !(x((s1, g.id)) && x((s2, g.id))))
  {
    var gs := pre + [g];
    if Apart(t, s1, s2, gs, x) {
      forall i | 0 <= i < |pre| && (s1, pre[i].id) in t && (s2, pre[i].id) in t
        ensures !(x((s1, pre[i].id)) && x((s2, pre[i].id)))
      {
        assert gs[i] == pre[i];
      }
      assert gs[|pre|] == g;
    }
    if Apart(t, s1, s2, pre, x) && ((s1, g.id) in t && (s2, g.id) in t ==> !(x((s1, g.id)) && x((s2, g.id)))) {
      forall i | 0 <= i < |gs| && (s1, gs[i].id) in t && (s2, gs[i].id) in t
        ensures !(x((s1, gs[i].id)) && x((s2, gs[i].id)))
      {
        if i < |pre| {
          assert gs[i] == pre[i];
        }
      }
    }
  }

  lemma {:induction false} PairMeaning(t: seq<Key>, s1: int, s2: int, gs: seq<GroupConfig>, v: Valuation)
    ensures HoldsAll(PairConstraints(t, s1, s2, gs), v) <==> Apart(t, s1, s2, gs, v.x)
  {
    if gs != [] {
      var pre, g := gs[..|gs| - 1], gs[|gs| - 1];
      var k1, k2 := (s1, g.id), (s2, g.id);
      LastSplit(gs);
      PairMeaning(t, s1, s2, pre, v);
      var last := if k1 in t && k2 in t then [BoolSumLe([k1, k2], 1)] else [];
      HoldsAllAppend(PairConstraints(t, s1, s2, pre), last, v);
      PairConstraintMeaning(k1, k2, v);
      ApartSnoc(t, s1, s2, pre, g, v.x);
    }
  }

  lemma ExclusionMetSnoc(t: seq<Key>, pre: seq<seq<int>>, p: seq<int>, gs: seq<GroupConfig>, x: Key -> bool)
    ensures ExclusionMet(t, pre + [p], gs, x) <==> ExclusionMet(t, pre, gs, x) && KeptApart(t, p, gs, x)
  {
    var ex := pre + [p];
    if ExclusionMet(t, ex, gs, x) {
      forall e | 0 <= e < |pre| ensures KeptApart(t, pre[e], gs, x) {
        assert ex[e] == pre[e];
      }
      assert ex[|pre|] == p;
    }
    if ExclusionMet(t, pre, gs, x) && KeptApart(t, p, gs, x) {
      forall e | 0 <= e < |ex| ensures KeptApart(t, ex[e], gs, x) {
        if e < |pre| {
          assert ex[e] == pre[e];
        }
      }
    }
  }

  lemma {:induction false} ExclusionMeaning(t: seq<Key>, ex: seq<seq<int>>, gs: seq<GroupConfig>, v: Valuation)
    ensures HoldsAll(ExclusionConstraints(t, ex, gs), v) <==> ExclusionMet(t, ex, gs, v.x)
  {
    if ex != [] {
      var pre, p := ex[..|ex| - 1], ex[|ex| - 1];
      LastSplit(ex);
      ExclusionMeaning(t, pre, gs, v);
      if |p| >= 2 {
        PairMeaning(t, p[0], p[1], gs, v);
        HoldsAllAppend(ExclusionConstraints(t, pre, gs), PairConstraints(t, p[0], p[1], gs), v);
      } else {
        AppendNil(ExclusionConstraints(t, pre, gs));
      }
      ExclusionMetSnoc(t, pre, p, gs, v.x);
    }
  }

  // ---------------------------------------------------------------------------------------
  // All hard constraints
  // ---------------------------------------------------------------------------------------

  ghost predicate HardMet(data: ProblemInput, x: Key -> bool)
  {
    UniquenessMet(data.students, x)
    && CapacityMet(data.students, data.groups, x)
    && ExclusionMet(VariableTable(data.students), data.exclude, data.groups, x)
  }

  /** The hard constraints involve only placement variables, and hold exactly when the
      placement meets uniqueness, capacity and exclusion. */
  lemma HardMeaning(data: ProblemInput, v: Valuation)
    ensures HoldsAll(HardConstraints(data), v) <==> HardMet(data, v.x)
  {
    var u := UniquenessConstraints(data.students);
    var c := CapacityConstraints(data.students, data.groups);
    var e := ExclusionConstraints(VariableTable(data.students), data.exclude, data.groups);
    HoldsAllAppend(u + c, e, v);
    HoldsAllAppend(u, c, v);
    UniquenessMeaning(data.students, v);
    CapacityMeaning(data.students, data.groups, v);
    ExclusionMeaning(VariableTable(data.students), data.exclude, data.groups, v);
  }
}
