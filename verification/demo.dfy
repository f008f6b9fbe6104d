/** The sample run of the demo driver: five claims, the three rule-based
    operators (normalise, merge at similarity 0.5, remove below confidence
    0.5) and a budget of 50 iterations. The run is worked out for any five
    claims with the sample's ids, confidences and evidence pattern, over six
    evidence strings ordered and distinct as the sample's are; the last
    lemma instantiates it with the sample itself. */
module Demo {
  import opened Common
  import opened LexOrder
  import opened Knowledge
  import opened OperatorBase
  import opened RuleBased
  import opened Engine

  // ---------------------------------------------------------------------
  // The sample's shape
  // ---------------------------------------------------------------------

  /** The six evidence strings of the sample, in the roles they play. */
  datatype Evidence = Evidence(a: string, b: string, c: string, d: string, e: string, f: string)

  /** `a < b < c` in Python's order, and `d`, `e`, `f` differ from each
      other and from `a`, `b`, `c`. */
  predicate Apart(v: Evidence) {
    && Less(v.a, v.b) && Less(v.b, v.c)
    && v.d != v.a && v.d != v.b && v.d != v.c && v.d != v.e && v.d != v.f
    && v.e != v.a && v.e != v.b && v.e != v.c && v.e != v.f
    && v.f != v.a && v.f != v.b && v.f != v.c
  }

  /** The sample's claims: ids `c1`..`c5`, evidence `[a, b]`, `[a, c]`,
      `[d]`, `[e]`, `[f, f]` and confidences 0.9, 0.85, 0.95, 0.4, 0.9. */
  predicate Shaped(cs: seq<Claim>, v: Evidence) {
    && |cs| == 5
    && cs[0].id == "c1" && cs[0].evidence == [v.a, v.b] && cs[0].confidence == 0.9
    && cs[1].id == "c2" && cs[1].evidence == [v.a, v.c] && cs[1].confidence == 0.85
    && cs[2].id == "c3" && cs[2].evidence == [v.d] && cs[2].confidence == 0.95
    && cs[3].id == "c4" && cs[3].evidence == [v.e] && cs[3].confidence == 0.4
    && cs[4].id == "c5" && cs[4].evidence == [v.f, v.f] && cs[4].confidence == 0.9
  }

  /** `c5` with its repeated evidence collapsed. */
  function Collapsed(cs: seq<Claim>, v: Evidence): Claim
    requires |cs| == 5
  {
    cs[4].(evidence := [v.f])
  }

  /** `c1` after absorbing `c2`. */
  function Grown(cs: seq<Claim>, v: Evidence): Claim
    requires |cs| == 5
  {
    cs[0].(evidence := [v.a, v.b, v.c])
  }

  /** The sample state once normalised. */
  function NormalizedState(s: KnowledgeState, v: Evidence): KnowledgeState
    requires |s.claims| == 5
  {
    s.(claims := s.claims[4 := Collapsed(s.claims, v)])
  }

  /** The normalised state once `c1` has absorbed `c2`. */
  function MergedState(s: KnowledgeState, v: Evidence): KnowledgeState
    requires |s.claims| == 5
  {
    KnowledgeState([Grown(s.claims, v), s.claims[2], s.claims[3], Collapsed(s.claims, v)],
                   s.relationships - {"c2"},
                   s.metadata.(merges := Some(MergeLog(s.metadata) + [MergeRecord("c1", "c2", 0.5)])))
  }

  /** The merged state once `c4`, the one claim below 0.5, is gone. */
  function WeakState(s: KnowledgeState, v: Evidence): KnowledgeState
    requires |s.claims| == 5
  {
    KnowledgeState([Grown(s.claims, v), s.claims[2], Collapsed(s.claims, v)],
                   s.relationships - {"c2"} - {"c4"},
                   MergedState(s, v).metadata.(weakRemovals := Some(WeakLog(s.metadata) + ["c4"])))
  }

  // ---------------------------------------------------------------------
  // Normalising
  // ---------------------------------------------------------------------

  /** The normalised list is the only one of its shape: any list that
      keeps each claim and sorts its evidence set is it. */
  lemma NormalizeUnique(s: KnowledgeState, want: seq<Claim>)
    requires NormalizedFrom(s.claims, want)
    ensures Normalize(s) == Outcome(s.(claims := want), SomeUnsorted(s.claims))
  {
    var r := Normalize(s).state.claims;
    forall i | 0 <= i < |want| ensures r[i] == want[i] {
      StrictlyIncreasingUnique(r[i].evidence, want[i].evidence);
    }
  }

  /** Normalising the sample collapses `c5`'s repeated evidence and leaves
      the other claims, whose evidence is already sorted, as they are. */
  lemma NormalizeSample(s: KnowledgeState, v: Evidence)
    requires Shaped(s.claims, v) && Apart(v)
    ensures Normalize(s) == Outcome(s.(claims := s.claims[4 := Collapsed(s.claims, v)]), true)
  {
    var want := s.claims[4 := Collapsed(s.claims, v)];
    ElemsSmall(v.f, v.f, v.f);
    LessTransitive(v.a, v.b, v.c);
    StrictlyIncreasingSmall(v.a, v.b, v.c);
    StrictlyIncreasingSmall(v.a, v.c, v.c);
    StrictlyIncreasingSmall(v.d, v.d, v.d);
    StrictlyIncreasingSmall(v.e, v.e, v.e);
    StrictlyIncreasingSmall(v.f, v.f, v.f);
    assert NormalizedFrom(s.claims, want);
    NormalizeUnique(s, want);
    LessIrreflexive(v.f);
    assert !StrictlyIncreasing(s.claims[4].evidence) by {
      assert !Less(s.claims[4].evidence[0], s.claims[4].evidence[1]);
    }
    assert SomeUnsorted(s.claims);
  }

  // ---------------------------------------------------------------------
  // Merging
  // ---------------------------------------------------------------------

  /** `{a, b}` and `{a, c}` share one string, and the smaller set has two:
      their similarity (overlap over the smaller size) is one half. */
  lemma HalfOverlap(a: string, b: string, c: string)
    requires Less(a, b) && Less(b, c)
    ensures |{a, b}| > 0 && |{a, c}| > 0 && Similarity({a, b}, {a, c}) == 0.5
  {
    LessIrreflexive(a);
    LessIrreflexive(b);
    LessTransitive(a, b, c);
    LessIrreflexive(c);
    assert {a, b} * {a, c} == {a};
  }

  /** The sorted, duplicate-free union of `[a, b]` and `[a, c]`. */
  lemma UnionSorted(a: string, b: string, c: string)
    requires Less(a, b) && Less(b, c)
    ensures SortDedup([a, b, a, c]) == [a, b, c]
  {
    ElemsSmall(a, b, c);
    assert Elems([a, b, a, c]) == {a, b, c} by {
      assert [a, b, a, c][1] == b && [a, b, a, c][3] == c;
    }
    StrictlyIncreasingSmall(a, b, c);
    StrictlyIncreasingUnique(SortDedup([a, b, a, c]), [a, b, c]);
  }

  /** Two claims sharing one of their two evidence strings have similarity
      0.5, enough at threshold 0.5: the first keeps the sorted union and the
      larger confidence. */
  lemma MergeFirstPair(x: Claim, y: Claim, a: string, b: string, c: string)
    requires Less(a, b) && Less(b, c)
    requires x.evidence == [a, b] && y.evidence == [a, c] && x.confidence >= y.confidence
    ensures TryMerge(x, y, 0.5) == Some(Absorption(x.(evidence := [a, b, c]), 0.5))
  {
    ElemsSmall(a, b, c);
    ElemsSmall(a, c, c);
    HalfOverlap(a, b, c);
    assert x.evidence + y.evidence == [a, b, a, c];
    UnionSorted(a, b, c);
    var r := TryMerge(x, y, 0.5);
    assert r.Some? && r.value.kept.evidence == [a, b, c];
    assert r.value.kept.confidence == x.confidence;
    assert r.value.similarity == 0.5;
  }

  /** After the first merge, no two of the remaining claims share
      evidence, so none absorbs another. */
  lemma OtherPairsApart(g: Claim, p: Claim, q: Claim, n: Claim, v: Evidence)
    requires Apart(v)
    requires g.evidence == [v.a, v.b, v.c] && p.evidence == [v.d] && q.evidence == [v.e] && n.evidence == [v.f]
    ensures TryMerge(g, p, 0.5).None? && TryMerge(g, q, 0.5).None? && TryMerge(g, n, 0.5).None?
    ensures TryMerge(p, q, 0.5).None? && TryMerge(p, n, 0.5).None? && TryMerge(q, n, 0.5).None?
  {
    ElemsSmall(v.a, v.b, v.c);
    ElemsSmall(v.d, v.d, v.d);
    ElemsSmall(v.e, v.e, v.e);
    ElemsSmall(v.f, v.f, v.f);
    TryMergeDisjoint(g, p, 0.5);
    TryMergeDisjoint(g, q, 0.5);
    TryMergeDisjoint(g, n, 0.5);
    TryMergeDisjoint(p, q, 0.5);
    TryMergeDisjoint(p, n, 0.5);
    TryMergeDisjoint(q, n, 0.5);
  }

  /** Pairwise facts about the last three of five claims, as quantifiers. */
  lemma LastThreeApart(cl: seq<Claim>, g: Claim, threshold: real)
    requires |cl| == 5
    requires TryMerge(g, cl[2], threshold).None? && TryMerge(g, cl[3], threshold).None? && TryMerge(g, cl[4], threshold).None?
    requires TryMerge(cl[2], cl[3], threshold).None? && TryMerge(cl[2], cl[4], threshold).None? && TryMerge(cl[3], cl[4], threshold).None?
    ensures forall j :: 2 <= j < |cl| ==> TryMerge(g, cl[j], threshold).None?
    ensures forall j, k :: 2 <= j < k < |cl| ==> TryMerge(cl[j], cl[k], threshold).None?
  {
    forall j | 2 <= j < |cl| ensures TryMerge(g, cl[j], threshold).None? {
      if j == 2 {} else if j == 3 {} else { assert j == 4; }
    }
    forall j, k | 2 <= j < k < |cl| ensures TryMerge(cl[j], cl[k], threshold).None? {
      if j == 2 {
        if k == 3 {} else { assert k == 4; }
      } else {
        assert j == 3 && k == 4;
      }
    }
  }

  /** `Survivors` is the filter on ids outside the removed set. */
  lemma SurvivorsFilter(cl: seq<Claim>, gone: set<string>)
    ensures Survivors(cl, gone) == Filter(cl, Outside(gone))
  {
  }

  /** Dropping the one claim whose id is removed. */
  lemma SurvivorsDropSecond(cl: seq<Claim>)
    requires |cl| >= 2
    requires forall j :: 0 <= j < |cl| && j != 1 ==> cl[j].id != cl[1].id
    ensures Survivors(cl, {cl[1].id}) == [cl[0]] + cl[2..]
  {
    var gone := {cl[1].id};
    var keep := Outside(gone);
    assert keep(cl[0]) && !keep(cl[1]);
    var rest := cl[2..];
    forall i | 0 <= i < |rest| ensures keep(rest[i]) {
      assert rest[i] == cl[i + 2];
    }
    FilterAll(rest, keep);
    assert cl[1..][1..] == rest;
    assert Filter(cl[1..], keep) == rest;
    assert Filter(cl, keep) == [cl[0]] + rest;
    SurvivorsFilter(cl, gone);
  }

  /** The four survivors of five claims once the second is dropped. */
  lemma TailOfFive(cl: seq<Claim>, g: Claim)
    requires |cl| == 5
    ensures [g] + cl[0 := g][2..] == [g, cl[2], cl[3], cl[4]]
  {
  }

  /** Merging at threshold 0.5: `c1` absorbs `c2` (similarity 0.5, the
      larger confidence 0.9 kept), no other pair shares evidence, `c2`'s
      relationship key goes and one merge record is logged. */
  lemma MergeSample(s: KnowledgeState, v: Evidence)
    requires Shaped(s.claims, v) && Apart(v)
    ensures Merge(NormalizedState(s, v), 0.5) == Outcome(MergedState(s, v), true)
  {
    var n := NormalizedState(s, v);
    var cl := n.claims;
    var g := Grown(s.claims, v);
    MergeFirstPair(cl[0], cl[1], v.a, v.b, v.c);
    OtherPairsApart(g, cl[2], cl[3], cl[4], v);
    LastThreeApart(cl, g, 0.5);
    MergeFirstOnly(n, 0.5, Absorption(g, 0.5));
    var cl' := cl[0 := g];
    forall j | 0 <= j < |cl'| && j != 1 ensures cl'[j].id != cl'[1].id {
      if j == 0 {} else if j == 2 {} else if j == 3 {} else { assert j == 4; }
    }
    SurvivorsDropSecond(cl');
    TailOfFive(cl, g);
    assert cl[2] == s.claims[2] && cl[3] == s.claims[3] && cl[4] == Collapsed(s.claims, v);
    assert cl[0].id == "c1" && cl[1].id == "c2";
  }

  // ---------------------------------------------------------------------
  // Removing weak claims
  // ---------------------------------------------------------------------

  /** Filtering four claims, one at a time. */
  lemma FilterFour<T(!new)>(xs: seq<T>, p: T -> bool)
    requires |xs| == 4
    ensures p(xs[0]) && p(xs[1]) && !p(xs[2]) && p(xs[3]) ==> Filter(xs, p) == [xs[0], xs[1], xs[3]]
    ensures !p(xs[0]) && !p(xs[1]) && p(xs[2]) && !p(xs[3]) ==> Filter(xs, p) == [xs[2]]
  {
    var t1, t2, t3 := xs[1..], xs[2..], xs[3..];
    assert t1[1..] == t2 && t2[1..] == t3 && t3[1..] == [];
    assert t1[0] == xs[1] && t2[0] == xs[2] && t3[0] == xs[3];
    FilterHead(xs, p);
    FilterHead(t1, p);
    FilterHead(t2, p);
    FilterHead(t3, p);
    assert Filter(t3[1..], p) == [];
  }

  /** The ids of a one-claim list. */
  lemma IdsSingle(c: Claim)
    ensures Ids([c]) == [c.id]
  {
  }

  /** Removing claims below confidence 0.5 drops `c4` alone and logs it. */
  lemma RemoveSample(s: KnowledgeState, v: Evidence)
    requires Shaped(s.claims, v)
    ensures RemoveWeak(MergedState(s, v), 0.5) == Outcome(WeakState(s, v), true)
  {
    var m := MergedState(s, v);
    var cl := m.claims;
    assert AtLeast(0.5)(cl[0]) && AtLeast(0.5)(cl[1]) && !AtLeast(0.5)(cl[2]) && AtLeast(0.5)(cl[3]);
    assert !Below(0.5)(cl[0]) && !Below(0.5)(cl[1]) && Below(0.5)(cl[2]) && !Below(0.5)(cl[3]);
    FilterFour(cl, AtLeast(0.5));
    FilterFour(cl, Below(0.5));
    IdsSingle(cl[2]);
    ElemsSmall(cl[2].id, cl[2].id, cl[2].id);
  }

  // ---------------------------------------------------------------------
  // The engine on the sample
  // ---------------------------------------------------------------------

  /** The modification a step logged, as a list of zero or one entries. */
  function Logs(st: StepResult): seq<Modification> {
    if st.logged.Some? then [st.logged.value] else []
  }

  /** A modification the invariant check accepts is adopted and logged. */
  lemma StepLogs(op: Operator, s: KnowledgeState, t: KnowledgeState)
    requires Apply(op, s) == Outcome(t, true) && VerifyInvariants(s, t)
    ensures Step(op, s) == StepResult(t, Some(Modification(Name(op), |s.claims|, |t.claims|)))
  {
  }

  /** An operator that changes nothing logs nothing. */
  lemma StepQuiet(op: Operator, s: KnowledgeState)
    requires !Apply(op, s).modified
    ensures Step(op, s) == StepResult(s, None)
  {
  }

  /** The first step of a pass, then the rest of it. */
  lemma RunPassHead(ops: seq<Operator>, s: KnowledgeState, st: StepResult)
    requires |ops| > 0 && Step(ops[0], s) == st
    ensures RunPass(ops, s) == PassResult(RunPass(ops[1..], st.state).state, Logs(st) + RunPass(ops[1..], st.state).mods)
  {
  }

  /** Concatenation is associative. */
  lemma ConcatAssoc<T>(a: seq<T>, b: seq<T>, c: seq<T>)
    ensures a + (b + c) == a + b + c
  {
  }

  /** A pass of three operators, step by step. */
  lemma RunPassThree(ops: seq<Operator>, s: KnowledgeState, st1: StepResult, st2: StepResult, st3: StepResult)
    requires |ops| == 3
    requires Step(ops[0], s) == st1 && Step(ops[1], st1.state) == st2 && Step(ops[2], st2.state) == st3
    ensures RunPass(ops, s) == PassResult(st3.state, Logs(st1) + Logs(st2) + Logs(st3))
  {
    var o1, o2 := ops[1..], ops[2..];
    assert o1[0] == ops[1] && o1[1..] == o2 && o2[0] == ops[2] && |o2[1..]| == 0;
    assert RunPass(o2[1..], st3.state) == PassResult(st3.state, []);
    RunPassHead(o2, st2.state, st3);
    assert Logs(st3) + [] == Logs(st3);
    assert RunPass(o2, st2.state) == PassResult(st3.state, Logs(st3));
    RunPassHead(o1, st1.state, st2);
    assert RunPass(o1, st1.state) == PassResult(st3.state, Logs(st2) + Logs(st3));
    RunPassHead(ops, s, st1);
    ConcatAssoc(Logs(st1), Logs(st2), Logs(st3));
  }

  /** A run whose first pass logs something and whose second logs
      nothing converges at iteration 1. */
  lemma RefineTwoPasses(pass: PassFn, maxIterations: int, s0: KnowledgeState, p1: PassResult, p2: PassResult)
    requires maxIterations >= 2
    requires pass(s0) == p1 && |p1.mods| > 0 && pass(p1.state) == p2 && |p2.mods| == 0
    ensures RefineFrom(pass, maxIterations, 0, s0, [], []) ==
      Run([IterationRecord(0, |s0.claims|, p1.mods), IterationRecord(1, |p1.state.claims|, [])],
          Some(1), TallyAll([], p1.mods), p2.state)
  {
    var iters := [IterationRecord(0, |s0.claims|, p1.mods)];
    RefineFromUnfold(pass, maxIterations, 0, s0, [], []);
    assert [] + iters == iters;
    RefineFromUnfold(pass, maxIterations, 1, p1.state, iters, TallyAll([], p1.mods));
  }

  /** Three distinct operator names, counted once each. */
  lemma TallyThree(x: Modification, y: Modification, z: Modification)
    requires x.operator != y.operator && x.operator != z.operator && y.operator != z.operator
    ensures TallyAll([], [x, y, z]) == [Tally(x.operator, 1), Tally(y.operator, 1), Tally(z.operator, 1)]
  {
    var t1 := Increment([], x.operator);
    assert t1 == [Tally(x.operator, 1)];
    var t2 := Increment(t1, y.operator);
    assert t2 == [t1[0]] + Increment([], y.operator) by {
      assert t1[1..] == [];
    }
    var t3 := Increment(t2, z.operator);
    assert t3 == [t2[0]] + Increment(t2[1..], z.operator);
    assert t2[1..] == [Tally(y.operator, 1)];
    assert Increment(t2[1..], z.operator) == [t2[1]] + Increment([], z.operator) by {
      assert t2[1..][1..] == [];
    }
    assert [x, y, z][1..] == [y, z] && [y, z][1..] == [z] && [z][1..] == [];
    assert TallyAll(t2, [z]) == t3;
    assert TallyAll(t1, [y, z]) == t3;
  }

  /** `analyze_stability` on a run that converged at iteration 1 after a
      first pass that logged `mods`. */
  lemma StabilityOfTwo(m: Metrics, n0: nat, n1: nat, mods: seq<Modification>)
    requires m.iterations == [IterationRecord(0, n0, mods), IterationRecord(1, n1, [])]
    requires m.convergenceIteration == Some(1) && n0 >= n1
    ensures AnalyzeStability(m) == Stability(true, true, 1, |mods|, n0 - n1, n1)
  {
    var iters := m.iterations;
    assert iters[..1] == [iters[0]] && iters[..1][..0] == [];
    assert AllMods(iters[..1]) == mods;
    assert AllMods(iters) == mods + [];
  }

  /** The operator list of the sample run. */
  const SampleOperators: seq<Operator> := [NormalizeEvidence, MergeDuplicates(0.5), RemoveWeakClaims(0.5)]

  /** What the first pass logs: all three operators modify the state. */
  const FirstPassLog: seq<Modification> := [
    Modification("normalize_evidence", 5, 5),
    Modification("merge_duplicates", 5, 4),
    Modification("remove_weak", 4, 3)]

  /** The first step of the first pass is adopted and logged. */
  lemma NormalizeStepSample(s: KnowledgeState, v: Evidence)
    requires Shaped(s.claims, v) && Apart(v)
    ensures Step(NormalizeEvidence, s) ==
      StepResult(NormalizedState(s, v), Some(Modification("normalize_evidence", 5, 5)))
  {
    NormalizeSample(s, v);
    StepLogs(NormalizeEvidence, s, NormalizedState(s, v));
  }

  /** The second step: the claim count drops, and the `'merges'` entry the
      merge wrote lets the invariant check accept it. */
  lemma MergeStepSample(s: KnowledgeState, v: Evidence)
    requires Shaped(s.claims, v) && Apart(v)
    ensures Step(MergeDuplicates(0.5), NormalizedState(s, v)) ==
      StepResult(MergedState(s, v), Some(Modification("merge_duplicates", 5, 4)))
  {
    MergeSample(s, v);
    StepLogs(MergeDuplicates(0.5), NormalizedState(s, v), MergedState(s, v));
  }

  /** The third step: accepted because `'merges'` is already present. */
  lemma RemoveStepSample(s: KnowledgeState, v: Evidence)
    requires Shaped(s.claims, v)
    ensures Step(RemoveWeakClaims(0.5), MergedState(s, v)) ==
      StepResult(WeakState(s, v), Some(Modification("remove_weak", 4, 3)))
  {
    RemoveSample(s, v);
    StepLogs(RemoveWeakClaims(0.5), MergedState(s, v), WeakState(s, v));
  }

  /** The first pass: `c5`'s evidence collapses, `c1` absorbs `c2`, and
      `c4` is dropped as weak. */
  lemma FirstPassSample(s: KnowledgeState, v: Evidence)
    requires Shaped(s.claims, v) && Apart(v)
    ensures RunPass(SampleOperators, s) == PassResult(WeakState(s, v), FirstPassLog)
  {
    var st1 := StepResult(NormalizedState(s, v), Some(FirstPassLog[0]));
    var st2 := StepResult(MergedState(s, v), Some(FirstPassLog[1]));
    var st3 := StepResult(WeakState(s, v), Some(FirstPassLog[2]));
    NormalizeStepSample(s, v);
    MergeStepSample(s, v);
    RemoveStepSample(s, v);
    RunPassThree(SampleOperators, s, st1, st2, st3);
    assert [FirstPassLog[0]] + [FirstPassLog[1]] + [FirstPassLog[2]] == FirstPassLog;
  }

  /** Every evidence list of the final state is sorted and duplicate-free. */
  lemma WeakStateSorted(s: KnowledgeState, v: Evidence)
    requires Shaped(s.claims, v) && Apart(v)
    ensures Step(NormalizeEvidence, WeakState(s, v)) == StepResult(WeakState(s, v), None)
  {
    var cl := WeakState(s, v).claims;
    StrictlyIncreasingSmall(v.a, v.b, v.c);
    StrictlyIncreasingSmall(v.d, v.d, v.d);
    StrictlyIncreasingSmall(v.f, v.f, v.f);
    forall i | 0 <= i < |cl| ensures StrictlyIncreasing(cl[i].evidence) {
      if i == 0 {} else if i == 1 {} else { assert i == 2; }
    }
    StepQuiet(NormalizeEvidence, WeakState(s, v));
  }

  /** No two claims of the final state share evidence. */
  lemma WeakStateApart(s: KnowledgeState, v: Evidence)
    requires Shaped(s.claims, v) && Apart(v)
    ensures Step(MergeDuplicates(0.5), WeakState(s, v)) == StepResult(WeakState(s, v), None)
  {
    var cl := WeakState(s, v).claims;
    OtherPairsApart(cl[0], cl[1], s.claims[3], cl[2], v);
    forall j, k | 0 <= j < k < |cl| ensures TryMerge(cl[j], cl[k], 0.5).None? {
      if j == 0 {
        if k == 1 {} else { assert k == 2; }
      } else {
        assert j == 1 && k == 2;
      }
    }
    MergeNone(WeakState(s, v), 0.5);
    StepQuiet(MergeDuplicates(0.5), WeakState(s, v));
  }

  /** Every claim of the final state reaches confidence 0.5. */
  lemma WeakStateStrong(s: KnowledgeState, v: Evidence)
    requires Shaped(s.claims, v)
    ensures Step(RemoveWeakClaims(0.5), WeakState(s, v)) == StepResult(WeakState(s, v), None)
  {
    var cl := WeakState(s, v).claims;
    forall i | 0 <= i < |cl| ensures cl[i].confidence >= 0.5 {
      if i == 0 {} else if i == 1 {} else { assert i == 2; }
    }
    StepQuiet(RemoveWeakClaims(0.5), WeakState(s, v));
  }

  /** The second pass changes nothing. */
  lemma SecondPassSample(s: KnowledgeState, v: Evidence)
    requires Shaped(s.claims, v) && Apart(v)
    ensures RunPass(SampleOperators, WeakState(s, v)) == PassResult(WeakState(s, v), [])
  {
    var w := WeakState(s, v);
    var quiet := StepResult(w, None);
    WeakStateSorted(s, v);
    WeakStateApart(s, v);
    WeakStateStrong(s, v);
    RunPassThree(SampleOperators, w, quiet, quiet, quiet);
  }

  /** The counts `refine` reports for the sample: each operator applied once. */
  const SampleCounts: seq<Tally> := [
    Tally("normalize_evidence", 1), Tally("merge_duplicates", 1), Tally("remove_weak", 1)]

  /** The three operator names differ. */
  lemma SampleNamesDistinct()
    ensures "normalize_evidence" != "merge_duplicates"
    ensures "normalize_evidence" != "remove_weak"
    ensures "merge_duplicates" != "remove_weak"
  {
    assert "normalize_evidence"[0] != "merge_duplicates"[0];
    assert "normalize_evidence"[0] != "remove_weak"[0];
    assert "merge_duplicates"[0] != "remove_weak"[0];
  }

  /** `refine` on the sample: the first pass logs all three operators, the
      second logs nothing, so the run converges at iteration 1 with three
      claims left (`c1` grown by `c2`'s evidence, `c3`, and `c5`). */
  lemma RefineSample(s: KnowledgeState, v: Evidence)
    requires Shaped(s.claims, v) && Apart(v)
    ensures Refine(SampleOperators, 50, s) ==
      Metrics([IterationRecord(0, 5, FirstPassLog), IterationRecord(1, 3, [])],
              Some(1), 3, SampleCounts, WeakState(s, v))
  {
    var pass := PassOf(SampleOperators);
    FirstPassSample(s, v);
    SecondPassSample(s, v);
    assert pass(s) == PassResult(WeakState(s, v), FirstPassLog);
    assert pass(WeakState(s, v)) == PassResult(WeakState(s, v), []);
    RefineTwoPasses(pass, 50, s, pass(s), pass(WeakState(s, v)));
    SampleNamesDistinct();
    TallyThree(FirstPassLog[0], FirstPassLog[1], FirstPassLog[2]);
    assert [FirstPassLog[0], FirstPassLog[1], FirstPassLog[2]] == FirstPassLog;
    assert Total(SampleCounts) == 3 by {
      assert SampleCounts[1..][1..][1..] == [];
    }
  }

  /** `analyze_stability` on the sample run: monotonic, converged after one
      iteration, three modifications, two claims fewer, three claims at the
      start of the last iteration. */
  lemma StabilitySample(s: KnowledgeState, v: Evidence)
    requires Shaped(s.claims, v) && Apart(v)
    ensures AnalyzeStability(Refine(SampleOperators, 50, s)) == Stability(true, true, 1, 3, 2, 3)
  {
    RefineSample(s, v);
    StabilityOfTwo(Refine(SampleOperators, 50, s), 5, 3, FirstPassLog);
  }

  // ---------------------------------------------------------------------
  // The sample itself
  // ---------------------------------------------------------------------

  /** The sample's evidence strings. */
  const SampleEvidence := Evidence("paper1:fig2", "paper1:table1", "paper2:sec3",
                                   "paper3:table2", "paper3:fig1", "paper4:sec2")

  /** `create_sample_state()`. */
  const SampleState := KnowledgeState(
    [Claim("c1", "Deep learning models require large datasets",
           ["paper1:fig2", "paper1:table1"], "introduction", 0.9),
     Claim("c2", "Neural networks need substantial training data",
           ["paper1:fig2", "paper2:sec3"], "background", 0.85),
     Claim("c3", "Transformers achieve state-of-the-art results",
           ["paper3:table2"], "results", 0.95),
     Claim("c4", "Attention mechanisms are important",
           ["paper3:fig1"], "methods", 0.4),
     Claim("c5", "BERT uses transformer architecture",
           ["paper4:sec2", "paper4:sec2"], "methods", 0.9)],
    map["c1" := ["c2"], "c3" := ["c5"]],
    Metadata(None, None, map["source" := "sample_paper.txt"]))

  /** `'paper1:fig2' < 'paper1:table1'`. */
  lemma SampleFirstLess()
    ensures Less("paper1:fig2", "paper1:table1")
  {
  }

  /** `'paper1:table1' < 'paper2:sec3'`. */
  lemma SampleSecondLess()
    ensures Less("paper1:table1", "paper2:sec3")
  {
  }

  /** The sample's evidence strings that must differ do. */
  lemma SampleDistinct()
    ensures "paper3:table2" != "paper1:fig2" && "paper3:table2" != "paper1:table1" && "paper3:table2" != "paper2:sec3"
    ensures "paper3:fig1" != "paper1:fig2" && "paper3:fig1" != "paper1:table1" && "paper3:fig1" != "paper2:sec3"
    ensures "paper4:sec2" != "paper1:fig2" && "paper4:sec2" != "paper1:table1" && "paper4:sec2" != "paper2:sec3"
    ensures "paper3:table2" != "paper3:fig1" && "paper3:table2" != "paper4:sec2" && "paper3:fig1" != "paper4:sec2"
  {
  }

  /** The sample's evidence strings are ordered and distinct as the run
      needs. */
  lemma SampleApart()
    ensures Apart(SampleEvidence)
  {
    SampleFirstLess();
    SampleSecondLess();
    SampleDistinct();
  }

  /** The sample's claims have the shape the run is worked out for. */
  lemma SampleShaped()
    ensures Shaped(SampleState.claims, SampleEvidence)
  {
  }

  /** The final state's ids: `c1`, `c3`, `c5`. */
  lemma WeakStateIds(s: KnowledgeState, v: Evidence)
    requires Shaped(s.claims, v)
    ensures Ids(WeakState(s, v).claims) == ["c1", "c3", "c5"]
  {
  }

  /** Starting from metadata without audit keys, the final state records
      exactly the one merge and the one weak removal. */
  lemma FreshAuditTrail(s: KnowledgeState, v: Evidence)
    requires |s.claims| == 5 && s.metadata.merges.None? && s.metadata.weakRemovals.None?
    ensures WeakState(s, v).metadata.merges == Some([MergeRecord("c1", "c2", 0.5)])
    ensures WeakState(s, v).metadata.weakRemovals == Some(["c4"])
  {
    var rec := MergeRecord("c1", "c2", 0.5);
    assert MergeLog(s.metadata) == [] && WeakLog(s.metadata) == [];
    assert MergedState(s, v).metadata.merges == Some([] + [rec]);
    assert [] + [rec] == [rec];
    var gone: seq<string> := ["c4"];
    assert [] + gone == gone;
  }

  /** Neither removed id is a relationship key of the sample. */
  lemma SampleRelationships()
    ensures SampleState.relationships - {"c2"} - {"c4"} == SampleState.relationships
  {
  }

  /** The demo driver's run: `refine` converges at iteration 1 after three
      operator applications, keeping `c1` (now citing all three sources of
      `c1` and `c2`), `c3` and `c5` (its duplicate evidence collapsed); the
      audit trail records the merge of `c2` into `c1` at similarity 0.5 and
      the removal of `c4`; no relationship key names a removed claim, so the
      relationships are unchanged; `analyze_stability` reports a converged,
      monotonic run of speed 1 with three modifications and two claims
      fewer. */
  lemma DemoRun()
    ensures var m := Refine(SampleOperators, 50, SampleState);
      && m.convergenceIteration == Some(1)
      && m.totalApplications == 3
      && m.operatorsApplied == SampleCounts
      && |m.iterations| == 2
      && m.finalState == WeakState(SampleState, SampleEvidence)
      && Ids(m.finalState.claims) == ["c1", "c3", "c5"]
      && m.finalState.relationships == SampleState.relationships
      && m.finalState.metadata.merges == Some([MergeRecord("c1", "c2", 0.5)])
      && m.finalState.metadata.weakRemovals == Some(["c4"])
      && AnalyzeStability(m) == Stability(true, true, 1, 3, 2, 3)
  {
    SampleApart();
    SampleShaped();
    RefineSample(SampleState, SampleEvidence);
    StabilitySample(SampleState, SampleEvidence);
    WeakStateIds(SampleState, SampleEvidence);
    SampleRelationships();
    FreshAuditTrail(SampleState, SampleEvidence);
  }
}
