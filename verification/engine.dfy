/** `IterativeRefinementEngine`: passes of the operator list over a
    knowledge state until a pass changes nothing or the iteration budget
    runs out, with the metrics the run records and the stability summary
    derived from them. */
module Engine {
  import opened Common
  import opened Knowledge
  import opened OperatorBase
  import opened RuleBased

  // =====================================================================
  // Operators
  // =====================================================================

  /** The three rule-based operators with their settings. */
  datatype Operator =
    | NormalizeEvidence
    | MergeDuplicates(similarityThreshold: real)
    | RemoveWeakClaims(minConfidence: real)

  /** The `name` each operator passes to `ImprovementOperator.__init__`. */
  function Name(op: Operator): string {
    match op
    case NormalizeEvidence => "normalize_evidence"
    case MergeDuplicates(_) => "merge_duplicates"
    case RemoveWeakClaims(_) => "remove_weak"
  }

  /** `operator.apply(state)`. None of the operators adds claims, none drops
      an existing `'merges'` entry, and a result reported as unmodified is
      the state the operator was given. */
  function Apply(op: Operator, s: KnowledgeState): (r: Outcome)
    ensures |r.state.claims| <= |s.claims|
    ensures s.metadata.merges.Some? ==> r.state.metadata.merges.Some?
    ensures !r.modified ==> r.state == s
  {
    match op
    case NormalizeEvidence =>
      NormalizeUnmodifiedIsIdentity(s);
      Normalize(s)
    case MergeDuplicates(t) =>
      var r := Merge(s, t);
      assert |r.state.claims| == |Ids(r.state.claims)| <= |Ids(s.claims)|;
      r
    case RemoveWeakClaims(m) => RemoveWeak(s, m)
  }

  /** Every operator keeps claim ids distinct and the two audit keys out of
      the free-form metadata. */
  lemma ApplyPreservesValid(op: Operator, s: KnowledgeState)
    requires Valid(s)
    ensures Valid(Apply(op, s).state)
  {
    match op
    case NormalizeEvidence =>
      SameIds(s.claims, Normalize(s).state.claims);
    case MergeDuplicates(t) =>
      MergeContents(s, t);
    case RemoveWeakClaims(m) =>
      DistinctIdsFilter(s.claims, AtLeast(m));
  }

  // =====================================================================
  // One pass
  // =====================================================================

  /** An entry of an iteration's `'modifications'` list. */
  datatype Modification = Modification(operator: string, claimsBefore: nat, claimsAfter: nat)

  /** The state after one operator, and the modification it logged. */
  datatype StepResult = StepResult(state: KnowledgeState, logged: Option<Modification>)

  /** One operator inside a pass. A candidate the invariant check rejects is
      discarded (`continue`); an accepted one is adopted, and logged when the
      operator reports a modification. The adopted state always passes the
      check, and a step that logs nothing leaves the state as it was. */
  function Step(op: Operator, s: KnowledgeState): (r: StepResult)
    ensures r.logged.Some? <==>
      Apply(op, s).modified && VerifyInvariants(s, Apply(op, s).state)
    ensures r.logged.Some? ==>
      r.state == Apply(op, s).state
      && r.logged.value == Modification(Name(op), |s.claims|, |r.state.claims|)
    ensures r.logged.None? ==> r.state == s
    ensures VerifyInvariants(s, r.state)
  {
    var out := Apply(op, s);
    if !VerifyInvariants(s, out.state) then StepResult(s, None)
    else if out.modified then
      StepResult(out.state, Some(Modification(Name(op), |s.claims|, |out.state.claims|)))
    else StepResult(out.state, None)
  }

  /** The state after a whole pass and the modifications it logged. */
  datatype PassResult = PassResult(state: KnowledgeState, mods: seq<Modification>)

  /** One pass of the operator list (the inner `for operator in ...`). A
      pass that logs nothing returns its input; a pass never adds claims;
      every logged modification names an operator of the list and records a
      claim count that did not grow; and if a pass lost claims, the state it
      produces carries a `'merges'` entry. */
  function RunPass(ops: seq<Operator>, s: KnowledgeState): (r: PassResult)
    ensures |r.mods| <= |ops|
    ensures |r.mods| == 0 ==> r.state == s
    ensures |r.state.claims| <= |s.claims|
    ensures s.metadata.merges.Some? ==> r.state.metadata.merges.Some?
    ensures |r.state.claims| < |s.claims| ==> r.state.metadata.merges.Some?
    decreases |ops|
  {
    if |ops| == 0 then PassResult(s, [])
    else
      var st := Step(ops[0], s);
      var rest := RunPass(ops[1..], st.state);
      var logged := if st.logged.Some? then [st.logged.value] else [];
      PassResult(rest.state, logged + rest.mods)
  }

  /** Every logged modification names an operator of the list and records
      a claim count that did not grow. */
  lemma {:induction false} RunPassLog(ops: seq<Operator>, s: KnowledgeState)
    ensures forall m :: m in RunPass(ops, s).mods ==>
      m.claimsAfter <= m.claimsBefore && exists op :: op in ops && m.operator == Name(op)
    decreases |ops|
  {
    if |ops| > 0 {
      RunPassLog(ops[1..], Step(ops[0], s).state);
      assert forall op :: op in ops[1..] ==> op in ops;
    }
  }

  /** Every operator keeps a valid state valid, so a pass does too. */
  lemma {:induction false} RunPassPreservesValid(ops: seq<Operator>, s: KnowledgeState)
    requires Valid(s)
    ensures Valid(RunPass(ops, s).state)
    decreases |ops|
  {
    if |ops| > 0 {
      ApplyPreservesValid(ops[0], s);
      RunPassPreservesValid(ops[1..], Step(ops[0], s).state);
    }
  }

  // =====================================================================
  // operators_applied
  // =====================================================================

  /** One entry of `operators_applied`, a `defaultdict(int)` keyed by
      operator name; the list keeps the dict's insertion order. */
  datatype Tally = Tally(name: string, count: nat)

  function Names(t: seq<Tally>): set<string> {
    set e | e in t :: e.name
  }

  predicate DistinctNames(t: seq<Tally>) {
    forall i, j :: 0 <= i < j < |t| ==> t[i].name != t[j].name
  }

  /** `sum(operators_applied.values())`. */
  function Total(t: seq<Tally>): nat
    decreases |t|
  {
    if |t| == 0 then 0 else t[0].count + Total(t[1..])
  }

  /** `operators_applied[name]`, 0 for a name never counted. */
  function CountOf(t: seq<Tally>, name: string): nat
    decreases |t|
  {
    if |t| == 0 then 0
    else (if t[0].name == name then t[0].count else 0) + CountOf(t[1..], name)
  }

  /** `operators_applied[name] += 1`: the entry for `name` grows by one
      (appearing at the end if new) and every other entry is unchanged. */
  function Increment(t: seq<Tally>, name: string): (r: seq<Tally>)
    ensures Total(r) == Total(t) + 1
    ensures CountOf(r, name) == CountOf(t, name) + 1
    ensures forall n :: n != name ==> CountOf(r, n) == CountOf(t, n)
    decreases |t|
  {
    if |t| == 0 then [Tally(name, 1)]
    else if t[0].name == name then
      var r := [t[0].(count := t[0].count + 1)] + t[1..];
      assert r[1..] == t[1..];
      r
    else
      var r := [t[0]] + Increment(t[1..], name);
      assert r[1..] == Increment(t[1..], name);
      r
  }

  /** Incrementing adds `name` to the names: a name already present is
      bumped in place, a new one is appended. */
  lemma {:induction false} IncrementNames(t: seq<Tally>, name: string)
    ensures Names(Increment(t, name)) == Names(t) + {name}
    decreases |t|
  {
    if |t| > 0 {
      var r := Increment(t, name);
      IncrementNames(t[1..], name);
      assert r[0].name == t[0].name;
      assert r[1..] == (if t[0].name == name then t[1..] else Increment(t[1..], name));
      NamesCons(t);
      NamesCons(r);
    }
  }

  /** The names of a non-empty tally are its head's name and its tail's. */
  lemma NamesCons(t: seq<Tally>)
    requires |t| > 0
    ensures Names(t) == {t[0].name} + Names(t[1..])
  {
    assert t == [t[0]] + t[1..];
  }

  /** Incrementing keeps the names distinct. */
  lemma {:induction false} IncrementDistinct(t: seq<Tally>, name: string)
    requires DistinctNames(t)
    ensures DistinctNames(Increment(t, name))
    decreases |t|
  {
    if |t| > 0 {
      var r := Increment(t, name);
      TailDistinct(t);
      if t[0].name == name {
        assert r[1..] == t[1..];
        forall i, j | 0 <= i < j < |r| ensures r[i].name != r[j].name {
          assert r[i].name == t[i].name && r[j].name == t[j].name;
        }
      } else {
        var rest := Increment(t[1..], name);
        assert r[1..] == rest;
        IncrementDistinct(t[1..], name);
        IncrementNames(t[1..], name);
        forall i, j | 0 <= i < j < |r| ensures r[i].name != r[j].name {
          if i == 0 {
            assert r[j] == rest[j - 1];
            assert r[j] in rest;
            assert r[j].name in Names(rest);
          } else {
            assert r[i] == rest[i - 1] && r[j] == rest[j - 1];
          }
        }
      }
    }
  }

  /** Dropping the first entry keeps names distinct, and its name does not
      recur. */
  lemma TailDistinct(t: seq<Tally>)
    requires |t| > 0 && DistinctNames(t)
    ensures DistinctNames(t[1..]) && t[0].name !in Names(t[1..])
  {
    forall i, j | 0 <= i < j < |t[1..]| ensures t[1..][i].name != t[1..][j].name {
      assert t[1..][i] == t[i + 1] && t[1..][j] == t[j + 1];
    }
    forall e | e in t[1..] ensures e.name != t[0].name {
      var j :| 0 <= j < |t[1..]| && t[1..][j] == e;
      assert t[j + 1] == e;
    }
  }

  /** Counting every modification of a pass, in order. */
  function TallyAll(t: seq<Tally>, mods: seq<Modification>): seq<Tally>
    decreases |mods|
  {
    if |mods| == 0 then t
    else TallyAll(Increment(t, mods[0].operator), mods[1..])
  }

  /** Counting a list of modifications adds its length to the total and,
      per name, the number of modifications naming that operator; names
      stay distinct. */
  lemma {:induction false} TallyAllCounts(t: seq<Tally>, mods: seq<Modification>)
    ensures Total(TallyAll(t, mods)) == Total(t) + |mods|
    ensures forall n :: CountOf(TallyAll(t, mods), n) == CountOf(t, n) + CountMods(mods, n)
    ensures DistinctNames(t) ==> DistinctNames(TallyAll(t, mods))
    decreases |mods|
  {
    if |mods| > 0 {
      TallyAllCounts(Increment(t, mods[0].operator), mods[1..]);
      if DistinctNames(t) {
        IncrementDistinct(t, mods[0].operator);
      }
    }
  }

  /** How many of the modifications name operator `n`. */
  function CountMods(mods: seq<Modification>, n: string): nat
    decreases |mods|
  {
    if |mods| == 0 then 0
    else (if mods[0].operator == n then 1 else 0) + CountMods(mods[1..], n)
  }

  lemma {:induction false} CountModsConcat(a: seq<Modification>, b: seq<Modification>, n: string)
    ensures CountMods(a + b, n) == CountMods(a, n) + CountMods(b, n)
    decreases |a|
  {
    if |a| > 0 {
      assert (a + b)[1..] == a[1..] + b;
      CountModsConcat(a[1..], b, n);
    } else {
      assert a + b == b;
    }
  }

  // =====================================================================
  // refine
  // =====================================================================

  /** One entry of the `'iterations'` list. */
  datatype IterationRecord = IterationRecord(iteration: nat, numClaims: nat, modifications: seq<Modification>)

  /** The dictionary `refine` returns. */
  datatype Metrics = Metrics(
    iterations: seq<IterationRecord>,
    convergenceIteration: Option<nat>,
    totalApplications: nat,
    operatorsApplied: seq<Tally>,
    finalState: KnowledgeState)

  /** The loop's variables when it ends. */
  datatype Run = Run(
    iterations: seq<IterationRecord>,
    convergence: Option<nat>,
    counts: seq<Tally>,
    finalState: KnowledgeState)

  /** `range(max_iterations)` has this many elements. */
  function Budget(maxIterations: int): nat {
    if maxIterations > 0 then maxIterations else 0
  }

  /** The modifications of all iterations, in order. */
  function AllMods(iters: seq<IterationRecord>): seq<Modification>
    decreases |iters|
  {
    if |iters| == 0 then [] else AllMods(iters[..|iters| - 1]) + iters[|iters| - 1].modifications
  }

  /** A whole pass of the operator list as a value: the outer loop only
      ever applies the list as a unit, so it is written for any pass and run
      with `PassOf(ops)`. */
  type PassFn = KnowledgeState -> PassResult

  function PassOf(ops: seq<Operator>): PassFn {
    (s: KnowledgeState) => RunPass(ops, s)
  }

  /** The outer loop from iteration `i`, with state `s`, the iterations
      recorded so far and the counts so far. */
  function RefineFrom(pass: PassFn, maxIterations: int, i: nat, s: KnowledgeState,
                      iters: seq<IterationRecord>, counts: seq<Tally>): (r: Run)
    ensures |iters| <= |r.iterations| && r.iterations[..|iters|] == iters
    ensures |r.iterations| <= |iters| + Budget(maxIterations - i)
    decreases maxIterations - i
  {
    if i >= maxIterations then Run(iters, None, counts, s)
    else
      var p := pass(s);
      var iters' := iters + [IterationRecord(i, |s.claims|, p.mods)];
      var counts' := TallyAll(counts, p.mods);
      if |p.mods| == 0 then Run(iters', Some(i), counts', p.state)
      else
        var r := RefineFrom(pass, maxIterations, i + 1, p.state, iters', counts');
        assert r.iterations[..|iters|] == r.iterations[..|iters'|][..|iters|];
        r
  }

  /** One step of the loop: past the budget the run ends unconverged; a
      pass that logs nothing ends it converged; any other pass continues it. */
  lemma RefineFromUnfold(pass: PassFn, maxIterations: int, i: nat, s: KnowledgeState,
                         iters: seq<IterationRecord>, counts: seq<Tally>)
    ensures var r := RefineFrom(pass, maxIterations, i, s, iters, counts);
      var p := pass(s);
      var iters' := iters + [IterationRecord(i, |s.claims|, p.mods)];
      && (i >= maxIterations ==> r == Run(iters, None, counts, s))
      && (i < maxIterations && |p.mods| == 0 ==>
            r == Run(iters', Some(i), TallyAll(counts, p.mods), p.state))
      && (i < maxIterations && |p.mods| > 0 ==>
            r == RefineFrom(pass, maxIterations, i + 1, p.state, iters', TallyAll(counts, p.mods)))
  {
  }

  /** `IterativeRefinementEngine(operators, max_iterations).refine(initial)`. */
  function Refine(ops: seq<Operator>, maxIterations: int, initial: KnowledgeState): (m: Metrics)
    ensures |m.iterations| <= Budget(maxIterations)
  {
    var r := RefineFrom(PassOf(ops), maxIterations, 0, initial, [], []);
    Metrics(r.iterations, r.convergence, Total(r.counts), r.counts, r.finalState)
  }

  // ---------------------------------------------------------------------
  // Reference definition of a run
  // ---------------------------------------------------------------------

  /** The state at the start of pass `k` if every earlier pass ran. */
  function StateAfter(pass: PassFn, initial: KnowledgeState, k: nat): KnowledgeState
    decreases k
  {
    if k == 0 then initial else pass(StateAfter(pass, initial, k - 1)).state
  }

  /** What iteration `k` records: its index, the claim count at its start
      and the modifications its pass logs. */
  function Record(pass: PassFn, initial: KnowledgeState, k: nat): IterationRecord {
    var s := StateAfter(pass, initial, k);
    IterationRecord(k, |s.claims|, pass(s).mods)
  }

  /** How a run stops: at the first pass that logs nothing, which it
      records as the convergence iteration, or else when the budget is used
      up. */
  ghost predicate Stops(maxIterations: int, r: Run) {
    var n := |r.iterations|;
    && n <= Budget(maxIterations)
    && (forall k :: 0 <= k < n ==> (|r.iterations[k].modifications| == 0 <==> r.convergence == Some(k)))
    && (r.convergence.Some? ==> r.convergence.value == n - 1)
    && (r.convergence.None? ==> n == Budget(maxIterations))
  }

  /** What a run records: iteration `k` is the `k`-th pass applied to the
      result of the earlier ones, and the final state is the state after
      all recorded passes. */
  ghost predicate Traces(pass: PassFn, initial: KnowledgeState, r: Run) {
    && (forall k :: 0 <= k < |r.iterations| ==> r.iterations[k] == Record(pass, initial, k))
    && r.finalState == StateAfter(pass, initial, |r.iterations|)
  }

  lemma {:induction false} RefineFromStops(pass: PassFn, maxIterations: int, i: nat, s: KnowledgeState,
                                           iters: seq<IterationRecord>, counts: seq<Tally>)
    requires |iters| == i && (i == 0 || i <= maxIterations)
    requires forall k :: 0 <= k < i ==> |iters[k].modifications| > 0
    ensures Stops(maxIterations, RefineFrom(pass, maxIterations, i, s, iters, counts))
    decreases maxIterations - i
  {
    var r := RefineFrom(pass, maxIterations, i, s, iters, counts);
    RefineFromUnfold(pass, maxIterations, i, s, iters, counts);
    if i < maxIterations {
      var p := pass(s);
      var iters' := iters + [IterationRecord(i, |s.claims|, p.mods)];
      if |p.mods| == 0 {
        forall k | 0 <= k < i + 1 ensures |iters'[k].modifications| == 0 <==> r.convergence == Some(k) {
          if k < i {
            assert iters'[k] == iters[k];
          }
        }
      } else {
        forall k | 0 <= k < i + 1 ensures |iters'[k].modifications| > 0 {
          if k < i {
            assert iters'[k] == iters[k];
          }
        }
        RefineFromStops(pass, maxIterations, i + 1, p.state, iters', TallyAll(counts, p.mods));
      }
    } else {
      forall k | 0 <= k < i ensures |iters[k].modifications| != 0 {
      }
    }
  }

  lemma {:induction false} RefineFromTraces(pass: PassFn, maxIterations: int, initial: KnowledgeState,
                                            i: nat, iters: seq<IterationRecord>, counts: seq<Tally>)
    requires |iters| == i
    requires forall k :: 0 <= k < i ==> iters[k] == Record(pass, initial, k)
    ensures Traces(pass, initial,
                   RefineFrom(pass, maxIterations, i, StateAfter(pass, initial, i), iters, counts))
    decreases maxIterations - i
  {
    var s := StateAfter(pass, initial, i);
    if i < maxIterations {
      var p := pass(s);
      var iters' := iters + [Record(pass, initial, i)];
      var counts' := TallyAll(counts, p.mods);
      assert Record(pass, initial, i) == IterationRecord(i, |s.claims|, p.mods);
      StateAfterNext(pass, initial, i);
      ExtendTraces(pass, initial, iters);
      RefineFromUnfold(pass, maxIterations, i, s, iters, counts);
      if |p.mods| == 0 {
        TracesOf(pass, initial, iters', Some(i), counts');
      } else {
        RefineFromTraces(pass, maxIterations, initial, i + 1, iters', counts');
      }
    } else {
      RefineFromUnfold(pass, maxIterations, i, s, iters, counts);
      TracesOf(pass, initial, iters, None, counts);
    }
  }

  /** Appending the record of the next pass keeps the records faithful. */
  lemma ExtendTraces(pass: PassFn, initial: KnowledgeState, iters: seq<IterationRecord>)
    requires forall k :: 0 <= k < |iters| ==> iters[k] == Record(pass, initial, k)
    ensures var iters' := iters + [Record(pass, initial, |iters|)];
      forall k :: 0 <= k < |iters'| ==> iters'[k] == Record(pass, initial, k)
  {
    ExtendAgree(iters, k => Record(pass, initial, k));
  }

  /** Faithful records and the state after them make a traced run. */
  lemma TracesOf(pass: PassFn, initial: KnowledgeState, iters: seq<IterationRecord>,
                 convergence: Option<nat>, counts: seq<Tally>)
    requires forall k :: 0 <= k < |iters| ==> iters[k] == Record(pass, initial, k)
    ensures Traces(pass, initial, Run(iters, convergence, counts, StateAfter(pass, initial, |iters|)))
  {
  }

  /** The counts a run ends with tally every modification it recorded. */
  lemma {:induction false} RefineFromCounts(pass: PassFn, maxIterations: int, i: nat, s: KnowledgeState,
                                            iters: seq<IterationRecord>, counts: seq<Tally>)
    requires counts == TallyAll([], AllMods(iters))
    ensures var r := RefineFrom(pass, maxIterations, i, s, iters, counts);
      r.counts == TallyAll([], AllMods(r.iterations))
    decreases maxIterations - i
  {
    if i < maxIterations {
      var p := pass(s);
      var iters' := iters + [IterationRecord(i, |s.claims|, p.mods)];
      assert iters'[..|iters'| - 1] == iters;
      TallyAllConcat([], AllMods(iters), p.mods);
      if |p.mods| > 0 {
        RefineFromCounts(pass, maxIterations, i + 1, p.state, iters', TallyAll(counts, p.mods));
      }
    }
  }

  lemma {:induction false} TallyAllConcat(t: seq<Tally>, a: seq<Modification>, b: seq<Modification>)
    ensures TallyAll(t, a + b) == TallyAll(TallyAll(t, a), b)
    decreases |a|
  {
    if |a| > 0 {
      assert (a + b)[1..] == a[1..] + b;
      TallyAllConcat(Increment(t, a[0].operator), a[1..], b);
    } else {
      assert a + b == b;
    }
  }

  // ---------------------------------------------------------------------
  // What refine returns
  // ---------------------------------------------------------------------

  /** `refine`: iteration `k` records index `k`, the claim count at the
      start of pass `k` and the modifications that pass logged; the run
      stops at the first pass that logs nothing, which becomes
      `convergence_iteration`, or else after exactly `max_iterations`
      passes; `final_state` is the state after the recorded passes; and
      `total_applications`, the sum of `operators_applied`, counts every
      modification entry, per operator name as well as in total. */
  lemma RefineSpec(ops: seq<Operator>, maxIterations: int, initial: KnowledgeState)
    ensures var m := Refine(ops, maxIterations, initial);
      var n := |m.iterations|;
      && n <= Budget(maxIterations)
      && (forall k :: 0 <= k < n ==> m.iterations[k].iteration == k)
      && (forall k :: 0 <= k < n ==>
            m.iterations[k].numClaims == |StateAfter(PassOf(ops), initial, k).claims|
            && m.iterations[k].modifications == RunPass(ops, StateAfter(PassOf(ops), initial, k)).mods)
      && (forall k :: 0 <= k < n ==>
            (|m.iterations[k].modifications| == 0 <==> m.convergenceIteration == Some(k)))
      && (m.convergenceIteration.Some? ==> m.convergenceIteration.value == n - 1)
      && (m.convergenceIteration.None? ==> n == Budget(maxIterations))
      && m.finalState == StateAfter(PassOf(ops), initial, n)
      && m.totalApplications == Total(m.operatorsApplied) == |AllMods(m.iterations)|
      && (forall name :: CountOf(m.operatorsApplied, name) == CountMods(AllMods(m.iterations), name))
      && DistinctNames(m.operatorsApplied)
  {
    RunSpec(PassOf(ops), maxIterations, initial);
  }

  /** The same for the loop run with any pass. */
  lemma RunSpec(pass: PassFn, maxIterations: int, initial: KnowledgeState)
    ensures var r := RefineFrom(pass, maxIterations, 0, initial, [], []);
      var n := |r.iterations|;
      && n <= Budget(maxIterations)
      && (forall k :: 0 <= k < n ==> r.iterations[k].iteration == k)
      && (forall k :: 0 <= k < n ==>
            r.iterations[k].numClaims == |StateAfter(pass, initial, k).claims|
            && r.iterations[k].modifications == pass(StateAfter(pass, initial, k)).mods)
      && (forall k :: 0 <= k < n ==>
            (|r.iterations[k].modifications| == 0 <==> r.convergence == Some(k)))
      && (r.convergence.Some? ==> r.convergence.value == n - 1)
      && (r.convergence.None? ==> n == Budget(maxIterations))
      && r.finalState == StateAfter(pass, initial, n)
      && Total(r.counts) == |AllMods(r.iterations)|
      && (forall name :: CountOf(r.counts, name) == CountMods(AllMods(r.iterations), name))
      && DistinctNames(r.counts)
  {
    var r := RefineFrom(pass, maxIterations, 0, initial, [], []);
    RefineFromStops(pass, maxIterations, 0, initial, [], []);
    RefineFromTraces(pass, maxIterations, initial, 0, [], []);
    RefineFromCounts(pass, maxIterations, 0, initial, [], []);
    TallyAllCounts([], AllMods(r.iterations));
    forall k | 0 <= k < |r.iterations| ensures r.iterations[k].iteration == k {
      assert r.iterations[k] == Record(pass, initial, k);
    }
  }

  /** With `max_iterations <= 0` nothing runs. */
  lemma RefineNoBudget(ops: seq<Operator>, maxIterations: int, initial: KnowledgeState)
    requires maxIterations <= 0
    ensures var m := Refine(ops, maxIterations, initial);
      && m.iterations == []
      && m.convergenceIteration.None?
      && m.totalApplications == 0
      && m.operatorsApplied == []
      && m.finalState == initial
  {
  }

  /** What the engine relies on from a pass: it never adds claims, keeps a
      `'merges'` entry, produces one whenever it loses claims, and a pass
      that logs nothing returns its input. */
  ghost predicate Lawful(pass: PassFn) {
    forall s: KnowledgeState ::
      && |pass(s).state.claims| <= |s.claims|
      && (s.metadata.merges.Some? ==> pass(s).state.metadata.merges.Some?)
      && (|pass(s).state.claims| < |s.claims| ==> pass(s).state.metadata.merges.Some?)
      && (|pass(s).mods| == 0 ==> pass(s).state == s)
  }

  /** A pass that keeps every valid state valid. */
  ghost predicate KeepsValid(pass: PassFn) {
    forall s: KnowledgeState :: Valid(s) ==> Valid(pass(s).state)
  }

  /** The operator list's pass has both properties. */
  lemma PassOfLawful(ops: seq<Operator>)
    ensures Lawful(PassOf(ops)) && KeepsValid(PassOf(ops))
  {
    forall s: KnowledgeState | Valid(s) ensures Valid(PassOf(ops)(s).state) {
      RunPassPreservesValid(ops, s);
    }
  }

  /** The state after `k + 1` passes is what pass `k` produced. */
  lemma StateAfterNext(pass: PassFn, initial: KnowledgeState, k: nat)
    ensures StateAfter(pass, initial, k + 1) == pass(StateAfter(pass, initial, k)).state
  {
  }

  /** The state at the start of every pass never has more claims than at
      the start, and a lost claim implies a `'merges'` entry. */
  lemma {:induction false} StateAfterInvariant(pass: PassFn, initial: KnowledgeState, k: nat)
    requires Lawful(pass)
    ensures |StateAfter(pass, initial, k).claims| <= |initial.claims|
    ensures |StateAfter(pass, initial, k).claims| < |initial.claims| ==>
      StateAfter(pass, initial, k).metadata.merges.Some?
    decreases k
  {
    if k > 0 {
      StateAfterInvariant(pass, initial, k - 1);
      StateAfterNext(pass, initial, k - 1);
    }
  }

  /** Every pass keeps a valid state valid, so the loop ends in one. */
  lemma {:induction false} RefineFromValid(pass: PassFn, maxIterations: int, i: nat, s: KnowledgeState,
                                           iters: seq<IterationRecord>, counts: seq<Tally>)
    requires KeepsValid(pass) && Valid(s)
    ensures Valid(RefineFrom(pass, maxIterations, i, s, iters, counts).finalState)
    decreases maxIterations - i
  {
    RefineFromUnfold(pass, maxIterations, i, s, iters, counts);
    if i < maxIterations {
      var p := pass(s);
      if |p.mods| > 0 {
        RefineFromValid(pass, maxIterations, i + 1, p.state,
                        iters + [IterationRecord(i, |s.claims|, p.mods)], TallyAll(counts, p.mods));
      }
    }
  }

  /** The engine's safety net over a whole run: the final state never has
      more claims than the initial one, claims lost imply a `'merges'` entry,
      and distinct ids stay distinct. */
  lemma RefineInvariant(ops: seq<Operator>, maxIterations: int, initial: KnowledgeState)
    ensures var f := Refine(ops, maxIterations, initial).finalState;
      && |f.claims| <= |initial.claims|
      && (|f.claims| < |initial.claims| ==> f.metadata.merges.Some?)
      && (Valid(initial) ==> Valid(f))
  {
    var n := |Refine(ops, maxIterations, initial).iterations|;
    RefineSpec(ops, maxIterations, initial);
    PassOfLawful(ops);
    StateAfterInvariant(PassOf(ops), initial, n);
    if Valid(initial) {
      RefineFromValid(PassOf(ops), maxIterations, 0, initial, [], []);
    }
  }

  /** A converged run ends in a fixed point: one more pass logs nothing and
      returns the final state unchanged. */
  lemma ConvergedIsFixedPoint(ops: seq<Operator>, maxIterations: int, initial: KnowledgeState)
    requires Refine(ops, maxIterations, initial).convergenceIteration.Some?
    ensures var f := Refine(ops, maxIterations, initial).finalState;
      RunPass(ops, f).mods == [] && RunPass(ops, f).state == f
  {
    var m := Refine(ops, maxIterations, initial);
    RefineSpec(ops, maxIterations, initial);
    var c := m.convergenceIteration.value;
    assert |m.iterations[c].modifications| == 0;
    StateAfterNext(PassOf(ops), initial, c);
  }

  // =====================================================================
  // analyze_stability
  // =====================================================================

  /** The dictionary `analyze_stability` returns. */
  datatype Stability = Stability(
    isMonotonic: bool,
    converged: bool,
    convergenceSpeed: nat,
    totalModifications: nat,
    claimReduction: int,
    finalClaimCount: nat)

  /** `sum(len(it['modifications']) for it in iterations)`. */
  function SumChanges(iters: seq<IterationRecord>): nat
    decreases |iters|
  {
    if |iters| == 0 then 0 else SumChanges(iters[..|iters| - 1]) + |iters[|iters| - 1].modifications|
  }

  /** `analyze_stability(metrics)`. `is_monotonic` compares adjacent claim
      counts; `convergence_speed` tests `convergence_iteration` for
      truthiness, so an iteration index of 0 counts as absent. */
  function AnalyzeStability(m: Metrics): (a: Stability)
    ensures a.converged <==> m.convergenceIteration.Some?
    ensures a.isMonotonic <==>
      forall i, j :: 0 <= i <= j < |m.iterations| ==> m.iterations[i].numClaims >= m.iterations[j].numClaims
    ensures a.totalModifications == |AllMods(m.iterations)|
    ensures |m.iterations| == 0 ==> a.claimReduction == 0 && a.finalClaimCount == 0
    ensures |m.iterations| > 0 ==>
      a.finalClaimCount == m.iterations[|m.iterations| - 1].numClaims
      && a.claimReduction == m.iterations[0].numClaims - a.finalClaimCount
    ensures m.convergenceIteration.None? ==> a.convergenceSpeed == |m.iterations|
    ensures m.convergenceIteration == Some(0) ==> a.convergenceSpeed == |m.iterations|
    ensures forall c :: m.convergenceIteration == Some(c) && c != 0 ==> a.convergenceSpeed == c
  {
    var iters := m.iterations;
    var n := |iters|;
    var monotonic := forall i :: 0 <= i < n - 1 ==> iters[i].numClaims >= iters[i + 1].numClaims;
    MonotonicAllPairs(iters);
    SumChangesIsAllMods(iters);
    var speed := match m.convergenceIteration
      case Some(c) => if c != 0 then c else n
      case None => n;
    Stability(
      monotonic,
      m.convergenceIteration.Some?,
      speed,
      SumChanges(iters),
      if n > 0 then iters[0].numClaims - iters[n - 1].numClaims else 0,
      if n > 0 then iters[n - 1].numClaims else 0)
  }

  /** Adjacent non-increase is non-increase between any two positions. */
  lemma MonotonicAllPairs(iters: seq<IterationRecord>)
    ensures (forall i :: 0 <= i < |iters| - 1 ==> iters[i].numClaims >= iters[i + 1].numClaims) <==>
      (forall i, j :: 0 <= i <= j < |iters| ==> iters[i].numClaims >= iters[j].numClaims)
  {
    if forall i :: 0 <= i < |iters| - 1 ==> iters[i].numClaims >= iters[i + 1].numClaims {
      forall i, j | 0 <= i <= j < |iters| ensures iters[i].numClaims >= iters[j].numClaims {
        AdjacentChain(iters, i, j);
      }
    }
  }

  lemma {:induction false} AdjacentChain(iters: seq<IterationRecord>, i: nat, j: nat)
    requires i <= j < |iters|
    requires forall k :: 0 <= k < |iters| - 1 ==> iters[k].numClaims >= iters[k + 1].numClaims
    ensures iters[i].numClaims >= iters[j].numClaims
    decreases j - i
  {
    if i < j {
      AdjacentChain(iters, i + 1, j);
    }
  }

  lemma {:induction false} SumChangesIsAllMods(iters: seq<IterationRecord>)
    ensures SumChanges(iters) == |AllMods(iters)|
    decreases |iters|
  {
    if |iters| > 0 {
      SumChangesIsAllMods(iters[..|iters| - 1]);
    }
  }

  /** `analyze_stability` applied to what `refine` returns: the run is always
      monotonic (no operator adds claims); the modification total agrees
      with `total_applications`; the reduction is the initial count minus the
      final count reported, and never negative; a converged run reports the
      final state's claim count; and the speed is the convergence iteration,
      except that convergence at iteration 0 reports 1 and a run that never
      converged reports the budget. */
  lemma StabilityOfRefine(ops: seq<Operator>, maxIterations: int, initial: KnowledgeState)
    ensures var m := Refine(ops, maxIterations, initial);
      var a := AnalyzeStability(m);
      && a.isMonotonic
      && a.totalModifications == m.totalApplications
      && (|m.iterations| > 0 ==> a.claimReduction == |initial.claims| - a.finalClaimCount >= 0)
      && (a.converged ==> a.finalClaimCount == |m.finalState.claims|)
      && (m.convergenceIteration == Some(0) ==> a.convergenceSpeed == 1)
      && (forall c :: m.convergenceIteration == Some(c) && c > 0 ==> a.convergenceSpeed == c)
      && (m.convergenceIteration.None? ==> a.convergenceSpeed == Budget(maxIterations))
  {
    var pass := PassOf(ops);
    var r := RefineFrom(pass, maxIterations, 0, initial, [], []);
    RefineFromStops(pass, maxIterations, 0, initial, [], []);
    RefineFromTraces(pass, maxIterations, initial, 0, [], []);
    RefineFromCounts(pass, maxIterations, 0, initial, [], []);
    PassOfLawful(ops);
    StabilityOfRun(pass, maxIterations, initial, r);
  }

  /** `analyze_stability` of any traced, stopped run of a lawful pass. */
  lemma StabilityOfRun(pass: PassFn, maxIterations: int, initial: KnowledgeState, r: Run)
    requires Lawful(pass) && Stops(maxIterations, r) && Traces(pass, initial, r)
    requires r.counts == TallyAll([], AllMods(r.iterations))
    ensures var m := Metrics(r.iterations, r.convergence, Total(r.counts), r.counts, r.finalState);
      var a := AnalyzeStability(m);
      && a.isMonotonic
      && a.totalModifications == m.totalApplications
      && (|m.iterations| > 0 ==> a.claimReduction == |initial.claims| - a.finalClaimCount >= 0)
      && (a.converged ==> a.finalClaimCount == |m.finalState.claims|)
      && (m.convergenceIteration == Some(0) ==> a.convergenceSpeed == 1)
      && (forall c :: m.convergenceIteration == Some(c) && c > 0 ==> a.convergenceSpeed == c)
      && (m.convergenceIteration.None? ==> a.convergenceSpeed == Budget(maxIterations))
  {
    TallyAllCounts([], AllMods(r.iterations));
    TracedClaimCounts(pass, maxIterations, initial, r);
  }

  /** Along a traced run of a lawful pass the recorded claim counts never
      rise, start at the initial count, and, when the run converged, end at
      the final state's count. */
  lemma TracedClaimCounts(pass: PassFn, maxIterations: int, initial: KnowledgeState, r: Run)
    requires Lawful(pass) && Stops(maxIterations, r) && Traces(pass, initial, r)
    ensures forall k :: 0 <= k < |r.iterations| - 1 ==>
      r.iterations[k].numClaims >= r.iterations[k + 1].numClaims
    ensures |r.iterations| > 0 ==>
      r.iterations[0].numClaims == |initial.claims|
      && r.iterations[|r.iterations| - 1].numClaims <= |initial.claims|
    ensures r.convergence.Some? ==>
      r.iterations[|r.iterations| - 1].numClaims == |r.finalState.claims|
  {
    var n := |r.iterations|;
    forall k | 0 <= k < n - 1 ensures r.iterations[k].numClaims >= r.iterations[k + 1].numClaims {
      StateAfterNext(pass, initial, k);
    }
    if n > 0 {
      StateAfterInvariant(pass, initial, n - 1);
      assert StateAfter(pass, initial, 0) == initial;
    }
    if r.convergence.Some? {
      assert |r.iterations[n - 1].modifications| == 0;
      StateAfterNext(pass, initial, n - 1);
    }
  }
}
