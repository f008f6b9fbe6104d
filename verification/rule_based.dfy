/** The three rule-based improvement operators: evidence normalisation,
    merging of claims with overlapping evidence, and removal of weak claims.
    Each takes a state and returns a fresh state with a `modified` flag. */
module RuleBased {
  import opened Common
  import opened LexOrder
  import opened Knowledge
  import opened OperatorBase

  /** What `apply` returns: `(new_state, modified)`. */
  datatype Outcome = Outcome(state: KnowledgeState, modified: bool)

  /** The entries appended to `before` to obtain `after`. */
  function Appended<T>(before: seq<T>, after: seq<T>): seq<T> {
    if |before| <= |after| then after[|before|..] else []
  }

  // =====================================================================
  // NormalizeEvidence
  // =====================================================================

  /** The per-claim loop of `NormalizeEvidenceOperator.apply`: each
      evidence list becomes `sorted(set(evidence))`; the flag records whether
      any list differed from its normal form. */
  function NormalizeClaims(cs: seq<Claim>): (r: (seq<Claim>, bool))
    ensures NormalizedFrom(cs, r.0)
    ensures r.1 <==> SomeUnsorted(cs)
    decreases |cs|
  {
    if |cs| == 0 then ([], false)
    else
      var unique := SortDedup(cs[0].evidence);
      var changed := |unique| != |cs[0].evidence| || unique != cs[0].evidence;
      SortDedupFixedPoint(cs[0].evidence);
      var rest := NormalizeClaims(cs[1..]);
      NormalizeStep(cs, cs[0].(evidence := unique), rest.0, changed, rest.1);
      ([cs[0].(evidence := unique)] + rest.0, changed || rest.1)
  }

  /** `out` is `cs` with every evidence list replaced by a sorted,
      duplicate-free list of the same elements. */
  ghost predicate NormalizedFrom(cs: seq<Claim>, out: seq<Claim>) {
    && |out| == |cs|
    && forall i :: 0 <= i < |cs| ==>
      && out[i] == cs[i].(evidence := out[i].evidence)
      && StrictlyIncreasing(out[i].evidence)
      && Elems(out[i].evidence) == Elems(cs[i].evidence)
  }

  /** Some evidence list is not already sorted and duplicate-free. */
  ghost predicate SomeUnsorted(cs: seq<Claim>) {
    exists i :: 0 <= i < |cs| && !StrictlyIncreasing(cs[i].evidence)
  }

  /** Normalising the head and the tail normalises the list. */
  lemma NormalizeStep(cs: seq<Claim>, head: Claim, rest: seq<Claim>, changed: bool, restChanged: bool)
    requires |cs| > 0
    requires head == cs[0].(evidence := head.evidence)
    requires StrictlyIncreasing(head.evidence) && Elems(head.evidence) == Elems(cs[0].evidence)
    requires changed <==> !StrictlyIncreasing(cs[0].evidence)
    requires NormalizedFrom(cs[1..], rest)
    requires restChanged <==> SomeUnsorted(cs[1..])
    ensures NormalizedFrom(cs, [head] + rest)
    ensures changed || restChanged <==> SomeUnsorted(cs)
  {
    var out := [head] + rest;
    forall i | 0 <= i < |cs|
      ensures out[i] == cs[i].(evidence := out[i].evidence)
      ensures StrictlyIncreasing(out[i].evidence) && Elems(out[i].evidence) == Elems(cs[i].evidence)
    {
      if i > 0 {
        assert out[i] == rest[i - 1] && cs[i] == cs[1..][i - 1];
      }
    }
    if restChanged {
      var k :| 0 <= k < |cs[1..]| && !StrictlyIncreasing(cs[1..][k].evidence);
      assert !StrictlyIncreasing(cs[k + 1].evidence);
    }
    if SomeUnsorted(cs) && !changed {
      var k :| 0 <= k < |cs| && !StrictlyIncreasing(cs[k].evidence);
      assert k > 0 && cs[k] == cs[1..][k - 1];
    }
  }

  /** `NormalizeEvidenceOperator.apply`. Claim ids, order and every field
      other than the evidence are kept, as are relationships and metadata;
      each evidence list becomes the sorted, duplicate-free list of its own
      elements. `modified` holds exactly when some evidence list was not
      already sorted and duplicate-free. */
  function Normalize(s: KnowledgeState): (r: Outcome)
    ensures |r.state.claims| == |s.claims|
    ensures forall i :: 0 <= i < |s.claims| ==>
      && r.state.claims[i] == s.claims[i].(evidence := r.state.claims[i].evidence)
      && StrictlyIncreasing(r.state.claims[i].evidence)
      && Elems(r.state.claims[i].evidence) == Elems(s.claims[i].evidence)
    ensures r.state.relationships == s.relationships && r.state.metadata == s.metadata
    ensures r.modified <==> exists i :: 0 <= i < |s.claims| && !StrictlyIncreasing(s.claims[i].evidence)
  {
    var (claims, modified) := NormalizeClaims(s.claims);
    Outcome(KnowledgeState(claims, s.relationships, s.metadata), modified)
  }

  /** An unmodified normalisation returns the state it was given. */
  lemma NormalizeUnmodifiedIsIdentity(s: KnowledgeState)
    ensures !Normalize(s).modified ==> Normalize(s).state == s
  {
    var r := Normalize(s);
    if !r.modified {
      forall i | 0 <= i < |s.claims| ensures r.state.claims[i] == s.claims[i] {
        StrictlyIncreasingUnique(r.state.claims[i].evidence, s.claims[i].evidence);
      }
      assert r.state.claims == s.claims;
    }
  }

  /** Normalising twice: the second application reports no modification
      and returns its input unchanged. */
  lemma NormalizeIdempotent(s: KnowledgeState)
    ensures !Normalize(Normalize(s).state).modified
    ensures Normalize(Normalize(s).state).state == Normalize(s).state
  {
    NormalizeUnmodifiedIsIdentity(Normalize(s).state);
  }

  // =====================================================================
  // MergeDuplicateClaims
  // =====================================================================

  /** `overlap / min(len(e1), len(e2))` on two non-empty evidence sets. */
  function Similarity(e1: set<string>, e2: set<string>): (sim: real)
    requires |e1| > 0 && |e2| > 0
    ensures 0.0 <= sim <= 1.0
    ensures e1 <= e2 || e2 <= e1 ==> sim == 1.0
    ensures e1 !! e2 ==> sim == 0.0
  {
    SubsetCard(e1 * e2, e1);
    SubsetCard(e1 * e2, e2);
    assert e1 <= e2 ==> e1 * e2 == e1;
    assert e2 <= e1 ==> e1 * e2 == e2;
    RatioBounds(|e1 * e2|, Min(|e1|, |e2|));
    (|e1 * e2| as real) / (Min(|e1|, |e2|) as real)
  }

  /** A count over a larger positive count is a fraction in [0, 1]. */
  lemma RatioBounds(n: nat, d: nat)
    requires 0 < d && n <= d
    ensures 0.0 <= (n as real) / (d as real) <= 1.0
    ensures n == d ==> (n as real) / (d as real) == 1.0
    ensures n == 0 ==> (n as real) / (d as real) == 0.0
  {
    var q := (n as real) / (d as real);
    assert q * (d as real) == n as real;
  }

  /** A merge of a later claim into the kept one, and the similarity that
      justified it. */
  datatype Absorption = Absorption(kept: Claim, similarity: real)

  /** One pair comparison of the merge pass. Pairs where either evidence set
      is empty are skipped. Otherwise the pair merges exactly when the
      similarity reaches the threshold; the kept claim then holds the union
      of both evidence sets, without duplicates, and the larger confidence.
      Python leaves the order of `list(e1 | e2)` unspecified; the model
      uses the sorted order. */
  function TryMerge(c1: Claim, c2: Claim, threshold: real): (r: Option<Absorption>)
    ensures r.Some? <==>
      && |Elems(c1.evidence)| > 0 && |Elems(c2.evidence)| > 0
      && Similarity(Elems(c1.evidence), Elems(c2.evidence)) >= threshold
    ensures r.Some? ==>
      && r.value.kept == c1.(evidence := r.value.kept.evidence, confidence := r.value.kept.confidence)
      && Elems(r.value.kept.evidence) == Elems(c1.evidence) + Elems(c2.evidence)
      && NoDups(r.value.kept.evidence)
      && r.value.kept.confidence == Max(c1.confidence, c2.confidence)
      && r.value.similarity == Similarity(Elems(c1.evidence), Elems(c2.evidence))
  {
    var e1 := Elems(c1.evidence);
    var e2 := Elems(c2.evidence);
    if |e1| == 0 || |e2| == 0 then None
    else
      var similarity := Similarity(e1, e2);
      if similarity >= threshold then
        var union := SortDedup(c1.evidence + c2.evidence);
        assert Elems(c1.evidence + c2.evidence) == e1 + e2;
        StrictlyIncreasingNoDups(union);
        Some(Absorption(c1.(evidence := union, confidence := Max(c1.confidence, c2.confidence)),
                        similarity))
      else None
  }

  /** The ids a list of merge records removed. */
  function RemovedIds(records: seq<MergeRecord>): set<string> {
    set m | m in records :: m.removed
  }

  /** The ids merged into `kept` by a list of merge records. */
  function AbsorbedInto(records: seq<MergeRecord>, kept: string): set<string> {
    set m | m in records && m.kept == kept :: m.removed
  }

  lemma RemovedIdsConcat(a: seq<MergeRecord>, b: seq<MergeRecord>)
    ensures RemovedIds(a + b) == RemovedIds(a) + RemovedIds(b)
  {
    assert forall m :: m in a + b <==> m in a || m in b;
  }

  lemma RemovedIdsSingle(m: MergeRecord)
    ensures RemovedIds([m]) == {m.removed}
  {
    assert m in [m];
  }

  /** The ids of a suffix are ids of the longer suffix. */
  lemma IdSetSuffix(cl: seq<Claim>, i: nat)
    requires i < |cl|
    ensures IdSet(cl[i + 1..]) <= IdSet(cl[i..])
    ensures cl[i].id in IdSet(cl[i..])
  {
    assert cl[i] == cl[i..][0];
    forall x | x in IdSet(cl[i + 1..]) ensures x in IdSet(cl[i..]) {
      var c :| c in cl[i + 1..] && c.id == x;
      var k :| 0 <= k < |cl[i + 1..]| && cl[i + 1..][k] == c;
      assert cl[i..][k + 1] == c;
    }
  }

  /** What one scan of the merge pass produced: the grown kept claim (inner
      loop) or the rewritten claim list (outer loop), the ids it newly put
      in `claims_to_remove`, and the merge records it appended, in order. */
  datatype Scan = Scan(kept: Claim, newlyRemoved: set<string>, records: seq<MergeRecord>)
  datatype Pass = Pass(claims: seq<Claim>, newlyRemoved: set<string>, records: seq<MergeRecord>)

  /** The inner loop of the merge pass: `c1` against every later claim in
      list order. Claims already in `removed` are skipped; each merge grows
      `c1`, marks the other claim removed and appends one record. Every
      record names `c1` as kept and a fresh later claim as removed. */
  function MergeInto(c1: Claim, later: seq<Claim>, removed: set<string>, threshold: real): (r: Scan)
    ensures ScanSound(c1, later, removed, threshold, r)
    decreases |later|
  {
    if |later| == 0 then Scan(c1, {}, [])
    else
      var c2 := later[0];
      IdSetSuffix(later, 0);
      assert later[0..] == later;
      if c2.id in removed then MergeInto(c1, later[1..], removed, threshold)
      else match TryMerge(c1, c2, threshold)
        case None => MergeInto(c1, later[1..], removed, threshold)
        case Some(a) =>
          var r := MergeInto(a.kept, later[1..], removed + {c2.id}, threshold);
          MergeIntoStep(c1, later, removed, threshold, a, r);
          Scan(r.kept, {c2.id} + r.newlyRemoved, [MergeRecord(c1.id, c2.id, a.similarity)] + r.records)
  }

  /** Absorbing the first later claim and scanning the rest with the grown
      claim is a sound scan of the whole list. */
  lemma MergeIntoStep(c1: Claim, later: seq<Claim>, removed: set<string>, threshold: real,
                      a: Absorption, r: Scan)
    requires |later| > 0 && later[0].id !in removed
    requires a.kept.id == c1.id && a.kept.text == c1.text && a.kept.section == c1.section
    requires a.similarity >= threshold
    requires ScanSound(a.kept, later[1..], removed + {later[0].id}, threshold, r)
    ensures ScanSound(c1, later, removed, threshold,
                      Scan(r.kept, {later[0].id} + r.newlyRemoved,
                           [MergeRecord(c1.id, later[0].id, a.similarity)] + r.records))
  {
    var record := MergeRecord(c1.id, later[0].id, a.similarity);
    RemovedIdsConcat([record], r.records);
    RemovedIdsSingle(record);
    IdSetSuffix(later, 0);
    assert later[0..] == later;
    assert later[0].id !in r.newlyRemoved;
    DisjointUnionCard({later[0].id}, r.newlyRemoved);
    forall m | m in [record] + r.records ensures m.kept == c1.id && m.similarity >= threshold {
      if m != record {
        assert m in r.records;
      }
    }
  }

  /** The outer loop of the merge pass from index `i`: a claim already in
      `removed` is skipped, otherwise it absorbs what it can of the claims
      after it. Only entries from `i` on are rewritten, ids never change,
      and every merge removes a fresh id from `i` on. */
  function MergeFrom(cl: seq<Claim>, i: nat, removed: set<string>, threshold: real): (r: Pass)
    requires i <= |cl|
    ensures PassSound(cl, i, removed, threshold, r)
    decreases |cl| - i
  {
    if i == |cl| then Pass(cl, {}, [])
    else
      IdSetSuffix(cl, i);
      if cl[i].id in removed then MergeFrom(cl, i + 1, removed, threshold)
      else
        var s := MergeInto(cl[i], cl[i + 1..], removed, threshold);
        var cl' := cl[i := s.kept];
        KeptInPlace(cl, i, s.kept);
        var r := MergeFrom(cl', i + 1, removed + s.newlyRemoved, threshold);
        MergeFromStep(cl, i, removed, threshold, s, r);
        Pass(r.claims, s.newlyRemoved + r.newlyRemoved, s.records + r.records)
  }

  /** Writing the grown claim back at `i` keeps the ids and the suffix. */
  lemma KeptInPlace(cl: seq<Claim>, i: nat, kept: Claim)
    requires i < |cl| && kept.id == cl[i].id
    ensures Ids(cl[i := kept]) == Ids(cl)
    ensures cl[i := kept][i + 1..] == cl[i + 1..]
  {
    assert forall k :: 0 <= k < |cl| ==> Ids(cl[i := kept])[k] == Ids(cl)[k];
  }

  /** What a scan of the inner loop guarantees (the contract of `MergeInto`). */
  ghost predicate ScanSound(c1: Claim, later: seq<Claim>, removed: set<string>, threshold: real, r: Scan) {
    && r.kept.id == c1.id && r.kept.text == c1.text && r.kept.section == c1.section
    && r.newlyRemoved == RemovedIds(r.records)
    && r.newlyRemoved !! removed
    && |r.records| == |r.newlyRemoved|
    && r.newlyRemoved <= IdSet(later)
    && (forall m :: m in r.records ==> m.kept == c1.id && m.similarity >= threshold)
    && (|r.records| == 0 ==> r.kept == c1)
  }

  /** What the outer loop from `i` guarantees (the contract of `MergeFrom`). */
  ghost predicate PassSound(cl: seq<Claim>, i: nat, removed: set<string>, threshold: real, r: Pass)
    requires i <= |cl|
  {
    && |r.claims| == |cl| && Ids(r.claims) == Ids(cl)
    && (forall k :: 0 <= k < i ==> r.claims[k] == cl[k])
    && r.newlyRemoved == RemovedIds(r.records)
    && r.newlyRemoved !! removed
    && |r.records| == |r.newlyRemoved|
    && r.newlyRemoved <= IdSet(cl[i..])
    && (forall m :: m in r.records ==> m.kept in IdSet(cl[i..]) && m.similarity >= threshold)
    && (|r.records| == 0 ==> r.claims == cl)
  }

  /** A scan of claim `i` followed by the outer loop from `i + 1` on the
      rewritten list is a sound outer loop from `i`. */
  lemma MergeFromStep(cl: seq<Claim>, i: nat, removed: set<string>, threshold: real, s: Scan, r: Pass)
    requires i < |cl| && cl[i].id !in removed
    requires ScanSound(cl[i], cl[i + 1..], removed, threshold, s)
    requires Ids(cl[i := s.kept]) == Ids(cl) && cl[i := s.kept][i + 1..] == cl[i + 1..]
    requires PassSound(cl[i := s.kept], i + 1, removed + s.newlyRemoved, threshold, r)
    ensures PassSound(cl, i, removed, threshold,
                      Pass(r.claims, s.newlyRemoved + r.newlyRemoved, s.records + r.records))
  {
    var cl' := cl[i := s.kept];
    IdSetSuffix(cl, i);
    RemovedIdsConcat(s.records, r.records);
    assert s.newlyRemoved !! r.newlyRemoved;
    forall k | 0 <= k < i ensures r.claims[k] == cl[k] {
      assert r.claims[k] == cl'[k];
    }
    forall m | m in s.records + r.records ensures m.kept in IdSet(cl[i..]) && m.similarity >= threshold {
      if m in s.records {
        assert m.kept == cl[i].id;
      }
    }
    if |s.records| + |r.records| == 0 {
      assert cl' == cl;
    }
    DisjointUnionCard(s.newlyRemoved, r.newlyRemoved);
  }

  /** Appends merge records to the `'merges'` list, creating the key with
      the first record; no records leave the metadata as it was. */
  function LogMerges(m: Metadata, records: seq<MergeRecord>): (r: Metadata)
    ensures |MergeLog(r)| == |MergeLog(m)| + |records|
    ensures MergeLog(r)[..|MergeLog(m)|] == MergeLog(m)
    ensures Appended(MergeLog(m), MergeLog(r)) == records
    ensures |records| == 0 ==> r == m
    ensures |records| > 0 ==> r == m.(merges := Some(MergeLog(r)))
  {
    if |records| == 0 then m
    else
      var r := m.(merges := Some(MergeLog(m) + records));
      assert MergeLog(r)[..|MergeLog(m)|] == MergeLog(m);
      r
  }

  /** Drops the claims whose ids are in `gone`, keeping the others in order. */
  function Survivors(cl: seq<Claim>, gone: set<string>): (r: seq<Claim>)
    ensures Ids(r) == Filter(Ids(cl), IdOutside(gone))
    ensures gone == {} ==> r == cl
  {
    FilterIds(cl, gone);
    assert gone == {} ==> Filter(cl, Outside(gone)) == cl by {
      if gone == {} {
        FilterAll(cl, Outside(gone));
      }
    }
    Filter(cl, Outside(gone))
  }

  /** `MergeDuplicateClaimsOperator.apply(state)` with
      `similarity_threshold = threshold`. The old `'merges'` list is a
      prefix of the new one; `modified` holds exactly when records were
      appended; the surviving ids are the old ones minus the ids the new
      records removed, in order, and the relationship entries of those ids
      are gone. Without a merge the state is returned unchanged. */
  function Merge(s: KnowledgeState, threshold: real): (r: Outcome)
    ensures |MergeLog(s.metadata)| <= |MergeLog(r.state.metadata)|
    ensures MergeLog(r.state.metadata)[..|MergeLog(s.metadata)|] == MergeLog(s.metadata)
    ensures r.modified <==> |MergeLog(r.state.metadata)| > |MergeLog(s.metadata)|
    ensures !r.modified ==> r.state == s
    ensures r.modified ==>
      r.state.metadata == s.metadata.(merges := Some(MergeLog(r.state.metadata)))
    ensures var gone := RemovedIds(Appended(MergeLog(s.metadata), MergeLog(r.state.metadata)));
      && Ids(r.state.claims) == Filter(Ids(s.claims), IdOutside(gone))
      && r.state.relationships == s.relationships - gone
  {
    var p := MergeFrom(s.claims, 0, {}, threshold);
    assert |p.records| == 0 ==> p.newlyRemoved == {} && s.relationships - p.newlyRemoved == s.relationships;
    Outcome(KnowledgeState(Survivors(p.claims, p.newlyRemoved),
                           s.relationships - p.newlyRemoved,
                           LogMerges(s.metadata, p.records)),
            |p.records| > 0)
  }

  /** Filtering claims by id and filtering their ids agree. */
  lemma {:induction false} FilterIds(cs: seq<Claim>, gone: set<string>)
    ensures Ids(Filter(cs, Outside(gone))) == Filter(Ids(cs), IdOutside(gone))
    decreases |cs|
  {
    if |cs| > 0 {
      FilterIds(cs[1..], gone);
      var rest := Filter(cs[1..], Outside(gone));
      assert cs == [cs[0]] + cs[1..];
      IdsCons(cs[0], cs[1..]);
      assert Ids(cs)[1..] == Ids(cs[1..]);
      if cs[0].id in gone {
        assert !Outside(gone)(cs[0]) && !IdOutside(gone)(Ids(cs)[0]);
        assert Filter(cs, Outside(gone)) == rest;
      } else {
        assert Outside(gone)(cs[0]) && IdOutside(gone)(Ids(cs)[0]);
        assert Filter(cs, Outside(gone)) == [cs[0]] + rest;
        IdsCons(cs[0], rest);
      }
    }
  }

  // ---------------------------------------------------------------------
  // What the merge pass does to the claims it keeps
  // ---------------------------------------------------------------------

  /** The union of the evidence sets of the claims of `cl` whose ids lie in
      `ids`. */
  function AbsorbedEvidence(cl: seq<Claim>, ids: set<string>): set<string>
    decreases |cl|
  {
    if |cl| == 0 then {}
    else (if cl[0].id in ids then Elems(cl[0].evidence) else {}) + AbsorbedEvidence(cl[1..], ids)
  }

  /** `k` is `o` after absorbing exactly the claims of `cl` whose ids lie in
      `ids`: same id, text and section; its evidence set is the union of all
      their evidence sets; its confidence is the largest of their
      confidences. Having absorbed nothing, it is `o` itself. */
  ghost predicate AbsorbedExactly(k: Claim, o: Claim, cl: seq<Claim>, ids: set<string>) {
    && k.id == o.id && k.text == o.text && k.section == o.section
    && (ids == {} ==> k == o)
    && Elems(k.evidence) == Elems(o.evidence) + AbsorbedEvidence(cl, ids)
    && MaxConfidence(k.confidence, o, cl, ids)
  }

  /** `x` is the largest of the confidences of `o` and of the claims of `cl`
      whose ids lie in `ids`. */
  ghost predicate MaxConfidence(x: real, o: Claim, cl: seq<Claim>, ids: set<string>) {
    && x >= o.confidence
    && (forall d :: d in cl && d.id in ids ==> x >= d.confidence)
    && (x == o.confidence || exists d :: d in cl && d.id in ids && x == d.confidence)
  }

  /** Only the ids of `cl` matter to `AbsorbedEvidence`. */
  lemma {:induction false} AbsorbedEvidenceRelevant(cl: seq<Claim>, a: set<string>, b: set<string>)
    requires a * IdSet(cl) == b * IdSet(cl)
    ensures AbsorbedEvidence(cl, a) == AbsorbedEvidence(cl, b)
    decreases |cl|
  {
    if |cl| > 0 {
      assert cl[0].id in IdSet(cl);
      assert IdSet(cl[1..]) <= IdSet(cl) by {
        forall c | c in cl[1..] ensures c in cl { }
      }
      assert cl[0].id in a <==> cl[0].id in b by {
        assert cl[0].id in a ==> cl[0].id in a * IdSet(cl);
        assert cl[0].id in b ==> cl[0].id in b * IdSet(cl);
      }
      forall x | x in a * IdSet(cl[1..]) ensures x in b {
        assert x in a * IdSet(cl);
      }
      forall x | x in b * IdSet(cl[1..]) ensures x in a {
        assert x in b * IdSet(cl);
      }
      AbsorbedEvidenceRelevant(cl[1..], a, b);
    }
  }

  lemma {:induction false} AbsorbedEvidenceConcat(a: seq<Claim>, b: seq<Claim>, ids: set<string>)
    ensures AbsorbedEvidence(a + b, ids) == AbsorbedEvidence(a, ids) + AbsorbedEvidence(b, ids)
    decreases |a|
  {
    if |a| > 0 {
      assert (a + b)[1..] == a[1..] + b;
      AbsorbedEvidenceConcat(a[1..], b, ids);
    } else {
      assert a + b == b;
    }
  }

  /** Two equally long lists that agree on every entry whose id lies in
      `ids` absorb the same. */
  lemma AbsorbedExactlyTransfer(k: Claim, o: Claim, cl1: seq<Claim>, cl2: seq<Claim>, ids: set<string>)
    requires |cl1| == |cl2|
    requires forall j :: 0 <= j < |cl1| && (cl1[j].id in ids || cl2[j].id in ids) ==> cl1[j] == cl2[j]
    requires AbsorbedExactly(k, o, cl1, ids)
    ensures AbsorbedExactly(k, o, cl2, ids)
  {
    AbsorbedEvidenceAgree(cl1, cl2, ids);
    forall d | d in cl2 && d.id in ids ensures d in cl1 {
      var j :| 0 <= j < |cl2| && cl2[j] == d;
      assert cl1[j] == d;
    }
    forall d | d in cl1 && d.id in ids ensures d in cl2 {
      var j :| 0 <= j < |cl1| && cl1[j] == d;
      assert cl2[j] == d;
    }
  }

  lemma {:induction false} AbsorbedEvidenceAgree(cl1: seq<Claim>, cl2: seq<Claim>, ids: set<string>)
    requires |cl1| == |cl2|
    requires forall j :: 0 <= j < |cl1| && (cl1[j].id in ids || cl2[j].id in ids) ==> cl1[j] == cl2[j]
    ensures AbsorbedEvidence(cl1, ids) == AbsorbedEvidence(cl2, ids)
    decreases |cl1|
  {
    if |cl1| > 0 {
      assert forall j :: 0 <= j < |cl1| - 1 ==> cl1[1..][j] == cl1[j + 1] && cl2[1..][j] == cl2[j + 1];
      AbsorbedEvidenceAgree(cl1[1..], cl2[1..], ids);
    }
  }

  /** Absorbing from a suffix of a duplicate-free list is absorbing from the
      whole list, when every absorbed id belongs to the suffix. */
  lemma AbsorbedExactlyWiden(k: Claim, o: Claim, cl: seq<Claim>, i: nat, ids: set<string>)
    requires DistinctIds(cl) && i <= |cl|
    requires ids <= IdSet(cl[i..])
    requires AbsorbedExactly(k, o, cl[i..], ids)
    ensures AbsorbedExactly(k, o, cl, ids)
  {
    AbsorbedInSuffix(cl, i, ids);
  }

  lemma AbsorbedInSuffix(cl: seq<Claim>, i: nat, ids: set<string>)
    requires DistinctIds(cl) && i <= |cl|
    requires ids <= IdSet(cl[i..])
    ensures AbsorbedEvidence(cl, ids) == AbsorbedEvidence(cl[i..], ids)
    ensures forall d :: d in cl && d.id in ids ==> d in cl[i..]
  {
    DistinctIdsSplit(cl, i);
    assert cl == cl[..i] + cl[i..];
    AbsorbedEvidenceConcat(cl[..i], cl[i..], ids);
    AbsorbedEvidenceRelevant(cl[..i], ids, {});
    AbsorbedEvidenceNone(cl[..i]);
    forall d | d in cl && d.id in ids ensures d in cl[i..] {
      assert d in cl[..i] || d in cl[i..];
    }
  }

  lemma {:induction false} AbsorbedEvidenceNone(cl: seq<Claim>)
    ensures AbsorbedEvidence(cl, {}) == {}
    decreases |cl|
  {
    if |cl| > 0 {
      AbsorbedEvidenceNone(cl[1..]);
    }
  }

  /** A later claim the scan skips contributes nothing. */
  lemma AbsorbSkip(k: Claim, c1: Claim, later: seq<Claim>, ids: set<string>)
    requires |later| > 0 && later[0].id !in ids
    requires AbsorbedExactly(k, c1, later[1..], ids)
    ensures AbsorbedExactly(k, c1, later, ids)
  {
    assert later == [later[0]] + later[1..];
    assert forall d :: d in later ==> d == later[0] || d in later[1..];
  }

  /** A later claim the scan merges contributes its evidence and
      confidence, and so does every claim the grown claim absorbs after. */
  lemma AbsorbStep(k: Claim, c1: Claim, grown: Claim, later: seq<Claim>, ids: set<string>)
    requires |later| > 0 && DistinctIds(later)
    requires grown == c1.(evidence := grown.evidence, confidence := grown.confidence)
    requires Elems(grown.evidence) == Elems(c1.evidence) + Elems(later[0].evidence)
    requires grown.confidence == Max(c1.confidence, later[0].confidence)
    requires ids <= IdSet(later[1..])
    requires AbsorbedExactly(k, grown, later[1..], ids)
    ensures AbsorbedExactly(k, c1, later, {later[0].id} + ids)
  {
    HeadIdNotInTail(later);
    AbsorbStepEvidence(later, ids);
    AbsorbStepConfidence(k.confidence, c1, grown, later, ids);
  }

  lemma AbsorbStepEvidence(later: seq<Claim>, ids: set<string>)
    requires |later| > 0
    requires later[0].id !in IdSet(later[1..]) && ids <= IdSet(later[1..])
    ensures AbsorbedEvidence(later, {later[0].id} + ids)
      == Elems(later[0].evidence) + AbsorbedEvidence(later[1..], ids)
  {
    AbsorbedEvidenceRelevant(later[1..], {later[0].id} + ids, ids);
  }

  lemma AbsorbStepConfidence(x: real, c1: Claim, grown: Claim, later: seq<Claim>, ids: set<string>)
    requires |later| > 0
    requires grown.confidence == Max(c1.confidence, later[0].confidence)
    requires later[0].id !in IdSet(later[1..])
    requires MaxConfidence(x, grown, later[1..], ids)
    ensures MaxConfidence(x, c1, later, {later[0].id} + ids)
  {
    var c2 := later[0];
    var tail := later[1..];
    assert later == [c2] + tail;
    assert forall d :: d in later ==> d == c2 || d in tail;
    forall d | d in later && d.id in {c2.id} + ids ensures x >= d.confidence {
      if d != c2 {
        assert d in tail;
      }
    }
    if x != grown.confidence {
      var d :| d in tail && d.id in ids && x == d.confidence;
      assert d in later;
    } else if x != c1.confidence {
      assert x == c2.confidence && c2 in later;
    }
  }

  /** One inner scan: the kept claim ends up as `c1` having absorbed
      exactly the later claims it marked removed. */
  lemma {:induction false} MergeIntoAbsorbs(c1: Claim, later: seq<Claim>, removed: set<string>, threshold: real)
    requires DistinctIds(later)
    ensures var r := MergeInto(c1, later, removed, threshold);
      AbsorbedExactly(r.kept, c1, later, r.newlyRemoved)
    decreases |later|
  {
    if |later| > 0 {
      var c2 := later[0];
      var tail := later[1..];
      HeadIdNotInTail(later);
      var r := MergeInto(c1, later, removed, threshold);
      if c2.id in removed || TryMerge(c1, c2, threshold).None? {
        MergeIntoAbsorbs(c1, tail, removed, threshold);
        AbsorbSkip(r.kept, c1, later, r.newlyRemoved);
      } else {
        var a := TryMerge(c1, c2, threshold).value;
        MergeIntoAbsorbs(a.kept, tail, removed + {c2.id}, threshold);
        AbsorbStep(r.kept, c1, a.kept, later, MergeInto(a.kept, tail, removed + {c2.id}, threshold).newlyRemoved);
      }
    }
  }

  /** The outer loop from index `i`: every entry from `i` on ends up as
      its original having absorbed exactly the claims that the records name
      as merged into it; and no claim a record keeps is ever marked
      removed. */
  lemma {:induction false} MergeFromAbsorbs(cl: seq<Claim>, i: nat, removed: set<string>, threshold: real)
    requires i <= |cl| && DistinctIds(cl)
    ensures Absorbs(cl, i, removed, MergeFrom(cl, i, removed, threshold))
    decreases |cl| - i
  {
    if i < |cl| {
      HeadOfSuffixFresh(cl, i);
      IdSetSuffix(cl, i);
      if cl[i].id in removed {
        MergeFromAbsorbs(cl, i + 1, removed, threshold);
        SkipAbsorbs(cl, i, removed, MergeFrom(cl, i + 1, removed, threshold));
      } else {
        var s := MergeInto(cl[i], cl[i + 1..], removed, threshold);
        var cl' := cl[i := s.kept];
        assert Ids(cl') == Ids(cl);
        assert cl'[i + 1..] == cl[i + 1..];
        SameIds(cl, cl');
        var rr := MergeFrom(cl', i + 1, removed + s.newlyRemoved, threshold);
        MergeFromAbsorbs(cl', i + 1, removed + s.newlyRemoved, threshold);
        ScanKeptAbsorbs(cl, i, removed, threshold);
        ScanAbsorbs(cl, i, removed, s, rr);
      }
    }
  }

  /** The conclusion of the outer loop from index `i` with result `r`: no
      record keeps a claim marked removed, and every entry from `i` on is its
      original having absorbed exactly what the records credit to it. */
  ghost predicate Absorbs(cl: seq<Claim>, i: nat, removed: set<string>, r: Pass)
    requires i <= |cl| && |r.claims| == |cl|
  {
    && (forall m :: m in r.records ==> m.kept !in removed + r.newlyRemoved)
    && (forall k :: i <= k < |cl| ==>
          AbsorbedExactly(r.claims[k], cl[k], cl, AbsorbedInto(r.records, cl[k].id)))
  }

  /** The outer loop skipping an entry already marked removed. */
  lemma SkipAbsorbs(cl: seq<Claim>, i: nat, removed: set<string>, p: Pass)
    requires i < |cl| && |p.claims| == |cl| && p.claims[i] == cl[i]
    requires cl[i].id in removed && cl[i].id !in IdSet(cl[i + 1..])
    requires forall m :: m in p.records ==> m.kept in IdSet(cl[i + 1..])
    requires Absorbs(cl, i + 1, removed, p)
    ensures Absorbs(cl, i, removed, p)
  {
    NothingAbsorbed(cl, i, p.records);
  }

  /** An entry that no record keeps absorbs nothing. */
  lemma NothingAbsorbed(cl: seq<Claim>, i: nat, records: seq<MergeRecord>)
    requires i < |cl|
    requires forall m :: m in records ==> m.kept in IdSet(cl[i + 1..])
    requires cl[i].id !in IdSet(cl[i + 1..])
    ensures AbsorbedInto(records, cl[i].id) == {}
    ensures AbsorbedExactly(cl[i], cl[i], cl, {})
  {
    AbsorbedEvidenceNone(cl);
  }

  /** The outer loop scanning from an entry not marked removed: the scan
      `s` followed by the rest of the pass `rr`. */
  lemma ScanAbsorbs(cl: seq<Claim>, i: nat, removed: set<string>, s: Scan, rr: Pass)
    requires i < |cl| && |rr.claims| == |cl| && rr.claims[i] == s.kept
    requires cl[i].id !in removed && cl[i].id !in IdSet(cl[i + 1..])
    requires s.kept.id == cl[i].id
    requires forall m :: m in s.records ==> m.kept == cl[i].id
    requires s.newlyRemoved == RemovedIds(s.records) && s.newlyRemoved <= IdSet(cl[i + 1..])
    requires AbsorbedExactly(s.kept, cl[i], cl, s.newlyRemoved)
    requires rr.newlyRemoved == RemovedIds(rr.records) && rr.newlyRemoved <= IdSet(cl[i + 1..])
    requires forall m :: m in rr.records ==> m.kept in IdSet(cl[i + 1..])
    requires Absorbs(cl[i := s.kept], i + 1, removed + s.newlyRemoved, rr)
    ensures Absorbs(cl, i, removed, Pass(rr.claims, s.newlyRemoved + rr.newlyRemoved, s.records + rr.records))
  {
    var records := s.records + rr.records;
    ScanKeepsSurvivors(cl[i].id, cl[i + 1..], removed, s.records, s.newlyRemoved, rr.records, rr.newlyRemoved);
    forall k | i <= k < |cl|
      ensures AbsorbedExactly(rr.claims[k], cl[k], cl, AbsorbedInto(records, cl[k].id))
    {
      AbsorbedIntoSplit(s.records, rr.records, cl[i].id, cl[k].id);
      if k > i {
        assert cl[k] in cl[i + 1..];
        LaterEntryTransfer(cl, i, k, s.kept, rr.claims[k], AbsorbedInto(rr.records, cl[k].id), rr.newlyRemoved);
      }
    }
  }

  /** What the records of a pass credit to `kept`, split between the
      records of one scan (all keeping `id`) and those of the rest of the
      pass (none keeping `id`). */
  lemma AbsorbedIntoSplit(a: seq<MergeRecord>, b: seq<MergeRecord>, id: string, kept: string)
    requires forall m :: m in a ==> m.kept == id
    requires forall m :: m in b ==> m.kept != id
    ensures kept == id ==> AbsorbedInto(a + b, kept) == RemovedIds(a)
    ensures kept != id ==> AbsorbedInto(a + b, kept) == AbsorbedInto(b, kept)
  {
  }

  /** No record of a scan from `id` or of the rest of the pass keeps a claim
      marked removed. */
  lemma ScanKeepsSurvivors(id: string, later: seq<Claim>, removed: set<string>,
                           sRecords: seq<MergeRecord>, sGone: set<string>,
                           rRecords: seq<MergeRecord>, rGone: set<string>)
    requires id !in removed && id !in IdSet(later)
    requires sGone <= IdSet(later) && rGone <= IdSet(later)
    requires forall m :: m in sRecords ==> m.kept == id
    requires forall m :: m in rRecords ==> m.kept !in removed + sGone + rGone
    ensures forall m :: m in sRecords + rRecords ==> m.kept !in removed + (sGone + rGone)
  {
  }

  /** In a duplicate-free list, the id at `i` does not occur after `i`. */
  lemma HeadOfSuffixFresh(cl: seq<Claim>, i: nat)
    requires i < |cl| && DistinctIds(cl)
    ensures cl[i].id !in IdSet(cl[i + 1..])
    ensures DistinctIds(cl[i + 1..])
  {
    DistinctIdsSplit(cl, i + 1);
    assert cl[i] in cl[..i + 1];
    assert cl[i..][1..] == cl[i + 1..];
    HeadIdNotInTail(cl[i..]);
  }

  /** The claim kept at index `i` by one inner scan absorbs exactly what the
      scan marked removed, read against the whole list. */
  lemma ScanKeptAbsorbs(cl: seq<Claim>, i: nat, removed: set<string>, threshold: real)
    requires i < |cl| && DistinctIds(cl)
    ensures var s := MergeInto(cl[i], cl[i + 1..], removed, threshold);
      AbsorbedExactly(s.kept, cl[i], cl, s.newlyRemoved)
  {
    var s := MergeInto(cl[i], cl[i + 1..], removed, threshold);
    HeadOfSuffixFresh(cl, i);
    MergeIntoAbsorbs(cl[i], cl[i + 1..], removed, threshold);
    AbsorbedExactlyWiden(s.kept, cl[i], cl, i + 1, s.newlyRemoved);
  }

  /** Rewriting entry `i` (same id, not absorbed) does not change what a
      later entry absorbs. */
  lemma LaterEntryTransfer(cl: seq<Claim>, i: nat, k: nat, kept: Claim, x: Claim, ids: set<string>, pool: set<string>)
    requires i < k < |cl| && kept.id == cl[i].id
    requires ids <= pool && pool <= IdSet(cl[i + 1..]) && cl[i].id !in IdSet(cl[i + 1..])
    requires AbsorbedExactly(x, cl[i := kept][k], cl[i := kept], ids)
    ensures AbsorbedExactly(x, cl[k], cl, ids)
  {
    var cl' := cl[i := kept];
    assert cl'[k] == cl[k];
    assert cl[i].id !in ids;
    AbsorbedExactlyTransfer(x, cl[k], cl', cl, ids);
  }

  /** `MergeDuplicateClaimsOperator.apply` on a state with distinct claim
      ids. The claim count drops by exactly the number of records appended
      to `'merges'`. Each record keeps a surviving claim and removes one that
      was present and is gone. Every surviving claim is its original having
      absorbed exactly the claims the new records name as merged into it:
      its evidence set is the union of theirs and its confidence the largest
      of theirs. */
  lemma MergeContents(s: KnowledgeState, threshold: real)
    requires DistinctIds(s.claims)
    ensures var r := Merge(s, threshold).state;
      var added := Appended(MergeLog(s.metadata), MergeLog(r.metadata));
      && DistinctIds(r.claims)
      && |r.claims| == |s.claims| - |added|
      && (forall m :: m in added ==>
            m.kept in IdSet(r.claims) && m.removed in IdSet(s.claims) && m.removed !in IdSet(r.claims))
      && (forall c :: c in r.claims ==>
            c.id in IdSet(s.claims)
            && AbsorbedExactly(c, Find(s.claims, c.id), s.claims, AbsorbedInto(added, c.id)))
  {
    var p := MergeFrom(s.claims, 0, {}, threshold);
    var gone := p.newlyRemoved;
    var r := Merge(s, threshold).state;
    assert r.claims == Filter(p.claims, Outside(gone));
    assert Appended(MergeLog(s.metadata), MergeLog(r.metadata)) == p.records;
    assert s.claims[0..] == s.claims;
    SameIds(s.claims, p.claims);
    MergeFromAbsorbs(s.claims, 0, {}, threshold);
    DistinctIdsFilter(p.claims, Outside(gone));
    FilterOutCount(p.claims, gone);
    assert gone * IdSet(p.claims) == gone;
    forall m | m in p.records
      ensures m.kept in IdSet(r.claims) && m.removed in IdSet(s.claims) && m.removed !in IdSet(r.claims)
    {
      var c :| c in p.claims && c.id == m.kept;
      assert c in r.claims;
    }
    forall c | c in r.claims
      ensures c.id in IdSet(s.claims)
      ensures AbsorbedExactly(c, Find(s.claims, c.id), s.claims, AbsorbedInto(p.records, c.id))
    {
      assert c in p.claims;
      var k :| 0 <= k < |p.claims| && p.claims[k] == c;
      assert Ids(p.claims)[k] == Ids(s.claims)[k];
      assert s.claims[k] in s.claims;
      FindDistinct(s.claims, k);
    }
  }

  /** Two claims whose evidence sets are disjoint never merge at a positive
      threshold. */
  lemma TryMergeDisjoint(c1: Claim, c2: Claim, threshold: real)
    requires threshold > 0.0 && Elems(c1.evidence) !! Elems(c2.evidence)
    ensures TryMerge(c1, c2, threshold).None?
  {
  }

  /** A claim similar enough to none of the later ones absorbs nothing. */
  lemma {:induction false} MergeIntoNone(c1: Claim, later: seq<Claim>, removed: set<string>, threshold: real)
    requires forall j :: 0 <= j < |later| ==> TryMerge(c1, later[j], threshold).None?
    ensures MergeInto(c1, later, removed, threshold) == Scan(c1, {}, [])
    decreases |later|
  {
    if |later| > 0 {
      assert TryMerge(c1, later[0], threshold).None?;
      MergeIntoNone(c1, later[1..], removed, threshold);
    }
  }

  /** A claim that absorbs nothing leaves the outer loop to the next one. */
  lemma MergeFromSkip(cl: seq<Claim>, i: nat, removed: set<string>, threshold: real)
    requires i < |cl|
    requires cl[i].id !in removed ==> MergeInto(cl[i], cl[i + 1..], removed, threshold) == Scan(cl[i], {}, [])
    ensures MergeFrom(cl, i, removed, threshold) == MergeFrom(cl, i + 1, removed, threshold)
  {
    if cl[i].id !in removed {
      var s := MergeInto(cl[i], cl[i + 1..], removed, threshold);
      assert cl[i := s.kept] == cl && removed + s.newlyRemoved == removed;
      var r := MergeFrom(cl[i := s.kept], i + 1, removed + s.newlyRemoved, threshold);
      assert r == MergeFrom(cl, i + 1, removed, threshold);
      assert s.newlyRemoved + r.newlyRemoved == r.newlyRemoved && s.records + r.records == r.records;
    }
  }

  /** The outer loop over claims no two of which are similar enough leaves
      the list as it is and records nothing. */
  lemma {:induction false} MergeFromNone(cl: seq<Claim>, i: nat, removed: set<string>, threshold: real)
    requires i <= |cl|
    requires forall j, k :: i <= j < k < |cl| ==> TryMerge(cl[j], cl[k], threshold).None?
    ensures MergeFrom(cl, i, removed, threshold) == Pass(cl, {}, [])
    decreases |cl| - i
  {
    if i < |cl| {
      var later := cl[i + 1..];
      forall j | 0 <= j < |later| ensures TryMerge(cl[i], later[j], threshold).None? {
        assert later[j] == cl[i + 1 + j];
      }
      MergeIntoNone(cl[i], later, removed, threshold);
      MergeFromSkip(cl, i, removed, threshold);
      MergeFromNone(cl, i + 1, removed, threshold);
    }
  }

  /** When no pair of claims reaches the threshold, the merge pass reports
      no modification and returns the state it was given. */
  lemma MergeNone(s: KnowledgeState, threshold: real)
    requires forall j, k :: 0 <= j < k < |s.claims| ==> TryMerge(s.claims[j], s.claims[k], threshold).None?
    ensures Merge(s, threshold) == Outcome(s, false)
  {
    MergeFromNone(s.claims, 0, {}, threshold);
  }

  /** A claim that absorbs the first of the later claims and then none of
      the rest ends the scan grown by that one claim, with one record. */
  lemma AbsorbOnly(c1: Claim, later: seq<Claim>, removed: set<string>, threshold: real, a: Absorption)
    requires |later| > 0 && later[0].id !in removed && TryMerge(c1, later[0], threshold) == Some(a)
    requires forall j :: 1 <= j < |later| ==> TryMerge(a.kept, later[j], threshold).None?
    ensures MergeInto(c1, later, removed, threshold) ==
      Scan(a.kept, {later[0].id}, [MergeRecord(c1.id, later[0].id, a.similarity)])
  {
    var rest := later[1..];
    forall j | 0 <= j < |rest| ensures TryMerge(a.kept, rest[j], threshold).None? {
      assert rest[j] == later[j + 1];
    }
    MergeIntoNone(a.kept, rest, removed + {later[0].id}, threshold);
  }

  /** The outer loop when the first claim absorbs the second and no other
      pair merges: the first claim is replaced, the second is marked
      removed, and one record is logged. */
  lemma MergeFromFirst(cl: seq<Claim>, threshold: real, a: Absorption)
    requires |cl| >= 2 && TryMerge(cl[0], cl[1], threshold) == Some(a)
    requires forall j :: 2 <= j < |cl| ==> TryMerge(a.kept, cl[j], threshold).None?
    requires forall j, k :: 2 <= j < k < |cl| ==> TryMerge(cl[j], cl[k], threshold).None?
    ensures MergeFrom(cl, 0, {}, threshold) ==
      Pass(cl[0 := a.kept], {cl[1].id}, [MergeRecord(cl[0].id, cl[1].id, a.similarity)])
  {
    var later := cl[1..];
    forall j | 1 <= j < |later| ensures TryMerge(a.kept, later[j], threshold).None? {
      assert later[j] == cl[j + 1];
    }
    AbsorbOnly(cl[0], later, {}, threshold, a);
    var cl' := cl[0 := a.kept];
    assert forall j, k :: 2 <= j < k < |cl'| ==> TryMerge(cl'[j], cl'[k], threshold).None? by {
      assert forall j :: 2 <= j < |cl'| ==> cl'[j] == cl[j];
    }
    var none: set<string> := {};
    assert none + {cl[1].id} == {cl[1].id};
    MergeFromNone(cl', 2, {cl[1].id}, threshold);
    assert MergeFrom(cl', 1, {cl[1].id}, threshold) == Pass(cl', {}, []);
  }

  /** When the first claim absorbs the second and no other pair reaches
      the threshold, the merge pass drops exactly the second claim and its
      relationship key, keeps the grown first claim in place, and appends
      one record to the `'merges'` log. */
  lemma MergeFirstOnly(s: KnowledgeState, threshold: real, a: Absorption)
    requires |s.claims| >= 2 && TryMerge(s.claims[0], s.claims[1], threshold) == Some(a)
    requires forall j :: 2 <= j < |s.claims| ==> TryMerge(a.kept, s.claims[j], threshold).None?
    requires forall j, k :: 2 <= j < k < |s.claims| ==> TryMerge(s.claims[j], s.claims[k], threshold).None?
    ensures var gone := s.claims[1].id;
      Merge(s, threshold) ==
      Outcome(KnowledgeState(Survivors(s.claims[0 := a.kept], {gone}),
                             s.relationships - {gone},
                             s.metadata.(merges := Some(MergeLog(s.metadata) + [MergeRecord(s.claims[0].id, gone, a.similarity)]))),
              true)
  {
    MergeFromFirst(s.claims, threshold, a);
  }

  // ---------------------------------------------------------------------
  // What the merge pass does not miss
  // ---------------------------------------------------------------------

  /** One iteration of the inner loop, written in loop order: the scan so
      far meets the next later claim. A claim already marked removed, before
      this scan or by it, is skipped; otherwise it merges into the claim as
      grown so far exactly when `TryMerge` allows, and the record carries
      the similarity of that comparison. */
  function ScanStep(acc: Scan, c2: Claim, removed: set<string>, threshold: real): Scan {
    if c2.id in removed || c2.id in acc.newlyRemoved then acc
    else match TryMerge(acc.kept, c2, threshold)
      case None => acc
      case Some(a) =>
        Scan(a.kept, acc.newlyRemoved + {c2.id},
             acc.records + [MergeRecord(acc.kept.id, c2.id, a.similarity)])
  }

  /** A loop step after a first merge is the loop step that treats the
      first removed id as removed beforehand. */
  lemma ScanStepShift(m: MergeRecord, q: Scan, c2: Claim, removed: set<string>, threshold: real)
    ensures var s := ScanStep(q, c2, removed + {m.removed}, threshold);
      ScanStep(Scan(q.kept, {m.removed} + q.newlyRemoved, [m] + q.records), c2, removed, threshold)
      == Scan(s.kept, {m.removed} + s.newlyRemoved, [m] + s.records)
  {
    var p := Scan(q.kept, {m.removed} + q.newlyRemoved, [m] + q.records);
    assert (c2.id in removed || c2.id in p.newlyRemoved) <==>
           (c2.id in removed + {m.removed} || c2.id in q.newlyRemoved);
    match TryMerge(q.kept, c2, threshold)
    case None =>
    case Some(a) =>
      var rec := MergeRecord(q.kept.id, c2.id, a.similarity);
      assert p.records + [rec] == [m] + (q.records + [rec]);
      assert p.newlyRemoved + {c2.id} == {m.removed} + (q.newlyRemoved + {c2.id});
  }

  /** The scan when its first later claim is skipped or does not merge. */
  lemma MergeIntoPass(c1: Claim, later: seq<Claim>, removed: set<string>, threshold: real)
    requires |later| > 0
    requires later[0].id in removed || TryMerge(c1, later[0], threshold).None?
    ensures MergeInto(c1, later, removed, threshold) == MergeInto(c1, later[1..], removed, threshold)
  {
  }

  /** The scan when its first later claim merges. */
  lemma MergeIntoTake(c1: Claim, later: seq<Claim>, removed: set<string>, threshold: real, a: Absorption)
    requires |later| > 0 && later[0].id !in removed && TryMerge(c1, later[0], threshold) == Some(a)
    ensures var r := MergeInto(a.kept, later[1..], removed + {later[0].id}, threshold);
      MergeInto(c1, later, removed, threshold) ==
      Scan(r.kept, {later[0].id} + r.newlyRemoved, [MergeRecord(c1.id, later[0].id, a.similarity)] + r.records)
  {
  }

  /** The inner loop over `later` is the inner loop over all but the last
      later claim followed by one more iteration: the recursive definition
      agrees with the loop run front to back. */
  lemma {:induction false} MergeIntoLast(c1: Claim, later: seq<Claim>, removed: set<string>, threshold: real)
    requires |later| > 0
    ensures MergeInto(c1, later, removed, threshold) ==
      ScanStep(MergeInto(c1, later[..|later| - 1], removed, threshold), later[|later| - 1], removed, threshold)
    decreases |later|
  {
    var n := |later|;
    var c2 := later[0];
    var p := later[..n - 1];
    var rest := later[1..];
    if n == 1 {
      assert p == [] && rest == [];
      if c2.id in removed || TryMerge(c1, c2, threshold).None? {
        MergeIntoPass(c1, later, removed, threshold);
      } else {
        var a := TryMerge(c1, c2, threshold).value;
        MergeIntoTake(c1, later, removed, threshold, a);
        var none: set<string> := {};
        var rec := MergeRecord(c1.id, c2.id, a.similarity);
        assert {c2.id} + none == none + {c2.id} && [rec] + [] == [] + [rec];
      }
    } else {
      assert p[0] == c2 && p[1..] == rest[..|rest| - 1] && rest[|rest| - 1] == later[n - 1];
      if c2.id in removed || TryMerge(c1, c2, threshold).None? {
        MergeIntoPass(c1, later, removed, threshold);
        MergeIntoPass(c1, p, removed, threshold);
        MergeIntoLast(c1, rest, removed, threshold);
      } else {
        var a := TryMerge(c1, c2, threshold).value;
        MergeIntoTake(c1, later, removed, threshold, a);
        MergeIntoTake(c1, p, removed, threshold, a);
        MergeIntoLast(a.kept, rest, removed + {c2.id}, threshold);
        ScanStepShift(MergeRecord(c1.id, c2.id, a.similarity),
                      MergeInto(a.kept, rest[..|rest| - 1], removed + {c2.id}, threshold),
                      later[n - 1], removed, threshold);
      }
    }
  }

  /** A loop iteration only adds to the removed ids and the records. */
  lemma ScanStepGrows(acc: Scan, c2: Claim, removed: set<string>, threshold: real)
    ensures acc.newlyRemoved <= ScanStep(acc, c2, removed, threshold).newlyRemoved
    ensures acc.records <= ScanStep(acc, c2, removed, threshold).records
  {
  }

  /** A scan over a prefix of `later` removed a subset of what the whole
      scan removes and logged a prefix of its records. */
  lemma {:induction false} MergeIntoGrows(c1: Claim, later: seq<Claim>, removed: set<string>, threshold: real, j: nat)
    requires j <= |later|
    ensures MergeInto(c1, later[..j], removed, threshold).newlyRemoved <=
            MergeInto(c1, later, removed, threshold).newlyRemoved
    ensures MergeInto(c1, later[..j], removed, threshold).records <=
            MergeInto(c1, later, removed, threshold).records
    decreases |later| - j
  {
    if j == |later| {
      assert later[..j] == later;
    } else {
      MergeIntoGrows(c1, later, removed, threshold, j + 1);
      var q := later[..j + 1];
      assert q[..|q| - 1] == later[..j] && q[|q| - 1] == later[j];
      MergeIntoLast(c1, q, removed, threshold);
      var before := MergeInto(c1, later[..j], removed, threshold);
      ScanStepGrows(before, later[j], removed, threshold);
      var mid := MergeInto(c1, q, removed, threshold);
      var all := MergeInto(c1, later, removed, threshold);
      assert before.records <= mid.records <= all.records;
    }
  }

  /** Every later claim the scan neither skipped nor absorbed fell below
      the threshold against the claim as grown up to that point. */
  lemma MergeIntoMisses(c1: Claim, later: seq<Claim>, removed: set<string>, threshold: real, j: nat)
    requires j < |later| && later[j].id !in removed
    requires later[j].id !in MergeInto(c1, later, removed, threshold).newlyRemoved
    ensures TryMerge(MergeInto(c1, later[..j], removed, threshold).kept, later[j], threshold).None?
  {
    var q := later[..j + 1];
    assert q[..|q| - 1] == later[..j] && q[|q| - 1] == later[j];
    MergeIntoLast(c1, q, removed, threshold);
    MergeIntoGrows(c1, later, removed, threshold, j);
    MergeIntoGrows(c1, later, removed, threshold, j + 1);
  }

  /** Every later claim not removed before it is reached and similar enough
      to the claim as grown up to that point is absorbed, and its record,
      carrying exactly that similarity, is in the scan's log. */
  lemma MergeIntoHits(c1: Claim, later: seq<Claim>, removed: set<string>, threshold: real, j: nat, a: Absorption)
    requires j < |later| && later[j].id !in removed
    requires later[j].id !in MergeInto(c1, later[..j], removed, threshold).newlyRemoved
    requires TryMerge(MergeInto(c1, later[..j], removed, threshold).kept, later[j], threshold) == Some(a)
    ensures later[j].id in MergeInto(c1, later, removed, threshold).newlyRemoved
    ensures MergeRecord(c1.id, later[j].id, a.similarity) in MergeInto(c1, later, removed, threshold).records
  {
    var q := later[..j + 1];
    assert q[..|q| - 1] == later[..j] && q[|q| - 1] == later[j];
    MergeIntoLast(c1, q, removed, threshold);
    MergeIntoGrows(c1, later, removed, threshold, j + 1);
    var before := MergeInto(c1, later[..j], removed, threshold);
    var mid := MergeInto(c1, q, removed, threshold);
    var all := MergeInto(c1, later, removed, threshold);
    var rec := MergeRecord(c1.id, later[j].id, a.similarity);
    assert before.kept.id == c1.id;
    assert mid == Scan(a.kept, before.newlyRemoved + {later[j].id}, before.records + [rec]);
    PrefixLast(mid.records, all.records);
  }

  /** A claim that some later claim not yet removed would merge with
      absorbs at least one claim. */
  lemma {:induction false} MergeIntoFinds(c1: Claim, later: seq<Claim>, removed: set<string>, threshold: real, k: nat)
    requires k < |later| && later[k].id !in removed && TryMerge(c1, later[k], threshold).Some?
    ensures |MergeInto(c1, later, removed, threshold).records| > 0
    decreases |later|
  {
    if later[0].id in removed || TryMerge(c1, later[0], threshold).None? {
      assert k != 0;
      var rest := later[1..];
      assert rest[k - 1] == later[k];
      MergeIntoPass(c1, later, removed, threshold);
      MergeIntoFinds(c1, later[1..], removed, threshold, k - 1);
    } else {
      MergeIntoTake(c1, later, removed, threshold, TryMerge(c1, later[0], threshold).value);
    }
  }

  /** If two claims from index `i` on, neither marked removed, reach the
      threshold, the outer loop logs at least one merge. */
  lemma {:induction false} MergeFromFinds(cl: seq<Claim>, i: nat, removed: set<string>, threshold: real, j: nat, k: nat)
    requires i <= j < k < |cl| && cl[j].id !in removed && cl[k].id !in removed
    requires TryMerge(cl[j], cl[k], threshold).Some?
    ensures |MergeFrom(cl, i, removed, threshold).records| > 0
    decreases |cl| - i
  {
    if cl[i].id in removed {
      MergeFromFinds(cl, i + 1, removed, threshold, j, k);
    } else if j == i {
      assert cl[i + 1..][k - i - 1] == cl[k];
      MergeIntoFinds(cl[i], cl[i + 1..], removed, threshold, k - i - 1);
    } else {
      var s := MergeInto(cl[i], cl[i + 1..], removed, threshold);
      if |s.records| == 0 {
        MergeFromSkip(cl, i, removed, threshold);
        MergeFromFinds(cl, i + 1, removed, threshold, j, k);
      }
    }
  }

  /** The merge pass reports a modification exactly when some pair of
      claims, the earlier one first, reaches the threshold. */
  lemma MergeModifiedIff(s: KnowledgeState, threshold: real)
    ensures Merge(s, threshold).modified <==>
      exists j, k :: 0 <= j < k < |s.claims| && TryMerge(s.claims[j], s.claims[k], threshold).Some?
  {
    var cl := s.claims;
    if exists j, k :: 0 <= j < k < |cl| && TryMerge(cl[j], cl[k], threshold).Some? {
      var j, k :| 0 <= j < k < |cl| && TryMerge(cl[j], cl[k], threshold).Some?;
      MergeFromFinds(cl, 0, {}, threshold, j, k);
      MergeModifiedRecords(s, threshold);
    } else {
      MergeNone(s, threshold);
    }
  }

  /** The merge pass reports a modification exactly when its outer loop
      logged a record. */
  lemma MergeModifiedRecords(s: KnowledgeState, threshold: real)
    ensures Merge(s, threshold).modified <==> |MergeFrom(s.claims, 0, {}, threshold).records| > 0
  {
  }

  // =====================================================================
  // RemoveWeakClaims
  // =====================================================================

  /** The claims `RemoveWeakClaimsOperator` keeps. */
  function AtLeast(minConfidence: real): Claim -> bool {
    (c: Claim) => c.confidence >= minConfidence
  }

  /** The claims it removes. */
  function Below(minConfidence: real): Claim -> bool {
    (c: Claim) => c.confidence < minConfidence
  }

  /** The claim loop of `RemoveWeakClaimsOperator.apply`: one pass that
      keeps the claims at or above the threshold and lists the ids of the
      others, both in claim order. */
  function Partition(cs: seq<Claim>, minConfidence: real): (r: (seq<Claim>, seq<string>))
    ensures r.0 == Filter(cs, AtLeast(minConfidence))
    ensures r.1 == Ids(Filter(cs, Below(minConfidence)))
    decreases |cs|
  {
    if |cs| == 0 then ([], [])
    else
      var rest := Partition(cs[1..], minConfidence);
      if cs[0].confidence >= minConfidence then
        assert AtLeast(minConfidence)(cs[0]) && !Below(minConfidence)(cs[0]);
        ([cs[0]] + rest.0, rest.1)
      else
        assert !AtLeast(minConfidence)(cs[0]) && Below(minConfidence)(cs[0]);
        IdsCons(cs[0], Filter(cs[1..], Below(minConfidence)));
        (rest.0, [cs[0].id] + rest.1)
  }

  /** `RemoveWeakClaimsOperator.apply(state)` with
      `min_confidence = minConfidence`. Exactly the claims with confidence
      at least the threshold survive, in order; the relationship entries of
      the others are deleted; their ids are appended to `'weak_removals'`
      only when something was removed. */
  function RemoveWeak(s: KnowledgeState, minConfidence: real): (r: Outcome)
    ensures r.state.claims == Filter(s.claims, AtLeast(minConfidence))
    ensures r.modified <==> exists i :: 0 <= i < |s.claims| && s.claims[i].confidence < minConfidence
    ensures r.modified <==> |r.state.claims| < |s.claims|
    ensures var gone := Ids(Filter(s.claims, Below(minConfidence)));
      && r.state.relationships == s.relationships - Elems(gone)
      && r.state.metadata == (if r.modified
                              then s.metadata.(weakRemovals := Some(WeakLog(s.metadata) + gone))
                              else s.metadata)
    ensures !r.modified ==> r.state == s
  {
    var (kept, gone) := Partition(s.claims, minConfidence);
    var modified := |gone| > 0;
    var metadata :=
      if modified then s.metadata.(weakRemovals := Some(WeakLog(s.metadata) + gone))
      else s.metadata;
    SomeWeak(s.claims, minConfidence);
    assert !modified ==> s.relationships - Elems(gone) == s.relationships by {
      ElemsEmpty(gone);
    }
    Outcome(KnowledgeState(kept, s.relationships - Elems(gone), metadata), modified)
  }

  /** Some claim is below the threshold exactly when the removed list is
      non-empty, exactly when the kept list is shorter; with none below,
      every claim is kept and none removed. */
  lemma SomeWeak(cs: seq<Claim>, minConfidence: real)
    ensures var weak := exists i :: 0 <= i < |cs| && cs[i].confidence < minConfidence;
      && (|Ids(Filter(cs, Below(minConfidence)))| > 0 <==> weak)
      && (|Filter(cs, AtLeast(minConfidence))| < |cs| <==> weak)
      && (!weak ==> Filter(cs, AtLeast(minConfidence)) == cs)
  {
    FilterShorter(cs, AtLeast(minConfidence));
    var below := Filter(cs, Below(minConfidence));
    if |below| > 0 {
      assert below[0] in below;
      var i :| 0 <= i < |cs| && cs[i] == below[0];
    }
    if exists i :: 0 <= i < |cs| && cs[i].confidence < minConfidence {
      var i :| 0 <= i < |cs| && cs[i].confidence < minConfidence;
      assert cs[i] in below;
    } else {
      FilterAll(cs, AtLeast(minConfidence));
    }
  }

  /** The weak-claim removal passes the shared invariant check only when it
      removed nothing or `'merges'` was already present in its input: it
      never writes that key itself. */
  lemma RemoveWeakGate(s: KnowledgeState, minConfidence: real)
    ensures var r := RemoveWeak(s, minConfidence);
      VerifyInvariants(s, r.state) <==> !r.modified || s.metadata.merges.Some?
  {
  }
}
