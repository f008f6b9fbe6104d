/** The data model: a claim, the knowledge state that holds claims,
    relationships and an audit side-channel, and the state's dictionary form
    (`to_dict`). */
module Knowledge {
  import opened Common

  /** One extracted claim. Python hashes a claim by its id alone. */
  datatype Claim = Claim(
    id: string,
    text: string,
    evidence: seq<string>,
    section: string,
    confidence: real)

  /** One entry of the `'merges'` audit list. */
  datatype MergeRecord = MergeRecord(kept: string, removed: string, similarity: real)

  /** The metadata dictionary. The two audit keys the operators write are
      explicit: `None` means the key is absent. Every other key is carried
      in `other` and never inspected. */
  datatype Metadata = Metadata(
    merges: Option<seq<MergeRecord>>,
    weakRemovals: Option<seq<string>>,
    other: map<string, string>)

  /** Claims in dictionary (insertion) order, the relationship adjacency
      lists keyed by claim id, and the metadata. */
  datatype KnowledgeState = KnowledgeState(
    claims: seq<Claim>,
    relationships: map<string, seq<string>>,
    metadata: Metadata)

  const MergesKey := "merges"
  const WeakRemovalsKey := "weak_removals"

  /** The ids of `claims`, in order (Python's `list(state.claims)`). */
  function Ids(claims: seq<Claim>): (r: seq<string>)
    ensures |r| == |claims|
    ensures forall i :: 0 <= i < |claims| ==> r[i] == claims[i].id
  {
    seq(|claims|, i requires 0 <= i < |claims| => claims[i].id)
  }

  lemma IdsCons(c: Claim, cs: seq<Claim>)
    ensures Ids([c] + cs) == [c.id] + Ids(cs)
  {
  }

  function IdSet(claims: seq<Claim>): set<string> {
    set c | c in claims :: c.id
  }

  lemma IdSetCons(claims: seq<Claim>)
    requires |claims| > 0
    ensures IdSet(claims) == {claims[0].id} + IdSet(claims[1..])
  {
    assert claims == [claims[0]] + claims[1..];
  }

  /** A Python dict cannot hold a key twice: claim ids are distinct. */
  predicate DistinctIds(claims: seq<Claim>) {
    forall i, j :: 0 <= i < j < |claims| ==> claims[i].id != claims[j].id
  }

  lemma IdSetIsElemsOfIds(claims: seq<Claim>)
    ensures IdSet(claims) == Elems(Ids(claims))
  {
    forall x | x in Elems(Ids(claims)) ensures x in IdSet(claims) {
      var i :| 0 <= i < |claims| && Ids(claims)[i] == x;
      assert claims[i] in claims;
    }
  }

  /** Lists with the same id sequence have the same id set and are
      duplicate-free together. */
  lemma SameIds(a: seq<Claim>, b: seq<Claim>)
    requires Ids(a) == Ids(b)
    ensures IdSet(a) == IdSet(b)
    ensures DistinctIds(a) <==> DistinctIds(b)
  {
    IdSetIsElemsOfIds(a);
    IdSetIsElemsOfIds(b);
    assert forall i :: 0 <= i < |a| ==> a[i].id == Ids(a)[i] == b[i].id;
  }

  /** In a duplicate-free list a prefix and the rest share no id. */
  lemma DistinctIdsSplit(claims: seq<Claim>, i: nat)
    requires DistinctIds(claims) && i <= |claims|
    ensures IdSet(claims[..i]) !! IdSet(claims[i..])
  {
    forall c, d | c in claims[..i] && d in claims[i..] ensures c.id != d.id {
      var j :| 0 <= j < i && claims[..i][j] == c;
      var k :| 0 <= k < |claims| - i && claims[i..][k] == d;
      assert claims[j] == c && claims[i + k] == d;
    }
  }

  /** The head's id occurs nowhere in the tail of a duplicate-free list. */
  lemma HeadIdNotInTail(claims: seq<Claim>)
    requires DistinctIds(claims) && |claims| > 0
    ensures IdSet(claims) == {claims[0].id} + IdSet(claims[1..])
    ensures claims[0].id !in IdSet(claims[1..])
    ensures DistinctIds(claims[1..])
  {
    DistinctIdsSplit(claims, 1);
    assert claims[..1] == [claims[0]];
    assert claims == [claims[0]] + claims[1..];
  }

  /** Filtering keeps ids distinct. */
  lemma {:induction false} DistinctIdsFilter(claims: seq<Claim>, p: Claim -> bool)
    requires DistinctIds(claims)
    ensures DistinctIds(Filter(claims, p))
    decreases |claims|
  {
    if |claims| > 0 {
      DistinctIdsFilter(claims[1..], p);
      HeadIdNotInTail(claims);
      var rest := Filter(claims[1..], p);
      forall c | c in rest ensures c.id != claims[0].id {
        assert c in claims[1..];
      }
    }
  }

  /** The filter that drops the claims whose ids lie in `gone`. */
  function Outside(gone: set<string>): Claim -> bool {
    (c: Claim) => c.id !in gone
  }

  /** The same test on bare ids. */
  function IdOutside(gone: set<string>): string -> bool {
    (id: string) => id !in gone
  }

  /** Dropping the claims whose ids lie in `gone` shortens a duplicate-free
      list by the number of those ids it holds. */
  lemma {:induction false} FilterOutCount(claims: seq<Claim>, gone: set<string>)
    requires DistinctIds(claims)
    ensures |Filter(claims, Outside(gone))| == |claims| - |gone * IdSet(claims)|
    decreases |claims|
  {
    if |claims| > 0 {
      var h := claims[0];
      var tail := claims[1..];
      FilterOutCount(tail, gone);
      HeadIdNotInTail(claims);
      var inGone := gone * IdSet(tail);
      IdSetCons(claims);
      IntersectCons(gone, h.id, IdSet(tail));
      if h.id in gone {
        assert !Outside(gone)(h);
        DisjointUnionCard({h.id}, inGone);
      } else {
        assert Outside(gone)(h);
      }
    }
  }

  /** The explicit audit fields are the only carriers of the audit keys. */
  predicate ValidMetadata(m: Metadata) {
    MergesKey !in m.other && WeakRemovalsKey !in m.other
  }

  predicate Valid(s: KnowledgeState) {
    DistinctIds(s.claims) && ValidMetadata(s.metadata)
  }

  /** The `'merges'` list, or the empty list when the key is absent. */
  function MergeLog(m: Metadata): seq<MergeRecord> {
    match m.merges
    case None => []
    case Some(l) => l
  }

  /** The `'weak_removals'` list, or the empty list when the key is absent. */
  function WeakLog(m: Metadata): seq<string> {
    match m.weakRemovals
    case None => []
    case Some(l) => l
  }

  /** `Claim.__hash__`, with Python's `hash` on strings as a parameter. */
  function ClaimHash(hashStr: string -> int, c: Claim): int {
    hashStr(c.id)
  }

  /** Claims with the same id hash equally, whatever their other fields. */
  lemma SameIdSameHash(hashStr: string -> int, c1: Claim, c2: Claim)
    requires c1.id == c2.id
    ensures ClaimHash(hashStr, c1) == ClaimHash(hashStr, c2)
  {
  }

  // ---------------------------------------------------------------------
  // Dictionary form
  // ---------------------------------------------------------------------

  /** A JSON-like Python value: the shape `to_dict` produces. */
  datatype Value =
    | Str(s: string)
    | Num(x: real)
    | Arr(items: seq<Value>)
    | Obj(fields: map<string, Value>)

  function StrList(xs: seq<string>): (r: Value)
    ensures r.Arr? && |r.items| == |xs|
    ensures forall i :: 0 <= i < |xs| ==> r.items[i] == Str(xs[i])
  {
    Arr(seq(|xs|, i requires 0 <= i < |xs| => Str(xs[i])))
  }

  /** Reads back a list of strings; `None` unless every item is a string. */
  function StrListFrom(v: Value): (r: Option<seq<string>>)
    ensures r.Some? ==> v.Arr? && |r.value| == |v.items|
  {
    if v.Arr? && forall i :: 0 <= i < |v.items| ==> v.items[i].Str? then
      Some(seq(|v.items|, i requires 0 <= i < |v.items| && v.items[i].Str? => v.items[i].s))
    else None
  }

  lemma StrListRoundTrip(xs: seq<string>)
    ensures StrListFrom(StrList(xs)) == Some(xs)
  {
    var v := StrList(xs);
    assert forall i :: 0 <= i < |v.items| ==> v.items[i].Str?;
    assert StrListFrom(v).Some?;
    var r := StrListFrom(v).value;
    assert |r| == |xs|;
    assert forall i :: 0 <= i < |xs| ==> r[i] == xs[i];
    assert r == xs;
  }

  /** `asdict(claim)`: the five fields by name. */
  function ClaimFields(c: Claim): map<string, Value> {
    map["id" := Str(c.id), "text" := Str(c.text), "evidence" := StrList(c.evidence),
        "section" := Str(c.section), "confidence" := Num(c.confidence)]
  }

  /** Rebuilds a claim from its field map. */
  function ClaimFrom(f: map<string, Value>): Option<Claim> {
    if && "id" in f && f["id"].Str?
       && "text" in f && f["text"].Str?
       && "evidence" in f && StrListFrom(f["evidence"]).Some?
       && "section" in f && f["section"].Str?
       && "confidence" in f && f["confidence"].Num?
    then Some(Claim(f["id"].s, f["text"].s, StrListFrom(f["evidence"]).value,
                    f["section"].s, f["confidence"].x))
    else None
  }

  /** The first claim with the given id. */
  function Find(claims: seq<Claim>, id: string): (c: Claim)
    requires id in IdSet(claims)
    ensures c in claims && c.id == id
  {
    if claims[0].id == id then claims[0]
    else
      assert id in IdSet(claims[1..]) by {
        var c :| c in claims && c.id == id;
        var k :| 0 <= k < |claims| && claims[k] == c;
        assert claims[1..][k - 1] == c;
      }
      Find(claims[1..], id)
  }

  function ClaimsValue(claims: seq<Claim>): map<string, Value> {
    map id | id in IdSet(claims) :: Obj(ClaimFields(Find(claims, id)))
  }

  function RelationshipsValue(rel: map<string, seq<string>>): map<string, Value> {
    map k | k in rel :: StrList(rel[k])
  }

  function RelationshipsFrom(f: map<string, Value>): Option<map<string, seq<string>>> {
    if forall k :: k in f ==> StrListFrom(f[k]).Some? then
      Some(map k | k in f :: StrListFrom(f[k]).value)
    else None
  }

  function MergeRecordValue(m: MergeRecord): Value {
    Obj(map["kept" := Str(m.kept), "removed" := Str(m.removed), "similarity" := Num(m.similarity)])
  }

  function MergeRecordFrom(v: Value): Option<MergeRecord> {
    if && v.Obj?
       && "kept" in v.fields && v.fields["kept"].Str?
       && "removed" in v.fields && v.fields["removed"].Str?
       && "similarity" in v.fields && v.fields["similarity"].Num?
    then Some(MergeRecord(v.fields["kept"].s, v.fields["removed"].s, v.fields["similarity"].x))
    else None
  }

  /** The metadata dictionary: `other`'s entries plus the audit keys that
      are present. */
  function MetadataValue(m: Metadata): map<string, Value> {
    var base := map k | k in m.other :: Str(m.other[k]);
    var withMerges :=
      match m.merges
      case None => base
      case Some(l) =>
        base[MergesKey := MergeListValue(l)];
    match m.weakRemovals
    case None => withMerges
    case Some(w) => withMerges[WeakRemovalsKey := StrList(w)]
  }

  function MergeListValue(l: seq<MergeRecord>): Value {
    Arr(seq(|l|, i requires 0 <= i < |l| => MergeRecordValue(l[i])))
  }

  function MergeListFrom(v: Value): Option<seq<MergeRecord>> {
    if v.Arr? && forall i :: 0 <= i < |v.items| ==> MergeRecordFrom(v.items[i]).Some? then
      Some(seq(|v.items|, i requires 0 <= i < |v.items| && MergeRecordFrom(v.items[i]).Some? =>
                            MergeRecordFrom(v.items[i]).value))
    else None
  }

  /** Reads the metadata dictionary back: the two audit keys go to their
      fields, every other string-valued key to `other`. */
  function MetadataFrom(f: map<string, Value>): Option<Metadata> {
    var merges := if MergesKey in f then MergeListFrom(f[MergesKey]) else None;
    var weak := if WeakRemovalsKey in f then StrListFrom(f[WeakRemovalsKey]) else None;
    var otherKeys := f.Keys - {MergesKey, WeakRemovalsKey};
    if (MergesKey in f ==> merges.Some?) && (WeakRemovalsKey in f ==> weak.Some?)
       && forall k :: k in otherKeys ==> f[k].Str?
    then Some(Metadata(merges, weak, map k | k in otherKeys :: f[k].s))
    else None
  }

  /** `KnowledgeState.to_dict`. */
  function ToDict(s: KnowledgeState): (d: map<string, Value>)
    ensures d.Keys == {"claims", "relationships", "metadata"}
    ensures d["claims"].Obj? && d["claims"].fields.Keys == IdSet(s.claims)
    ensures d["relationships"].Obj? && d["metadata"].Obj?
  {
    map["claims" := Obj(ClaimsValue(s.claims)),
        "relationships" := Obj(RelationshipsValue(s.relationships)),
        "metadata" := Obj(MetadataValue(s.metadata))]
  }

  /** Each claim's entry in `to_dict()['claims']` is its own field map, from
      which the claim can be rebuilt. */
  lemma ToDictClaims(s: KnowledgeState)
    requires DistinctIds(s.claims)
    ensures forall i :: 0 <= i < |s.claims| ==>
      ToDict(s)["claims"].fields[s.claims[i].id] == Obj(ClaimFields(s.claims[i]))
      && ClaimFrom(ToDict(s)["claims"].fields[s.claims[i].id].fields) == Some(s.claims[i])
  {
    forall i | 0 <= i < |s.claims|
      ensures Find(s.claims, s.claims[i].id) == s.claims[i]
      ensures ClaimFrom(ClaimFields(s.claims[i])) == Some(s.claims[i])
    {
      FindDistinct(s.claims, i);
      ClaimRoundTrip(s.claims[i]);
    }
  }

  /** With distinct ids, looking up a claim's id finds that very claim. */
  lemma FindDistinct(claims: seq<Claim>, i: nat)
    requires DistinctIds(claims) && i < |claims|
    ensures Find(claims, claims[i].id) == claims[i]
  {
    var c := Find(claims, claims[i].id);
    var k :| 0 <= k < |claims| && claims[k] == c;
    assert k == i;
  }

  /** A claim's field map reads back as the same claim. */
  lemma ClaimRoundTrip(c: Claim)
    ensures ClaimFrom(ClaimFields(c)) == Some(c)
  {
    StrListRoundTrip(c.evidence);
  }

  /** `to_dict()['relationships']` and `to_dict()['metadata']` carry the
      state's relationships and metadata unchanged: both read back exactly,
      and `'merges'` is a key of the metadata dictionary exactly when the
      merge log is present. */
  lemma ToDictPassThrough(s: KnowledgeState)
    requires ValidMetadata(s.metadata)
    ensures RelationshipsFrom(ToDict(s)["relationships"].fields) == Some(s.relationships)
    ensures MetadataFrom(ToDict(s)["metadata"].fields) == Some(s.metadata)
    ensures MergesKey in ToDict(s)["metadata"].fields <==> s.metadata.merges.Some?
    ensures WeakRemovalsKey in ToDict(s)["metadata"].fields <==> s.metadata.weakRemovals.Some?
  {
    RelationshipsRoundTrip(s.relationships);
    MetadataRoundTrip(s.metadata);
  }

  lemma RelationshipsRoundTrip(rel: map<string, seq<string>>)
    ensures RelationshipsFrom(RelationshipsValue(rel)) == Some(rel)
  {
    var rf := RelationshipsValue(rel);
    forall k | k in rf ensures StrListFrom(rf[k]) == Some(rel[k]) {
      StrListRoundTrip(rel[k]);
    }
    assert (map k | k in rf :: StrListFrom(rf[k]).value) == rel;
  }

  lemma MergeListRoundTrip(l: seq<MergeRecord>)
    ensures MergeListFrom(MergeListValue(l)) == Some(l)
  {
    var v := MergeListValue(l);
    assert forall i :: 0 <= i < |l| ==> v.items[i] == MergeRecordValue(l[i]);
    assert forall i :: 0 <= i < |l| ==> MergeRecordFrom(v.items[i]) == Some(l[i]);
    var r := MergeListFrom(v).value;
    assert |r| == |l|;
    assert forall i :: 0 <= i < |l| ==> r[i] == l[i];
    assert r == l;
  }

  lemma MetadataRoundTrip(m: Metadata)
    requires ValidMetadata(m)
    ensures MetadataFrom(MetadataValue(m)) == Some(m)
    ensures MergesKey in MetadataValue(m) <==> m.merges.Some?
    ensures WeakRemovalsKey in MetadataValue(m) <==> m.weakRemovals.Some?
  {
    var f := MetadataValue(m);
    if m.merges.Some? {
      MergeListRoundTrip(m.merges.value);
    }
    if m.weakRemovals.Some? {
      StrListRoundTrip(m.weakRemovals.value);
    }
    var otherKeys := f.Keys - {MergesKey, WeakRemovalsKey};
    assert otherKeys == m.other.Keys;
    assert (map k | k in otherKeys :: f[k].s) == m.other;
  }
}
