/**
 Evidence grounding of specialist analyses (app/agents/specialists.py): the catalogue of source
 keys offered to the model, mapping its indexes back to keys, and the final check.
 */
module Grounding {
  import opened Wrappers
  import opened Sequences
  import opened Ordering
  import opened KeyOrder
  import opened JsonPaths
  import opened JsonPathLaws

  datatype Evidence = Evidence(sourceKey: string, observation: string)

  /** An evidence item as the provider returns it; the index is absent when it is not an integer. */
  datatype IndexedEvidence = IndexedEvidence(sourceIndex: Option<int>, observation: string)

  datatype Reply = Indexed(items: seq<IndexedEvidence>) | Canonical(evidence: seq<Evidence>)

  datatype GroundingError =
    | EmptyCatalogue
    | NoIntegerIndex
    | IndexOutsideCatalogue
    | InvalidReference
    | Ungrounded(missing: seq<string>)

  // ---------------------------------------------------------------- the catalogue

  predicate OffersCatalogue(version: string) { version in {"v2", "v3", "v4", "v5", "v6"} }
  predicate UsesIndexes(version: string) { version in {"v3", "v4", "v5", "v6"} }
  predicate LeafOnly(version: string) { version in {"v4", "v5", "v6"} }

  function Payload(opportunity: Json, market: Json, context: Option<Json>): Json {
    Object(
      [Field("opportunity", opportunity), Field("market_context", market)]
      + if context.Some? then [Field("specialist_context", context.value)] else [])
  }

  lemma PayloadFields(opportunity: Json, market: Json, context: Option<Json>)
    ensures Payload(opportunity, market, context)
            == if context.Some?
               then Object([Field("opportunity", opportunity), Field("market_context", market),
                            Field("specialist_context", context.value)])
               else Object([Field("opportunity", opportunity), Field("market_context", market)])
  {
    if context.None? {
      var fields := [Field("opportunity", opportunity), Field("market_context", market)];
      assert fields + [] == fields;
    }
  }

  function Available(version: string, payload: Json): set<string> {
    if LeafOnly(version) then LeafPaths(payload, "") else AllPaths(payload, "", true)
  }

  lemma InsertText(p: string, s: seq<string>)
    requires Strict(s, TextLess) && p !in s
    ensures Strict(Insert(p, s, TextLess), TextLess)
    ensures forall x :: x in Insert(p, s, TextLess) <==> x == p || x in s
  {
    hide TextLess, TotallyOrders, Ordered, Strict, Insert;
    var t := Insert(p, s, TextLess);
    TextIsTotal();
    TotalIsOrder(TextLess);
    StrictIsOrdered(s, TextLess);
    InsertOrders(p, s, TextLess);
    InsertPermutes(p, s, TextLess);
    SameCounts([p] + s, t);
    StrictWithoutRepeats(t, TextLess);
    forall x ensures x in t <==> x == p || x in s {
      assert x in multiset(t) <==> x in multiset([p] + s);
    }
  }

  /** `tuple(sorted(paths))`. */
  method Listing(paths: set<string>) returns (s: seq<string>)
    ensures Strict(s, TextLess) && forall x :: x in s <==> x in paths
  {
    s := [];
    var rest := paths;
    while rest != {}
      invariant rest <= paths && Strict(s, TextLess) && forall x :: x in s <==> x in paths - rest
      decreases |rest|
    {
      var p :| p in rest;
      InsertText(p, s);
      s := Insert(p, s, TextLess);
      rest := rest - {p};
    }
  }

  /** Where all paths are offered there is always something to cite; leaves may be absent. */
  lemma CatalogueNeverEmpty(opportunity: Json, market: Json, context: Option<Json>, version: string)
    requires !LeafOnly(version)
    ensures "opportunity" in Available(version, Payload(opportunity, market, context))
  {
    var payload := Payload(opportunity, market, context);
    assert KeyAt(payload, 0) == "opportunity" && ChildAt(payload, 0) == opportunity;
    ChildPathIncluded(payload, Count(payload), "", true, 0);
  }

  // ---------------------------------------------------------------- indexes back to keys

  /** What `EvidenceReference` demands of its strings. */
  predicate ValidReference(e: Evidence) {
    1 <= |e.sourceKey| <= 300 && 1 <= |e.observation| <= 1000
  }

  predicate Canonicalises(item: IndexedEvidence, allowed: seq<string>) {
    && item.sourceIndex.Some? && 0 <= item.sourceIndex.value < |allowed|
    && 1 <= |allowed[item.sourceIndex.value]| <= 300 && 1 <= |item.observation| <= 1000
  }

  ghost predicate CanonicalForm(items: seq<IndexedEvidence>, allowed: seq<string>, evidence: seq<Evidence>) {
    && |evidence| == |items|
    && forall i | 0 <= i < |items| ::
         && Canonicalises(items[i], allowed)
         && evidence[i] == Evidence(allowed[items[i].sourceIndex.value], items[i].observation)
  }

  predicate InRange(item: IndexedEvidence, allowed: seq<string>) {
    item.sourceIndex.Some? && 0 <= item.sourceIndex.value < |allowed|
  }

  /** Indexes are checked item by item, references only after all of them. */
  ghost predicate RefusesItems(items: seq<IndexedEvidence>, allowed: seq<string>, e: GroundingError) {
    match e
    case NoIntegerIndex =>
      exists i | 0 <= i < |items| :: items[i].sourceIndex.None? && forall j | 0 <= j < i :: InRange(items[j], allowed)
    case IndexOutsideCatalogue =>
      exists i | 0 <= i < |items| ::
        && items[i].sourceIndex.Some? && !(0 <= items[i].sourceIndex.value < |allowed|)
        && forall j | 0 <= j < i :: InRange(items[j], allowed)
    case InvalidReference =>
      (forall i | 0 <= i < |items| :: InRange(items[i], allowed)) && exists item | item in items :: !Canonicalises(item, allowed)
    case _ => false
  }

  /** `_canonicalize_indexed_evidence_result`, and `_canonicalize_indexed_final_result` in core.py. */
  method Canonicalize(items: seq<IndexedEvidence>, allowed: seq<string>) returns (r: Result<seq<Evidence>, GroundingError>)
    ensures r.Ok? <==> forall i | 0 <= i < |items| :: Canonicalises(items[i], allowed)
    ensures r.Ok? ==> CanonicalForm(items, allowed, r.value)
    ensures r.Err? ==> RefusesItems(items, allowed, r.error) && r.error != EmptyCatalogue
  {
    var evidence := [];
    for i := 0 to |items|
      invariant |evidence| == i
      invariant forall j | 0 <= j < i ::
                  && items[j].sourceIndex.Some? && 0 <= items[j].sourceIndex.value < |allowed|
                  && evidence[j] == Evidence(allowed[items[j].sourceIndex.value], items[j].observation)
    {
      var index := items[i].sourceIndex;
      if index.None? { return Err(NoIntegerIndex); }
      if index.value < 0 || index.value >= |allowed| { return Err(IndexOutsideCatalogue); }
      evidence := evidence + [Evidence(allowed[index.value], items[i].observation)];
    }
    if exists i | 0 <= i < |evidence| :: !ValidReference(evidence[i]) { return Err(InvalidReference); }
    return Ok(evidence);
  }

  // ---------------------------------------------------------------- the check

  predicate Grounded(evidence: seq<Evidence>, paths: set<string>) {
    forall i | 0 <= i < |evidence| :: evidence[i].sourceKey in paths
  }

  /** The cited keys that are not available. */
  function Missing(evidence: seq<Evidence>, paths: set<string>): seq<string> {
    if evidence == [] then []
    else Missing(Init(evidence), paths) + if Last(evidence).sourceKey in paths then [] else [Last(evidence).sourceKey]
  }

  /** A cited key is named as often as it is cited, if it is not available. */
  lemma {:induction false} MissingCounts(evidence: seq<Evidence>, paths: set<string>, key: string)
    ensures multiset(Missing(evidence, paths))[key]
            == if key in paths then 0 else |Select(evidence, Cites(key))|
  {
    if evidence != [] { MissingCounts(Init(evidence), paths, key); }
  }

  function Cites(key: string): Evidence -> bool {
    (e: Evidence) => e.sourceKey == key
  }

  lemma {:induction false} NothingMissing(evidence: seq<Evidence>, paths: set<string>)
    ensures Missing(evidence, paths) == [] <==> Grounded(evidence, paths)
  {
    if evidence != [] {
      NothingMissing(Init(evidence), paths);
      assert forall i | 0 <= i < |evidence| - 1 :: Init(evidence)[i] == evidence[i];
    }
  }

  /** The error names the unavailable keys in code-point order, each as often as it is cited. */
  ghost predicate Names(e: GroundingError, evidence: seq<Evidence>, paths: set<string>) {
    && e.Ungrounded? && Ordered(e.missing, TextLess)
    && forall key ::
         multiset(e.missing)[key] == if key in paths then 0 else |Select(evidence, Cites(key))|
  }

  lemma MissingSorted(evidence: seq<Evidence>, paths: set<string>)
    ensures var missing := Sort(Missing(evidence, paths), TextLess);
            Names(Ungrounded(missing), evidence, paths) && (missing == [] <==> Grounded(evidence, paths))
  {
    hide Sort, TextLess, TotallyOrders, Ordered, Orders, Missing, Grounded;
    var missing := Sort(Missing(evidence, paths), TextLess);
    NothingMissing(evidence, paths);
    TextIsTotal();
    TotalIsOrder(TextLess);
    SortSpec(Missing(evidence, paths), TextLess);
    forall key ensures multiset(missing)[key] == if key in paths then 0 else |Select(evidence, Cites(key))| {
      MissingCounts(evidence, paths, key);
    }
  }

  /** `_assert_grounded_evidence`. */
  method AssertGrounded(evidence: seq<Evidence>, payload: Json, leafOnly: bool) returns (r: Result<(), GroundingError>)
    ensures var paths := if leafOnly then LeafPaths(payload, "") else AllPaths(payload, "", true);
            && (r.Ok? <==> Grounded(evidence, paths))
            && (r.Err? ==> Names(r.error, evidence, paths) && r.error != EmptyCatalogue)
  {
    hide Sort, Missing, Names, Grounded;
    var paths;
    if leafOnly {
      paths := GroundedJsonLeafPaths(payload, "");
    } else {
      paths := GroundedJsonPaths(payload, "", true);
    }
    MissingSorted(evidence, paths);
    var missing := Sort(Missing(evidence, paths), TextLess);
    if missing != [] { return Err(Ungrounded(missing)); }
    return Ok(());
  }

  /** Whatever an index is mapped back to is something the payload contains. */
  lemma CanonicalIsGrounded(items: seq<IndexedEvidence>, allowed: seq<string>, evidence: seq<Evidence>, paths: set<string>)
    requires CanonicalForm(items, allowed, evidence) && forall x :: x in allowed <==> x in paths
    ensures Grounded(evidence, paths)
  {
    forall i | 0 <= i < |evidence| ensures evidence[i].sourceKey in paths {
      assert evidence[i].sourceKey == allowed[items[i].sourceIndex.value];
    }
  }

  /**
   The evidence part of `SpecialistAgent.analyze`, given the gateway's reply.  Evidence that is
   returned is grounded, however it was cited; an indexed reply fails only before the check.
   */
  method Analyze(version: string, opportunity: Json, market: Json, context: Option<Json>, reply: Reply)
    returns (allowed: seq<string>, r: Result<seq<Evidence>, GroundingError>)
    requires reply.Indexed? ==> version in {"v3", "v4", "v5", "v6"}
    ensures var payload := if context.Some?
              then Object([Field("opportunity", opportunity), Field("market_context", market),
                           Field("specialist_context", context.value)])
              else Object([Field("opportunity", opportunity), Field("market_context", market)]);
            var paths := if version in {"v4", "v5", "v6"} then LeafPaths(payload, "") else AllPaths(payload, "", true);
            var indexed := version in {"v3", "v4", "v5", "v6"};
            && (version in {"v2", "v3", "v4", "v5", "v6"} ==>
                  Strict(allowed, TextLess) && forall x :: x in allowed <==> x in paths)
            && (version !in {"v2", "v3", "v4", "v5", "v6"} ==> allowed == [])
            && (r.Ok? ==> Grounded(r.value, paths))
            && (reply.Canonical? && r.Ok? ==> r.value == reply.evidence)
            && (reply.Canonical? ==> (r.Ok? <==> (indexed ==> paths != {}) && Grounded(reply.evidence, paths)))
            && (reply.Indexed? ==>
                  && (r.Ok? <==> paths != {} && forall i | 0 <= i < |reply.items| :: Canonicalises(reply.items[i], allowed))
                  && (r.Ok? ==> CanonicalForm(reply.items, allowed, r.value)))
            && (r == Err(EmptyCatalogue) <==> indexed && paths == {})
            && (r.Err? && r.error != EmptyCatalogue ==>
                  if reply.Indexed? then RefusesItems(reply.items, allowed, r.error)
                  else Names(r.error, reply.evidence, paths))
  {
    hide LeafPaths, AllPaths, Grounded, CanonicalForm, Canonicalises, Strict, RefusesItems, Names;
    allowed := [];
    var payload := Payload(opportunity, market, context);
    PayloadFields(opportunity, market, context);
    ghost var paths := Available(version, payload);
    if OffersCatalogue(version) {
      var found;
      if LeafOnly(version) {
        found := GroundedJsonLeafPaths(payload, "");
      } else {
        found := GroundedJsonPaths(payload, "", true);
      }
      allowed := Listing(found);
      NoneListed(allowed, paths);
      if UsesIndexes(version) && allowed == [] { return allowed, Err(EmptyCatalogue); }
    }
    var evidence;
    if reply.Indexed? {
      var canonical := Canonicalize(reply.items, allowed);
      if canonical.Err? { return allowed, Err(canonical.error); }
      evidence := canonical.value;
      CanonicalIsGrounded(reply.items, allowed, evidence, paths);
    } else {
      evidence := reply.evidence;
    }
    var checked := AssertGrounded(evidence, payload, LeafOnly(version));
    if checked.Err? { return allowed, Err(checked.error); }
    return allowed, Ok(evidence);
  }

  lemma NoneListed(s: seq<string>, paths: set<string>)
    requires forall x :: x in s <==> x in paths
    ensures s == [] <==> paths == {}
  {
    if s != [] { assert s[0] in paths; }
  }

  /** From v4 on, and with keys that split back, every accepted citation names one non-null scalar of the input. */
  lemma CitationsNameScalars(evidence: seq<Evidence>, payload: Json, i: nat)
    requires UniqueKeys(payload) && Splittable(payload, Scalars)
    requires Grounded(evidence, LeafPaths(payload, "")) && i < |evidence|
    ensures IsScalarAt(payload, Split(evidence[i].sourceKey))
    ensures forall keys :: IsScalarAt(payload, keys) && Encode("", keys) == evidence[i].sourceKey
              ==> keys == Split(evidence[i].sourceKey)
  {
    var p := evidence[i].sourceKey;
    LeafPathsDecode(payload, p);
    var keys := LeafHasScalar(payload, "", p);
  }
}
