/**
 The prompt-cache slices and the report of app/evaluation/ai_costs.py.  Slicing by agent, model
 or route splits every figure of the overall slice without remainder.
 */
module AiCostReport {
  import opened Wrappers
  import opened Sequences
  import Reals
  import opened Sums
  import opened Metrics
  import opened AiCosts

  // ---------------------------------------------------------------- the amounts in a slice

  /** What a slice adds up; the cost without cache is unknown as soon as one entry's is. */
  datatype Amounts = Amounts(
    requests: int, input: int, cached: int, cacheWrite: int, output: int, normal: int, cost: real, uncached: Option<real>)

  const NOTHING := Amounts(0, 0, 0, 0, 0, 0, 0.0, Some(0.0))

  function Plus(a: Amounts, b: Amounts): Amounts {
    Amounts(
      a.requests + b.requests, a.input + b.input, a.cached + b.cached, a.cacheWrite + b.cacheWrite,
      a.output + b.output, a.normal + b.normal, a.cost + b.cost,
      if a.uncached.Some? && b.uncached.Some? then Some(a.uncached.value + b.uncached.value) else None)
  }

  function AmountsOf(u: UsageEntry): Amounts {
    Amounts(1, u.inputTokens, u.cachedTokens, u.cacheWriteTokens, u.outputTokens,
            u.inputTokens - u.cachedTokens - u.cacheWriteTokens, u.cost, u.uncachedCost)
  }

  function AmountsIn(items: seq<UsageEntry>): Amounts {
    if items == [] then NOTHING else Plus(AmountsIn(Init(items)), AmountsOf(Last(items)))
  }

  datatype CacheSlice = CacheSlice(
    requestCount: int,
    inputTokens: int,
    normalTokens: int,
    cachedTokens: int,
    cacheWriteTokens: int,
    outputTokens: int,
    readRatio: Metric,
    actualCost: real,
    uncachedCost: Metric,
    savings: Metric)

  /** `_cache_slice`. */
  function CacheSliceOf(items: seq<UsageEntry>): CacheSlice {
    var a := AmountsIn(items);
    CacheSlice(
      a.requests, a.input, a.normal, a.cached, a.cacheWrite, a.output,
      if a.input > 0 then Available(a.cached as real / a.input as real) else Unavailable(NoAiInputTokens),
      a.cost,
      if a.uncached.Some? then Available(a.uncached.value) else Unavailable(UncachedCostNotRecorded),
      if a.uncached.Some? then Available(a.uncached.value - a.cost) else Unavailable(UncachedCostNotRecorded))
  }

  /** What a slice says, as amounts again. */
  function Stated(s: CacheSlice): Amounts {
    Amounts(s.requestCount, s.inputTokens, s.cachedTokens, s.cacheWriteTokens, s.outputTokens, s.normalTokens,
            s.actualCost, if s.uncachedCost.Available? then Some(s.uncachedCost.value) else None)
  }

  lemma {:induction false} AmountsDescribe(items: seq<UsageEntry>)
    ensures var a := AmountsIn(items);
            && a.requests == |items| && a.cost == Sum(items, Cost)
            && (a.uncached.None? <==> exists u :: u in items && u.uncachedCost.None?)
  {
    if items != [] {
      AmountsDescribe(Init(items));
      assert items == Init(items) + [Last(items)];
      assert Last(items) in items && forall u | u in Init(items) :: u in items;
    }
  }

  /** A slice counts its items, costs what they cost, and is silent on savings when one of them is. */
  lemma SliceDescribes(items: seq<UsageEntry>)
    ensures var s := CacheSliceOf(items);
            && s.requestCount == |items| && s.actualCost == Sum(items, Cost) && Stated(s) == AmountsIn(items)
            && (s.savings.Unavailable? <==> exists u :: u in items && u.uncachedCost.None?)
            && (s.savings.Available? ==> s.savings.value == s.uncachedCost.value - s.actualCost)
            && (s.savings.Available? <==> s.uncachedCost.Available?)
            && (!s.savings.Available? ==> s.savings == s.uncachedCost == Unavailable(UncachedCostNotRecorded))
            && (if s.inputTokens > 0
                then s.readRatio.Available? && s.readRatio.value * s.inputTokens as real == s.cachedTokens as real
                else s.readRatio == Unavailable(NoAiInputTokens))
  {
    AmountsDescribe(items);
    hide AmountsIn, Sum;
  }

  /** The slice of one entry states that entry's own fields. */
  lemma SliceOfOne(u: UsageEntry)
    ensures var s := CacheSliceOf([u]);
            && s.requestCount == 1 && s.inputTokens == u.inputTokens && s.cachedTokens == u.cachedTokens
            && s.cacheWriteTokens == u.cacheWriteTokens && s.outputTokens == u.outputTokens
            && s.normalTokens == u.inputTokens - u.cachedTokens - u.cacheWriteTokens && s.actualCost == u.cost
            && (u.uncachedCost.Some? ==> s.uncachedCost == Available(u.uncachedCost.value))
  {
    assert AmountsIn([u]) == Plus(NOTHING, AmountsOf(u));
  }

  lemma {:induction false} AmountsOfConcat(a: seq<UsageEntry>, b: seq<UsageEntry>)
    ensures AmountsIn(a + b) == Plus(AmountsIn(a), AmountsIn(b))
  {
    if b == [] {
      assert a + b == a;
    } else {
      assert Init(a + b) == a + Init(b) && Last(a + b) == Last(b);
      AmountsOfConcat(a, Init(b));
    }
  }

  /** Putting two lists of entries together adds every figure; with `SliceOfOne` this pins every slice down. */
  lemma SliceOfConcat(a: seq<UsageEntry>, b: seq<UsageEntry>)
    ensures var s, x, y := CacheSliceOf(a + b), CacheSliceOf(a), CacheSliceOf(b);
            && s.requestCount == x.requestCount + y.requestCount && s.inputTokens == x.inputTokens + y.inputTokens
            && s.cachedTokens == x.cachedTokens + y.cachedTokens
            && s.cacheWriteTokens == x.cacheWriteTokens + y.cacheWriteTokens
            && s.outputTokens == x.outputTokens + y.outputTokens && s.normalTokens == x.normalTokens + y.normalTokens
            && s.actualCost == x.actualCost + y.actualCost
            && (s.uncachedCost.Available? <==> x.uncachedCost.Available? && y.uncachedCost.Available?)
            && (s.uncachedCost.Available? ==> s.uncachedCost.value == x.uncachedCost.value + y.uncachedCost.value)
  {
    AmountsOfConcat(a, b);
    hide AmountsIn;
  }

  /** Token counts are split exactly, and a read ratio is a ratio. */
  lemma {:induction false} SliceIsSane(items: seq<UsageEntry>)
    requires AllValidUsage(items)
    ensures var s := CacheSliceOf(items);
            && s.normalTokens + s.cachedTokens + s.cacheWriteTokens == s.inputTokens
            && s.normalTokens >= 0 && s.cachedTokens >= 0 && s.cacheWriteTokens >= 0 && s.outputTokens >= 0
            && (s.readRatio.Available? ==> 0.0 <= s.readRatio.value <= 1.0)
  {
    AmountsAreSane(items);
    var a := AmountsIn(items);
    if a.input > 0 { RatioBounds(a.cached, a.input); }
  }

  lemma RatioBounds(part: int, whole: int)
    requires 0 <= part <= whole && whole > 0
    ensures 0.0 <= part as real / whole as real <= 1.0
  {
  }

  lemma {:induction false} AmountsAreSane(items: seq<UsageEntry>)
    requires AllValidUsage(items)
    ensures var a := AmountsIn(items);
            && a.normal + a.cached + a.cacheWrite == a.input
            && a.normal >= 0 && a.cached >= 0 && a.cacheWrite >= 0 && a.output >= 0
  {
    if items != [] {
      assert items == Init(items) + [Last(items)];
      AmountsAreSane(Init(items));
      assert ValidUsage(Last(items));
    }
  }

  // ---------------------------------------------------------------- grouping

  function Group(usage: seq<UsageEntry>, account: Account, k: string): seq<UsageEntry> {
    Select(usage, ChargedTo(account, k))
  }

  /** `_group_cache`: the slice of each key's own entries. */
  function SlicesOf(usage: seq<UsageEntry>, account: Account): map<string, CacheSlice> {
    map k | k in TallyOf(usage, account).amounts :: CacheSliceOf(Group(usage, account, k))
  }

  /** The loop that fills the groups, then the slices. */
  method GroupCache(usage: seq<UsageEntry>, account: Account) returns (slices: map<string, CacheSlice>)
    requires forall u | u in usage :: account(u).Some?
    ensures slices == SlicesOf(usage, account)
  {
    hide Select, CacheSliceOf, Group;
    var grouped: map<string, seq<UsageEntry>> := map[];
    for i := 0 to |usage|
      invariant grouped.Keys == TallyOf(usage[..i], account).amounts.Keys
      invariant forall k | k in grouped :: grouped[k] == Group(usage[..i], account, k)
    {
      hide TallyOf;
      var item := usage[i];
      var key := account(item).value;
      assert Init(usage[..i + 1]) == usage[..i] && Last(usage[..i + 1]) == item;
      GroupsStep(usage[..i + 1], account);
      grouped := grouped[key := (if key in grouped then grouped[key] else []) + [item]];
    }
    assert usage[..|usage|] == usage;
    slices := map k | k in grouped :: CacheSliceOf(grouped[k]);
  }

  /** How the groups and their keys change with the last entry. */
  lemma GroupsStep(usage: seq<UsageEntry>, account: Account)
    requires usage != [] && account(Last(usage)).Some?
    ensures var u, key := Init(usage), account(Last(usage)).value;
            && TallyOf(usage, account).amounts.Keys == TallyOf(u, account).amounts.Keys + {key}
            && (key !in TallyOf(u, account).amounts ==> Group(u, account, key) == [])
            && (forall k :: Group(usage, account, k) == Group(u, account, k) + if k == key then [Last(usage)] else [])
  {
    var u, key := Init(usage), account(Last(usage)).value;
    TallyOfKey(u, account, key);
    forall k ensures Group(usage, account, k) == Group(u, account, k) + if k == key then [Last(usage)] else [] {
      GroupStep(usage, account, k);
    }
  }

  lemma GroupStep(usage: seq<UsageEntry>, account: Account, k: string)
    requires usage != []
    ensures Group(usage, account, k)
            == Group(Init(usage), account, k) + if account(Last(usage)) == Some(k) then [Last(usage)] else []
  {
  }

  /** The amounts of the groups of the keys given, added up. */
  function GroupsTotal(keys: seq<string>, usage: seq<UsageEntry>, account: Account): Amounts {
    if keys == [] then NOTHING
    else Plus(GroupsTotal(Init(keys), usage, account), AmountsIn(Group(usage, account, Last(keys))))
  }

  /** One more entry changes only the total of its own group. */
  lemma {:induction false} GroupsTotalStep(keys: seq<string>, usage: seq<UsageEntry>, account: Account)
    requires usage != [] && NoRepeats(keys) && account(Last(usage)).Some?
    ensures GroupsTotal(keys, usage, account)
            == if account(Last(usage)).value in keys
               then Plus(GroupsTotal(keys, Init(usage), account), AmountsOf(Last(usage)))
               else GroupsTotal(keys, Init(usage), account)
  {
    hide AmountsIn, Group, Plus, AmountsOf;
    if keys != [] {
      var k := Last(keys);
      LastIsNew(keys);
      GroupsTotalStep(Init(keys), usage, account);
      GroupAmounts(usage, account, k);
      PlusSwaps(
        GroupsTotal(Init(keys), Init(usage), account), AmountsIn(Group(Init(usage), account, k)), AmountsOf(Last(usage)));
    }
  }

  lemma PlusSwaps(a: Amounts, b: Amounts, c: Amounts)
    ensures Plus(a, Plus(b, c)) == Plus(Plus(a, b), c) == Plus(Plus(a, c), b)
  {
  }

  lemma AmountsAppend(items: seq<UsageEntry>, u: UsageEntry)
    ensures AmountsIn(items + [u]) == Plus(AmountsIn(items), AmountsOf(u))
  {
    assert Init(items + [u]) == items;
  }

  lemma GroupAmounts(usage: seq<UsageEntry>, account: Account, k: string)
    requires usage != []
    ensures AmountsIn(Group(usage, account, k))
            == if account(Last(usage)) == Some(k)
               then Plus(AmountsIn(Group(Init(usage), account, k)), AmountsOf(Last(usage)))
               else AmountsIn(Group(Init(usage), account, k))
  {
    GroupStep(usage, account, k);
    hide Group, Plus, AmountsOf;
    var own := Group(Init(usage), account, k);
    AmountsAppend(own, Last(usage));
    assert own + [] == own;
  }

  lemma {:induction false} EmptyGroups(keys: seq<string>, account: Account)
    ensures GroupsTotal(keys, [], account) == NOTHING
  {
    if keys != [] {
      EmptyGroups(Init(keys), account);
      assert Group([], account, Last(keys)) == [];
      hide Group, Select;
    }
  }

  lemma {:induction false} GroupsAddUp(keys: seq<string>, usage: seq<UsageEntry>, account: Account)
    requires NoRepeats(keys) && forall u | u in usage :: account(u).Some? && account(u).value in keys
    ensures GroupsTotal(keys, usage, account) == AmountsIn(usage)
  {
    if usage == [] {
      EmptyGroups(keys, account);
    } else {
      assert usage == Init(usage) + [Last(usage)];
      GroupsAddUp(keys, Init(usage), account);
      GroupsTotalStep(keys, usage, account);
    }
  }

  /** The slices listed, added up field by field. */
  function SlicesTotal(keys: seq<string>, slices: map<string, CacheSlice>): Amounts {
    if keys == [] then NOTHING
    else Plus(SlicesTotal(Init(keys), slices), if Last(keys) in slices then Stated(slices[Last(keys)]) else NOTHING)
  }

  lemma {:induction false} SlicesTotalIsGroups(keys: seq<string>, usage: seq<UsageEntry>, account: Account)
    requires forall k | k in keys :: k in TallyOf(usage, account).amounts
    ensures SlicesTotal(keys, SlicesOf(usage, account)) == GroupsTotal(keys, usage, account)
  {
    if keys != [] {
      assert keys == Init(keys) + [Last(keys)];
      SlicesTotalIsGroups(Init(keys), usage, account);
      SliceDescribes(Group(usage, account, Last(keys)));
    }
  }

  /** The slices of a grouping add up, field by field, to the overall slice. */
  lemma SlicesAddUp(usage: seq<UsageEntry>, account: Account)
    requires forall u | u in usage :: account(u).Some?
    ensures SlicesTotal(TallyOf(usage, account).keys, SlicesOf(usage, account)) == Stated(CacheSliceOf(usage))
  {
    var t := TallyOf(usage, account);
    TallyKeepsEverything(usage, account);
    forall u | u in usage ensures account(u).value in t.keys {
      EntryIsListed(usage, account, u);
    }
    SlicesTotalIsGroups(t.keys, usage, account);
    GroupsAddUp(t.keys, usage, account);
    SliceDescribes(usage);
  }

  lemma EntryIsListed(usage: seq<UsageEntry>, account: Account, u: UsageEntry)
    requires u in usage && account(u).Some?
    ensures account(u).value in TallyOf(usage, account).amounts
    ensures u in Group(usage, account, account(u).value)
  {
    TallyOfKey(usage, account, account(u).value);
    SelectKeeps(usage, ChargedTo(account, account(u).value), u);
  }

  /** Each slice costs what its key is charged, and overall savings are unknown exactly when some slice's are. */
  lemma SlicesAgree(usage: seq<UsageEntry>, account: Account)
    requires forall u | u in usage :: account(u).Some?
    ensures var t, slices := TallyOf(usage, account), SlicesOf(usage, account);
            && slices.Keys == t.amounts.Keys
            && (forall k | k in slices :: slices[k].actualCost == t.amounts[k])
            && (CacheSliceOf(usage).savings.Unavailable? <==>
                exists k :: k in slices && slices[k].savings.Unavailable?)
  {
    hide CacheSliceOf, TallyOf;
    var t, slices := TallyOf(usage, account), SlicesOf(usage, account);
    SliceDescribes(usage);
    forall k | k in slices
      ensures slices[k].actualCost == t.amounts[k]
      ensures slices[k].savings.Unavailable? ==> CacheSliceOf(usage).savings.Unavailable?
    {
      TallyOfKey(usage, account, k);
      SliceDescribes(Group(usage, account, k));
      if slices[k].savings.Unavailable? {
        var u :| u in Group(usage, account, k) && u.uncachedCost.None?;
        SelectKeeps(usage, ChargedTo(account, k), u);
      }
    }
    if CacheSliceOf(usage).savings.Unavailable? {
      var u :| u in usage && u.uncachedCost.None?;
      EntryIsListed(usage, account, u);
      SliceDescribes(Group(usage, account, account(u).value));
    }
  }

  // ---------------------------------------------------------------- the report

  datatype CostMetrics = CostMetrics(
    charges: Charges,
    perOpportunity: Metric,
    perRiskDecision: Metric,
    perTrade: Metric,
    cache: CacheSlice,
    cacheByAgent: map<string, CacheSlice>,
    cacheByModel: map<string, CacheSlice>,
    cacheByRoute: map<string, CacheSlice>)

  function AverageOf(t: Tally, otherwise: Reason): Metric {
    if t.amounts == map[] then Unavailable(otherwise)
    else Available(ValuesTotal(t) / |t.amounts| as real)
  }

  lemma {:induction false} SomethingCharged(usage: seq<UsageEntry>, account: Account)
    ensures TallyOf(usage, account).amounts != map[] <==> exists u :: u in usage && account(u).Some?
  {
    if usage != [] {
      assert usage == Init(usage) + [Last(usage)];
      SomethingCharged(Init(usage), account);
      assert Last(usage) in usage;
      if account(Last(usage)).Some? {
        assert account(Last(usage)).value in TallyOf(usage, account).amounts;
      }
    }
  }

  lemma AverageTimesCount(t: Tally, otherwise: Reason)
    ensures AverageOf(t, otherwise).Available? <==> t.amounts != map[]
    ensures t.amounts != map[] ==> AverageOf(t, otherwise).value * (|t.amounts| as real) == ValuesTotal(t)
    ensures t.amounts == map[] ==> AverageOf(t, otherwise) == Unavailable(otherwise)
  {
    hide ValuesTotal;
    if t.amounts != map[] {
      var k :| k in t.amounts;
      assert |t.amounts| != 0;
      Reals.Quotient(ValuesTotal(t), |t.amounts| as real);
    }
  }

  /** An average times the number of keys gives back what was attributed; there is one exactly when something was. */
  lemma AverageSpreadsTotal(usage: seq<UsageEntry>, account: Account, otherwise: Reason)
    ensures var t := TallyOf(usage, account);
            var average := AverageOf(t, otherwise);
            && (average.Available? <==> exists u :: u in usage && account(u).Some?)
            && (average.Available? ==>
                  average.value * (|t.amounts| as real) == Sum(Select(usage, ChargedAtAll(account)), Cost))
            && (!average.Available? ==> average == Unavailable(otherwise))
  {
    hide TallyOf, AverageOf, ValuesTotal, Sum, Select;
    TallyKeepsEverything(usage, account);
    SomethingCharged(usage, account);
    AverageTimesCount(TallyOf(usage, account), otherwise);
  }

  /** The slices of one grouping agree with its tally and with the overall slice. */
  ghost predicate SlicesFit(t: Tally, slices: map<string, CacheSlice>, overall: CacheSlice) {
    && slices.Keys == t.amounts.Keys
    && (forall k | k in slices :: slices[k].actualCost == t.amounts[k])
    && SlicesTotal(t.keys, slices) == Stated(overall)
    && (overall.savings.Unavailable? <==> exists k :: k in slices && slices[k].savings.Unavailable?)
  }

  lemma SlicesAlwaysFit(usage: seq<UsageEntry>, account: Account)
    requires forall u | u in usage :: account(u).Some?
    ensures SlicesFit(TallyOf(usage, account), SlicesOf(usage, account), CacheSliceOf(usage))
  {
    SlicesAddUp(usage, account);
    SlicesAgree(usage, account);
  }

  lemma EachSliceIsOwn(usage: seq<UsageEntry>)
    ensures forall k | k in SlicesOf(usage, ByAgent) ::
              SlicesOf(usage, ByAgent)[k] == CacheSliceOf(Select(usage, OfAgent(k)))
    ensures forall k | k in SlicesOf(usage, ByModel) ::
              SlicesOf(usage, ByModel)[k] == CacheSliceOf(Select(usage, OfModel(k)))
    ensures forall k | k in SlicesOf(usage, ByRoute) ::
              SlicesOf(usage, ByRoute)[k] == CacheSliceOf(Select(usage, OfRoute(k)))
  {
    TallyHoldsOwn(usage, ByAgent, OfAgent);
    TallyHoldsOwn(usage, ByModel, OfModel);
    TallyHoldsOwn(usage, ByRoute, OfRoute);
    hide TallyOf, CacheSliceOf, Select;
  }

  method CalculateAiCostMetrics(usage: seq<UsageEntry>, traces: seq<Trace>) returns (r: Result<CostMetrics, CostError>)
    ensures r.Ok? <==> Unambiguous(traces)
    ensures r.Ok? ==>
              var m := r.value;
              && (exists links ::
                    && LinksOf(traces, links) && m.charges == ChargesOf(usage, links)
                    && PaysDirectly(usage, m.charges) && PaysByTrace(usage, links, m.charges))
              && ValuesTotal(m.charges.byAgent) == ValuesTotal(m.charges.byModel) == ValuesTotal(m.charges.byRoute)
                 == m.charges.total == m.cache.actualCost == Sum(usage, Cost)
              && ValuesTotal(m.charges.byOpportunity) + m.charges.unattributed == m.charges.total
              && SlicesFit(m.charges.byAgent, m.cacheByAgent, m.cache)
              && SlicesFit(m.charges.byModel, m.cacheByModel, m.cache)
              && SlicesFit(m.charges.byRoute, m.cacheByRoute, m.cache)
              && m.cache.requestCount == |usage| && m.cache == CacheSliceOf(usage)
              && (forall k | k in m.cacheByAgent :: m.cacheByAgent[k] == CacheSliceOf(Select(usage, OfAgent(k))))
              && (forall k | k in m.cacheByModel :: m.cacheByModel[k] == CacheSliceOf(Select(usage, OfModel(k))))
              && (forall k | k in m.cacheByRoute :: m.cacheByRoute[k] == CacheSliceOf(Select(usage, OfRoute(k))))
              && m.perOpportunity == AverageOf(m.charges.byOpportunity, NoAttributedOpportunities)
              && m.perRiskDecision == AverageOf(m.charges.byRisk, NoAttributedRiskDecisions)
              && m.perTrade == AverageOf(m.charges.byTrade, NoAttributedTrades)
  {
    hide Unambiguous, LinksOf, TallyOf, SlicesOf, SlicesFit, CacheSliceOf, ValuesTotal, AverageOf, Sum, Select, Listed,
      PaysDirectly, PaysByTrace;
    var links := LinkRequests(traces);
    if links.Err? { return Err(links.error); }
    var charges := ChargeAll(usage, links.value);
    ChargesAddUp(usage, links.value);
    SliceDescribes(usage);
    SlicesAlwaysFit(usage, ByAgent);
    SlicesAlwaysFit(usage, ByModel);
    SlicesAlwaysFit(usage, ByRoute);
    EachPaysDirectly(usage, links.value);
    EachPaysByTrace(usage, links.value);
    EachSliceIsOwn(usage);
    var cacheByAgent := GroupCache(usage, ByAgent);
    var cacheByModel := GroupCache(usage, ByModel);
    var cacheByRoute := GroupCache(usage, ByRoute);
    return Ok(CostMetrics(
      charges, AverageOf(charges.byOpportunity, NoAttributedOpportunities),
      AverageOf(charges.byRisk, NoAttributedRiskDecisions), AverageOf(charges.byTrade, NoAttributedTrades),
      CacheSliceOf(usage), cacheByAgent, cacheByModel, cacheByRoute));
  }
}
