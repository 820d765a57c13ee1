/**
 Attribution of AI cost (app/evaluation/ai_costs.py): the same usage entries charged to agents,
 models, routes and, through the traces that claim their requests, to opportunities, risk
 decisions and trades; and prompt-cache figures per slice.
 */
module AiCosts {
  import opened Wrappers
  import opened Sequences
  import opened Sums

  datatype UsageEntry = UsageEntry(
    requestId: string,
    agentId: string,
    routeId: string,
    modelId: string,
    cost: real,
    inputTokens: int,
    cachedTokens: int,
    cacheWriteTokens: int,
    outputTokens: int,
    uncachedCost: Option<real>)

  /** What `AIUsageEntry.__post_init__` enforces on every entry. */
  predicate ValidUsage(u: UsageEntry) {
    && u.cost >= 0.0
    && u.inputTokens >= 0 && u.cachedTokens >= 0 && u.cacheWriteTokens >= 0 && u.outputTokens >= 0
    && u.cachedTokens + u.cacheWriteTokens <= u.inputTokens
    && (u.uncachedCost.Some? ==> u.uncachedCost.value >= 0.0)
  }

  predicate AllValidUsage(usage: seq<UsageEntry>) {
    forall u | u in usage :: ValidUsage(u)
  }

  /** A trace and all the request ids it claims, through its calls or directly. */
  datatype Trace = Trace(
    opportunityId: string, requestIds: set<string>, riskDecisionId: Option<string>, brokerOrderId: Option<string>)

  datatype CostError = LinkedToSeveralOpportunities

  // ---------------------------------------------------------------- requests to traces

  /** No request is claimed for two different opportunities. */
  predicate Unambiguous(traces: seq<Trace>) {
    forall i, j | 0 <= i < j < |traces| ::
      traces[i].requestIds * traces[j].requestIds == {} || traces[i].opportunityId == traces[j].opportunityId
  }

  /** Each request goes to the last trace that claims it. */
  ghost predicate LinksOf(traces: seq<Trace>, links: map<string, Trace>) {
    && (forall r | r in links :: r in links[r].requestIds && links[r] in traces)
    && (forall i, r | 0 <= i < |traces| && r in traces[i].requestIds ::
          r in links && (links[r] == traces[i] || exists j :: i < j < |traces| && links[r] == traces[j]))
  }

  function Linked(links: map<string, Trace>, ids: set<string>, t: Trace): map<string, Trace> {
    links + map r | r in ids :: t
  }

  predicate Conflicts(links: map<string, Trace>, t: Trace) {
    exists r | r in t.requestIds :: r in links && links[r].opportunityId != t.opportunityId
  }

  lemma LinkStep(traces: seq<Trace>, i: nat, links: map<string, Trace>)
    requires i < |traces| && LinksOf(traces[..i], links)
    ensures LinksOf(traces[..i + 1], Linked(links, traces[i].requestIds, traces[i]))
  {
    var t, more := traces[..i + 1], Linked(links, traces[i].requestIds, traces[i]);
    assert t == traces[..i] + [traces[i]];
    forall j, r | 0 <= j < |t| && r in t[j].requestIds
      ensures r in more && (more[r] == t[j] || exists k :: j < k < |t| && more[r] == t[k])
    {
      if r in traces[i].requestIds {
        assert more[r] == t[i];
      } else {
        assert t[j] == traces[..i][j];
        if links[r] != t[j] {
          var k :| j < k < |traces[..i]| && links[r] == traces[..i][k];
          assert more[r] == t[k];
        }
      }
    }
  }

  lemma UnambiguousStep(traces: seq<Trace>, i: nat, links: map<string, Trace>)
    requires i < |traces| && LinksOf(traces[..i], links) && Unambiguous(traces[..i])
    ensures Unambiguous(traces[..i + 1]) <==> !Conflicts(links, traces[i])
  {
    var t := traces[..i + 1];
    assert t == traces[..i] + [traces[i]];
    if Conflicts(links, traces[i]) {
      var r :| r in traces[i].requestIds && r in links && links[r].opportunityId != traces[i].opportunityId;
      var j :| 0 <= j < |traces[..i]| && traces[..i][j] == links[r];
      assert r in t[j].requestIds * t[i].requestIds;
    } else {
      forall j, k | 0 <= j < k < |t|
        ensures t[j].requestIds * t[k].requestIds == {} || t[j].opportunityId == t[k].opportunityId
      {
        if k < i {
          assert t[j] == traces[..i][j] && t[k] == traces[..i][k];
        } else if t[j].requestIds * t[i].requestIds != {} {
          var r :| r in t[j].requestIds * t[i].requestIds;
          SameOpportunity(traces[..i], j, r, links);
        }
      }
    }
  }

  lemma SameOpportunity(traces: seq<Trace>, j: nat, r: string, links: map<string, Trace>)
    requires j < |traces| && LinksOf(traces, links) && Unambiguous(traces) && r in traces[j].requestIds
    ensures r in links && links[r].opportunityId == traces[j].opportunityId
  {
    if links[r] != traces[j] {
      var k :| j < k < |traces| && links[r] == traces[k];
      assert r in traces[j].requestIds * traces[k].requestIds;
    }
  }

  lemma AmbiguousStays(traces: seq<Trace>, i: nat)
    requires i <= |traces| && !Unambiguous(traces[..i])
    ensures !Unambiguous(traces)
  {
    var j, k :| 0 <= j < k < i
      && !(traces[..i][j].requestIds * traces[..i][k].requestIds == {}
           || traces[..i][j].opportunityId == traces[..i][k].opportunityId);
    assert traces[j].requestIds * traces[k].requestIds != {} && traces[j].opportunityId != traces[k].opportunityId;
  }

  lemma LinkNone(links: map<string, Trace>, t: Trace)
    ensures Linked(links, t.requestIds - t.requestIds, t) == links
  {
  }

  lemma LinkOne(links: map<string, Trace>, seen: set<string>, id: string, t: Trace)
    requires id !in seen
    ensures Linked(links, seen + {id}, t) == Linked(links, seen, t)[id := t]
    ensures id in Linked(links, seen, t) <==> id in links
    ensures id in links ==> Linked(links, seen, t)[id] == links[id]
  {
  }

  /** The inner loop, over one trace's request ids in any order. */
  method LinkTrace(links: map<string, Trace>, trace: Trace) returns (r: Option<map<string, Trace>>)
    ensures r.None? <==> Conflicts(links, trace)
    ensures r.Some? ==> r.value == Linked(links, trace.requestIds, trace)
  {
    hide Linked;
    var linked, ids := links, trace.requestIds;
    LinkNone(links, trace);
    while ids != {}
      invariant ids <= trace.requestIds
      invariant linked == Linked(links, trace.requestIds - ids, trace)
      invariant forall r | r in trace.requestIds - ids :: r in links ==> links[r].opportunityId == trace.opportunityId
      decreases |ids|
    {
      var requestId :| requestId in ids;
      ghost var seen := trace.requestIds - ids;
      LinkOne(links, seen, requestId, trace);
      if requestId in linked && linked[requestId].opportunityId != trace.opportunityId { return None; }
      linked := linked[requestId := trace];
      ids := ids - {requestId};
      assert trace.requestIds - ids == seen + {requestId};
    }
    assert trace.requestIds - ids == trace.requestIds;
    return Some(linked);
  }

  /** The loop over traces: each request goes to one opportunity, or the whole calculation fails. */
  method LinkRequests(traces: seq<Trace>) returns (r: Result<map<string, Trace>, CostError>)
    ensures r.Ok? <==> Unambiguous(traces)
    ensures r.Ok? ==> LinksOf(traces, r.value)
  {
    hide LinksOf, Unambiguous, Conflicts, Linked;
    var links: map<string, Trace> := map[];
    NothingLinked();
    assert traces[..0] == [];
    for i := 0 to |traces|
      invariant LinksOf(traces[..i], links) && Unambiguous(traces[..i])
    {
      LinkStep(traces, i, links);
      UnambiguousStep(traces, i, links);
      var linked := LinkTrace(links, traces[i]);
      if linked.None? {
        AmbiguousStays(traces, i + 1);
        return Err(LinkedToSeveralOpportunities);
      }
      links := linked.value;
    }
    assert traces[..|traces|] == traces;
    return Ok(links);
  }

  lemma NothingLinked()
    ensures LinksOf([], map[]) && Unambiguous([])
  {
  }

  // ---------------------------------------------------------------- charging

  function Cost(u: UsageEntry): real { u.cost }

  /** An insertion-ordered dictionary of amounts. */
  datatype Tally = Tally(keys: seq<string>, amounts: map<string, real>)

  type Account = UsageEntry -> Option<string>

  function Charge(t: Tally, key: Option<string>, amount: real): Tally {
    match key
    case None => t
    case Some(k) =>
      Tally(
        if k in t.amounts then t.keys else t.keys + [k],
        t.amounts[k := (if k in t.amounts then t.amounts[k] else 0.0) + amount])
  }

  function TallyOf(usage: seq<UsageEntry>, account: Account): Tally {
    if usage == [] then Tally([], map[])
    else Charge(TallyOf(Init(usage), account), account(Last(usage)), Last(usage).cost)
  }

  function Amount(k: string, amount: real): real { amount }

  function ValuesTotal(t: Tally): real { Total(t.keys, t.amounts, Amount) }

  function ChargedTo(account: Account, k: string): UsageEntry -> bool {
    (u: UsageEntry) => account(u) == Some(k)
  }

  function ChargedAtAll(account: Account): UsageEntry -> bool {
    (u: UsageEntry) => account(u).Some?
  }

  ghost predicate Listed(t: Tally) {
    NoRepeats(t.keys) && forall k :: k in t.keys <==> k in t.amounts
  }

  /** Every charged entry's cost is in the tally once. */
  lemma {:induction false} TallyKeepsEverything(usage: seq<UsageEntry>, account: Account)
    ensures var t := TallyOf(usage, account);
            Listed(t) && ValuesTotal(t) == Sum(Select(usage, ChargedAtAll(account)), Cost)
  {
    if usage != [] {
      var u := Last(usage);
      TallyKeepsEverything(Init(usage), account);
      SumSelectStep(usage, ChargedAtAll(account), Cost);
      if account(u).Some? { ChargeTotal(TallyOf(Init(usage), account), account(u).value, u.cost); }
    }
  }

  lemma ChargeTotal(t: Tally, k: string, amount: real)
    requires Listed(t)
    ensures var after := Charge(t, Some(k), amount);
            Listed(after) && ValuesTotal(after) == ValuesTotal(t) + amount
  {
    var after := Charge(t, Some(k), amount);
    hide Total, EntryOf, NoRepeats;
    ListedStays(t, k, amount);
    if k in t.amounts {
      TotalUpdate(t.keys, t.amounts, k, after.amounts[k], Amount);
    } else {
      TotalIgnoresOthers(t.keys, t.amounts, k, after.amounts[k], Amount);
      TotalAppend(t.keys, after.amounts, k, Amount);
    }
  }

  lemma ListedStays(t: Tally, k: string, amount: real)
    requires Listed(t)
    ensures Listed(Charge(t, Some(k), amount))
  {
  }

  /** Each key holds exactly the cost of its own entries. */
  lemma {:induction false} TallyOfKey(usage: seq<UsageEntry>, account: Account, k: string)
    ensures var t, own := TallyOf(usage, account), Select(usage, ChargedTo(account, k));
            && (k in t.amounts <==> own != [])
            && (k in t.amounts ==> t.amounts[k] == Sum(own, Cost))
  {
    if usage != [] {
      TallyOfKey(Init(usage), account, k);
      SumSelectStep(usage, ChargedTo(account, k), Cost);
    }
  }

  function ByAgent(u: UsageEntry): Option<string> { Some(u.agentId) }
  function ByModel(u: UsageEntry): Option<string> { Some(u.modelId) }
  function ByRoute(u: UsageEntry): Option<string> { Some(u.routeId) }

  function ByOpportunity(links: map<string, Trace>): Account {
    (u: UsageEntry) => if u.requestId in links then Some(links[u.requestId].opportunityId) else None
  }

  function ByRisk(links: map<string, Trace>): Account {
    (u: UsageEntry) => if u.requestId in links then links[u.requestId].riskDecisionId else None
  }

  function ByTrade(links: map<string, Trace>): Account {
    (u: UsageEntry) => if u.requestId in links then links[u.requestId].brokerOrderId else None
  }

  function Unclaimed(links: map<string, Trace>): UsageEntry -> bool {
    (u: UsageEntry) => u.requestId !in links
  }

  datatype Charges = Charges(
    total: real, unattributed: real,
    byAgent: Tally, byModel: Tally, byRoute: Tally, byOpportunity: Tally, byRisk: Tally, byTrade: Tally)

  function ChargesOf(usage: seq<UsageEntry>, links: map<string, Trace>): Charges {
    Charges(
      Sum(usage, Cost), Sum(Select(usage, Unclaimed(links)), Cost),
      TallyOf(usage, ByAgent), TallyOf(usage, ByModel), TallyOf(usage, ByRoute),
      TallyOf(usage, ByOpportunity(links)), TallyOf(usage, ByRisk(links)), TallyOf(usage, ByTrade(links)))
  }

  /** What one more entry adds. */
  function Charged(c: Charges, item: UsageEntry, links: map<string, Trace>): Charges {
    Charges(
      c.total + item.cost, if item.requestId in links then c.unattributed else c.unattributed + item.cost,
      Charge(c.byAgent, ByAgent(item), item.cost), Charge(c.byModel, ByModel(item), item.cost),
      Charge(c.byRoute, ByRoute(item), item.cost), Charge(c.byOpportunity, ByOpportunity(links)(item), item.cost),
      Charge(c.byRisk, ByRisk(links)(item), item.cost), Charge(c.byTrade, ByTrade(links)(item), item.cost))
  }

  lemma ChargesStep(usage: seq<UsageEntry>, i: nat, links: map<string, Trace>)
    requires i < |usage|
    ensures ChargesOf(usage[..i + 1], links) == Charged(ChargesOf(usage[..i], links), usage[i], links)
  {
    var item := usage[i];
    assert usage[..i + 1] == usage[..i] + [item] && Init(usage[..i + 1]) == usage[..i];
    SumAppend(usage[..i], item, Cost);
    SumSelectStep(usage[..i + 1], Unclaimed(links), Cost);
    hide Charge, Sum, Select;
  }

  /** The loop over usage entries. */
  method ChargeAll(usage: seq<UsageEntry>, links: map<string, Trace>) returns (c: Charges)
    ensures c == ChargesOf(usage, links)
  {
    var empty := Tally([], map[]);
    c := Charges(0.0, 0.0, empty, empty, empty, empty, empty, empty);
    for i := 0 to |usage|
      invariant c == ChargesOf(usage[..i], links)
    {
      hide Charge, ChargesOf;
      var item := usage[i];
      ChargesStep(usage, i, links);
      ChargesNobody(c, item.cost);
      c := c.(total := c.total + item.cost,
              byAgent := Charge(c.byAgent, Some(item.agentId), item.cost),
              byModel := Charge(c.byModel, Some(item.modelId), item.cost),
              byRoute := Charge(c.byRoute, Some(item.routeId), item.cost));
      if item.requestId !in links {
        c := c.(unattributed := c.unattributed + item.cost);
      } else {
        var trace := links[item.requestId];
        c := c.(byOpportunity := Charge(c.byOpportunity, Some(trace.opportunityId), item.cost));
        if trace.riskDecisionId.Some? { c := c.(byRisk := Charge(c.byRisk, trace.riskDecisionId, item.cost)); }
        if trace.brokerOrderId.Some? { c := c.(byTrade := Charge(c.byTrade, trace.brokerOrderId, item.cost)); }
      }
    }
    assert usage[..|usage|] == usage;
  }

  lemma ChargesNobody(c: Charges, amount: real)
    ensures Charge(c.byOpportunity, None, amount) == c.byOpportunity
    ensures Charge(c.byRisk, None, amount) == c.byRisk && Charge(c.byTrade, None, amount) == c.byTrade
  {
  }

  lemma {:induction false} ClaimedOrNot(usage: seq<UsageEntry>, links: map<string, Trace>)
    ensures Sum(Select(usage, ChargedAtAll(ByOpportunity(links))), Cost) + Sum(Select(usage, Unclaimed(links)), Cost)
            == Sum(usage, Cost)
  {
    if usage != [] {
      ClaimedOrNot(Init(usage), links);
      SumSelectStep(usage, ChargedAtAll(ByOpportunity(links)), Cost);
      SumSelectStep(usage, Unclaimed(links), Cost);
    }
  }

  lemma {:induction false} SelectEverything(usage: seq<UsageEntry>, account: Account)
    requires forall u | u in usage :: account(u).Some?
    ensures Select(usage, ChargedAtAll(account)) == usage
  {
    if usage != [] {
      assert usage == Init(usage) + [Last(usage)];
      SelectEverything(Init(usage), account);
    }
  }

  /** Money is neither lost nor counted twice, whichever way it is attributed. */
  lemma ChargesAddUp(usage: seq<UsageEntry>, links: map<string, Trace>)
    ensures var c := ChargesOf(usage, links);
            && ValuesTotal(c.byAgent) == ValuesTotal(c.byModel) == ValuesTotal(c.byRoute) == c.total
            && ValuesTotal(c.byOpportunity) + c.unattributed == c.total
  {
    TallyKeepsEverything(usage, ByAgent);
    TallyKeepsEverything(usage, ByModel);
    TallyKeepsEverything(usage, ByRoute);
    TallyKeepsEverything(usage, ByOpportunity(links));
    SelectEverything(usage, ByAgent);
    SelectEverything(usage, ByModel);
    SelectEverything(usage, ByRoute);
    ClaimedOrNot(usage, links);
  }

  // ---------------------------------------------------------------- who is charged what, field by field

  function OfAgent(k: string): UsageEntry -> bool { (u: UsageEntry) => u.agentId == k }
  function OfModel(k: string): UsageEntry -> bool { (u: UsageEntry) => u.modelId == k }
  function OfRoute(k: string): UsageEntry -> bool { (u: UsageEntry) => u.routeId == k }

  function ForOpportunity(links: map<string, Trace>): string -> UsageEntry -> bool {
    (k: string) => (u: UsageEntry) => u.requestId in links && links[u.requestId].opportunityId == k
  }

  function ForRisk(links: map<string, Trace>): string -> UsageEntry -> bool {
    (k: string) => (u: UsageEntry) => u.requestId in links && links[u.requestId].riskDecisionId == Some(k)
  }

  function ForTrade(links: map<string, Trace>): string -> UsageEntry -> bool {
    (k: string) => (u: UsageEntry) => u.requestId in links && links[u.requestId].brokerOrderId == Some(k)
  }

  /** The amounts are those of the entries that `own` picks out for each key. */
  ghost predicate HoldsOwn(usage: seq<UsageEntry>, t: Tally, own: string -> UsageEntry -> bool) {
    && (forall k :: k in t.amounts <==> exists u | u in usage :: own(k)(u))
    && (forall k | k in t.amounts :: t.amounts[k] == Sum(Select(usage, own(k)), Cost))
  }

  lemma TallyHoldsOwn(usage: seq<UsageEntry>, account: Account, own: string -> UsageEntry -> bool)
    requires forall u, k :: own(k)(u) <==> account(u) == Some(k)
    ensures HoldsOwn(usage, TallyOf(usage, account), own)
    ensures forall k :: Select(usage, ChargedTo(account, k)) == Select(usage, own(k))
  {
    hide TallyOf, Sum, Select;
    var t := TallyOf(usage, account);
    forall k
      ensures k in t.amounts <==> exists u | u in usage :: own(k)(u)
      ensures k in t.amounts ==> t.amounts[k] == Sum(Select(usage, own(k)), Cost)
      ensures Select(usage, ChargedTo(account, k)) == Select(usage, own(k))
    {
      TallyOfKey(usage, account, k);
      SelectAgrees(usage, ChargedTo(account, k), own(k));
      var chosen := Select(usage, own(k));
      if chosen != [] {
        SelectKeeps(usage, own(k), chosen[0]);
      } else if u :| u in usage && own(k)(u) {
        SelectKeeps(usage, own(k), u);
      }
    }
  }

  /** Agents, models and routes: who is listed, by the entries' own fields, and what each is charged. */
  ghost predicate PaysDirectly(usage: seq<UsageEntry>, c: Charges) {
    && (forall k :: k in c.byAgent.amounts <==> exists u | u in usage :: u.agentId == k)
    && (forall k :: k in c.byModel.amounts <==> exists u | u in usage :: u.modelId == k)
    && (forall k :: k in c.byRoute.amounts <==> exists u | u in usage :: u.routeId == k)
    && (forall k | k in c.byAgent.amounts :: c.byAgent.amounts[k] == Sum(Select(usage, OfAgent(k)), Cost))
    && (forall k | k in c.byModel.amounts :: c.byModel.amounts[k] == Sum(Select(usage, OfModel(k)), Cost))
    && (forall k | k in c.byRoute.amounts :: c.byRoute.amounts[k] == Sum(Select(usage, OfRoute(k)), Cost))
  }

  /** Opportunities, risk decisions and trades: the same through the traces that claim the requests. */
  ghost predicate PaysByTrace(usage: seq<UsageEntry>, links: map<string, Trace>, c: Charges) {
    && (forall k :: k in c.byOpportunity.amounts <==>
          exists u | u in usage :: u.requestId in links && links[u.requestId].opportunityId == k)
    && (forall k :: k in c.byRisk.amounts <==>
          exists u | u in usage :: u.requestId in links && links[u.requestId].riskDecisionId == Some(k))
    && (forall k :: k in c.byTrade.amounts <==>
          exists u | u in usage :: u.requestId in links && links[u.requestId].brokerOrderId == Some(k))
    && (forall k | k in c.byOpportunity.amounts ::
          c.byOpportunity.amounts[k] == Sum(Select(usage, ForOpportunity(links)(k)), Cost))
    && (forall k | k in c.byRisk.amounts :: c.byRisk.amounts[k] == Sum(Select(usage, ForRisk(links)(k)), Cost))
    && (forall k | k in c.byTrade.amounts :: c.byTrade.amounts[k] == Sum(Select(usage, ForTrade(links)(k)), Cost))
    && c.unattributed == Sum(Select(usage, Unclaimed(links)), Cost)
  }

  lemma OwnAgents(usage: seq<UsageEntry>, t: Tally)
    requires HoldsOwn(usage, t, OfAgent)
    ensures forall k :: k in t.amounts <==> exists u | u in usage :: u.agentId == k
  {
  }

  lemma OwnModels(usage: seq<UsageEntry>, t: Tally)
    requires HoldsOwn(usage, t, OfModel)
    ensures forall k :: k in t.amounts <==> exists u | u in usage :: u.modelId == k
  {
  }

  lemma OwnRoutes(usage: seq<UsageEntry>, t: Tally)
    requires HoldsOwn(usage, t, OfRoute)
    ensures forall k :: k in t.amounts <==> exists u | u in usage :: u.routeId == k
  {
  }

  lemma OwnOpportunities(usage: seq<UsageEntry>, links: map<string, Trace>, t: Tally)
    requires HoldsOwn(usage, t, ForOpportunity(links))
    ensures forall k :: k in t.amounts <==>
              exists u | u in usage :: u.requestId in links && links[u.requestId].opportunityId == k
  {
  }

  lemma OwnRisks(usage: seq<UsageEntry>, links: map<string, Trace>, t: Tally)
    requires HoldsOwn(usage, t, ForRisk(links))
    ensures forall k :: k in t.amounts <==>
              exists u | u in usage :: u.requestId in links && links[u.requestId].riskDecisionId == Some(k)
  {
  }

  lemma OwnTrades(usage: seq<UsageEntry>, links: map<string, Trace>, t: Tally)
    requires HoldsOwn(usage, t, ForTrade(links))
    ensures forall k :: k in t.amounts <==>
              exists u | u in usage :: u.requestId in links && links[u.requestId].brokerOrderId == Some(k)
  {
  }

  lemma OwnAmounts(usage: seq<UsageEntry>, t: Tally, own: string -> UsageEntry -> bool)
    requires HoldsOwn(usage, t, own)
    ensures forall k | k in t.amounts :: t.amounts[k] == Sum(Select(usage, own(k)), Cost)
  {
  }

  /** Every entry is charged to its own agent, model and route. */
  lemma EachPaysDirectly(usage: seq<UsageEntry>, links: map<string, Trace>)
    ensures PaysDirectly(usage, ChargesOf(usage, links))
  {
    hide HoldsOwn, TallyOf, Sum, Select, OfAgent, OfModel, OfRoute;
    var c := ChargesOf(usage, links);
    DirectlyOwned(usage);
    OwnAgents(usage, c.byAgent);
    OwnModels(usage, c.byModel);
    OwnRoutes(usage, c.byRoute);
    OwnAmounts(usage, c.byAgent, OfAgent);
    OwnAmounts(usage, c.byModel, OfModel);
    OwnAmounts(usage, c.byRoute, OfRoute);
  }

  lemma DirectlyOwned(usage: seq<UsageEntry>)
    ensures HoldsOwn(usage, TallyOf(usage, ByAgent), OfAgent)
    ensures HoldsOwn(usage, TallyOf(usage, ByModel), OfModel)
    ensures HoldsOwn(usage, TallyOf(usage, ByRoute), OfRoute)
  {
    hide HoldsOwn, TallyOf, Sum, Select;
    TallyHoldsOwn(usage, ByAgent, OfAgent);
    TallyHoldsOwn(usage, ByModel, OfModel);
    TallyHoldsOwn(usage, ByRoute, OfRoute);
  }

  /** And to what the trace claiming its request led to, or to nobody. */
  lemma EachPaysByTrace(usage: seq<UsageEntry>, links: map<string, Trace>)
    ensures PaysByTrace(usage, links, ChargesOf(usage, links))
  {
    hide HoldsOwn, TallyOf, Sum, Select, ForOpportunity, ForRisk, ForTrade, Unclaimed;
    var c := ChargesOf(usage, links);
    OwnedByTrace(usage, links);
    OwnOpportunities(usage, links, c.byOpportunity);
    OwnRisks(usage, links, c.byRisk);
    OwnTrades(usage, links, c.byTrade);
    OwnAmounts(usage, c.byOpportunity, ForOpportunity(links));
    OwnAmounts(usage, c.byRisk, ForRisk(links));
    OwnAmounts(usage, c.byTrade, ForTrade(links));
  }

  lemma OwnedByTrace(usage: seq<UsageEntry>, links: map<string, Trace>)
    ensures HoldsOwn(usage, TallyOf(usage, ByOpportunity(links)), ForOpportunity(links))
    ensures HoldsOwn(usage, TallyOf(usage, ByRisk(links)), ForRisk(links))
    ensures HoldsOwn(usage, TallyOf(usage, ByTrade(links)), ForTrade(links))
  {
    hide HoldsOwn, TallyOf, Sum, Select;
    TallyHoldsOwn(usage, ByOpportunity(links), ForOpportunity(links));
    TallyHoldsOwn(usage, ByRisk(links), ForRisk(links));
    TallyHoldsOwn(usage, ByTrade(links), ForTrade(links));
  }
}
