/**
 The dashboard's in-memory read model (app/dashboard/store.py).  Its class invariant says that
 the bounded lists it serves are what an unbounded log of everything published would show.
 */
module DashboardStore {
  import opened Wrappers
  import opened Sequences
  import opened BoundedHistory

  /** An opportunity or a decision: its identity and the rest of its fields. */
  datatype Observation = Observation(systemId: string, opportunityId: string, content: string)

  datatype Event = Event(eventId: string, content: string)

  datatype System = System(systemId: string, mode: string, executionMode: string, liveExecution: bool, content: string)

  datatype Snapshot = Snapshot(
    readOnly: bool,
    liveExecution: bool,
    executionScope: string,
    systems: seq<System>,
    opportunities: seq<Observation>,
    decisions: seq<Observation>,
    events: seq<Event>,
    content: string)

  datatype StoreError =
    | NotReadOnly
    | LiveExecution
    | WrongScope
    | NotShadowOverPaper
    | LiveSystem
    | BadLimit

  function ByOpportunity(o: Observation): (string, string) { (o.systemId, o.opportunityId) }

  function ById(e: Event): string { e.eventId }

  // ---------------------------------------------------------------- what supersedes what

  /** The observations that no later one of the same system and opportunity supersedes, in order. */
  ghost function Unsuperseded(s: seq<Observation>): seq<Observation> {
    if s == [] then []
    else
      (if exists o | o in s[1..] :: o.systemId == s[0].systemId && o.opportunityId == s[0].opportunityId
       then [] else [s[0]])
      + Unsuperseded(s[1..])
  }

  /** The events that no later one of the same identifier supersedes, in order. */
  ghost function UnsupersededEvents(s: seq<Event>): seq<Event> {
    if s == [] then []
    else
      (if exists e | e in s[1..] :: e.eventId == s[0].eventId then [] else [s[0]]) + UnsupersededEvents(s[1..])
  }

  lemma {:induction false} LatestObservations(s: seq<Observation>)
    ensures Latest(s, ByOpportunity) == Unsuperseded(s)
  {
    if s != [] { LatestObservations(s[1..]); }
  }

  lemma {:induction false} LatestEvents(s: seq<Event>)
    ensures Latest(s, ById) == UnsupersededEvents(s)
  {
    if s != [] { LatestEvents(s[1..]); }
  }

  /** Of the observations `s`, number `i` is not superseded and fewer than `limit` later ones are kept. */
  ghost predicate StaysShown(s: seq<Observation>, i: nat, limit: nat)
    requires i < |s|
  {
    && (forall j | i < j < |s| :: !(s[j].systemId == s[i].systemId && s[j].opportunityId == s[i].opportunityId))
    && |Unsuperseded(s[i + 1..])| < limit
  }

  ghost predicate EventStaysShown(s: seq<Event>, i: nat, limit: nat)
    requires i < |s|
  {
    (forall j | i < j < |s| :: s[j].eventId != s[i].eventId) && |UnsupersededEvents(s[i + 1..])| < limit
  }

  /**
   An opportunity or decision is shown until a later one has both its system and its opportunity,
   or until `limit` later ones are.
   */
  lemma ObservationShownExactly(s: seq<Observation>, limit: nat, o: Observation)
    ensures o in TakeLast(Unsuperseded(s), limit) <==> exists i: nat | i < |s| :: s[i] == o && StaysShown(s, i, limit)
  {
    hide Latest, Unsuperseded, TakeLast;
    LatestObservations(s);
    ShownExactly(s, ByOpportunity, limit, o);
    forall i: nat | i < |s|
      ensures StaysShown(s, i, limit) <==> Newest(s, i, ByOpportunity) && |Latest(s[i + 1..], ByOpportunity)| < limit
    {
      LatestObservations(s[i + 1..]);
    }
  }

  lemma EventShownExactly(s: seq<Event>, limit: nat, e: Event)
    ensures e in TakeLast(UnsupersededEvents(s), limit) <==>
              exists i: nat | i < |s| :: s[i] == e && EventStaysShown(s, i, limit)
  {
    hide Latest, UnsupersededEvents, TakeLast;
    LatestEvents(s);
    ShownExactly(s, ById, limit, e);
    forall i: nat | i < |s|
      ensures EventStaysShown(s, i, limit) <==> Newest(s, i, ById) && |Latest(s[i + 1..], ById)| < limit
    {
      LatestEvents(s[i + 1..]);
    }
  }

  /** No two of them agree in both system and opportunity. */
  ghost predicate AllDiffer(s: seq<Observation>) {
    forall i, j | 0 <= i < j < |s| :: s[i].systemId != s[j].systemId || s[i].opportunityId != s[j].opportunityId
  }

  ghost predicate EventsDiffer(s: seq<Event>) {
    forall i, j | 0 <= i < j < |s| :: s[i].eventId != s[j].eventId
  }

  lemma DistinctDiffer(s: seq<Observation>, e: seq<Event>)
    ensures DistinctKeys(s, ByOpportunity) ==> AllDiffer(s)
    ensures DistinctKeys(e, ById) ==> EventsDiffer(e)
  {
    if DistinctKeys(s, ByOpportunity) {
      forall i, j | 0 <= i < j < |s|
        ensures s[i].systemId != s[j].systemId || s[i].opportunityId != s[j].opportunityId
      {
        assert ByOpportunity(s[i]) != ByOpportunity(s[j]);
      }
    }
    if DistinctKeys(e, ById) {
      forall i, j | 0 <= i < j < |e| ensures e[i].eventId != e[j].eventId {
        assert ById(e[i]) != ById(e[j]);
      }
    }
  }

  // ---------------------------------------------------------------- what may be published

  function SystemFault(s: System): Option<StoreError> {
    if s.mode != "SHADOW" || s.executionMode != "PAPER" then Some(NotShadowOverPaper)
    else if s.liveExecution then Some(LiveSystem)
    else None
  }

  function SystemsFault(systems: seq<System>): Option<StoreError> {
    if systems == [] then None
    else if SystemFault(systems[0]).Some? then SystemFault(systems[0])
    else SystemsFault(systems[1..])
  }

  /** `_validate_observation_only`: the first rule a snapshot breaks. */
  function Fault(s: Snapshot): Option<StoreError> {
    if !s.readOnly then Some(NotReadOnly)
    else if s.liveExecution then Some(LiveExecution)
    else if s.executionScope != "PAPER_SHADOW_ONLY" then Some(WrongScope)
    else SystemsFault(s.systems)
  }

  predicate Observes(s: System) {
    s.mode == "SHADOW" && s.executionMode == "PAPER" && !s.liveExecution
  }

  /** Exactly the snapshots that observe shadow systems over paper execution pass. */
  lemma OnlyObservationsPass(s: Snapshot)
    ensures Fault(s).None? <==>
              && s.readOnly && !s.liveExecution && s.executionScope == "PAPER_SHADOW_ONLY"
              && forall x | x in s.systems :: x.mode == "SHADOW" && x.executionMode == "PAPER" && !x.liveExecution
    ensures Fault(s).Some? ==> Breaks(s, Fault(s).value)
  {
    hide SystemFault, SystemsFault, Breaks;
    SystemsPass(s.systems);
    if Fault(s).Some? { BrokenRule(s); }
  }

  lemma BrokenRule(s: Snapshot)
    requires Fault(s).Some?
    ensures Breaks(s, Fault(s).value)
  {
    if s.readOnly && !s.liveExecution && s.executionScope == "PAPER_SHADOW_ONLY" {
      SystemsPass(s.systems);
      hide SystemsFault, Observes;
      var i :| 0 <= i < |s.systems| && FirstUnfit(s.systems, i) && SystemFault(s.systems[i]) == SystemsFault(s.systems);
    }
  }

  /** What each refusal says: the rules before it hold and this one does not. */
  ghost predicate Breaks(s: Snapshot, e: StoreError) {
    match e
    case NotReadOnly => !s.readOnly
    case LiveExecution => s.readOnly && s.liveExecution
    case WrongScope => s.readOnly && !s.liveExecution && s.executionScope != "PAPER_SHADOW_ONLY"
    case NotShadowOverPaper =>
      && s.readOnly && !s.liveExecution && s.executionScope == "PAPER_SHADOW_ONLY"
      && exists i | 0 <= i < |s.systems| ::
           && FirstUnfit(s.systems, i) && (s.systems[i].mode != "SHADOW" || s.systems[i].executionMode != "PAPER")
    case LiveSystem =>
      && s.readOnly && !s.liveExecution && s.executionScope == "PAPER_SHADOW_ONLY"
      && exists i | 0 <= i < |s.systems| ::
           && FirstUnfit(s.systems, i) && s.systems[i].liveExecution
           && s.systems[i].mode == "SHADOW" && s.systems[i].executionMode == "PAPER"
    case BadLimit => false
  }

  ghost predicate FirstUnfit(systems: seq<System>, i: nat)
    requires i < |systems|
  {
    !Observes(systems[i]) && forall j | 0 <= j < i :: Observes(systems[j])
  }

  lemma SystemFaultExactly(s: System)
    ensures SystemFault(s).None? <==> Observes(s)
    ensures SystemFault(s) == Some(NotShadowOverPaper) <==> s.mode != "SHADOW" || s.executionMode != "PAPER"
    ensures SystemFault(s).Some? ==> SystemFault(s).value.NotShadowOverPaper? || SystemFault(s).value.LiveSystem?
  {
  }

  lemma {:induction false} SystemsPass(systems: seq<System>)
    ensures SystemsFault(systems).None? <==> forall x | x in systems :: Observes(x)
    ensures SystemsFault(systems).Some? ==>
              exists i | 0 <= i < |systems| ::
                FirstUnfit(systems, i) && SystemFault(systems[i]) == SystemsFault(systems)
    ensures SystemsFault(systems).Some? ==>
              SystemsFault(systems).value.NotShadowOverPaper? || SystemsFault(systems).value.LiveSystem?
  {
    hide SystemFault, Observes;
    if systems != [] {
      var rest := systems[1..];
      SystemFaultExactly(systems[0]);
      SystemsPass(rest);
      assert systems == [systems[0]] + rest;
      if SystemFault(systems[0]).None? && SystemsFault(rest).Some? {
        var i :| 0 <= i < |rest| && FirstUnfit(rest, i) && SystemFault(rest[i]) == SystemsFault(rest);
        forall j | 0 <= j < i + 1 ensures Observes(systems[j]) {
          if j > 0 { assert systems[j] == rest[j - 1]; }
        }
        assert FirstUnfit(systems, i + 1);
      }
    }
  }

  // ---------------------------------------------------------------- the unbounded log

  /** Everything listed so far: the initial list, then every published one. */
  ghost function Logged<T>(initial: seq<T>, published: seq<Snapshot>, list: Snapshot -> seq<T>): seq<T> {
    if published == [] then initial else Logged(initial, Init(published), list) + list(Last(published))
  }

  /** What a store that never cuts its lists would show: the newest entry of each key, the last `limit` of them. */
  ghost function Shown<T, K>(
    initial: seq<T>, published: seq<Snapshot>, list: Snapshot -> seq<T>, key: T -> K, limit: nat): seq<T>
  {
    if published == [] then initial else TakeLast(Latest(Logged(initial, published, list), key), limit)
  }

  /** Merging one more snapshot into the bounded list keeps it in step with the unbounded log. */
  lemma ShownStep<T, K>(
    initial: seq<T>, published: seq<Snapshot>, s: Snapshot, list: Snapshot -> seq<T>, key: T -> K, limit: nat)
    ensures TakeLast(Latest(Shown(initial, published, list, key, limit) + list(s), key), limit)
            == Shown(initial, published + [s], list, key, limit)
  {
    assert Init(published + [s]) == published;
    CutEarlyOrLate(Logged(initial, published, list), list(s), key, limit);
  }

  function Opportunities(s: Snapshot): seq<Observation> { s.opportunities }
  function Decisions(s: Snapshot): seq<Observation> { s.decisions }
  function Events(s: Snapshot): seq<Event> { s.events }

  lemma Differ(s: seq<Observation>, limit: nat)
    ensures Latest(s, ByOpportunity) == Unsuperseded(s)
    ensures AllDiffer(TakeLast(Unsuperseded(s), limit))
  {
    LatestObservations(s);
    ShownAreDistinct(s, ByOpportunity, limit);
    DistinctDiffer(TakeLast(Latest(s, ByOpportunity), limit), []);
  }

  lemma DifferEvents(s: seq<Event>, limit: nat)
    ensures Latest(s, ById) == UnsupersededEvents(s)
    ensures EventsDiffer(TakeLast(UnsupersededEvents(s), limit))
  {
    LatestEvents(s);
    ShownAreDistinct(s, ById, limit);
    DistinctDiffer([], TakeLast(Latest(s, ById), limit));
  }

  lemma FaultIgnoresLists(s: Snapshot, opportunities: seq<Observation>, decisions: seq<Observation>, events: seq<Event>)
    ensures Fault(s.(opportunities := opportunities, decisions := decisions, events := events)) == Fault(s)
  {
  }

  class Store {
    const historyLimit: nat
    const eventLimit: nat
    var snapshot: Snapshot

    /** The snapshot the store began with, and every snapshot accepted since. */
    ghost const initial: Snapshot
    ghost var published: seq<Snapshot>

    ghost predicate Valid()
      reads this
    {
      && historyLimit >= 1 && eventLimit >= 1
      && Fault(snapshot).None?
      && snapshot.opportunities == Shown(initial.opportunities, published, Opportunities, ByOpportunity, historyLimit)
      && snapshot.decisions == Shown(initial.decisions, published, Decisions, ByOpportunity, historyLimit)
      && snapshot.events == Shown(initial.events, published, Events, ById, eventLimit)
      && var latest := if published == [] then initial else Last(published);
         snapshot == latest.(opportunities := snapshot.opportunities, decisions := snapshot.decisions,
                             events := snapshot.events)
    }

    constructor (initial: Snapshot, historyLimit: nat, eventLimit: nat)
      requires historyLimit >= 1 && eventLimit >= 1 && Fault(initial).None?
      ensures Valid() && snapshot == initial == this.initial && published == []
      ensures this.historyLimit == historyLimit && this.eventLimit == eventLimit
    {
      this.historyLimit, this.eventLimit, this.initial := historyLimit, eventLimit, initial;
      snapshot, published := initial, [];
    }

    /** `publish`: rejected snapshots change nothing; accepted ones are merged and then served. */
    method Publish(s: Snapshot) returns (r: Result<(), StoreError>)
      requires Valid()
      modifies this
      ensures Valid()
      ensures r.Ok? <==>
                && s.readOnly && !s.liveExecution && s.executionScope == "PAPER_SHADOW_ONLY"
                && forall x | x in s.systems :: x.mode == "SHADOW" && x.executionMode == "PAPER" && !x.liveExecution
      ensures r.Err? ==> unchanged(this) && Breaks(s, r.error)
      ensures r.Ok? ==> published == old(published) + [s]
      ensures r.Ok? ==>
                var before := old(snapshot);
                snapshot == s.(
                  opportunities := TakeLast(Unsuperseded(before.opportunities + s.opportunities), historyLimit),
                  decisions := TakeLast(Unsuperseded(before.decisions + s.decisions), historyLimit),
                  events := TakeLast(UnsupersededEvents(before.events + s.events), eventLimit))
      ensures r.Ok? ==> AllDiffer(snapshot.opportunities) && AllDiffer(snapshot.decisions) && EventsDiffer(snapshot.events)
    {
      hide Shown, Latest, TakeLast, Unsuperseded, UnsupersededEvents, AllDiffer, EventsDiffer, Breaks, DistinctKeys, Fault;
      OnlyObservationsPass(s);
      Differ(snapshot.opportunities + s.opportunities, historyLimit);
      Differ(snapshot.decisions + s.decisions, historyLimit);
      DifferEvents(snapshot.events + s.events, eventLimit);
      var fault := Fault(s);
      if fault.Some? { return Err(fault.value); }
      var previous := snapshot;
      var opportunities := MergeBounded(previous.opportunities, s.opportunities, ByOpportunity, historyLimit);
      var decisions := MergeBounded(previous.decisions, s.decisions, ByOpportunity, historyLimit);
      var events := MergeBounded(previous.events, s.events, ById, eventLimit);
      var merged := s.(opportunities := opportunities, decisions := decisions, events := events);
      ShownStep(initial.opportunities, published, s, Opportunities, ByOpportunity, historyLimit);
      ShownStep(initial.decisions, published, s, Decisions, ByOpportunity, historyLimit);
      ShownStep(initial.events, published, s, Events, ById, eventLimit);
      // The second validation, of the merged snapshot, can never fail.
      FaultIgnoresLists(s, opportunities, decisions, events);
      assert Fault(merged) == Fault(s);
      snapshot := merged;
      published := published + [s];
      return Ok(());
    }

    /** `get`. */
    method Get() returns (s: Snapshot)
      requires Valid()
      ensures s == snapshot && Fault(s).None?
      ensures published != [] ==>
                && |s.opportunities| <= historyLimit && |s.decisions| <= historyLimit && |s.events| <= eventLimit
                && AllDiffer(s.opportunities) && AllDiffer(s.decisions) && EventsDiffer(s.events)
    {
      hide Latest, Unsuperseded, UnsupersededEvents, AllDiffer, EventsDiffer;
      Differ(Logged(initial.opportunities, published, Opportunities), historyLimit);
      Differ(Logged(initial.decisions, published, Decisions), historyLimit);
      DifferEvents(Logged(initial.events, published, Events), eventLimit);
      return snapshot;
    }
  }

  /** The constructor as callers see it. */
  method Create(initial: Snapshot, historyLimit: int, eventLimit: int) returns (r: Result<Store, StoreError>)
    ensures r.Ok? <==> historyLimit >= 1 && eventLimit >= 1 && Fault(initial).None?
    ensures r.Ok? ==> fresh(r.value) && r.value.Valid() && r.value.initial == initial && r.value.published == []
    ensures r.Ok? ==> r.value.historyLimit == historyLimit && r.value.eventLimit == eventLimit
  {
    if historyLimit < 1 || eventLimit < 1 { return Err(BadLimit); }
    var fault := Fault(initial);
    if fault.Some? { return Err(fault.value); }
    var store := new Store(initial, historyLimit, eventLimit);
    return Ok(store);
  }
}
