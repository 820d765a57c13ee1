/**
 The campaign lifecycle of app/dashboard/backtest.py as a state machine.  Everything between two
 awaits is one step, so any interleaving of operator requests with the background run is a
 sequence of the events below.  An event that cannot happen in a state leaves it unchanged.
 */
module Campaigns {
  import opened Wrappers
  import opened Reals
  import opened Sequences

  datatype Status = Queued | Running | CancelRequested | Completed | Failed | Cancelled

  /** Where the background run of a campaign stands; `Finalizing(k)` has passed `k` of the role checks. */
  datatype Stage = Created | Preparing | Replaying | Finalizing(checked: nat) | Ended

  /** DESIGN, VALIDATION and OOS. */
  const ROLES := 3

  datatype Runtime = Runtime(
    status: Status,
    phase: string,
    percent: real,
    workDone: int,
    totalWork: nat,
    lastProgress: int,
    cancelSet: bool,
    resultAvailable: bool,
    stage: Stage)

  const NEW_RUNTIME := Runtime(Queued, "QUEUED", 0.0, 0, 0, 0, false, false, Created)

  /** `issued` are the ids handed out so far; uuid4 never repeats one. */
  datatype State = State(
    limit: nat, records: map<string, Runtime>, order: seq<string>, active: Option<string>, issued: set<string>)

  datatype Event =
    | Start(id: string)
    | Begin(id: string)
    | Prepare(id: string, totalWork: nat)
    | StartRunner(id: string, role: string)
    | Progress(id: string, done: int)
    | Checkpoint(id: string)
    | StartFinalizing(id: string)
    | CheckRole(id: string)
    | Complete(id: string)
    | Fail(id: string)
    | Cancel(id: string)

  predicate Terminal(r: Runtime) { r.status in {Completed, Failed, Cancelled} }

  // ---------------------------------------------------------------- steps of one campaign

  function Percentage(done: int, total: nat): real
    requires total > 0
  {
    done as real / total as real * 100.0
  }

  function Began(r: Runtime): Runtime {
    r.(status := Running, phase := "PREPARING", stage := Preparing)
  }

  function Prepared(r: Runtime, totalWork: nat): Runtime {
    r.(totalWork := totalWork, workDone := 0, percent := 0.0, phase := "DESIGN", stage := Replaying)
  }

  /** `on_progress`. */
  function Progressed(r: Runtime, done: int): Runtime {
    var delta := if done > r.lastProgress then done - r.lastProgress else 0;
    var work := r.workDone + delta;
    r.(lastProgress := done, workDone := work,
       percent := if r.totalWork > 0 then Max(r.percent, Min(99.0, Percentage(work, r.totalWork))) else r.percent)
  }

  function BeganFinalizing(r: Runtime): Runtime {
    r.(phase := "FINALIZING", percent := Max(r.percent, 99.0), stage := Finalizing(0))
  }

  function Ending(r: Runtime, status: Status, phase: string): Runtime {
    r.(status := status, phase := phase, stage := Ended)
  }

  /** The three ways out of the background run. */
  function EndedCancelled(r: Runtime): Runtime { Ending(r, Cancelled, "CANCELLED") }
  function EndedFailed(r: Runtime): Runtime { Ending(r, Failed, "FAILED") }
  function EndedCompleted(r: Runtime): Runtime {
    Ending(r, Completed, "COMPLETED").(percent := 100.0, resultAvailable := true)
  }

  /** `cancel_campaign`. */
  function CancelAsked(r: Runtime): Runtime {
    if r.status == Queued || r.status == Running
    then r.(cancelSet := true, status := CancelRequested, phase := "CANCEL_REQUESTED")
    else r
  }

  /** The step an event makes the named campaign take. */
  function Moved(r: Runtime, e: Event): Runtime {
    match e
    case Start(_) => r
    case Begin(_) => if r.stage.Created? then Began(r) else r
    case Prepare(_, total) => if r.stage.Preparing? then Prepared(r, total) else r
    case StartRunner(_, role) => if r.stage.Replaying? then r.(lastProgress := 0, phase := role) else r
    case Progress(_, done) => if r.stage.Replaying? then Progressed(r, done) else r
    case Checkpoint(_) => if r.stage.Replaying? && r.cancelSet then EndedCancelled(r) else r
    case StartFinalizing(_) => if r.stage.Replaying? then BeganFinalizing(r) else r
    case CheckRole(_) =>
      if r.stage.Finalizing? && r.stage.checked < ROLES
      then if r.cancelSet then EndedCancelled(r) else r.(phase := "FINALIZING", stage := Finalizing(r.stage.checked + 1))
      else r
    case Complete(_) => if r.stage == Finalizing(ROLES) then EndedCompleted(r) else r
    case Fail(_) => if !r.stage.Created? && !r.stage.Ended? then EndedFailed(r) else r
    case Cancel(_) => CancelAsked(r)
  }

  // ---------------------------------------------------------------- steps of the service

  /** The eviction loop of `_store_progress`. */
  function Trim(s: State): State
    decreases |s.order|
  {
    if |s.order| <= s.limit then s
    else
      var removed := s.order[0];
      Trim(s.(order := s.order[1..], records := if s.active == Some(removed) then s.records else s.records - {removed}))
  }

  predicate Busy(s: State) {
    s.active.Some? && s.active.value in s.records && !Terminal(s.records[s.active.value])
  }

  function Started(s: State, id: string): State {
    if Busy(s) || id in s.issued then s
    else
      Trim(Grown(s, id)).(active := Some(id))
  }

  function Step(s: State, e: Event): State {
    if e.Start? then Started(s, e.id)
    else if e.id !in s.records then s
    else
      var r := Moved(s.records[e.id], e);
      s.(records := s.records[e.id := r],
         active := if Terminal(r) && !Terminal(s.records[e.id]) && s.active == Some(e.id) then None else s.active)
  }

  function Run(s: State, events: seq<Event>): State {
    if events == [] then s else Step(Run(s, Init(events)), Last(events))
  }

  /** What a replaying campaign shows: the work done so far, held below the final 99. */
  function ShownPercentage(r: Runtime): real {
    if r.totalWork > 0 then Min(99.0, Percentage(r.workDone, r.totalWork)) else 0.0
  }

  lemma PercentageGrows(a: int, b: int, total: nat)
    requires 0 <= a <= b && total > 0
    ensures Percentage(0, total) == 0.0 <= Percentage(a, total) <= Percentage(b, total)
  {
    var whole := total as real;
    assert 0.0 / whole <= a as real / whole <= b as real / whole;
  }

  // ---------------------------------------------------------------- what always holds

  /** What a runtime may look like. */
  predicate Sound(r: Runtime) {
    && 0.0 <= r.percent <= 100.0
    && (r.percent == 100.0 <==> r.status == Completed)
    && (r.resultAvailable <==> r.status == Completed)
    && (r.percent > 99.0 ==> r.status == Completed)
    && (Terminal(r) <==> r.stage.Ended?)
    && (r.status == Queued ==> r.stage.Created?)
    && (r.stage.Created? || r.stage.Preparing? ==> r.percent == 0.0 && r.workDone == 0)
    && r.workDone >= 0
    && (r.status == CancelRequested || r.status == Cancelled ==> r.cancelSet)
    && (r.stage.Finalizing? ==> r.percent == 99.0 && r.stage.checked <= ROLES)
    && (r.stage.Replaying? ==> r.percent == ShownPercentage(r))
  }

  ghost predicate Inv(s: State) {
    && s.limit >= 1 && |s.order| <= s.limit && Listed(s.order, s.records)
    && (forall id | id in s.records :: id in s.issued && Sound(s.records[id]))
    && (forall id | id in s.records :: s.active == Some(id) <==> !Terminal(s.records[id]))
    && (s.active.Some? ==> s.active.value in s.records)
  }

  lemma MovedIsSound(r: Runtime, e: Event)
    requires Sound(r)
    ensures Sound(Moved(r, e))
  {
    hide Percentage;
    if e.Prepare? && e.totalWork > 0 { PercentageGrows(0, 0, e.totalWork); }
    if e.Progress? && r.stage.Replaying? && r.totalWork > 0 {
      PercentageGrows(r.workDone, Progressed(r, e.done).workDone, r.totalWork);
    }
  }

  /** The order lists exactly the retained campaigns. */
  ghost predicate Listed(order: seq<string>, records: map<string, Runtime>) {
    NoRepeats(order) && forall id :: id in order <==> id in records
  }

  lemma DropFirst(order: seq<string>, records: map<string, Runtime>)
    requires Listed(order, records) && order != []
    ensures Listed(order[1..], records - {order[0]})
  {
    assert order == [order[0]] + order[1..];
  }

  lemma {:induction false} TrimSpec(s: State)
    requires Listed(s.order, s.records) && s.active.None?
    ensures var t := Trim(s);
            && t.limit == s.limit && t.active == s.active && t.issued == s.issued
            && t.order == (if |s.order| <= s.limit then s.order else s.order[|s.order| - s.limit..])
            && Listed(t.order, t.records)
            && (forall id | id in t.records :: id in s.records && t.records[id] == s.records[id])
    decreases |s.order|
  {
    if |s.order| > s.limit {
      DropFirst(s.order, s.records);
      hide Listed;
      TrimSpec(s.(order := s.order[1..], records := s.records - {s.order[0]}));
    }
  }

  function Grown(s: State, id: string): State {
    s.(records := s.records[id := NEW_RUNTIME], order := s.order + [id], issued := s.issued + {id})
  }

  /** What starting a campaign does when nothing is active. */
  lemma StartBasics(s: State, id: string)
    requires Listed(s.order, s.records) && s.active.None? && id !in s.records && s.limit >= 1
    ensures var t := Trim(Grown(s, id));
            && t.limit == s.limit && t.issued == s.issued + {id} && |t.order| <= s.limit && Listed(t.order, t.records)
            && id in t.records && t.records[id] == NEW_RUNTIME
            && (forall k | k in t.records && k != id :: k in s.records && t.records[k] == s.records[k])
  {
    GrownIsListed(s, id);
    var grown := Grown(s, id);
    TrimSpec(grown);
    assert Last(Trim(grown).order) == id;
  }

  lemma StartOrder(s: State, id: string)
    requires Listed(s.order, s.records) && s.active.None? && id !in s.records
    ensures var all := s.order + [id];
            Trim(Grown(s, id)).order == if |all| <= s.limit then all else all[|all| - s.limit..]
  {
    GrownIsListed(s, id);
    hide Trim, Listed, Grown, NoRepeats;
    TrimSpec(Grown(s, id));
  }

  lemma GrownIsListed(s: State, id: string)
    requires Listed(s.order, s.records) && id !in s.records
    ensures var g := Grown(s, id);
            && Listed(g.order, g.records) && g.order == s.order + [id] && g.limit == s.limit && g.active == s.active
  {
  }

  /** The new campaign is retained, and only the oldest ones over the limit make room for it. */
  lemma StartSpec(s: State, id: string)
    requires Inv(s) && !Busy(s) && id !in s.issued
    ensures var t, all := Started(s, id), s.order + [id];
            && t.active == Some(id) && id in t.records && t.records[id] == NEW_RUNTIME
            && t.order == (if |all| <= s.limit then all else all[|all| - s.limit..])
            && Listed(t.order, t.records)
            && (forall k | k in t.records && k != id :: k in s.records && t.records[k] == s.records[k])
  {
    hide Trim, Listed, Grown, Sound;
    StartBasics(s, id);
    StartOrder(s, id);
  }

  lemma StartKeepsInv(s: State, id: string)
    requires Inv(s)
    ensures Inv(Started(s, id))
  {
    if !Busy(s) && id !in s.issued {
      StartBasics(s, id);
      hide Trim, Listed, NoRepeats;
    }
  }

  lemma StepKeepsInv(s: State, e: Event)
    requires Inv(s)
    ensures Inv(Step(s, e))
  {
    if e.Start? {
      StartKeepsInv(s, e.id);
    } else if e.id in s.records {
      MovedIsSound(s.records[e.id], e);
      StaysEnded(s.records[e.id], e);
      hide Moved, Sound;
    }
  }

  /** A finished campaign never changes again. */
  lemma StaysEnded(r: Runtime, e: Event)
    requires Sound(r)
    ensures Terminal(r) ==> Moved(r, e) == r
  {
  }

  lemma {:induction false} RunKeepsInv(s: State, events: seq<Event>)
    requires Inv(s)
    ensures Inv(Run(s, events))
  {
    if events != [] {
      RunKeepsInv(s, Init(events));
      StepKeepsInv(Run(s, Init(events)), Last(events));
    }
  }

  /** At most one campaign is unfinished, over every interleaving. */
  lemma OneUnfinished(s: State, events: seq<Event>, a: string, b: string)
    requires Inv(s)
    requires var t := Run(s, events);
             a in t.records && b in t.records && !Terminal(t.records[a]) && !Terminal(t.records[b])
    ensures a == b
  {
    RunKeepsInv(s, events);
  }

  // ---------------------------------------------------------------- how a campaign may evolve

  /** Cancellation was requested before the last point at which it is checked. */
  predicate Doomed(r: Runtime) {
    r.cancelSet && !r.stage.Ended? && r.stage != Finalizing(ROLES)
  }

  predicate Evolves(a: Runtime, b: Runtime) {
    && a.percent <= b.percent
    && a.workDone <= b.workDone
    && (Terminal(a) ==> b == a)
    && (a.cancelSet ==> b.cancelSet)
    && (b.status == Cancelled ==> b.cancelSet)
    && (Doomed(a) ==> Doomed(b) || b.status == Failed || b.status == Cancelled)
  }

  lemma MoveEvolves(r: Runtime, e: Event)
    requires Sound(r)
    ensures Evolves(r, Moved(r, e))
  {
    hide Percentage;
  }

  lemma Unchanged(r: Runtime)
    requires Sound(r)
    ensures Evolves(r, r)
  {
  }

  lemma EvolvesOn(a: Runtime, b: Runtime, c: Runtime)
    requires Evolves(a, b) && Evolves(b, c)
    ensures Evolves(a, c)
  {
  }

  lemma StepOfRecord(s: State, e: Event, id: string)
    requires Inv(s) && id in s.issued && id in Step(s, e).records
    ensures id in s.records && Evolves(s.records[id], Step(s, e).records[id])
    ensures id in Step(s, e).issued
  {
    if id in s.records { Unchanged(s.records[id]); }
    hide Evolves, Sound, Moved;
    if e.Start? {
      if !Busy(s) && e.id !in s.issued {
        StartBasics(s, e.id);
      }
    } else if e.id in s.records {
      MoveEvolves(s.records[e.id], e);
    }
  }

  lemma {:induction false} IssuedStay(s: State, events: seq<Event>, id: string)
    requires Inv(s) && id in s.issued
    ensures id in Run(s, events).issued
  {
    if events != [] {
      IssuedStay(s, Init(events), id);
      RunKeepsInv(s, Init(events));
      IssuedStep(Run(s, Init(events)), Last(events));
    }
  }

  lemma IssuedStep(s: State, e: Event)
    requires Inv(s)
    ensures s.issued <= Step(s, e).issued
  {
    if e.Start? && !Busy(s) && e.id !in s.issued {
      StartBasics(s, e.id);
    }
  }

  /**
   Over every interleaving, as long as a campaign is retained: its percentage never decreases, its
   end is final, a requested cancellation stays requested, and cancelling in time prevents completion.
   */
  lemma {:induction false} RunEvolves(s: State, events: seq<Event>, id: string)
    requires Inv(s) && id in s.issued && id in Run(s, events).records
    ensures id in s.records && Evolves(s.records[id], Run(s, events).records[id])
  {
    if events == [] {
      Unchanged(s.records[id]);
    } else {
      var t := Run(s, Init(events));
      RunKeepsInv(s, Init(events));
      IssuedStay(s, Init(events), id);
      hide Step, Inv, Evolves;
      StepOfRecord(t, Last(events), id);
      RunEvolves(s, Init(events), id);
      EvolvesOn(s.records[id], t.records[id], Run(s, events).records[id]);
    }
  }

  /** What the operator can rely on, in terms of the statuses and percentages shown. */
  lemma ShownProgressIsFaithful(s: State, before: seq<Event>, after: seq<Event>, id: string)
    requires Inv(s)
    requires id in Run(s, before).records && id in Run(Run(s, before), after).records
    ensures var a, b := Run(s, before).records[id], Run(Run(s, before), after).records[id];
            && 0.0 <= a.percent <= b.percent <= 100.0
            && (b.percent == 100.0 <==> b.status == Completed) && (b.resultAvailable <==> b.status == Completed)
            && (Terminal(a) ==> b == a)
            && (a.cancelSet && !a.stage.Ended? && a.stage != Finalizing(ROLES) ==> b.status != Completed)
            && (b.status == Cancelled ==> b.cancelSet)
  {
    RunKeepsInv(s, before);
    var t := Run(s, before);
    RunEvolves(t, after, id);
    RunKeepsInv(t, after);
    hide Run;
  }

  /** Cancelling a queued campaign is overwritten by its start, but the request itself survives. */
  lemma QueuedCancellationSurvives(r: Runtime, id: string)
    requires r.status == Queued && Sound(r)
    ensures var t := Moved(Moved(r, Cancel(id)), Begin(id)); t.status == Running && t.cancelSet && Doomed(t)
  {
  }

  /** A shown cancellation is displaced only by the campaign's end, or by its start when it was still queued. */
  lemma CancellationShownExactly(r: Runtime, e: Event)
    requires Sound(r) && r.status == CancelRequested
    ensures var t := Moved(r, e);
            (t.status == CancelRequested || Terminal(t)) <==> !(e.Begin? && r.stage.Created?)
  {
    hide Percentage;
  }

  predicate KeepsShowing(r: Runtime) { r.status == CancelRequested || Terminal(r) }

  lemma {:induction false} CancellationStaysShown(s: State, events: seq<Event>, id: string)
    requires Inv(s) && id in s.records && id in Run(s, events).records
    requires KeepsShowing(s.records[id]) && !s.records[id].stage.Created?
    ensures KeepsShowing(Run(s, events).records[id]) && !Run(s, events).records[id].stage.Created?
  {
    if events != [] {
      var t, e := Run(s, Init(events)), Last(events);
      RunKeepsInv(s, Init(events));
      IssuedStay(s, Init(events), id);
      StepOfRecord(t, e, id);
      CancellationStaysShown(s, Init(events), id);
      ShownStep(t, e, id);
    }
  }

  lemma ShownStep(s: State, e: Event, id: string)
    requires Inv(s) && id in s.records && id in Step(s, e).records
    requires KeepsShowing(s.records[id]) && !s.records[id].stage.Created?
    ensures KeepsShowing(Step(s, e).records[id]) && !Step(s, e).records[id].stage.Created?
  {
    hide Percentage;
    if e.Start? {
      if !Busy(s) && e.id !in s.issued { StartBasics(s, e.id); }
    }
  }

  /** Over every run a shown cancellation lasts to the end exactly when the campaign had begun. */
  lemma CancellationLastsExactly(s: State, id: string)
    requires Inv(s) && id in s.records && s.records[id].status == CancelRequested
    ensures (forall events | id in Run(s, events).records :: KeepsShowing(Run(s, events).records[id]))
            <==> !s.records[id].stage.Created?
  {
    if s.records[id].stage.Created? {
      var events := [Begin(id)];
      assert Init(events) == [] && Run(s, []) == s;
      assert Run(s, events) == Step(s, Begin(id));
      assert !KeepsShowing(Run(s, events).records[id]);
    } else {
      forall events | id in Run(s, events).records ensures KeepsShowing(Run(s, events).records[id]) {
        CancellationStaysShown(s, events, id);
      }
    }
  }

  // ---------------------------------------------------------------- what brings a status about

  predicate Caused(a: Runtime, b: Runtime, e: Event) {
    && (b.status != a.status ==>
          match b.status
          case Queued => false
          case Running => e.Begin?
          case CancelRequested => e.Cancel?
          case Completed => e.Complete?
          case Failed => e.Fail?
          case Cancelled => e.Checkpoint? || e.CheckRole?)
    && (b.cancelSet && !a.cancelSet ==> e.Cancel?)
  }

  lemma MoveIsCaused(r: Runtime, e: Event)
    ensures Caused(r, Moved(r, e), e)
  {
  }

  lemma StepIsCaused(s: State, e: Event, id: string)
    requires Inv(s) && id in Step(s, e).records
    ensures id in s.records ==>
              s.records[id] == Step(s, e).records[id] || (e.id == id && Caused(s.records[id], Step(s, e).records[id], e))
    ensures id !in s.records ==> e == Start(id) && Step(s, e).records[id].status == Queued
                                 && !Step(s, e).records[id].cancelSet
  {
    if e.Start? {
      if !Busy(s) && e.id !in s.issued { StartBasics(s, e.id); }
    } else if e.id in s.records {
      MoveIsCaused(s.records[e.id], e);
    }
    hide Moved, Caused, Sound, Trim;
  }

  /** The events among which the one that gave a campaign its present status must be. */
  ghost predicate Explains(earlier: Option<Runtime>, events: seq<Event>, id: string, now: Runtime) {
    && (now.status == Completed ==> Complete(id) in events || (earlier.Some? && earlier.value.status == Completed))
    && (now.status == Failed ==> Fail(id) in events || (earlier.Some? && earlier.value.status == Failed))
    && (now.status == Cancelled ==>
          Checkpoint(id) in events || CheckRole(id) in events || (earlier.Some? && earlier.value.status == Cancelled))
    && (now.cancelSet ==> Cancel(id) in events || (earlier.Some? && earlier.value.cancelSet))
  }

  ghost function Recorded(s: State, id: string): Option<Runtime> {
    if id in s.records then Some(s.records[id]) else None
  }

  /**
   Over every interleaving a campaign is shown as completed, failed or cancelled only if it was so at the
   start or the run reported exactly that, and as cancelled or asked to cancel only if someone asked.
   */
  lemma {:induction false} EndsAreCaused(s: State, events: seq<Event>, id: string)
    requires Inv(s) && id in Run(s, events).records
    ensures Explains(Recorded(s, id), events, id, Run(s, events).records[id])
  {
    if events != [] {
      var u, e := Init(events), Last(events);
      assert events == u + [e];
      RunKeepsInv(s, u);
      StepIsCaused(Run(s, u), e, id);
      if id in Run(s, u).records { EndsAreCaused(s, u, id); }
      hide Step, Inv, Run;
    }
  }

  /** A campaign whose cancellation was requested in time ends cancelled, unless its run failed first. */
  lemma CancelledUnlessFailed(s: State, after: seq<Event>, id: string)
    requires Inv(s) && id in s.records && id in Run(s, after).records
    requires s.records[id].cancelSet && !s.records[id].stage.Ended? && s.records[id].stage != Finalizing(3)
    ensures var now := Run(s, after).records[id];
            && now.status != Completed
            && (now.stage.Ended? ==> now.status == Cancelled || (now.status == Failed && Fail(id) in after))
  {
    assert Sound(s.records[id]);
    RunEvolves(s, after, id);
    RunKeepsInv(s, after);
    EndsAreCaused(s, after, id);
    assert Sound(Run(s, after).records[id]);
    hide Run, Inv;
  }

  /** A pending cancellation stops the run at its next checkpoint, or before the next of the three role checks. */
  lemma CheckpointsCancel(r: Runtime, id: string)
    requires Sound(r) && r.cancelSet
    ensures r.stage.Replaying? ==> Moved(r, Checkpoint(id)) == r.(status := Cancelled, phase := "CANCELLED", stage := Ended)
    ensures r.stage.Finalizing? && r.stage.checked < 3 ==>
              Moved(r, CheckRole(id)) == r.(status := Cancelled, phase := "CANCELLED", stage := Ended)
  {
  }

  /** A run completes exactly when all three roles were finalised. */
  lemma CompletesExactly(r: Runtime, id: string)
    requires Sound(r) && r.status != Completed
    ensures Moved(r, Complete(id)).status == Completed <==> r.stage == Finalizing(3)
  {
  }

  // ---------------------------------------------------------------- the service

  /**
   What a progress report changes: the work done grows by what the runner moved forward, and the
   percentage is that work's share of the total, held at 99 until the campaign completes.
   */
  predicate Reported(before: Runtime, after: Runtime, done: int) {
    && after == before.(lastProgress := done, workDone := after.workDone, percent := after.percent)
    && after.workDone == before.workDone + (if done > before.lastProgress then done - before.lastProgress else 0)
    && before.percent <= after.percent <= 99.0
    && if before.totalWork == 0 then after.percent == before.percent
       else if 100 * after.workDone >= 99 * before.totalWork then after.percent == 99.0
       else after.percent * before.totalWork as real == 100.0 * after.workDone as real
  }

  lemma ProgressIsReported(r: Runtime, done: int)
    requires Sound(r) && r.stage.Replaying?
    ensures Reported(r, Progressed(r, done), done)
  {
    var after := Progressed(r, done);
    MovedIsSound(r, Progress("", done));
    MoveEvolves(r, Progress("", done));
    assert Sound(after) && after.percent == ShownPercentage(after);
    if r.totalWork > 0 { ShareOfTotal(after.workDone, r.totalWork); }
    hide Percentage, Sound;
  }

  lemma ShareOfTotal(work: int, total: nat)
    requires total > 0
    ensures Percentage(work, total) * total as real == 100.0 * work as real
    ensures 100 * work >= 99 * total <==> Percentage(work, total) >= 99.0
  {
    Quotient(work as real, total as real);
    Regroup(work as real / total as real, total as real);
    AtLeast(Percentage(work, total), total as real, 100.0 * work as real);
    hide Percentage;
  }

  lemma Regroup(x: real, whole: real)
    ensures x * 100.0 * whole == 100.0 * (x * whole)
  {
  }

  lemma AtLeast(share: real, whole: real, hundredfold: real)
    requires whole > 0.0 && share * whole == hundredfold
    ensures hundredfold >= 99.0 * whole <==> share >= 99.0
  {
    if share >= 99.0 { Scale(99.0, share, whole); }
    if hundredfold >= 99.0 * whole { CancelFactor(99.0, share, whole); }
  }

  class CampaignService {
    const historyLimit: nat
    var progressRecords: map<string, Runtime>
    var progressOrder: seq<string>
    var activeCampaignId: Option<string>
    ghost var issued: set<string>

    ghost function View(): State
      reads this
    {
      State(historyLimit, progressRecords, progressOrder, activeCampaignId, issued)
    }

    constructor (historyLimit: nat)
      requires historyLimit >= 1
      ensures Inv(View()) && View() == State(historyLimit, map[], [], None, {})
    {
      this.historyLimit := historyLimit;
      progressRecords, progressOrder, activeCampaignId, issued := map[], [], None, {};
    }

    /** `_store_progress`. */
    method StoreProgress(id: string, runtime: Runtime)
      modifies `progressRecords, `progressOrder
      ensures View() == Trim(old(View()).(records := old(progressRecords)[id := runtime],
                                          order := old(progressOrder) + [id]))
    {
      progressRecords := progressRecords[id := runtime];
      progressOrder := progressOrder + [id];
      ghost var start := View();
      while |progressOrder| > historyLimit
        invariant activeCampaignId == old(activeCampaignId) && issued == old(issued)
        invariant Trim(View()) == Trim(start)
        decreases |progressOrder|
      {
        var removed := progressOrder[0];
        progressOrder := progressOrder[1..];
        if activeCampaignId != Some(removed) { progressRecords := progressRecords - {removed}; }
      }
    }

    method StartCampaign(id: string) returns (accepted: bool)
      requires Inv(View()) && id !in issued
      modifies this
      ensures View() == Step(old(View()), Start(id)) && Inv(View())
      ensures accepted <==> old(activeCampaignId).None?
      ensures accepted ==> activeCampaignId == Some(id)
      ensures !accepted ==> progressRecords == old(progressRecords) && progressOrder == old(progressOrder)
      ensures accepted ==> id in progressRecords
      ensures accepted ==> progressRecords[id] == Runtime(Queued, "QUEUED", 0.0, 0, 0, 0, false, false, Created)
      ensures accepted ==>
                var all := old(progressOrder) + [id];
                && progressOrder == (if |all| <= historyLimit then all else all[|all| - historyLimit..])
                && (forall k :: k in progressRecords <==> k in progressOrder)
                && (forall k | k in progressRecords && k != id ::
                      k in old(progressRecords) && progressRecords[k] == old(progressRecords)[k])
    {
      if activeCampaignId.None? { StartSpec(View(), id); }
      StepKeepsInv(View(), Start(id));
      if activeCampaignId.Some? && activeCampaignId.value in progressRecords {
        var activeRecord := progressRecords[activeCampaignId.value];
        if activeRecord.status in {Queued, Running, CancelRequested} { return false; }
      }
      issued := issued + {id};
      StoreProgress(id, NEW_RUNTIME);
      activeCampaignId := Some(id);
      return true;
    }

    /** The first lines of `_run_campaign_background`. */
    method BeginBackground(id: string)
      requires Inv(View()) && id in progressRecords && progressRecords[id].stage.Created?
      modifies `progressRecords
      ensures View() == Step(old(View()), Begin(id)) && Inv(View())
      ensures progressRecords == old(progressRecords)[id :=
                old(progressRecords[id]).(status := Running, phase := "PREPARING", stage := Preparing)]
    {
      StepKeepsInv(View(), Begin(id));
      var runtime := progressRecords[id];
      progressRecords := progressRecords[id := runtime.(status := Running, phase := "PREPARING", stage := Preparing)];
    }

    /** `run_campaign`, once the dataset is accepted. */
    method PrepareRun(id: string, totalWork: nat)
      requires Inv(View()) && id in progressRecords && progressRecords[id].stage.Preparing?
      modifies `progressRecords
      ensures View() == Step(old(View()), Prepare(id, totalWork)) && Inv(View())
      ensures progressRecords == old(progressRecords)[id :=
                old(progressRecords[id]).(totalWork := totalWork, workDone := 0, percent := 0.0, phase := "DESIGN",
                                          stage := Replaying)]
    {
      StepKeepsInv(View(), Prepare(id, totalWork));
      var runtime := progressRecords[id];
      progressRecords := progressRecords[id :=
          runtime.(totalWork := totalWork, workDone := 0, percent := 0.0, phase := "DESIGN", stage := Replaying)];
    }

    /** The closure `on_progress`; `lastProgress` is its own variable, reset for each runner. */
    method OnProgress(id: string, done: int)
      requires Inv(View()) && id in progressRecords && progressRecords[id].stage.Replaying?
      modifies `progressRecords
      ensures View() == Step(old(View()), Progress(id, done)) && Inv(View())
      ensures id in progressRecords && Reported(old(progressRecords[id]), progressRecords[id], done)
      ensures progressRecords == old(progressRecords)[id := progressRecords[id]]
    {
      StepKeepsInv(View(), Progress(id, done));
      var runtime := progressRecords[id];
      var delta := if done - runtime.lastProgress > 0 then done - runtime.lastProgress else 0;
      runtime := runtime.(lastProgress := done, workDone := runtime.workDone + delta);
      if runtime.totalWork > 0 {
        var computed := Percentage(runtime.workDone, runtime.totalWork);
        runtime := runtime.(percent := Max(runtime.percent, Min(99.0, computed)));
      }
      progressRecords := progressRecords[id := runtime];
      ProgressIsReported(old(progressRecords[id]), done);
      hide Sound, Percentage;
    }

    method BeginFinalizing(id: string)
      requires Inv(View()) && id in progressRecords && progressRecords[id].stage.Replaying?
      modifies `progressRecords
      ensures View() == Step(old(View()), StartFinalizing(id)) && Inv(View())
      ensures progressRecords == old(progressRecords)[id :=
                old(progressRecords[id]).(phase := "FINALIZING", percent := 99.0, stage := Finalizing(0))]
    {
      StepKeepsInv(View(), StartFinalizing(id));
      var runtime := progressRecords[id];
      progressRecords := progressRecords[id :=
          runtime.(phase := "FINALIZING", percent := Max(runtime.percent, 99.0), stage := Finalizing(0))];
    }

    /** The check before each role is finalised; a cancelled campaign is left to `FinishBackground`. */
    method CheckFinalRole(id: string) returns (cancelled: bool)
      requires Inv(View()) && id in progressRecords
      requires progressRecords[id].stage.Finalizing? && progressRecords[id].stage.checked < ROLES
      modifies `progressRecords
      ensures cancelled <==> old(progressRecords[id]).cancelSet
      ensures View() == if cancelled then old(View()) else Step(old(View()), CheckRole(id))
      ensures cancelled ==> progressRecords == old(progressRecords)
      ensures !cancelled ==>
                progressRecords == old(progressRecords)[id :=
                  old(progressRecords[id]).(phase := "FINALIZING",
                                            stage := Finalizing(old(progressRecords[id]).stage.checked + 1))]
      ensures Inv(View())
    {
      StepKeepsInv(View(), CheckRole(id));
      var runtime := progressRecords[id];
      if runtime.cancelSet { return true; }
      progressRecords := progressRecords[id :=
          runtime.(phase := "FINALIZING", stage := Finalizing(runtime.stage.checked + 1))];
      return false;
    }

    /** The `except`, `else` and `finally` branches of `_run_campaign_background`. */
    method FinishBackground(id: string, outcome: Status)
      requires Inv(View()) && id in progressRecords
      requires var r := progressRecords[id];
               match outcome
               case Cancelled => r.cancelSet && (r.stage.Replaying? || (r.stage.Finalizing? && r.stage.checked < ROLES))
               case Failed => !r.stage.Created? && !r.stage.Ended?
               case Completed => r.stage == Finalizing(ROLES)
               case _ => false
      modifies `progressRecords, `activeCampaignId
      ensures View() == Step(old(View()), match outcome
                                          case Cancelled => if old(progressRecords[id]).stage.Replaying?
                                                            then Checkpoint(id) else CheckRole(id)
                                          case Failed => Fail(id)
                                          case _ => Complete(id))
      ensures Inv(View()) && activeCampaignId.None?
      ensures id in progressRecords && progressRecords == old(progressRecords)[id := progressRecords[id]]
      ensures progressRecords[id].status == outcome && progressRecords[id].stage == Ended
      ensures progressRecords[id].phase
              == (if outcome == Cancelled then "CANCELLED" else if outcome == Failed then "FAILED" else "COMPLETED")
      ensures var before, after := old(progressRecords[id]), progressRecords[id];
              && after.workDone == before.workDone && after.totalWork == before.totalWork
              && after.lastProgress == before.lastProgress && after.cancelSet == before.cancelSet
              && if outcome == Completed then after.percent == 100.0 && after.resultAvailable
                 else after.percent == before.percent && !after.resultAvailable
    {
      ghost var e := match outcome
                     case Cancelled => if progressRecords[id].stage.Replaying? then Checkpoint(id) else CheckRole(id)
                     case Failed => Fail(id)
                     case _ => Complete(id);
      StepKeepsInv(View(), e);
      var runtime := progressRecords[id];
      if outcome == Cancelled {
        runtime := runtime.(status := Cancelled, phase := "CANCELLED");
      } else if outcome == Failed {
        runtime := runtime.(status := Failed, phase := "FAILED");
      } else {
        runtime := runtime.(status := Completed, phase := "COMPLETED", percent := 100.0, resultAvailable := true);
      }
      progressRecords := progressRecords[id := runtime.(stage := Ended)];
      if activeCampaignId == Some(id) { activeCampaignId := None; }
    }

    method CancelCampaign(id: string) returns (found: bool)
      requires Inv(View())
      modifies `progressRecords
      ensures View() == Step(old(View()), Cancel(id)) && Inv(View())
      ensures found <==> id in progressRecords
      ensures found && (old(progressRecords)[id].status == Queued || old(progressRecords)[id].status == Running) ==>
                progressRecords == old(progressRecords)[id :=
                  old(progressRecords)[id].(cancelSet := true, status := CancelRequested, phase := "CANCEL_REQUESTED")]
      ensures !(found && (old(progressRecords)[id].status == Queued || old(progressRecords)[id].status == Running)) ==>
                progressRecords == old(progressRecords)
    {
      StepKeepsInv(View(), Cancel(id));
      if id !in progressRecords { return false; }
      var runtime := progressRecords[id];
      if runtime.status == Queued || runtime.status == Running {
        runtime := runtime.(cancelSet := true, status := CancelRequested, phase := "CANCEL_REQUESTED");
        progressRecords := progressRecords[id := runtime];
      }
      assert progressRecords == old(progressRecords)[id := CancelAsked(old(progressRecords)[id])];
      return true;
    }
  }
}
