/** The tracker object: the same transitions, updating its fields in place. */
module CausalityTracker {
  import opened Causality
  import opened CausalityHistory
  import opened Common

  class CausalityTracker {
    var sides: Pair<SideState>
    var incident: Incident
    var metrics: Published

    ghost function State(): Tracker
      reads this
    {
      Tracker(sides, incident, metrics)
    }

    constructor (startMs: int)
      ensures State() == CausalityHistory.Fresh(startMs)
    {
      var start := CausalityHistory.Fresh(startMs);
      sides, incident, metrics := start.sides, start.incident, start.metrics;
    }

    method EnsureAttemptStarted(side: Side) returns (id: nat)
      modifies this
      ensures State() == Started(old(State()), side)
      ensures id == sides.At(side).activeAttempt
    {
      var state := sides.At(side);
      if !state.attemptActive {
        id := state.nextAttempt;
        sides := sides.With(side, state.(attemptActive := true, activeAttempt := id, nextAttempt := id + 1));
        metrics := metrics.(activeAttempt := metrics.activeAttempt.With(side, id));
        metrics := metrics.(attempts := metrics.attempts.With(side, metrics.attempts.At(side) + 1));
      }
      id := sides.At(side).activeAttempt;
    }

    method NoteDataSuccess(side: Side)
      modifies this
      ensures State() == Succeeded(old(State()), side)
    {
      sides := sides.With(side, sides.At(side).(receiveTimeouts := 0));
    }

    method CompleteAttempt(side: Side)
      modifies this
      ensures State() == Completed(old(State()), side)
    {
      sides := sides.With(side, sides.At(side).(attemptActive := false, activeAttempt := 0));
      metrics := metrics.(activeAttempt := metrics.activeAttempt.With(side, 0));
    }

    method RecordFailure(f: Failure) returns (reason: Reason)
      modifies this
      ensures State() == Failed(old(State()), f) && reason == ReasonOf(f)
    {
      reason := Classify(f.op, f.isTimeout, f.isDisconnected, f.listener, f.detail);
      var state := sides.At(f.side);
      var suppress := false;
      if f.op == ReceiveOp && reason.class_ == TimeoutClass {
        state := state.(receiveTimeouts := state.receiveTimeouts + 1);
        suppress := !incident.active && state.receiveTimeouts < RECEIVE_TIMEOUT_THRESHOLD;
      } else {
        state := state.(receiveTimeouts := 0);
      }
      sides := sides.With(f.side, state);
      if !incident.active && !suppress {
        incident := Incident(incident.nextSeq + 1, true, Some(incident.nextSeq), f.nowMs, f.side, reason.class_, reason.code,
                             Pair(0, 0), Pair(0, 0));
        metrics := metrics.(incidentActive := true, incidentOpenMs := f.nowMs, activeIncident := incident.id);
      }
      Tally(f, reason);
      var snapshot := LastFailure(Seconds(f.nowMs), reason.code, reason.class_, f.detail, incident.id, f.attempt, f.source);
      metrics := metrics.(lastFailure := metrics.lastFailure.With(f.side, Some(snapshot)));
    }

    /** Counts one failure in the incident and in the published counters. */
    method Tally(f: Failure, reason: Reason)
      modifies this`incident, this`metrics
      ensures incident == old(incident).(
        failures := Add(old(incident).failures, f.side, 1),
        timeouts := Add(old(incident).timeouts, f.side, if reason.class_ == TimeoutClass then 1 else 0))
      ensures metrics == old(metrics).(
        lastFailureSeconds := old(metrics).lastFailureSeconds.With(f.side, Seconds(f.nowMs)),
        disconnects := old(metrics).disconnects.With(f.side, Bump(old(metrics).disconnects.At(f.side), CodeIndex(reason.code))),
        timeouts := if reason.timeoutType.None? then old(metrics).timeouts
                    else old(metrics).timeouts.With(f.side,
                           Bump(old(metrics).timeouts.At(f.side), TimeoutIndex(reason.timeoutType.value))))
    {
      incident := incident.(failures := Add(incident.failures, f.side, 1));
      metrics := metrics.(lastFailureSeconds := metrics.lastFailureSeconds.With(f.side, Seconds(f.nowMs)));
      if reason.class_ == TimeoutClass {
        incident := incident.(timeouts := Add(incident.timeouts, f.side, 1));
      }
      metrics := metrics.(disconnects :=
        metrics.disconnects.With(f.side, Bump(metrics.disconnects.At(f.side), CodeIndex(reason.code))));
      if reason.timeoutType.Some? {
        metrics := metrics.(timeouts :=
          metrics.timeouts.With(f.side, Bump(metrics.timeouts.At(f.side), TimeoutIndex(reason.timeoutType.value))));
      }
    }

    method MaybeCloseIncident(inputConnected: bool, outputConnected: bool)
      modifies this
      ensures State() == TriedToClose(old(State()), inputConnected, outputConnected)
    {
      if !incident.active || !inputConnected || !outputConnected {
        return;
      }
      if incident.firstClass == TimeoutClass {
        if metrics.lastDataMs.At(incident.firstSide) <= incident.openedMs {
          return;
        }
      }
      incident := incident.(active := false, id := None, openedMs := 0);
      metrics := metrics.(incidentActive := false, incidentOpenMs := 0, activeIncident := None);
    }

    /** The relay loop's store of the time data last moved on one side. */
    method StampData(side: Side, ms: int)
      modifies this`metrics
      ensures State() == Stamped(old(State()), side, ms)
    {
      metrics := metrics.(lastDataMs := metrics.lastDataMs.With(side, ms));
    }

    method Perform(e: Event)
      modifies this
      ensures State() == Step(old(State()), e)
    {
      match e
      case StartAttempt(side) =>
        var id := EnsureAttemptStarted(side);
      case CompleteAttempt(side) =>
        CompleteAttempt(side);
      case DataSuccess(side) =>
        NoteDataSuccess(side);
      case Fail(f) =>
        var reason := RecordFailure(f);
      case TryClose(inputConnected, outputConnected) =>
        MaybeCloseIncident(inputConnected, outputConnected);
      case Stamp(side, ms) =>
        StampData(side, ms);
    }
  }

  /** A tracker after any history of calls: its fields say what the history says. */
  method Replay(startMs: int, es: seq<Event>) returns (t: CausalityTracker)
    ensures fresh(t) && t.State() == After(startMs, es, |es|)
    ensures Mirrors(t.State())
    ensures forall side :: HistoryOf(startMs, es, t.State(), side)
  {
    t := new CausalityTracker(startMs);
    for i := 0 to |es|
      invariant fresh(t) && t.State() == After(startMs, es, i)
    {
      t.Perform(es[i]);
    }
    IncidentIdsCountUp(startMs, es, |es|);
    forall side {
      HistoryHolds(startMs, es, side);
    }
  }
}
