/** Attempts, incidents and failure counters (src/relay_runtime.cpp:68-265), on
    values, and what they mean in terms of the history of events. */
module CausalityHistory {
  import opened Causality
  import opened Common

  const RECEIVE_TIMEOUT_THRESHOLD: nat := 3

  datatype Pair<T> = Pair(input: T, output: T) {
    function At(side: Side): T {
      if side == Input then input else output
    }

    function With(side: Side, v: T): Pair<T> {
      if side == Input then Pair(v, output) else Pair(input, v)
    }
  }

  datatype SideState = SideState(nextAttempt: nat, activeAttempt: nat, attemptActive: bool, receiveTimeouts: nat)

  /** Incident ids are the sequence number; the program prints them as "inc-<n>". */
  datatype Incident = Incident(
    nextSeq: nat, active: bool, id: Option<nat>, openedMs: int,
    firstSide: Side, firstClass: ReasonClass, firstCode: ReasonCode,
    failures: Pair<nat>, timeouts: Pair<nat>)

  datatype LastFailure = LastFailure(
    seconds: int, code: ReasonCode, class_: ReasonClass, detail: string, incident: Option<nat>, attempt: nat, source: string)

  /** What the tracker publishes, and the two data stamps it reads. */
  datatype Published = Published(
    activeAttempt: Pair<nat>, attempts: Pair<nat>,
    incidentActive: bool, incidentOpenMs: int, activeIncident: Option<nat>,
    disconnects: Pair<seq<nat>>, timeouts: Pair<seq<nat>>,
    lastFailureSeconds: Pair<int>, lastFailure: Pair<Option<LastFailure>>,
    lastDataMs: Pair<int>)

  datatype Tracker = Tracker(sides: Pair<SideState>, incident: Incident, metrics: Published)

  datatype Failure = Failure(
    side: Side, op: Operation, isTimeout: bool, isDisconnected: bool, listener: bool,
    detail: string, source: string, attempt: nat, nowMs: int)

  datatype Event =
    | StartAttempt(side: Side)
    | CompleteAttempt(side: Side)
    | DataSuccess(side: Side)
    | Fail(f: Failure)
    | TryClose(inputConnected: bool, outputConnected: bool)
    | Stamp(side: Side, ms: int)

  function ReasonOf(f: Failure): Reason {
    Classify(f.op, f.isTimeout, f.isDisconnected, f.listener, f.detail)
  }

  predicate IsReceiveTimeout(f: Failure) {
    f.op == ReceiveOp && ReasonOf(f).class_ == TimeoutClass
  }

  /** Milliseconds to seconds, truncating toward zero. */
  function Seconds(ms: int): (r: int)
    ensures ms >= 0 ==> 1000 * r <= ms < 1000 * r + 1000
    ensures ms <= 0 ==> 1000 * r - 1000 < ms <= 1000 * r
  {
    if ms >= 0 then ms / 1000 else -(-ms / 1000)
  }

  function Fresh(startMs: int): Tracker {
    var side := SideState(1, 0, false, 0);
    Tracker(Pair(side, side),
            Incident(1, false, None, 0, Input, Internal, InternalError, Pair(0, 0), Pair(0, 0)),
            Published(Pair(0, 0), Pair(0, 0), false, 0, None,
                      Pair(Zeros(REASON_CODES), Zeros(REASON_CODES)), Pair(Zeros(TIMEOUT_TYPES), Zeros(TIMEOUT_TYPES)),
                      Pair(0, 0), Pair(None, None), Pair(startMs, startMs)))
  }

  function Zeros(n: nat): (r: seq<nat>)
    ensures |r| == n && forall i :: 0 <= i < n ==> r[i] == 0
  {
    seq(n, _ => 0)
  }

  function Bump(counts: seq<nat>, i: nat): seq<nat> {
    if i < |counts| then counts[i := counts[i] + 1] else counts
  }

  function Started(t: Tracker, side: Side): Tracker {
    var s := t.sides.At(side);
    if s.attemptActive then t
    else
      t.(sides := t.sides.With(side, s.(attemptActive := true, activeAttempt := s.nextAttempt, nextAttempt := s.nextAttempt + 1)),
         metrics := t.metrics.(activeAttempt := t.metrics.activeAttempt.With(side, s.nextAttempt),
                               attempts := t.metrics.attempts.With(side, t.metrics.attempts.At(side) + 1)))
  }

  function Completed(t: Tracker, side: Side): Tracker {
    t.(sides := t.sides.With(side, t.sides.At(side).(attemptActive := false, activeAttempt := 0)),
       metrics := t.metrics.(activeAttempt := t.metrics.activeAttempt.With(side, 0)))
  }

  function Succeeded(t: Tracker, side: Side): Tracker {
    t.(sides := t.sides.With(side, t.sides.At(side).(receiveTimeouts := 0)))
  }

  function TimeoutsAfter(t: Tracker, f: Failure): nat {
    if IsReceiveTimeout(f) then t.sides.At(f.side).receiveTimeouts + 1 else 0
  }

  predicate Opens(t: Tracker, f: Failure) {
    !t.incident.active && !(IsReceiveTimeout(f) && TimeoutsAfter(t, f) < RECEIVE_TIMEOUT_THRESHOLD)
  }

  function Add(p: Pair<nat>, side: Side, n: nat): Pair<nat> {
    p.With(side, p.At(side) + n)
  }

  function IncidentAfter(t: Tracker, f: Failure): Incident {
    var r := ReasonOf(f);
    var i := if Opens(t, f)
             then Incident(t.incident.nextSeq + 1, true, Some(t.incident.nextSeq), f.nowMs, f.side, r.class_, r.code,
                           Pair(0, 0), Pair(0, 0))
             else t.incident;
    i.(failures := Add(i.failures, f.side, 1),
       timeouts := Add(i.timeouts, f.side, if r.class_ == TimeoutClass then 1 else 0))
  }

  function Failed(t: Tracker, f: Failure): Tracker {
    var r, m := ReasonOf(f), t.metrics;
    var incident := IncidentAfter(t, f);
    var bumped := if r.timeoutType.Some?
                  then m.timeouts.With(f.side, Bump(m.timeouts.At(f.side), TimeoutIndex(r.timeoutType.value)))
                  else m.timeouts;
    var last := LastFailure(Seconds(f.nowMs), r.code, r.class_, f.detail, incident.id, f.attempt, f.source);
    Tracker(t.sides.With(f.side, t.sides.At(f.side).(receiveTimeouts := TimeoutsAfter(t, f))),
            incident,
            m.(incidentActive := if Opens(t, f) then true else m.incidentActive,
               incidentOpenMs := if Opens(t, f) then f.nowMs else m.incidentOpenMs,
               activeIncident := if Opens(t, f) then incident.id else m.activeIncident,
               disconnects := m.disconnects.With(f.side, Bump(m.disconnects.At(f.side), CodeIndex(r.code))),
               timeouts := bumped,
               lastFailureSeconds := m.lastFailureSeconds.With(f.side, Seconds(f.nowMs)),
               lastFailure := m.lastFailure.With(f.side, Some(last))))
  }

  /** An incident that began with a timeout needs data after it on the side that
      timed out; any other needs only both sides connected. */
  predicate Closes(t: Tracker, inputConnected: bool, outputConnected: bool) {
    && t.incident.active && inputConnected && outputConnected
    && (t.incident.firstClass == TimeoutClass ==>
          t.metrics.lastDataMs.At(t.incident.firstSide) > t.incident.openedMs)
  }

  function TriedToClose(t: Tracker, inputConnected: bool, outputConnected: bool): Tracker {
    if !Closes(t, inputConnected, outputConnected) then t
    else t.(incident := t.incident.(active := false, id := None, openedMs := 0),
            metrics := t.metrics.(incidentActive := false, incidentOpenMs := 0, activeIncident := None))
  }

  function Stamped(t: Tracker, side: Side, ms: int): Tracker {
    t.(metrics := t.metrics.(lastDataMs := t.metrics.lastDataMs.With(side, ms)))
  }

  function Step(t: Tracker, e: Event): Tracker {
    match e
    case StartAttempt(side) => Started(t, side)
    case CompleteAttempt(side) => Completed(t, side)
    case DataSuccess(side) => Succeeded(t, side)
    case Fail(f) => Failed(t, f)
    case TryClose(i, o) => TriedToClose(t, i, o)
    case Stamp(side, ms) => Stamped(t, side, ms)
  }

  /** The tracker after the first `n` events of a history. */
  function After(startMs: int, es: seq<Event>, n: nat): Tracker
    requires n <= |es|
  {
    if n == 0 then Fresh(startMs) else Step(After(startMs, es, n - 1), es[n - 1])
  }

  // ---- Attempts ----

  predicate Issues(startMs: int, es: seq<Event>, n: nat, side: Side)
    requires n < |es|
  {
    es[n] == StartAttempt(side) && !After(startMs, es, n).sides.At(side).attemptActive
  }

  /** The ids issued to one side so far, in order. */
  function Issued(startMs: int, es: seq<Event>, n: nat, side: Side): seq<nat>
    requires n <= |es|
  {
    if n == 0 then []
    else Issued(startMs, es, n - 1, side) +
         if Issues(startMs, es, n - 1, side) then [After(startMs, es, n).sides.At(side).activeAttempt] else []
  }

  function Upto(n: nat): (r: seq<nat>)
    ensures |r| == n && forall i :: 0 <= i < n ==> r[i] == i + 1
  {
    seq(n, i => i + 1)
  }

  ghost predicate AttemptsAgree(t: Tracker, side: Side) {
    var s := t.sides.At(side);
    && s.nextAttempt == t.metrics.attempts.At(side) + 1
    && s.activeAttempt == t.metrics.activeAttempt.At(side)
    && s.activeAttempt == (if s.attemptActive then t.metrics.attempts.At(side) else 0)
    && (s.attemptActive ==> s.activeAttempt > 0)
  }

  lemma AttemptsStep(t: Tracker, e: Event, side: Side)
    requires AttemptsAgree(t, side)
    ensures AttemptsAgree(Step(t, e), side)
    ensures var issues := e == StartAttempt(side) && !t.sides.At(side).attemptActive;
            && Step(t, e).metrics.attempts.At(side) == t.metrics.attempts.At(side) + (if issues then 1 else 0)
            && (issues ==> Step(t, e).sides.At(side).activeAttempt == t.metrics.attempts.At(side) + 1)
  {
  }

  /** The ids issued to a side are 1, 2, 3, ... in order, as many as the published
      attempt counter says; the published active id is the latest one while the
      attempt is open and 0 otherwise. */
  lemma {:induction false} AttemptIdsCountUp(startMs: int, es: seq<Event>, n: nat, side: Side)
    requires n <= |es|
    ensures AttemptsAgree(After(startMs, es, n), side)
    ensures Issued(startMs, es, n, side) == Upto(After(startMs, es, n).metrics.attempts.At(side))
  {
    if n > 0 {
      AttemptIdsCountUp(startMs, es, n - 1, side);
      AttemptsStep(After(startMs, es, n - 1), es[n - 1], side);
    }
  }

  /** The event at `i` started an attempt, or found one open, and none has been
      completed since. */
  predicate OpenSince(es: seq<Event>, i: nat, n: nat, side: Side)
    requires i < n <= |es|
  {
    es[i] == StartAttempt(side) && forall j :: i < j < n ==> es[j] != CompleteAttempt(side)
  }

  /** An attempt id is published on a side if and only if an attempt was started there
      and not completed since. */
  lemma {:induction false} AttemptOpenIffStarted(startMs: int, es: seq<Event>, n: nat, side: Side)
    requires n <= |es|
    ensures After(startMs, es, n).metrics.activeAttempt.At(side) != 0 <==> exists i: nat :: i < n && OpenSince(es, i, n, side)
  {
    AttemptIdsCountUp(startMs, es, n, side);
    if n > 0 {
      var m := n - 1;
      AttemptIdsCountUp(startMs, es, m, side);
      AttemptOpenIffStarted(startMs, es, m, side);
      if es[m] == StartAttempt(side) {
        assert OpenSince(es, m, n, side);
      } else {
        forall i: nat | i < m
          ensures OpenSince(es, i, n, side) <==> OpenSince(es, i, m, side) && es[m] != CompleteAttempt(side)
        {
        }
      }
    }
  }

  // ---- Incidents ----

  predicate OpensAt(startMs: int, es: seq<Event>, n: nat)
    requires n < |es|
  {
    es[n].Fail? && Opens(After(startMs, es, n), es[n].f)
  }

  predicate ClosesAt(startMs: int, es: seq<Event>, n: nat)
    requires n < |es|
  {
    es[n].TryClose? && Closes(After(startMs, es, n), es[n].inputConnected, es[n].outputConnected)
  }

  function OpenedIds(startMs: int, es: seq<Event>, n: nat): seq<nat>
    requires n <= |es|
  {
    if n == 0 then []
    else OpenedIds(startMs, es, n - 1) +
         if OpensAt(startMs, es, n - 1) then [After(startMs, es, n - 1).incident.nextSeq] else []
  }

  /** The published incident fields mirror the private ones. */
  ghost predicate Mirrors(t: Tracker) {
    && t.metrics.incidentActive == t.incident.active
    && t.metrics.activeIncident == t.incident.id
    && t.metrics.incidentOpenMs == t.incident.openedMs
    && (t.incident.id.Some? <==> t.incident.active)
    && (t.incident.active ==> t.incident.id.value + 1 == t.incident.nextSeq)
    && (!t.incident.active ==> t.incident.openedMs == 0)
  }

  lemma MirrorsStep(t: Tracker, e: Event)
    requires Mirrors(t)
    ensures Mirrors(Step(t, e))
    ensures Step(t, e).incident.nextSeq == t.incident.nextSeq + if e.Fail? && Opens(t, e.f) then 1 else 0
  {
  }

  /** Incidents are numbered 1, 2, 3, ...: no id is ever used twice. */
  lemma {:induction false} IncidentIdsCountUp(startMs: int, es: seq<Event>, n: nat)
    requires n <= |es|
    ensures Mirrors(After(startMs, es, n))
    ensures After(startMs, es, n).incident.nextSeq >= 1
    ensures OpenedIds(startMs, es, n) == Upto(After(startMs, es, n).incident.nextSeq - 1)
  {
    if n > 0 {
      IncidentIdsCountUp(startMs, es, n - 1);
      MirrorsStep(After(startMs, es, n - 1), es[n - 1]);
    }
  }

  /** Something timed out: an ensure, a receive or a send. */
  predicate IsTimeout(f: Failure) {
    f.isTimeout && (f.op == EnsureOp || f.op == ReceiveOp || f.op == SendOp)
  }

  lemma TimeoutMeans(f: Failure)
    ensures ReasonOf(f).class_ == TimeoutClass <==> IsTimeout(f)
    ensures IsReceiveTimeout(f) <==> f.op == ReceiveOp && f.isTimeout
  {
    TimeoutTypeMatchesCode(f.op, f.isTimeout, f.isDisconnected, f.listener, f.detail);
  }

  function Failures(es: seq<Event>, from: nat, n: nat, side: Side, timeoutsOnly: bool): nat
    requires from <= n <= |es|
  {
    if n == from then 0
    else Failures(es, from, n - 1, side, timeoutsOnly) +
         if es[n - 1].Fail? && es[n - 1].f.side == side && (timeoutsOnly ==> IsTimeout(es[n - 1].f)) then 1 else 0
  }

  /** An event that neither opens nor closes only adds to the tallies. */
  lemma StaysTheSame(t: Tracker, e: Event)
    requires Step(t, e).incident.active && !(e.Fail? && Opens(t, e.f))
    ensures t.incident.active && !(e.TryClose? && Closes(t, e.inputConnected, e.outputConnected))
    ensures var a, b := t.incident, Step(t, e).incident;
            b == a.(failures := b.failures, timeouts := b.timeouts)
            && forall side ::
                 && b.failures.At(side) == a.failures.At(side) + (if e.Fail? && e.f.side == side then 1 else 0)
                 && b.timeouts.At(side) == a.timeouts.At(side) +
                      (if e.Fail? && e.f.side == side && IsTimeout(e.f) then 1 else 0)
  {
    if e.Fail? {
      TimeoutMeans(e.f);
    }
  }

  /** While an incident is active, its fields are those of the failure that opened
      it and its tallies count exactly the failures since then, that one included. */
  lemma {:induction false} ActiveIncidentSince(startMs: int, es: seq<Event>, n: nat) returns (i: nat)
    requires n <= |es| && After(startMs, es, n).incident.active
    ensures i < n && OpensAt(startMs, es, i)
    ensures var inc := After(startMs, es, n).incident;
            && inc.id == Some(After(startMs, es, i).incident.nextSeq)
            && inc.openedMs == es[i].f.nowMs && inc.firstSide == es[i].f.side
            && inc.firstClass == ReasonOf(es[i].f).class_ && inc.firstCode == ReasonOf(es[i].f).code
    ensures forall side :: After(startMs, es, n).incident.failures.At(side) == Failures(es, i, n, side, false)
    ensures forall side :: After(startMs, es, n).incident.timeouts.At(side) == Failures(es, i, n, side, true)
    ensures forall m :: i < m < n ==> !OpensAt(startMs, es, m) && !ClosesAt(startMs, es, m)
  {
    if OpensAt(startMs, es, n - 1) {
      i := n - 1;
      TimeoutMeans(es[i].f);
    } else {
      StaysTheSame(After(startMs, es, n - 1), es[n - 1]);
      i := ActiveIncidentSince(startMs, es, n - 1);
    }
  }

  // ---- When an incident opens ----

  predicate TimesOut(e: Event, side: Side) {
    e.Fail? && e.f.side == side && e.f.op == ReceiveOp && e.f.isTimeout
  }

  /** Data, or a failure of another kind, on this side. */
  predicate Breaks(e: Event, side: Side) {
    e == DataSuccess(side) || (e.Fail? && e.f.side == side && !(e.f.op == ReceiveOp && e.f.isTimeout))
  }

  /** Receive timeouts on a side since the last event there that breaks a series. */
  function Trailing(es: seq<Event>, n: nat, side: Side): nat
    requires n <= |es|
  {
    if n == 0 || Breaks(es[n - 1], side) then 0
    else Trailing(es, n - 1, side) + if TimesOut(es[n - 1], side) then 1 else 0
  }

  /** The counter behind the threshold is the length of the series still unbroken:
      data on the side, or another failure there, starts it again from nothing. */
  lemma {:induction false} TimeoutsAreTrailing(startMs: int, es: seq<Event>, n: nat, side: Side)
    requires n <= |es|
    ensures After(startMs, es, n).sides.At(side).receiveTimeouts == Trailing(es, n, side)
  {
    if n > 0 {
      TimeoutsAreTrailing(startMs, es, n - 1, side);
      if es[n - 1].Fail? {
        TimeoutMeans(es[n - 1].f);
      }
    }
  }

  /** An event opens an incident if and only if it is a failure, none is active, and,
      when it is a receive timeout, it is at least the third in an unbroken series. */
  lemma OpensExactlyWhen(startMs: int, es: seq<Event>, n: nat)
    requires n < |es|
    ensures OpensAt(startMs, es, n) <==>
            && es[n].Fail? && !After(startMs, es, n).incident.active
            && (es[n].f.op == ReceiveOp && es[n].f.isTimeout ==> Trailing(es, n + 1, es[n].f.side) >= 3)
    ensures (After(startMs, es, n + 1).incident.active && !After(startMs, es, n).incident.active) <==> OpensAt(startMs, es, n)
  {
    if es[n].Fail? {
      TimeoutMeans(es[n].f);
      TimeoutsAreTrailing(startMs, es, n, es[n].f.side);
    }
  }

  /** A series of `k` receive timeouts really is `k` events with nothing to break it. */
  lemma {:induction false} SeriesOf(es: seq<Event>, n: nat, side: Side, k: nat) returns (at: seq<nat>)
    requires n <= |es| && k <= Trailing(es, n, side)
    ensures |at| == k
    ensures forall i :: 0 <= i < k ==> at[i] < n && TimesOut(es[at[i]], side)
    ensures forall i, j :: 0 <= i < j < k ==> at[i] < at[j]
    ensures k > 0 ==> forall m :: at[0] <= m < n ==> !Breaks(es[m], side)
  {
    if k == 0 {
      at := [];
    } else if TimesOut(es[n - 1], side) {
      at := SeriesOf(es, n - 1, side, k - 1);
      at := at + [n - 1];
    } else {
      at := SeriesOf(es, n - 1, side, k);
    }
  }

  /** Whenever a receive timeout opens an incident, it is the last of three on its
      side with no data there, and no other failure there, in between. */
  lemma OpenedByThirdTimeout(startMs: int, es: seq<Event>, n: nat) returns (a: nat, b: nat)
    requires n < |es| && OpensAt(startMs, es, n) && es[n].f.op == ReceiveOp && es[n].f.isTimeout
    ensures a < b < n && TimesOut(es[a], es[n].f.side) && TimesOut(es[b], es[n].f.side)
    ensures forall m :: a <= m <= n ==> !Breaks(es[m], es[n].f.side)
  {
    OpensExactlyWhen(startMs, es, n);
    var side := es[n].f.side;
    var at := SeriesOf(es, n, side, 2);
    a, b := at[0], at[1];
  }

  // ---- When an incident closes ----

  function LastStamp(startMs: int, es: seq<Event>, n: nat, side: Side): int
    requires n <= |es|
  {
    if n == 0 then startMs
    else if es[n - 1].Stamp? && es[n - 1].side == side then es[n - 1].ms
    else LastStamp(startMs, es, n - 1, side)
  }

  /** The stamp read when closing is the last one stored on that side. */
  lemma {:induction false} StampIsLast(startMs: int, es: seq<Event>, n: nat, side: Side)
    requires n <= |es|
    ensures After(startMs, es, n).metrics.lastDataMs.At(side) == LastStamp(startMs, es, n, side)
  {
    if n > 0 {
      StampIsLast(startMs, es, n - 1, side);
    }
  }

  /** An event ends the active incident if and only if it finds both sides connected
      and, when the failure that opened the incident was a timeout, the latest data
      on that failure's side is stamped later than the opening. */
  lemma ClosesExactlyWhen(startMs: int, es: seq<Event>, n: nat) returns (i: nat)
    requires n < |es| && After(startMs, es, n).incident.active
    ensures i < n && OpensAt(startMs, es, i)
    ensures forall m :: i < m < n ==> !OpensAt(startMs, es, m) && !ClosesAt(startMs, es, m)
    ensures !After(startMs, es, n + 1).incident.active <==>
            && es[n] == TryClose(true, true)
            && (IsTimeout(es[i].f) ==>
                  LastStamp(startMs, es, n, es[i].f.side) > es[i].f.nowMs)
  {
    i := ActiveIncidentSince(startMs, es, n);
    TimeoutMeans(es[i].f);
    StampIsLast(startMs, es, n, es[i].f.side);
  }

  // ---- Counters ----

  function Sum(counts: seq<nat>): nat {
    if counts == [] then 0 else counts[0] + Sum(counts[1..])
  }

  lemma {:induction false} SumBump(counts: seq<nat>, i: nat)
    requires i < |counts|
    ensures Sum(Bump(counts, i)) == Sum(counts) + 1
  {
    if i > 0 {
      assert Bump(counts, i)[1..] == Bump(counts[1..], i - 1);
      SumBump(counts[1..], i - 1);
    }
  }

  lemma {:induction false} SumZeros(n: nat)
    ensures Sum(Zeros(n)) == 0
  {
    if n > 0 {
      SumZeros(n - 1);
      assert Zeros(n)[1..] == Zeros(n - 1);
    }
  }

  ghost predicate CountsAgree(m: Published, side: Side, failures: nat, timeouts: nat) {
    && |m.disconnects.At(side)| == REASON_CODES && |m.timeouts.At(side)| == TIMEOUT_TYPES
    && Sum(m.disconnects.At(side)) == failures
    && Sum(m.timeouts.At(side)) == timeouts
    && forall i :: 0 <= i < TIMEOUT_TYPES ==> m.timeouts.At(side)[i] == m.disconnects.At(side)[i]
  }

  lemma FailureCounts(t: Tracker, f: Failure, failures: nat, timeouts: nat)
    requires CountsAgree(t.metrics, f.side, failures, timeouts)
    ensures CountsAgree(Failed(t, f).metrics, f.side, failures + 1,
                        timeouts + if IsTimeout(f) then 1 else 0)
  {
    var r := ReasonOf(f);
    TimeoutMeans(f);
    TimeoutTypeMatchesCode(f.op, f.isTimeout, f.isDisconnected, f.listener, f.detail);
    SumBump(t.metrics.disconnects.At(f.side), CodeIndex(r.code));
    if r.timeoutType.Some? {
      SumBump(t.metrics.timeouts.At(f.side), TimeoutIndex(r.timeoutType.value));
    }
  }

  lemma OtherEventsCountNothing(t: Tracker, e: Event, side: Side)
    requires !(e.Fail? && e.f.side == side)
    ensures Step(t, e).metrics.disconnects.At(side) == t.metrics.disconnects.At(side)
    ensures Step(t, e).metrics.timeouts.At(side) == t.metrics.timeouts.At(side)
  {
  }

  /** Per side, the failures counted under all codes add up to the failures recorded,
      and each timeout counter equals the failure counter of the same timeout code. */
  lemma {:induction false} CountersBalance(startMs: int, es: seq<Event>, n: nat, side: Side)
    requires n <= |es|
    ensures CountsAgree(After(startMs, es, n).metrics, side,
                        Failures(es, 0, n, side, false), Failures(es, 0, n, side, true))
  {
    if n == 0 {
      SumZeros(REASON_CODES);
      SumZeros(TIMEOUT_TYPES);
    } else {
      CountersBalance(startMs, es, n - 1, side);
      var t := After(startMs, es, n - 1);
      if es[n - 1].Fail? && es[n - 1].f.side == side {
        FailureCounts(t, es[n - 1].f, Failures(es, 0, n - 1, side, false), Failures(es, 0, n - 1, side, true));
      } else {
        OtherEventsCountNothing(t, es[n - 1], side);
      }
    }
  }

  /** The failures on a side that deserve a code. */
  ghost function CodeFailures(es: seq<Event>, n: nat, side: Side, code: ReasonCode): nat
    requires n <= |es|
  {
    if n == 0 then 0 else CodeFailures(es, n - 1, side, code) + if CountsAs(es[n - 1], side, code) then 1 else 0
  }

  ghost predicate CountsAs(e: Event, side: Side, code: ReasonCode) {
    && e.Fail? && e.f.side == side
    && Deserves(code, e.f.op, e.f.isTimeout, e.f.isDisconnected, OnAcceptPath(e.f.listener, e.f.detail))
  }

  lemma CodeStep(t: Tracker, e: Event, side: Side, i: nat)
    requires i < REASON_CODES == |t.metrics.disconnects.At(side)|
    ensures var was, now := t.metrics.disconnects.At(side), Step(t, e).metrics.disconnects.At(side);
            |now| == REASON_CODES && now[i] == was[i] + if CountsAs(e, side, ALL_CODES[i]) then 1 else 0
  {
    if e.Fail? {
      CodeIsDeserved(e.f.op, e.f.isTimeout, e.f.isDisconnected, e.f.listener, e.f.detail, ALL_CODES[i]);
      IndexIsPlace(ReasonOf(e.f).code, i);
    }
  }

  /** Each failure counter counts exactly the failures that deserve its own code. */
  lemma {:induction false} EachCodeIsCounted(startMs: int, es: seq<Event>, n: nat, side: Side, i: nat)
    requires n <= |es| && i < REASON_CODES
    ensures |After(startMs, es, n).metrics.disconnects.At(side)| == REASON_CODES
    ensures After(startMs, es, n).metrics.disconnects.At(side)[i] == CodeFailures(es, n, side, ALL_CODES[i])
  {
    if n > 0 {
      EachCodeIsCounted(startMs, es, n - 1, side, i);
      CodeStep(After(startMs, es, n - 1), es[n - 1], side, i);
    }
  }

  /** The latest failure on a side. */
  function LatestFailure(es: seq<Event>, n: nat, side: Side): (r: Option<nat>)
    requires n <= |es|
    ensures r.Some? ==> r.value < n && es[r.value].Fail? && es[r.value].f.side == side
    ensures forall j :: (if r.Some? then r.value + 1 else 0) <= j < n ==> !(es[j].Fail? && es[j].f.side == side)
  {
    if n == 0 then None
    else if es[n - 1].Fail? && es[n - 1].f.side == side then Some(n - 1)
    else LatestFailure(es, n - 1, side)
  }

  /** The snapshot a side shows is that of failure `f`: when it was, what it was counted
      under, what was said of it and which incident it fell into. */
  ghost predicate SnapshotOf(m: Published, side: Side, f: Failure, incident: Option<nat>) {
    && m.lastFailure.At(side).Some?
    && var x := m.lastFailure.At(side).value;
    && x.seconds == m.lastFailureSeconds.At(side) == Seconds(f.nowMs)
    && Deserves(x.code, f.op, f.isTimeout, f.isDisconnected, OnAcceptPath(f.listener, f.detail))
    && x.class_ == ClassOf(x.code)
    && x.detail == f.detail && x.attempt == f.attempt && x.source == f.source
    && x.incident == incident
  }

  lemma FailureTakesSnapshot(t: Tracker, f: Failure)
    requires Mirrors(t)
    ensures SnapshotOf(Failed(t, f).metrics, f.side, f, Failed(t, f).metrics.activeIncident)
  {
    MirrorsStep(t, Fail(f));
    TimeoutTypeMatchesCode(f.op, f.isTimeout, f.isDisconnected, f.listener, f.detail);
    CodeIsDeserved(f.op, f.isTimeout, f.isDisconnected, f.listener, f.detail, ReasonOf(f).code);
  }

  lemma SnapshotStays(t: Tracker, e: Event, side: Side)
    requires !(e.Fail? && e.f.side == side)
    ensures Step(t, e).metrics.lastFailure.At(side) == t.metrics.lastFailure.At(side)
    ensures Step(t, e).metrics.lastFailureSeconds.At(side) == t.metrics.lastFailureSeconds.At(side)
  {
  }

  ghost predicate ShowsLatest(startMs: int, es: seq<Event>, n: nat, m: Published, side: Side)
    requires n <= |es|
  {
    match LatestFailure(es, n, side)
    case None => m.lastFailure.At(side) == None && m.lastFailureSeconds.At(side) == 0
    case Some(i) => SnapshotOf(m, side, es[i].f, After(startMs, es, i + 1).metrics.activeIncident)
  }

  /** A side's last-failure snapshot is always that of its latest failure. */
  lemma {:induction false} SnapshotIsLatestFailure(startMs: int, es: seq<Event>, n: nat, side: Side)
    requires n <= |es|
    ensures ShowsLatest(startMs, es, n, After(startMs, es, n).metrics, side)
  {
    if n > 0 {
      if es[n - 1].Fail? && es[n - 1].f.side == side {
        NewSnapshot(startMs, es, n - 1);
      } else {
        SnapshotIsLatestFailure(startMs, es, n - 1, side);
        SnapshotStays(After(startMs, es, n - 1), es[n - 1], side);
      }
    }
  }

  lemma NewSnapshot(startMs: int, es: seq<Event>, n: nat)
    requires n < |es| && es[n].Fail?
    ensures var m := After(startMs, es, n + 1).metrics;
            SnapshotOf(m, es[n].f.side, es[n].f, m.activeIncident)
  {
    IncidentIdsCountUp(startMs, es, n);
    FailureTakesSnapshot(After(startMs, es, n), es[n].f);
  }

  /** A failure's snapshot names the incident that is published once it is recorded. */
  lemma LastFailureNamesItsIncident(startMs: int, es: seq<Event>, n: nat)
    requires n < |es| && es[n].Fail?
    ensures var m := After(startMs, es, n + 1).metrics;
            && m.lastFailure.At(es[n].f.side).Some?
            && m.lastFailure.At(es[n].f.side).value.incident == m.activeIncident
            && (m.activeIncident.Some? <==> m.incidentActive)
  {
    IncidentIdsCountUp(startMs, es, n + 1);
  }

  /** Everything one side of a tracker shows, read off the history of its calls. */
  ghost predicate HistoryOf(startMs: int, es: seq<Event>, t: Tracker, side: Side) {
    && t.sides.At(side).receiveTimeouts == Trailing(es, |es|, side)
    && t.metrics.lastDataMs.At(side) == LastStamp(startMs, es, |es|, side)
    && t.metrics.attempts.At(side) == |Issued(startMs, es, |es|, side)|
    && (t.metrics.activeAttempt.At(side) != 0 <==> exists i: nat :: i < |es| && OpenSince(es, i, |es|, side))
    && CountsAgree(t.metrics, side, Failures(es, 0, |es|, side, false), Failures(es, 0, |es|, side, true))
    && ShowsLatest(startMs, es, |es|, t.metrics, side)
    && forall i: nat :: i < REASON_CODES ==> t.metrics.disconnects.At(side)[i] == CodeFailures(es, |es|, side, ALL_CODES[i])
  }

  lemma HistoryHolds(startMs: int, es: seq<Event>, side: Side)
    ensures HistoryOf(startMs, es, After(startMs, es, |es|), side)
  {
    TimeoutsAreTrailing(startMs, es, |es|, side);
    StampIsLast(startMs, es, |es|, side);
    AttemptIdsCountUp(startMs, es, |es|, side);
    AttemptOpenIffStarted(startMs, es, |es|, side);
    CountersBalance(startMs, es, |es|, side);
    SnapshotIsLatestFailure(startMs, es, |es|, side);
    forall i: nat | i < REASON_CODES {
      EachCodeIsCounted(startMs, es, |es|, side, i);
    }
  }
}
