/** The output sinks as objects (src/relay_output_sinks.cpp:279-561 and 725-933). */
module OutputSinks {
  import opened Common
  import opened ListenerSessions

  /** Survivors across a stretch in which every send went through. */
  lemma {:induction false} AllThrough(sessions: seq<int>, ds: seq<Delivery>, n: nat)
    requires |sessions| == |ds| && n <= |ds| && forall i :: 0 <= i < n ==> ds[i].Sent?
    ensures Survivors(sessions, ds) == sessions[..n] + Survivors(sessions[n..], ds[n..])
    ensures Casualties(sessions, ds) == Casualties(sessions[n..], ds[n..])
  {
    if n > 0 {
      AllThrough(sessions[1..], ds[1..], n - 1);
      assert sessions[1..][n - 1..] == sessions[n..] && ds[1..][n - 1..] == ds[n..];
      assert sessions[..n] == [sessions[0]] + sessions[1..][..n - 1];
    } else {
      assert sessions[0..] == sessions && ds[0..] == ds;
    }
  }

  lemma RemoveAt(a: seq<int>, x: int, r: seq<int>)
    ensures var s := a + [x] + r;
            s[|a|] == x && s[..|a|] + s[|a| + 1..] == a + r
  {
  }

  lemma FromFailure(all: seq<int>, ds: seq<Delivery>, i: nat, b: nat)
    requires i < b <= |all| == |ds| && ds[i].Refused? && forall j :: i < j < b ==> ds[j].Sent?
    ensures Survivors(all[i..], ds[i..]) == all[i + 1..b] + Survivors(all[b..], ds[b..])
    ensures Casualties(all[i..], ds[i..]) == Casualties(all[b..], ds[b..]) + [all[i]]
  {
    var rest, n := all[i + 1..], b - i - 1;
    AllThrough(rest, ds[i + 1..], n);
    assert rest[n..] == all[b..] && ds[i + 1..][n..] == ds[b..] && rest[..n] == all[i + 1..b];
    assert all[i..][1..] == rest && ds[i..][1..] == ds[i + 1..];
  }

  /** Erasing the failed client at `i`, everything from `b` on being done already. */
  lemma EraseOne(all: seq<int>, ds: seq<Delivery>, i: nat, b: nat, s: seq<int>)
    requires i < b <= |all| == |ds| && ds[i].Refused? && forall j :: i < j < b ==> ds[j].Sent?
    requires s == all[..b] + Survivors(all[b..], ds[b..])
    ensures i < |s| && s[i] == all[i] && s[..i] + s[i + 1..] == all[..i] + Survivors(all[i..], ds[i..])
  {
    FromFailure(all, ds, i, b);
    assert all[..b] == all[..i] + [all[i]] + all[i + 1..b];
    RemoveAt(all[..i], all[i], all[i + 1..b] + Survivors(all[b..], ds[b..]));
    assert s == all[..i] + [all[i]] + (all[i + 1..b] + Survivors(all[b..], ds[b..]));
  }

  /** The indices at which a send failed, in ascending order. */
  function RefusedAt(ds: seq<Delivery>): (r: seq<nat>)
  {
    if ds == [] then []
    else RefusedAt(ds[..|ds| - 1]) + if ds[|ds| - 1].Refused? then [|ds| - 1] else []
  }

  /** The last failure, and that none follows it. */
  lemma {:induction false} LastFailure(ds: seq<Delivery>)
    ensures var f := RefusedAt(ds);
            if f == [] then forall i :: 0 <= i < |ds| ==> ds[i].Sent?
            else
              var i := f[|f| - 1];
              && i < |ds| && ds[i].Refused? && (forall j :: i < j < |ds| ==> ds[j].Sent?)
              && f[..|f| - 1] == RefusedAt(ds[..i])
  {
    if ds != [] && ds[|ds| - 1].Sent? {
      var front := ds[..|ds| - 1];
      LastFailure(front);
      assert RefusedAt(ds) == RefusedAt(front);
      if RefusedAt(front) != [] {
        var i := RefusedAt(front)[|RefusedAt(front)| - 1];
        assert front[..i] == ds[..i];
      }
    }
  }

  lemma AnySentSoFar(ds: seq<Delivery>, i: nat)
    requires i < |ds|
    ensures AnySent(ds[..i + 1]) <==> AnySent(ds[..i]) || ds[i].Sent?
  {
  }

  class ListenerSink {
    const fanout: bool
    const maxClients: nat
    var sessions: seq<int>
    var accepted: nat
    var timeouts: nat
    var disconnects: nat
    var otherErrors: nat
    var rejected: nat
    var sendError: ErrorKind

    ghost function State(): Listener
      reads this
    {
      Listener(fanout, maxClients, sessions, accepted, timeouts, disconnects, otherErrors, rejected, sendError)
    }

    constructor (fanout: bool, max: int)
      ensures State() == ListenerSessions.Fresh(fanout, max)
    {
      this.fanout := fanout;
      maxClients := if max < 1 then 1 else max;
      sessions, accepted, timeouts, disconnects, otherErrors, rejected := [], 0, 0, 0, 0, 0;
      sendError := NoError;
    }

    method MaybeAcceptClient(a: Arrival) returns (ok: bool, closed: seq<int>)
      modifies this
      ensures State() == Arrived(old(State()), a) && ok == !ArrivalFails(old(State()), a)
      ensures Possible(old(State()), Arrive(a)) ==> closed == Closes(old(State()), Arrive(a))
    {
      closed := [];
      match a
      case Nobody =>
        ok := sessions != [];
      case AcceptError =>
        ok := false;
      case Client(sock, optionSet) =>
        if |sessions| >= maxClients {
          closed := [sock];
          rejected := rejected + 1;
          return true, closed;
        }
        if !optionSet {
          return false, closed;
        }
        sessions := sessions + [sock];
        accepted := accepted + 1;
        ok := true;
    }

    method RecordClientDrop(kind: ErrorKind)
      modifies this`timeouts, this`disconnects, this`otherErrors
      ensures timeouts == old(timeouts) + (if kind == Timeout then 1 else 0)
      ensures disconnects == old(disconnects) + (if kind == Disconnected then 1 else 0)
      ensures otherErrors == old(otherErrors) + (if kind != Timeout && kind != Disconnected then 1 else 0)
    {
      if kind == Timeout {
        timeouts := timeouts + 1;
      } else if kind == Disconnected {
        disconnects := disconnects + 1;
      } else {
        otherErrors := otherErrors + 1;
      }
    }

    /** Sends to everyone, remembering where it failed. */
    method Broadcast(ds: seq<Delivery>)
      returns (failed: seq<nat>, sentAny: bool, bytes: int, lastError: ErrorKind)
      requires |ds| == |sessions|
      modifies this`timeouts, this`disconnects, this`otherErrors
      ensures failed == RefusedAt(ds) && sentAny == AnySent(ds)
      ensures bytes == BytesSent(ds) && lastError == LastError(ds)
      ensures timeouts == old(timeouts) + Count(ds, true) && disconnects == old(disconnects) + Count(ds, false)
      ensures otherErrors == old(otherErrors)
    {
      failed, sentAny, bytes, lastError := [], false, 0, Disconnected;
      for i := 0 to |ds|
        invariant failed == RefusedAt(ds[..i]) && sentAny == AnySent(ds[..i])
        invariant bytes == BytesSent(ds[..i]) && lastError == LastError(ds[..i])
        invariant timeouts == old(timeouts) + Count(ds[..i], true)
        invariant disconnects == old(disconnects) + Count(ds[..i], false)
        invariant otherErrors == old(otherErrors)
      {
        assert ds[..i + 1][..i] == ds[..i];
        AnySentSoFar(ds, i);
        if ds[i].Refused? {
          lastError := if ds[i].timedOut then Timeout else Disconnected;
          RecordClientDrop(lastError);
          failed := failed + [i];
        } else {
          sentAny := true;
          if bytes == 0 {
            bytes := ds[i].bytes;
          }
        }
      }
      assert ds[..|ds|] == ds;
    }

    /** Removes the failed clients from the back, so that the indices still to be
        removed stay right. */
    method EraseFailed(failed: seq<nat>, ds: seq<Delivery>) returns (closed: seq<int>)
      requires |ds| == |sessions| && failed == RefusedAt(ds)
      modifies this`sessions
      ensures sessions == Survivors(old(sessions), ds) && closed == Casualties(old(sessions), ds)
    {
      ghost var all, b := sessions, |ds|;
      closed := [];
      var k := |failed|;
      assert ds[..|ds|] == ds && failed[..k] == failed;
      while k > 0
        invariant 0 <= k <= |failed| && 0 <= b <= |ds| == |all|
        invariant failed[..k] == RefusedAt(ds[..b])
        invariant sessions == all[..b] + Survivors(all[b..], ds[b..])
        invariant closed == Casualties(all[b..], ds[b..])
      {
        LastFailure(ds[..b]);
        k := k - 1;
        var i := failed[k];
        assert i == failed[..k + 1][k] && failed[..k] == failed[..k + 1][..k] && ds[..b][..i] == ds[..i];
        assert forall j :: 0 <= j < b ==> ds[..b][j] == ds[j];
        EraseOne(all, ds, i, b, sessions);
        FromFailure(all, ds, i, b);
        if i < |sessions| {
          closed := closed + [sessions[i]];
          sessions := sessions[..i] + sessions[i + 1..];
        }
        b := i;
      }
      LastFailure(ds[..b]);
      assert forall j :: 0 <= j < b ==> ds[..b][j] == ds[j];
      AllThrough(all, ds, b);
    }

    method SendFanOut(ds: seq<Delivery>) returns (result: SendResult, closed: seq<int>)
      requires fanout && |ds| == |sessions| && sessions != []
      modifies this
      ensures State() == FannedOut(old(State()), ds) && result == SendOutcome(old(State()), ds)
      ensures closed == Casualties(old(sessions), ds)
    {
      var failed, sentAny, bytes, lastError := Broadcast(ds);
      closed := EraseFailed(failed, ds);
      if sentAny {
        sendError := NoError;
        return SentBytes(bytes), closed;
      }
      sendError := lastError;
      result := SendFailed;
    }

    /** `ds` holds what each client's send would meet. */
    method Send(ds: seq<Delivery>) returns (result: SendResult, closed: seq<int>)
      requires |ds| == |sessions|
      modifies this
      ensures State() == SentTo(old(State()), ds) && result == SendOutcome(old(State()), ds)
      ensures closed == Closes(old(State()), Deliver(ds))
    {
      if sessions == [] {
        sendError := Disconnected;
        return SendFailed, [];
      }
      if fanout {
        result, closed := SendFanOut(ds);
        return;
      }
      closed := [];
      if ds[0].Refused? {
        sendError := if ds[0].timedOut then Timeout else Disconnected;
        return SendFailed, closed;
      }
      sendError := NoError;
      result := SentBytes(ds[0].bytes);
    }

    method CloseAllSessions() returns (closed: seq<int>)
      modifies this`sessions
      ensures State() == ClosedAll(old(State()))
      ensures INVALID_SOCK !in old(sessions) ==> closed == old(sessions)
    {
      closed := [];
      for i := 0 to |sessions|
        invariant sessions == old(sessions) && (INVALID_SOCK !in sessions ==> closed == sessions[..i])
      {
        if sessions[i] != INVALID_SOCK {
          closed := closed + [sessions[i]];
        }
      }
      sessions := [];
    }

    method Perform(e: Event) returns (closed: seq<int>)
      requires Possible(State(), e) && INVALID_SOCK !in sessions
      modifies this
      ensures State() == Step(old(State()), e) && closed == Closes(old(State()), e)
    {
      match e
      case Arrive(a) =>
        var ok;
        ok, closed := MaybeAcceptClient(a);
      case Deliver(ds) =>
        var result;
        result, closed := Send(ds);
      case CloseAll =>
        closed := CloseAllSessions();
    }
  }

  /** One event more of a run. */
  lemma OneEvent(s: Listener, b: Books, es: seq<Event>, i: nat)
    requires i < |es| && AllPossible(s, es[i..])
    ensures Possible(s, es[i]) && AllPossible(Step(s, es[i]), es[i + 1..])
    ensures Run(s, b, es[i..]) == Run(Step(s, es[i]), Book(b, s, es[i]), es[i + 1..])
  {
    assert es[i..][0] == es[i] && es[i..][1..] == es[i + 1..];
  }

  lemma NoEventAddsInvalid(s: Listener, e: Event)
    requires Possible(s, e) && INVALID_SOCK !in s.sessions
    ensures INVALID_SOCK !in Step(s, e).sessions
  {
    if e.Deliver? {
      SurvivorsAndCasualties(s.sessions, e.ds);
    }
  }

  /** A sink from its start through any run of events, with the sockets it closed. */
  method RunListener(fanout: bool, maxClients: int, es: seq<Event>) returns (r: ListenerSink, closed: seq<int>)
    requires AllPossible(ListenerSessions.Fresh(fanout, maxClients), es)
    ensures fresh(r) && r.State() == Run(ListenerSessions.Fresh(fanout, maxClients), OPENING, es).0
    ensures multiset(closed) == Run(ListenerSessions.Fresh(fanout, maxClients), OPENING, es).1.closed
    ensures Accounted(fanout, maxClients, es, r.State(), multiset(closed))
  {
    r := new ListenerSink(fanout, maxClients);
    closed := [];
    ghost var b, start := OPENING, r.State();
    assert es[0..] == es;
    for i := 0 to |es|
      invariant fresh(r) && INVALID_SOCK !in r.sessions && multiset(closed) == b.closed
      invariant AllPossible(r.State(), es[i..]) && Run(r.State(), b, es[i..]) == Run(start, OPENING, es)
    {
      OneEvent(r.State(), b, es, i);
      NoEventAddsInvalid(r.State(), es[i]);
      b := Book(b, r.State(), es[i]);
      var now := r.Perform(es[i]);
      closed := closed + now;
    }
    RunIsAccounted(fanout, maxClients, es);
  }

  /** What the sink's own fields and the sockets it closed add up to after a run. */
  ghost predicate Accounted(fanout: bool, maxClients: int, es: seq<Event>, s: Listener, closed: multiset<int>)
    requires AllPossible(ListenerSessions.Fresh(fanout, maxClients), es)
  {
    var b := Run(ListenerSessions.Fresh(fanout, maxClients), OPENING, es).1;
    && |s.sessions| <= (if maxClients < 1 then 1 else maxClients)
    && s.accepted == |s.sessions| + s.timeouts + s.disconnects + b.bulk
    && |b.obtained| == s.accepted + s.rejected + |b.abandoned|
    && multiset(s.sessions) + closed <= b.obtained
    && (b.obtained == multiset(s.sessions) + closed <==>
          NoOptionFailsWithRoom(ListenerSessions.Fresh(fanout, maxClients), es))
  }

  lemma RunIsAccounted(fanout: bool, maxClients: int, es: seq<Event>)
    requires AllPossible(ListenerSessions.Fresh(fanout, maxClients), es)
    ensures var (s, b) := Run(ListenerSessions.Fresh(fanout, maxClients), OPENING, es);
            Accounted(fanout, maxClients, es, s, b.closed)
  {
    EveryClientIsAccountedFor(fanout, maxClients, es);
    NoSocketLeaksIff(fanout, maxClients, es);
  }

  // ---- Several outputs at once ----

  /** What sending to a child would meet, and what ensuring a child does. */
  datatype ChildEnsure = ChildEnsure(polled: bool, ok: bool, connected: bool, kind: ErrorKind)
  datatype ChildSend = ChildSent(bytes: int) | ChildError(kind: ErrorKind)

  predicate Reached(connected: seq<bool>, outs: seq<ChildSend>, i: nat)
    requires |connected| == |outs|
  {
    i < |outs| && connected[i] && outs[i].ChildSent?
  }

  predicate Lost(connected: seq<bool>, outs: seq<ChildSend>, i: nat)
    requires |connected| == |outs|
  {
    i < |outs| && connected[i] && outs[i].ChildError?
  }

  predicate EnsureFailed(es: seq<ChildEnsure>, i: nat) {
    i < |es| && es[i].polled && !es[i].ok
  }

  class FanoutSink {
    /** Which children are connected. */
    const children: array<bool>
    var sendError: ErrorKind
    var ensureError: ErrorKind
    var publishedConnected: bool

    constructor (connected: seq<bool>)
      ensures fresh(children) && children[..] == connected
    {
      children := new bool[|connected|](i requires 0 <= i < |connected| => connected[i]);
      sendError, ensureError, publishedConnected := NoError, NoError, false;
      new;
      assert children[..] == connected;
    }

    method IsConnected() returns (any: bool)
      ensures any <==> true in children[..]
    {
      for i := 0 to children.Length
        invariant forall j :: 0 <= j < i ==> !children[j]
      {
        if children[i] {
          assert children[..][i];
          return true;
        }
      }
      any := false;
    }

    /** A send reports success if and only if some connected child took it; the
        children left connected are exactly those; the bytes are the first such
        child's non-zero count, and a total failure carries the last child's error. */
    method Send(outs: seq<ChildSend>) returns (result: SendResult)
      requires |outs| == children.Length
      modifies this`sendError, this`publishedConnected, children
      ensures forall i :: 0 <= i < children.Length ==> children[i] == Reached(old(children[..]), outs, i)
      ensures result.SentBytes? <==> exists i: nat :: Reached(old(children[..]), outs, i)
      ensures publishedConnected == result.SentBytes?
      ensures result.SentBytes? ==> sendError == NoError
      ensures result.SentBytes? && result.bytes != 0 ==>
                exists i: nat :: Reached(old(children[..]), outs, i) && outs[i].bytes == result.bytes
                  && forall j: nat :: j < i && Reached(old(children[..]), outs, j) ==> outs[j].bytes == 0
      ensures result.SentBytes? && result.bytes == 0 ==>
                forall i: nat :: Reached(old(children[..]), outs, i) ==> outs[i].bytes == 0
      ensures !result.SentBytes? && (forall i: nat :: !Lost(old(children[..]), outs, i)) ==> sendError == Disconnected
      ensures !result.SentBytes? && (exists i: nat :: Lost(old(children[..]), outs, i)) ==>
                exists i: nat :: Lost(old(children[..]), outs, i) && sendError == outs[i].kind
                  && forall j: nat :: j > i ==> !Lost(old(children[..]), outs, j)
    {
      ghost var was := children[..];
      sendError := NoError;
      var sentAny, hadError, bytes := false, false, 0;
      ghost var first, last: nat := 0, 0;
      for i := 0 to children.Length
        invariant forall j :: 0 <= j < children.Length ==> children[j] == if j < i then Reached(was, outs, j) else was[j]
        invariant sentAny <==> exists j: nat :: j < i && Reached(was, outs, j)
        invariant bytes != 0 ==> first < i && Reached(was, outs, first) && outs[first].bytes == bytes
        invariant bytes != 0 ==> forall j: nat :: j < first && Reached(was, outs, j) ==> outs[j].bytes == 0
        invariant bytes == 0 ==> forall j: nat :: j < i && Reached(was, outs, j) ==> outs[j].bytes == 0
        invariant !hadError ==> forall j: nat :: j < i ==> !Lost(was, outs, j)
        invariant hadError ==> last < i && Lost(was, outs, last) && sendError == outs[last].kind
                               && forall j: nat :: last < j < i ==> !Lost(was, outs, j)
      {
        assert children[i] == was[i];
        if children[i] {
          match outs[i]
          case ChildError(kind) =>
            assert Lost(was, outs, i);
            hadError, sendError, last := true, kind, i;
            children[i] := false;
          case ChildSent(n) =>
            assert Reached(was, outs, i);
            sentAny := true;
            if bytes == 0 {
              bytes, first := n, i;
            }
        }
      }
      publishedConnected := IsConnected();
      assert publishedConnected <==> sentAny by {
        assert forall j :: 0 <= j < children.Length ==> children[..][j] == Reached(was, outs, j);
      }
      if sentAny {
        sendError := NoError;
        return SentBytes(bytes);
      }
      if !hadError {
        sendError := Disconnected;
      }
      result := SendFailed;
    }

    /** Ensuring fails only when a polled child failed and no child is connected
        afterwards; one working output hides the others' failures. */
    method EnsureReady(es: seq<ChildEnsure>) returns (ok: bool)
      requires |es| == children.Length
      modifies this`ensureError, this`publishedConnected, children
      ensures forall i :: 0 <= i < children.Length ==>
                children[i] == if es[i].polled then es[i].connected else old(children[i])
      ensures publishedConnected <==> true in children[..]
      ensures ok <==> (true in children[..]) || forall i: nat :: !EnsureFailed(es, i)
      ensures (forall i: nat :: !EnsureFailed(es, i)) ==> ensureError == NoError
      ensures (exists i: nat :: EnsureFailed(es, i)) ==>
                exists i: nat :: EnsureFailed(es, i) && ensureError == es[i].kind
                  && forall j: nat :: j > i ==> !EnsureFailed(es, j)
    {
      ensureError := NoError;
      var hadError := false;
      ghost var last: nat := 0;
      for i := 0 to children.Length
        invariant forall j :: 0 <= j < children.Length ==>
                    children[j] == if j < i && es[j].polled then es[j].connected else old(children[j])
        invariant !hadError ==> ensureError == NoError && forall j: nat :: j < i ==> !EnsureFailed(es, j)
        invariant hadError ==> last < i && EnsureFailed(es, last) && ensureError == es[last].kind
                               && forall j: nat :: last < j < i ==> !EnsureFailed(es, j)
      {
        if es[i].polled {
          children[i] := es[i].connected;
          if !es[i].ok {
            assert EnsureFailed(es, i);
            hadError, ensureError, last := true, es[i].kind, i;
          }
        }
      }
      publishedConnected := IsConnected();
      ok := publishedConnected || !hadError;
    }
  }
}
