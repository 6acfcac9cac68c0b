/** The client list of a listening SRT output (src/relay_output_sinks.cpp:279-561),
    on values: bounded accepting, fan-out sending that drops exactly the clients
    whose send failed, and the counters that account for every client. */
module ListenerSessions {
  import opened Common

  /** What accepting meets: nobody waiting, a hard error, or a client socket whose
      send-timeout option could or could not be set. */
  datatype Arrival = Nobody | AcceptError | Client(sock: int, optionSet: bool)

  /** What one client's send meets; the library's errors are timeouts or disconnects. */
  datatype Delivery = Sent(bytes: int) | Refused(timedOut: bool)

  datatype Listener = Listener(
    fanout: bool, maxClients: nat, sessions: seq<int>,
    accepted: nat, timeouts: nat, disconnects: nat, otherErrors: nat, rejected: nat,
    sendError: ErrorKind)

  datatype SendResult = SentBytes(bytes: int) | SendFailed

  function Fresh(fanout: bool, maxClients: int): Listener {
    Listener(fanout, if maxClients < 1 then 1 else maxClients, [], 0, 0, 0, 0, 0, NoError)
  }

  // ---- Accepting ----

  function Arrived(s: Listener, a: Arrival): Listener {
    if !a.Client? then s
    else if |s.sessions| >= s.maxClients then s.(rejected := s.rejected + 1)
    else if !a.optionSet then s
    else s.(sessions := s.sessions + [a.sock], accepted := s.accepted + 1)
  }

  /** Whether the call reports an error. */
  predicate ArrivalFails(s: Listener, a: Arrival) {
    match a
    case Nobody => s.sessions == []
    case AcceptError => true
    case Client(_, optionSet) => |s.sessions| < s.maxClients && !optionSet
  }

  // ---- Sending ----

  /** The clients whose send went through, in order. */
  function Survivors(sessions: seq<int>, ds: seq<Delivery>): (r: seq<int>)
    requires |sessions| == |ds|
    ensures |r| <= |sessions|
  {
    if sessions == [] then []
    else (if ds[0].Sent? then [sessions[0]] else []) + Survivors(sessions[1..], ds[1..])
  }

  /** The clients closed by a fan-out send, last one first. */
  function Casualties(sessions: seq<int>, ds: seq<Delivery>): (r: seq<int>)
    requires |sessions| == |ds|
  {
    if sessions == [] then []
    else Casualties(sessions[1..], ds[1..]) + (if ds[0].Sent? then [] else [sessions[0]])
  }

  function Count(ds: seq<Delivery>, timedOut: bool): nat {
    if ds == [] then 0
    else Count(ds[..|ds| - 1], timedOut) + if ds[|ds| - 1] == Refused(timedOut) then 1 else 0
  }

  predicate AnySent(ds: seq<Delivery>) {
    exists i :: 0 <= i < |ds| && ds[i].Sent?
  }

  /** The first non-zero byte count among the sends that went through. */
  function BytesSent(ds: seq<Delivery>): int {
    if ds == [] then 0
    else
      var earlier := BytesSent(ds[..|ds| - 1]);
      if earlier == 0 && ds[|ds| - 1].Sent? then ds[|ds| - 1].bytes else earlier
  }

  /** The kind of the last refused send. */
  function LastError(ds: seq<Delivery>): ErrorKind {
    if ds == [] then Disconnected
    else match ds[|ds| - 1]
      case Refused(timedOut) => if timedOut then Timeout else Disconnected
      case Sent(_) => LastError(ds[..|ds| - 1])
  }

  function FannedOut(s: Listener, ds: seq<Delivery>): Listener
    requires |ds| == |s.sessions|
  {
    s.(sessions := Survivors(s.sessions, ds),
       timeouts := s.timeouts + Count(ds, true), disconnects := s.disconnects + Count(ds, false),
       sendError := if AnySent(ds) then NoError else LastError(ds))
  }

  /** A single-client send drops nobody; the relay loop closes the list on failure. */
  function SentToFirst(s: Listener, d: Delivery): Listener {
    s.(sendError := if d.Sent? then NoError else if d.timedOut then Timeout else Disconnected)
  }

  function SentTo(s: Listener, ds: seq<Delivery>): Listener
    requires |ds| == |s.sessions|
  {
    if s.sessions == [] then s.(sendError := Disconnected)
    else if !s.fanout then SentToFirst(s, ds[0])
    else FannedOut(s, ds)
  }

  function SendOutcome(s: Listener, ds: seq<Delivery>): SendResult
    requires |ds| == |s.sessions|
  {
    if s.sessions == [] then SendFailed
    else if !s.fanout then (if ds[0].Sent? then SentBytes(ds[0].bytes) else SendFailed)
    else if AnySent(ds) then SentBytes(BytesSent(ds)) else SendFailed
  }

  // ---- Closing ----

  function ClosedAll(s: Listener): Listener {
    s.(sessions := [])
  }

  // ---- Runs, and where every socket went ----

  datatype Event = Arrive(a: Arrival) | Deliver(ds: seq<Delivery>) | CloseAll

  predicate Possible(s: Listener, e: Event) {
    && (e.Arrive? && e.a.Client? ==> e.a.sock != INVALID_SOCK)
    && (e.Deliver? ==> |e.ds| == |s.sessions|)
  }

  function Step(s: Listener, e: Event): Listener
    requires Possible(s, e)
  {
    match e
    case Arrive(a) => Arrived(s, a)
    case Deliver(ds) => SentTo(s, ds)
    case CloseAll => ClosedAll(s)
  }

  /** The sockets an event closes. */
  function Closes(s: Listener, e: Event): seq<int>
    requires Possible(s, e)
  {
    match e
    case Arrive(a) => if a.Client? && |s.sessions| >= s.maxClients then [a.sock] else []
    case Deliver(ds) => if s.fanout then Casualties(s.sessions, ds) else []
    case CloseAll => s.sessions
  }

  /** The sockets handed to the sink by accepting; those closed; those neither kept
      nor closed; and how many were closed in bulk. */
  datatype Books = Books(obtained: multiset<int>, closed: multiset<int>, abandoned: multiset<int>, bulk: nat)

  const OPENING := Books(multiset{}, multiset{}, multiset{}, 0)

  function Abandons(s: Listener, e: Event): multiset<int> {
    if e.Arrive? && e.a.Client? && |s.sessions| < s.maxClients && !e.a.optionSet then multiset{e.a.sock} else multiset{}
  }

  function Book(b: Books, s: Listener, e: Event): Books
    requires Possible(s, e)
  {
    Books(b.obtained + (if e.Arrive? && e.a.Client? then multiset{e.a.sock} else multiset{}),
          b.closed + multiset(Closes(s, e)),
          b.abandoned + Abandons(s, e),
          b.bulk + if e.CloseAll? then |s.sessions| else 0)
  }

  ghost predicate Balanced(s: Listener, b: Books) {
    && |s.sessions| <= s.maxClients
    && INVALID_SOCK !in s.sessions
    && b.obtained == multiset(s.sessions) + b.closed + b.abandoned
    && s.accepted == |s.sessions| + s.timeouts + s.disconnects + s.otherErrors + b.bulk
    && s.otherErrors == 0
    && |b.obtained| == s.accepted + s.rejected + |b.abandoned|
  }

  lemma {:induction false} SurvivorsAndCasualties(sessions: seq<int>, ds: seq<Delivery>)
    requires |sessions| == |ds|
    ensures multiset(sessions) == multiset(Survivors(sessions, ds)) + multiset(Casualties(sessions, ds))
    ensures forall x <- Survivors(sessions, ds) :: x in sessions
  {
    if sessions != [] {
      SurvivorsAndCasualties(sessions[1..], ds[1..]);
      assert sessions == [sessions[0]] + sessions[1..];
    }
  }

  lemma {:induction false} CountSplit(ds: seq<Delivery>, timedOut: bool)
    ensures ds != [] ==> Count(ds, timedOut) == (if ds[0] == Refused(timedOut) then 1 else 0) + Count(ds[1..], timedOut)
  {
    if |ds| > 1 {
      CountSplit(ds[..|ds| - 1], timedOut);
      assert ds[..|ds| - 1][1..] == ds[1..][..|ds| - 2];
    }
  }

  lemma {:induction false} EveryoneIsCounted(sessions: seq<int>, ds: seq<Delivery>)
    requires |sessions| == |ds|
    ensures |sessions| == |Survivors(sessions, ds)| + Count(ds, true) + Count(ds, false)
  {
    if sessions != [] {
      EveryoneIsCounted(sessions[1..], ds[1..]);
      CountSplit(ds, true);
      CountSplit(ds, false);
    }
  }

  lemma ClientKeepsBalance(s: Listener, b: Books, a: Arrival)
    requires Balanced(s, b) && a.Client? && Possible(s, Arrive(a))
    ensures Balanced(Arrived(s, a), Book(b, s, Arrive(a)))
  {
    if |s.sessions| >= s.maxClients {
      assert multiset([a.sock]) == multiset{a.sock};
    } else if a.optionSet {
      assert multiset(s.sessions + [a.sock]) == multiset(s.sessions) + multiset{a.sock};
    }
  }

  lemma ArrivalKeepsBalance(s: Listener, b: Books, a: Arrival)
    requires Balanced(s, b) && Possible(s, Arrive(a))
    ensures Balanced(Arrived(s, a), Book(b, s, Arrive(a)))
  {
    if a.Client? {
      ClientKeepsBalance(s, b, a);
    } else {
      assert Book(b, s, Arrive(a)) == b;
    }
  }

  lemma FanOutKeepsBalance(s: Listener, b: Books, ds: seq<Delivery>)
    requires Balanced(s, b) && |ds| == |s.sessions|
    ensures Balanced(FannedOut(s, ds), b.(closed := b.closed + multiset(Casualties(s.sessions, ds))))
  {
    SurvivorsAndCasualties(s.sessions, ds);
    EveryoneIsCounted(s.sessions, ds);
  }

  lemma DeliveryKeepsBalance(s: Listener, b: Books, ds: seq<Delivery>)
    requires Balanced(s, b) && |ds| == |s.sessions|
    ensures Balanced(SentTo(s, ds), Book(b, s, Deliver(ds)))
  {
    assert Book(b, s, Deliver(ds)) == b.(closed := b.closed + multiset(Closes(s, Deliver(ds))));
    if s.fanout && s.sessions != [] {
      FanOutKeepsBalance(s, b, ds);
    } else {
      assert Closes(s, Deliver(ds)) == [];
    }
  }

  lemma StepKeepsBalance(s: Listener, b: Books, e: Event)
    requires Balanced(s, b) && Possible(s, e)
    ensures Balanced(Step(s, e), Book(b, s, e))
  {
    match e
    case Arrive(a) => ArrivalKeepsBalance(s, b, a);
    case Deliver(ds) => DeliveryKeepsBalance(s, b, ds);
    case CloseAll =>
  }

  ghost predicate AllPossible(s: Listener, es: seq<Event>)
    decreases |es|
  {
    es == [] || (Possible(s, es[0]) && AllPossible(Step(s, es[0]), es[1..]))
  }

  function Run(s: Listener, b: Books, es: seq<Event>): (Listener, Books)
    requires AllPossible(s, es)
    decreases |es|
  {
    if es == [] then (s, b) else Run(Step(s, es[0]), Book(b, s, es[0]), es[1..])
  }

  lemma {:induction false} RunKeepsBalance(s: Listener, b: Books, es: seq<Event>)
    requires Balanced(s, b) && AllPossible(s, es)
    ensures Balanced(Run(s, b, es).0, Run(s, b, es).1)
    decreases |es|
  {
    if es != [] {
      StepKeepsBalance(s, b, es[0]);
      RunKeepsBalance(Step(s, es[0]), Book(b, s, es[0]), es[1..]);
    }
  }

  /** Over any run the list never exceeds its bound; clients accepted are those still
      there, those dropped by reason and those closed in bulk; every client that arrives
      is accepted, turned away or abandoned; and every socket obtained is held, closed or
      abandoned, and none of them twice. */
  lemma EveryClientIsAccountedFor(fanout: bool, maxClients: int, es: seq<Event>)
    requires AllPossible(Fresh(fanout, maxClients), es)
    ensures var (s, b) := Run(Fresh(fanout, maxClients), OPENING, es);
            && |s.sessions| <= (if maxClients < 1 then 1 else maxClients)
            && s.accepted == |s.sessions| + s.timeouts + s.disconnects + b.bulk
            && s.otherErrors == 0
            && |b.obtained| == s.accepted + s.rejected + |b.abandoned|
            && b.obtained == multiset(s.sessions) + b.closed + b.abandoned
  {
    RunKeepsBalance(Fresh(fanout, maxClients), OPENING, es);
    RunKeepsLimits(Fresh(fanout, maxClients), OPENING, es);
  }

  lemma {:induction false} RunKeepsLimits(s: Listener, b: Books, es: seq<Event>)
    requires AllPossible(s, es)
    ensures Run(s, b, es).0.maxClients == s.maxClients && Run(s, b, es).0.fanout == s.fanout
    decreases |es|
  {
    if es != [] {
      RunKeepsLimits(Step(s, es[0]), Book(b, s, es[0]), es[1..]);
    }
  }

  lemma {:induction false} NothingAbandonedIff(s: Listener, b: Books, es: seq<Event>)
    requires AllPossible(s, es)
    ensures Run(s, b, es).1.abandoned == b.abandoned <==> NoOptionFailsWithRoom(s, es)
    ensures b.abandoned <= Run(s, b, es).1.abandoned
    decreases |es|
  {
    if es != [] {
      NothingAbandonedIff(Step(s, es[0]), Book(b, s, es[0]), es[1..]);
      var last := Run(s, b, es).1.abandoned;
      if Abandons(s, es[0]) != multiset{} {
        var x := es[0].a.sock;
        assert Book(b, s, es[0]).abandoned[x] == b.abandoned[x] + 1 <= last[x];
      } else {
        assert Book(b, s, es[0]).abandoned == b.abandoned;
      }
    }
  }

  ghost predicate NoOptionFailsWithRoom(s: Listener, es: seq<Event>)
    requires AllPossible(s, es)
    decreases |es|
  {
    es != [] ==>
      && !(es[0].Arrive? && es[0].a.Client? && |s.sessions| < s.maxClients && !es[0].a.optionSet)
      && NoOptionFailsWithRoom(Step(s, es[0]), es[1..])
  }

  lemma NothingMore(a: multiset<int>, b: multiset<int>)
    ensures a <= a + b && (a + b == a <==> b == multiset{})
  {
    assert |a + b| == |a| + |b|;
  }

  /** Every socket the sink ever obtained is one it still holds or has closed, if and
      only if no client's option failed while there was room. */
  lemma NoSocketLeaksIff(fanout: bool, maxClients: int, es: seq<Event>)
    requires AllPossible(Fresh(fanout, maxClients), es)
    ensures var (s, b) := Run(Fresh(fanout, maxClients), OPENING, es);
            && multiset(s.sessions) + b.closed <= b.obtained
            && (b.obtained == multiset(s.sessions) + b.closed <==> NoOptionFailsWithRoom(Fresh(fanout, maxClients), es))
  {
    var (s, b) := Run(Fresh(fanout, maxClients), OPENING, es);
    RunKeepsBalance(Fresh(fanout, maxClients), OPENING, es);
    NothingAbandonedIff(Fresh(fanout, maxClients), OPENING, es);
    NothingMore(multiset(s.sessions) + b.closed, b.abandoned);
  }

  /** Such a client: its option fails, and not even closing everything closes it. */
  lemma OneFailedOptionLeaks()
    ensures var start, es := Fresh(true, 4), [Arrive(Client(5, false)), CloseAll];
            AllPossible(start, es) && Run(start, OPENING, es).0.sessions == []
            && Run(start, OPENING, es).1.obtained == multiset{5} && Run(start, OPENING, es).1.closed == multiset{}
  {
    var start, es := Fresh(true, 4), [Arrive(Client(5, false)), CloseAll];
    assert es[1..] == [CloseAll] && es[1..][1..] == [] && Step(start, es[0]) == start;
  }

  /** A fan-out send fails only if it reached nobody, and then nobody is left; in
      all cases it leaves exactly the clients it reached. */
  lemma FanOutReachesSurvivors(s: Listener, ds: seq<Delivery>)
    requires s.fanout && |ds| == |s.sessions|
    ensures SendOutcome(s, ds) == SendFailed <==> !AnySent(ds)
    ensures SendOutcome(s, ds) == SendFailed <==> SentTo(s, ds).sessions == []
  {
    SomeSurvivor(s.sessions, ds);
  }

  lemma {:induction false} SomeSurvivor(sessions: seq<int>, ds: seq<Delivery>)
    requires |sessions| == |ds|
    ensures Survivors(sessions, ds) != [] <==> AnySent(ds)
  {
    if sessions != [] {
      SomeSurvivor(sessions[1..], ds[1..]);
      assert forall i :: 0 <= i < |ds| - 1 ==> ds[1..][i] == ds[i + 1];
      if AnySent(ds) && !ds[0].Sent? {
        var i :| 0 <= i < |ds| && ds[i].Sent?;
        assert ds[1..][i - 1].Sent?;
      }
    }
  }

  /** The bytes reported are those of the first client that took any. */
  lemma {:induction false} BytesOfFirst(ds: seq<Delivery>) returns (i: nat)
    ensures BytesSent(ds) != 0 ==> i < |ds| && ds[i].Sent? && ds[i].bytes == BytesSent(ds)
    ensures BytesSent(ds) != 0 ==> forall j :: 0 <= j < i && ds[j].Sent? ==> ds[j].bytes == 0
    ensures BytesSent(ds) == 0 ==> forall j :: 0 <= j < |ds| && ds[j].Sent? ==> ds[j].bytes == 0
  {
    i := 0;
    if ds != [] {
      i := BytesOfFirst(ds[..|ds| - 1]);
      if BytesSent(ds[..|ds| - 1]) == 0 {
        i := |ds| - 1;
      }
    }
  }

  /** The error reported is that of the last client that failed. */
  lemma {:induction false} ErrorOfLast(ds: seq<Delivery>, i: nat)
    requires i < |ds| && ds[i].Refused? && forall j :: i < j < |ds| ==> ds[j].Sent?
    ensures LastError(ds) == if ds[i].timedOut then Timeout else Disconnected
  {
    if i < |ds| - 1 {
      ErrorOfLast(ds[..|ds| - 1], i);
    }
  }

  // ---- What one call does ----

  /** Ensuring the sink fails exactly when it leaves no client, when accepting itself
      fails, or when a client's option does; an arrival that finds the list full is
      closed and counted, and changes nothing else. */
  lemma ArrivalOutcome(s: Listener, a: Arrival)
    requires s.maxClients > 0 && Possible(s, Arrive(a))
    ensures ArrivalFails(s, a) <==>
            || Arrived(s, a).sessions == []
            || a == AcceptError
            || (a.Client? && !a.optionSet && |s.sessions| < s.maxClients)
    ensures a.Client? && |s.sessions| >= s.maxClients ==>
              Closes(s, Arrive(a)) == [a.sock] && Arrived(s, a) == s.(rejected := s.rejected + 1)
    ensures a.Client? && |s.sessions| < s.maxClients && a.optionSet ==>
              Closes(s, Arrive(a)) == [] && Arrived(s, a) == s.(sessions := s.sessions + [a.sock], accepted := s.accepted + 1)
    ensures !a.Client? || (|s.sessions| < s.maxClients && !a.optionSet) ==>
              Closes(s, Arrive(a)) == [] && Arrived(s, a) == s
  {
  }

  lemma {:induction false} LastErrorIsError(ds: seq<Delivery>)
    ensures LastError(ds) == Timeout || LastError(ds) == Disconnected
    ensures ds == [] ==> LastError(ds) == Disconnected
  {
    if ds != [] {
      LastErrorIsError(ds[..|ds| - 1]);
    }
  }

  /** A send and the error it leaves agree in every mode; a single client's result is its
      own; and nothing but a fan-out send closes or drops a client. */
  lemma SendOutcomeMeans(s: Listener, ds: seq<Delivery>)
    requires |ds| == |s.sessions|
    ensures SendOutcome(s, ds).SentBytes? <==> SentTo(s, ds).sendError == NoError
    ensures s.sessions == [] ==> SentTo(s, ds) == s.(sendError := Disconnected)
    ensures s.sessions != [] && !s.fanout ==>
              && SentTo(s, ds) == s.(sendError := SentTo(s, ds).sendError) && Closes(s, Deliver(ds)) == []
              && match ds[0]
                 case Sent(bytes) => SendOutcome(s, ds) == SentBytes(bytes)
                 case Refused(timedOut) =>
                   && SendOutcome(s, ds) == SendFailed
                   && (SentTo(s, ds).sendError == Timeout <==> timedOut)
                   && (SentTo(s, ds).sendError == Disconnected <==> !timedOut)
  {
    LastErrorIsError(ds);
  }

  ghost function RefusedIndices(ds: seq<Delivery>, timedOut: bool): set<nat> {
    set i: nat | i < |ds| && ds[i] == Refused(timedOut)
  }

  lemma {:induction false} CountIsSize(ds: seq<Delivery>, timedOut: bool)
    ensures Count(ds, timedOut) == |RefusedIndices(ds, timedOut)|
  {
    if ds != [] {
      var n := |ds| - 1;
      CountIsSize(ds[..n], timedOut);
      var last: set<nat> := if ds[n] == Refused(timedOut) then {n} else {};
      assert RefusedIndices(ds, timedOut) == RefusedIndices(ds[..n], timedOut) + last;
    }
  }

  /** A fan-out send: each reason's counter grows by the clients refused for it; if
      somebody took the message the bytes are those of the first to take any, and if
      nobody did the error is that of the last client. */
  lemma FanOutMeans(s: Listener, ds: seq<Delivery>)
    requires s.fanout && s.sessions != [] && |ds| == |s.sessions|
    ensures var r := SentTo(s, ds);
            && r.timeouts == s.timeouts + |RefusedIndices(ds, true)|
            && r.disconnects == s.disconnects + |RefusedIndices(ds, false)|
            && r == s.(sessions := r.sessions, timeouts := r.timeouts, disconnects := r.disconnects, sendError := r.sendError)
    ensures match SendOutcome(s, ds)
            case SentBytes(bytes) =>
              if bytes == 0 then forall j :: 0 <= j < |ds| && ds[j].Sent? ==> ds[j].bytes == 0
              else exists i :: 0 <= i < |ds| && ds[i] == Sent(bytes) && forall j :: 0 <= j < i && ds[j].Sent? ==> ds[j].bytes == 0
            case SendFailed =>
              && (forall j :: 0 <= j < |ds| ==> ds[j].Refused?)
              && SentTo(s, ds).sendError == if ds[|ds| - 1].timedOut then Timeout else Disconnected
  {
    CountIsSize(ds, true);
    CountIsSize(ds, false);
    var i := BytesOfFirst(ds);
  }

  /** Who survives a fan-out send: what a list gives is what its two parts give, ... */
  lemma {:induction false} SurvivorsInOrder(a: seq<int>, b: seq<int>, da: seq<Delivery>, db: seq<Delivery>)
    requires |a| == |da| && |b| == |db|
    ensures Survivors(a + b, da + db) == Survivors(a, da) + Survivors(b, db)
  {
    if a == [] {
      assert a + b == b && da + db == db;
    } else {
      TailOfBoth(a, b);
      TailOfBoth(da, db);
      SurvivorsInOrder(a[1..], b, da[1..], db);
      var first := if da[0].Sent? then [a[0]] else [];
      assert Survivors(a + b, da + db) == first + Survivors(a[1..] + b, da[1..] + db);
    }
  }

  lemma TailOfBoth<T>(a: seq<T>, b: seq<T>)
    requires a != []
    ensures (a + b)[1..] == a[1..] + b
  {
  }

  /** ... and one client survives exactly if it was sent to, and is closed otherwise. */
  lemma OneSurvivor(x: int, d: Delivery)
    ensures Survivors([x], [d]) == if d.Sent? then [x] else []
    ensures Casualties([x], [d]) == if d.Sent? then [] else [x]
  {
  }
}
