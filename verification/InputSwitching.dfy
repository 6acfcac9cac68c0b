/** Failover between input sources (src/relay_input_sources.cpp:554-772), on
    values, and the order in which the relay loop drives it
    (src/relay_runtime.cpp:452-519 and 589-660).

    A source is a socket that is open or closed, or standard input.  What a probe
    or a receive meets outside the process is an input to each call. */
module InputSwitching {
  import opened Common

  datatype Source = Socket(open: bool) | Stdin(eof: bool)

  /** The outcome of opening a closed socket. */
  datatype Probe = Ready | NotReady(kind: ErrorKind)

  datatype Rx = Data | NoData(kind: ErrorKind) | EndOfInput

  /** Preferred-primary when `primary` is set, else round robin. */
  datatype Config = Config(primary: Option<nat>, delayed: bool)

  datatype Switch = Switch(
    sources: seq<Source>,
    active: nat,
    candidate: Option<nat>,
    pendingStop: Option<nat>,
    switches: nat,
    ensureError: ErrorKind,
    receiveError: ErrorKind)

  predicate IsConnected(s: Source) {
    match s
    case Socket(open) => open
    case Stdin(eof) => !eof
  }

  /** Whether ensuring the source succeeds: an open one needs no probe. */
  predicate Opens(s: Source, p: Probe) {
    IsConnected(s) || (s.Socket? && p.Ready?)
  }

  function Opened(s: Source): Source {
    match s case Socket(_) => Socket(true) case Stdin(_) => s
  }

  function EnsureFailure(s: Source, p: Probe): ErrorKind {
    if s.Stdin? then Disconnected else if p.NotReady? then p.kind else NoError
  }

  /** A source told of a receive error drops its session; standard input has none. */
  function Closed(s: Source): Source {
    match s case Socket(_) => Socket(false) case Stdin(_) => s
  }

  predicate WellSized(cfg: Config, s: Switch) {
    && s.active < |s.sources|
    && (cfg.primary.Some? ==> cfg.primary.value < |s.sources|)
  }

  function WithoutPendingStop(s: Switch): Switch {
    match s.pendingStop
    case None => s
    case Some(i) =>
      s.(pendingStop := None, sources := if i < |s.sources| then s.sources[i := Closed(s.sources[i])] else s.sources)
  }

  /** The index `k` places after `from` in cyclic order, (from + k) modulo n. */
  function Cyclic(from: nat, k: nat, n: nat): (r: nat)
    requires from < n && k < n
    ensures r < n
  {
    if from + k < n then from + k else from + k - n
  }

  lemma CyclicIsModulo(from: nat, k: nat, n: nat)
    requires from < n && k < n
    ensures Cyclic(from, k, n) == (from + k) % n
  {
    var x := from + k;
    if x < n {
      QuotientIs(x, n, 0, x);
    } else {
      QuotientIs(x, n, 1, x - n);
    }
  }

  /** Division with remainder is unique. */
  lemma QuotientIs(x: nat, n: nat, q: nat, r: nat)
    requires r < n && x == n * q + r
    ensures x % n == r
  {
    var q', r' := x / n, x % n;
    assert n * (q' - q) == r - r' && n * (q - q') == r' - r;
    if q' > q {
      AtLeast(n, q' - q);
    } else if q' < q {
      AtLeast(n, q - q');
    }
  }

  lemma {:induction false} AtLeast(n: nat, d: nat)
    requires d > 0
    ensures n * d >= n
  {
    if d > 1 {
      AtLeast(n, d - 1);
      assert n * d == n * (d - 1) + n;
    }
  }

  /** Source `k` places after `from` can be ensured. */
  predicate OpensAt(sources: seq<Source>, probes: seq<Probe>, from: nat, k: nat)
    requires from < |sources| == |probes| && k < |sources|
  {
    Opens(sources[Cyclic(from, k, |sources|)], probes[Cyclic(from, k, |sources|)])
  }

  /** The least offset from `offset` on whose source, counted cyclically from
      `from`, can be ensured; the number of sources if there is none. */
  function FirstReady(sources: seq<Source>, probes: seq<Probe>, from: nat, offset: nat): (r: nat)
    requires from < |sources| == |probes| && offset <= |sources|
    ensures offset <= r <= |sources|
    ensures r < |sources| ==> OpensAt(sources, probes, from, r)
    ensures forall j :: offset <= j < r ==> !OpensAt(sources, probes, from, j)
    decreases |sources| - offset
  {
    if offset == |sources| || OpensAt(sources, probes, from, offset) then offset
    else FirstReady(sources, probes, from, offset + 1)
  }

  /** The sources once `to` has been started, and nothing stopped yet. */
  function Midway(s: Switch, to: nat): seq<Source>
    requires to < |s.sources|
  {
    s.sources[to := Opened(s.sources[to])]
  }

  /** Makes `to` active: starts it first, then closes the source active before. */
  function CutOver(s: Switch, to: nat): Switch
    requires s.active < |s.sources| && to < |s.sources|
  {
    var sources := Midway(s, to);
    s.(sources := sources[s.active := Closed(sources[s.active])], active := to, candidate := None,
       switches := s.switches + 1)
  }

  /** The active source could not be ensured: fall back on the next that can. */
  function Fallback(s: Switch, probes: seq<Probe>): (Switch, bool)
    requires s.active < |s.sources| == |probes|
  {
    var offset := FirstReady(s.sources, probes, s.active, 1);
    if offset == |s.sources| then
      (s.(ensureError := EnsureFailure(s.sources[s.active], probes[s.active])), false)
    else
      (CutOver(s.(ensureError := NoError), Cyclic(s.active, offset, |s.sources|)), true)
  }

  /** The active source is ready: look after the preferred primary. */
  function FollowPrimary(cfg: Config, s: Switch, probes: seq<Probe>): Switch
    requires s.active < |s.sources| == |probes|
  {
    if cfg.primary.None? then s
    else
      var p := cfg.primary.value;
      if p >= |s.sources| || p == s.active then s.(candidate := None)
      else if !Opens(s.sources[p], probes[p]) then s
      else if !cfg.delayed then CutOver(s, p)
      else s.(sources := Midway(s, p), candidate := Some(p))
  }

  /** How an ensure begins: the pending stop carried out, the last error forgotten. */
  function Refreshed(s: Switch): Switch {
    WithoutPendingStop(s).(ensureError := NoError)
  }

  function Ensure(cfg: Config, s: Switch, probes: seq<Probe>): (Switch, bool)
    requires s.active < |s.sources| == |probes|
  {
    var s1 := Refreshed(s);
    if Opens(s1.sources[s.active], probes[s.active]) then
      (FollowPrimary(cfg, s1.(sources := Midway(s1, s.active)), probes), true)
    else Fallback(s1, probes)
  }

  function ErrorOf(r: Rx): ErrorKind {
    match r case Data => NoError case NoData(kind) => kind case EndOfInput => Disconnected
  }

  function ReceiveActive(s: Switch, rx: seq<Rx>): (Switch, bool)
    requires s.active < |s.sources| == |rx|
  {
    var r := rx[s.active];
    var source := if r.EndOfInput? && s.sources[s.active].Stdin? then Stdin(true) else s.sources[s.active];
    (s.(sources := s.sources[s.active := source], receiveError := ErrorOf(r)), r.Data?)
  }

  /** In delayed mode the candidate is tried first, and takes over when it delivers. */
  function Receive(cfg: Config, s: Switch, rx: seq<Rx>): (Switch, bool)
    requires s.active < |s.sources| == |rx|
  {
    if !cfg.delayed || s.candidate.None? then ReceiveActive(s, rx)
    else
      var d := s.candidate.value;
      if d >= |s.sources| || d == s.active || s.sources[d].Stdin? then ReceiveActive(s.(candidate := None), rx)
      else if rx[d].Data? then
        (s.(pendingStop := Some(s.active), active := d, candidate := None, switches := s.switches + 1,
            receiveError := NoError), true)
      else if ErrorOf(rx[d]) != Timeout then ReceiveActive(s.(candidate := None), rx)
      else ReceiveActive(s, rx)
  }

  function HandleError(s: Switch): Switch
    requires s.active < |s.sources|
  {
    var s1 := s.(sources := s.sources[s.active := Closed(s.sources[s.active])], candidate := None);
    if |s.sources| <= 1 then s1
    else s1.(active := Cyclic(s.active, 1, |s.sources|), switches := s.switches + 1)
  }

  predicate NeedsEnsurePoll(cfg: Config, s: Switch)
    requires s.active < |s.sources|
  {
    || s.pendingStop.Some?
    || !IsConnected(s.sources[s.active])
    || (cfg.primary.Some? && cfg.primary.value < |s.sources| && cfg.primary.value != s.active)
  }

  // ---- One turn of the relay loop ----

  /** What one turn meets: source probes, whether the output side lets the turn go
      on to receiving, and what each source would deliver. */
  datatype Turn = Turn(probes: seq<Probe>, outputReady: bool, rx: seq<Rx>)

  predicate Fits(s: Switch, t: Turn) {
    |t.probes| == |t.rx| == |s.sources|
  }

  /** Whether a failed ensure, from `s` to `s1`, counts as a failure of the source. */
  predicate EnsureGivesUp(s: Switch, s1: Switch)
    requires s.active < |s.sources|
  {
    && !(IsConnected(s.sources[s.active]) && s1.active < |s1.sources| && IsConnected(s1.sources[s1.active]))
    && s1.ensureError != Timeout
    && s1.active < |s1.sources|
  }

  /** Ensuring, before the receive: the switcher, and whether the turn goes on. */
  function BeforeReceive(cfg: Config, s: Switch, t: Turn): (Switch, bool)
    requires s.active < |s.sources| && Fits(s, t)
  {
    if !NeedsEnsurePoll(cfg, s) then (s, t.outputReady)
    else
      var (s1, ok) := Ensure(cfg, s, t.probes);
      if ok then (s1, t.outputReady)
      else (if EnsureGivesUp(s, s1) then HandleError(s1) else s1, false)
  }

  function TakeTurn(cfg: Config, s: Switch, t: Turn): Switch
    requires s.active < |s.sources| && Fits(s, t)
  {
    var (s1, go) := BeforeReceive(cfg, s, t);
    if !go || s1.active >= |s1.sources| || !Fits(s1, t) then s1
    else
      var (s2, data) := Receive(cfg, s1, t.rx);
      if data || s2.receiveError == Timeout || s2.active >= |s2.sources| then s2 else HandleError(s2)
  }

  /** What holds at the top of every turn. */
  ghost predicate Inv(cfg: Config, s: Switch) {
    && WellSized(cfg, s)
    && (s.candidate.Some? ==>
          var c := s.candidate.value;
          cfg.delayed && cfg.primary == Some(c) && c != s.active && IsConnected(s.sources[c]))
    && (s.pendingStop.Some? ==>
          && s.candidate.None? && s.pendingStop.value < |s.sources| && s.pendingStop.value != s.active
          && cfg.delayed && cfg.primary == Some(s.active) && IsConnected(s.sources[s.active]))
    && (forall i :: 0 <= i < |s.sources| && s.sources[i] == Socket(true) ==>
          i == s.active || (cfg.delayed && cfg.primary == Some(i)) || s.pendingStop == Some(i))
  }

  ghost predicate Start(cfg: Config, s: Switch) {
    && |s.sources| > 0 && s.active == 0 && s.candidate.None? && s.pendingStop.None? && s.switches == 0
    && WellSized(cfg, s) && forall i :: 0 <= i < |s.sources| ==> s.sources[i] != Socket(true)
  }

  lemma FallbackKeepsInv(cfg: Config, s: Switch, probes: seq<Probe>)
    requires Inv(cfg, s) && s.pendingStop.None? && |probes| == |s.sources| && !IsConnected(s.sources[s.active])
    ensures var (s1, ok) := Fallback(s, probes);
            Inv(cfg, s1) && s1.pendingStop.None? && |s1.sources| == |s.sources| && (ok ==> s1.ensureError == NoError)
  {
  }

  lemma FollowKeepsInv(cfg: Config, s: Switch, probes: seq<Probe>)
    requires Inv(cfg, s) && s.pendingStop.None? && |probes| == |s.sources|
    ensures var s1 := FollowPrimary(cfg, s, probes);
            Inv(cfg, s1) && s1.pendingStop.None? && |s1.sources| == |s.sources|
  {
  }

  lemma EnsureKeepsInv(cfg: Config, s: Switch, probes: seq<Probe>)
    requires Inv(cfg, s) && |probes| == |s.sources|
    ensures var (s1, ok) := Ensure(cfg, s, probes);
            Inv(cfg, s1) && s1.pendingStop.None? && |s1.sources| == |s.sources|
  {
    var s1 := Refreshed(s);
    if Opens(s1.sources[s.active], probes[s.active]) {
      FollowKeepsInv(cfg, s1.(sources := Midway(s1, s.active)), probes);
    } else {
      FallbackKeepsInv(cfg, s1, probes);
    }
  }

  lemma ReceiveKeepsInv(cfg: Config, s: Switch, rx: seq<Rx>)
    requires Inv(cfg, s) && s.pendingStop.None? && |rx| == |s.sources|
    ensures var (s1, data) := Receive(cfg, s, rx);
            Inv(cfg, s1) && |s1.sources| == |s.sources| && (!data ==> s1.pendingStop.None?)
  {
  }

  lemma ErrorKeepsInv(cfg: Config, s: Switch)
    requires Inv(cfg, s) && s.pendingStop.None?
    ensures Inv(cfg, HandleError(s)) && HandleError(s).pendingStop.None? && |HandleError(s).sources| == |s.sources|
  {
  }

  /** A pending stop is carried out before the turn's receive: at that point nothing
      is pending, so it can never be overwritten, and the old source is closed. */
  lemma StopBeforeReceive(cfg: Config, s: Switch, t: Turn)
    requires Inv(cfg, s) && Fits(s, t)
    ensures var (s1, go) := BeforeReceive(cfg, s, t);
            && Inv(cfg, s1) && |s1.sources| == |s.sources| && s1.pendingStop.None?
            && (s.pendingStop.Some? ==> s1.active == s.active && s1.sources[s.pendingStop.value] != Socket(true))
  {
    if NeedsEnsurePoll(cfg, s) {
      var (s1, ok) := Ensure(cfg, s, t.probes);
      EnsureKeepsInv(cfg, s, t.probes);
      if !ok {
        ErrorKeepsInv(cfg, s1);
      }
    }
  }

  lemma TurnKeepsInv(cfg: Config, s: Switch, t: Turn)
    requires Inv(cfg, s) && Fits(s, t)
    ensures Inv(cfg, TakeTurn(cfg, s, t)) && |TakeTurn(cfg, s, t).sources| == |s.sources|
  {
    StopBeforeReceive(cfg, s, t);
    var (s1, go) := BeforeReceive(cfg, s, t);
    if go {
      ReceiveKeepsInv(cfg, s1, t.rx);
      var (s2, data) := Receive(cfg, s1, t.rx);
      if !data {
        ErrorKeepsInv(cfg, s2);
      }
    }
  }

  function Turns(cfg: Config, s: Switch, ts: seq<Turn>): Switch
    decreases |ts|
  {
    if ts == [] || s.active >= |s.sources| || !Fits(s, ts[0]) then s
    else Turns(cfg, TakeTurn(cfg, s, ts[0]), ts[1..])
  }

  lemma {:induction false} TurnsKeepInv(cfg: Config, s: Switch, ts: seq<Turn>)
    requires Inv(cfg, s)
    ensures Inv(cfg, Turns(cfg, s, ts))
    decreases |ts|
  {
    if ts != [] && Fits(s, ts[0]) {
      TurnKeepsInv(cfg, s, ts[0]);
      TurnsKeepInv(cfg, TakeTurn(cfg, s, ts[0]), ts[1..]);
    }
  }

  ghost function OpenSockets(sources: seq<Source>): set<int> {
    set i | 0 <= i < |sources| && sources[i] == Socket(true)
  }

  /** However the sources behave, at most two sockets are open between turns, and
      at most one unless switching is delayed towards a preferred primary. */
  lemma FewSocketsOpen(cfg: Config, s: Switch, ts: seq<Turn>)
    requires Start(cfg, s)
    ensures var r := Turns(cfg, s, ts);
            && |OpenSockets(r.sources)| <= 2
            && (!cfg.delayed || cfg.primary.None? ==>
                  OpenSockets(r.sources) <= {r.active} && |OpenSockets(r.sources)| <= 1)
            && OpenSockets(r.sources) <= {r.active} + (if cfg.primary.Some? then {cfg.primary.value} else {})
                                         + (if r.pendingStop.Some? then {r.pendingStop.value} else {})
            && (r.pendingStop.Some? ==> r.pendingStop.value != r.active)
            && (r.candidate.Some? ==> cfg.primary == Some(r.candidate.value) && r.candidate.value != r.active)
  {
    TurnsKeepInv(cfg, s, ts);
    var r := Turns(cfg, s, ts);
    var second := if r.pendingStop.Some? then r.pendingStop.value
                  else if cfg.primary.Some? then cfg.primary.value else r.active;
    SizeOfPair(OpenSockets(r.sources), r.active, second);
    if !cfg.delayed || cfg.primary.None? {
      SizeOfPair(OpenSockets(r.sources), r.active, r.active);
    }
  }

  lemma SizeOfPair(s: set<int>, a: int, b: int)
    requires s <= {a, b}
    ensures |s| <= 2 && (a == b ==> |s| <= 1)
  {
    assert s == (if a in s then {a} else {}) + (if b in s then {b} else {});
  }

  // ---- Returning to the preferred primary ----

  ghost predicate AwayFromPrimary(cfg: Config, s: Switch, probes: seq<Probe>) {
    && Inv(cfg, s) && s.pendingStop.None? && |probes| == |s.sources|
    && cfg.primary.Some? && cfg.primary.value != s.active
    && IsConnected(s.sources[s.active]) && Opens(s.sources[cfg.primary.value], probes[cfg.primary.value])
  }

  /** Delayed mode: opening the primary disturbs nothing; the first data from it
      makes it active while the old source stays open; and the next ensure, which
      the loop always makes before it receives again, closes the old source. */
  lemma DelayedReturn(cfg: Config, s: Switch, probes: seq<Probe>, rx: seq<Rx>, t: Turn)
    requires AwayFromPrimary(cfg, s, probes) && cfg.delayed && s.sources[cfg.primary.value].Socket?
    requires |rx| == |s.sources| && rx[cfg.primary.value].Data? && Fits(s, t)
    ensures var p := cfg.primary.value;
            var s1 := Ensure(cfg, s, probes).0;
            var (s2, data) := Receive(cfg, s1, rx);
            var s3 := BeforeReceive(cfg, s2, t).0;
            && s1.active == s.active && s1.candidate == Some(p) && IsConnected(s1.sources[s.active])
            && data && s2.active == p && s2.pendingStop == Some(s.active) && s2.sources == s1.sources
            && NeedsEnsurePoll(cfg, s2)
            && s3.active == p && s3.pendingStop.None? && s3.sources[s.active] != Socket(true)
  {
    var s1 := Ensure(cfg, s, probes).0;
    EnsureKeepsInv(cfg, s, probes);
    ReceiveKeepsInv(cfg, s1, rx);
    StopBeforeReceive(cfg, Receive(cfg, s1, rx).0, t);
  }

  /** What a waiting candidate does to a receive: it takes over exactly when it is a
      socket with data; otherwise the active source is read as if there were none, and
      the candidate waits on exactly when it is a socket that merely timed out.  A
      candidate dropped for anything else is candidate again after the next ensure. */
  lemma CandidateAtReceive(cfg: Config, s: Switch, rx: seq<Rx>, probes: seq<Probe>)
    requires Inv(cfg, s) && s.candidate.Some? && |rx| == |probes| == |s.sources|
    ensures var c := s.candidate.value;
            var (s1, data) := Receive(cfg, s, rx);
            var takesOver := s.sources[c].Socket? && rx[c].Data?;
            && (s1.active == c <==> takesOver)
            && (takesOver ==>
                  && data && s1.pendingStop == Some(s.active) && s1.candidate.None? && s1.sources == s.sources
                  && s1.receiveError == NoError)
            && (!takesOver ==>
                  && s1.active == s.active && s1.pendingStop.None?
                  && data == rx[s.active].Data? && s1.receiveError == ErrorOf(rx[s.active])
                  && s1.candidate == (if s.sources[c].Socket? && rx[c] == NoData(Timeout) then s.candidate else None)
                  && s1.sources[c] == s.sources[c]
                  && (IsConnected(s1.sources[s.active]) ==> Ensure(cfg, s1, probes).0.candidate == Some(c)))
  {
  }

  // ---- Choosing a source ----

  /** Ensuring fails only if no source can be ensured; otherwise the active source
      keeps its place if it can, and else the first that can, cyclically, takes over. */
  lemma EnsureChoosesFirstReady(cfg: Config, s: Switch, probes: seq<Probe>)
    requires WellSized(cfg, s) && |probes| == |s.sources|
    ensures var (s1, ok) := Ensure(cfg, s, probes);
            var before := WithoutPendingStop(s).sources;
            && (ok <==> exists i :: 0 <= i < |before| && Opens(before[i], probes[i]))
            && (ok ==> IsConnected(s1.sources[s1.active]) && s1.ensureError == NoError)
            && (ok && cfg.primary == Some(s1.active) ==> s1.candidate.None?)
            && (!ok ==> s1.active == s.active && s1.sources == before && s1.switches == s.switches)
            && (!Opens(before[s.active], probes[s.active]) && ok ==>
                  exists k :: 1 <= k < |before| && s1.active == Cyclic(s.active, k, |before|)
                    && OpensAt(before, probes, s.active, k)
                    && forall j :: 0 <= j < k ==> !OpensAt(before, probes, s.active, j))
  {
    var s1 := Refreshed(s);
    if !Opens(s1.sources[s.active], probes[s.active]) {
      FallbackChoosesFirst(s1, probes);
    }
  }

  lemma FallbackChoosesFirst(s: Switch, probes: seq<Probe>)
    requires s.active < |s.sources| == |probes| && !Opens(s.sources[s.active], probes[s.active])
    ensures var (s1, ok) := Fallback(s, probes);
            && (ok <==> exists i :: 0 <= i < |s.sources| && Opens(s.sources[i], probes[i]))
            && (ok ==>
                  exists k :: 1 <= k < |s.sources| && s1.active == Cyclic(s.active, k, |s.sources|)
                    && OpensAt(s.sources, probes, s.active, k)
                    && forall j :: 0 <= j < k ==> !OpensAt(s.sources, probes, s.active, j))
  {
    var k := FirstReady(s.sources, probes, s.active, 1);
    forall i | 0 <= i < |s.sources| && Opens(s.sources[i], probes[i])
      ensures k < |s.sources|
    {
      var j := CyclicOffset(s.active, i, |s.sources|);
      assert OpensAt(s.sources, probes, s.active, j);
    }
    if k < |s.sources| {
      assert OpensAt(s.sources, probes, s.active, k) && !OpensAt(s.sources, probes, s.active, 0);
    }
  }

  lemma CyclicOffset(from: nat, i: nat, n: nat) returns (j: nat)
    requires from < n && i < n
    ensures j < n && Cyclic(from, j, n) == i && (j == 0 <==> i == from)
    ensures forall k: nat :: k < n && Cyclic(from, k, n) == i ==> k == j
  {
    j := if i >= from then i - from else i + n - from;
  }

  function Failures(s: Switch, k: nat): (r: Switch)
    requires s.active < |s.sources|
    ensures |r.sources| == |s.sources| && r.active < |r.sources|
  {
    if k == 0 then s else HandleError(Failures(s, k - 1))
  }

  lemma {:induction false} Rotates(s: Switch, k: nat)
    requires s.active < |s.sources| && k < |s.sources|
    ensures Failures(s, k).active == Cyclic(s.active, k, |s.sources|)
  {
    if k > 0 {
      Rotates(s, k - 1);
    }
  }

  /** In n consecutive failures every one of the n sources is active exactly once,
      and the n-th failure comes back to the first. */
  lemma EverySourceGetsATurn(s: Switch, i: nat) returns (k: nat)
    requires s.active < |s.sources| && i < |s.sources|
    ensures k < |s.sources| && Failures(s, k).active == i
    ensures forall j: nat :: j < |s.sources| && Failures(s, j).active == i ==> j == k
    ensures Failures(s, |s.sources|).active == s.active
  {
    var n := |s.sources|;
    k := CyclicOffset(s.active, i, n);
    forall j: nat | j < n
      ensures Failures(s, j).active == Cyclic(s.active, j, n)
    {
      Rotates(s, j);
    }
    assert Failures(s, n) == HandleError(Failures(s, n - 1));
  }

  // ---- The switch counter, under any order of calls ----

  datatype Call = EnsureCall(probes: seq<Probe>) | ReceiveCall(rx: seq<Rx>) | ErrorCall

  predicate Callable(s: Switch, c: Call) {
    && s.active < |s.sources|
    && (c.EnsureCall? ==> |c.probes| == |s.sources|)
    && (c.ReceiveCall? ==> |c.rx| == |s.sources|)
  }

  function Do(cfg: Config, s: Switch, c: Call): Switch
    requires Callable(s, c)
  {
    match c
    case EnsureCall(probes) => Ensure(cfg, s, probes).0
    case ReceiveCall(rx) => Receive(cfg, s, rx).0
    case ErrorCall => HandleError(s)
  }

  function DoAll(cfg: Config, s: Switch, cs: seq<Call>): Switch
    decreases |cs|
  {
    if cs == [] || !Callable(s, cs[0]) then s else DoAll(cfg, Do(cfg, s, cs[0]), cs[1..])
  }

  /** How many of the calls leave a different source active. */
  function Changes(cfg: Config, s: Switch, cs: seq<Call>): nat
    decreases |cs|
  {
    if cs == [] || !Callable(s, cs[0]) then 0
    else (if Do(cfg, s, cs[0]).active != s.active then 1 else 0) + Changes(cfg, Do(cfg, s, cs[0]), cs[1..])
  }

  lemma OneChange(cfg: Config, s: Switch, c: Call)
    requires Callable(s, c)
    ensures Do(cfg, s, c).switches == s.switches + if Do(cfg, s, c).active != s.active then 1 else 0
  {
  }

  /** The published switch count is exactly the number of changes of active source. */
  lemma {:induction false} SwitchCountIsChanges(cfg: Config, s: Switch, cs: seq<Call>)
    ensures DoAll(cfg, s, cs).switches == s.switches + Changes(cfg, s, cs)
    decreases |cs|
  {
    if cs != [] && Callable(s, cs[0]) {
      OneChange(cfg, s, cs[0]);
      SwitchCountIsChanges(cfg, Do(cfg, s, cs[0]), cs[1..]);
    }
  }
}
