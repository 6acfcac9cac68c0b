/** The input sources at every instant of a run, not only between calls: how many
    sockets are open while one source replaces another
    (src/relay_input_sources.cpp:568-708 under src/relay_runtime.cpp:452-660). */
module InputOverlap {
  import opened Common
  import opened InputSwitching

  /** The sources after each single start or stop, in order. */
  type Instants = seq<seq<Source>>

  function FallbackInstants(s: Switch, probes: seq<Probe>): Instants
    requires s.active < |s.sources| == |probes|
  {
    var offset := FirstReady(s.sources, probes, s.active, 1);
    if offset == |s.sources| then []
    else
      var to := Cyclic(s.active, offset, |s.sources|);
      [Midway(s, to), CutOver(s, to).sources]
  }

  function FollowInstants(cfg: Config, s: Switch, probes: seq<Probe>): Instants
    requires s.active < |s.sources| == |probes|
  {
    if cfg.primary.None? then []
    else
      var p := cfg.primary.value;
      if p >= |s.sources| || p == s.active || !Opens(s.sources[p], probes[p]) then []
      else if cfg.delayed then [Midway(s, p)]
      else [Midway(s, p), CutOver(s, p).sources]
  }

  function StopInstants(s: Switch): Instants {
    if s.pendingStop.Some? && s.pendingStop.value < |s.sources| then [WithoutPendingStop(s).sources] else []
  }

  function EnsureInstants(cfg: Config, s: Switch, probes: seq<Probe>): Instants
    requires s.active < |s.sources| == |probes|
  {
    var s1 := Refreshed(s);
    StopInstants(s) +
    if Opens(s1.sources[s.active], probes[s.active]) then
      [Midway(s1, s.active)] + FollowInstants(cfg, s1.(sources := Midway(s1, s.active)), probes)
    else FallbackInstants(s1, probes)
  }

  function BeforeReceiveInstants(cfg: Config, s: Switch, t: Turn): Instants
    requires s.active < |s.sources| && Fits(s, t)
  {
    if !NeedsEnsurePoll(cfg, s) then []
    else
      var (s1, ok) := Ensure(cfg, s, t.probes);
      EnsureInstants(cfg, s, t.probes) + if !ok && EnsureGivesUp(s, s1) then [HandleError(s1).sources] else []
  }

  function ReceiveInstants(cfg: Config, s: Switch, rx: seq<Rx>): Instants
    requires s.active < |s.sources| == |rx|
  {
    var (s1, data) := Receive(cfg, s, rx);
    [s1.sources] + if data || s1.receiveError == Timeout || s1.active >= |s1.sources| then [] else [HandleError(s1).sources]
  }

  function TurnInstants(cfg: Config, s: Switch, t: Turn): Instants
    requires s.active < |s.sources| && Fits(s, t)
  {
    var (s1, go) := BeforeReceive(cfg, s, t);
    BeforeReceiveInstants(cfg, s, t) +
    if !go || s1.active >= |s1.sources| || !Fits(s1, t) then [] else ReceiveInstants(cfg, s1, t.rx)
  }

  function TurnsInstants(cfg: Config, s: Switch, ts: seq<Turn>): Instants
    decreases |ts|
  {
    if ts == [] || s.active >= |s.sources| || !Fits(s, ts[0]) then []
    else TurnInstants(cfg, s, ts[0]) + TurnsInstants(cfg, TakeTurn(cfg, s, ts[0]), ts[1..])
  }

  /** One turn more of a run, after instants `xs`. */
  lemma OneTurn(cfg: Config, s: Switch, ts: seq<Turn>, i: nat, xs: Instants)
    requires i < |ts| && s.active < |s.sources| && Fits(s, ts[i])
    ensures var s1 := TakeTurn(cfg, s, ts[i]);
            && Turns(cfg, s, ts[i..]) == Turns(cfg, s1, ts[i + 1..])
            && xs + TurnsInstants(cfg, s, ts[i..]) == xs + TurnInstants(cfg, s, ts[i]) + TurnsInstants(cfg, s1, ts[i + 1..])
  {
    assert ts[i..][0] == ts[i] && ts[i..][1..] == ts[i + 1..];
  }

  /** Never more than `n` sockets open at once. */
  ghost predicate AtMost(xs: Instants, n: nat) {
    forall k :: 0 <= k < |xs| ==> |OpenSockets(xs[k])| <= n
  }

  /** Open sockets are among `a` and `b`. */
  ghost predicate OnlyOpen(x: seq<Source>, a: int, b: int) {
    forall i :: 0 <= i < |x| && x[i] == Socket(true) ==> i == a || i == b
  }

  lemma OnlyTwo(x: seq<Source>, a: int, b: int)
    requires OnlyOpen(x, a, b)
    ensures |OpenSockets(x)| <= 2 && (a == b ==> |OpenSockets(x)| <= 1)
  {
    SizeOfPair(OpenSockets(x), a, b);
  }

  /** The second source that may be open at the top of a turn. */
  ghost function Other(cfg: Config, s: Switch): nat {
    if s.pendingStop.Some? then s.pendingStop.value
    else if cfg.delayed && cfg.primary.Some? then cfg.primary.value
    else s.active
  }

  /** How many sockets may be open between calls. */
  ghost function Bound(cfg: Config): nat {
    if cfg.delayed && cfg.primary.Some? then 2 else 1
  }

  lemma InvOnlyTwo(cfg: Config, s: Switch)
    requires Inv(cfg, s)
    ensures OnlyOpen(s.sources, s.active, Other(cfg, s)) && |OpenSockets(s.sources)| <= Bound(cfg)
  {
    OnlyTwo(s.sources, s.active, Other(cfg, s));
  }

  lemma FollowAtMostTwo(cfg: Config, s: Switch, probes: seq<Probe>)
    requires Inv(cfg, s) && s.pendingStop.None? && |probes| == |s.sources|
    ensures AtMost(FollowInstants(cfg, s, probes), 2)
  {
    if cfg.primary.Some? {
      var p := cfg.primary.value;
      OnlyTwo(Midway(s, p), s.active, p);
      OnlyTwo(CutOver(s, p).sources, s.active, p);
    }
  }

  lemma FallbackAtMostTwo(cfg: Config, s: Switch, probes: seq<Probe>)
    requires Inv(cfg, s) && s.pendingStop.None? && |probes| == |s.sources| && !IsConnected(s.sources[s.active])
    ensures AtMost(FallbackInstants(s, probes), Bound(cfg))
  {
    var offset := FirstReady(s.sources, probes, s.active, 1);
    if offset < |s.sources| {
      var to := Cyclic(s.active, offset, |s.sources|);
      var other := if cfg.delayed && cfg.primary.Some? then cfg.primary.value else to;
      OnlyTwo(Midway(s, to), to, other);
      OnlyTwo(CutOver(s, to).sources, to, other);
    }
  }

  lemma EnsureAtMostTwo(cfg: Config, s: Switch, probes: seq<Probe>)
    requires Inv(cfg, s) && |probes| == |s.sources|
    ensures AtMost(EnsureInstants(cfg, s, probes), 2)
  {
    var s1 := Refreshed(s);
    InvOnlyTwo(cfg, s1);
    if Opens(s1.sources[s.active], probes[s.active]) {
      var s2 := s1.(sources := Midway(s1, s.active));
      InvOnlyTwo(cfg, s2);
      FollowAtMostTwo(cfg, s2, probes);
    } else {
      FallbackAtMostTwo(cfg, s1, probes);
    }
  }

  lemma BeforeReceiveAtMostTwo(cfg: Config, s: Switch, t: Turn)
    requires Inv(cfg, s) && Fits(s, t)
    ensures AtMost(BeforeReceiveInstants(cfg, s, t), 2)
  {
    if NeedsEnsurePoll(cfg, s) {
      EnsureAtMostTwo(cfg, s, t.probes);
      EnsureKeepsInv(cfg, s, t.probes);
      var (s1, ok) := Ensure(cfg, s, t.probes);
      ErrorKeepsInv(cfg, s1);
      InvOnlyTwo(cfg, HandleError(s1));
    }
  }

  lemma ReceiveWithinBound(cfg: Config, s: Switch, rx: seq<Rx>)
    requires Inv(cfg, s) && s.pendingStop.None? && |rx| == |s.sources|
    ensures AtMost(ReceiveInstants(cfg, s, rx), Bound(cfg))
  {
    ReceiveKeepsInv(cfg, s, rx);
    var (s1, data) := Receive(cfg, s, rx);
    InvOnlyTwo(cfg, s1);
    if !data {
      ErrorKeepsInv(cfg, s1);
      InvOnlyTwo(cfg, HandleError(s1));
    }
  }

  lemma TurnAtMostTwo(cfg: Config, s: Switch, t: Turn)
    requires Inv(cfg, s) && Fits(s, t)
    ensures AtMost(TurnInstants(cfg, s, t), 2)
  {
    BeforeReceiveAtMostTwo(cfg, s, t);
    StopBeforeReceive(cfg, s, t);
    ReceiveWithinBound(cfg, BeforeReceive(cfg, s, t).0, t.rx);
  }

  /** At no instant of any run are more than two sockets open, whatever the mode. */
  lemma {:induction false} NeverThreeOpen(cfg: Config, s: Switch, ts: seq<Turn>)
    requires Inv(cfg, s)
    ensures AtMost(TurnsInstants(cfg, s, ts), 2)
    decreases |ts|
  {
    if ts != [] && Fits(s, ts[0]) {
      TurnAtMostTwo(cfg, s, ts[0]);
      TurnKeepsInv(cfg, s, ts[0]);
      NeverThreeOpen(cfg, TakeTurn(cfg, s, ts[0]), ts[1..]);
    }
  }

  // ---- Serial mode: when the two overlap ----

  /** A socket other than the primary is or can be made ready, and so can the
      primary, which is a socket too. */
  predicate PrimaryReturns(cfg: Config, s: Switch, probes: seq<Probe>)
    requires s.active < |s.sources| == |probes|
  {
    && cfg.primary.Some? && cfg.primary.value < |s.sources| && cfg.primary.value != s.active
    && s.sources[s.active].Socket? && Opens(s.sources[s.active], probes[s.active])
    && s.sources[cfg.primary.value].Socket? && probes[cfg.primary.value].Ready?
  }

  lemma FollowOverlapsIff(cfg: Config, s: Switch, probes: seq<Probe>)
    requires Inv(cfg, s) && s.pendingStop.None? && |probes| == |s.sources| && (!cfg.delayed || cfg.primary.None?)
    requires IsConnected(s.sources[s.active])
    ensures AtMost(FollowInstants(cfg, s, probes), 1) <==> !PrimaryReturns(cfg, s, probes)
  {
    if cfg.primary.Some? && cfg.primary.value != s.active && Opens(s.sources[cfg.primary.value], probes[cfg.primary.value]) {
      var p := cfg.primary.value;
      OnlyTwo(CutOver(s, p).sources, p, p);
      if PrimaryReturns(cfg, s, probes) {
        assert OpenSockets(Midway(s, p)) == {s.active, p};
        assert FollowInstants(cfg, s, probes)[0] == Midway(s, p);
      } else if s.sources[p].Stdin? {
        OnlyTwo(Midway(s, p), s.active, s.active);
      } else {
        OnlyTwo(Midway(s, p), p, p);
      }
    }
  }

  lemma EnsureOverlapsIff(cfg: Config, s: Switch, probes: seq<Probe>)
    requires Inv(cfg, s) && |probes| == |s.sources| && (!cfg.delayed || cfg.primary.None?)
    ensures AtMost(EnsureInstants(cfg, s, probes), 1) <==> !PrimaryReturns(cfg, s, probes)
  {
    var s1 := s.(ensureError := NoError);
    if Opens(s.sources[s.active], probes[s.active]) {
      var s2 := s1.(sources := Midway(s1, s.active));
      InvOnlyTwo(cfg, s2);
      FollowOverlapsIff(cfg, s2, probes);
      var xs, ys := EnsureInstants(cfg, s, probes), FollowInstants(cfg, s2, probes);
      assert xs == [s2.sources] + ys;
      assert forall k :: 0 <= k < |ys| ==> xs[k + 1] == ys[k];
    } else {
      FallbackAtMostTwo(cfg, s1, probes);
    }
  }

  lemma BeforeReceiveOverlapsIff(cfg: Config, s: Switch, t: Turn)
    requires Inv(cfg, s) && Fits(s, t) && (!cfg.delayed || cfg.primary.None?)
    ensures AtMost(BeforeReceiveInstants(cfg, s, t), 1) <==> !PrimaryReturns(cfg, s, t.probes)
  {
    if NeedsEnsurePoll(cfg, s) {
      EnsureOverlapsIff(cfg, s, t.probes);
      EnsureKeepsInv(cfg, s, t.probes);
      var (s1, ok) := Ensure(cfg, s, t.probes);
      ErrorKeepsInv(cfg, s1);
      InvOnlyTwo(cfg, HandleError(s1));
      var xs, ys := BeforeReceiveInstants(cfg, s, t), EnsureInstants(cfg, s, t.probes);
      assert forall k :: 0 <= k < |ys| ==> xs[k] == ys[k];
    }
  }

  /** Serial and round-robin switching never have two sockets open between calls, but
      within a turn they do if and only if the preferred primary can be opened while
      another socket is active and ready: the primary is started first. */
  lemma SerialOverlapsIff(cfg: Config, s: Switch, t: Turn)
    requires Inv(cfg, s) && Fits(s, t) && (!cfg.delayed || cfg.primary.None?)
    ensures (exists k :: 0 <= k < |TurnInstants(cfg, s, t)| && |OpenSockets(TurnInstants(cfg, s, t)[k])| == 2)
            <==> PrimaryReturns(cfg, s, t.probes)
  {
    BeforeReceiveOverlapsIff(cfg, s, t);
    StopBeforeReceive(cfg, s, t);
    ReceiveWithinBound(cfg, BeforeReceive(cfg, s, t).0, t.rx);
    TurnAtMostTwo(cfg, s, t);
    var xs, ys := TurnInstants(cfg, s, t), BeforeReceiveInstants(cfg, s, t);
    assert forall k :: 0 <= k < |ys| ==> xs[k] == ys[k];
  }

  /** Serial mode: as soon as the primary can be opened it is active, and the source
      it replaces is closed in the same call, but only after the primary is up. */
  lemma SerialReturn(cfg: Config, s: Switch, probes: seq<Probe>)
    requires AwayFromPrimary(cfg, s, probes) && !cfg.delayed
    ensures var s1 := Ensure(cfg, s, probes).0;
            && s1.active == cfg.primary.value && IsConnected(s1.sources[s1.active])
            && s1.sources[s.active] != Socket(true) && s1.switches == s.switches + 1
    ensures var xs, n := EnsureInstants(cfg, s, probes), |EnsureInstants(cfg, s, probes)|;
            && n >= 2 && |xs[n - 2]| == |s.sources| && xs[n - 1] == Ensure(cfg, s, probes).0.sources
            && IsConnected(xs[n - 2][s.active]) && IsConnected(xs[n - 2][cfg.primary.value])
  {
  }

  /** Such a turn: two closed sockets, the second of them preferred, both ready.  The
      first turn of all opens both before it closes the first. */
  lemma SerialStartsBeforeItStops()
    ensures var cfg := Config(Some(1), false);
            var s := Switch([Socket(false), Socket(false)], 0, None, None, 0, NoError, NoError);
            var t := Turn([Ready, Ready], false, [Data, Data]);
            && Start(cfg, s) && Fits(s, t)
            && TurnInstants(cfg, s, t) ==
                 [[Socket(true), Socket(false)], [Socket(true), Socket(true)], [Socket(false), Socket(true)]]
            && |OpenSockets(TurnInstants(cfg, s, t)[1])| == 2
  {
    var cfg := Config(Some(1), false);
    var s := Switch([Socket(false), Socket(false)], 0, None, None, 0, NoError, NoError);
    var s1 := s.(sources := Midway(s, 0));
    assert s1.sources == [Socket(true), Socket(false)] && Midway(s1, 1) == [Socket(true), Socket(true)];
    assert CutOver(s1, 1).sources == [Socket(false), Socket(true)];
    assert EnsureInstants(cfg, s, [Ready, Ready]) == [s1.sources] + FollowInstants(cfg, s1, [Ready, Ready]);
    assert OpenSockets([Socket(true), Socket(true)]) == {0, 1};
  }

  // ---- The instants are a path ----

  /** At most one source differs. */
  ghost predicate OneStep(x: seq<Source>, y: seq<Source>) {
    |x| == |y| && (x == y || exists i :: 0 <= i < |x| && y == x[i := y[i]])
  }

  /** From `x` through `xs`, one source at a time, to `y`. */
  ghost predicate Path(x: seq<Source>, xs: Instants, y: seq<Source>)
    decreases |xs|
  {
    if xs == [] then x == y else OneStep(x, xs[0]) && Path(xs[0], xs[1..], y)
  }

  lemma {:induction false} PathThrough(x: seq<Source>, xs: Instants, y: seq<Source>, ys: Instants, z: seq<Source>)
    requires Path(x, xs, y) && Path(y, ys, z)
    ensures Path(x, xs + ys, z)
    decreases |xs|
  {
    if xs == [] {
      assert xs + ys == ys;
    } else {
      assert (xs + ys)[1..] == xs[1..] + ys;
      PathThrough(xs[0], xs[1..], y, ys, z);
    }
  }

  lemma OneChange(x: seq<Source>, i: nat, v: Source)
    requires i < |x|
    ensures OneStep(x, x[i := v]) && Path(x, [x[i := v]], x[i := v])
  {
    var y := x[i := v];
    assert y == x[i := y[i]];
    assert Path(y, [y][1..], y);
  }

  /** A cut-over is a start, then a stop. */
  lemma CutOverPath(s: Switch, to: nat)
    requires s.active < |s.sources| && to < |s.sources|
    ensures Path(s.sources, [Midway(s, to), CutOver(s, to).sources], CutOver(s, to).sources)
  {
    var mid := Midway(s, to);
    OneChange(s.sources, to, Opened(s.sources[to]));
    OneChange(mid, s.active, Closed(mid[s.active]));
    PathThrough(s.sources, [mid], mid, [CutOver(s, to).sources], CutOver(s, to).sources);
    assert [mid] + [CutOver(s, to).sources] == [mid, CutOver(s, to).sources];
  }

  lemma FollowPath(cfg: Config, s: Switch, probes: seq<Probe>)
    requires s.active < |s.sources| == |probes|
    ensures Path(s.sources, FollowInstants(cfg, s, probes), FollowPrimary(cfg, s, probes).sources)
  {
    if cfg.primary.Some? && cfg.primary.value < |s.sources| && cfg.primary.value != s.active {
      OneChange(s.sources, cfg.primary.value, Opened(s.sources[cfg.primary.value]));
      CutOverPath(s, cfg.primary.value);
    }
  }

  lemma FallbackPath(s: Switch, probes: seq<Probe>)
    requires s.active < |s.sources| == |probes|
    ensures Path(s.sources, FallbackInstants(s, probes), Fallback(s, probes).0.sources)
  {
    var offset := FirstReady(s.sources, probes, s.active, 1);
    if offset < |s.sources| {
      CutOverPath(s, Cyclic(s.active, offset, |s.sources|));
    }
  }

  lemma StopPath(s: Switch)
    ensures Path(s.sources, StopInstants(s), WithoutPendingStop(s).sources)
  {
    if s.pendingStop.Some? && s.pendingStop.value < |s.sources| {
      OneChange(s.sources, s.pendingStop.value, Closed(s.sources[s.pendingStop.value]));
    }
  }

  lemma EnsurePath(cfg: Config, s: Switch, probes: seq<Probe>)
    requires s.active < |s.sources| == |probes|
    ensures Path(s.sources, EnsureInstants(cfg, s, probes), Ensure(cfg, s, probes).0.sources)
  {
    var s1 := Refreshed(s);
    var last := Ensure(cfg, s, probes).0.sources;
    StopPath(s);
    if Opens(s1.sources[s.active], probes[s.active]) {
      var s2 := s1.(sources := Midway(s1, s.active));
      OneChange(s1.sources, s.active, Opened(s1.sources[s.active]));
      FollowPath(cfg, s2, probes);
      PathThrough(s1.sources, [s2.sources], s2.sources, FollowInstants(cfg, s2, probes), last);
      PathThrough(s.sources, StopInstants(s), s1.sources, [s2.sources] + FollowInstants(cfg, s2, probes), last);
    } else {
      FallbackPath(s1, probes);
      PathThrough(s.sources, StopInstants(s), s1.sources, FallbackInstants(s1, probes), last);
    }
  }

  lemma ErrorPath(s: Switch)
    requires s.active < |s.sources|
    ensures Path(s.sources, [HandleError(s).sources], HandleError(s).sources)
  {
    OneChange(s.sources, s.active, Closed(s.sources[s.active]));
  }

  lemma BeforeReceivePath(cfg: Config, s: Switch, t: Turn)
    requires s.active < |s.sources| && Fits(s, t)
    ensures Path(s.sources, BeforeReceiveInstants(cfg, s, t), BeforeReceive(cfg, s, t).0.sources)
  {
    if NeedsEnsurePoll(cfg, s) {
      var (s1, ok) := Ensure(cfg, s, t.probes);
      var xs := EnsureInstants(cfg, s, t.probes);
      EnsurePath(cfg, s, t.probes);
      if !ok && EnsureGivesUp(s, s1) {
        ErrorPath(s1);
        PathThrough(s.sources, xs, s1.sources, [HandleError(s1).sources], HandleError(s1).sources);
      } else {
        assert xs + [] == xs;
      }
    }
  }

  lemma ReceivePath(cfg: Config, s: Switch, rx: seq<Rx>)
    requires s.active < |s.sources| == |rx|
    ensures var (s1, data) := Receive(cfg, s, rx);
            var last := if data || s1.receiveError == Timeout || s1.active >= |s1.sources| then s1 else HandleError(s1);
            Path(s.sources, ReceiveInstants(cfg, s, rx), last.sources)
  {
    var (s1, data) := Receive(cfg, s, rx);
    OneChange(s.sources, s.active, s1.sources[s.active]);
    assert s1.sources == s.sources[s.active := s1.sources[s.active]];
    if data || s1.receiveError == Timeout || s1.active >= |s1.sources| {
      assert [s1.sources] + [] == [s1.sources];
    } else {
      ErrorPath(s1);
      PathThrough(s.sources, [s1.sources], s1.sources, [HandleError(s1).sources], HandleError(s1).sources);
    }
  }

  /** The instants of a turn lead from its start to its end, and from each to the next at
      most one source changes: nothing that happens to the sources is left out. */
  lemma TurnIsPath(cfg: Config, s: Switch, t: Turn)
    requires s.active < |s.sources| && Fits(s, t)
    ensures Path(s.sources, TurnInstants(cfg, s, t), TakeTurn(cfg, s, t).sources)
  {
    var (s1, go) := BeforeReceive(cfg, s, t);
    var xs := BeforeReceiveInstants(cfg, s, t);
    BeforeReceivePath(cfg, s, t);
    if !go || s1.active >= |s1.sources| || !Fits(s1, t) {
      assert xs + [] == xs;
    } else {
      ReceivePath(cfg, s1, t.rx);
      PathThrough(s.sources, xs, s1.sources, ReceiveInstants(cfg, s1, t.rx), TakeTurn(cfg, s, t).sources);
    }
  }
}
