/** The switcher object: the same operations, updating its fields in place. */
module InputSwitcher {
  import opened Common
  import opened InputOverlap
  import opened InputSwitching

  class Switcher {
    const cfg: Config
    const sources: array<Source>
    var active: nat
    var candidate: Option<nat>
    var pendingStop: Option<nat>
    var switches: nat
    var ensureError: ErrorKind
    var receiveError: ErrorKind
    /** The sources after each single start or stop so far. */
    ghost var trace: Instants

    ghost predicate Valid()
      reads this
    {
      active < sources.Length
    }

    ghost function State(): Switch
      reads this, sources
    {
      Switch(sources[..], active, candidate, pendingStop, switches, ensureError, receiveError)
    }

    constructor (cfg: Config, specs: seq<Source>)
      requires |specs| > 0
      ensures Valid() && fresh(sources) && this.cfg == cfg
      ensures State() == Switch(specs, 0, None, None, 0, NoError, NoError) && trace == []
    {
      this.cfg := cfg;
      sources := new Source[|specs|](i requires 0 <= i < |specs| => specs[i]);
      active, candidate, pendingStop, switches := 0, None, None, 0;
      ensureError, receiveError, trace := NoError, NoError, [];
      new;
      assert sources[..] == specs;
    }

    /** Opens one source; what a closed socket meets is `probe`. */
    method EnsureSource(index: nat, probe: Probe) returns (ok: bool)
      requires index < sources.Length
      modifies this`trace, sources
      ensures trace == old(trace) + if ok then [sources[..]] else []
      ensures ok == Opens(old(sources[index]), probe)
      ensures sources[..] == if ok then old(sources[..])[index := Opened(old(sources[index]))] else old(sources[..])
    {
      match sources[index] {
        case Stdin(eof) =>
          ok := !eof;
        case Socket(open) =>
          ok := open || probe.Ready?;
          if ok {
            sources[index] := Socket(true);
          }
      }
      assert ok ==> sources[..] == old(sources[..])[index := Opened(old(sources[index]))];
      trace := trace + if ok then [sources[..]] else [];
    }

    /** A source drops its session on an error. */
    method StopSource(index: nat)
      requires index < sources.Length
      modifies this`trace, sources
      ensures trace == old(trace) + [sources[..]]
      ensures sources[..] == old(sources[..])[index := Closed(old(sources[index]))]
    {
      if sources[index].Socket? {
        sources[index] := Socket(false);
      }
      trace := trace + [sources[..]];
    }

    method ApplyPendingStop()
      modifies this`pendingStop, this`trace, sources
      ensures State() == WithoutPendingStop(old(State())) && trace == old(trace) + StopInstants(old(State()))
    {
      if pendingStop.None? {
        return;
      }
      var index := pendingStop.value;
      pendingStop := None;
      if index >= sources.Length {
        return;
      }
      StopSource(index);
    }

    /** Probes the other sources in cyclic order until one is ready. */
    method FallBack(probes: seq<Probe>) returns (ok: bool)
      requires Valid() && |probes| == sources.Length && !Opens(sources[active], probes[active])
      modifies this, sources
      ensures Valid() && (State(), ok) == Fallback(old(State()), probes)
      ensures trace == old(trace) + FallbackInstants(old(State()), probes)
    {
      ensureError := EnsureFailure(sources[active], probes[active]);
      var previous := active;
      var offset := 1;
      while offset < sources.Length
        invariant 1 <= offset <= sources.Length && trace == old(trace)
        invariant State() == old(State()).(ensureError := EnsureFailure(old(sources[active]), probes[old(active)]))
        invariant FirstReady(sources[..], probes, active, 1) == FirstReady(sources[..], probes, active, offset)
      {
        var index := Cyclic(previous, offset, sources.Length);
        var ready := EnsureSource(index, probes[index]);
        if ready {
          StopSource(previous);
          active := index;
          candidate := None;
          switches := switches + 1;
          ensureError := NoError;
          return true;
        }
        offset := offset + 1;
      }
      return false;
    }

    method FollowThePrimary(probes: seq<Probe>)
      requires Valid() && |probes| == sources.Length
      modifies this, sources
      ensures Valid() && State() == FollowPrimary(cfg, old(State()), probes)
      ensures trace == old(trace) + FollowInstants(cfg, old(State()), probes)
    {
      if cfg.primary.None? {
        return;
      }
      var primary := cfg.primary.value;
      if primary >= sources.Length || primary == active {
        candidate := None;
        return;
      }
      var ready := EnsureSource(primary, probes[primary]);
      if !ready {
        return;
      }
      if !cfg.delayed {
        StopSource(active);
        active := primary;
        candidate := None;
        switches := switches + 1;
      } else {
        candidate := Some(primary);
      }
    }

    /** Carries out the pending stop and ensures the active source. */
    method EnsureActive(probe: Probe) returns (ok: bool)
      requires Valid()
      modifies this, sources
      ensures Valid() && ok == Opens(Refreshed(old(State())).sources[old(active)], probe)
      ensures var s := Refreshed(old(State()));
              State() == if ok then s.(sources := Midway(s, s.active)) else s
      ensures trace == old(trace) + StopInstants(old(State())) + if ok then [sources[..]] else []
    {
      ensureError := NoError;
      ApplyPendingStop();
      ok := EnsureSource(active, probe);
    }

    method EnsureReady(probes: seq<Probe>) returns (ok: bool)
      requires Valid() && |probes| == sources.Length
      modifies this, sources
      ensures Valid() && (State(), ok) == Ensure(cfg, old(State()), probes)
      ensures trace == old(trace) + EnsureInstants(cfg, old(State()), probes)
    {
      ok := EnsureActive(probes[active]);
      if !ok {
        ok := FallBack(probes);
      } else {
        FollowThePrimary(probes);
      }
    }

    method ReceiveFromActive(rx: seq<Rx>) returns (data: bool)
      requires Valid() && |rx| == sources.Length
      modifies this`receiveError, this`trace, sources
      ensures (State(), data) == ReceiveActive(old(State()), rx) && trace == old(trace) + [sources[..]]
    {
      var r := rx[active];
      ghost var before := sources[..];
      if r.EndOfInput? && sources[active].Stdin? {
        sources[active] := Stdin(true);
      }
      assert sources[..] == before[active := sources[active]];
      data := r.Data?;
      receiveError := ErrorOf(r);
      trace := trace + [sources[..]];
    }

    method ReceiveData(rx: seq<Rx>) returns (data: bool)
      requires Valid() && |rx| == sources.Length
      modifies this, sources
      ensures Valid() && (State(), data) == Receive(cfg, old(State()), rx) && trace == old(trace) + [sources[..]]
    {
      receiveError := NoError;
      if cfg.delayed && candidate.Some? {
        var delayed := candidate.value;
        if delayed < sources.Length && delayed != active && !sources[delayed].Stdin? {
          if rx[delayed].Data? {
            pendingStop := Some(active);
            active := delayed;
            candidate := None;
            switches := switches + 1;
            trace := trace + [sources[..]];
            return true;
          }
          if ErrorOf(rx[delayed]) != Timeout {
            candidate := None;
          }
        } else {
          candidate := None;
        }
      }
      data := ReceiveFromActive(rx);
    }

    method HandleReceiveError()
      requires Valid()
      modifies this, sources
      ensures Valid() && State() == HandleError(old(State())) && trace == old(trace) + [sources[..]]
    {
      StopSource(active);
      candidate := None;
      if sources.Length <= 1 {
        return;
      }
      active := Cyclic(active, 1, sources.Length);
      switches := switches + 1;
    }

    /** The part of a turn before the receive; `go` says whether it gets there. */
    method PrepareTurn(t: Turn) returns (go: bool)
      requires Valid() && Fits(State(), t)
      modifies this, sources
      ensures Valid() && (State(), go) == BeforeReceive(cfg, old(State()), t)
      ensures trace == old(trace) + BeforeReceiveInstants(cfg, old(State()), t)
    {
      var reconnect := !IsConnected(sources[active]);
      var poll := NeedsEnsure();
      if !poll {
        return t.outputReady;
      }
      go := EnsureReady(t.probes);
      if go {
        return t.outputReady;
      }
      var connected := IsConnected(sources[active]);
      if (reconnect || !connected) && ensureError != Timeout {
        HandleReceiveError();
      }
    }

    /** The receive, and what the loop does about an error. */
    method ReceiveInTurn(rx: seq<Rx>)
      requires Valid() && |rx| == sources.Length
      modifies this, sources
      ensures Valid() && trace == old(trace) + ReceiveInstants(cfg, old(State()), rx)
      ensures var (s, data) := Receive(cfg, old(State()), rx);
              State() == if data || s.receiveError == Timeout || s.active >= |s.sources| then s else HandleError(s)
    {
      var data := ReceiveData(rx);
      if !data && receiveError != Timeout {
        HandleReceiveError();
      }
    }

    /** One turn of the relay loop, as far as it concerns the input. */
    method RelayTurn(t: Turn)
      requires Valid() && Fits(State(), t)
      modifies this, sources
      ensures Valid() && State() == TakeTurn(cfg, old(State()), t)
      ensures trace == old(trace) + TurnInstants(cfg, old(State()), t)
      ensures Inv(cfg, old(State())) ==> Inv(cfg, State())
    {
      if Inv(cfg, State()) {
        TurnKeepsInv(cfg, State(), t);
      }
      var go := PrepareTurn(t);
      if go {
        ReceiveInTurn(t.rx);
      }
    }

    /** The relay loop itself. */
    method RelayTurns(ts: seq<Turn>)
      requires Valid() && forall k :: 0 <= k < |ts| ==> |ts[k].probes| == |ts[k].rx| == sources.Length
      modifies this, sources
      ensures Valid() && State() == Turns(cfg, old(State()), ts)
      ensures trace == old(trace) + TurnsInstants(cfg, old(State()), ts)
    {
      ghost var end, all := Turns(cfg, State(), ts), trace + TurnsInstants(cfg, State(), ts);
      assert ts[0..] == ts;
      for i := 0 to |ts|
        invariant Valid() && Turns(cfg, State(), ts[i..]) == end
        invariant trace + TurnsInstants(cfg, State(), ts[i..]) == all
      {
        OneTurn(cfg, State(), ts, i, trace);
        RelayTurn(ts[i]);
      }
    }

    method NeedsEnsure() returns (poll: bool)
      requires Valid()
      ensures poll == NeedsEnsurePoll(cfg, State())
    {
      if pendingStop.Some? {
        return true;
      }
      if !IsConnected(sources[active]) {
        return true;
      }
      if cfg.primary.Some? {
        return cfg.primary.value < sources.Length && cfg.primary.value != active;
      }
      return false;
    }
  }

  /** A switcher from its start through any run of the relay loop: the sockets open
      at any instant, and which they are at the end. */
  method Relay(cfg: Config, specs: seq<Source>, ts: seq<Turn>) returns (r: Switcher)
    requires |specs| > 0 && (cfg.primary.Some? ==> cfg.primary.value < |specs|)
    requires forall i :: 0 <= i < |specs| ==> specs[i] != Socket(true)
    requires forall k :: 0 <= k < |ts| ==> |ts[k].probes| == |ts[k].rx| == |specs|
    ensures fresh(r) && r.Valid() && AtMost(r.trace, 2) && Inv(cfg, r.State())
    ensures |OpenSockets(r.sources[..])| <= if cfg.delayed && cfg.primary.Some? then 2 else 1
    ensures r.State() == Turns(cfg, Switch(specs, 0, None, None, 0, NoError, NoError), ts)
  {
    r := new Switcher(cfg, specs);
    ghost var s := r.State();
    r.RelayTurns(ts);
    NeverThreeOpen(cfg, s, ts);
    TurnsKeepInv(cfg, s, ts);
    FewSocketsOpen(cfg, s, ts);
  }
}
