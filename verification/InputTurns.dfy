/** What one turn of the relay loop means for the sources: what a receive may rely on,
    and when a source is given up (src/relay_runtime.cpp:452-660,
    src/relay_input_sources.cpp:515-549 and 568-757). */
module InputTurns {
  import opened Common
  import opened InputSwitching

  /** An open socket, standard input before its end, or a socket that opens when asked. */
  predicate CanServe(x: Source, p: Probe) {
    match x
    case Socket(open) => open || p == Ready
    case Stdin(eof) => !eof
  }

  /** Source `i` once the pending stop is carried out. */
  function AfterStop(s: Switch, i: nat): Source
    requires i < |s.sources|
  {
    if s.pendingStop == Some(i) && s.sources[i].Socket? then Socket(false) else s.sources[i]
  }

  lemma StopIsAfterStop(s: Switch)
    ensures WithoutPendingStop(s).sources == seq(|s.sources|, i requires 0 <= i < |s.sources| => AfterStop(s, i))
    ensures WithoutPendingStop(s) == s.(pendingStop := None, sources := WithoutPendingStop(s).sources)
  {
  }

  /** A turn gets to its receive if and only if the output lets it and some source can
      serve; it then receives from an open socket or from standard input before its end. */
  lemma ReceivesFromReadySource(cfg: Config, s: Switch, t: Turn)
    requires Inv(cfg, s) && Fits(s, t)
    ensures var (s1, go) := BeforeReceive(cfg, s, t);
            && (go <==> t.outputReady && exists i :: 0 <= i < |s.sources| && CanServe(AfterStop(s, i), t.probes[i]))
            && (go ==> s1.active < |s1.sources|
                       && (s1.sources[s1.active] == Socket(true) || s1.sources[s1.active] == Stdin(false)))
  {
    StopIsAfterStop(s);
    var before := WithoutPendingStop(s).sources;
    if NeedsEnsurePoll(cfg, s) {
      EnsureChoosesFirstReady(cfg, s, t.probes);
      EnsureKeepsInv(cfg, s, t.probes);
      assert forall i :: 0 <= i < |before| ==> (Opens(before[i], t.probes[i]) <==> CanServe(AfterStop(s, i), t.probes[i]));
    } else {
      assert CanServe(AfterStop(s, s.active), t.probes[s.active]);
    }
  }

  /** When no source can serve, the turn ends before its receive.  The active source
      keeps its place if it merely timed out; otherwise the next one takes it.  No
      source is left open by that but those that were. */
  lemma FailedEnsure(cfg: Config, s: Switch, t: Turn)
    requires Inv(cfg, s) && Fits(s, t) && |s.sources| >= 2
    requires forall i :: 0 <= i < |s.sources| ==> !CanServe(AfterStop(s, i), t.probes[i])
    ensures var r, a := TakeTurn(cfg, s, t), s.active;
            && r.active == (if s.sources[a].Socket? && t.probes[a] == NotReady(Timeout) then a else (a + 1) % |s.sources|)
            && r.switches == s.switches + (if r.active == a then 0 else 1)
            && |r.sources| == |s.sources| && forall i :: 0 <= i < |s.sources| ==> r.sources[i] == s.sources[i]
  {
    ReceivesFromReadySource(cfg, s, t);
    StopIsAfterStop(s);
    assert !CanServe(AfterStop(s, s.active), t.probes[s.active]);
    EnsureChoosesFirstReady(cfg, s, t.probes);
    CyclicIsModulo(s.active, 1, |s.sources|);
  }

  /** What a receive does when no candidate is waiting: data and a timeout keep the
      active source; any other error closes it and makes the next one active; and
      standard input that ends is at its end for good. */
  lemma ReceiveGivesUpOnErrors(cfg: Config, s: Switch, t: Turn)
    requires Inv(cfg, s) && Fits(s, t) && |s.sources| >= 2
    requires BeforeReceive(cfg, s, t).1 && BeforeReceive(cfg, s, t).0.candidate.None?
    ensures var (s1, r) := (BeforeReceive(cfg, s, t).0, TakeTurn(cfg, s, t));
            && s1.active < |s1.sources| == |s.sources| == |r.sources|
            && var (a, x) := (s1.active, t.rx[s1.active]);
            && (forall i :: 0 <= i < |s.sources| && i != a ==> r.sources[i] == s1.sources[i])
            && match x
               case Data => r.active == a && r.sources[a] == s1.sources[a] && r.receiveError == NoError
               case NoData(kind) =>
                 && r.receiveError == kind
                 && (kind == Timeout ==> r.active == a && r.sources[a] == s1.sources[a])
                 && (kind != Timeout ==> r.active == (a + 1) % |s.sources|
                                         && r.sources[a] == if s1.sources[a].Socket? then Socket(false) else Stdin(false))
               case EndOfInput =>
                 && r.receiveError == Disconnected && r.active == (a + 1) % |s.sources|
                 && r.sources[a] == if s1.sources[a].Socket? then Socket(false) else Stdin(true)
  {
    StopBeforeReceive(cfg, s, t);
    ReceivesFromReadySource(cfg, s, t);
    var s1 := BeforeReceive(cfg, s, t).0;
    CyclicIsModulo(s1.active, 1, |s.sources|);
  }

  /** Where the preferred primary stands when a turn gets past its ensure, the active
      source having been able to serve: active in serial mode, the candidate in delayed
      mode, if it can serve itself. */
  lemma PrimaryBeforeReceive(cfg: Config, s: Switch, t: Turn)
    requires Inv(cfg, s) && Fits(s, t) && cfg.primary.Some? && cfg.primary.value != s.active
    requires CanServe(s.sources[s.active], t.probes[s.active])
    ensures var (s1, p) := (BeforeReceive(cfg, s, t).0, cfg.primary.value);
            && (CanServe(s.sources[p], t.probes[p]) && !cfg.delayed ==> s1.active == p && s1.candidate.None?)
            && (CanServe(s.sources[p], t.probes[p]) && cfg.delayed ==> s1.active == s.active && s1.candidate == Some(p))
            && (!CanServe(s.sources[p], t.probes[p]) ==> s1.active == s.active && s1.candidate == s.candidate)
  {
  }

  /** A turn skips the ensure only where it would have changed nothing. */
  lemma SkippedEnsureIsUseless(cfg: Config, s: Switch, probes: seq<Probe>)
    requires Inv(cfg, s) && |probes| == |s.sources| && !NeedsEnsurePoll(cfg, s)
    ensures Ensure(cfg, s, probes) == (s.(ensureError := NoError), true)
    ensures s.pendingStop.None? && (s.sources[s.active] == Socket(true) || s.sources[s.active] == Stdin(false))
    ensures cfg.primary.Some? ==> cfg.primary.value == s.active
  {
    assert Midway(s, s.active) == s.sources;
  }

  /** In delayed mode, with the active source and the primary both able to serve and the
      active source not failing, a turn moves to the primary if and only if the primary
      is a socket and has data. */
  lemma DelayedCutOverIff(cfg: Config, s: Switch, t: Turn)
    requires Inv(cfg, s) && Fits(s, t) && cfg.delayed && cfg.primary.Some? && cfg.primary.value != s.active
    requires CanServe(s.sources[s.active], t.probes[s.active])
    requires CanServe(s.sources[cfg.primary.value], t.probes[cfg.primary.value])
    requires t.outputReady && (t.rx[s.active] == Data || t.rx[s.active] == NoData(Timeout))
    ensures var p := cfg.primary.value;
            TakeTurn(cfg, s, t).active == (if s.sources[p].Socket? && t.rx[p] == Data then p else s.active)
  {
    PrimaryBeforeReceive(cfg, s, t);
    ReceivesFromReadySource(cfg, s, t);
    StopBeforeReceive(cfg, s, t);
    CandidateAtReceive(cfg, BeforeReceive(cfg, s, t).0, t.rx, t.probes);
  }

  /** So standard input never takes over as the primary: a turn in which it is ready and
      has data, and the relay stays on the other source. */
  lemma StdinPrimaryIsPassedOver()
    ensures var cfg := Config(Some(1), true);
            var s := Switch([Socket(false), Stdin(false)], 0, None, None, 0, NoError, NoError);
            var t := Turn([Ready, Ready], true, [Data, Data]);
            Start(cfg, s) && Fits(s, t) && TakeTurn(cfg, s, t).active == 0
  {
    var cfg := Config(Some(1), true);
    var s := Switch([Socket(false), Stdin(false)], 0, None, None, 0, NoError, NoError);
    DelayedCutOverIff(cfg, s, Turn([Ready, Ready], true, [Data, Data]));
  }
}
