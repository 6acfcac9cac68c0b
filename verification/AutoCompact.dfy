/** The delayed auto-compactor (src/link_slot_tracker.cpp:23-136): per side a
    deadline that is armed when a disconnected slot is first seen, cancelled when
    none is seen any more, and fires a compaction once it has passed. */
module AutoCompact {
  import opened Common
  import opened LinkSlots
  import opened LinkInvariants
  import LinkTable

  datatype Sides = Both | InputOnly | OutputOnly

  /** `delayMs` is negative when the feature is off. */
  datatype Config = Config(delayMs: int, sides: Sides)

  predicate Enabled(cfg: Config, side: Side) {
    match cfg.sides
    case Both => true
    case InputOnly => side == Input
    case OutputOnly => side == Output
  }

  /** One side: its table and its deadline, 0 when unarmed. */
  datatype Watch = Watch(table: Table, deadline: int)

  function Fires(cfg: Config, w: Watch, now: int): bool {
    Enabled(cfg, w.table.side) && HasDisconnected(Prefix(w.table)) && w.deadline != 0 && now >= w.deadline
  }

  function NextDeadline(cfg: Config, w: Watch, now: int): int {
    if !Enabled(cfg, w.table.side) || !HasDisconnected(Prefix(w.table)) then 0
    else if w.deadline == 0 then now + cfg.delayMs
    else if now >= w.deadline then 0
    else w.deadline
  }

  function Tick(cfg: Config, w: Watch, now: int): Watch {
    if now <= 0 || cfg.delayMs < 0 then w
    else Watch(if Fires(cfg, w, now) then Compact(w.table) else w.table, NextDeadline(cfg, w, now))
  }

  // ---- Histories: ticks interleaved with any other operation on the table ----

  datatype Event = TickAt(now: int) | Other(op: Op)

  function Apply(cfg: Config, w: Watch, e: Event): Watch {
    match e
    case TickAt(now) => Tick(cfg, w, now)
    case Other(op) => w.(table := Step(w.table, op))
  }

  /** The state before event `n`. */
  function Before(cfg: Config, w: Watch, es: seq<Event>, n: nat): (r: Watch)
    requires n <= |es|
    ensures r.table.side == w.table.side
  {
    if n == 0 then w else Apply(cfg, Before(cfg, w, es, n - 1), es[n - 1])
  }

  /** A tick that is not ignored; the clock is positive. */
  predicate Counts(e: Event) {
    e.TickAt? && e.now > 0
  }

  /** The tick at `n` finds a disconnected slot. */
  predicate Sees(cfg: Config, w: Watch, es: seq<Event>, n: nat)
    requires n < |es|
  {
    Counts(es[n]) && HasDisconnected(Prefix(Before(cfg, w, es, n).table))
  }

  predicate ArmsAt(cfg: Config, w: Watch, es: seq<Event>, n: nat)
    requires n < |es|
  {
    Sees(cfg, w, es, n) && Before(cfg, w, es, n).deadline == 0
  }

  predicate CompactsAt(cfg: Config, w: Watch, es: seq<Event>, n: nat)
    requires n < |es|
  {
    Counts(es[n]) && Fires(cfg, Before(cfg, w, es, n), es[n].now)
  }

  /** The event at `m` leaves a deadline standing: it is no tick, or a tick before it that
      still sees a disconnected slot. */
  predicate Spares(cfg: Config, w: Watch, es: seq<Event>, m: nat, deadline: int)
    requires m < |es|
  {
    Counts(es[m]) ==> Sees(cfg, w, es, m) && es[m].now < deadline
  }

  /** Since tick `i` every tick before `n` has seen a disconnected slot and come
      before the deadline `i` set. */
  predicate Waiting(cfg: Config, w: Watch, es: seq<Event>, i: nat, n: nat)
    requires i < n <= |es| && es[i].TickAt?
  {
    AllSpare(cfg, w, es, i, n, es[i].now + cfg.delayMs)
  }

  predicate AllSpare(cfg: Config, w: Watch, es: seq<Event>, i: nat, n: nat, deadline: int)
    requires n <= |es|
  {
    forall m :: i < m < n ==> Spares(cfg, w, es, m, deadline)
  }

  /** Compaction is on for this side, and no deadline stands. */
  predicate Active(cfg: Config, w: Watch) {
    && cfg.delayMs >= 0 && w.deadline == 0
    && (cfg.sides == Both || (cfg.sides == InputOnly && w.table.side == Input)
        || (cfg.sides == OutputOnly && w.table.side == Output))
  }

  /** One event of an enabled side: a deadline is newly armed, or it stands because
      the tick, if any, sees a disconnected slot before the deadline. */
  lemma DeadlineStep(cfg: Config, w: Watch, e: Event)
    requires cfg.delayMs >= 0 && Enabled(cfg, w.table.side)
    ensures var next := Apply(cfg, w, e).deadline;
            var sees := Counts(e) && HasDisconnected(Prefix(w.table));
            && (w.deadline == 0 ==> next == if sees then e.now + cfg.delayMs else 0)
            && (w.deadline != 0 ==> next == if Counts(e) && (!sees || e.now >= w.deadline) then 0 else w.deadline)
  {
  }

  /** A deadline that appears was armed there. */
  lemma ArmedHere(cfg: Config, w: Watch, es: seq<Event>, n: nat)
    requires cfg.delayMs >= 0 && Enabled(cfg, w.table.side) && n < |es|
    requires Before(cfg, w, es, n).deadline == 0 && Before(cfg, w, es, n + 1).deadline != 0
    ensures ArmsAt(cfg, w, es, n) && Before(cfg, w, es, n + 1).deadline == es[n].now + cfg.delayMs
  {
    DeadlineStep(cfg, Before(cfg, w, es, n), es[n]);
  }

  /** A deadline still there was spared. */
  lemma SparedHere(cfg: Config, w: Watch, es: seq<Event>, n: nat, deadline: int)
    requires cfg.delayMs >= 0 && Enabled(cfg, w.table.side) && n < |es|
    requires Before(cfg, w, es, n).deadline == deadline != 0 && Before(cfg, w, es, n + 1).deadline != 0
    ensures Spares(cfg, w, es, n, deadline) && Before(cfg, w, es, n + 1).deadline == deadline
  {
    DeadlineStep(cfg, Before(cfg, w, es, n), es[n]);
  }

  lemma {:induction false} ArmedSince(cfg: Config, w: Watch, es: seq<Event>, n: nat) returns (i: nat)
    requires Active(cfg, w) && n <= |es| && Before(cfg, w, es, n).deadline != 0
    ensures i < n && ArmsAt(cfg, w, es, i) && Waiting(cfg, w, es, i, n)
    ensures Before(cfg, w, es, n).deadline == es[i].now + cfg.delayMs
  {
    var m := n - 1;
    if Before(cfg, w, es, m).deadline == 0 {
      ArmedHere(cfg, w, es, m);
      i := m;
    } else {
      i := ArmedSince(cfg, w, es, m);
      SparedHere(cfg, w, es, m, es[i].now + cfg.delayMs);
      OneMoreSpares(cfg, w, es, i, m, es[i].now + cfg.delayMs);
    }
  }

  lemma OneMoreSpares(cfg: Config, w: Watch, es: seq<Event>, i: nat, m: nat, deadline: int)
    requires i < m < |es| && AllSpare(cfg, w, es, i, m, deadline) && Spares(cfg, w, es, m, deadline)
    ensures AllSpare(cfg, w, es, i, m + 1, deadline)
  {
  }

  lemma Stands(cfg: Config, w: Watch, es: seq<Event>, n: nat, deadline: int)
    requires cfg.delayMs >= 0 && Enabled(cfg, w.table.side)
    requires n < |es| && Before(cfg, w, es, n).deadline == deadline != 0 && Spares(cfg, w, es, n, deadline)
    ensures Before(cfg, w, es, n + 1).deadline == deadline
  {
    DeadlineStep(cfg, Before(cfg, w, es, n), es[n]);
  }

  lemma {:induction false} StandsUntil(cfg: Config, w: Watch, es: seq<Event>, i: nat, n: nat, deadline: int)
    requires cfg.delayMs >= 0 && Enabled(cfg, w.table.side)
    requires i < n <= |es| && Before(cfg, w, es, i + 1).deadline == deadline != 0
    requires AllSpare(cfg, w, es, i, n, deadline)
    ensures Before(cfg, w, es, n).deadline == deadline
  {
    if i + 1 < n {
      var m := n - 1;
      StandsUntil(cfg, w, es, i, m, deadline);
      Stands(cfg, w, es, m, deadline);
    }
  }

  lemma Armed(cfg: Config, w: Watch, es: seq<Event>, i: nat)
    requires cfg.delayMs >= 0 && Enabled(cfg, w.table.side) && i < |es| && ArmsAt(cfg, w, es, i)
    ensures Before(cfg, w, es, i + 1).deadline == es[i].now + cfg.delayMs != 0
  {
    DeadlineStep(cfg, Before(cfg, w, es, i), es[i]);
  }

  lemma StaysArmed(cfg: Config, w: Watch, es: seq<Event>, i: nat, n: nat)
    requires Active(cfg, w) && i < n <= |es| && ArmsAt(cfg, w, es, i) && Waiting(cfg, w, es, i, n)
    ensures Before(cfg, w, es, n).deadline == es[i].now + cfg.delayMs
  {
    Armed(cfg, w, es, i);
    StandsUntil(cfg, w, es, i, n, es[i].now + cfg.delayMs);
  }

  /** The whole history of one side, exactly: a tick compacts if and only if some
      earlier tick armed the deadline, every tick since has still seen a
      disconnected slot, and this is the first one at or past the deadline. */
  lemma CompactsIffDelayed(cfg: Config, w: Watch, es: seq<Event>, j: nat)
    requires Active(cfg, w) && j < |es|
    ensures CompactsAt(cfg, w, es, j) <==>
            exists i :: 0 <= i < j && ArmsAt(cfg, w, es, i) && Waiting(cfg, w, es, i, j)
                        && Sees(cfg, w, es, j) && es[j].now >= es[i].now + cfg.delayMs
  {
    if CompactsAt(cfg, w, es, j) {
      var i := ArmedSince(cfg, w, es, j);
    }
    forall i | 0 <= i < j && ArmsAt(cfg, w, es, i) && Waiting(cfg, w, es, i, j)
               && Sees(cfg, w, es, j) && es[j].now >= es[i].now + cfg.delayMs
      ensures CompactsAt(cfg, w, es, j)
    {
      StaysArmed(cfg, w, es, i, j);
    }
  }

  /** The tick that first sees a disconnected slot never compacts, even with a
      delay of zero. */
  lemma DetectionOnlyArms(cfg: Config, w: Watch, now: int)
    requires Active(cfg, w) && now > 0 && HasDisconnected(Prefix(w.table))
    ensures Tick(cfg, w, now) == Watch(w.table, now + cfg.delayMs) && now + cfg.delayMs != 0
    ensures cfg.delayMs == 0 ==>
              Tick(cfg, Tick(cfg, w, now), now) == Watch(Compact(w.table), 0)
  {
  }

  /** Switched off, or without a clock, a tick does nothing; nor does it ever touch a
      table it does not compact. */
  lemma TickOff(cfg: Config, w: Watch, now: int)
    ensures now <= 0 || cfg.delayMs < 0 ==> Tick(cfg, w, now) == w
    ensures Tick(cfg, w, now).table == w.table || Tick(cfg, w, now).table == Compact(w.table)
  {
  }

  /** When a tick compacts, the table is well formed, dense and fully live. */
  lemma CompactionClearsTheTable(cfg: Config, w: Watch, now: int)
    requires now > 0 && cfg.delayMs >= 0 && Fires(cfg, w, now)
    ensures var after := Tick(cfg, w, now);
            && WellFormed(after.table) && !HasDisconnected(Prefix(after.table)) && after.deadline == 0
            && Report(w.table).dropped > 0 && Report(after.table).dropped == 0
  {
    var t, c := w.table, Compact(w.table);
    CompactKeepsWellFormed(t);
    CompactIdempotent(t);
    PrefixHasFewer(c);
    PrefixHasFewer(t);
    assert Report(t).dropped > 0 by {
      ReportMeaning(t);
    }
  }

  lemma PrefixHasFewer(t: Table)
    ensures HasDisconnected(Prefix(t)) ==> HasDisconnected(t.slots)
  {
    assert forall i :: 0 <= i < |Prefix(t)| ==> Prefix(t)[i] == t.slots[i];
  }

  /** The output side under an input-only setting, and the other way round, never arms
      and never compacts. */
  lemma {:induction false} DisabledSideIsLeftAlone(cfg: Config, w: Watch, es: seq<Event>, n: nat)
    requires n <= |es| && w.deadline == 0
    requires (cfg.sides == InputOnly && w.table.side == Output) || (cfg.sides == OutputOnly && w.table.side == Input)
    ensures Before(cfg, w, es, n).deadline == 0 && (n < |es| ==> !CompactsAt(cfg, w, es, n))
  {
    if n > 0 {
      DisabledSideIsLeftAlone(cfg, w, es, n - 1);
    }
  }

  // ---- Both sides at once ----

  /** A call ticks both sides; any other operation is one side's alone. */
  datatype Call = TickBoth(now: int) | On(side: Side, op: Op)

  /** What one side sees of a run of calls. */
  function SeenBy(side: Side, calls: seq<Call>): seq<Event> {
    if calls == [] then []
    else
      SeenBy(side, Front(calls)) +
      match Last(calls)
      case TickBoth(now) => [TickAt(now)]
      case On(s, op) => if s == side then [Other(op)] else []
  }

  /** One side after a whole history. */
  function AfterAll(cfg: Config, w: Watch, es: seq<Event>): Watch {
    Before(cfg, w, es, |es|)
  }

  lemma {:induction false} BeforePrefix(cfg: Config, w: Watch, a: seq<Event>, b: seq<Event>, n: nat)
    requires n <= |a|
    ensures Before(cfg, w, a + b, n) == Before(cfg, w, a, n)
  {
    if n > 0 {
      BeforePrefix(cfg, w, a, b, n - 1);
    }
  }

  lemma OneEvent(cfg: Config, w: Watch, es: seq<Event>, e: Event)
    ensures AfterAll(cfg, w, es + [e]) == Apply(cfg, AfterAll(cfg, w, es), e)
  {
    BeforePrefix(cfg, w, es, [e], |es|);
  }

  /** One call more: a tick ticks this side too, and any other operation is seen only
      by the side it is on. */
  lemma OneCall(cfg: Config, w: Watch, calls: seq<Call>, i: nat)
    requires i < |calls|
    ensures var was, now := AfterAll(cfg, w, SeenBy(w.table.side, calls[..i])), AfterAll(cfg, w, SeenBy(w.table.side, calls[..i + 1]));
            match calls[i]
            case TickBoth(ms) => now == Tick(cfg, was, ms)
            case On(side, op) => now == if side == w.table.side then was.(table := Step(was.table, op)) else was
  {
    var seen := SeenBy(w.table.side, calls[..i]);
    assert Front(calls[..i + 1]) == calls[..i];
    match calls[i]
    case TickBoth(now) => OneEvent(cfg, w, seen, TickAt(now));
    case On(side, op) =>
      if side == w.table.side {
        OneEvent(cfg, w, seen, Other(op));
      } else {
        assert seen + [] == seen;
      }
  }

  /** Both tables and both deadlines, as the metrics state holds them. */
  class Compactor {
    const input: LinkTable.LinkTable
    const output: LinkTable.LinkTable
    const deadlines: array<int>

    ghost predicate Valid() {
      && input.Valid() && output.Valid() && deadlines.Length == 2
      && input.side == Input && output.side == Output
      && input != output && input.slots != output.slots
    }

    ghost function InputWatch(): Watch
      requires Valid()
      reads input, input.slots, deadlines
    {
      Watch(input.State(), deadlines[0])
    }

    ghost function OutputWatch(): Watch
      requires Valid()
      reads output, output.slots, deadlines
    {
      Watch(output.State(), deadlines[1])
    }

    constructor ()
      ensures Valid() && fresh(input) && fresh(output) && fresh(input.slots) && fresh(output.slots) && fresh(deadlines)
      ensures InputWatch() == Watch(LinkSlots.Fresh(Input), 0) && OutputWatch() == Watch(LinkSlots.Fresh(Output), 0)
    {
      input := new LinkTable.LinkTable(Input);
      output := new LinkTable.LinkTable(Output);
      deadlines := new int[2](_ => 0);
    }

    method RunForSide(cfg: Config, table: LinkTable.LinkTable, index: nat, now: int) returns (triggered: bool)
      requires Valid() && now > 0 && cfg.delayMs >= 0 && index < 2
      requires table == if index == 0 then input else output
      modifies table`count, table.slots, deadlines
      ensures deadlines[1 - index] == old(deadlines[1 - index])
      ensures triggered == Fires(cfg, old(Watch(table.State(), deadlines[index])), now)
      ensures Watch(table.State(), deadlines[index]) == Tick(cfg, old(Watch(table.State(), deadlines[index])), now)
    {
      triggered := false;
      if !Enabled(cfg, table.side) {
        deadlines[index] := 0;
        return;
      }
      var present := table.HasDisconnectedSlots();
      if !present {
        deadlines[index] := 0;
      } else if deadlines[index] == 0 {
        deadlines[index] := now + cfg.delayMs;
      } else if now >= deadlines[index] {
        triggered := true;
        deadlines[index] := 0;
      }
      if triggered {
        var result := table.CompactSlots();
      }
    }

    /** One call: each side ticks on its own state, and neither sees the other's. */
    method MaybeAutoCompact(cfg: Config, now: int)
      requires Valid()
      modifies input`count, input.slots, output`count, output.slots, deadlines
      ensures InputWatch() == Tick(cfg, old(InputWatch()), now)
      ensures OutputWatch() == Tick(cfg, old(OutputWatch()), now)
    {
      if now <= 0 || cfg.delayMs < 0 {
        return;
      }
      var a := RunForSide(cfg, input, 0, now);
      var b := RunForSide(cfg, output, 1, now);
    }

    method Perform(cfg: Config, call: Call)
      requires Valid() && (call.On? && call.op.SaveOp? ==> |call.op.members| <= SLOTS)
      modifies input`count, input.slots, output`count, output.slots, deadlines
      ensures call.TickBoth? ==>
                && InputWatch() == Tick(cfg, old(InputWatch()), call.now)
                && OutputWatch() == Tick(cfg, old(OutputWatch()), call.now)
      ensures call.On? && call.side == Input ==>
                && InputWatch() == old(InputWatch()).(table := Step(old(InputWatch()).table, call.op))
                && OutputWatch() == old(OutputWatch())
      ensures call.On? && call.side == Output ==>
                && InputWatch() == old(InputWatch())
                && OutputWatch() == old(OutputWatch()).(table := Step(old(OutputWatch()).table, call.op))
    {
      match call
      case TickBoth(now) =>
        MaybeAutoCompact(cfg, now);
      case On(side, op) =>
        if side == Input {
          input.Perform(op);
        } else {
          output.Perform(op);
        }
    }

    /** Any run of calls: each side ends where its own events alone would have taken
        it, so neither side's ticks or operations ever affect the other. */
    method PerformAll(cfg: Config, calls: seq<Call>)
      requires Valid() && forall i :: 0 <= i < |calls| && calls[i].On? && calls[i].op.SaveOp? ==> |calls[i].op.members| <= SLOTS
      modifies input`count, input.slots, output`count, output.slots, deadlines
      ensures InputWatch() == AfterAll(cfg, old(InputWatch()), SeenBy(Input, calls))
      ensures OutputWatch() == AfterAll(cfg, old(OutputWatch()), SeenBy(Output, calls))
    {
      ghost var a, b := InputWatch(), OutputWatch();
      for i := 0 to |calls|
        invariant InputWatch() == AfterAll(cfg, a, SeenBy(Input, calls[..i]))
        invariant OutputWatch() == AfterAll(cfg, b, SeenBy(Output, calls[..i]))
      {
        OneCall(cfg, a, calls, i);
        OneCall(cfg, b, calls, i);
        Perform(cfg, calls[i]);
      }
      assert calls[..|calls|] == calls;
    }
  }
}
