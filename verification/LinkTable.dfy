/** The slot table as the program keeps it: a fixed array updated in place.
    Every method is one locked region and is proved against its function. */
module LinkTable {
  import opened Common
  import opened SlotMatching
  import opened LinkSlots
  import opened LinkInvariants
  import LinkHistory
  import LinkRefinement

  /** The matcher's two scratch arrays say the same as matching `m`. */
  ghost predicate Tracks(m: Matching, memberSlot: seq<int>, slotUsed: seq<bool>) {
    && |slotUsed| == SLOTS && Within(m, SLOTS, |memberSlot|)
    && (forall i: nat :: i < |memberSlot| ==> memberSlot[i] == if i in m.slotOf then m.slotOf[i] else -1)
    && (forall s: nat :: s < SLOTS ==> slotUsed[s] == (s in m.owner))
  }

  lemma BindTracks(m: Matching, memberSlot: seq<int>, slotUsed: seq<bool>, i: nat, s: nat)
    requires Tracks(m, memberSlot, slotUsed) && i < |memberSlot| && s < SLOTS && i !in m.slotOf && s !in m.owner
    ensures Tracks(Bind(m, i, s), memberSlot[i := s], slotUsed[s := true])
  {
    BindKeeps(m, i, s, SLOTS, |memberSlot|);
  }

  /** The scan of one pass for one member. */
  method FindSlot(pass: Pass, keys: seq<nat>, key: nat, slotUsed: seq<bool>, ghost m: Matching) returns (s: nat)
    requires |keys| == SLOTS == |slotUsed| && forall j: nat :: j < SLOTS ==> slotUsed[j] == (j in m.owner)
    ensures s == FirstFree(pass, keys, key, m, 0)
  {
    s := 0;
    while s < SLOTS && (slotUsed[s] || !Fits(pass, keys[s], key))
      invariant s <= SLOTS
      invariant FirstFree(pass, keys, key, m, 0) == FirstFree(pass, keys, key, m, s)
    {
      s := s + 1;
    }
  }

  /** Only the last pass takes a slot over from another link. */
  predicate TakenOver(pass: Pass, m0: Matching, m: Matching, s: nat) {
    pass == AnySlot && s in m.owner && s !in m0.owner
  }

  /** A slot taken over is wiped in the working copy (`copy`); in the table itself
      only its counters are reset at that point. */
  function Yielded(copy: bool, s: Slot): Slot {
    if copy then Evict(s) else s.(core := ZeroTraffic(s.core))
  }

  /** The slots once a pass has gone from matching `m0` to `m`. */
  function Yields(copy: bool, pass: Pass, m0: Matching, m: Matching, before: Slots): (r: Slots)
    ensures forall s :: 0 <= s < SLOTS ==> r[s] == if TakenOver(pass, m0, m, s) then Yielded(copy, before[s]) else before[s]
  {
    seq(SLOTS, s requires 0 <= s < SLOTS => if TakenOver(pass, m0, m, s) then Yielded(copy, before[s]) else before[s])
  }

  lemma NothingYields(copy: bool, pass: Pass, m: Matching, before: Slots)
    ensures Yields(copy, pass, m, m, before) == before
  {
  }

  lemma BindYields(copy: bool, pass: Pass, m: Matching, i: nat, s: nat, before: Slots)
    requires s < SLOTS && s !in m.owner
    ensures Yields(copy, pass, m, Bind(m, i, s), before) ==
            if pass == AnySlot then before[s := Yielded(copy, before[s])] else before
  {
  }

  lemma YieldsAddUp(copy: bool, pass: Pass, m0: Matching, m: Matching, r: Matching, before: Slots)
    requires m0.owner.Keys <= m.owner.Keys <= r.owner.Keys
    ensures Yields(copy, pass, m, r, Yields(copy, pass, m0, m, before)) == Yields(copy, pass, m0, r, before)
  {
  }

  /** Gives every assigned slot of the working copy its member. */
  method FillView(base: Slots, members: seq<Member>, memberSlot: seq<int>, slotUsed: seq<bool>, ghost m: Matching)
    returns (view: Slots, matchedSlot: seq<bool>)
    requires |memberSlot| == |members| && Tracks(m, memberSlot, slotUsed)
    ensures |matchedSlot| == SLOTS && forall s: nat :: s < SLOTS ==> matchedSlot[s] == (s in m.owner)
    ensures forall s: nat :: s < SLOTS ==>
              view[s] == if s in m.owner then Occupy(base[s], members[m.owner[s]]) else base[s]
  {
    view, matchedSlot := base, seq(SLOTS, _ => false);
    for i := 0 to |members|
      invariant |matchedSlot| == SLOTS
      invariant forall s: nat :: s < SLOTS ==> matchedSlot[s] == (s in m.owner && m.owner[s] < i)
      invariant forall s: nat :: s < SLOTS ==>
                  view[s] == if s in m.owner && m.owner[s] < i then Occupy(base[s], members[m.owner[s]]) else base[s]
    {
      var s := memberSlot[i];
      if s >= 0 {
        matchedSlot := matchedSlot[s := true];
        view := view[s := Occupy(view[s], members[i])];
      }
    }
  }

  method VacateUnmatched(filled: Slots, matchedSlot: seq<bool>) returns (view: Slots)
    requires |matchedSlot| == SLOTS
    ensures forall s :: 0 <= s < SLOTS ==> view[s] == if matchedSlot[s] then filled[s] else Vacate(filled[s])
  {
    view := filled;
    for s := 0 to SLOTS
      invariant forall j: nat :: j < SLOTS ==>
                  view[j] == if matchedSlot[j] || j >= s then filled[j] else Vacate(filled[j])
    {
      if !matchedSlot[s] {
        view := view[s := Vacate(view[s])];
      }
    }
  }

  /** The membership of `v` with the counters of `c`. */
  function Joined(c: Core, v: Core): Core {
    c.(id := v.id, connected := v.connected, identity := v.identity)
  }

  /** The working copy through its stages: wiped, filled, vacated. */
  lemma SavedInStages(before: Slots, members: seq<Member>, base: Slots, filled: Slots, view: Slots)
    requires forall s: nat :: s < SLOTS ==>
               base[s] == if Evicted(Keys(before), MemberKeys(members), s) then Evict(before[s]) else before[s]
    requires var m := Match(Keys(before), MemberKeys(members));
             forall s: nat :: s < SLOTS ==>
               && (s in m.owner ==> m.owner[s] < |members|)
               && filled[s] == (if s in m.owner then Occupy(base[s], members[m.owner[s]]) else base[s])
               && view[s] == if s in m.owner then filled[s] else Vacate(filled[s])
    ensures view == SavedSlots(before, members)
  {
  }

  /** What is written back agrees with the counters still in the table. */
  lemma CountersStay(before: Slots, members: seq<Member>, now: Slots, view: Slots)
    requires view == SavedSlots(before, members)
    requires forall s: nat :: s < SLOTS ==>
               now[s] == if Evicted(Keys(before), MemberKeys(members), s) then Yielded(false, before[s]) else before[s]
    ensures forall s :: 0 <= s < SLOTS ==> Joined(now[s].core, view[s].core) == view[s].core
  {
  }

  lemma CompactedFrom(before: Slots, compacted: seq<Core>, after: Slots)
    requires |compacted| == |KeptIndices(before)|
    requires forall d :: 0 <= d < |compacted| ==> compacted[d] == before[KeptIndices(before)[d]].core
    requires forall i :: 0 <= i < SLOTS ==>
               after[i] == Slot(if i < |compacted| then compacted[i] else EMPTY_CORE, before[i].peer)
    ensures after == CompactedSlots(before)
  {
  }

  class LinkTable {
    const side: Side
    const slots: array<Slot>
    var count: int

    ghost predicate Valid() {
      slots.Length == SLOTS
    }

    ghost function State(): Table
      requires Valid()
      reads this, slots
    {
      Table(side, slots[..], count)
    }

    constructor (side: Side)
      ensures Valid() && fresh(slots) && State() == LinkSlots.Fresh(side)
    {
      this.side := side;
      slots := new Slot[SLOTS](_ => EMPTY_SLOT);
      count := 0;
      new;
      assert slots[..] == LinkSlots.Fresh(side).slots;
    }

    function CappedCount(): (r: nat)
      requires Valid()
      reads this, slots
      ensures r == Capped(State())
    {
      if count < 0 then 0 else if count < SLOTS then count else SLOTS
    }

    method ResetTrafficCounters(s: nat)
      requires Valid() && s < SLOTS
      modifies slots
      ensures slots[..] == old(slots[..])[s := Yielded(false, old(slots[s]))]
    {
      slots[s] := slots[s].(core := ZeroTraffic(slots[s].core));
    }

    /** One member's turn in a pass, over a working copy of the membership fields.  The
        last pass takes slots over from other links, and resets each as it does so. */
    method ServeMember(pass: Pass, keys: seq<nat>, mkeys: seq<nat>, i: nat, memberSlot0: seq<int>, slotUsed0: seq<bool>,
                       view0: Slots, ghost m0: Matching)
      returns (memberSlot: seq<int>, slotUsed: seq<bool>, view: Slots, ghost m: Matching)
      requires Valid() && |keys| == SLOTS && i < |memberSlot0| == |mkeys| && Tracks(m0, memberSlot0, slotUsed0)
      modifies slots
      ensures m == Served(pass, keys, mkeys, i, m0) && m0.owner.Keys <= m.owner.Keys
      ensures |memberSlot| == |mkeys| && Tracks(m, memberSlot, slotUsed)
      ensures view == Yields(true, pass, m0, m, view0) && slots[..] == Yields(false, pass, m0, m, old(slots[..]))
    {
      memberSlot, slotUsed, view, m := memberSlot0, slotUsed0, view0, m0;
      NothingYields(true, pass, m, view);
      NothingYields(false, pass, m, slots[..]);
      if memberSlot[i] >= 0 {
        return;
      }
      var s := FindSlot(pass, keys, mkeys[i], slotUsed, m);
      if s < SLOTS {
        BindTracks(m, memberSlot, slotUsed, i, s);
        BindYields(true, pass, m, i, s, view);
        BindYields(false, pass, m, i, s, slots[..]);
        memberSlot, slotUsed, m := memberSlot[i := s], slotUsed[s := true], Bind(m, i, s);
        if pass == AnySlot {
          view := view[s := Yielded(true, view[s])];
          ResetTrafficCounters(s);
        }
      }
    }

    method MatchPass(pass: Pass, keys: seq<nat>, mkeys: seq<nat>, memberSlot0: seq<int>, slotUsed0: seq<bool>,
                     view0: Slots, ghost m0: Matching)
      returns (memberSlot: seq<int>, slotUsed: seq<bool>, view: Slots, ghost m: Matching)
      requires Valid() && |keys| == SLOTS && |memberSlot0| == |mkeys| && Tracks(m0, memberSlot0, slotUsed0)
      modifies slots
      ensures m == RunPass(pass, keys, mkeys, 0, m0) && |memberSlot| == |mkeys| && Tracks(m, memberSlot, slotUsed)
      ensures view == Yields(true, pass, m0, m, view0) && slots[..] == Yields(false, pass, m0, m, old(slots[..]))
    {
      memberSlot, slotUsed, view, m := memberSlot0, slotUsed0, view0, m0;
      NothingYields(true, pass, m, view);
      NothingYields(false, pass, m, slots[..]);
      for i := 0 to |mkeys|
        invariant |memberSlot| == |mkeys| && Tracks(m, memberSlot, slotUsed)
        invariant m0.owner.Keys <= m.owner.Keys
        invariant RunPass(pass, keys, mkeys, 0, m0) == RunPass(pass, keys, mkeys, i, m)
        invariant view == Yields(true, pass, m0, m, view0) && slots[..] == Yields(false, pass, m0, m, old(slots[..]))
      {
        ghost var was := m;
        memberSlot, slotUsed, view, m := ServeMember(pass, keys, mkeys, i, memberSlot, slotUsed, view, m);
        assert RunPass(pass, keys, mkeys, i, was) == RunPass(pass, keys, mkeys, i + 1, m);
        YieldsAddUp(true, pass, m0, was, m, view0);
        YieldsAddUp(false, pass, m0, was, m, old(slots[..]));
      }
    }

    /** The three passes in turn. */
    method MatchMembers(keys: seq<nat>, mkeys: seq<nat>, before: Slots)
      returns (memberSlot: seq<int>, slotUsed: seq<bool>, view: Slots, ghost m: Matching)
      requires Valid() && |keys| == SLOTS && slots[..] == before
      modifies slots
      ensures m == Match(keys, mkeys) && |memberSlot| == |mkeys| && Tracks(m, memberSlot, slotUsed)
      ensures forall s: nat :: s < SLOTS ==>
                && view[s] == (if Evicted(keys, mkeys, s) then Evict(before[s]) else before[s])
                && slots[s] == if Evicted(keys, mkeys, s) then Yielded(false, before[s]) else before[s]
    {
      memberSlot, slotUsed, m := seq(|mkeys|, _ => -1), seq(SLOTS, _ => false), NONE;
      view := before;
      memberSlot, slotUsed, view, m := MatchPass(SameIdentity, keys, mkeys, memberSlot, slotUsed, view, m);
      assert view == before && slots[..] == before;
      memberSlot, slotUsed, view, m := MatchPass(EmptySlot, keys, mkeys, memberSlot, slotUsed, view, m);
      assert view == before && slots[..] == before;
      memberSlot, slotUsed, view, m := MatchPass(AnySlot, keys, mkeys, memberSlot, slotUsed, view, m);
      assert forall s: nat :: s < SLOTS ==> slots[s] == slots[..][s];
    }

    /** Writes membership back, leaving the counters alone, and republishes the span. */
    method WriteSnapshot(view: Slots)
      requires Valid()
      requires forall s :: 0 <= s < SLOTS ==> Joined(slots[s].core, view[s].core) == view[s].core
      modifies this`count, slots
      ensures State() == Table(side, view, Span(view))
    {
      var span := 0;
      for i := 0 to SLOTS
        invariant span <= i && (forall s :: span <= s < i ==> view[s].core.identity == 0)
        invariant span > 0 ==> view[span - 1].core.identity != 0
        invariant forall s :: 0 <= s < i ==> slots[s] == view[s]
        invariant forall s :: i <= s < SLOTS ==> slots[s] == old(slots[s])
      {
        var v := view[i].core;
        slots[i] := Slot(Joined(slots[i].core, v), view[i].peer);
        if v.identity != 0 {
          span := i + 1;
        }
      }
      count := span;
      SpanOf(view, span);
      assert slots[..] == view;
    }

    method SaveMemberSnapshot(members: seq<Member>)
      requires Valid() && |members| <= SLOTS
      modifies this`count, slots
      ensures State() == Save(old(State()), members)
    {
      var before := slots[..];
      var keys, mkeys := Keys(before), MemberKeys(members);
      var memberSlot, slotUsed, base, m := MatchMembers(keys, mkeys, before);
      var filled, matchedSlot := FillView(base, members, memberSlot, slotUsed, m);
      var view := VacateUnmatched(filled, matchedSlot);
      SavedInStages(before, members, base, filled, view);
      CountersStay(before, members, slots[..], view);
      WriteSnapshot(view);
    }

    method ClearTrackedMembers()
      requires Valid()
      modifies this`count, slots
      ensures State() == Clear(old(State()))
    {
      for i := 0 to SLOTS
        invariant forall s :: 0 <= s < SLOTS ==> slots[s] == if s < i then ClearedSlot(old(slots[s])) else old(slots[s])
      {
        if slots[i].core.identity != 0 {
          slots[i] := Slot(slots[i].core.(connected := false, id := INVALID_SOCK, identity := 0), NO_PEER);
          slots[i] := slots[i].(core := ZeroTraffic(slots[i].core));
        }
      }
      count := 0;
      assert slots[..] == Clear(old(State())).slots;
    }

    method MarkAllDisconnected()
      requires Valid()
      modifies slots
      ensures State() == Mark(old(State()))
    {
      var capped := CappedCount();
      for i := 0 to capped
        invariant forall s :: 0 <= s < SLOTS ==> slots[s] == if s < i then MarkedSlot(old(slots[s])) else old(slots[s])
      {
        if slots[i].core.identity != 0 {
          slots[i] := slots[i].(core := slots[i].core.(connected := false));
        }
      }
      assert slots[..] == Mark(old(State())).slots;
    }

    method ScanKept() returns (keep: seq<nat>, before: nat)
      requires Valid()
      ensures keep == KeptIndices(slots[..]) && before == Identified(slots[..])
    {
      keep, before := [], 0;
      for i := 0 to SLOTS
        invariant keep == KeptIndices(slots[..i]) && before == Identified(slots[..i])
      {
        assert Front(slots[..i + 1]) == slots[..i];
        if slots[i].core.identity != 0 {
          before := before + 1;
          if slots[i].core.connected && slots[i].core.id != INVALID_SOCK && slots[i].core.id != 0 {
            keep := keep + [i];
          }
        }
      }
      assert slots[..SLOTS] == slots[..];
    }

    /** Copies the kept links out, counting those that change slots. */
    method CollectKept(keep: seq<nat>) returns (compacted: seq<Core>, moved: nat)
      requires Valid() && forall d :: 0 <= d < |keep| ==> keep[d] < SLOTS
      ensures |compacted| == |keep| && forall d :: 0 <= d < |keep| ==> compacted[d] == slots[keep[d]].core
      ensures moved == Moved(keep)
    {
      compacted, moved := [], 0;
      for d := 0 to |keep|
        invariant |compacted| == d && forall j :: 0 <= j < d ==> compacted[j] == slots[keep[j]].core
        invariant moved == Moved(keep[..d])
      {
        assert Front(keep[..d + 1]) == keep[..d];
        if keep[d] != d {
          moved := moved + 1;
        }
        compacted := compacted + [slots[keep[d]].core];
      }
      assert keep[..|keep|] == keep;
    }

    method CompactSlots() returns (result: CompactResult)
      requires Valid()
      modifies this`count, slots
      ensures State() == Compact(old(State())) && result == Report(old(State()))
    {
      var keep, before := ScanKept();
      var compacted, moved := CollectKept(keep);
      WriteCompacted(compacted);
      count := |keep|;
      CompactedFrom(old(slots[..]), compacted, slots[..]);
      result := CompactResult(before, |keep|, moved, before - |keep|);
    }

    method WriteCompacted(compacted: seq<Core>)
      requires Valid() && |compacted| <= SLOTS
      modifies slots
      ensures forall i :: 0 <= i < SLOTS ==>
                slots[i] == Slot(if i < |compacted| then compacted[i] else EMPTY_CORE, old(slots[i]).peer)
    {
      for i := 0 to SLOTS
        invariant forall s :: i <= s < SLOTS ==> slots[s] == old(slots[s])
        invariant forall s :: 0 <= s < i ==>
                    slots[s] == Slot(if s < |compacted| then compacted[s] else EMPTY_CORE, old(slots[s]).peer)
      {
        slots[i] := slots[i].(core := if i < |compacted| then compacted[i] else EMPTY_CORE);
      }
    }

    method UpdateTraffic(stats: map<int, Stats>)
      requires Valid()
      modifies slots
      ensures State() == Update(old(State()), stats)
    {
      var capped := CappedCount();
      for i := 0 to capped
        invariant forall s :: 0 <= s < SLOTS ==>
                    slots[s] == if s < i then old(slots[s]).(core := UpdatedCore(side, old(slots[s]).core, stats))
                                else old(slots[s])
      {
        var c := slots[i].core;
        if c.identity == 0 || !c.connected || c.id == INVALID_SOCK || c.id == 0 {
          slots[i] := slots[i].(core := ResetCurrent(c));
        } else if c.id in stats {
          var s := stats[c.id];
          var belated := if side == Input then Sampled(c.belated, s.belated) else c.belated;
          slots[i] := slots[i].(core := c.(rx := Sampled(c.rx, s.rx), tx := Sampled(c.tx, s.tx),
                                           belated := belated, rtt := s.rtt));
        }
      }
      assert slots[..] == Update(old(State()), stats).slots;
    }

    method SampleSockets() returns (sockets: seq<int>)
      requires Valid()
      ensures sockets == MemberSockets(Prefix(State()))
    {
      var capped := CappedCount();
      sockets := [];
      for i := 0 to capped
        invariant sockets == MemberSockets(slots[..i])
      {
        assert Front(slots[..i + 1]) == slots[..i];
        if slots[i].core.connected && slots[i].core.id != INVALID_SOCK && slots[i].core.id != 0 {
          sockets := sockets + [slots[i].core.id];
        }
      }
    }

    method HasDisconnectedSlots() returns (found: bool)
      requires Valid()
      ensures found == HasDisconnected(Prefix(State()))
    {
      var capped := CappedCount();
      for i := 0 to capped
        invariant !HasDisconnected(slots[..i])
      {
        if slots[i].core.identity != 0 {
          if !slots[i].core.connected || slots[i].core.id == INVALID_SOCK || slots[i].core.id == 0 {
            assert slots[..capped][i] == slots[i];
            return true;
          }
        }
      }
      found := false;
    }

    method Perform(op: Op)
      requires Valid() && (op.SaveOp? ==> |op.members| <= SLOTS)
      modifies this`count, slots
      ensures State() == Step(old(State()), op)
    {
      match op
      case SaveOp(members) =>
        SaveMemberSnapshot(members);
      case ClearOp =>
        ClearTrackedMembers();
      case MarkOp =>
        MarkAllDisconnected();
      case CompactOp =>
        var result := CompactSlots();
      case TrafficOp(stats) =>
        UpdateTraffic(stats);
    }
  }

  /** One operation more of a run. */
  lemma OneOp(t: Table, ops: seq<Op>, i: nat)
    requires i < |ops|
    ensures Run(t, ops[i..]) == Run(Step(t, ops[i]), ops[i + 1..])
  {
    assert ops[i..][0] == ops[i] && ops[i..][1..] == ops[i + 1..];
  }

  /** A table from its start through any interleaving of operations whose snapshots
      name distinct links out of at most sixteen: what is in the array at the end is
      the map from link identities, and nothing else. */
  method Serve(side: Side, ops: seq<Op>, ghost all: set<nat>) returns (t: LinkTable)
    requires LinkHistory.AllNameFrom(ops, all)
    ensures fresh(t) && fresh(t.slots) && t.Valid()
    ensures t.State() == Run(LinkSlots.Fresh(side), ops)
    ensures LinkRefinement.Represents(t.State(), LinkRefinement.LinksRun(side, map[], ops))
  {
    t := new LinkTable(side);
    ghost var end := Run(t.State(), ops);
    assert ops[0..] == ops;
    for i := 0 to |ops|
      invariant fresh(t) && fresh(t.slots) && t.Valid() && Run(t.State(), ops[i..]) == end
    {
      LinkHistory.SnapshotFits(ops, all, i);
      OneOp(t.State(), ops, i);
      t.Perform(ops[i]);
    }
    LinkHistory.FreshRunRefines(side, ops, all, |ops|);
    assert ops[..|ops|] == ops;
  }
}
