/** What every interleaving of locked slot operations keeps, and what compaction
    does to the table. */
module LinkInvariants {
  import opened Common
  import opened SlotMatching
  import opened LinkSlots

  predicate NoTraffic(c: Core) {
    c.rx == ZERO && c.tx == ZERO && c.belated == ZERO
  }

  /** The unstated assumption behind `Clear` and the empty-slot pass: a slot
      without an identity carries no bytes, and the count is the exact span. */
  predicate WellFormed(t: Table) {
    && t.count == Span(t.slots)
    && forall i :: 0 <= i < SLOTS && t.slots[i].core.identity == 0 ==> NoTraffic(t.slots[i].core)
  }

  lemma SpanOf(slots: seq<Slot>, r: nat)
    requires r <= |slots|
    requires forall i :: r <= i < |slots| ==> slots[i].core.identity == 0
    requires r > 0 ==> slots[r - 1].core.identity != 0
    ensures Span(slots) == r
  {
  }

  lemma {:induction false} SpanSameIdentities(a: seq<Slot>, b: seq<Slot>)
    requires |a| == |b| && forall i :: 0 <= i < |a| ==> a[i].core.identity == b[i].core.identity
    ensures Span(a) == Span(b)
  {
    SpanOf(a, Span(b));
  }

  lemma CompactKeepsWellFormed(t: Table)
    ensures WellFormed(Compact(t))
  {
    SpanOf(Compact(t).slots, |KeptIndices(t.slots)|);
  }

  lemma SaveKeepsWellFormed(t: Table, members: seq<Member>)
    requires WellFormed(t)
    ensures WellFormed(Save(t, members))
  {
  }

  lemma StepKeepsWellFormed(t: Table, op: Op)
    requires WellFormed(t)
    ensures WellFormed(Step(t, op))
  {
    match op
    case SaveOp(members) => SaveKeepsWellFormed(t, members);
    case ClearOp => SpanOf(Clear(t).slots, 0);
    case MarkOp => SpanSameIdentities(t.slots, Mark(t).slots);
    case CompactOp => CompactKeepsWellFormed(t);
    case TrafficOp(stats) => SpanSameIdentities(t.slots, Update(t, stats).slots);
  }

  /** Every table reachable from a fresh one is well formed. */
  lemma {:induction false} RunKeepsWellFormed(t: Table, ops: seq<Op>)
    requires WellFormed(t)
    ensures WellFormed(Run(t, ops))
    decreases |ops|
  {
    if ops != [] {
      StepKeepsWellFormed(t, ops[0]);
      RunKeepsWellFormed(Step(t, ops[0]), ops[1..]);
    }
  }

  lemma ReachableWellFormed(side: Side, ops: seq<Op>)
    ensures WellFormed(Run(Fresh(side), ops))
  {
    SpanOf(Fresh(side).slots, 0);
    RunKeepsWellFormed(Fresh(side), ops);
  }

  /** A slot that changes hands in a save starts its new link at zero, and one that
      does not keeps its counters; only the round-trip time shown is still the earlier
      link's, until the next sample. */
  lemma NewLinkInheritsNothing(t: Table, members: seq<Member>, s: nat)
    requires WellFormed(t) && s < SLOTS
    ensures var before, after := t.slots[s].core, Save(t, members).slots[s].core;
            (after.identity != before.identity ==> NoTraffic(after)) && after.rtt == before.rtt
    ensures var before, after := t.slots[s].core, Save(t, members).slots[s].core;
            after.identity == before.identity ==>
              after.rx == before.rx && after.tx == before.tx && after.belated == before.belated
  {
    var keys, mkeys := Keys(t.slots), MemberKeys(members);
    MatchFits(keys, mkeys);
    if Evicted(keys, mkeys, s) {
      EvictedChangesHands(keys, mkeys, s);
    }
  }

  /** The last pass never gives a slot to a member of the identity it carries, and
      never gives out an unidentified slot. */
  lemma EvictedChangesHands(keys: seq<nat>, members: seq<nat>, s: nat)
    requires Evicted(keys, members, s)
    ensures var m := Match(keys, members);
            s < |keys| && m.owner[s] < |members| && keys[s] != 0 && members[m.owner[s]] != keys[s]
  {
    MatchFits(keys, members);
    var a, b, m := Reused(keys, members), ReusedOrFilled(keys, members), Match(keys, members);
    var i := m.owner[s];
    assert i !in b.slotOf && i !in a.slotOf && s !in a.owner;
    assert !Fits(EmptySlot, keys[s], members[i]) && !Fits(SameIdentity, keys[s], members[i]);
  }

  /** The peer shown is the member's; a member without an endpoint shows none. */
  predicate Describes(p: Peer, m: Member) {
    && p.sock == m.sock && p.group == m.group
    && (if m.endpoint.Some? then (p.host, p.port) == m.endpoint.value else p.host == "" && p.port == 0)
  }

  /** After a save a slot holds a member's socket exactly when a member was
      assigned to it; every other slot holds no socket. */
  lemma OnlyAssignedSlotsHoldSockets(t: Table, members: seq<Member>)
    requires |members| <= SLOTS
    ensures var m := Match(Keys(t.slots), MemberKeys(members));
            && m.slotOf.Keys == Upto(|members|)
            && (forall i :: 0 <= i < |members| ==>
                 m.slotOf[i] < SLOTS
                 && Save(t, members).slots[m.slotOf[i]].core.id == members[i].id
                 && Save(t, members).slots[m.slotOf[i]].core.connected ==
                      (members[i].group == Running || members[i].sock == Connected)
                 && Describes(Save(t, members).slots[m.slotOf[i]].peer, members[i]))
            && (forall s :: 0 <= s < SLOTS && s !in m.owner ==>
                 Save(t, members).slots[s].core.id == INVALID_SOCK && !Save(t, members).slots[s].core.connected)
  {
    EveryMemberGetsItsOwnSlot(Keys(t.slots), MemberKeys(members));
  }

  predicate HoldsNoSocket(c: Core) {
    !c.connected && c.id == INVALID_SOCK
  }

  /** Clearing leaves no identity and no bytes anywhere, and forgets the address of every
      identified slot.  It passes over unidentified slots, so it leaves no socket either
      exactly when none of those held one. */
  lemma ClearLeavesNothing(t: Table)
    requires WellFormed(t)
    ensures WellFormed(Clear(t)) && Clear(t).count == 0
    ensures forall i :: 0 <= i < SLOTS ==>
              Clear(t).slots[i].core.identity == 0 && NoTraffic(Clear(t).slots[i].core)
    ensures forall i :: 0 <= i < SLOTS ==>
              var was, now := t.slots[i], Clear(t).slots[i];
              if was.core.identity == 0 then now == was
              else HoldsNoSocket(now.core) && now.core.rtt == was.core.rtt && now.peer == Peer(NonExist, Idle, "", 0)
    ensures (forall i :: 0 <= i < SLOTS ==> HoldsNoSocket(Clear(t).slots[i].core)) <==>
            (forall i :: 0 <= i < SLOTS && t.slots[i].core.identity == 0 ==> HoldsNoSocket(t.slots[i].core))
  {
    SpanOf(Clear(t).slots, 0);
  }

  /** A scan of the capped prefix that skips unidentified slots sees every
      identified slot there is. */
  lemma PrefixScanIsFullScan(t: Table, stats: map<int, Stats>)
    requires WellFormed(t)
    ensures HasDisconnected(Prefix(t)) == HasDisconnected(t.slots)
    ensures forall i :: 0 <= i < SLOTS ==> Mark(t).slots[i] == MarkedSlot(t.slots[i])
    ensures forall i :: 0 <= i < SLOTS && t.slots[i].core.identity != 0 ==>
              Update(t, stats).slots[i].core == UpdatedCore(t.side, t.slots[i].core, stats)
  {
  }

  lemma {:induction false} SampledSockets(slots: seq<Slot>, id: int)
    ensures id in MemberSockets(slots) <==>
            exists i :: 0 <= i < |slots| && slots[i].core.connected && ValidSocket(id) && slots[i].core.id == id
  {
    if slots != [] {
      SampledSockets(Front(slots), id);
      assert forall i :: 0 <= i < |slots| - 1 ==> Front(slots)[i] == slots[i];
    }
  }

  /** A stats tick samples the socket of every live link. */
  lemma EveryLiveLinkIsSampled(t: Table, i: nat)
    requires WellFormed(t) && i < SLOTS && Live(t.slots[i].core)
    ensures t.slots[i].core.id in MemberSockets(Prefix(t))
  {
    SampledSockets(Prefix(t), t.slots[i].core.id);
    assert Prefix(t)[i] == t.slots[i];
  }

  // ---- Compaction ----

  function Cores(slots: seq<Slot>): (r: seq<Core>)
    ensures |r| == |slots| && forall i :: 0 <= i < |slots| ==> r[i] == slots[i].core
  {
    seq(|slots|, i requires 0 <= i < |slots| => slots[i].core)
  }

  function LiveCores(cores: seq<Core>): seq<Core> {
    if cores == [] then []
    else LiveCores(Front(cores)) + if Live(Last(cores)) then [Last(cores)] else []
  }

  function Pick(slots: seq<Slot>, kept: seq<nat>): (r: seq<Core>)
    requires forall d :: 0 <= d < |kept| ==> kept[d] < |slots|
    ensures |r| == |kept| && forall d :: 0 <= d < |kept| ==> r[d] == slots[kept[d]].core
  {
    seq(|kept|, d requires 0 <= d < |kept| => slots[kept[d]].core)
  }

  lemma {:induction false} KeptIsFilter(slots: seq<Slot>)
    ensures Pick(slots, KeptIndices(slots)) == LiveCores(Cores(slots))
  {
    if slots != [] {
      KeptIsFilter(Front(slots));
      assert Front(Cores(slots)) == Cores(Front(slots));
    }
  }

  function Padding(n: nat): (r: seq<Core>)
    ensures |r| == n && forall i :: 0 <= i < n ==> r[i] == EMPTY_CORE
  {
    seq(n, _ => EMPTY_CORE)
  }

  /** Compaction keeps the live links in order, with all their counters, and pads
      with empty slots.  It leaves every slot's peer description in place. */
  lemma CompactIsStableFilter(t: Table)
    ensures var live := LiveCores(Cores(t.slots));
            && |live| == Compact(t).count == Report(t).after <= SLOTS
            && Cores(Compact(t).slots) == live + Padding(SLOTS - |live|)
            && forall i :: 0 <= i < SLOTS ==> Compact(t).slots[i].peer == t.slots[i].peer
  {
    KeptIsFilter(t.slots);
  }

  /** No peer description is shared by two slots, unless both are unidentified. */
  ghost predicate DistinctPeers(slots: Slots) {
    forall i, j :: 0 <= i < j < SLOTS && (slots[i].core.identity != 0 || slots[j].core.identity != 0) ==>
      slots[i].peer != slots[j].peer
  }

  /** A live slot's place in the compacted table. */
  lemma {:induction false} KeptHas(slots: seq<Slot>, s: nat) returns (d: nat)
    requires s < |slots| && Live(slots[s].core)
    ensures d < |KeptIndices(slots)| && KeptIndices(slots)[d] == s
  {
    if s == |slots| - 1 {
      d := |KeptIndices(Front(slots))|;
    } else {
      d := KeptHas(Front(slots), s);
    }
  }

  /** No live link sits behind a slot that is not live. */
  predicate LiveFirst(slots: Slots) {
    forall i, j :: 0 <= i < j < SLOTS && Live(slots[j].core) ==> Live(slots[i].core)
  }

  lemma NothingMovesIffLiveFirst(t: Table)
    ensures Report(t).moved == 0 <==> LiveFirst(t.slots)
  {
    var kept, p := KeptIndices(t.slots), LivePrefix(t.slots);
    ReportMeaning(t);
    KeptPastPrefix(t.slots, p);
    if |kept| == p {
      forall j | 0 <= j < SLOTS && Live(t.slots[j].core)
        ensures j < p
      {
        var d := KeptHas(t.slots, j);
      }
    } else {
      assert Live(t.slots[kept[p]].core) && !Live(t.slots[p].core);
    }
  }

  /** Peer descriptions do not travel with their links: every kept link still shows
      its own peer after a compaction if and only if, before it, no live link sat
      behind a slot that was not live. */
  lemma PeersFollowIffLiveFirst(t: Table)
    requires DistinctPeers(t.slots)
    ensures (forall d :: 0 <= d < Report(t).after ==>
               Compact(t).slots[d].peer == t.slots[KeptIndices(t.slots)[d]].peer)
            <==> LiveFirst(t.slots)
  {
    var kept, p := KeptIndices(t.slots), LivePrefix(t.slots);
    ReportMeaning(t);
    NothingMovesIffLiveFirst(t);
    KeptPastPrefix(t.slots, p);
    if Report(t).moved != 0 {
      assert kept[p] > p;
      assert t.slots[p].peer != t.slots[kept[p]].peer;
    }
  }

  /** A table in which it does not: two links are saved, the next snapshot names only
      the second, and a compaction moves that one to the first slot, where it is shown
      with the first one's peer. */
  lemma MovedLinkShowsAnotherPeer(side: Side)
    ensures var a := Member(1, Connected, Running, Some(("a", 1)), 1);
            var b := Member(2, Connected, Running, Some(("b", 2)), 2);
            var t := Compact(Save(Save(Fresh(side), [a, b]), [b]));
            t.count == 1 && t.slots[0].core.identity == b.key && t.slots[0].core.id == b.id && t.slots[0].peer.host == "a"
  {
    var a := Member(1, Connected, Running, Some(("a", 1)), 1);
    var b := Member(2, Connected, Running, Some(("b", 2)), 2);
    SecondOfTwoMoves(Fresh(side), a, b);
  }

  /** The same for any two connected members with identities of their own. */
  lemma SecondOfTwoMoves(t: Table, a: Member, b: Member)
    requires (forall i :: 0 <= i < SLOTS ==> t.slots[i].core.identity == 0)
    requires a.key != 0 && b.key != 0 && a.key != b.key && IsConnected(b) && ValidSocket(b.id)
    ensures var u := Compact(Save(Save(t, [a, b]), [b]));
            u.count == 1 && u.slots[0].core.identity == b.key && u.slots[0].core.id == b.id && Describes(u.slots[0].peer, a)
  {
    var t1 := Save(t, [a, b]);
    var t2 := Save(t1, [b]);
    TwoSaved(t, a, b);
    OneSaved(t1, b, 1);
    assert t2.slots[0] == Vacate(t1.slots[0]) && t2.slots[1] == Occupy(t1.slots[1], b);
    assert forall i :: 2 <= i < SLOTS ==> t2.slots[i] == Vacate(t1.slots[i]);
    OnlySecondLive(t2);
  }

  lemma OnlySecondLive(t: Table)
    requires Live(t.slots[1].core) && forall i :: 0 <= i < SLOTS && i != 1 ==> !Live(t.slots[i].core)
    ensures Compact(t).count == 1 && Compact(t).slots[0] == Slot(t.slots[1].core, t.slots[0].peer)
  {
    OnlyLive(t.slots, 1);
    assert KeptIndices(t.slots)[0] == 1;
  }

  lemma TwoSaved(t: Table, a: Member, b: Member)
    requires a.key != 0 && b.key != 0 && forall i :: 0 <= i < SLOTS ==> t.slots[i].core.identity == 0
    ensures var slots := Save(t, [a, b]).slots;
            slots[0] == Occupy(t.slots[0], a) && slots[1] == Occupy(t.slots[1], b)
            && forall i :: 2 <= i < SLOTS ==> slots[i] == Vacate(t.slots[i])
  {
    TwoNewcomers(Keys(t.slots), a.key, b.key);
    assert MemberKeys([a, b]) == [a.key, b.key];
  }

  lemma OneSaved(t: Table, a: Member, s: nat)
    requires a.key != 0 && s < SLOTS && t.slots[s].core.identity == a.key
    requires forall i :: 0 <= i < s ==> t.slots[i].core.identity != a.key
    ensures forall i :: 0 <= i < SLOTS ==>
              Save(t, [a]).slots[i] == if i == s then Occupy(t.slots[s], a) else Vacate(t.slots[i])
  {
    OneReturns(Keys(t.slots), a.key, s);
    assert MemberKeys([a]) == [a.key];
  }

  lemma {:induction false} OnlyLive(slots: seq<Slot>, s: nat)
    requires s < |slots| && forall i :: 0 <= i < |slots| ==> (Live(slots[i].core) <==> i == s)
    ensures KeptIndices(slots) == [s]
  {
    if s < |slots| - 1 {
      OnlyLive(Front(slots), s);
    } else {
      KeptOfNone(Front(slots));
    }
  }

  lemma {:induction false} KeptOfNone(slots: seq<Slot>)
    requires forall i :: 0 <= i < |slots| ==> !Live(slots[i].core)
    ensures KeptIndices(slots) == []
  {
    if slots != [] {
      KeptOfNone(Front(slots));
    }
  }

  /** The first two slots go to two members of a table without links. */
  lemma TwoNewcomers(keys: seq<nat>, a: nat, b: nat)
    requires |keys| == SLOTS && a != 0 && b != 0 && forall i :: 0 <= i < SLOTS ==> keys[i] == 0
    ensures Match(keys, [a, b]) == ReusedOrFilled(keys, [a, b]) == Matching(map[0 := 0, 1 := 1], map[0 := 0, 1 := 1])
  {
    var ms, m1 := [a, b], Bind(NONE, 0, 0);
    var m2 := Bind(m1, 1, 1);
    assert RunPass(SameIdentity, keys, ms, 1, NONE) == RunPass(SameIdentity, keys, ms, 2, NONE) == NONE;
    assert Reused(keys, ms) == NONE;
    assert RunPass(EmptySlot, keys, ms, 1, m1) == RunPass(EmptySlot, keys, ms, 2, m2) == m2;
    assert ReusedOrFilled(keys, ms) == m2;
    assert RunPass(AnySlot, keys, ms, 1, m2) == RunPass(AnySlot, keys, ms, 2, m2) == m2;
  }

  /** A single member takes the first slot that carries its identity. */
  lemma OneReturns(keys: seq<nat>, a: nat, s: nat)
    requires |keys| == SLOTS && a != 0 && s < SLOTS && keys[s] == a && forall i :: 0 <= i < s ==> keys[i] != a
    ensures Match(keys, [a]) == ReusedOrFilled(keys, [a]) == Matching(map[0 := s], map[s := 0])
  {
    var m := Bind(NONE, 0, s);
    assert FirstFree(SameIdentity, keys, a, NONE, 0) == s;
    assert RunPass(SameIdentity, keys, [a], 1, m) == m;
    assert RunPass(EmptySlot, keys, [a], 1, m) == m && RunPass(AnySlot, keys, [a], 1, m) == m;
  }

  /** Length of the longest all-live prefix. */
  function LivePrefix(slots: seq<Slot>): (r: nat)
    ensures r <= |slots| && forall i :: 0 <= i < r ==> Live(slots[i].core)
    ensures r < |slots| ==> !Live(slots[r].core)
  {
    if slots == [] then 0
    else
      var p := LivePrefix(Front(slots));
      if p == |slots| - 1 && Live(slots[p].core) then |slots| else p
  }

  lemma {:induction false} KeptPastPrefix(slots: seq<Slot>, p: nat)
    requires p <= |slots| && (forall i :: 0 <= i < p ==> Live(slots[i].core))
    requires p < |slots| ==> !Live(slots[p].core)
    ensures var kept := KeptIndices(slots);
            && |kept| >= p
            && (forall d :: 0 <= d < p ==> kept[d] == d)
            && (forall d :: p <= d < |kept| ==> kept[d] > d)
  {
    if slots != [] {
      var short := KeptIndices(Front(slots));
      KeptPastPrefix(Front(slots), if |slots| == p then p - 1 else p);
      assert |short| > p ==> short[|short| - 1] > |short| - 1;
    }
  }

  lemma {:induction false} MovedPastPrefix(kept: seq<nat>, p: nat)
    requires (forall d :: 0 <= d < |kept| && d < p ==> kept[d] == d) && (forall d :: p <= d < |kept| ==> kept[d] > d)
    ensures Moved(kept) == if |kept| <= p then 0 else |kept| - p
  {
    if kept != [] {
      MovedPastPrefix(Front(kept), p);
    }
  }

  /** The report: links before = links kept + links dropped, and the links that
      move are those kept past the first slot that is not. */
  lemma ReportMeaning(t: Table)
    ensures var r := Report(t);
            && r.before == r.after + r.dropped
            && r.moved == r.after - LivePrefix(t.slots)
            && (r.dropped == 0 <==> !HasDisconnected(t.slots))
  {
    var p := LivePrefix(t.slots);
    KeptPastPrefix(t.slots, p);
    MovedPastPrefix(KeptIndices(t.slots), p);
    DroppedNone(t.slots);
  }

  ghost function IdentifiedAt(slots: seq<Slot>): set<nat> {
    set i | i in Upto(|slots|) && slots[i].core.identity != 0
  }

  /** Links before a compaction are the identified slots, each counted once. */
  lemma {:induction false} IdentifiedCount(slots: seq<Slot>)
    ensures Identified(slots) == |IdentifiedAt(slots)|
  {
    if slots != [] {
      var front, n := Front(slots), |slots| - 1;
      IdentifiedCount(front);
      var last: set<nat> := if slots[n].core.identity != 0 then {n} else {};
      assert IdentifiedAt(slots) == IdentifiedAt(front) + last;
    }
  }

  lemma {:induction false} DroppedNone(slots: seq<Slot>)
    ensures Identified(slots) == |KeptIndices(slots)| <==> !HasDisconnected(slots)
  {
    if slots != [] {
      DroppedNone(Front(slots));
      assert forall i :: 0 <= i < |slots| - 1 ==> Front(slots)[i] == slots[i];
    }
  }

  lemma {:induction false} KeptOfPrefix(slots: seq<Slot>, k: nat)
    requires k <= |slots|
    requires (forall i :: 0 <= i < k ==> Live(slots[i].core)) && (forall i :: k <= i < |slots| ==> !Live(slots[i].core))
    ensures |KeptIndices(slots)| == k && forall d :: 0 <= d < k ==> KeptIndices(slots)[d] == d
  {
    if slots != [] {
      KeptOfPrefix(Front(slots), if |slots| > k then k else k - 1);
    }
  }

  /** Compacting again changes nothing, moves nothing and drops nothing. */
  lemma CompactIdempotent(t: Table)
    ensures Compact(Compact(t)) == Compact(t)
    ensures Report(Compact(t)).moved == 0 && Report(Compact(t)).dropped == 0
    ensures !HasDisconnected(Compact(t).slots)
  {
    var c := Compact(t);
    KeptOfPrefix(c.slots, |KeptIndices(t.slots)|);
    assert Compact(c).slots == c.slots;
    ReportMeaning(c);
    assert LivePrefix(c.slots) == |KeptIndices(c.slots)|;
  }

  lemma {:induction false} KeptIgnoresTraffic(a: seq<Slot>, b: seq<Slot>)
    requires |a| == |b| && forall i :: 0 <= i < |a| ==> Live(a[i].core) == Live(b[i].core)
    ensures KeptIndices(a) == KeptIndices(b)
  {
    if a != [] {
      KeptIgnoresTraffic(Front(a), Front(b));
    }
  }

  /** A compaction may land between sampling the sockets and applying the samples:
      either order gives the same table, so no byte is credited to another link. */
  lemma CompactCommutesWithUpdate(t: Table, stats: map<int, Stats>)
    requires WellFormed(t)
    ensures Compact(Update(t, stats)) == Update(Compact(t), stats)
  {
    var u := Update(t, stats);
    KeptIgnoresTraffic(t.slots, u.slots);
    var kept := KeptIndices(t.slots);
    var x, y := Compact(u), Update(Compact(t), stats);
    forall i | 0 <= i < SLOTS
      ensures x.slots[i] == y.slots[i]
    {
      if i < |kept| {
        assert x.slots[i].core == u.slots[kept[i]].core;
      }
    }
    assert x.slots == y.slots;
  }

  function CompactTimes(t: Table, n: nat): Table
    decreases n
  {
    if n == 0 then t else CompactTimes(Compact(t), n - 1)
  }

  /** However many compactions land in that gap, the outcome is the same. */
  lemma {:induction false} CompactionsInTheGap(t: Table, stats: map<int, Stats>, n: nat)
    requires WellFormed(t)
    ensures Update(CompactTimes(t, n), stats) == CompactTimes(Update(t, stats), n)
    decreases n
  {
    if n > 0 {
      var c, u := Compact(t), Update(t, stats);
      assert Update(c, stats) == Compact(u) by {
        CompactCommutesWithUpdate(t, stats);
      }
      assert WellFormed(c) by {
        CompactKeepsWellFormed(t);
      }
      CompactionsInTheGap(c, stats, n - 1);
    }
  }
}
