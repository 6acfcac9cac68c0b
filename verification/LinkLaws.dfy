/** What each slot operation does to one slot, in terms of the slot's own fields and of
    what the transport library reports (src/metrics_link_slots.cpp:17-22 and 303-548,
    src/metrics.cpp:1289-1432). */
module LinkLaws {
  import opened Common
  import opened Counters
  import opened LinkInvariants
  import opened LinkSlots
  import opened SlotMatching

  predicate SameTraffic(a: Core, b: Core) {
    a.rx == b.rx && a.tx == b.tx && a.belated == b.belated
  }

  lemma {:induction false} AssignedIdentity(keys: seq<nat>, members: seq<nat>, i: nat)
    requires i in Match(keys, members).slotOf
    ensures var s := Match(keys, members).slotOf[i];
            && s < |keys| && i < |members|
            && (if Evicted(keys, members, s) then true
                else if members[i] == 0 then keys[s] == 0
                else keys[s] == 0 || keys[s] == members[i])
  {
    MatchFits(keys, members);
    var a, b, m := Reused(keys, members), ReusedOrFilled(keys, members), Match(keys, members);
    var s := m.slotOf[i];
    assert !Evicted(keys, members, s) ==> b.slotOf[i] == s;
    assert i in a.slotOf ==> Fits(SameIdentity, keys[s], members[i]);
  }

  /** After a save each member has a slot that carries its identity, its socket and its
      address, is connected exactly when the group runs it or its socket is connected,
      and counts on only if the slot carried that identity before. */
  lemma MemberAfterSave(t: Table, members: seq<Member>, i: nat)
    requires WellFormed(t) && |members| <= SLOTS && i < |members|
    ensures var slotOf := Match(Keys(t.slots), MemberKeys(members)).slotOf;
            && i in slotOf && slotOf[i] < SLOTS
            && var was, now, x := t.slots[slotOf[i]].core, Save(t, members).slots[slotOf[i]], members[i];
            && now.core.id == x.id && now.core.identity == x.key && now.core.rtt == was.rtt
            && (now.core.connected <==> x.group == Running || x.sock == Connected)
            && (if was.identity == x.key then SameTraffic(now.core, was) else NoTraffic(now.core))
            && now.peer.sock == x.sock && now.peer.group == x.group
            && (x.endpoint.Some? ==> (now.peer.host, now.peer.port) == x.endpoint.value)
            && (x.endpoint.None? ==> now.peer.host == "" && now.peer.port == 0)
  {
    var keys, mkeys := Keys(t.slots), MemberKeys(members);
    EveryMemberGetsItsOwnSlot(keys, mkeys);
    AssignedIdentity(keys, mkeys, i);
    NewLinkInheritsNothing(t, members, Match(keys, mkeys).slotOf[i]);
  }

  /** A slot no member was given keeps its identity, its counters and, when it is
      identified, its address; it loses its socket. */
  lemma OtherSlotAfterSave(t: Table, members: seq<Member>, s: nat)
    requires |members| <= SLOTS && s < SLOTS && s !in Match(Keys(t.slots), MemberKeys(members)).owner
    ensures var was, now := t.slots[s], Save(t, members).slots[s];
            && now.core == was.core.(id := INVALID_SOCK, connected := false)
            && now.peer == if was.core.identity != 0 then was.peer else Peer(NonExist, Idle, "", 0)
  {
  }

  /** Saving and compacting together: a member with an identity survives the next
      compaction, and is sampled by the next tick, if and only if it has a socket and
      the group runs it or that socket is connected. */
  lemma ReportedLinkIsKept(t: Table, members: seq<Member>, i: nat)
    requires WellFormed(t) && |members| <= SLOTS && i < |members| && members[i].key != 0
    ensures var slotOf, u := Match(Keys(t.slots), MemberKeys(members)).slotOf, Save(t, members);
            var up := members[i].id != INVALID_SOCK && members[i].id != 0
                      && (members[i].group == Running || members[i].sock == Connected);
            && i in slotOf && (slotOf[i] in KeptIndices(u.slots) <==> up)
            && (up ==> members[i].id in MemberSockets(Prefix(u)))
  {
    var u, s := Save(t, members), Match(Keys(t.slots), MemberKeys(members)).slotOf;
    MemberAfterSave(t, members, i);
    SaveKeepsWellFormed(t, members);
    if Live(u.slots[s[i]].core) {
      var d := KeptHas(u.slots, s[i]);
      EveryLiveLinkIsSampled(u, s[i]);
    }
  }

  /** Marking changes one flag, on identified slots below the count. */
  lemma SlotAfterMark(t: Table, i: nat)
    requires i < SLOTS
    ensures Mark(t).count == t.count
    ensures Mark(t).slots[i] ==
            if i < t.count && t.slots[i].core.identity != 0
            then Slot(t.slots[i].core.(connected := false), t.slots[i].peer) else t.slots[i]
  {
  }

  /** What a gauge shows after a reading. */
  predicate Shows(was: Gauge, now: Gauge, reading: U64) {
    && now.current == now.last == reading
    && now.total == Wrap(was.total + if reading >= was.last then reading - was.last else reading)
  }

  /** A traffic update: a live link that was sampled shows exactly its latest reading,
      one that was not is left alone, and a link that is not live shows nothing current
      but keeps its totals.  Membership, addresses, the output side's belated counters
      and everything past the count are never touched. */
  lemma SlotAfterUpdate(t: Table, stats: map<int, Stats>, i: nat)
    requires i < SLOTS
    ensures Update(t, stats).count == t.count
    ensures var was, now := t.slots[i].core, Update(t, stats).slots[i].core;
            var live := was.identity != 0 && was.connected && was.id != INVALID_SOCK && was.id != 0;
            && Update(t, stats).slots[i].peer == t.slots[i].peer
            && now.id == was.id && now.connected == was.connected && now.identity == was.identity
            && (i >= t.count || (live && was.id !in stats) ==> now == was)
            && (i < t.count && !live ==>
                  && now.rx == Gauge(was.rx.total, 0, was.rx.last) && now.tx == Gauge(was.tx.total, 0, was.tx.last)
                  && now.belated == Gauge(was.belated.total, 0, was.belated.last) && now.rtt == -1)
            && (i < t.count && live && was.id in stats ==>
                  && Shows(was.rx, now.rx, stats[was.id].rx) && Shows(was.tx, now.tx, stats[was.id].tx)
                  && (if t.side == Input then Shows(was.belated, now.belated, stats[was.id].belated)
                      else now.belated == was.belated)
                  && now.rtt == stats[was.id].rtt)
  {
  }

  /** Slots never used, and slots a compaction frees, are entirely empty. */
  lemma FreedSlotIsEmpty(t: Table, i: nat)
    requires i < SLOTS
    ensures i >= Compact(t).count ==> Compact(t).slots[i].core == Fresh(t.side).slots[i].core
    ensures var s := Fresh(t.side).slots[i];
            && s.core.id == INVALID_SOCK && !s.core.connected && s.core.identity == 0 && NoTraffic(s.core) && s.core.rtt == -1
            && s.peer == Peer(NonExist, Idle, "", 0)
    ensures Fresh(t.side).count == 0 && Fresh(t.side).side == t.side == Compact(t).side
    ensures ZERO == Gauge(0, 0, 0)
  {
  }

  /** A disconnected slot is an identified one below the count without a connected
      socket. */
  lemma DisconnectedMeans(t: Table)
    ensures HasDisconnected(Prefix(t)) <==>
            exists i :: 0 <= i < SLOTS && i < t.count && t.slots[i].core.identity != 0
                        && !(t.slots[i].core.connected && t.slots[i].core.id != INVALID_SOCK && t.slots[i].core.id != 0)
  {
    assert forall i :: 0 <= i < |Prefix(t)| ==> Prefix(t)[i] == t.slots[i];
  }

  /** A tick samples exactly the sockets of connected slots below the count. */
  lemma SampledMeans(t: Table, id: int)
    ensures id in MemberSockets(Prefix(t)) <==>
            && id != INVALID_SOCK && id != 0
            && exists i :: 0 <= i < SLOTS && i < t.count && t.slots[i].core.connected && t.slots[i].core.id == id
  {
    SampledSockets(Prefix(t), id);
    assert forall i :: 0 <= i < |Prefix(t)| ==> Prefix(t)[i] == t.slots[i];
  }

  /** The sockets sampled are those of the connected slots, in slot order: what a run of
      slots gives is what its two parts give, and one slot gives its own socket. */
  lemma {:induction false} SampledInOrder(a: seq<Slot>, b: seq<Slot>)
    ensures MemberSockets(a + b) == MemberSockets(a) + MemberSockets(b)
    ensures |a| == 1 ==>
              var c := a[0].core;
              MemberSockets(a) == (if c.connected && c.id != INVALID_SOCK && c.id != 0 then [c.id] else [])
  {
    if b == [] {
      assert a + b == a;
    } else {
      SampledInOrder(a, Front(b));
      assert Front(a + b) == a + Front(b);
    }
    if |a| == 1 {
      assert Front(a) == [];
    }
  }
}
