/** The slot table seen as what it stands for: a map from link identity to that
    link's socket and counters, with no slots in it.

    As long as each snapshot names distinct links and no more than sixteen links
    are known at once, every slot operation does to the table exactly what its
    counterpart does to the map. */
module LinkRefinement {
  import opened Common
  import opened Counters
  import opened SlotMatching
  import opened LinkSlots
  import opened LinkInvariants

  datatype Link = Link(id: int, connected: bool, rx: Gauge, tx: Gauge, belated: Gauge)

  type Links = map<nat, Link>

  function LinkOf(c: Core): Link {
    Link(c.id, c.connected, c.rx, c.tx, c.belated)
  }

  /** First slot carrying `key`, or the number of slots. */
  function Home(slots: seq<Slot>, key: nat): (r: nat)
    ensures r <= |slots|
    ensures forall i :: 0 <= i < r ==> slots[i].core.identity != key
    ensures r < |slots| ==> slots[r].core.identity == key
  {
    if slots == [] then 0
    else if slots[0].core.identity == key then 0
    else 1 + Home(slots[1..], key)
  }

  /** No identity sits on two slots. */
  predicate Distinct(slots: seq<Slot>) {
    forall i :: 0 <= i < |slots| && slots[i].core.identity != 0 ==> Home(slots, slots[i].core.identity) == i
  }

  ghost predicate Represents(t: Table, links: Links) {
    && WellFormed(t)
    && Distinct(t.slots)
    && (forall i :: 0 <= i < SLOTS && t.slots[i].core.identity != 0 ==>
         t.slots[i].core.identity in links && links[t.slots[i].core.identity] == LinkOf(t.slots[i].core))
    && (forall k <- links :: k != 0 && Home(t.slots, k) < SLOTS)
  }

  // ---- The same operations on the map ----

  function KeySet(members: seq<Member>): set<nat> {
    set m | m in members :: m.key
  }

  /** Index of the member called `key`, or the number of members. */
  function MemberFor(members: seq<Member>, key: nat): (r: nat)
    ensures r <= |members|
    ensures r < |members| ==> members[r].key == key
    ensures forall i :: 0 <= i < r ==> members[i].key != key
  {
    if members == [] then 0
    else if members[0].key == key then 0
    else 1 + MemberFor(members[1..], key)
  }

  /** Every member has an identity, and no two have the same. */
  predicate DistinctMembers(members: seq<Member>) {
    forall i :: 0 <= i < |members| ==> members[i].key != 0 && MemberFor(members, members[i].key) == i
  }

  const NEW_LINK := Link(INVALID_SOCK, false, ZERO, ZERO, ZERO)

  function SavedLink(links: Links, members: seq<Member>, k: nat): Link {
    var i := MemberFor(members, k);
    var base := if k in links then links[k] else NEW_LINK;
    if i < |members| then base.(id := members[i].id, connected := IsConnected(members[i]))
    else base.(id := INVALID_SOCK, connected := false)
  }

  predicate LiveLink(l: Link) {
    l.connected && ValidSocket(l.id)
  }

  function UpdatedLink(side: Side, l: Link, stats: map<int, Stats>): Link {
    if !LiveLink(l) then
      l.(rx := l.rx.(current := 0), tx := l.tx.(current := 0), belated := l.belated.(current := 0))
    else if l.id !in stats then l
    else
      var s := stats[l.id];
      l.(rx := Sampled(l.rx, s.rx), tx := Sampled(l.tx, s.tx),
         belated := if side == Input then Sampled(l.belated, s.belated) else l.belated)
  }

  function UpdatedLinks(side: Side, links: Links, stats: map<int, Stats>): (r: Links)
    ensures r.Keys == links.Keys && forall k <- links :: r[k] == UpdatedLink(side, links[k], stats)
  {
    map k | k in links :: UpdatedLink(side, links[k], stats)
  }

  function MarkedLinks(links: Links): (r: Links)
    ensures r.Keys == links.Keys && forall k <- links :: r[k] == links[k].(connected := false)
  {
    map k | k in links :: links[k].(connected := false)
  }

  function SavedLinks(links: Links, members: seq<Member>): (r: Links)
    ensures r.Keys == links.Keys + KeySet(members) && forall k <- r :: r[k] == SavedLink(links, members, k)
  {
    map k | k in links.Keys + KeySet(members) :: SavedLink(links, members, k)
  }

  function LiveLinks(links: Links): (r: Links)
    ensures forall k :: k in r <==> k in links && LiveLink(links[k])
    ensures forall k <- r :: r[k] == links[k]
  {
    map k | k in links && LiveLink(links[k]) :: links[k]
  }

  function LinksStep(side: Side, links: Links, op: Op): Links {
    match op
    case SaveOp(members) => SavedLinks(links, members)
    case ClearOp => map[]
    case MarkOp => MarkedLinks(links)
    case CompactOp => LiveLinks(links)
    case TrafficOp(stats) => UpdatedLinks(side, links, stats)
  }

  function LinksRun(side: Side, links: Links, ops: seq<Op>): Links
    decreases |ops|
  {
    if ops == [] then links else LinksRun(side, LinksStep(side, links, ops[0]), ops[1..])
  }

  /** What the caller must see to: distinct links, and room for all of them. */
  ghost predicate HasRoom(links: Links, op: Op) {
    op.SaveOp? ==> DistinctMembers(op.members) && |links.Keys + KeySet(op.members)| <= SLOTS
  }

  ghost predicate AllFit(side: Side, links: Links, ops: seq<Op>)
    decreases |ops|
  {
    ops == [] || (HasRoom(links, ops[0]) && AllFit(side, LinksStep(side, links, ops[0]), ops[1..]))
  }

  // ---- Saving ----

  ghost function Empties(slots: Slots): set<nat> {
    With(Keys(slots), 0)
  }

  ghost function Homes(t: Table, links: Links): (r: map<nat, nat>)
    ensures r.Keys == links.Keys
  {
    map k | k in links :: Home(t.slots, k)
  }

  ghost function Owners(slots: Slots): map<nat, nat> {
    map s | s in Upto(SLOTS) && slots[s].core.identity != 0 :: slots[s].core.identity
  }

  lemma HomesAreOneToOne(t: Table, links: Links)
    requires Represents(t, links)
    ensures OneToOne(Matching(Homes(t, links), Owners(t.slots)))
  {
    var homes, owners := Homes(t, links), Owners(t.slots);
    forall s | s in owners
      ensures owners[s] in homes && homes[owners[s]] == s
    {
    }
    forall k | k in homes
      ensures homes[k] in owners && owners[homes[k]] == k
    {
    }
  }

  lemma TakenAndEmpty(slots: Slots)
    ensures |Owners(slots).Keys| + |Empties(slots)| == SLOTS
  {
    UptoSize(SLOTS);
    assert Upto(SLOTS) == Owners(slots).Keys + Empties(slots);
  }

  lemma AsManyLinksAsOwners(t: Table, links: Links)
    requires Represents(t, links)
    ensures |links.Keys| == |Owners(t.slots).Keys|
  {
    HomesAreOneToOne(t, links);
    SameSize(Matching(Homes(t, links), Owners(t.slots)));
  }

  /** The links and the empty slots together fill the table. */
  lemma RoomLeft(t: Table, links: Links)
    requires Represents(t, links)
    ensures |links.Keys| + |Empties(t.slots)| == SLOTS
  {
    TakenAndEmpty(t.slots);
    AsManyLinksAsOwners(t, links);
  }

  lemma KnownIffKept(t: Table, links: Links, members: seq<Member>, i: nat)
    requires Represents(t, links) && DistinctMembers(members) && i < |members| <= SLOTS
    ensures i in Kept(Keys(t.slots), MemberKeys(members)) <==> members[i].key in links
  {
    var keys, mkeys := Keys(t.slots), MemberKeys(members);
    MatchFits(keys, mkeys);
    if members[i].key in links {
      forall j | 0 <= j < |members| && mkeys[j] == mkeys[i]
        ensures j == i
      {
        assert MemberFor(members, members[j].key) == j;
      }
      SoleClaimantIsKept(keys, mkeys, i, Home(t.slots, members[i].key));
    }
  }

  lemma NewcomersAreNew(t: Table, links: Links, members: seq<Member>)
    requires Represents(t, links) && DistinctMembers(members) && |members| <= SLOTS
    ensures Kept(Keys(t.slots), MemberKeys(members)) == set i | i in Upto(|members|) && members[i].key in links
  {
    forall i: nat | i < |members|
      ensures i in Kept(Keys(t.slots), MemberKeys(members)) <==> members[i].key in links
    {
      KnownIffKept(t, links, members, i);
    }
  }

  ghost function ByIndex(members: seq<Member>, known: set<nat>): map<nat, nat> {
    map i | i in Upto(|members|) && members[i].key !in known :: members[i].key
  }

  ghost function ByKey(members: seq<Member>, known: set<nat>): map<nat, nat> {
    map k | k in KeySet(members) - known :: MemberFor(members, k)
  }

  lemma NewKeysAreOneToOne(members: seq<Member>, known: set<nat>)
    requires DistinctMembers(members)
    ensures OneToOne(Matching(ByIndex(members, known), ByKey(members, known)))
  {
    var byIndex, byKey := ByIndex(members, known), ByKey(members, known);
    forall k | k in byKey
      ensures byKey[k] in byIndex && byIndex[byKey[k]] == k
    {
      var m :| m in members && m.key == k;
    }
    forall i | i in byIndex
      ensures byIndex[i] in byKey && byKey[byIndex[i]] == i
    {
      assert members[i] in members;
    }
  }

  /** Newcomers and identities not yet known are the same thing, counted twice. */
  lemma NewcomersCount(t: Table, links: Links, members: seq<Member>)
    requires Represents(t, links) && DistinctMembers(members) && |members| <= SLOTS
    ensures |Newcomers(Keys(t.slots), MemberKeys(members))| == |KeySet(members) - links.Keys|
  {
    NewcomersAreNew(t, links, members);
    NewKeysAreOneToOne(members, links.Keys);
    SameSize(Matching(ByIndex(members, links.Keys), ByKey(members, links.Keys)));
    assert ByIndex(members, links.Keys).Keys == Newcomers(Keys(t.slots), MemberKeys(members));
    assert ByKey(members, links.Keys).Keys == KeySet(members) - links.Keys;
  }

  /** Saving distinct members evicts nothing exactly when the links already known
      and the members together are at most sixteen. */
  lemma NoEvictionIffRoom(t: Table, links: Links, members: seq<Member>)
    requires Represents(t, links) && DistinctMembers(members) && |members| <= SLOTS
    ensures Evictions(Keys(t.slots), MemberKeys(members)) == {} <==> |links.Keys + KeySet(members)| <= SLOTS
  {
    RoomLeft(t, links);
    NewcomersCount(t, links, members);
    EvictionCount(Keys(t.slots), MemberKeys(members));
    assert links.Keys + KeySet(members) == links.Keys + (KeySet(members) - links.Keys);
  }

  lemma KeySetSize(members: seq<Member>)
    requires DistinctMembers(members)
    ensures |KeySet(members)| == |members|
  {
    NewKeysAreOneToOne(members, {});
    SameSize(Matching(ByIndex(members, {}), ByKey(members, {})));
    UptoSize(|members|);
    assert ByIndex(members, {}).Keys == Upto(|members|);
    assert ByKey(members, {}).Keys == KeySet(members);
  }

  lemma MembersFit(t: Table, links: Links, members: seq<Member>)
    requires Represents(t, links) && HasRoom(links, SaveOp(members))
    ensures |members| <= SLOTS && Evictions(Keys(t.slots), MemberKeys(members)) == {}
    ensures Match(Keys(t.slots), MemberKeys(members)).slotOf.Keys == Upto(|members|)
  {
    KeySetSize(members);
    SubsetSize(KeySet(members), links.Keys + KeySet(members));
    NoEvictionIffRoom(t, links, members);
    EveryMemberGetsItsOwnSlot(Keys(t.slots), MemberKeys(members));
  }

  /** With room for everyone, an assigned slot either already was the member's or
      was empty and the member is new. */
  lemma AssignedSlot(t: Table, links: Links, members: seq<Member>, s: nat)
    requires Represents(t, links) && HasRoom(links, SaveOp(members))
    requires s in Match(Keys(t.slots), MemberKeys(members)).owner
    ensures var m := Match(Keys(t.slots), MemberKeys(members));
            && s < SLOTS && m.owner[s] < |members| && m.owner[s] in m.slotOf && m.slotOf[m.owner[s]] == s
            && (t.slots[s].core.identity == members[m.owner[s]].key
                || (t.slots[s].core.identity == 0 && members[m.owner[s]].key !in links))
  {
    MembersFit(t, links, members);
    OwnedSlot(Keys(t.slots), MemberKeys(members), s);
    NewcomersAreNew(t, links, members);
  }

  /** Where a link lives after a save. */
  ghost function Target(t: Table, links: Links, members: seq<Member>, k: nat): nat
    requires Represents(t, links) && HasRoom(links, SaveOp(members)) && k in links.Keys + KeySet(members)
  {
    if k in links then Home(t.slots, k)
    else
      MemberIn(members, k);
      MembersFit(t, links, members);
      Match(Keys(t.slots), MemberKeys(members)).slotOf[MemberFor(members, k)]
  }

  lemma MemberIn(members: seq<Member>, k: nat)
    ensures k in KeySet(members) <==> MemberFor(members, k) < |members|
  {
  }

  lemma OwnedIdentity(t: Table, links: Links, members: seq<Member>, s: nat)
    requires Represents(t, links) && HasRoom(links, SaveOp(members))
    requires s in Match(Keys(t.slots), MemberKeys(members)).owner
    ensures s < SLOTS
    ensures var k := Save(t, members).slots[s].core.identity;
            && k in KeySet(members) && k != 0 && Target(t, links, members, k) == s
            && LinkOf(Save(t, members).slots[s].core) == SavedLink(links, members, k)
  {
    AssignedSlot(t, links, members, s);
    MembersFit(t, links, members);
    var i := Match(Keys(t.slots), MemberKeys(members)).owner[s];
    assert s !in Evictions(Keys(t.slots), MemberKeys(members));
    assert MemberFor(members, members[i].key) == i;
    MemberIn(members, members[i].key);
  }

  lemma UnownedIdentity(t: Table, links: Links, members: seq<Member>, s: nat)
    requires Represents(t, links) && HasRoom(links, SaveOp(members))
    requires s < SLOTS && s !in Match(Keys(t.slots), MemberKeys(members)).owner && t.slots[s].core.identity != 0
    ensures var k := t.slots[s].core.identity;
            k in links && k !in KeySet(members) && Home(t.slots, k) == s
  {
    var k, m := t.slots[s].core.identity, Match(Keys(t.slots), MemberKeys(members));
    MembersFit(t, links, members);
    MemberIn(members, k);
    var i := MemberFor(members, k);
    if i < |members| {
      SoleClaimantIsKept(Keys(t.slots), MemberKeys(members), i, s);
      EveryMemberGetsItsOwnSlot(Keys(t.slots), MemberKeys(members));
    }
  }

  lemma SavedIdentity(t: Table, links: Links, members: seq<Member>, s: nat)
    requires Represents(t, links) && HasRoom(links, SaveOp(members)) && s < SLOTS
    ensures var k := Save(t, members).slots[s].core.identity;
            k != 0 ==> k in links.Keys + KeySet(members) && Target(t, links, members, k) == s
                       && LinkOf(Save(t, members).slots[s].core) == SavedLink(links, members, k)
  {
    if s in Match(Keys(t.slots), MemberKeys(members)).owner {
      OwnedIdentity(t, links, members, s);
    } else if t.slots[s].core.identity != 0 {
      UnownedIdentity(t, links, members, s);
      MemberIn(members, t.slots[s].core.identity);
    }
  }

  lemma KnownTarget(t: Table, links: Links, members: seq<Member>, k: nat)
    requires Represents(t, links) && HasRoom(links, SaveOp(members)) && k in links
    ensures Save(t, members).slots[Home(t.slots, k)].core.identity == k
  {
    var s := Home(t.slots, k);
    MembersFit(t, links, members);
    assert s !in Evictions(Keys(t.slots), MemberKeys(members));
    if s in Match(Keys(t.slots), MemberKeys(members)).owner {
      AssignedSlot(t, links, members, s);
    }
  }

  lemma NewTarget(t: Table, links: Links, members: seq<Member>, i: nat)
    requires Represents(t, links) && HasRoom(links, SaveOp(members)) && i < |members| && members[i].key !in links
    ensures i in Match(Keys(t.slots), MemberKeys(members)).slotOf
    ensures var s := Match(Keys(t.slots), MemberKeys(members)).slotOf[i];
            s < SLOTS && Save(t, members).slots[s].core.identity == members[i].key
  {
    MembersFit(t, links, members);
    EveryMemberGetsItsOwnSlot(Keys(t.slots), MemberKeys(members));
    assert Match(Keys(t.slots), MemberKeys(members)).slotOf[i] !in Evictions(Keys(t.slots), MemberKeys(members));
  }

  lemma TargetIdentity(t: Table, links: Links, members: seq<Member>, k: nat)
    requires Represents(t, links) && HasRoom(links, SaveOp(members)) && k in links.Keys + KeySet(members)
    ensures k != 0 && Target(t, links, members, k) < SLOTS
    ensures Save(t, members).slots[Target(t, links, members, k)].core.identity == k
  {
    if k in links {
      KnownTarget(t, links, members, k);
    } else {
      MemberIn(members, k);
      NewTarget(t, links, members, MemberFor(members, k));
    }
  }

  /** Saving does to the table what it does to the map, and every link already
      known stays on its slot. */
  lemma SaveRefines(t: Table, links: Links, members: seq<Member>)
    requires Represents(t, links) && HasRoom(links, SaveOp(members))
    ensures Represents(Save(t, members), LinksStep(t.side, links, SaveOp(members)))
    ensures forall k <- links :: Home(Save(t, members).slots, k) == Home(t.slots, k)
  {
    var u, links' := Save(t, members), SavedLinks(links, members);
    SaveKeepsWellFormed(t, members);
    forall k | k in links'
      ensures k != 0 && Home(u.slots, k) == Target(t, links, members, k) < SLOTS
    {
      TargetIdentity(t, links, members, k);
      SavedIdentity(t, links, members, Home(u.slots, k));
    }
    forall s | 0 <= s < SLOTS && u.slots[s].core.identity != 0
      ensures var k := u.slots[s].core.identity;
              k in links' && Home(u.slots, k) == s && links'[k] == LinkOf(u.slots[s].core)
    {
      SavedIdentity(t, links, members, s);
    }
  }

  // ---- The other operations ----

  /** Operations that leave identities where they are. */
  lemma InPlaceRefines(t: Table, u: Table, links: Links, links': Links)
    requires Represents(t, links) && WellFormed(u) && links'.Keys == links.Keys
    requires forall i :: 0 <= i < SLOTS ==> u.slots[i].core.identity == t.slots[i].core.identity
    requires forall i :: 0 <= i < SLOTS && t.slots[i].core.identity != 0 ==>
               links'[t.slots[i].core.identity] == LinkOf(u.slots[i].core)
    ensures Represents(u, links')
    ensures forall k <- links :: Home(u.slots, k) == Home(t.slots, k)
  {
    SameHomes(t.slots, u.slots);
  }

  lemma SameHomes(a: seq<Slot>, b: seq<Slot>)
    requires |a| == |b| && forall i :: 0 <= i < |a| ==> a[i].core.identity == b[i].core.identity
    ensures forall k :: Home(a, k) == Home(b, k)
  {
  }

  lemma MarkRefines(t: Table, links: Links)
    requires Represents(t, links)
    ensures Represents(Mark(t), LinksStep(t.side, links, MarkOp))
    ensures forall k <- links :: Home(Mark(t).slots, k) == Home(t.slots, k)
  {
    var u, links' := Mark(t), MarkedLinks(links);
    StepKeepsWellFormed(t, MarkOp);
    forall i | 0 <= i < SLOTS
      ensures u.slots[i].core.identity == t.slots[i].core.identity
      ensures t.slots[i].core.identity != 0 ==> links'[t.slots[i].core.identity] == LinkOf(u.slots[i].core)
    {
      MarkAt(t, i);
    }
    InPlaceRefines(t, u, links, links');
  }

  lemma MarkAt(t: Table, i: nat)
    requires WellFormed(t) && i < SLOTS
    ensures var c, c' := t.slots[i].core, Mark(t).slots[i].core;
            c'.identity == c.identity && (c.identity != 0 ==> LinkOf(c') == LinkOf(c).(connected := false))
  {
  }

  lemma UpdateAt(t: Table, stats: map<int, Stats>, i: nat)
    requires WellFormed(t) && i < SLOTS
    ensures var c, c' := t.slots[i].core, Update(t, stats).slots[i].core;
            c'.identity == c.identity && (c.identity != 0 ==> LinkOf(c') == UpdatedLink(t.side, LinkOf(c), stats))
  {
  }

  lemma UpdateRefines(t: Table, links: Links, stats: map<int, Stats>)
    requires Represents(t, links)
    ensures Represents(Update(t, stats), LinksStep(t.side, links, TrafficOp(stats)))
    ensures forall k <- links :: Home(Update(t, stats).slots, k) == Home(t.slots, k)
  {
    var u, links' := Update(t, stats), UpdatedLinks(t.side, links, stats);
    StepKeepsWellFormed(t, TrafficOp(stats));
    forall i | 0 <= i < SLOTS
      ensures u.slots[i].core.identity == t.slots[i].core.identity
      ensures t.slots[i].core.identity != 0 ==> links'[t.slots[i].core.identity] == LinkOf(u.slots[i].core)
    {
      UpdateAt(t, stats, i);
    }
    InPlaceRefines(t, u, links, links');
  }

  lemma {:induction false} KeptIncreases(slots: seq<Slot>)
    ensures forall c, d :: 0 <= c < d < |KeptIndices(slots)| ==> KeptIndices(slots)[c] < KeptIndices(slots)[d]
  {
    if slots != [] {
      KeptIncreases(Front(slots));
    }
  }

  lemma CompactedHome(t: Table, links: Links, d: nat)
    requires Represents(t, links) && d < |KeptIndices(t.slots)|
    ensures var c := Compact(t).slots[d].core;
            Live(c) && Home(Compact(t).slots, c.identity) == d && c.identity in links && links[c.identity] == LinkOf(c)
  {
    var kept, slots := KeptIndices(t.slots), Compact(t).slots;
    var k := slots[d].core.identity;
    var h := Home(slots, k);
    KeptIncreases(t.slots);
    assert Home(t.slots, k) == kept[d] == kept[h];
  }

  lemma LiveLinkSurvives(t: Table, links: Links, k: nat)
    requires Represents(t, links) && k in links && LiveLink(links[k])
    ensures k != 0 && Home(Compact(t).slots, k) < SLOTS
  {
    var d := KeptHas(t.slots, Home(t.slots, k));
    CompactedHome(t, links, d);
  }

  lemma CompactRefines(t: Table, links: Links)
    requires Represents(t, links)
    ensures Represents(Compact(t), LinksStep(t.side, links, CompactOp))
  {
    var u, links' := Compact(t), LiveLinks(links);
    CompactKeepsWellFormed(t);
    forall d | 0 <= d < SLOTS && u.slots[d].core.identity != 0
      ensures var k := u.slots[d].core.identity;
              Home(u.slots, k) == d && k in links' && links'[k] == LinkOf(u.slots[d].core)
    {
      CompactedHome(t, links, d);
    }
    forall k | k in links'
      ensures k != 0 && Home(u.slots, k) < SLOTS
    {
      LiveLinkSurvives(t, links, k);
    }
  }

  // ---- Runs ----

  lemma StepRefines(t: Table, links: Links, op: Op)
    requires Represents(t, links) && HasRoom(links, op)
    ensures Represents(Step(t, op), LinksStep(t.side, links, op))
    ensures !op.CompactOp? && !op.ClearOp? ==> forall k <- links :: Home(Step(t, op).slots, k) == Home(t.slots, k)
  {
    match op
    case SaveOp(members) => SaveRefines(t, links, members);
    case ClearOp => StepKeepsWellFormed(t, ClearOp);
    case MarkOp => MarkRefines(t, links);
    case CompactOp => CompactRefines(t, links);
    case TrafficOp(stats) => UpdateRefines(t, links, stats);
  }

  /** Any interleaving of operations treats the table as a map from identities. */
  lemma {:induction false} RunRefines(t: Table, links: Links, ops: seq<Op>)
    requires Represents(t, links) && AllFit(t.side, links, ops)
    ensures Represents(Run(t, ops), LinksRun(t.side, links, ops))
    decreases |ops|
  {
    if ops != [] {
      StepRefines(t, links, ops[0]);
      RunRefines(Step(t, ops[0]), LinksStep(t.side, links, ops[0]), ops[1..]);
    }
  }

  predicate KeepsPlaces(ops: seq<Op>) {
    forall i :: 0 <= i < |ops| ==> !ops[i].CompactOp? && !ops[i].ClearOp?
  }

  /** Without compaction or clearing a link keeps its first slot for ever. */
  lemma {:induction false} RunKeepsHomes(t: Table, links: Links, ops: seq<Op>)
    requires Represents(t, links) && AllFit(t.side, links, ops) && KeepsPlaces(ops)
    ensures forall k <- links :: Home(Run(t, ops).slots, k) == Home(t.slots, k) && k in LinksRun(t.side, links, ops)
    decreases |ops|
  {
    if ops != [] {
      StepRefines(t, links, ops[0]);
      RunKeepsHomes(Step(t, ops[0]), LinksStep(t.side, links, ops[0]), ops[1..]);
    }
  }

  /** The operation names distinct links, all of them from `all`. */
  predicate NamesFrom(op: Op, all: set<nat>) {
    op.SaveOp? ==> DistinctMembers(op.members) && KeySet(op.members) <= all
  }

  lemma StepStaysWithin(side: Side, links: Links, op: Op, all: set<nat>)
    requires links.Keys <= all && NamesFrom(op, all)
    ensures LinksStep(side, links, op).Keys <= all
  {
  }

  /** Enough for all of the above: every snapshot names distinct links, and all of
      them ever named come from a set of at most sixteen. */
  lemma {:induction false} FewIdentitiesFit(side: Side, links: Links, ops: seq<Op>, all: set<nat>)
    requires links.Keys <= all && |all| <= SLOTS
    requires forall i :: 0 <= i < |ops| ==> NamesFrom(ops[i], all)
    ensures AllFit(side, links, ops)
    decreases |ops|
  {
    if ops != [] {
      assert NamesFrom(ops[0], all);
      if ops[0].SaveOp? {
        SubsetSize(links.Keys + KeySet(ops[0].members), all);
      }
      StepStaysWithin(side, links, ops[0], all);
      FewIdentitiesFit(side, LinksStep(side, links, ops[0]), ops[1..], all);
    }
  }

  // ---- Whose bytes a counter counts ----

  datatype Column = Rx | Tx | Belated

  function Shown(l: Link, c: Column): Counter {
    var g := match c case Rx => l.rx case Tx => l.tx case Belated => l.belated;
    Counter(g.total, g.last)
  }

  function Reading(s: Stats, c: Column): U64 {
    match c case Rx => s.rx case Tx => s.tx case Belated => s.belated
  }

  /** The sample, if any, that the operation takes from link `k`'s socket. */
  function HeardNow(links: Links, op: Op, k: nat, c: Column): (r: seq<U64>)
    ensures |r| <= 1
  {
    if op.TrafficOp? && k in links && LiveLink(links[k]) && links[k].id in op.stats
    then [Reading(op.stats[links[k].id], c)] else []
  }

  /** The samples taken from the sockets link `k` held during the run. */
  function Heard(side: Side, links: Links, ops: seq<Op>, k: nat, c: Column): seq<U64>
    decreases |ops|
  {
    if ops == [] then []
    else HeardNow(links, ops[0], k, c) + Heard(side, LinksStep(side, links, ops[0]), ops[1..], k, c)
  }

  /** Link `k` is not dropped by a compaction or a clearing during the run. */
  predicate StaysKnown(side: Side, links: Links, ops: seq<Op>, k: nat)
    decreases |ops|
  {
    k in links && (ops == [] || StaysKnown(side, LinksStep(side, links, ops[0]), ops[1..], k))
  }

  lemma {:induction false} LinkCountsWhatItHeard(side: Side, links: Links, ops: seq<Op>, k: nat, c: Column)
    requires StaysKnown(side, links, ops, k) && (c == Belated ==> side == Input)
    ensures k in LinksRun(side, links, ops)
    ensures Shown(LinksRun(side, links, ops)[k], c) == ObserveAll(Shown(links[k], c), Heard(side, links, ops, k, c))
    decreases |ops|
  {
    if ops != [] {
      var next := LinksStep(side, links, ops[0]);
      StepCountsWhatItHears(side, links, ops[0], k, c);
      LinkCountsWhatItHeard(side, next, ops[1..], k, c);
      var now, rest := HeardNow(links, ops[0], k, c), Heard(side, next, ops[1..], k, c);
      assert now == [] ==> now + rest == rest;
      assert now != [] ==> (now + rest)[1..] == rest;
    }
  }

  lemma StepCountsWhatItHears(side: Side, links: Links, op: Op, k: nat, c: Column)
    requires k in links && k in LinksStep(side, links, op) && (c == Belated ==> side == Input)
    ensures var now := HeardNow(links, op, k, c);
            Shown(LinksStep(side, links, op)[k], c) ==
              if now == [] then Shown(links[k], c) else Observe(Shown(links[k], c), now[0])
  {
  }

  /** The counters a slot shows for link `k`. */
  function SlotCounter(t: Table, k: nat, c: Column): Counter {
    var h := Home(t.slots, k);
    if h < SLOTS then Shown(LinkOf(t.slots[h].core), c) else Counter(0, 0)
  }

  /** The slot of a link that is never dropped counts exactly the samples of the
      sockets that link held: nothing is lost, nothing of another link is added,
      through every reshuffle of slots and sockets.  While the sum fits in 64 bits
      the shown total never falls. */
  lemma SlotCountsItsOwnLink(t: Table, links: Links, ops: seq<Op>, k: nat, c: Column)
    requires Represents(t, links) && AllFit(t.side, links, ops) && StaysKnown(t.side, links, ops, k)
    requires c == Belated ==> t.side == Input
    ensures Home(t.slots, k) < SLOTS && Home(Run(t, ops).slots, k) < SLOTS
    ensures SlotCounter(Run(t, ops), k, c) == ObserveAll(SlotCounter(t, k, c), Heard(t.side, links, ops, k, c))
    ensures var was := SlotCounter(t, k, c);
            was.last <= was.total && was.total + Gain(was.last, Heard(t.side, links, ops, k, c)) < TWO_64 ==>
              was.total <= SlotCounter(Run(t, ops), k, c).total
  {
    RunRefines(t, links, ops);
    LinkCountsWhatItHeard(t.side, links, ops, k, c);
    var was, heard := SlotCounter(t, k, c), Heard(t.side, links, ops, k, c);
    if was.last <= was.total && was.total + Gain(was.last, heard) < TWO_64 {
      assert heard + [] == heard;
      TotalMonotone(was, heard, []);
    }
  }

  lemma FreshRepresents(side: Side)
    ensures Represents(Fresh(side), map[])
  {
  }

  lemma {:induction false} RunStaysWithin(side: Side, links: Links, ops: seq<Op>, all: set<nat>)
    requires links.Keys <= all && forall i :: 0 <= i < |ops| ==> NamesFrom(ops[i], all)
    ensures LinksRun(side, links, ops).Keys <= all
    decreases |ops|
  {
    if ops != [] {
      assert NamesFrom(ops[0], all);
      StepStaysWithin(side, links, ops[0], all);
      RunStaysWithin(side, LinksStep(side, links, ops[0]), ops[1..], all);
    }
  }

  /** From a fresh table, through any interleaving of operations whose snapshots name
      distinct links out of at most sixteen, no save ever evicts a link. */
  lemma FewLinksAreNeverEvicted(side: Side, ops: seq<Op>, all: set<nat>, n: nat)
    requires |all| <= SLOTS && forall i :: 0 <= i < |ops| ==> NamesFrom(ops[i], all)
    requires n < |ops| && ops[n].SaveOp?
    ensures |ops[n].members| <= SLOTS
    ensures Evictions(Keys(Run(Fresh(side), ops[..n]).slots), MemberKeys(ops[n].members)) == {}
  {
    FreshRepresents(side);
    FewIdentitiesFit(side, map[], ops[..n], all);
    RunRefines(Fresh(side), map[], ops[..n]);
    RunStaysWithin(side, map[], ops[..n], all);
    var t, links, members := Run(Fresh(side), ops[..n]), LinksRun(side, map[], ops[..n]), ops[n].members;
    assert NamesFrom(ops[n], all);
    KeySetSize(members);
    SubsetSize(KeySet(members), all);
    SubsetSize(links.Keys + KeySet(members), all);
    NoEvictionIffRoom(t, links, members);
  }
}
