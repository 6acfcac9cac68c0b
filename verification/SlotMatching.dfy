/** The three-pass greedy matcher of `SaveMemberSnapshot`
    (src/metrics_link_slots.cpp:311-364): which slot each group member gets.

    Slots and members are seen here only through their identity keys, where key 0
    means "no identity". */
module SlotMatching {

  /** The slots a pass may hand out. */
  datatype Pass = SameIdentity | EmptySlot | AnySlot

  predicate Fits(pass: Pass, slotKey: nat, memberKey: nat) {
    match pass
    case SameIdentity => memberKey != 0 && slotKey == memberKey
    case EmptySlot => slotKey == 0
    case AnySlot => true
  }

  /** A partial one-to-one assignment, kept in both directions. */
  datatype Matching = Matching(slotOf: map<nat, nat>, owner: map<nat, nat>)

  const NONE := Matching(map[], map[])

  ghost predicate OneToOne(m: Matching) {
    && (forall i <- m.slotOf :: m.slotOf[i] in m.owner && m.owner[m.slotOf[i]] == i)
    && (forall s <- m.owner :: m.owner[s] in m.slotOf && m.slotOf[m.owner[s]] == s)
  }

  ghost predicate Within(m: Matching, slots: nat, members: nat) {
    && OneToOne(m)
    && (forall i <- m.slotOf :: i < members && m.slotOf[i] < slots)
    && (forall s <- m.owner :: s < slots && m.owner[s] < members)
  }

  ghost predicate Extends(m: Matching, r: Matching) {
    && (forall i <- m.slotOf :: i in r.slotOf && r.slotOf[i] == m.slotOf[i])
    && (forall s <- m.owner :: s in r.owner && r.owner[s] == m.owner[s])
  }

  function Bind(m: Matching, i: nat, s: nat): Matching {
    Matching(m.slotOf[i := s], m.owner[s := i])
  }

  /** The lowest free fitting slot at or after `s`, or the number of slots. */
  function FirstFree(pass: Pass, keys: seq<nat>, key: nat, m: Matching, s: nat): (r: nat)
    requires s <= |keys|
    ensures s <= r <= |keys|
    ensures forall j :: s <= j < r ==> j in m.owner || !Fits(pass, keys[j], key)
    ensures r < |keys| ==> r !in m.owner && Fits(pass, keys[r], key)
    decreases |keys| - s
  {
    if s == |keys| || (s !in m.owner && Fits(pass, keys[s], key)) then s
    else FirstFree(pass, keys, key, m, s + 1)
  }

  /** A member's turn in a pass: it takes the first free fitting slot, if it has none
      yet and there is one. */
  function Served(pass: Pass, keys: seq<nat>, members: seq<nat>, i: nat, m: Matching): Matching
    requires i < |members|
  {
    if i in m.slotOf then m
    else
      var s := FirstFree(pass, keys, members[i], m, 0);
      if s < |keys| then Bind(m, i, s) else m
  }

  /** One pass over the members from index `i` on, in snapshot order. */
  function RunPass(pass: Pass, keys: seq<nat>, members: seq<nat>, i: nat, m: Matching): Matching
    requires i <= |members|
    decreases |members| - i
  {
    if i == |members| then m else RunPass(pass, keys, members, i + 1, Served(pass, keys, members, i, m))
  }

  function Reused(keys: seq<nat>, members: seq<nat>): Matching {
    RunPass(SameIdentity, keys, members, 0, NONE)
  }

  function ReusedOrFilled(keys: seq<nat>, members: seq<nat>): Matching {
    RunPass(EmptySlot, keys, members, 0, Reused(keys, members))
  }

  function Match(keys: seq<nat>, members: seq<nat>): Matching {
    RunPass(AnySlot, keys, members, 0, ReusedOrFilled(keys, members))
  }

  /** A slot is evicted when only the last pass hands it out. */
  predicate Evicted(keys: seq<nat>, members: seq<nat>, s: nat) {
    s in Match(keys, members).owner && s !in ReusedOrFilled(keys, members).owner
  }

  lemma BindKeeps(m: Matching, i: nat, s: nat, slots: nat, members: nat)
    requires Within(m, slots, members) && i !in m.slotOf && s !in m.owner && i < members && s < slots
    ensures Within(Bind(m, i, s), slots, members) && Extends(m, Bind(m, i, s))
  {
  }

  /** Every pair that `r` has and `m` has not fits the pass and uses a free slot. */
  ghost predicate AddsOnlyFitting(pass: Pass, keys: seq<nat>, members: seq<nat>, m: Matching, r: Matching) {
    forall j <- r.slotOf | j !in m.slotOf ::
      j < |members| && r.slotOf[j] < |keys| && r.slotOf[j] !in m.owner && Fits(pass, keys[r.slotOf[j]], members[j])
  }

  /** A member left over means that every slot that fits it is taken. */
  ghost predicate Greedy(pass: Pass, keys: seq<nat>, members: seq<nat>, i: nat, r: Matching) {
    forall j, s :: i <= j < |members| && j !in r.slotOf && 0 <= s < |keys| && Fits(pass, keys[s], members[j]) ==>
      s in r.owner
  }

  lemma ServedKeeps(pass: Pass, keys: seq<nat>, members: seq<nat>, i: nat, m: Matching)
    requires i < |members| && Within(m, |keys|, |members|)
    ensures Within(Served(pass, keys, members, i, m), |keys|, |members|)
    ensures Extends(m, Served(pass, keys, members, i, m))
    ensures AddsOnlyFitting(pass, keys, members, m, Served(pass, keys, members, i, m))
  {
    var s := FirstFree(pass, keys, members[i], m, 0);
    if i !in m.slotOf && s < |keys| {
      BindKeeps(m, i, s, |keys|, |members|);
    }
  }

  /** If member `i` has no slot, every slot that fits it is taken. */
  ghost predicate NoneLeft(pass: Pass, keys: seq<nat>, members: seq<nat>, i: nat, m: Matching)
    requires i < |members|
  {
    i !in m.slotOf ==> forall s :: 0 <= s < |keys| && Fits(pass, keys[s], members[i]) ==> s in m.owner
  }

  lemma ServedLeavesNone(pass: Pass, keys: seq<nat>, members: seq<nat>, i: nat, m: Matching)
    requires i < |members|
    ensures NoneLeft(pass, keys, members, i, Served(pass, keys, members, i, m))
  {
  }

  /** What the rest of a pass, from member `i` on, makes of `m`. */
  ghost predicate Outcome(pass: Pass, keys: seq<nat>, members: seq<nat>, i: nat, m: Matching, r: Matching) {
    && Within(r, |keys|, |members|) && Extends(m, r)
    && AddsOnlyFitting(pass, keys, members, m, r)
    && Greedy(pass, keys, members, i, r)
  }

  /** One member's turn, then the rest. */
  lemma OutcomeStep(pass: Pass, keys: seq<nat>, members: seq<nat>, i: nat, m: Matching, next: Matching, r: Matching)
    requires i < |members| && Extends(m, next) && AddsOnlyFitting(pass, keys, members, m, next)
    requires NoneLeft(pass, keys, members, i, next) && Outcome(pass, keys, members, i + 1, next, r)
    ensures Outcome(pass, keys, members, i, m, r)
  {
    assert i !in r.slotOf ==> i !in next.slotOf;
  }

  lemma {:induction false} PassOutcome(pass: Pass, keys: seq<nat>, members: seq<nat>, i: nat, m: Matching)
    requires i <= |members| && Within(m, |keys|, |members|)
    ensures Outcome(pass, keys, members, i, m, RunPass(pass, keys, members, i, m))
    decreases |members| - i
  {
    if i < |members| {
      var next := Served(pass, keys, members, i, m);
      ServedKeeps(pass, keys, members, i, m);
      ServedLeavesNone(pass, keys, members, i, m);
      PassOutcome(pass, keys, members, i + 1, next);
      OutcomeStep(pass, keys, members, i, m, next, RunPass(pass, keys, members, i + 1, next));
    }
  }

  /** A pass, from any member on, adds only pairs that fit it, on slots that were free. */
  lemma PassAddsOnlyFitting(pass: Pass, keys: seq<nat>, members: seq<nat>, i: nat, m: Matching)
    requires i <= |members| && Within(m, |keys|, |members|)
    ensures Extends(m, RunPass(pass, keys, members, i, m))
    ensures AddsOnlyFitting(pass, keys, members, m, RunPass(pass, keys, members, i, m))
  {
    PassOutcome(pass, keys, members, i, m);
  }

  /** And it leaves no member without a slot while one that fits is free. */
  lemma PassIsGreedy(pass: Pass, keys: seq<nat>, members: seq<nat>, i: nat, m: Matching)
    requires i <= |members| && Within(m, |keys|, |members|)
    ensures Greedy(pass, keys, members, i, RunPass(pass, keys, members, i, m))
  {
    PassOutcome(pass, keys, members, i, m);
  }

  /** Every slot below member `j`'s own that fits it went to an earlier member, one from
      `i` on, or was taken before. */
  ghost predicate InOrderAt(pass: Pass, keys: seq<nat>, members: seq<nat>, i: nat, m: Matching, r: Matching, j: nat)
    requires j in r.slotOf
  {
    j < |members| && r.slotOf[j] <= |keys| ==>
      && i <= j
      && forall s :: 0 <= s < r.slotOf[j] && Fits(pass, keys[s], members[j]) ==>
           s in r.owner && (s in m.owner || r.owner[s] < j)
  }

  /** First come is first served, and takes the lowest slot. */
  ghost predicate InOrder(pass: Pass, keys: seq<nat>, members: seq<nat>, i: nat, m: Matching, r: Matching) {
    forall j <- r.slotOf | j !in m.slotOf :: InOrderAt(pass, keys, members, i, m, r, j)
  }

  /** A turn changes nothing but the member's own slot, the lowest there is for it. */
  ghost predicate OneServed(pass: Pass, keys: seq<nat>, members: seq<nat>, i: nat, m: Matching, next: Matching)
    requires i < |members|
  {
    && (forall j <- next.slotOf :: j in m.slotOf || j == i)
    && (forall s <- next.owner :: s in m.owner || next.owner[s] == i)
    && (i in next.slotOf && i !in m.slotOf ==>
          forall s :: 0 <= s < next.slotOf[i] && s < |keys| && Fits(pass, keys[s], members[i]) ==> s in m.owner)
  }

  lemma ServedIsOne(pass: Pass, keys: seq<nat>, members: seq<nat>, i: nat, m: Matching)
    requires i < |members|
    ensures OneServed(pass, keys, members, i, m, Served(pass, keys, members, i, m))
  {
  }

  lemma InOrderStep(pass: Pass, keys: seq<nat>, members: seq<nat>, i: nat, m: Matching, next: Matching, r: Matching, j: nat)
    requires i < |members| && OneServed(pass, keys, members, i, m, next) && Extends(m, next) && Extends(next, r)
    requires InOrder(pass, keys, members, i + 1, next, r) && j in r.slotOf && j !in m.slotOf
    ensures InOrderAt(pass, keys, members, i, m, r, j)
  {
    if j in next.slotOf {
      assert j == i && r.slotOf[j] == next.slotOf[j];
    } else {
      assert InOrderAt(pass, keys, members, i + 1, next, r, j);
      assert forall s <- next.owner :: s in m.owner || r.owner[s] == i;
    }
  }

  lemma {:induction false} PassIsInOrder(pass: Pass, keys: seq<nat>, members: seq<nat>, i: nat, m: Matching)
    requires i <= |members| && Within(m, |keys|, |members|)
    ensures InOrder(pass, keys, members, i, m, RunPass(pass, keys, members, i, m))
    decreases |members| - i
  {
    if i < |members| {
      var next := Served(pass, keys, members, i, m);
      var r := RunPass(pass, keys, members, i + 1, next);
      ServedKeeps(pass, keys, members, i, m);
      ServedIsOne(pass, keys, members, i, m);
      PassIsInOrder(pass, keys, members, i + 1, next);
      PassOutcome(pass, keys, members, i + 1, next);
      forall j | j in r.slotOf && j !in m.slotOf {
        InOrderStep(pass, keys, members, i, m, next, r, j);
      }
    }
  }

  // ---- Counting ----

  ghost predicate Below(i: nat, n: nat) {
    i < n
  }

  ghost function Upto(n: nat): set<nat> {
    set i: nat | i < n && Below(i, n)
  }

  lemma {:induction false} UptoSize(n: nat)
    ensures |Upto(n)| == n
  {
    if n > 0 {
      UptoSize(n - 1);
      assert Upto(n) == Upto(n - 1) + {n - 1};
    }
  }

  ghost function Image(m: Matching, a: set<nat>): set<nat>
    requires a <= m.slotOf.Keys
  {
    set i | i in a :: m.slotOf[i]
  }

  lemma {:induction false} ImageSize(m: Matching, a: set<nat>)
    requires OneToOne(m) && a <= m.slotOf.Keys
    ensures |Image(m, a)| == |a|
  {
    if a != {} {
      var i :| i in a;
      ImageSize(m, a - {i});
      assert Image(m, a) == Image(m, a - {i}) + {m.slotOf[i]};
      assert forall j <- a - {i} :: m.owner[m.slotOf[j]] == j;
    }
  }

  ghost function With(keys: seq<nat>, key: nat): set<nat> {
    set i: nat | i < |keys| && keys[i] == key
  }

  /** Members that end up on a slot already carrying their identity. */
  ghost function Kept(keys: seq<nat>, members: seq<nat>): set<nat> {
    var m := Match(keys, members);
    set i | i in m.slotOf && i < |members| && m.slotOf[i] < |keys|
            && members[i] != 0 && keys[m.slotOf[i]] == members[i]
  }

  ghost function Evictions(keys: seq<nat>, members: seq<nat>): set<nat> {
    set s | s in Match(keys, members).owner && Evicted(keys, members, s)
  }

  ghost function Min(a: nat, b: nat): nat { if a <= b then a else b }

  /** What the three passes leave behind: pass one only reuses identities, pass
      two only fills empty slots, pass three only takes over another link's slot. */
  ghost predicate PassesFit(keys: seq<nat>, members: seq<nat>, a: Matching, b: Matching, c: Matching) {
    && Within(a, |keys|, |members|) && Within(b, |keys|, |members|) && Within(c, |keys|, |members|)
    && Extends(a, b) && Extends(b, c)
    && AddsOnlyFitting(SameIdentity, keys, members, NONE, a) && Greedy(SameIdentity, keys, members, 0, a)
    && AddsOnlyFitting(EmptySlot, keys, members, a, b) && Greedy(EmptySlot, keys, members, 0, b)
    && AddsOnlyFitting(AnySlot, keys, members, b, c) && Greedy(AnySlot, keys, members, 0, c)
  }

  lemma MatchFits(keys: seq<nat>, members: seq<nat>)
    ensures PassesFit(keys, members, Reused(keys, members), ReusedOrFilled(keys, members), Match(keys, members))
  {
    var a, b := Reused(keys, members), ReusedOrFilled(keys, members);
    PassOutcome(SameIdentity, keys, members, 0, NONE);
    PassOutcome(EmptySlot, keys, members, 0, a);
    PassOutcome(AnySlot, keys, members, 0, b);
  }

  /** A member keeps its identity's slot exactly when pass one placed it. */
  lemma KeptIsReused(keys: seq<nat>, members: seq<nat>)
    ensures Kept(keys, members) == Reused(keys, members).slotOf.Keys
  {
    MatchFits(keys, members);
    var a, b, c := Reused(keys, members), ReusedOrFilled(keys, members), Match(keys, members);
    forall i | i in Kept(keys, members)
      ensures i in a.slotOf
    {
      OnOwnSlot(keys, members, a, b, c, i);
    }
    forall i | i in a.slotOf
      ensures i in Kept(keys, members)
    {
      assert c.slotOf[i] == b.slotOf[i] == a.slotOf[i];
    }
  }

  lemma OnOwnSlot(keys: seq<nat>, members: seq<nat>, a: Matching, b: Matching, c: Matching, i: nat)
    requires PassesFit(keys, members, a, b, c) && i in c.slotOf && i < |members| && c.slotOf[i] < |keys|
    requires Fits(SameIdentity, keys[c.slotOf[i]], members[i])
    ensures i in a.slotOf
  {
    var s := c.slotOf[i];
    assert s in a.owner ==> c.owner[s] == a.owner[s];
  }

  lemma SameSize(m: Matching)
    requires OneToOne(m)
    ensures |m.slotOf.Keys| == |m.owner.Keys|
  {
    ImageSize(m, m.slotOf.Keys);
    forall s | s in m.owner
      ensures s in Image(m, m.slotOf.Keys)
    {
      assert m.slotOf[m.owner[s]] == s;
    }
    assert Image(m, m.slotOf.Keys) == m.owner.Keys;
  }

  lemma AllTaken(m: Matching, slots: nat, members: nat)
    requires Within(m, slots, members) && Upto(slots) <= m.owner.Keys && members <= slots
    ensures m.slotOf.Keys == Upto(members)
  {
    SameSize(m);
    UptoSize(slots);
    UptoSize(members);
    SubsetSize(Upto(slots), m.owner.Keys);
    SubsetSize(m.slotOf.Keys, Upto(members));
  }

  /** The only member of an identity that some slot carries stays on such a slot. */
  lemma SoleClaimantIsKept(keys: seq<nat>, members: seq<nat>, i: nat, s: nat)
    requires i < |members| && s < |keys| && Fits(SameIdentity, keys[s], members[i])
    requires forall j :: 0 <= j < |members| && members[j] == members[i] ==> j == i
    ensures i in Kept(keys, members)
  {
    MatchFits(keys, members);
    KeptIsReused(keys, members);
    var a := Reused(keys, members);
    assert s in a.owner ==> a.owner[s] == i;
  }

  /** With no more members than slots every member gets a slot of its own. */
  lemma EveryMemberGetsItsOwnSlot(keys: seq<nat>, members: seq<nat>)
    requires |members| <= |keys|
    ensures Within(Match(keys, members), |keys|, |members|)
    ensures Match(keys, members).slotOf.Keys == Upto(|members|)
  {
    MatchFits(keys, members);
    NobodyLeftOver(keys, members, Match(keys, members));
  }

  lemma NobodyLeftOver(keys: seq<nat>, members: seq<nat>, m: Matching)
    requires |members| <= |keys| && Within(m, |keys|, |members|) && Greedy(AnySlot, keys, members, 0, m)
    ensures m.slotOf.Keys == Upto(|members|)
  {
    assert m.slotOf.Keys <= Upto(|members|);
    if i :| i in Upto(|members|) && i !in m.slotOf {
      assert forall s <- Upto(|keys|) :: Fits(AnySlot, keys[s], members[i]) && s in m.owner;
      AllTaken(m, |keys|, |members|);
    }
  }

  lemma SubsetSize(a: set<nat>, b: set<nat>)
    requires a <= b
    ensures |a| <= |b|
    ensures |a| == |b| ==> a == b
  {
    assert b == a + (b - a);
  }

  /** If the members of `group` all sit on slots of `pool`, and either the whole
      group `all` is seated or the whole pool is taken by it, the seated members
      number the smaller of the two. */
  lemma SeatedCount(m: Matching, group: set<nat>, all: set<nat>, pool: set<nat>)
    requires OneToOne(m) && group <= m.slotOf.Keys && group <= all
    requires Image(m, group) <= pool
    requires group == all || pool <= Image(m, group)
    ensures |group| == Min(|all|, |pool|)
  {
    ImageSize(m, group);
    SubsetSize(group, all);
    SubsetSize(Image(m, group), pool);
    if group != all {
      assert Image(m, group) == pool;
    }
  }

  /** For every identity, as many of its members stay on its slots as there are
      members or slots carrying it, whichever is fewer. */
  lemma KeptCount(keys: seq<nat>, members: seq<nat>, key: nat)
    requires key != 0
    ensures |Kept(keys, members) * With(members, key)| == Min(|With(members, key)|, |With(keys, key)|)
  {
    KeptIsReused(keys, members);
    MatchFits(keys, members);
    var a := Reused(keys, members);
    var kept := a.slotOf.Keys * With(members, key);
    KeptSeats(keys, members, a, key);
    SeatedCount(a, kept, With(members, key), With(keys, key));
  }

  /** The members of an identity that the first pass seats are on its slots; if one is
      left over, they have all of them. */
  lemma KeptSeats(keys: seq<nat>, members: seq<nat>, a: Matching, key: nat)
    requires key != 0 && Within(a, |keys|, |members|)
    requires AddsOnlyFitting(SameIdentity, keys, members, NONE, a) && Greedy(SameIdentity, keys, members, 0, a)
    ensures var kept := a.slotOf.Keys * With(members, key);
            && Image(a, kept) <= With(keys, key)
            && (kept == With(members, key) || With(keys, key) <= Image(a, kept))
  {
    var kept := a.slotOf.Keys * With(members, key);
    if kept != With(members, key) {
      var i :| i in With(members, key) && i !in kept;
      forall s | s in With(keys, key)
        ensures s in Image(a, kept)
      {
        assert Fits(SameIdentity, keys[s], members[i]);
        assert s in a.owner && a.slotOf[a.owner[s]] == s;
      }
    }
  }

  /** Newcomers: members that found no slot of their own identity. */
  ghost function Newcomers(keys: seq<nat>, members: seq<nat>): set<nat> {
    Upto(|members|) - Kept(keys, members)
  }

  lemma FilledCount(keys: seq<nat>, members: seq<nat>)
    ensures var filled := ReusedOrFilled(keys, members).slotOf.Keys - Reused(keys, members).slotOf.Keys;
            |filled| == Min(|Newcomers(keys, members)|, |With(keys, 0)|)
  {
    MatchFits(keys, members);
    KeptIsReused(keys, members);
    var a, b := Reused(keys, members), ReusedOrFilled(keys, members);
    var filled := b.slotOf.Keys - a.slotOf.Keys;
    FilledSeats(keys, members, a, b);
    SeatedCount(b, filled, Newcomers(keys, members), With(keys, 0));
  }

  /** The members that the second pass seats are on empty slots; if one is left over,
      they have all of them. */
  lemma FilledSeats(keys: seq<nat>, members: seq<nat>, a: Matching, b: Matching)
    requires Within(a, |keys|, |members|) && Within(b, |keys|, |members|) && Extends(a, b)
    requires AddsOnlyFitting(SameIdentity, keys, members, NONE, a)
    requires AddsOnlyFitting(EmptySlot, keys, members, a, b) && Greedy(EmptySlot, keys, members, 0, b)
    ensures var filled := b.slotOf.Keys - a.slotOf.Keys;
            && Image(b, filled) <= With(keys, 0)
            && (filled == Upto(|members|) - a.slotOf.Keys || With(keys, 0) <= Image(b, filled))
  {
    var filled := b.slotOf.Keys - a.slotOf.Keys;
    assert forall i <- a.slotOf :: keys[b.slotOf[i]] != 0;
    if filled != Upto(|members|) - a.slotOf.Keys {
      var i :| i in Upto(|members|) - a.slotOf.Keys && i !in filled;
      forall s | s in With(keys, 0)
        ensures s in Image(b, filled)
      {
        assert Fits(EmptySlot, keys[s], members[i]);
        assert s in b.owner && b.slotOf[b.owner[s]] == s;
      }
    }
  }

  lemma LateIsEvicted(keys: seq<nat>, members: seq<nat>, late: set<nat>)
    requires late == Match(keys, members).slotOf.Keys - ReusedOrFilled(keys, members).slotOf.Keys
    ensures Image(Match(keys, members), late) == Evictions(keys, members)
  {
    MatchFits(keys, members);
    var b, c := ReusedOrFilled(keys, members), Match(keys, members);
    assert forall i <- b.slotOf :: c.slotOf[i] in b.owner;
    forall s | s in Evictions(keys, members)
      ensures s in Image(c, late)
    {
      assert c.slotOf[c.owner[s]] == s;
    }
    assert forall i <- late :: c.slotOf[i] in Evictions(keys, members);
  }

  lemma NewcomersSplit(keys: seq<nat>, members: seq<nat>)
    requires |members| <= |keys|
    ensures var a, b, c := Reused(keys, members).slotOf.Keys, ReusedOrFilled(keys, members).slotOf.Keys,
                           Match(keys, members).slotOf.Keys;
            |Newcomers(keys, members)| == |b - a| + |c - b|
  {
    EveryMemberGetsItsOwnSlot(keys, members);
    MatchFits(keys, members);
    KeptIsReused(keys, members);
    var a, b, c := Reused(keys, members).slotOf.Keys, ReusedOrFilled(keys, members).slotOf.Keys,
                   Match(keys, members).slotOf.Keys;
    assert a <= b <= c;
    assert c - a == (b - a) + (c - b);
  }

  /** A link is evicted only when the newcomers outnumber the empty slots, and
      then exactly the excess is evicted. */
  lemma EvictionCount(keys: seq<nat>, members: seq<nat>)
    requires |members| <= |keys|
    ensures |Evictions(keys, members)| ==
            |Newcomers(keys, members)| - Min(|Newcomers(keys, members)|, |With(keys, 0)|)
  {
    var late := Match(keys, members).slotOf.Keys - ReusedOrFilled(keys, members).slotOf.Keys;
    NewcomersSplit(keys, members);
    FilledCount(keys, members);
    EveryMemberGetsItsOwnSlot(keys, members);
    ImageSize(Match(keys, members), late);
    LateIsEvicted(keys, members, late);
  }

  /** Where nothing is evicted, an owned slot was its member's already, or it was
      empty and the member had no slot of its own. */
  lemma OwnedSlot(keys: seq<nat>, members: seq<nat>, s: nat)
    requires Evictions(keys, members) == {} && s in Match(keys, members).owner
    ensures var m := Match(keys, members);
            && s < |keys| && m.owner[s] < |members| && m.owner[s] in m.slotOf && m.slotOf[m.owner[s]] == s
            && if m.owner[s] in Kept(keys, members) then keys[s] == members[m.owner[s]] else keys[s] == 0
  {
    MatchFits(keys, members);
    KeptIsReused(keys, members);
    var b, m := ReusedOrFilled(keys, members), Match(keys, members);
    assert s !in Evictions(keys, members);
    assert b.slotOf[m.owner[s]] == s;
  }
}
