/** A link from the moment it is first seen: its slot, its counters and the traffic
    they stand for, over whole runs from a fresh table. */
module LinkHistory {
  import opened Common
  import opened Counters
  import opened LinkSlots
  import opened LinkRefinement
  import opened SlotMatching

  lemma {:induction false} RunAppend(t: Table, a: seq<Op>, b: seq<Op>)
    ensures Run(t, a + b) == Run(Run(t, a), b)
    decreases |a|
  {
    if a == [] {
      assert a + b == b;
    } else {
      assert (a + b)[1..] == a[1..] + b;
      RunAppend(Step(t, a[0]), a[1..], b);
    }
  }

  lemma {:induction false} LinksRunAppend(side: Side, links: Links, a: seq<Op>, b: seq<Op>)
    ensures LinksRun(side, links, a + b) == LinksRun(side, LinksRun(side, links, a), b)
    decreases |a|
  {
    if a == [] {
      assert a + b == b;
    } else {
      assert (a + b)[1..] == a[1..] + b;
      LinksRunAppend(side, LinksStep(side, links, a[0]), a[1..], b);
    }
  }

  lemma StepKeepsKnown(side: Side, links: Links, op: Op, k: nat)
    requires k in links && !op.CompactOp? && !op.ClearOp?
    ensures k in LinksStep(side, links, op)
  {
  }

  lemma {:induction false} StaysKnownInPlace(side: Side, links: Links, ops: seq<Op>, k: nat)
    requires k in links && KeepsPlaces(ops)
    ensures StaysKnown(side, links, ops, k)
    decreases |ops|
  {
    if ops != [] {
      StepKeepsKnown(side, links, ops[0], k);
      StaysKnownInPlace(side, LinksStep(side, links, ops[0]), ops[1..], k);
    }
  }

  ghost predicate AllNameFrom(ops: seq<Op>, all: set<nat>) {
    |all| <= SLOTS && forall i :: 0 <= i < |ops| ==> NamesFrom(ops[i], all)
  }

  lemma SnapshotFits(ops: seq<Op>, all: set<nat>, i: nat)
    requires AllNameFrom(ops, all) && i < |ops|
    ensures ops[i].SaveOp? ==> |ops[i].members| <= SLOTS
  {
    assert NamesFrom(ops[i], all);
    if ops[i].SaveOp? {
      KeySetSize(ops[i].members);
      SubsetSize(KeySet(ops[i].members), all);
    }
  }

  /** The links after the first `n` operations of a run from the fresh table. */
  ghost function LinksAfter(side: Side, ops: seq<Op>, n: nat): Links
    requires n <= |ops|
  {
    LinksRun(side, map[], ops[..n])
  }

  ghost function TableAfter(side: Side, ops: seq<Op>, n: nat): Table
    requires n <= |ops|
  {
    Run(Fresh(side), ops[..n])
  }

  lemma FreshRunRefines(side: Side, ops: seq<Op>, all: set<nat>, n: nat)
    requires AllNameFrom(ops, all) && n <= |ops|
    ensures Represents(TableAfter(side, ops, n), LinksAfter(side, ops, n))
    ensures LinksAfter(side, ops, n).Keys <= all
  {
    FreshRepresents(side);
    FewIdentitiesFit(side, map[], ops[..n], all);
    RunRefines(Fresh(side), map[], ops[..n]);
    RunStaysWithin(side, map[], ops[..n], all);
  }

  lemma RunSplits(side: Side, ops: seq<Op>, n: nat, m: nat)
    requires n <= m <= |ops|
    ensures TableAfter(side, ops, m) == Run(TableAfter(side, ops, n), ops[n..m])
  {
    assert ops[..m] == ops[..n] + ops[n..m];
    RunAppend(Fresh(side), ops[..n], ops[n..m]);
  }

  lemma LinksRunSplits(side: Side, ops: seq<Op>, n: nat, m: nat)
    requires n <= m <= |ops|
    ensures LinksAfter(side, ops, m) == LinksRun(side, LinksAfter(side, ops, n), ops[n..m])
  {
    assert ops[..m] == ops[..n] + ops[n..m];
    LinksRunAppend(side, map[], ops[..n], ops[n..m]);
  }

  lemma RunSide(t: Table, ops: seq<Op>)
    ensures Run(t, ops).side == t.side
    decreases |ops|
  {
    if ops != [] {
      RunSide(Step(t, ops[0]), ops[1..]);
    }
  }

  /** A run from its `n`th operation on, as far as the refinement results need it. */
  lemma RunFrom(side: Side, ops: seq<Op>, all: set<nat>, n: nat, m: nat)
    requires AllNameFrom(ops, all) && n <= m <= |ops|
    ensures var t, links := TableAfter(side, ops, n), LinksAfter(side, ops, n);
            t.side == side && Represents(t, links) && AllFit(side, links, ops[n..m])
            && TableAfter(side, ops, m) == Run(t, ops[n..m])
  {
    FreshRunRefines(side, ops, all, n);
    RunSide(Fresh(side), ops[..n]);
    FewIdentitiesFit(side, LinksAfter(side, ops, n), ops[n..m], all);
    RunSplits(side, ops, n, m);
  }

  lemma HousedIsKnown(t: Table, links: Links, k: nat)
    requires Represents(t, links) && k != 0 && Home(t.slots, k) < SLOTS
    ensures k in links
  {
    assert t.slots[Home(t.slots, k)].core.identity == k;
  }

  lemma PartKeepsPlaces(ops: seq<Op>, n: nat, m: nat)
    requires KeepsPlaces(ops) && n <= m <= |ops|
    ensures KeepsPlaces(ops[n..m])
  {
  }

  lemma HomeStays(t: Table, links: Links, ops: seq<Op>, k: nat)
    requires Represents(t, links) && AllFit(t.side, links, ops) && KeepsPlaces(ops)
    requires k != 0 && Home(t.slots, k) < SLOTS
    ensures Home(Run(t, ops).slots, k) == Home(t.slots, k)
  {
    HousedIsKnown(t, links, k);
    RunKeepsHomes(t, links, ops);
  }

  lemma TotalsGoOn(t: Table, links: Links, ops: seq<Op>, k: nat, c: Column)
    requires Represents(t, links) && AllFit(t.side, links, ops) && KeepsPlaces(ops)
    requires k != 0 && Home(t.slots, k) < SLOTS && (c == Belated ==> t.side == Input)
    ensures SlotCounter(Run(t, ops), k, c) == ObserveAll(SlotCounter(t, k, c), Heard(t.side, links, ops, k, c))
  {
    HousedIsKnown(t, links, k);
    StaysKnownInPlace(t.side, links, ops, k);
    SlotCountsItsOwnLink(t, links, ops, k, c);
  }

  /** From a fresh table, with snapshots that name distinct links out of at most
      sixteen and without compaction or clearing: once a link is on a slot it is on
      that slot for ever. */
  lemma LinkKeepsItsFirstSlot(side: Side, ops: seq<Op>, all: set<nat>, n: nat, m: nat, k: nat)
    requires AllNameFrom(ops, all) && KeepsPlaces(ops) && n <= m <= |ops|
    requires k != 0 && Home(TableAfter(side, ops, n).slots, k) < SLOTS
    ensures Home(TableAfter(side, ops, m).slots, k) == Home(TableAfter(side, ops, n).slots, k)
  {
    var t, links := TableAfter(side, ops, n), LinksAfter(side, ops, n);
    RunFrom(side, ops, all, n, m);
    PartKeepsPlaces(ops, n, m);
    HomeStays(t, links, ops[n..m], k);
  }

  /** And its counters there go on from where they were, with its own samples only. */
  lemma LinkKeepsItsTotals(side: Side, ops: seq<Op>, all: set<nat>, n: nat, m: nat, k: nat, c: Column)
    requires AllNameFrom(ops, all) && KeepsPlaces(ops) && n <= m <= |ops|
    requires k != 0 && Home(TableAfter(side, ops, n).slots, k) < SLOTS && (c == Belated ==> side == Input)
    ensures SlotCounter(TableAfter(side, ops, m), k, c) ==
            ObserveAll(SlotCounter(TableAfter(side, ops, n), k, c), Heard(side, LinksAfter(side, ops, n), ops[n..m], k, c))
  {
    var t, links := TableAfter(side, ops, n), LinksAfter(side, ops, n);
    RunFrom(side, ops, all, n, m);
    PartKeepsPlaces(ops, n, m);
    TotalsGoOn(t, links, ops[n..m], k, c);
  }

  /** The operation that makes a link known starts its counters at zero. */
  lemma NewLinkStartsAtZero(side: Side, links: Links, op: Op, k: nat, c: Column)
    requires k !in links && k in LinksStep(side, links, op)
    ensures Shown(LinksStep(side, links, op)[k], c) == Counter(0, 0)
  {
  }

  /** A link's shown total against the traffic of the sockets it held: for a link that
      operation `n` makes known and nothing drops after, whose samples come from the
      sockets `epochs` in turn, the total never exceeds their traffic, falls short by
      what their replacements hide, and is exact if and only if each is detectable. */
  lemma LinkTotalAgainstTraffic(side: Side, ops: seq<Op>, all: set<nat>, n: nat, k: nat, c: Column, epochs: seq<seq<U64>>)
    requires AllNameFrom(ops, all) && n < |ops| && (c == Belated ==> side == Input)
    requires k !in LinksAfter(side, ops, n) && StaysKnown(side, LinksAfter(side, ops, n + 1), ops[n + 1..], k)
    requires Epochs(epochs) && Traffic(epochs) < TWO_64
    requires Heard(side, LinksAfter(side, ops, n + 1), ops[n + 1..], k, c) == Flatten(epochs)
    ensures var total := SlotCounter(Run(Fresh(side), ops), k, c).total;
            && total == Traffic(epochs) - Hidden(0, epochs)
            && (total == Traffic(epochs) <==> Detectable(0, epochs))
  {
    RunFrom(side, ops, all, n + 1, |ops|);
    assert ops[..|ops|] == ops && ops[n + 1..|ops|] == ops[n + 1..];
    SlotCountsItsOwnLink(TableAfter(side, ops, n + 1), LinksAfter(side, ops, n + 1), ops[n + 1..], k, c);
    FirstCounter(side, ops, all, n, k, c);
    TotalAgainstTraffic(epochs);
  }

  lemma FirstCounter(side: Side, ops: seq<Op>, all: set<nat>, n: nat, k: nat, c: Column)
    requires AllNameFrom(ops, all) && n < |ops|
    requires k !in LinksAfter(side, ops, n) && k in LinksAfter(side, ops, n + 1)
    ensures SlotCounter(TableAfter(side, ops, n + 1), k, c) == Counter(0, 0)
  {
    FreshRunRefines(side, ops, all, n + 1);
    LinksRunSplits(side, ops, n, n + 1);
    assert ops[n..n + 1] == [ops[n]] && [ops[n]][1..] == [];
    NewLinkStartsAtZero(side, LinksAfter(side, ops, n), ops[n], k, c);
  }
}
