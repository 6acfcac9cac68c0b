/** The aggregate transport counters (src/metrics.cpp:1534-1597 and 1608-1662).

    A tick samples several 64-bit counters from every member socket, adds their
    growth since the previous tick to the published totals, and replaces the
    per-socket baselines by this tick's sample.  A socket's row holds its counters
    in a fixed order: five columns on the input side, four on the output side. */
module TransportTotals {
  import opened Counters
  import opened MapSums

  type Row = seq<U64>
  type Sample = map<int, Row>

  datatype Published = Published(totals: Row, current: Row, baseline: Sample)

  ghost predicate Rows(x: Sample, width: nat) {
    forall s <- x :: |x[s]| == width
  }

  ghost predicate Shaped(p: Published, width: nat) {
    |p.totals| == width && |p.current| == width && Rows(p.baseline, width)
  }

  function Zeros(width: nat): (r: Row)
    ensures |r| == width && forall c :: 0 <= c < width ==> r[c] == 0
  {
    seq(width, _ => 0)
  }

  ghost function Entry(row: Row, c: nat): nat
    requires c < |row|
  {
    row[c]
  }

  /** Column `c` of a sample. */
  ghost function Column(x: Sample, width: nat, c: nat): map<int, nat>
    requires Rows(x, width) && c < width
  {
    map s | s in x :: Entry(x[s], c)
  }

  /** What each socket adds to one total. */
  ghost function Deltas(prev: map<int, nat>, x: map<int, nat>): map<int, nat> {
    map s | s in x :: Delta(if s in prev then prev[s] else 0, x[s])
  }

  ghost predicate Ticked(p: Published, x: Sample, q: Published, width: nat)
    requires Shaped(p, width) && Rows(x, width)
  {
    && Shaped(q, width)
    && q.baseline == x
    && forall c :: 0 <= c < width ==>
         && q.totals[c] == Wrap(p.totals[c] + Sum(Deltas(Column(p.baseline, width, c), Column(x, width, c))))
         && q.current[c] == Wrap(Sum(Column(x, width, c)))
  }

  // ---- One column over a whole run ----

  /** The sample a tick compares against: only the one just before it. */
  ghost function Prev(xs: seq<map<int, nat>>): map<int, nat> {
    if xs == [] then map[] else xs[|xs| - 1]
  }

  /** The counter each socket showed when it was last sampled. */
  ghost function LastSeen(xs: seq<map<int, nat>>): map<int, nat> {
    if xs == [] then map[] else LastSeen(xs[..|xs| - 1]) + xs[|xs| - 1]
  }

  /** Everything a run adds to the total, before wrapping. */
  ghost function Growth(xs: seq<map<int, nat>>): nat {
    if xs == [] then 0
    else Growth(xs[..|xs| - 1]) + Sum(Deltas(Prev(xs[..|xs| - 1]), xs[|xs| - 1]))
  }

  /** Bytes a tick counts although an earlier tick counted them already. */
  ghost function Recounts(seen: map<int, nat>, prev: map<int, nat>, x: map<int, nat>): map<int, nat> {
    map s | s in x ::
      if s in prev then (if x[s] < prev[s] then prev[s] else 0)
      else if s in seen then seen[s] else 0
  }

  ghost function Overcount(xs: seq<map<int, nat>>): nat {
    if xs == [] then 0
    else
      var earlier := xs[..|xs| - 1];
      Overcount(earlier) + Sum(Recounts(LastSeen(earlier), Prev(earlier), xs[|xs| - 1]))
  }

  lemma {:induction false} PrevIsSeen(xs: seq<map<int, nat>>)
    ensures forall s <- Prev(xs) :: s in LastSeen(xs) && LastSeen(xs)[s] == Prev(xs)[s]
  {
  }

  ghost function Restrict(m: map<int, nat>, keys: set<int>): map<int, nat> {
    map k | k in keys :: if k in m then m[k] else 0
  }

  lemma RestrictSum(seen: map<int, nat>, keys: set<int>)
    ensures Sum(seen) == Sum(seen - keys) + Sum(Restrict(seen, keys))
  {
    var hit, miss := Restrict(seen, keys * seen.Keys), Restrict(seen, keys - seen.Keys);
    SumDisjoint(seen - keys, hit);
    assert (seen - keys) + hit == seen;
    SumDisjoint(hit, miss);
    SumIsZero(miss);
    assert hit + miss == Restrict(seen, keys);
  }

  lemma SumOverwrite(seen: map<int, nat>, x: map<int, nat>)
    ensures Sum(seen + x) + Sum(Restrict(seen, x.Keys)) == Sum(seen) + Sum(x)
  {
    RestrictSum(seen, x.Keys);
    SumDisjoint(seen - x.Keys, x);
    assert (seen - x.Keys) + x == seen + x;
  }

  /** The published growth is the last-seen counters of every socket ever sampled,
      plus what was counted twice. */
  lemma {:induction false} GrowthIsLastSeenPlusOvercount(xs: seq<map<int, nat>>)
    ensures Growth(xs) == Sum(LastSeen(xs)) + Overcount(xs)
  {
    if xs != [] {
      var earlier, x := xs[..|xs| - 1], xs[|xs| - 1];
      var seen, prev := LastSeen(earlier), Prev(earlier);
      GrowthIsLastSeenPlusOvercount(earlier);
      PrevIsSeen(earlier);
      SumOverwrite(seen, x);
      SumPairs(x, Recounts(seen, prev, x), Restrict(seen, x.Keys), Deltas(prev, x));
    }
  }

  /** No counter falls between consecutive ticks, and no socket that had counted
      something comes back after missing a tick. */
  ghost predicate Steady(xs: seq<map<int, nat>>) {
    xs == [] ||
    var earlier, x := xs[..|xs| - 1], xs[|xs| - 1];
    && Steady(earlier)
    && (forall s <- x :: s in Prev(earlier) ==> x[s] >= Prev(earlier)[s])
    && (forall s <- x :: s !in Prev(earlier) && s in LastSeen(earlier) ==> LastSeen(earlier)[s] == 0)
  }

  lemma {:induction false} NoOvercountIffSteady(xs: seq<map<int, nat>>)
    ensures Overcount(xs) == 0 <==> Steady(xs)
  {
    if xs != [] {
      var earlier, x := xs[..|xs| - 1], xs[|xs| - 1];
      NoOvercountIffSteady(earlier);
      var r := Recounts(LastSeen(earlier), Prev(earlier), x);
      SumIsZero(r);
      if Sum(r) == 0 {
        assert forall s <- x :: r[s] == 0;
      } else {
        var s :| s in r && r[s] != 0;
      }
    }
  }

  /** The total is exact - current gauges plus retired sockets - if and only if the
      run is steady; otherwise it is too high. */
  lemma TotalIsExactIffSteady(xs: seq<map<int, nat>>)
    ensures Growth(xs) >= Sum(LastSeen(xs))
    ensures Growth(xs) == Sum(LastSeen(xs)) <==> Steady(xs)
  {
    GrowthIsLastSeenPlusOvercount(xs);
    NoOvercountIffSteady(xs);
  }

  /** A socket whose statistics fail to read for a single tick is counted twice. */
  lemma OneMissedTickDoubleCounts()
    ensures var xs: seq<map<int, nat>> := [map[7 := 10], map[], map[7 := 10]];
            Growth(xs) == 20 && Sum(LastSeen(xs)) == 10
  {
    var x: map<int, nat> := map[7 := 10];
    var a, b := [x], [x, map[]];
    assert b[..1] == a && [x, map[], x][..2] == b;
    SumAdd(map[], 7, 10);
    assert LastSeen(a) == x;
    assert LastSeen(b) == LastSeen(a) + map[] && LastSeen(b) + x == x;
    assert Deltas(map[], x) == x && Deltas(x, map[]) == map[];
    assert Prev(a) == x && Prev(b) == map[] && Growth(a) == 10;
  }

  // ---- The tick itself ----

  /** The next entry of an unordered container, whichever it is. */
  method Next<T>(todo: set<T>) returns (x: T)
    requires todo != {}
    ensures x in todo
  {
    x :| x in todo;
  }

  class Totals {
    const width: nat
    var totals: Row
    var current: Row
    var baseline: Sample

    ghost predicate Valid()
      reads this
    {
      Shaped(State(), width)
    }

    ghost function State(): Published
      reads this
    {
      Published(totals, current, baseline)
    }

    constructor (width: nat)
      ensures Valid() && this.width == width
      ensures State() == Published(Zeros(width), Zeros(width), map[])
    {
      this.width := width;
      totals, current, baseline := Zeros(width), Zeros(width), map[];
    }

    method Tick(sample: Sample)
      requires Valid() && Rows(sample, width)
      modifies this
      ensures Valid() && Ticked(old(State()), sample, State(), width)
    {
      var sums, gauges, last := Accumulate(width, baseline, totals, sample);
      AllVisited(baseline, sample);
      VisitedIsTicked(State(), sample, sums, gauges, width);
      baseline := Kept(last, sample.Keys);
      totals, current := sums, gauges;
    }
  }

  lemma VisitedIsTicked(p: Published, x: Sample, sums: Row, gauges: Row, width: nat)
    requires Shaped(p, width) && Rows(x, width) && Visited(width, p.baseline, x, p.totals, sums, gauges)
    ensures Ticked(p, x, Published(sums, gauges, x), width)
  {
  }

  /** The sockets are visited in an arbitrary order, as an unordered map's are, and
      the outcome does not depend on it. */
  method Accumulate(width: nat, was: Sample, totals: Row, sample: Sample)
    returns (sums: Row, gauges: Row, last: Sample)
    requires |totals| == width && Rows(was, width) && Rows(sample, width)
    ensures Visited(width, was, sample, totals, sums, gauges) && last == was + sample
  {
    sums, gauges, last := totals, Zeros(width), was;
    var todo := sample.Keys;
    assert sample - todo == map[];
    while todo != {}
      invariant todo <= sample.Keys
      invariant last == was + (sample - todo)
      invariant Visited(width, was, sample - todo, totals, sums, gauges)
    {
      var s := Next(todo);
      var prev := if s in last then last[s] else Zeros(width);
      OneFewer(was, sample, todo, s);
      Visit(width, was, sample - todo, totals, sums, gauges, s, sample[s]);
      sums, gauges := Grown(sums, prev, sample[s]), Plus(gauges, sample[s]);
      last, todo := last[s := sample[s]], todo - {s};
    }
    AllVisited(was, sample);
  }

  lemma OneFewer(was: Sample, sample: Sample, todo: set<int>, s: int)
    requires s in todo && todo <= sample.Keys
    ensures sample - (todo - {s}) == (sample - todo)[s := sample[s]]
    ensures was + (sample - (todo - {s})) == (was + (sample - todo))[s := sample[s]]
    ensures s !in sample - todo
  {
  }

  lemma AllVisited(was: Sample, sample: Sample)
    ensures sample - {} == sample
    ensures Kept(was + sample, sample.Keys) == sample
  {
  }

  function Kept(last: Sample, sockets: set<int>): Sample
    requires sockets <= last.Keys
  {
    map s | s in sockets :: last[s]
  }

  function Plus(gauges: Row, row: Row): (r: Row)
    requires |gauges| == |row|
    ensures |r| == |row| && forall c :: 0 <= c < |row| ==> r[c] == Wrap(gauges[c] as int + row[c])
  {
    seq(|row|, c requires 0 <= c < |row| => Wrap(gauges[c] as int + row[c]))
  }

  function Grown(sums: Row, prev: Row, row: Row): (r: Row)
    requires |sums| == |prev| == |row|
    ensures |r| == |row| && forall c :: 0 <= c < |row| ==> r[c] == Wrap(sums[c] as int + Delta(prev[c], row[c]))
  {
    seq(|row|, c requires 0 <= c < |row| => Wrap(sums[c] as int + Delta(prev[c], row[c])))
  }

  /** The running sums cover exactly the sockets visited so far. */
  ghost predicate Visited(width: nat, was: Sample, done: Sample, totals: Row, sums: Row, gauges: Row)
    requires |totals| == width && Rows(was, width)
  {
    && |sums| == |gauges| == width && Rows(done, width)
    && forall c :: 0 <= c < width ==>
         && sums[c] == Wrap(totals[c] + Sum(Deltas(Column(was, width, c), Column(done, width, c))))
         && gauges[c] == Wrap(Sum(Column(done, width, c)))
  }

  lemma VisitColumn(width: nat, was: Sample, done: Sample, totals: Row, sums: Row, gauges: Row, s: int, row: Row, c: nat)
    requires |totals| == width == |row| && Rows(was, width) && s !in done && c < width
    requires Visited(width, was, done, totals, sums, gauges)
    ensures var prev := if s in was then was[s][c] else 0;
            && Wrap(sums[c] as int + Delta(prev, row[c]))
               == Wrap(totals[c] + Sum(Deltas(Column(was, width, c), Column(done[s := row], width, c))))
            && Wrap(gauges[c] as int + row[c]) == Wrap(Sum(Column(done[s := row], width, c)))
  {
    OneSocket(was, done, width, s, row, c);
    var prev := if s in was then was[s][c] else 0;
    WrapAdd(totals[c] + Sum(Deltas(Column(was, width, c), Column(done, width, c))), Delta(prev, row[c]));
    WrapAdd(Sum(Column(done, width, c)), row[c]);
  }

  lemma Visit(width: nat, was: Sample, done: Sample, totals: Row, sums: Row, gauges: Row, s: int, row: Row)
    requires |totals| == width == |row| && Rows(was, width) && s !in done
    requires Visited(width, was, done, totals, sums, gauges)
    ensures var prev := if s in was then was[s] else Zeros(width);
            Visited(width, was, done[s := row], totals, Grown(sums, prev, row), Plus(gauges, row))
  {
    forall c: nat | c < width {
      VisitColumn(width, was, done, totals, sums, gauges, s, row, c);
    }
  }

  lemma OneSocket(was: Sample, done: Sample, width: nat, s: int, row: Row, c: nat)
    requires Rows(was, width) && Rows(done, width) && |row| == width && c < width && s !in done
    ensures var prev := if s in was then was[s][c] else 0;
            && Sum(Column(done[s := row], width, c)) == Sum(Column(done, width, c)) + row[c]
            && Sum(Deltas(Column(was, width, c), Column(done[s := row], width, c)))
               == Sum(Deltas(Column(was, width, c), Column(done, width, c))) + Delta(prev, row[c])
  {
    var col := Column(done, width, c);
    assert Column(done[s := row], width, c) == col[s := row[c]];
    SumAdd(col, s, row[c]);
    DeltasAdd(Column(was, width, c), col, s, row[c]);
  }

  lemma DeltasAdd(was: map<int, nat>, col: map<int, nat>, s: int, v: nat)
    requires s !in col
    ensures Sum(Deltas(was, col[s := v])) == Sum(Deltas(was, col)) + Delta(if s in was then was[s] else 0, v)
  {
    var d := Delta(if s in was then was[s] else 0, v);
    assert Deltas(was, col[s := v]) == Deltas(was, col)[s := d];
    SumAdd(Deltas(was, col), s, d);
  }

  // ---- Runs of ticks ----

  ghost predicate AllRows(xs: seq<Sample>, width: nat) {
    forall i :: 0 <= i < |xs| ==> Rows(xs[i], width)
  }

  ghost function Columns(xs: seq<Sample>, width: nat, c: nat): (r: seq<map<int, nat>>)
    requires c < width && AllRows(xs, width)
    ensures |r| == |xs| && forall i :: 0 <= i < |xs| ==> r[i] == Column(xs[i], width, c)
  {
    seq(|xs|, i requires 0 <= i < |xs| => Column(xs[i], width, c))
  }

  /** After the ticks `xs` from the start: the baselines are exactly the latest
      sample, and each total is its column's growth modulo 2^64. */
  ghost predicate Accounts(xs: seq<Sample>, p: Published, width: nat)
    requires AllRows(xs, width)
  {
    && Shaped(p, width)
    && p.baseline == (if xs == [] then map[] else xs[|xs| - 1])
    && forall c :: 0 <= c < width ==>
         && p.totals[c] == Wrap(Growth(Columns(xs, width, c)))
         && p.current[c] == Wrap(Sum(Prev(Columns(xs, width, c))))
  }

  lemma ColumnsExtend(xs: seq<Sample>, x: Sample, width: nat, c: nat)
    requires AllRows(xs, width) && Rows(x, width) && c < width
    ensures var cols, col := Columns(xs, width, c), Column(x, width, c);
            && Growth(Columns(xs + [x], width, c)) == Growth(cols) + Sum(Deltas(Prev(cols), col))
            && Prev(Columns(xs + [x], width, c)) == col
  {
    var all := Columns(xs + [x], width, c);
    assert all[..|xs|] == Columns(xs, width, c);
  }

  lemma TickExtendsRun(xs: seq<Sample>, p: Published, x: Sample, q: Published, width: nat)
    requires AllRows(xs, width) && Rows(x, width)
    requires Accounts(xs, p, width) && Ticked(p, x, q, width)
    ensures Accounts(xs + [x], q, width)
  {
    forall c: nat | c < width {
      TickExtendsColumn(xs, p, x, q, width, c);
    }
  }

  lemma TickExtendsColumn(xs: seq<Sample>, p: Published, x: Sample, q: Published, width: nat, c: nat)
    requires AllRows(xs, width) && Rows(x, width) && c < width
    requires Accounts(xs, p, width) && Ticked(p, x, q, width)
    ensures q.totals[c] == Wrap(Growth(Columns(xs + [x], width, c)))
    ensures q.current[c] == Wrap(Sum(Prev(Columns(xs + [x], width, c))))
  {
    var prev := Prev(Columns(xs, width, c));
    ColumnsExtend(xs, x, width, c);
    BaselineIsPrev(xs, p, width, c);
    WrapAdd(Growth(Columns(xs, width, c)), Sum(Deltas(prev, Column(x, width, c))));
  }

  lemma BaselineIsPrev(xs: seq<Sample>, p: Published, width: nat, c: nat)
    requires AllRows(xs, width) && c < width && Accounts(xs, p, width)
    ensures Column(p.baseline, width, c) == Prev(Columns(xs, width, c))
  {
  }

  /** A whole run of ticks.  Each total published at the end is the sum of the
      last-seen counters of every socket ever sampled, if its column was steady. */
  method RunTicks(width: nat, xs: seq<Sample>) returns (p: Published)
    requires AllRows(xs, width)
    ensures Accounts(xs, p, width)
    ensures forall c :: 0 <= c < width && Steady(Columns(xs, width, c)) ==>
              p.totals[c] == Wrap(Sum(LastSeen(Columns(xs, width, c))))
  {
    var t := new Totals(width);
    for i := 0 to |xs|
      invariant fresh(t) && t.width == width && t.Valid() && Accounts(xs[..i], t.State(), width)
    {
      ghost var before := t.State();
      t.Tick(xs[i]);
      TickExtendsRun(xs[..i], before, xs[i], t.State(), width);
      assert xs[..i + 1] == xs[..i] + [xs[i]];
    }
    assert xs[..|xs|] == xs;
    p := Published(t.totals, t.current, t.baseline);
    forall c: nat | c < width && Steady(Columns(xs, width, c))
      ensures Growth(Columns(xs, width, c)) == Sum(LastSeen(Columns(xs, width, c)))
    {
      TotalIsExactIffSteady(Columns(xs, width, c));
    }
  }
}
