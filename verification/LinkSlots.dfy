/** The stable link-slot table and its locked operations, on values
    (src/metrics_link_slots.cpp, src/metrics.cpp:1289-1307 and 1342-1432).

    One side of the relay owns sixteen slots.  Each operation below runs under one
    mutex, so a run of the program is any interleaving of them.  Input and output
    share the code; only the input side has a belated-packet counter. */
module LinkSlots {
  import opened Common
  import opened Counters
  import opened SlotMatching

  const SLOTS: nat := 16

  datatype SockState = Init | Opened | Listening | Connecting | Connected | Broken | Closing | Closed | NonExist
  datatype GroupState = Pending | Idle | Running | Failed

  /** A library counter as a slot shows it: accumulated, latest raw value, baseline. */
  datatype Gauge = Gauge(total: U64, current: U64, last: U64)

  const ZERO := Gauge(0, 0, 0)

  /** The part of a slot that compaction moves. */
  datatype Core = Core(id: int, connected: bool, identity: U64, rx: Gauge, tx: Gauge, belated: Gauge, rtt: int)

  /** The part of a slot that stays where it is. */
  datatype Peer = Peer(sock: SockState, group: GroupState, host: string, port: int)

  datatype Slot = Slot(core: Core, peer: Peer)

  const EMPTY_CORE := Core(INVALID_SOCK, false, 0, ZERO, ZERO, ZERO, -1)
  const NO_PEER := Peer(NonExist, Idle, "", 0)
  const EMPTY_SLOT := Slot(EMPTY_CORE, NO_PEER)

  type Slots = s: seq<Slot> | |s| == SLOTS witness seq(SLOTS, _ => EMPTY_SLOT)

  datatype Table = Table(side: Side, slots: Slots, count: int)

  /** A group member as the transport library reports it; `key` is its identity
      key, 0 when none can be derived. */
  datatype Member = Member(id: int, sock: SockState, group: GroupState, endpoint: Option<(string, int)>, key: U64)

  datatype Stats = Stats(rx: U64, tx: U64, belated: U64, rtt: int)

  function Fresh(side: Side): Table {
    Table(side, seq(SLOTS, _ => EMPTY_SLOT), 0)
  }

  predicate ValidSocket(id: int) {
    id != INVALID_SOCK && id != 0
  }

  /** Identified, connected and holding a real socket. */
  predicate Live(c: Core) {
    c.identity != 0 && c.connected && ValidSocket(c.id)
  }

  function Capped(t: Table): (r: nat)
    ensures r <= SLOTS
  {
    if t.count < 0 then 0 else if t.count < SLOTS then t.count else SLOTS
  }

  function Front<T>(s: seq<T>): seq<T>
    requires s != []
  {
    s[..|s| - 1]
  }

  function Last<T>(s: seq<T>): T
    requires s != []
  {
    s[|s| - 1]
  }

  /** One past the highest identified slot. */
  function Span(slots: seq<Slot>): (r: nat)
    ensures r <= |slots|
    ensures forall i :: r <= i < |slots| ==> slots[i].core.identity == 0
    ensures r > 0 ==> slots[r - 1].core.identity != 0
  {
    if slots == [] then 0
    else if Last(slots).core.identity != 0 then |slots|
    else Span(Front(slots))
  }

  // ---- Saving a membership snapshot ----

  function Keys(slots: Slots): (r: seq<nat>)
    ensures |r| == SLOTS && forall i :: 0 <= i < SLOTS ==> r[i] == slots[i].core.identity
  {
    seq(SLOTS, i requires 0 <= i < SLOTS => slots[i].core.identity)
  }

  function MemberKeys(members: seq<Member>): (r: seq<nat>)
    ensures |r| == |members| && forall i :: 0 <= i < |members| ==> r[i] == members[i].key
  {
    seq(|members|, i requires 0 <= i < |members| => members[i].key)
  }

  predicate IsConnected(m: Member) {
    m.group == Running || m.sock == Connected
  }

  function ZeroTraffic(c: Core): Core {
    c.(rx := ZERO, tx := ZERO, belated := ZERO)
  }

  function Evict(s: Slot): Slot {
    s.(core := ZeroTraffic(s.core).(id := INVALID_SOCK, connected := false, identity := 0))
  }

  function Occupy(s: Slot, m: Member): Slot {
    var (host, port) := if m.endpoint.Some? then m.endpoint.value else ("", 0);
    Slot(s.core.(id := m.id, connected := IsConnected(m), identity := if m.key == 0 then s.core.identity else m.key),
         Peer(m.sock, m.group, host, port))
  }

  function Vacate(s: Slot): Slot {
    var core := s.core.(id := INVALID_SOCK, connected := false);
    if core.identity == 0 then Slot(core, NO_PEER) else s.(core := core)
  }

  function SavedSlot(slots: Slots, members: seq<Member>, s: nat): Slot
    requires s < SLOTS
  {
    var keys, mkeys := Keys(slots), MemberKeys(members);
    var m := Match(keys, mkeys);
    var base := if Evicted(keys, mkeys, s) then Evict(slots[s]) else slots[s];
    if s in m.owner && m.owner[s] < |members| then Occupy(base, members[m.owner[s]]) else Vacate(base)
  }

  function SavedSlots(slots: Slots, members: seq<Member>): (r: Slots)
    ensures forall s :: 0 <= s < SLOTS ==> r[s] == SavedSlot(slots, members, s)
  {
    seq(SLOTS, s requires 0 <= s < SLOTS => SavedSlot(slots, members, s))
  }

  function Save(t: Table, members: seq<Member>): Table {
    var slots := SavedSlots(t.slots, members);
    t.(slots := slots, count := Span(slots))
  }

  // ---- Clearing and marking ----

  function ClearedSlot(s: Slot): Slot {
    if s.core.identity == 0 then s
    else Slot(ZeroTraffic(s.core).(id := INVALID_SOCK, connected := false, identity := 0), NO_PEER)
  }

  function Clear(t: Table): (r: Table)
    ensures forall i :: 0 <= i < SLOTS ==> r.slots[i] == ClearedSlot(t.slots[i])
  {
    t.(slots := seq(SLOTS, i requires 0 <= i < SLOTS => ClearedSlot(t.slots[i])), count := 0)
  }

  function MarkedSlot(s: Slot): Slot {
    if s.core.identity == 0 then s else s.(core := s.core.(connected := false))
  }

  function Mark(t: Table): (r: Table)
    ensures forall i :: 0 <= i < SLOTS ==>
              r.slots[i] == if i < Capped(t) then MarkedSlot(t.slots[i]) else t.slots[i]
  {
    t.(slots := seq(SLOTS, i requires 0 <= i < SLOTS => if i < Capped(t) then MarkedSlot(t.slots[i]) else t.slots[i]))
  }

  // ---- Compaction ----

  datatype CompactResult = CompactResult(before: nat, after: nat, moved: nat, dropped: nat)

  /** Indices of the live slots, in order. */
  function KeptIndices(slots: seq<Slot>): (r: seq<nat>)
    ensures |r| <= |slots|
    ensures forall d :: 0 <= d < |r| ==> d <= r[d] < |slots| && Live(slots[r[d]].core)
  {
    if slots == [] then []
    else if Live(Last(slots).core) then KeptIndices(Front(slots)) + [|slots| - 1]
    else KeptIndices(Front(slots))
  }

  function Identified(slots: seq<Slot>): (r: nat)
    ensures |KeptIndices(slots)| <= r <= |slots|
  {
    if slots == [] then 0
    else Identified(Front(slots)) + if Last(slots).core.identity != 0 then 1 else 0
  }

  /** How many kept slots change index. */
  function Moved(kept: seq<nat>): (r: nat)
    ensures r <= |kept|
  {
    if kept == [] then 0 else Moved(Front(kept)) + if Last(kept) != |kept| - 1 then 1 else 0
  }

  function CompactedSlots(slots: Slots): (r: Slots)
    ensures forall i :: 0 <= i < SLOTS ==>
              var kept := KeptIndices(slots);
              r[i] == Slot(if i < |kept| then slots[kept[i]].core else EMPTY_CORE, slots[i].peer)
  {
    var kept := KeptIndices(slots);
    seq(SLOTS, i requires 0 <= i < SLOTS =>
          Slot(if i < |kept| then slots[kept[i]].core else EMPTY_CORE, slots[i].peer))
  }

  function Compact(t: Table): Table {
    t.(slots := CompactedSlots(t.slots), count := |KeptIndices(t.slots)|)
  }

  function Report(t: Table): CompactResult {
    var kept := KeptIndices(t.slots);
    var before := Identified(t.slots);
    CompactResult(before, |kept|, Moved(kept), before - |kept|)
  }

  // ---- Traffic ----

  function Sampled(g: Gauge, current: U64): Gauge {
    var c := Observe(Counter(g.total, g.last), current);
    Gauge(c.total, current, c.last)
  }

  function ResetCurrent(c: Core): Core {
    c.(rx := c.rx.(current := 0), tx := c.tx.(current := 0), belated := c.belated.(current := 0), rtt := -1)
  }

  function UpdatedCore(side: Side, c: Core, stats: map<int, Stats>): Core {
    if !Live(c) then ResetCurrent(c)
    else if c.id !in stats then c
    else
      var s := stats[c.id];
      c.(rx := Sampled(c.rx, s.rx), tx := Sampled(c.tx, s.tx),
         belated := if side == Input then Sampled(c.belated, s.belated) else c.belated, rtt := s.rtt)
  }

  function Update(t: Table, stats: map<int, Stats>): (r: Table)
    ensures forall i :: 0 <= i < SLOTS ==>
              r.slots[i] == if i < Capped(t)
                            then t.slots[i].(core := UpdatedCore(t.side, t.slots[i].core, stats))
                            else t.slots[i]
  {
    t.(slots := seq(SLOTS, i requires 0 <= i < SLOTS =>
                      if i < Capped(t)
                      then t.slots[i].(core := UpdatedCore(t.side, t.slots[i].core, stats))
                      else t.slots[i]))
  }

  /** Sockets a stats tick samples: those of the connected slots it is shown. */
  function MemberSockets(slots: seq<Slot>): seq<int> {
    if slots == [] then []
    else
      var c := Last(slots).core;
      MemberSockets(Front(slots)) + if c.connected && ValidSocket(c.id) then [c.id] else []
  }

  /** The slots a scan of the published prefix visits. */
  function Prefix(t: Table): seq<Slot> {
    t.slots[..Capped(t)]
  }

  predicate HasDisconnected(slots: seq<Slot>) {
    exists i :: 0 <= i < |slots| && slots[i].core.identity != 0 && !Live(slots[i].core)
  }

  // ---- Runs ----

  datatype Op = SaveOp(members: seq<Member>) | ClearOp | MarkOp | CompactOp | TrafficOp(stats: map<int, Stats>)

  function Step(t: Table, op: Op): (r: Table)
    ensures r.side == t.side
  {
    match op
    case SaveOp(members) => Save(t, members)
    case ClearOp => Clear(t)
    case MarkOp => Mark(t)
    case CompactOp => Compact(t)
    case TrafficOp(stats) => Update(t, stats)
  }

  function Run(t: Table, ops: seq<Op>): Table
    decreases |ops|
  {
    if ops == [] then t else Run(Step(t, ops[0]), ops[1..])
  }
}
