/** The stdin repacketizer (src/relay_runtime.cpp:315-323 and 739-753).

    Bytes read from stdin are queued in a buffer whose consumed prefix is skipped
    by an offset and erased lazily; whole chunks are sent from the front until a
    send fails, and a failed chunk stays queued for the next read. */
module Repacketizer {

  const TS_PACKET: nat := 188

  /** Whole transport packets per message when one fits, else the message size. */
  function ChunkSize(maxMessage: nat): (r: nat)
    requires maxMessage > 0
    ensures 0 < r <= maxMessage
    ensures maxMessage >= TS_PACKET ==> r % TS_PACKET == 0 && maxMessage - r < TS_PACKET
    ensures maxMessage < TS_PACKET ==> r == maxMessage
  {
    var aligned := maxMessage / TS_PACKET * TS_PACKET;
    if aligned > 0 then aligned else maxMessage
  }

  // ---- The simple form: a stream, and how many chunks of it were sent ----

  /** The outcomes of one read's send attempts, in order; none succeeds past the end. */
  type Outcomes = seq<bool>

  predicate Succeeds(ok: Outcomes, k: nat) {
    k < |ok| && ok[k]
  }

  predicate AllSucceed(ok: Outcomes, n: nat) {
    n <= |ok| && forall k :: 0 <= k < n ==> ok[k]
  }

  /** Where chunk `i` starts in the stream. */
  function Start(size: nat, i: nat): nat {
    if i == 0 then 0 else Start(size, i - 1) + size
  }

  lemma {:induction false} StartIsProduct(size: nat, i: nat)
    ensures Start(size, i) == size * i
  {
    if i > 0 {
      StartIsProduct(size, i - 1);
      assert size * (i - 1) + size == size * i;
    }
  }

  function Chunk<T>(stream: seq<T>, size: nat, i: nat): seq<T>
    requires Start(size, i + 1) <= |stream|
  {
    stream[Start(size, i)..Start(size, i + 1)]
  }

  /** The first `n` chunks of a stream. */
  function Chunks<T>(stream: seq<T>, size: nat, n: nat): (r: seq<seq<T>>)
    requires Start(size, n) <= |stream|
    ensures |r| == n
  {
    if n == 0 then [] else Chunks(stream, size, n - 1) + [Chunk(stream, size, n - 1)]
  }

  function Flatten<T>(parts: seq<seq<T>>): seq<T> {
    if parts == [] then [] else Flatten(parts[..|parts| - 1]) + parts[|parts| - 1]
  }

  lemma {:induction false} FlattenChunks<T>(stream: seq<T>, size: nat, n: nat)
    requires Start(size, n) <= |stream|
    ensures Flatten(Chunks(stream, size, n)) == stream[..Start(size, n)]
  {
    if n > 0 {
      FlattenChunks(stream, size, n - 1);
      assert Chunks(stream, size, n)[..n - 1] == Chunks(stream, size, n - 1);
      Joined(stream, Start(size, n - 1), Start(size, n));
    }
  }

  lemma Joined<T>(s: seq<T>, a: nat, b: nat)
    requires a <= b <= |s|
    ensures s[..a] + s[a..b] == s[..b]
  {
  }

  lemma {:induction false} ChunksExtend<T>(a: seq<T>, b: seq<T>, size: nat, n: nat)
    requires Start(size, n) <= |a|
    ensures Start(size, n) <= |a + b| && Chunks(a + b, size, n) == Chunks(a, size, n)
  {
    if n > 0 {
      ChunksExtend(a, b, size, n - 1);
      assert Chunk(a + b, size, n - 1) == Chunk(a, size, n - 1);
    }
  }

  /** Every chunk has the same size and starts at a multiple of it in the stream;
      when a message can hold a transport packet, no packet is ever split. */
  lemma {:induction false} ChunkPlaces<T>(stream: seq<T>, maxMessage: nat, n: nat, i: nat)
    requires maxMessage > 0 && Start(ChunkSize(maxMessage), n) <= |stream| && i < n
    ensures var size := ChunkSize(maxMessage);
            && size * i + size <= |stream|
            && Chunks(stream, size, n)[i] == stream[size * i..size * i + size]
            && (maxMessage >= TS_PACKET ==> (size * i) % TS_PACKET == 0 && size % TS_PACKET == 0)
  {
    var size := ChunkSize(maxMessage);
    if i < n - 1 {
      ChunkPlaces(stream, maxMessage, n - 1, i);
    } else {
      StartIsProduct(size, i);
      if maxMessage >= TS_PACKET {
        MultipleOfPacket(size, i);
      }
    }
  }

  lemma {:induction false} MultipleOfPacket(size: nat, i: nat)
    requires size % TS_PACKET == 0
    ensures Start(size, i) % TS_PACKET == 0
  {
    if i > 0 {
      MultipleOfPacket(size, i - 1);
    }
  }

  // ---- The buffer ----

  class Buffer<T> {
    const size: nat
    var pending: seq<T>
    var offset: nat
    /** Everything ever read, chunks ever sent, and bytes moved by erasing. */
    ghost var received: seq<T>
    ghost var sent: nat
    ghost var shifted: nat

    ghost predicate Valid()
      reads this
    {
      && size > 0
      && Start(size, sent) <= |received|
      && offset <= |pending| && pending[offset..] == received[Start(size, sent)..]
      && 2 * offset <= |pending|
      && shifted + offset <= Start(size, sent)
    }

    constructor (size: nat)
      requires size > 0
      ensures Valid() && |pending| == 0 && this.size == size && received == [] && sent == 0 && shifted == 0
    {
      this.size := size;
      pending, offset, received, sent, shifted := [], 0, [], 0, 0;
      new;
      assert Start(size, sent) == 0;
    }

    /** Consumes one sent chunk. */
    method Advance()
      requires Valid() && size <= |pending| - offset
      modifies this
      ensures Valid() && received == old(received) && sent == old(sent) + 1
      ensures |pending| - offset == |received| - Start(size, sent)
    {
      assert pending[offset + size..] == received[Start(size, sent + 1)..];
      sent := sent + 1;
      offset := offset + size;
      if offset == |pending| {
        pending, offset := [], 0;
      } else if offset > |pending| / 2 {
        shifted := shifted + |pending| - offset;
        pending := pending[offset..];
        offset := 0;
      }
    }

    method Queue(data: seq<T>)
      requires Valid()
      modifies this
      ensures Valid() && received == old(received) + data && sent == old(sent)
      ensures Chunks(received, size, sent) == Chunks(old(received), size, sent)
      ensures |pending| - offset == |received| - Start(size, sent)
    {
      ChunksExtend(received, data, size, sent);
      assert (received + data)[Start(size, sent)..] == received[Start(size, sent)..] + data;
      received := received + data;
      pending := pending + data;
    }

    /** One send attempt: the chunk offered is the next of the stream, and it stays
        queued unless the send goes through. */
    method Offer(succeeds: bool) returns (chunk: seq<T>)
      requires Valid() && size <= |pending| - offset
      modifies this
      ensures Valid() && received == old(received) && sent == old(sent) + (if succeeds then 1 else 0)
      ensures |pending| - offset == |received| - Start(size, sent)
      ensures Start(size, old(sent) + 1) <= |received| && chunk == Chunk(received, size, old(sent))
    {
      chunk := pending[offset..offset + size];
      assert chunk == pending[offset..][..size];
      if succeeds {
        Advance();
      }
    }

    /** One read: queue the bytes, then send whole chunks until a send fails or less
        than a chunk is left.  What was delivered is exactly the next chunks of the
        stream, one for each attempt before the first that fails. */
    method Feed(data: seq<T>, ok: Outcomes) returns (delivered: seq<seq<T>>, failed: bool)
      requires Valid()
      modifies this
      ensures Valid() && received == old(received) + data && sent == old(sent) + |delivered|
      ensures Chunks(received, size, sent) == Chunks(old(received), size, old(sent)) + delivered
      ensures AllSucceed(ok, |delivered|) && (failed ==> !Succeeds(ok, |delivered|))
      ensures failed <==> size <= |received| - Start(size, sent)
    {
      Queue(data);
      delivered, failed := [], false;
      ghost var start, stream := sent, received;
      while |pending| - offset >= size && !failed
        invariant Valid() && received == stream && sent == start + |delivered|
        invariant |pending| - offset == |received| - Start(size, sent)
        invariant Start(size, start) <= |stream|
        invariant Chunks(stream, size, sent) == Chunks(stream, size, start) + delivered
        invariant AllSucceed(ok, |delivered|) && (failed ==> !Succeeds(ok, |delivered|))
        invariant failed ==> size <= |pending| - offset
        decreases |pending| - offset, !failed
      {
        var succeeds := Succeeds(ok, |delivered|);
        var chunk := Offer(succeeds);
        if succeeds {
          delivered := delivered + [chunk];
        } else {
          failed := true;
        }
      }
    }
  }

  // ---- A whole run ----

  datatype Read<T> = Read(data: seq<T>, ok: Outcomes)

  function Input<T>(inputs: seq<Read<T>>): seq<T> {
    if inputs == [] then [] else Input(inputs[..|inputs| - 1]) + inputs[|inputs| - 1].data
  }

  /** How many whole chunks `bytes` hold. */
  function Whole(size: nat, bytes: nat): nat
    requires size > 0
    decreases bytes
  {
    if bytes < size then 0 else 1 + Whole(size, bytes - size)
  }

  lemma {:induction false} WholeIs(size: nat, bytes: nat, k: nat)
    requires size > 0
    ensures k <= Whole(size, bytes) <==> Start(size, k) <= bytes
    decreases k
  {
    if k > 0 && bytes >= size {
      WholeIs(size, bytes - size, k - 1);
    } else if k > 0 {
      StartAdds(size, k - 1, 1);
    }
  }

  lemma {:induction false} StartAdds(size: nat, a: nat, b: nat)
    ensures Start(size, a + b) == Start(size, a) + Start(size, b)
  {
    if b > 0 {
      StartAdds(size, a, b - 1);
    }
  }

  /** How many of at most `room` attempts go through before one fails. */
  function GoThrough(ok: Outcomes, room: nat): (r: nat)
    ensures r <= room && AllSucceed(ok, r) && (r < room ==> !Succeeds(ok, r))
  {
    if room == 0 || !Succeeds(ok, 0) then 0 else 1 + GoThrough(ok[1..], room - 1)
  }

  /** Chunks sent by a run, read by read: as many as are whole, up to the first failure. */
  function SentBy<T>(size: nat, inputs: seq<Read<T>>): (r: nat)
    requires size > 0
    ensures Start(size, r) <= |Input(inputs)|
  {
    if inputs == [] then 0
    else
      var n := SentBy(size, inputs[..|inputs| - 1]);
      var room := Whole(size, |Input(inputs)| - Start(size, n));
      var k := GoThrough(inputs[|inputs| - 1].ok, room);
      WholeIs(size, |Input(inputs)| - Start(size, n), k);
      StartAdds(size, n, k);
      n + k
  }

  lemma OneRead<T>(size: nat, seen: seq<Read<T>>, read: Read<T>, n: nat, bytes: nat, k: nat)
    requires size > 0 && n == SentBy(size, seen) && bytes == |Input(seen)| + |read.data|
    requires Start(size, n) <= Start(size, n + k) <= bytes && AllSucceed(read.ok, k)
    requires size <= bytes - Start(size, n + k) ==> !Succeeds(read.ok, k)
    ensures SentBy(size, seen + [read]) == n + k
    ensures Input(seen + [read]) == Input(seen) + read.data
  {
    AttemptsOfOneRead(size, n, bytes, read.ok, k);
    SentByOneMore(size, seen, read);
  }

  lemma SentByOneMore<T>(size: nat, seen: seq<Read<T>>, read: Read<T>)
    requires size > 0
    ensures Input(seen + [read]) == Input(seen) + read.data && Start(size, SentBy(size, seen)) <= |Input(seen)|
    ensures SentBy(size, seen + [read]) == SentBy(size, seen) +
              GoThrough(read.ok, Whole(size, |Input(seen)| + |read.data| - Start(size, SentBy(size, seen))))
  {
    var all := seen + [read];
    assert all[..|all| - 1] == seen;
  }

  lemma AttemptsOfOneRead(size: nat, n: nat, bytes: nat, ok: Outcomes, k: nat)
    requires size > 0 && Start(size, n) <= Start(size, n + k) <= bytes && AllSucceed(ok, k)
    requires size <= bytes - Start(size, n + k) ==> !Succeeds(ok, k)
    ensures k == GoThrough(ok, Whole(size, bytes - Start(size, n)))
  {
    StartAdds(size, n, k);
    StartAdds(size, n, k + 1);
    WholeIs(size, bytes - Start(size, n), k);
    WholeIs(size, bytes - Start(size, n), k + 1);
  }

  /** Where the buffer and the output stand after the reads `seen`. */
  ghost predicate Relayed<T>(b: Buffer<T>, seen: seq<Read<T>>, delivered: seq<seq<T>>, stalled: bool)
    reads b
  {
    && b.Valid() && b.received == Input(seen)
    && b.sent == |delivered| == SentBy(b.size, seen)
    && delivered == Chunks(b.received, b.size, b.sent)
    && (stalled <==> |b.received| - Start(b.size, b.sent) >= b.size)
  }

  method RelayRead<T>(b: Buffer<T>, ghost seen: seq<Read<T>>, read: Read<T>, sofar: seq<seq<T>>, ghost before: bool)
    returns (delivered: seq<seq<T>>, stalled: bool)
    requires Relayed(b, seen, sofar, before)
    modifies b
    ensures Relayed(b, seen + [read], delivered, stalled)
  {
    var more;
    more, stalled := b.Feed(read.data, read.ok);
    StartAdds(b.size, |sofar|, |more|);
    OneRead(b.size, seen, read, |sofar|, |b.received|, |more|);
    delivered := sofar + more;
  }

  /** Any run of reads and send outcomes: the chunks delivered, followed by the
      bytes still queued, are exactly the bytes read; a failed send neither loses
      nor repeats a byte.  The chunks delivered are as many as the outcomes allow, and
      a whole chunk stays queued exactly if the last read ended on a failed send.  The buffer never holds more than twice its live bytes, and
      erasing has never moved more bytes than were delivered. */
  method Relay<T>(maxMessage: nat, inputs: seq<Read<T>>)
    returns (delivered: seq<seq<T>>, queued: seq<T>, capacity: nat, stalled: bool, ghost moved: nat)
    requires maxMessage > 0
    ensures Flatten(delivered) + queued == Input(inputs)
    ensures Start(ChunkSize(maxMessage), |delivered|) <= |Input(inputs)|
    ensures delivered == Chunks(Input(inputs), ChunkSize(maxMessage), |delivered|)
    ensures |delivered| == SentBy(ChunkSize(maxMessage), inputs)
    ensures stalled <==> |queued| >= ChunkSize(maxMessage)
    ensures capacity <= 2 * |queued|
    ensures moved <= |Flatten(delivered)|
  {
    var b := new Buffer<T>(ChunkSize(maxMessage));
    delivered, stalled := [], false;
    for i := 0 to |inputs|
      invariant fresh(b) && b.size == ChunkSize(maxMessage) && Relayed(b, inputs[..i], delivered, stalled)
    {
      delivered, stalled := RelayRead(b, inputs[..i], inputs[i], delivered, stalled);
      assert inputs[..i + 1] == inputs[..i] + [inputs[i]];
    }
    assert inputs[..|inputs|] == inputs;
    FlattenChunks(b.received, b.size, b.sent);
    queued, capacity, moved := b.pending[b.offset..], |b.pending|, b.shifted;
  }
}
