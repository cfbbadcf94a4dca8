/** The layer-2 helper's pump: QEMU's length-prefixed stream to BPF, and BPF captures to the stream.

    The operating system is scripted: a socket or BPF device holds the list of answers it will give to the reads and
    writes made on it, so a property proved for every script holds for every chunking, short write and failure. */
module FramePump {
  import opened Wire

  const BATCH_SIZE: nat := 65536
  const VECTOR_FRAMES: nat := 64

  datatype Event = Interrupted | Again | Refused | Ready(bytes: seq<Byte>) | Takes(limit: nat)

  /** The result of one system call. */
  datatype Io = Done(n: nat) | Eintr | Eagain | Error

  /** The result of one pump call: go on, the client closed the stream, the stream is unusable, the helper exited. */
  datatype Status = Continue | Closed | Broken | Died

  // ---- Scatter lists ----

  /** One struct iovec: `len` bytes of `source` from `base`. */
  datatype IoVec = IoVec(source: array<Byte>, base: nat, len: nat)

  ghost predicate InBounds(v: seq<IoVec>) {
    forall i :: 0 <= i < |v| ==> v[i].base + v[i].len <= v[i].source.Length
  }

  ghost function Bytes(v: IoVec): (b: seq<Byte>)
    requires v.base + v.len <= v.source.Length
    reads v.source
    ensures |b| == v.len
  {
    v.source[v.base..v.base + v.len]
  }

  ghost function Gather(v: seq<IoVec>): (bytes: seq<Byte>)
    requires InBounds(v)
    reads set i | 0 <= i < |v| :: v[i].source
  {
    if v == [] then [] else Bytes(v[0]) + Gather(v[1..])
  }

  lemma GatherFirst(v: seq<IoVec>)
    requires InBounds(v) && v != []
    ensures Gather(v) == Bytes(v[0]) + Gather(v[1..])
  {
  }

  lemma {:induction false} GatherAppend(a: seq<IoVec>, b: seq<IoVec>)
    requires InBounds(a) && InBounds(b)
    ensures InBounds(a + b) && Gather(a + b) == Gather(a) + Gather(b)
  {
    if a == [] {
      assert a + b == b;
    } else {
      hide Gather, Bytes;
      var all, rest := a + b, a[1..];
      assert all[0] == a[0] && all[1..] == rest + b;
      GatherAppend(rest, b);
      GatherFirst(all);
      GatherFirst(a);
      Associative(Bytes(a[0]), Gather(rest), Gather(b));
    }
  }

  lemma GatherOne(v: IoVec)
    requires v.base + v.len <= v.source.Length
    ensures InBounds([v]) && Gather([v]) == Bytes(v)
  {
  }

  lemma GatherNone(v: seq<IoVec>)
    requires v == []
    ensures Gather(v) == []
  {
  }

  lemma GatherStep(v: seq<IoVec>, k: nat)
    requires InBounds(v) && k < |v|
    ensures Gather(v[k..]) == Bytes(v[k]) + Gather(v[k + 1..])
  {
    assert v[k..][1..] == v[k + 1..];
  }

  /** A list whose first entry starts `n` bytes later. */
  lemma GatherAdvanced(list: seq<IoVec>, now: seq<IoVec>, n: nat)
    requires InBounds(list) && list != [] && n < list[0].len
    requires now == [IoVec(list[0].source, list[0].base + n, list[0].len - n)] + list[1..]
    ensures InBounds(now) && n <= |Gather(list)| && Gather(now) == Gather(list)[n..]
  {
    hide Gather;
    assert now[1..] == list[1..];
    GatherFirst(list);
    GatherFirst(now);
    DropFront(Bytes(list[0]), Gather(list[1..]), n);
    assert Bytes(now[0]) == Bytes(list[0])[n..];
  }

  method CopyInto(dst: array<Byte>, at: nat, data: seq<Byte>)
    requires at + |data| <= dst.Length
    modifies dst
    ensures dst[..at + |data|] == old(dst[..at]) + data
    ensures dst[..at] == old(dst[..at]) && dst[at..at + |data|] == data
  {
    forall i | 0 <= i < |data| {
      dst[at + i] := data[i];
    }
  }

  // ---- The two devices ----

  /** The bytes that one read of at most `limit` bytes takes of what is on offer. */
  function Taken(events: seq<Event>, limit: nat): (bytes: seq<Byte>) {
    if events == [] || !events[0].Ready? then []
    else if |events[0].bytes| <= limit then events[0].bytes
    else events[0].bytes[..limit]
  }

  /** What is on offer after that read. */
  function After(events: seq<Event>, limit: nat): (rest: seq<Event>) {
    if events == [] then []
    else if events[0].Ready? && |events[0].bytes| > limit then [Ready(events[0].bytes[limit..])] + events[1..]
    else events[1..]
  }

  /** All bytes on offer. */
  function Offered(events: seq<Event>): (bytes: seq<Byte>) {
    if events == [] then []
    else (if events[0].Ready? then events[0].bytes else []) + Offered(events[1..])
  }

  /** A read loses nothing. */
  lemma TakenAndAfter(events: seq<Event>, limit: nat)
    ensures Taken(events, limit) + Offered(After(events, limit)) == Offered(events)
  {
    if events != [] && events[0].Ready? && |events[0].bytes| > limit {
      var bytes, after := events[0].bytes, After(events, limit);
      assert after[0] == Ready(bytes[limit..]) && after[1..] == events[1..];
      Associative(bytes[..limit], bytes[limit..], Offered(events[1..]));
      assert bytes[..limit] + bytes[limit..] == bytes;
    }
  }

  /** Whether every chunk fits into one read, whatever part of a frame is waiting. */
  predicate Fits(events: seq<Event>) {
    forall i :: 0 <= i < |events| && events[i].Ready? ==> |events[i].bytes| <= BATCH_SIZE - MAX_PARTIAL
  }

  lemma {:induction false} OfferedNext(events: seq<Event>, k: nat)
    requires k < |events|
    ensures Offered(events[..k + 1]) == Offered(events[..k]) + (if events[k].Ready? then events[k].bytes else [])
    decreases k
  {
    if k == 0 {
      assert events[..1][1..] == [] && events[..0] == [];
    } else {
      OfferedNext(events[1..], k - 1);
      assert events[..k + 1][1..] == events[1..][..k] && events[..k][1..] == events[1..][..k - 1];
      var first := if events[0].Ready? then events[0].bytes else [];
      Associative(first, Offered(events[1..][..k - 1]), if events[k].Ready? then events[k].bytes else []);
    }
  }

  class Client {
    var toRead: seq<Event>
    var toWrite: seq<Event>
    ghost var delivered: seq<Byte>
    ghost var written: seq<Byte>
    /** A write was refused or took nothing. */
    ghost var refused: bool
    /** A read failed. */
    ghost var failed: bool
    /** A read found the end of the stream. */
    ghost var ended: bool

    constructor (toRead: seq<Event>, toWrite: seq<Event>)
      ensures delivered == [] && written == [] && !refused && !failed && !ended
    {
      this.toRead, this.toWrite := toRead, toWrite;
      delivered, written, refused, failed, ended := [], [], false, false, false;
    }

    /** read(2): some of what has arrived, at most `limit` bytes; nothing at end of file. */
    method Read(buffer: array<Byte>, start: nat, limit: nat) returns (io: Io)
      requires start + limit <= buffer.Length
      requires 0 < limit
      modifies this, buffer
      ensures toRead == After(old(toRead), limit) && delivered == old(delivered) + Taken(old(toRead), limit)
      ensures io == Eintr ==> old(toRead) != []
      ensures io.Done? && io.n > 0 ==> old(toRead) != []
      ensures buffer[..start] == old(buffer[..start])
      ensures written == old(written) && toWrite == old(toWrite) && refused == old(refused)
      ensures io.Done? ==> io.n <= limit && delivered == old(delivered) + buffer[start..start + io.n]
      ensures !io.Done? ==> delivered == old(delivered) && io != Eagain
      ensures failed == (old(failed) || io == Error) && ended == (old(ended) || io == Done(0))
    {
      if toRead == [] {
        io, ended := Done(0), true;
      } else {
        var event := toRead[0];
        toRead := After(toRead, limit);
        match event {
          case Interrupted => io := Eintr;
          case Ready(bytes) =>
            var data := if |bytes| <= limit then bytes else bytes[..limit];
            CopyInto(buffer, start, data);
            delivered := delivered + data;
            io, ended := Done(|data|), ended || data == [];
          case _ => io, failed := Error, true;
        }
      }
    }

    /** writev(2): a prefix of the gathered bytes. */
    method Writev(vectors: array<IoVec>, first: nat, count: nat) returns (io: Io)
      requires first < count <= vectors.Length
      requires InBounds(vectors[first..count])
      modifies this
      ensures delivered == old(delivered) && toRead == old(toRead) && failed == old(failed) && ended == old(ended)
      ensures refused == (old(refused) || !(io == Eintr || (io.Done? && io.n > 0)))
      ensures |toWrite| <= |old(toWrite)|
      ensures io == Eintr || io.Done? ==> |toWrite| < |old(toWrite)|
      ensures
        var all := Gather(vectors[first..count]);
        if io.Done? then io.n <= |all| && written == old(written) + all[..io.n] else written == old(written)
    {
      hide Gather;
      if toWrite == [] {
        io, refused := Error, true;
        return;
      }
      var event := toWrite[0];
      toWrite := toWrite[1..];
      match event {
        case Interrupted => io := Eintr;
        case Takes(limit) =>
          var all := Copied(vectors[first..count]);
          var n := if limit <= |all| then limit else |all|;
          written := written + all[..n];
          refused := refused || n == 0;
          io := Done(n);
        case _ => io, refused := Error, true;
      }
    }
  }

  method Copied(vectors: seq<IoVec>) returns (all: seq<Byte>)
    requires InBounds(vectors)
    ensures all == Gather(vectors)
  {
    all := [];
    GatherNone(vectors[..0]);
    hide Gather;
    for i := 0 to |vectors|
      invariant InBounds(vectors[..i]) && all == Gather(vectors[..i])
    {
      var v := vectors[i];
      assert vectors[..i + 1] == vectors[..i] + [v];
      GatherAppend(vectors[..i], [v]);
      GatherOne(v);
      all := all + v.source[v.base..v.base + v.len];
    }
    assert vectors[..|vectors|] == vectors;
  }

  class Port {
    const buffer: array<Byte>
    const batching: bool
    var toRead: seq<Event>
    var toWrite: seq<Event>
    /** Every frame put on the wire, and every frame the captures read so far hold. */
    ghost var sent: seq<Frame>
    ghost var captured: seq<Frame>
    ghost var last: seq<Byte>
    /** A write was refused or cut short, or a read failed. */
    ghost var failed: bool

    constructor (size: nat, batching: bool, toRead: seq<Event>, toWrite: seq<Event>)
      requires 0 < size
      ensures this.batching == batching && buffer.Length == size && fresh(buffer)
      ensures sent == [] && captured == [] && !failed
    {
      buffer := new Byte[size](i => 0);
      this.batching := batching;
      this.toRead, this.toWrite := toRead, toWrite;
      sent, captured, last, failed := [], [], [], false;
    }

    /** What the kernel makes of one write: every record in it when batching, one raw frame otherwise. */
    ghost function Frames(data: seq<Byte>): (frames: seq<Frame>) {
      if batching then Capture(data).frames else [data]
    }

    method Write(data: array<Byte>, start: nat, length: nat) returns (io: Io)
      requires start + length <= data.Length
      modifies this
      ensures captured == old(captured) && toRead == old(toRead) && last == old(last)
      ensures |toWrite| <= |old(toWrite)|
      ensures io == Eintr ==> sent == old(sent) && |toWrite| < |old(toWrite)|
      ensures io == Done(length) ==> sent == old(sent) + Frames(data[start..start + length])
      ensures old(sent) <= sent <= old(sent) + Frames(data[start..start + length])
      ensures failed == (old(failed) || !(io == Eintr || io == Done(length)))
    {
      if toWrite == [] {
        io, failed := Error, true;
        return;
      }
      var event := toWrite[0];
      toWrite := toWrite[1..];
      match event {
        case Interrupted => io := Eintr;
        case Takes(limit) =>
          if limit >= length {
            sent := sent + Frames(data[start..start + length]);
            io := Done(length);
          } else {
            io, failed := Done(limit), true;
          }
        case _ => io, failed := Error, true;
      }
    }

    /** read(2) on a BPF device: one capture buffer. */
    method Read() returns (io: Io)
      requires 0 < buffer.Length
      modifies this, buffer
      ensures sent == old(sent) && toWrite == old(toWrite)
      ensures toRead == (if old(toRead) == [] then [] else old(toRead)[1..])
      ensures captured == old(captured) + FramesTaken(old(toRead), buffer.Length)
      ensures io.Done? ==>
        && io.n <= buffer.Length
        && last == buffer[..io.n]
        && captured == old(captured) + Capture(last).frames
      ensures !io.Done? ==> captured == old(captured) && last == old(last)
      ensures failed == (old(failed) || io == Error || io == Done(0))
    {
      if toRead == [] {
        io := Eagain;
        return;
      }
      var event := toRead[0];
      toRead := toRead[1..];
      match event {
        case Interrupted => io := Eintr;
        case Again => io := Eagain;
        case Ready(bytes) =>
          var data := if |bytes| <= buffer.Length then bytes else bytes[..buffer.Length];
          CopyInto(buffer, 0, data);
          last := data;
          captured := captured + Capture(data).frames;
          failed := failed || data == [];
          io := Done(|data|);
        case _ => io, failed := Error, true;
      }
    }
  }

  /** The frames of the capture that one read of a BPF device takes of what is on offer. */
  function FramesTaken(events: seq<Event>, size: nat): (frames: seq<Frame>) {
    if events == [] || !events[0].Ready? then [] else Capture(Taken(events, size)).frames
  }

  /** The frames of all captures on offer, one read each. */
  function FramesOffered(events: seq<Event>, size: nat): (frames: seq<Frame>) {
    if events == [] then []
    else FramesOffered(events[..|events| - 1], size) + FramesTaken(events[|events| - 1..], size)
  }

  // ---- Facts about packed records ----

  lemma {:induction false} CaptureOfRecords(fs: seq<Frame>)
    requires ValidFrames(fs)
    ensures Capture(EncodeRecords(fs)) == Captured(fs, true)
  {
    CaptureEncoded(fs, []);
    assert EncodeRecords(fs) + [] == EncodeRecords(fs);
    assert fs + [] == fs;
  }

  // ---- The pump ----

  class Pump {
    const stream: array<Byte>
    const injection: array<Byte>
    const batchEnabled: bool
    var used: nat
    var injected: nat
    var captured: nat

    constructor (batchEnabled: bool)
      ensures Valid() && used == 0 && injected == 0 && captured == 0
      ensures this.batchEnabled == batchEnabled && fresh(stream) && fresh(injection)
    {
      stream := new Byte[BATCH_SIZE](i => 0);
      injection := new Byte[BATCH_SIZE](i => 0);
      this.batchEnabled := batchEnabled;
      used, injected, captured := 0, 0, 0;
    }

    ghost predicate Valid()
      reads this
    {
      && stream.Length == BATCH_SIZE
      && injection.Length == BATCH_SIZE
      && stream != injection
      && used <= MAX_PARTIAL
    }

    ghost predicate Separate(port: Port, client: Client) {
      && 0 < port.buffer.Length
      && port.buffer != stream
      && port.buffer != injection
      && port.batching == batchEnabled
    }

    /** After any number of reads, of any sizes, the frames on the wire are the frames of everything received,
        and the buffer holds exactly the bytes behind them. */
    ghost predicate Injected(port: Port, client: Client)
      requires Valid()
      reads this, stream, port, client
    {
      var p := Parse(client.delivered);
      && !p.malformed
      && port.sent == p.frames
      && stream[..used] == p.rest
      && injected == |port.sent|
    }

    /** Every frame captured so far is on the stream behind its length, and nothing else is. */
    ghost predicate Forwarded(port: Port, client: Client)
      reads this, port, client
    {
      && ValidFrames(port.captured)
      && client.written == EncodeStream(port.captured)
      && captured == |port.captured|
    }

    /** The write loop: repeat while the call is interrupted. */
    method WriteAll(port: Port, start: nat, length: nat) returns (io: Io)
      requires start + length <= injection.Length
      modifies port
      ensures port.captured == old(port.captured) && port.last == old(port.last) && port.toRead == old(port.toRead)
      ensures io != Eintr
      ensures port.failed == (old(port.failed) || io != Done(length))
      ensures
        var more := port.Frames(injection[start..start + length]);
        && old(port.sent) <= port.sent <= old(port.sent) + more
        && (io == Done(length) ==> port.sent == old(port.sent) + more)
    {
      io := port.Write(injection, start, length);
      while io == Eintr
        invariant port.captured == old(port.captured) && port.last == old(port.last) && port.toRead == old(port.toRead)
        invariant io == Eintr ==> port.sent == old(port.sent)
        invariant port.failed == (old(port.failed) || !(io == Eintr || io == Done(length)))
        invariant
          var more := port.Frames(injection[start..start + length]);
          && old(port.sent) <= port.sent <= old(port.sent) + more
          && (io == Done(length) ==> port.sent == old(port.sent) + more)
        decreases |port.toWrite|, io == Eintr
      {
        io := port.Write(injection, start, length);
      }
    }

    /** Move what the client sent onto the wire, frame by frame as frames are completed. */
    method StreamToBpf(port: Port, client: Client) returns (status: Status)
      requires Valid() && Separate(port, client) && Injected(port, client)
      modifies this`used, this`injected, stream, injection, port, client
      ensures captured == old(captured)
      ensures client.written == old(client.written) && port.captured == old(port.captured)
      ensures client.refused == old(client.refused)
      ensures client.toWrite == old(client.toWrite) && port.toRead == old(port.toRead)
      ensures client.delivered == old(client.delivered) + Taken(old(client.toRead), BATCH_SIZE - old(used))
      ensures client.toRead == After(old(client.toRead), BATCH_SIZE - old(used))
      ensures status == Continue ==> old(client.toRead) != []
      ensures old(client.delivered) <= client.delivered
      ensures status == Continue ==> Valid() && Injected(port, client)
      ensures status == Closed ==>
        Valid() && Injected(port, client) && used == 0 && client.delivered == old(client.delivered) && client.ended
      ensures status == Broken ==>
        var p := Parse(client.delivered);
        p.malformed || (p.rest != [] && client.delivered == old(client.delivered) && client.ended)
      ensures status == Died ==> client.failed || port.failed
      ensures status != Died ==> client.failed == old(client.failed) && port.failed == old(port.failed)
      ensures status == Continue ==> client.ended == old(client.ended)
      ensures Parse(client.delivered).malformed ==> status == Broken || status == Died
      ensures port.sent <= Parse(client.delivered).frames
    {
      hide FromBigEndian32;
      ghost var before := client.delivered;
      ghost var waiting := stream[..used];
      var io := client.Read(stream, used, BATCH_SIZE - used);
      if io == Eintr {
        return Continue;
      }
      if !io.Done? {
        return Died;
      }
      if io.n == 0 {
        assert client.delivered == before;
        return if used > 0 then Broken else Closed;
      }
      ghost var arrived := stream[used..used + io.n];
      ParseResumes(before, arrived);
      used := used + io.n;
      assert stream[..used] == waiting + arrived;
      assert Follows(Parse(client.delivered), Parse(before).frames, stream[..used]);
      status := ParseBuffer(port, Parse(before).frames, Parse(client.delivered));
      if status == Continue {
        ParseRestIsShort(client.delivered);
      }
    }

    /** The frame loop: pack each complete frame, flushing the records when the next one would not fit. */
    method ParseBuffer(port: Port, ghost earlier: seq<Frame>, ghost total: Parsed) returns (status: Status)
      requires stream.Length == injection.Length == BATCH_SIZE && stream != injection && used <= BATCH_SIZE
      requires port.batching == batchEnabled
      requires port.sent == earlier && injected == |earlier|
      requires Follows(total, earlier, stream[..used])
      modifies this`used, this`injected, stream, injection, port
      ensures port.captured == old(port.captured) && port.toRead == old(port.toRead)
      ensures status != Closed
      ensures status == Continue ==>
        !total.malformed && port.sent == total.frames && used <= old(used) && stream[..used] == total.rest && injected == |port.sent|
      ensures status == Broken ==> total.malformed
      ensures total.malformed ==> status == Broken || status == Died
      ensures status == Died ==> port.failed
      ensures status != Died ==> port.failed == old(port.failed)
      ensures port.sent <= total.frames
    {
      hide Parse, FromBigEndian32, Follows, Record, WordAlign;
      var offset: nat, batch: nat, packets: nat := 0, 0, 0;
      ghost var packed: seq<Frame> := [];
      assert earlier + packed == earlier;
      while used - offset >= 4
        invariant offset <= used && used == old(used)
        invariant port.captured == old(port.captured) && port.toRead == old(port.toRead) && port.failed == old(port.failed)
        invariant ValidFrames(packed) && packets == |packed|
        invariant batch <= BATCH_SIZE && injection[..batch] == EncodeRecords(packed)
        invariant injected == |port.sent|
        invariant Follows(total, port.sent + packed, stream[offset..used])
        decreases used - offset
      {
        ghost var tail := stream[offset..used];
        var length := LengthAt(offset);
        if length < MIN_FRAME || length > MAX_FRAME {
          StopsAtBadLength(total, port.sent + packed, tail);
          return Broken;
        }
        if used - offset < length + 4 {
          break;
        }
        var record := RecordSize(length);
        if batch + record > BATCH_SIZE {
          var died := Flush(port, batch, packets, packed, total, tail);
          if died {
            return Died;
          }
          packed, batch, packets := [], 0, 0;
        }
        TakesFrame(total, port.sent + packed, tail, length);
        Associative(port.sent, packed, [tail[4..length + 4]]);
        Pack(offset, length, batch, packed);
        packed := packed + [tail[4..length + 4]];
        batch := batch + record;
        packets := packets + 1;
        offset := offset + length + 4;
        assert stream[offset..used] == tail[length + 4..];
      }
      var left := stream[offset..used];
      StopsAtPartialFrame(total, port.sent + packed, left);
      var died := Flush(port, batch, packets, packed, total, left);
      if died {
        return Died;
      }
      used := used - offset;
      if used > 0 {
        CopyInto(stream, 0, left);
      }
      status := Continue;
    }

    method Flush(port: Port, length: nat, packets: nat, ghost fs: seq<Frame>, ghost total: Parsed, ghost tail: seq<Byte>)
      returns (died: bool)
      requires injection.Length == BATCH_SIZE && length <= BATCH_SIZE && port.batching == batchEnabled
      requires ValidFrames(fs) && packets == |fs| && injection[..length] == EncodeRecords(fs)
      requires injected == |port.sent| && Follows(total, port.sent + fs, tail)
      modifies this`injected, port
      ensures port.captured == old(port.captured) && port.last == old(port.last) && port.toRead == old(port.toRead)
      ensures port.failed == (old(port.failed) || died)
      ensures port.sent <= total.frames
      ensures !died ==> port.sent == port.sent + [] == old(port.sent) + fs && injected == |port.sent|
    {
      ghost var all := port.sent + fs;
      FollowsIsPrefix(total, all, tail);
      died := Inject(port, length, packets, fs);
      assert port.sent == total.frames[..|port.sent|];
    }

    method LengthAt(offset: nat) returns (length: nat)
      requires offset + 4 <= used <= stream.Length
      ensures length == FromBigEndian32(stream[offset..used][..4])
    {
      assert stream[offset..offset + 4] == stream[offset..used][..4];
      length := FromBigEndian32(stream[offset..offset + 4]);
    }

    /** Append the record of the frame behind the length at `offset` to the packed records. */
    method Pack(offset: nat, length: nat, batch: nat, ghost packed: seq<Frame>)
      requires stream.Length == injection.Length == BATCH_SIZE && stream != injection && used <= BATCH_SIZE
      requires offset + 4 + length <= used && MIN_FRAME <= length <= MAX_FRAME
      requires batch + RecordSize(length) <= BATCH_SIZE
      requires ValidFrames(packed) && injection[..batch] == EncodeRecords(packed)
      modifies injection
      ensures
        var now := packed + [stream[offset..used][4..length + 4]];
        ValidFrames(now) && injection[..batch + RecordSize(length)] == EncodeRecords(now)
    {
      hide EncodeRecords, RecordSize;
      SubSlice(stream[..], offset, used, 4, length + 4);
      PackFrame(stream[offset + 4..offset + 4 + length], batch, packed);
    }

    method PackFrame(f: seq<Byte>, batch: nat, ghost packed: seq<Frame>)
      requires injection.Length == BATCH_SIZE && ValidFrame(f) && batch + RecordSize(|f|) <= BATCH_SIZE
      requires ValidFrames(packed) && injection[..batch] == EncodeRecords(packed)
      modifies injection
      ensures ValidFrames(packed + [f])
      ensures injection[..batch + RecordSize(|f|)] == EncodeRecords(packed + [f])
    {
      hide EncodeRecords, HeaderBytes, Record, RecordSize, Zeros;
      var header, pad := HeaderBytes(|f|), Zeros(RecordSize(|f|) - HEADER - |f|);
      ghost var e := EncodeRecords(packed);
      CopyInto(injection, batch, header);
      CopyInto(injection, batch + HEADER, f);
      CopyInto(injection, batch + HEADER + |f|, pad);
      EncodeRecordsPush(packed, f);
      RecordParts(f);
      Associative(e, header, f);
      Associative(e, header + f, pad);
    }

    /** Put the packed records on the wire, in one write or one write for each frame. */
    method Inject(port: Port, length: nat, packets: nat, ghost fs: seq<Frame>) returns (died: bool)
      requires length <= injection.Length && port.batching == batchEnabled
      requires ValidFrames(fs) && packets == |fs| && injection[..length] == EncodeRecords(fs)
      modifies this`injected, port
      ensures port.captured == old(port.captured) && port.last == old(port.last) && port.toRead == old(port.toRead)
      ensures old(port.sent) <= port.sent <= old(port.sent) + fs
      ensures !died ==> port.sent == old(port.sent) + fs && injected == old(injected) + |fs|
      ensures port.failed == (old(port.failed) || died)
    {
      hide Record, Capture;
      if length == 0 {
        RecordsNonEmpty(fs);
        assert old(port.sent) + fs == old(port.sent);
        return false;
      }
      if batchEnabled {
        CaptureOfRecords(fs);
        assert injection[0..0 + length] == EncodeRecords(fs);
        var io := WriteAll(port, 0, length);
        if io != Done(length) {
          return true;
        }
      } else {
        died := InjectEach(port, length, fs);
        if died {
          return;
        }
      }
      injected := injected + packets;
      died := false;
    }

    /** The per-frame fallback walks the packed records by their headers. */
    method InjectEach(port: Port, length: nat, ghost fs: seq<Frame>) returns (died: bool)
      requires length <= injection.Length && !port.batching
      requires ValidFrames(fs) && injection[..length] == EncodeRecords(fs)
      modifies port
      ensures port.captured == old(port.captured) && port.last == old(port.last) && port.toRead == old(port.toRead)
      ensures old(port.sent) <= port.sent <= old(port.sent) + fs
      ensures !died ==> port.sent == old(port.sent) + fs
      ensures port.failed == (old(port.failed) || died)
    {
      hide EncodeRecords, Record, WordAlign;
      ghost var done, rest := [], fs;
      var offset := 0;
      while offset < length
        invariant port.captured == old(port.captured) && port.last == old(port.last) && port.toRead == old(port.toRead)
        invariant offset <= length && ValidFrames(rest) && fs == done + rest
        invariant injection[offset..length] == EncodeRecords(rest)
        invariant port.sent == old(port.sent) + done && port.failed == old(port.failed)
        decreases length - offset
      {
        var hdrlen, caplen := ReadHeader(offset, length, rest);
        var io := WriteAll(port, offset + hdrlen, caplen);
        OneMore(old(port.sent), done, rest, port.sent);
        if io != Done(caplen) {
          return true;
        }
        offset := offset + WordAlign(hdrlen + caplen);
        done, rest := done + [rest[0]], rest[1..];
      }
      RecordsNonEmpty(rest);
      died := false;
    }

    /** Copy the header of the record at `offset` out of the injection buffer. */
    method ReadHeader(offset: nat, length: nat, ghost fs: seq<Frame>) returns (hdrlen: nat, caplen: nat)
      requires offset < length <= injection.Length
      requires ValidFrames(fs) && injection[offset..length] == EncodeRecords(fs)
      ensures fs != [] && ValidFrames(fs[1..]) && hdrlen == HEADER && caplen == |fs[0]|
      ensures offset + WordAlign(hdrlen + caplen) <= length
      ensures injection[offset + hdrlen..offset + hdrlen + caplen] == fs[0]
      ensures injection[offset + WordAlign(hdrlen + caplen)..length] == EncodeRecords(fs[1..])
    {
      hide EncodeRecords, HeaderAt;
      ghost var all := injection[..];
      ghost var b := all[offset..length];
      assert b == injection[offset..length];
      FirstRecord(b, fs);
      SubSlice(all, offset, length, 0, MINIMUM);
      SubSlice(all, offset, length, HEADER, HEADER + |fs[0]|);
      SubSlice(all, offset, length, RecordSize(|fs[0]|), |b|);
      var h := HeaderAt(injection[offset..offset + MINIMUM]);
      hdrlen, caplen := h.hdrlen, h.caplen;
    }

    // ---- Captures to the stream ----

    /** Write a whole scatter list, however few bytes each writev takes. */
    method WritevAll(client: Client, vectors: array<IoVec>, count: nat) returns (failed: bool)
      requires count <= vectors.Length && InBounds(vectors[..count])
      modifies client, vectors
      ensures client.delivered == old(client.delivered) && client.toRead == old(client.toRead)
      ensures old(client.written) <= client.written <= old(client.written) + old(Gather(vectors[..count]))
      ensures !failed ==> client.written == old(client.written) + old(Gather(vectors[..count]))
      ensures client.refused == (old(client.refused) || failed) && client.failed == old(client.failed) && client.ended == old(client.ended)
    {
      hide Gather, Bytes;
      ghost var all := Gather(vectors[..count]);
      ghost var gone: nat := 0;
      var first := 0;
      while first < count
        invariant client.delivered == old(client.delivered) && client.toRead == old(client.toRead)
        invariant first <= count && InBounds(vectors[first..count])
        invariant gone <= |all| && client.written == old(client.written) + all[..gone]
        invariant Gather(vectors[first..count]) == all[gone..]
        invariant client.refused == old(client.refused) && client.failed == old(client.failed) && client.ended == old(client.ended)
        decreases |client.toWrite|
      {
        var io := client.Writev(vectors, first, count);
        if io == Eintr {
          continue;
        }
        if !io.Done? || io.n == 0 {
          return true;
        }
        SplitAt(all, gone, io.n);
        gone := gone + io.n;
        first := Consume(vectors, first, count, io.n);
      }
      GatherNone(vectors[first..count]);
      failed := false;
    }

    /** Drop the first `n` bytes of the list: whole vectors, then the front of the next one. */
    method Consume(vectors: array<IoVec>, start: nat, count: nat, n: nat) returns (first: nat)
      requires start < count <= vectors.Length && InBounds(vectors[start..count])
      requires n <= |Gather(vectors[start..count])|
      modifies vectors
      ensures start <= first <= count && InBounds(vectors[first..count])
      ensures Gather(vectors[first..count]) == old(Gather(vectors[start..count]))[n..]
    {
      hide Gather, Bytes;
      ghost var list := vectors[start..count];
      first := start;
      var remaining: nat := n;
      while first < count && remaining >= vectors[first].len
        invariant start <= first <= count && vectors[start..count] == list
        invariant InBounds(list[first - start..]) && remaining <= |Gather(list[first - start..])|
        invariant Gather(list[first - start..])[remaining..] == Gather(list)[n..]
      {
        var k := first - start;
        assert vectors[first] == list[k];
        GatherStep(list, k);
        DropFront(Bytes(list[k]), Gather(list[k + 1..]), remaining);
        remaining := remaining - vectors[first].len;
        first := first + 1;
      }
      assert vectors[first..count] == list[first - start..];
      if first < count && remaining > 0 {
        Advance(vectors, first, count, remaining);
      } else if first == count {
        GatherNone(list[first - start..]);
      }
    }

    /** Move the start of vectors[first] past its first `n` bytes. */
    method Advance(vectors: array<IoVec>, first: nat, count: nat, n: nat)
      requires first < count <= vectors.Length && InBounds(vectors[first..count]) && n < vectors[first].len
      modifies vectors
      ensures InBounds(vectors[first..count])
      ensures n <= |old(Gather(vectors[first..count]))|
      ensures Gather(vectors[first..count]) == old(Gather(vectors[first..count]))[n..]
    {
      hide Gather;
      ghost var list := vectors[first..count];
      var v := vectors[first];
      ghost var now := [IoVec(v.source, v.base + n, v.len - n)] + list[1..];
      GatherAdvanced(list, now, n);
      vectors[first] := IoVec(v.source, v.base + n, v.len - n);
      assert vectors[first..count] == now;
    }

    /** Read one capture buffer and put its frames on the stream, up to 64 in each write. */
    method BpfToStream(port: Port, client: Client) returns (status: Status)
      requires 0 < port.buffer.Length && Forwarded(port, client)
      modifies this`captured, port, port.buffer, client
      ensures port.sent == old(port.sent) && port.toWrite == old(port.toWrite)
      ensures client.delivered == old(client.delivered) && client.toRead == old(client.toRead)
      ensures status != Closed
      ensures status == Continue ==> Forwarded(port, client)
      ensures status == Continue && port.captured != old(port.captured) ==> Capture(port.last).ok
      ensures ValidFrames(port.captured) && old(port.captured) <= port.captured
      ensures port.captured == old(port.captured) + FramesTaken(old(port.toRead), port.buffer.Length)
      ensures port.toRead == (if old(port.toRead) == [] then [] else old(port.toRead)[1..])
      ensures client.written <= EncodeStream(port.captured)
      ensures status == Broken && !client.refused ==> !Capture(port.last).ok
      ensures status == Continue ==> client.refused == old(client.refused)
      ensures client.failed == old(client.failed) && client.ended == old(client.ended) && (status != Died ==> port.failed == old(port.failed))
      ensures status == Died ==> port.failed
    {
      var io := port.Read();
      if io == Eintr || io == Eagain {
        return Continue;
      }
      if !io.Done? || io.n == 0 {
        assert io.Done? ==> port.last == [];
        assert old(port.captured) + [] == old(port.captured);
        return Died;
      }
      status := ForwardBuffer(port, client, io.n, old(port.captured));
    }

    method FlushQueue(client: Client, vectors: array<IoVec>, lengths: array<Byte>, buffer: array<Byte>, frames: nat,
                      ghost queue: seq<Frame>, ghost before: seq<Frame>)
      returns (failed: bool)
      requires vectors.Length == 2 * VECTOR_FRAMES && frames == |queue| && Queued(vectors[..], lengths, buffer, queue)
      requires ValidFrames(before) && client.written == EncodeStream(before)
      modifies this`captured, client, vectors
      ensures client.delivered == old(client.delivered) && client.toRead == old(client.toRead)
      ensures ValidFrames(before + queue) && client.written <= EncodeStream(before + queue)
      ensures !failed ==> client.written == EncodeStream(before + queue) && captured == old(captured) + frames
      ensures client.refused == (old(client.refused) || failed) && client.failed == old(client.failed) && client.ended == old(client.ended)
    {
      QueueIsStream(vectors[..], lengths, buffer, queue, frames);
      assert vectors[..][..2 * frames] == vectors[..frames * 2];
      EncodeStreamConcat(before, queue);
      failed := WritevAll(client, vectors, frames * 2);
      if !failed {
        captured := captured + frames;
      }
    }

    /** Check the record at `offset` and queue its frame. */
    method TakeRecord(port: Port, offset: nat, count: nat, vectors: array<IoVec>, lengths: array<Byte>, frames: nat,
                      ghost queue: seq<Frame>, ghost total: Captured, ghost flushed: seq<Frame>)
      returns (ok: bool, next: nat, ghost f: Frame)
      requires offset < count <= port.buffer.Length
      requires vectors.Length == 2 * VECTOR_FRAMES && lengths.Length == 4 * VECTOR_FRAMES && lengths != port.buffer
      requires frames == |queue| < VECTOR_FRAMES && Queued(vectors[..], lengths, port.buffer, queue)
      requires CaptureFollows(total, flushed + queue, port.buffer[offset..count]) && |flushed| % VECTOR_FRAMES == 0
      modifies vectors, lengths
      ensures !ok ==> !total.ok && WholeGroups(total.frames) == flushed
      ensures ok ==> next > offset
      ensures ok ==> Queued(vectors[..], lengths, port.buffer, queue + [f])
      ensures ok ==>
        CaptureFollows(total, flushed + queue + [f], if next < count then port.buffer[next..count] else [])
    {
      hide Capture, HeaderAt, WordAlign, Queued, CaptureFollows, WholeGroups;
      ghost var tail := port.buffer[offset..count];
      ok, next, f := false, 0, [];
      if count - offset < MINIMUM {
        StopsCapture(total, flushed, queue, tail);
        return;
      }
      var h := CopyHeader(port, offset, count);
      if !ValidHeader(h, count - offset) {
        StopsCapture(total, flushed, queue, tail);
        return;
      }
      var record := h.hdrlen + h.caplen;
      SubSlice(port.buffer[..], offset, count, h.hdrlen, record);
      f := port.buffer[offset + h.hdrlen..offset + record];
      TakesRecord(total, flushed + queue, tail, h);
      Enqueue(vectors, lengths, frames, port.buffer, offset + h.hdrlen, h.caplen, queue);
      ok, next := true, offset + WordAlign(record);
      if next < count {
        SubSlice(port.buffer[..], offset, count, WordAlign(record), |tail|);
      }
    }

    method ForwardBuffer(port: Port, client: Client, count: nat, ghost earlier: seq<Frame>) returns (status: Status)
      requires count <= port.buffer.Length
      requires ValidFrames(earlier) && client.written == EncodeStream(earlier) && captured == |earlier|
      requires port.captured == earlier + Capture(port.buffer[..count]).frames
      modifies this`captured, client
      ensures client.delivered == old(client.delivered) && client.toRead == old(client.toRead)
      ensures status == Continue || status == Broken
      ensures ValidFrames(port.captured)
      ensures status == Continue ==> Forwarded(port, client) && Capture(port.buffer[..count]).ok
      ensures client.written <= EncodeStream(port.captured)
      ensures (status == Continue ==> client.refused == old(client.refused)) && client.failed == old(client.failed) && client.ended == old(client.ended)
      ensures status == Broken && !client.refused ==>
        var fs := Capture(port.buffer[..count]).frames;
        && !Capture(port.buffer[..count]).ok
        && ValidFrames(earlier + WholeGroups(fs))
        && client.written == EncodeStream(earlier + WholeGroups(fs))
    {
      hide Capture, EncodeStream, Queued, CaptureFollows, WholeGroups;
      ghost var total := Capture(port.buffer[..count]);
      CapturedFramesAreValid(port.buffer[..count]);
      var vectors := new IoVec[VECTOR_FRAMES * 2](i => IoVec(port.buffer, 0, 0));
      var lengths := new Byte[VECTOR_FRAMES * 4](i => 0);
      var frames: nat, offset: nat := 0, 0;
      ghost var flushed: seq<Frame>, queue: seq<Frame> := [], [];
      StartsCapture(total, port.buffer[..count]);
      NothingQueued(vectors[..], lengths, port.buffer);
      assert port.buffer[0..count] == port.buffer[..count];
      assert earlier + [] == earlier;
      while offset < count
        invariant client.delivered == old(client.delivered) && client.toRead == old(client.toRead)
        invariant frames == |queue| < VECTOR_FRAMES
        invariant Queued(vectors[..], lengths, port.buffer, queue)
        invariant if offset >= count then frames == 0 else |flushed| % VECTOR_FRAMES == 0
        invariant client.refused == old(client.refused) && client.failed == old(client.failed) && client.ended == old(client.ended)
        invariant port.captured == earlier + total.frames
        invariant ValidFrames(earlier + flushed) && client.written == EncodeStream(earlier + flushed)
        invariant captured == |earlier + flushed|
        invariant CaptureFollows(total, flushed + queue, if offset < count then port.buffer[offset..count] else [])
        decreases count - offset
      {
        ghost var tail := port.buffer[offset..count];
        WrittenSoFar(earlier, flushed, queue, total, tail);
        var ok, next, f := TakeRecord(port, offset, count, vectors, lengths, frames, queue, total, flushed);
        if !ok {
          return Broken;
        }
        Associative(flushed, queue, [f]);
        queue := queue + [f];
        frames := frames + 1;
        offset := next;
        WrittenSoFar(earlier, flushed, queue, total, if offset < count then port.buffer[offset..count] else []);
        if frames == VECTOR_FRAMES || offset >= count {
          Associative(earlier, flushed, queue);
          var failed := FlushQueue(client, vectors, lengths, port.buffer, frames, queue, earlier + flushed);
          if failed {
            return Broken;
          }
          flushed, queue, frames := flushed + queue, [], 0;
          NothingQueued(vectors[..], lengths, port.buffer);
          assert flushed + [] == flushed;
        }
      }
      EndsCapture(total, flushed + queue);
      assert flushed + queue == flushed;
      status := Continue;
    }
  }

  /** The first frames of the scatter list: each is four length bytes out of `lengths`, then a slice of `buffer`. */
  ghost predicate Queued(vectors: seq<IoVec>, lengths: array<Byte>, buffer: array<Byte>, queue: seq<Frame>)
    reads lengths, buffer
  {
    && ValidFrames(queue)
    && 2 * |queue| <= |vectors|
    && 4 * |queue| <= lengths.Length
    && forall i :: 0 <= i < |queue| ==> QueuedAt(vectors, lengths, buffer, queue[i], i)
  }

  ghost predicate QueuedAt(vectors: seq<IoVec>, lengths: array<Byte>, buffer: array<Byte>, f: Frame, i: nat)
    requires 2 * i + 1 < |vectors| && 4 * i + 4 <= lengths.Length && ValidFrame(f)
    reads lengths, buffer
  {
    var v := vectors[2 * i + 1];
    && vectors[2 * i] == IoVec(lengths, 4 * i, 4)
    && lengths[4 * i..4 * i + 4] == BigEndian32(|f|)
    && v.source == buffer && v.len == |f|
    && v.base + v.len <= buffer.Length
    && buffer[v.base..v.base + v.len] == f
  }

  lemma NothingQueued(vectors: seq<IoVec>, lengths: array<Byte>, buffer: array<Byte>)
    ensures Queued(vectors, lengths, buffer, [])
  {
  }

  method Enqueue(vectors: array<IoVec>, lengths: array<Byte>, frames: nat, buffer: array<Byte>, base: nat, length: nat,
                 ghost queue: seq<Frame>)
    requires vectors.Length == 2 * VECTOR_FRAMES && lengths.Length == 4 * VECTOR_FRAMES && lengths != buffer
    requires frames == |queue| < VECTOR_FRAMES && Queued(vectors[..], lengths, buffer, queue)
    requires base + length <= buffer.Length && MIN_FRAME <= length <= MAX_FRAME
    modifies vectors, lengths
    ensures Queued(vectors[..], lengths, buffer, queue + [buffer[base..base + length]])
  {
    hide BigEndian32, QueuedAt;
    ghost var f := buffer[base..base + length];
    ghost var v0, l0 := vectors[..], lengths[..];
    forall i | 0 <= i < |queue|
      ensures QueuedWith(v0, l0, lengths, buffer, queue[i], i)
    {
      Valued(v0, lengths, buffer, queue[i], i);
    }
    CopyInto(lengths, 4 * frames, BigEndian32(length));
    vectors[2 * frames] := IoVec(lengths, 4 * frames, 4);
    vectors[2 * frames + 1] := IoVec(buffer, base, length);
    assert lengths[..4 * frames] == l0[..4 * frames];
    forall i | 0 <= i < |queue|
      ensures QueuedAt(vectors[..], lengths, buffer, queue[i], i)
    {
      StillQueued(v0, l0, vectors[..], lengths, buffer, queue[i], i, 4 * frames);
    }
    LastQueued(vectors[..], lengths, buffer, f, frames, base);
  }

  /** A frame is queued, where the length bytes have these values. */
  ghost predicate QueuedWith(vectors: seq<IoVec>, values: seq<Byte>, lengths: array<Byte>, buffer: array<Byte>, f: Frame, i: nat)
    requires 2 * i + 1 < |vectors| && 4 * i + 4 <= |values| && ValidFrame(f)
    reads buffer
  {
    var v := vectors[2 * i + 1];
    && vectors[2 * i] == IoVec(lengths, 4 * i, 4)
    && values[4 * i..4 * i + 4] == BigEndian32(|f|)
    && v.source == buffer && v.len == |f|
    && v.base + v.len <= buffer.Length
    && buffer[v.base..v.base + v.len] == f
  }

  lemma Valued(vectors: seq<IoVec>, lengths: array<Byte>, buffer: array<Byte>, f: Frame, i: nat)
    requires 2 * i + 1 < |vectors| && 4 * i + 4 <= lengths.Length && ValidFrame(f) && QueuedAt(vectors, lengths, buffer, f, i)
    ensures QueuedWith(vectors, lengths[..], lengths, buffer, f, i)
  {
    assert lengths[..][4 * i..4 * i + 4] == lengths[4 * i..4 * i + 4];
  }

  /** Writing behind a queued frame leaves it queued. */
  lemma StillQueued(v0: seq<IoVec>, l0: seq<Byte>, vectors: seq<IoVec>, lengths: array<Byte>, buffer: array<Byte>, f: Frame, i: nat, n: nat)
    requires 2 * i + 1 < |v0| == |vectors| && 4 * i + 4 <= n <= |l0| == lengths.Length && ValidFrame(f)
    requires QueuedWith(v0, l0, lengths, buffer, f, i)
    requires vectors[2 * i] == v0[2 * i] && vectors[2 * i + 1] == v0[2 * i + 1] && lengths[..n] == l0[..n]
    ensures QueuedAt(vectors, lengths, buffer, f, i)
  {
    assert lengths[4 * i..4 * i + 4] == lengths[..n][4 * i..4 * i + 4] == l0[..n][4 * i..4 * i + 4] == l0[4 * i..4 * i + 4];
  }

  lemma LastQueued(vectors: seq<IoVec>, lengths: array<Byte>, buffer: array<Byte>, f: Frame, i: nat, base: nat)
    requires 2 * i + 1 < |vectors| && 4 * i + 4 <= lengths.Length && ValidFrame(f) && base + |f| <= buffer.Length
    requires vectors[2 * i] == IoVec(lengths, 4 * i, 4) && vectors[2 * i + 1] == IoVec(buffer, base, |f|)
    requires lengths[4 * i..4 * i + 4] == BigEndian32(|f|) && buffer[base..base + |f|] == f
    ensures QueuedAt(vectors, lengths, buffer, f, i)
  {
  }

  /** Gathering the list gives the queued frames behind their lengths. */
  lemma {:induction false} QueueIsStream(vectors: seq<IoVec>, lengths: array<Byte>, buffer: array<Byte>, queue: seq<Frame>, n: nat)
    requires Queued(vectors, lengths, buffer, queue) && n <= |queue|
    ensures InBounds(vectors[..2 * n]) && Gather(vectors[..2 * n]) == EncodeStream(queue[..n])
    ensures queue[..|queue|] == queue
    decreases n
  {
    hide Gather, EncodeStream, Bytes, Prefixed;
    if n == 0 {
      assert vectors[..0] == [] && queue[..0] == [];
      GatherNone(vectors[..0]);
      EncodeStreamNone();
    } else {
      var k := n - 1;
      QueueIsStream(vectors, lengths, buffer, queue, k);
      QueuedBytes(vectors, lengths, buffer, queue, k);
      var pair := [vectors[2 * k], vectors[2 * k + 1]];
      assert vectors[..2 * n] == vectors[..2 * k] + pair;
      assert queue[..n] == queue[..k] + [queue[k]];
      GatherPair(vectors[2 * k], vectors[2 * k + 1]);
      GatherAppend(vectors[..2 * k], pair);
      EncodeStreamPush(queue[..k], queue[k]);
      PrefixedParts(queue[k]);
    }
  }

  lemma QueuedBytes(vectors: seq<IoVec>, lengths: array<Byte>, buffer: array<Byte>, queue: seq<Frame>, k: nat)
    requires Queued(vectors, lengths, buffer, queue) && k < |queue|
    ensures vectors[2 * k].base + vectors[2 * k].len <= vectors[2 * k].source.Length
    ensures vectors[2 * k + 1].base + vectors[2 * k + 1].len <= vectors[2 * k + 1].source.Length
    ensures Bytes(vectors[2 * k]) == BigEndian32(|queue[k]|) && Bytes(vectors[2 * k + 1]) == queue[k]
  {
    assert QueuedAt(vectors, lengths, buffer, queue[k], k);
  }

  lemma EncodeStreamNone()
    ensures EncodeStream([]) == []
  {
  }

  lemma PrefixedParts(f: Frame)
    requires ValidFrame(f)
    ensures Prefixed(f) == BigEndian32(|f|) + f
  {
  }

  lemma GatherPair(a: IoVec, b: IoVec)
    requires a.base + a.len <= a.source.Length && b.base + b.len <= b.source.Length
    ensures InBounds([a, b]) && InBounds([b])
    ensures Gather([a, b]) == Bytes(a) + Bytes(b)
  {
    assert [a, b][0] == a && [a, b][1] == b;
    assert [a, b][1..] == [b] && [b][1..] == [];
    assert Gather([b]) == Bytes(b) + Gather([b][1..]) == Bytes(b);
  }

  /** What is left of a capture buffer whose frames are `total`, once `done` has been read. */
  ghost predicate CaptureFollows(total: Captured, done: seq<Frame>, tail: seq<Byte>) {
    total == Captured(done + Capture(tail).frames, Capture(tail).ok)
  }

  lemma StartsCapture(total: Captured, buf: seq<Byte>)
    requires total == Capture(buf)
    ensures CaptureFollows(total, [] + [], buf)
  {
    assert [] + [] + total.frames == total.frames;
  }

  lemma TakesRecord(total: Captured, done: seq<Frame>, tail: seq<Byte>, h: Header)
    requires CaptureFollows(total, done, tail)
    requires |tail| >= MINIMUM && h == HeaderAt(tail) && ValidHeader(h, |tail|)
    ensures CaptureFollows(total, done + [tail[h.hdrlen..h.hdrlen + h.caplen]], AfterRecord(tail, h))
  {
    Associative(done, [tail[h.hdrlen..h.hdrlen + h.caplen]], Capture(AfterRecord(tail, h)).frames);
  }

  /** The frames of the full groups of 64, the ones written before a bad record ends the call. */
  function WholeGroups(fs: seq<Frame>): (whole: seq<Frame>)
    ensures whole <= fs && |whole| % VECTOR_FRAMES == 0 && |fs| - |whole| < VECTOR_FRAMES
  {
    fs[..|fs| / VECTOR_FRAMES * VECTOR_FRAMES]
  }

  lemma StopsCapture(total: Captured, flushed: seq<Frame>, queue: seq<Frame>, tail: seq<Byte>)
    requires CaptureFollows(total, flushed + queue, tail) && tail != []
    requires |tail| < MINIMUM || !ValidHeader(HeaderAt(tail), |tail|)
    requires |flushed| % VECTOR_FRAMES == 0 && |queue| < VECTOR_FRAMES
    ensures !total.ok && WholeGroups(total.frames) == flushed
  {
    assert total.frames == flushed + queue + [] == flushed + queue;
    assert (flushed + queue)[..|flushed|] == flushed;
  }

  lemma EndsCapture(total: Captured, done: seq<Frame>)
    requires CaptureFollows(total, done, [])
    ensures total == Captured(done, true)
  {
    assert done + [] == done;
  }

  /** The frames flushed so far are some of the frames captured, so what was written is part of their stream. */
  lemma WrittenSoFar(earlier: seq<Frame>, flushed: seq<Frame>, queue: seq<Frame>, total: Captured, tail: seq<Byte>)
    requires CaptureFollows(total, flushed + queue, tail)
    requires ValidFrames(earlier) && ValidFrames(total.frames)
    ensures ValidFrames(earlier + flushed) && ValidFrames(queue) && ValidFrames(earlier + (flushed + queue))
    ensures EncodeStream(earlier + flushed) <= EncodeStream(earlier + (flushed + queue)) <= EncodeStream(earlier + total.frames)
  {
    var more := Capture(tail).frames;
    assert forall i :: 0 <= i < |flushed| ==> flushed[i] == total.frames[i];
    assert forall i :: 0 <= i < |queue| ==> queue[i] == total.frames[|flushed| + i];
    assert forall i :: 0 <= i < |more| ==> more[i] == total.frames[|flushed + queue| + i];
    EncodeStreamConcat(earlier + flushed, queue);
    Associative(earlier, flushed, queue);
    EncodeStreamConcat(earlier + (flushed + queue), more);
    Associative(earlier, flushed + queue, more);
  }

  lemma {:induction false} EncodeStreamConcat(a: seq<Frame>, b: seq<Frame>)
    requires ValidFrames(a) && ValidFrames(b)
    ensures ValidFrames(a + b) && EncodeStream(a + b) == EncodeStream(a) + EncodeStream(b)
  {
    if a == [] {
      assert a + b == b;
    } else {
      assert (a + b)[1..] == a[1..] + b;
      EncodeStreamConcat(a[1..], b);
      Associative(Prefixed(a[0]), EncodeStream(a[1..]), EncodeStream(b));
    }
  }

  method CopyHeader(port: Port, offset: nat, count: nat) returns (h: Header)
    requires offset + MINIMUM <= count <= port.buffer.Length
    ensures h == HeaderAt(port.buffer[offset..count])
  {
    SubSlice(port.buffer[..], offset, count, 0, MINIMUM);
    HeaderInPrefix(port.buffer[offset..count]);
    h := HeaderAt(port.buffer[offset..offset + MINIMUM]);
  }

  // ---- The event loop ----

  /** One wait for events: interrupted, failed, or which side is readable and whether a descriptor is in error. */
  datatype Poll = Interruption | PollError | Events(client: bool, bpf: bool, failed: bool)

  /** The helper is still running, or has exited with a code. */
  datatype Run = Running | Exited(code: int)

  /** How often the client and the device are read, if all of these polls are served. */
  function ClientReads(polls: seq<Poll>): (k: nat) {
    if polls == [] then 0
    else ClientReads(polls[..|polls| - 1]) + (if polls[|polls| - 1].Events? && polls[|polls| - 1].client then 1 else 0)
  }

  function PortReads(polls: seq<Poll>): (k: nat) {
    if polls == [] then 0
    else PortReads(polls[..|polls| - 1]) + (if polls[|polls| - 1].Events? && polls[|polls| - 1].bpf then 1 else 0)
  }

  /** What `k` reads of the client come to: nothing on offer is lost, and if every chunk fits, each read took one. */
  ghost predicate ClientServed(offer: seq<Event>, k: nat, left: seq<Event>, delivered: seq<Byte>) {
    && delivered + Offered(left) == Offered(offer)
    && (Fits(offer) ==> k <= |offer| && left == offer[k..] && delivered == Offered(offer[..k]))
  }

  /** What `k` reads of the device come to: each took the capture that was next, as long as there was one. */
  ghost predicate PortServed(offer: seq<Event>, size: nat, k: nat, left: seq<Event>, captured: seq<Frame>) {
    var n := if k <= |offer| then k else |offer|;
    left == offer[n..] && captured == FramesOffered(offer[..n], size)
  }

  lemma ServedNext(offer: seq<Event>, k: nat, left: seq<Event>, delivered: seq<Byte>, limit: nat)
    requires ClientServed(offer, k, left, delivered) && left != [] && limit >= BATCH_SIZE - MAX_PARTIAL
    ensures ClientServed(offer, k + 1, After(left, limit), delivered + Taken(left, limit))
  {
    hide Offered;
    TakenAndAfter(left, limit);
    Associative(delivered, Taken(left, limit), Offered(After(left, limit)));
    if Fits(offer) {
      assert left[0] == offer[k] && offer[k..][1..] == offer[k + 1..];
      OfferedNext(offer, k);
    }
  }

  lemma CapturedNext(offer: seq<Event>, size: nat, k: nat, left: seq<Event>, captured: seq<Frame>)
    requires PortServed(offer, size, k, left, captured)
    ensures PortServed(offer, size, k + 1, if left == [] then [] else left[1..], captured + FramesTaken(left, size))
  {
    if k < |offer| {
      var more := offer[..k + 1];
      assert left != [] && left[1..] == offer[k + 1..];
      assert more[..k] == offer[..k] && more[k..] == [offer[k]] && left[0] == offer[k];
      assert FramesTaken(left, size) == FramesTaken([offer[k]], size);
    } else {
      assert left == [] && captured + FramesTaken(left, size) == captured;
    }
  }

  lemma ReadsNext(polls: seq<Poll>, i: nat)
    requires i < |polls|
    ensures ClientReads(polls[..i + 1]) == ClientReads(polls[..i]) + (if polls[i].Events? && polls[i].client then 1 else 0)
    ensures PortReads(polls[..i + 1]) == PortReads(polls[..i]) + (if polls[i].Events? && polls[i].bpf then 1 else 0)
  {
    assert polls[..i + 1][..i] == polls[..i];
  }

  lemma NothingServed(client: seq<Event>, port: seq<Event>, size: nat)
    ensures ClientServed(client, 0, client, []) && PortServed(port, size, 0, port, [])
  {
    assert client[..0] == [] && client[0..] == client && port[0..] == port && port[..0] == [];
    assert [] + Offered(client) == Offered(client);
  }

  method Service(pump: Pump, port: Port, client: Client, events: Poll) returns (run: Run)
    requires events.Events?
    requires pump.Valid() && pump.Separate(port, client) && pump.Injected(port, client) && pump.Forwarded(port, client)
    requires !client.refused && !client.failed && !client.ended && !port.failed
    modifies pump`used, pump`injected, pump`captured, pump.stream, pump.injection, port, port.buffer, client
    ensures run == Running ==>
      && pump.Valid() && pump.Injected(port, client) && pump.Forwarded(port, client)
      && !client.refused && !client.failed && !client.ended && !port.failed
    ensures run.Exited? && run != Exited(0) ==> Failed(port, client) || events.failed
    ensures run == Running ==> !events.failed
    ensures Consistent(port, client)
    ensures run == Exited(0) ==> Drained(port, client)
    ensures run == Exited(0) ==> events.client
    // Each side that is readable is read, and what the read yields is passed on.
    ensures client.toRead == if events.client then After(old(client.toRead), BATCH_SIZE - old(pump.used)) else old(client.toRead)
    ensures client.delivered == old(client.delivered) +
      (if events.client then Taken(old(client.toRead), BATCH_SIZE - old(pump.used)) else [])
    ensures run == Running && events.client ==> old(client.toRead) != []
    ensures run == Running ==>
      && port.toRead == (if events.bpf && old(port.toRead) != [] then old(port.toRead)[1..] else old(port.toRead))
      && port.captured == old(port.captured) + (if events.bpf then FramesTaken(old(port.toRead), port.buffer.Length) else [])
  {
    hide Parse, EncodeStream, Capture, Taken, After, FramesTaken;
    ghost var sent0, delivered0 := port.sent, client.delivered;
    if events.client {
      var status := pump.StreamToBpf(port, client);
      assert pump.Forwarded(port, client);
      if status == Broken || status == Died {
        return Exited(1);
      }
      if status == Closed {
        return Exited(0);
      }
    }
    assert port.sent == Parse(client.delivered).frames;
    if events.bpf {
      var status := pump.BpfToStream(port, client);
      if status == Broken || status == Died {
        return Exited(1);
      }
    }
    if events.failed {
      return Exited(1);
    }
    run := Running;
  }

  /** What holds however the helper ends: only frames received were sent, only frames captured were forwarded. */
  ghost predicate Consistent(port: Port, client: Client)
    reads port, client
  {
    && port.sent <= Parse(client.delivered).frames
    && ValidFrames(port.captured)
    && client.written <= EncodeStream(port.captured)
  }

  /** The client closed the stream between frames: everything received was sent, everything captured was forwarded. */
  ghost predicate Drained(port: Port, client: Client)
    reads port, client
  {
    && client.ended && Parse(client.delivered) == Parsed(port.sent, [], false)
    && ValidFrames(port.captured)
    && client.written == EncodeStream(port.captured)
  }

  /** Why the helper gives up: a descriptor failed, the stream is malformed or ended within a frame, or a capture
      buffer is malformed. */
  ghost predicate Failed(port: Port, client: Client)
    reads port, client
  {
    || client.failed || client.refused || port.failed
    || Parse(client.delivered).malformed || (client.ended && Parse(client.delivered).rest != [])
    || !Capture(port.last).ok
  }

  /** The loop from accept to exit, for every list of polls and every answer of the two descriptors. */
  method RunLoop(pump: Pump, port: Port, client: Client, polls: seq<Poll>) returns (run: Run)
    requires pump.Valid() && pump.Separate(port, client)
    requires pump.used == pump.injected == pump.captured == 0
    requires port.sent == [] && port.captured == [] && client.delivered == [] && client.written == [] && !client.refused && !client.failed && !client.ended && !port.failed
    modifies pump`used, pump`injected, pump`captured, pump.stream, pump.injection, port, port.buffer, client
    ensures Consistent(port, client)
    // No byte on offer is lost.
    ensures client.delivered + Offered(client.toRead) == Offered(old(client.toRead))
    // As long as the helper runs it has served every readable poll: the frames on the wire are those of the bytes read so
    // far, and the stream has the frames of the captures read so far.
    ensures run == Running ==>
      && ClientServed(old(client.toRead), ClientReads(polls), client.toRead, client.delivered)
      && port.sent == Parse(client.delivered).frames
    ensures run == Running && Fits(old(client.toRead)) ==>
      && ClientReads(polls) <= |old(client.toRead)|
      && port.sent == Parse(Offered(old(client.toRead)[..ClientReads(polls)])).frames
    ensures run == Running ==>
      && PortServed(old(port.toRead), port.buffer.Length, PortReads(polls), port.toRead, port.captured)
      && ValidFrames(port.captured) && client.written == EncodeStream(port.captured)
    ensures run == Running ==> pump.Valid() && pump.Injected(port, client) && pump.Forwarded(port, client)
    ensures run == Exited(0) ==> Drained(port, client)
    // It runs on only through polls that did not fail.
    ensures run == Running ==> forall i :: 0 <= i < |polls| ==> !polls[i].PollError? && (polls[i].Events? ==> !polls[i].failed)
    ensures run.Exited? && run != Exited(0) ==>
      Failed(port, client) || exists i :: 0 <= i < |polls| && (polls[i].PollError? || (polls[i].Events? && polls[i].failed))
  {
    hide ClientServed, PortServed, Fits, Taken, After, FramesTaken, Offered, Parse, EncodeStream, Consistent, Drained, Failed;
    NothingYet(pump, port, client);
    run := Running;
    ghost var size := port.buffer.Length;
    NothingServed(client.toRead, port.toRead, size);
    for i := 0 to |polls|
      invariant run == Running ==>
        pump.Valid() && pump.Injected(port, client) && pump.Forwarded(port, client)
      invariant !client.refused && !client.failed && !client.ended && !port.failed
      invariant Consistent(port, client)
      invariant run == Running
      invariant forall k :: 0 <= k < i ==> !polls[k].PollError? && (polls[k].Events? ==> !polls[k].failed)
      invariant ClientServed(old(client.toRead), ClientReads(polls[..i]), client.toRead, client.delivered)
      invariant PortServed(old(port.toRead), size, PortReads(polls[..i]), port.toRead, port.captured)
    {
      NothingLost(old(client.toRead), ClientReads(polls[..i]), client.toRead, client.delivered);
      ReadsNext(polls, i);
      match polls[i] {
        case Interruption =>
        case PollError => return Exited(1);
        case Events(_, _, _) =>
          ghost var offer, received, captures, captured := client.toRead, client.delivered, port.toRead, port.captured;
          ghost var limit := BATCH_SIZE - pump.used;
          TakenAndAfter(offer, limit);
          Associative(received, Taken(offer, limit), Offered(After(offer, limit)));
          assert received + [] == received && captured + [] == captured;
          if offer != [] {
            ServedNext(old(client.toRead), ClientReads(polls[..i]), offer, received, limit);
          }
          CapturedNext(old(port.toRead), size, PortReads(polls[..i]), captures, captured);
          run := Service(pump, port, client, polls[i]);
          if run != Running {
            return;
          }
      }
    }
    assert polls[..|polls|] == polls;
    NothingLost(old(client.toRead), ClientReads(polls), client.toRead, client.delivered);
  }

  lemma NothingYet(pump: Pump, port: Port, client: Client)
    requires pump.Valid() && pump.used == pump.injected == pump.captured == 0
    requires port.sent == [] && port.captured == [] && client.delivered == [] && client.written == []
    ensures pump.Injected(port, client) && pump.Forwarded(port, client) && Consistent(port, client)
  {
  }

  lemma NothingLost(offer: seq<Event>, k: nat, left: seq<Event>, delivered: seq<Byte>)
    requires ClientServed(offer, k, left, delivered)
    ensures delivered + Offered(left) == Offered(offer)
    ensures Fits(offer) ==> k <= |offer| && delivered == Offered(offer[..k])
  {
  }

  /** The forwarded stream, read by the other direction's parser, is the frames that were captured. */
  lemma ForwardedIsReadBack(captured: seq<Frame>)
    requires ValidFrames(captured)
    ensures Parse(EncodeStream(captured)) == Parsed(captured, [], false)
  {
    ParseEncoded(captured, []);
    assert EncodeStream(captured) + [] == EncodeStream(captured);
    assert captured + [] == captured;
  }

  // ---- Chunking ----

  function Concat(chunks: seq<seq<Byte>>): (bytes: seq<Byte>) {
    if chunks == [] then [] else Concat(chunks[..|chunks| - 1]) + chunks[|chunks| - 1]
  }

  /** Reading chunk by chunk, keeping only the frames found and the bytes left over. */
  function Reassemble(chunks: seq<seq<Byte>>): (parsed: Parsed) {
    if chunks == [] then Parsed([], [], false)
    else
      var before := Reassemble(chunks[..|chunks| - 1]);
      if before.malformed then before
      else
        var p := Parse(before.rest + chunks[|chunks| - 1]);
        Parsed(before.frames + p.frames, p.rest, p.malformed)
  }

  /** The same bytes give the same frames and verdict however they are cut into reads. */
  lemma {:induction false} ChunkingDoesNotMatter(chunks: seq<seq<Byte>>)
    ensures
      var whole, pieces := Parse(Concat(chunks)), Reassemble(chunks);
      && pieces.frames == whole.frames
      && pieces.malformed == whole.malformed
      && (!whole.malformed ==> pieces.rest == whole.rest)
    decreases |chunks|
  {
    if chunks != [] {
      var init, last := chunks[..|chunks| - 1], chunks[|chunks| - 1];
      ChunkingDoesNotMatter(init);
      if Parse(Concat(init)).malformed {
        MalformedIsFinal(Concat(init), last);
      } else {
        ParseResumes(Concat(init), last);
      }
    }
  }

  lemma DropFront<T>(a: seq<T>, b: seq<T>, n: nat)
    requires n <= |a + b|
    ensures (a + b)[n..] == if n <= |a| then a[n..] + b else b[n - |a|..]
    ensures n == |a| ==> (a + b)[n..] == b[0..]
  {
  }

  lemma SplitAt<T>(s: seq<T>, i: nat, n: nat)
    requires i + n <= |s|
    ensures s[..i] + s[i..][..n] == s[..i + n]
    ensures s[i..][n..] == s[i + n..]
    ensures s[..i] <= s
  {
  }

  lemma RecordParts(f: Frame)
    requires ValidFrame(f)
    ensures Record(f) == (HeaderBytes(|f|) + f) + Zeros(RecordSize(|f|) - HEADER - |f|)
  {
  }

  /** What is left to read of a stream whose reading is `total`, once `done` has been read: `tail`. */
  ghost predicate Follows(total: Parsed, done: seq<Frame>, tail: seq<Byte>) {
    var p := Parse(tail);
    total == Parsed(done + p.frames, p.rest, p.malformed)
  }

  lemma FollowsIsPrefix(total: Parsed, done: seq<Frame>, tail: seq<Byte>)
    requires Follows(total, done, tail)
    ensures done <= total.frames
  {
  }

  lemma TakesFrame(total: Parsed, done: seq<Frame>, tail: seq<Byte>, length: nat)
    requires Follows(total, done, tail)
    requires 4 + length <= |tail| && FromBigEndian32(tail[..4]) == length && MIN_FRAME <= length <= MAX_FRAME
    ensures Follows(total, done + [tail[4..length + 4]], tail[length + 4..])
  {
    Associative(done, [tail[4..length + 4]], Parse(tail[length + 4..]).frames);
  }

  lemma StopsAtBadLength(total: Parsed, done: seq<Frame>, tail: seq<Byte>)
    requires Follows(total, done, tail)
    requires 4 <= |tail| && (FromBigEndian32(tail[..4]) < MIN_FRAME || FromBigEndian32(tail[..4]) > MAX_FRAME)
    ensures total == Parsed(done, tail, true)
  {
    assert done + [] == done;
  }

  lemma StopsAtPartialFrame(total: Parsed, done: seq<Frame>, tail: seq<Byte>)
    requires Follows(total, done, tail)
    requires
      || |tail| < 4
      || (MIN_FRAME <= FromBigEndian32(tail[..4]) <= MAX_FRAME && |tail| < FromBigEndian32(tail[..4]) + 4)
    ensures total == Parsed(done, tail, false)
  {
    assert done + [] == done;
  }

  /** The first record of a packed buffer: where its frame is, and where the next record starts. */
  lemma FirstRecord(b: seq<Byte>, fs: seq<Frame>)
    requires ValidFrames(fs) && b == EncodeRecords(fs) && b != []
    ensures fs != [] && ValidFrames(fs[1..]) && RecordSize(|fs[0]|) <= |b|
    ensures HeaderAt(b[0..MINIMUM]) == Header(HEADER, |fs[0]|, |fs[0]|)
    ensures b[HEADER..HEADER + |fs[0]|] == fs[0]
    ensures b[RecordSize(|fs[0]|)..|b|] == EncodeRecords(fs[1..])
  {
    HeaderOfRecord(fs[0], EncodeRecords(fs[1..]));
    HeaderInPrefix(b);
  }

  lemma OneMore<T>(a: seq<T>, b: seq<T>, c: seq<T>, x: seq<T>)
    requires c != []
    requires a + b <= x <= (a + b) + [c[0]]
    ensures (a + b) + [c[0]] == a + (b + [c[0]])
    ensures (b + [c[0]]) + c[1..] == b + c
    ensures a <= x <= a + (b + c)
  {
    var whole := a + (b + c);
    assert ((a + b) + [c[0]]) + c[1..] == whole;
    assert x == whole[..|x|];
    assert a == x[..|a|];
  }

  lemma SubSlice<T>(s: seq<T>, lo: nat, hi: nat, from: nat, to: nat)
    requires lo <= hi <= |s| && from <= to <= hi - lo
    ensures s[lo..hi][from..to] == s[lo + from..lo + to]
  {
    var x, y := s[lo..hi][from..to], s[lo + from..lo + to];
    assert |x| == |y| && forall i :: 0 <= i < |x| ==> x[i] == y[i];
  }

  lemma HeaderInPrefix(b: seq<Byte>)
    requires |b| >= MINIMUM
    ensures HeaderAt(b[0..MINIMUM]) == HeaderAt(b)
  {
    SubSlice(b, 0, MINIMUM, 8, 12);
    SubSlice(b, 0, MINIMUM, 12, 16);
    SubSlice(b, 0, MINIMUM, 16, 18);
    var h := b[0..MINIMUM];
    assert h[8..12] == b[8..12] && h[12..16] == b[12..16] && h[16..18] == b[16..18];
  }

  lemma RecordsNonEmpty(fs: seq<Frame>)
    requires ValidFrames(fs) && EncodeRecords(fs) == []
    ensures fs == []
  {
  }
}
