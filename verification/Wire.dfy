/** The two byte formats of the layer-2 helper.

    The QEMU side is a stream: every Ethernet frame is preceded by its length, four bytes in network order.
    The BPF side is a buffer of records: a header, the frame, and padding up to the next word. */
module Wire {
  type Byte = b: int | 0 <= b < 0x100
  type Frame = seq<Byte>

  const MIN_FRAME: nat := 14
  const MAX_FRAME: nat := 16384
  /** The most bytes that can be waiting for the rest of a frame: a length and all but one byte of the largest frame. */
  const MAX_PARTIAL: nat := 4 + MAX_FRAME - 1

  lemma Associative<T>(a: seq<T>, b: seq<T>, c: seq<T>)
    ensures (a + b) + c == a + (b + c)
  {
  }

  predicate ValidFrame(f: Frame) {
    MIN_FRAME <= |f| <= MAX_FRAME
  }

  predicate ValidFrames(fs: seq<Frame>) {
    forall i :: 0 <= i < |fs| ==> ValidFrame(fs[i])
  }

  // ---- The length-prefixed stream ----

  function BigEndian32(n: nat): (b: seq<Byte>)
    requires n < 0x1_0000_0000
    ensures |b| == 4
  {
    [n / 0x100 / 0x100 / 0x100, n / 0x100 / 0x100 % 0x100, n / 0x100 % 0x100, n % 0x100]
  }

  function FromBigEndian32(b: seq<Byte>): (n: nat)
    requires |b| == 4
    ensures n < 0x1_0000_0000
  {
    (b[0] as int) * 0x100_0000 + (b[1] as int) * 0x1_0000 + (b[2] as int) * 0x100 + b[3] as int
  }

  lemma BigEndianRoundTrip(n: nat)
    requires n < 0x1_0000_0000
    ensures FromBigEndian32(BigEndian32(n)) == n
  {
    var q := n / 0x100;
    var p := q / 0x100;
    assert n == q * 0x100 + n % 0x100;
    assert q == p * 0x100 + q % 0x100;
    assert p == p / 0x100 * 0x100 + p % 0x100;
  }

  /** Whether a sequence of bytes comes first: the byte at the first place where they differ is smaller. */
  predicate Precedes(a: seq<Byte>, b: seq<Byte>)
    requires |a| == |b|
  {
    exists i :: 0 <= i < |a| && a[..i] == b[..i] && a[i] < b[i]
  }

  /** Network order is the order of the numbers: the first byte counts most. With the round trip that leaves one encoding. */
  lemma BigEndianOrder(m: nat, n: nat)
    requires m < 0x1_0000_0000 && n < 0x1_0000_0000
    ensures m < n <==> Precedes(BigEndian32(m), BigEndian32(n))
  {
    hide BigEndian32;
    var a, b := BigEndian32(m), BigEndian32(n);
    BigEndianRoundTrip(m);
    BigEndianRoundTrip(n);
    if m < n {
      FirstDifference(a, b);
    }
    forall i | 0 <= i < 4 && a[..i] == b[..i] && a[i] < b[i]
      ensures m < n
    {
      assert forall k :: 0 <= k < i ==> a[k] == a[..i][k] == b[..i][k] == b[k];
    }
  }

  /** Of two different numbers the smaller one has the smaller byte first. */
  lemma FirstDifference(a: seq<Byte>, b: seq<Byte>)
    requires |a| == |b| == 4 && FromBigEndian32(a) < FromBigEndian32(b)
    ensures Precedes(a, b)
  {
    var i := if a[0] != b[0] then 0 else if a[1] != b[1] then 1 else if a[2] != b[2] then 2 else 3;
    assert a[..i] == b[..i] && a[i] < b[i];
  }

  lemma BigEndianUnique(b: seq<Byte>)
    requires |b| == 4
    ensures BigEndian32(FromBigEndian32(b)) == b
  {
    var q: nat := (b[0] as int) * 0x100 + b[1] as int;
    var p: nat := q * 0x100 + b[2] as int;
    DivideByByte(b[0], b[1]);
    DivideByByte(q, b[2]);
    DivideByByte(p, b[3]);
    assert FromBigEndian32(b) == p * 0x100 + b[3] as int;
  }

  lemma DivideByByte(q: nat, r: Byte)
    ensures (q * 0x100 + r) / 0x100 == q && (q * 0x100 + r) % 0x100 == r
  {
  }

  function Prefixed(f: Frame): (bytes: seq<Byte>)
    requires ValidFrame(f)
  {
    BigEndian32(|f|) + f
  }

  /** What a well-behaved sender puts on the stream for a list of frames. */
  function EncodeStream(fs: seq<Frame>): (bytes: seq<Byte>)
    requires ValidFrames(fs)
  {
    if fs == [] then [] else Prefixed(fs[0]) + EncodeStream(fs[1..])
  }

  /** The reading of a stream: its complete frames, the bytes that follow them, and whether those bytes
      begin with a length outside the Ethernet limits. */
  datatype Parsed = Parsed(frames: seq<Frame>, rest: seq<Byte>, malformed: bool)

  function Parse(s: seq<Byte>): (parsed: Parsed)
  {
    if |s| < 4 then Parsed([], s, false)
    else
      var length := FromBigEndian32(s[..4]);
      if length < MIN_FRAME || length > MAX_FRAME then Parsed([], s, true)
      else if |s| < length + 4 then Parsed([], s, false)
      else
        var tail := Parse(s[length + 4..]);
        Parsed([s[4..length + 4]] + tail.frames, tail.rest, tail.malformed)
  }

  lemma {:induction false} EncodeStreamPush(fs: seq<Frame>, f: Frame)
    requires ValidFrames(fs) && ValidFrame(f)
    ensures ValidFrames(fs + [f]) && EncodeStream(fs + [f]) == EncodeStream(fs) + Prefixed(f)
  {
    if fs == [] {
      assert fs + [f] == [f] && EncodeStream([f][1..]) == [];
    } else {
      assert (fs + [f])[1..] == fs[1..] + [f];
      EncodeStreamPush(fs[1..], f);
      Associative(Prefixed(fs[0]), EncodeStream(fs[1..]), Prefixed(f));
    }
  }

  /** Parsing loses nothing: the frames, encoded again, followed by the rest are the stream that was read. */
  lemma {:induction false} ParseIsInverse(s: seq<Byte>)
    ensures
      var p := Parse(s);
      && ValidFrames(p.frames) && EncodeStream(p.frames) + p.rest == s
      && forall f :: f in p.frames ==> 14 <= |f| <= 16384
  {
    var length := if |s| < 4 then 0 else FromBigEndian32(s[..4]);
    if MIN_FRAME <= length <= MAX_FRAME && |s| >= length + 4 {
      var f, tail := s[4..length + 4], s[length + 4..];
      ParseIsInverse(tail);
      var fs, rest := Parse(tail).frames, Parse(tail).rest;
      assert ([f] + fs)[1..] == fs;
      Associative(Prefixed(f), EncodeStream(fs), rest);
      LeadingFrame(s, length);
      assert Parse(s) == Parsed([f] + fs, rest, Parse(tail).malformed);
    } else {
      assert Parse(s).frames == [] && Parse(s).rest == s;
    }
  }

  /** Unless the stream is malformed, less than one frame of the largest size is left over. */
  lemma {:induction false} ParseRestIsShort(s: seq<Byte>)
    requires !Parse(s).malformed
    ensures |Parse(s).rest| <= MAX_PARTIAL
  {
    var length := if |s| < 4 then 0 else FromBigEndian32(s[..4]);
    if MIN_FRAME <= length <= MAX_FRAME && |s| >= length + 4 {
      ParseRestIsShort(s[length + 4..]);
    }
  }

  lemma LeadingFrame(s: seq<Byte>, length: nat)
    requires |s| >= length + 4 && FromBigEndian32(s[..4]) == length && MIN_FRAME <= length <= MAX_FRAME
    ensures s == Prefixed(s[4..length + 4]) + s[length + 4..]
  {
    BigEndianUnique(s[..4]);
    assert s == s[..4] + s[4..length + 4] + s[length + 4..];
  }

  lemma ParsePrefixed(f: Frame, t: seq<Byte>)
    requires ValidFrame(f)
    ensures Parse(Prefixed(f) + t) == Parsed([f] + Parse(t).frames, Parse(t).rest, Parse(t).malformed)
  {
    var s := Prefixed(f) + t;
    BigEndianRoundTrip(|f|);
    assert s[..4] == BigEndian32(|f|);
    assert s[4..|f| + 4] == f;
    assert s[|f| + 4..] == t;
  }

  /** Encoding then parsing returns the frames, whatever follows them on the stream. */
  lemma {:induction false} ParseEncoded(fs: seq<Frame>, t: seq<Byte>)
    requires ValidFrames(fs)
    ensures Parse(EncodeStream(fs) + t) == Parsed(fs + Parse(t).frames, Parse(t).rest, Parse(t).malformed)
    decreases |fs|
  {
    hide Parse, Prefixed;
    if fs == [] {
      assert EncodeStream(fs) + t == t;
      assert fs + Parse(t).frames == Parse(t).frames;
    } else {
      var f, more := fs[0], fs[1..];
      ParseEncoded(more, t);
      Associative(Prefixed(f), EncodeStream(more), t);
      ParsePrefixed(f, EncodeStream(more) + t);
      assert fs == [f] + more;
      Associative([f], more, Parse(t).frames);
    }
  }

  /** Reading may stop after any byte: parsing what has arrived, and then its rest with what arrives next,
      is parsing everything at once. */
  lemma ParseResumes(a: seq<Byte>, b: seq<Byte>)
    ensures
      var first := Parse(a);
      var second := Parse(first.rest + b);
      Parse(a + b) == Parsed(first.frames + second.frames, second.rest, second.malformed)
  {
    ParseIsInverse(a);
    assert a + b == EncodeStream(Parse(a).frames) + (Parse(a).rest + b);
    ParseEncoded(Parse(a).frames, Parse(a).rest + b);
  }

  /** A malformed length is final: nothing that arrives later changes what was read before it. */
  lemma MalformedIsFinal(a: seq<Byte>, b: seq<Byte>)
    requires Parse(a).malformed
    ensures Parse(a + b).malformed && Parse(a + b).frames == Parse(a).frames
  {
    ParseResumes(a, b);
    MalformedRest(a);
    var r := Parse(a).rest;
    assert (r + b)[..4] == r[..4];
    assert Parse(a).frames + [] == Parse(a).frames;
  }

  lemma {:induction false} MalformedRest(s: seq<Byte>)
    requires Parse(s).malformed
    ensures
      var r := Parse(s).rest;
      && |r| >= 4
      && (FromBigEndian32(r[..4]) < MIN_FRAME || FromBigEndian32(r[..4]) > MAX_FRAME)
  {
    var length := FromBigEndian32(s[..4]);
    if MIN_FRAME <= length <= MAX_FRAME {
      MalformedRest(s[length + 4..]);
    }
  }

  // ---- BPF records ----

  /** The layout of a BPF header in <net/bpf.h> on a little-endian host: an eight-byte timestamp, bh_caplen at 8,
      bh_datalen at 12 and bh_hdrlen at 16; two bytes of padding make twenty. */
  const HEADER: nat := 20
  const MINIMUM: nat := 18

  function WordAlign(n: nat): (m: nat)
    ensures n <= m < n + 4 && m % 4 == 0
  {
    (n + 3) / 4 * 4
  }

  function LittleEndian32(n: nat): (b: seq<Byte>)
    requires n < 0x1_0000_0000
    ensures |b| == 4
  {
    [n % 0x100, n / 0x100 % 0x100, n / 0x100 / 0x100 % 0x100, n / 0x100 / 0x100 / 0x100]
  }

  function FromLittleEndian32(b: seq<Byte>): (n: nat)
    requires |b| == 4
  {
    b[0] as int + (b[1] as int) * 0x100 + (b[2] as int) * 0x1_0000 + (b[3] as int) * 0x100_0000
  }

  function FromLittleEndian16(b: seq<Byte>): (n: nat)
    requires |b| == 2
  {
    b[0] as int + (b[1] as int) * 0x100
  }

  /** The host's order is network order backwards. */
  lemma LittleIsBigBackwards(n: nat)
    requires n < 0x1_0000_0000
    ensures forall i :: 0 <= i < 4 ==> LittleEndian32(n)[i] == BigEndian32(n)[3 - i]
    ensures FromLittleEndian32(LittleEndian32(n)) == n
    ensures n < 0x1_0000 ==> FromLittleEndian16(LittleEndian32(n)[..2]) == n
  {
    BigEndianRoundTrip(n);
    if n < 0x1_0000 {
      assert n / 0x100 / 0x100 == 0;
    }
  }

  datatype Header = Header(hdrlen: nat, caplen: nat, datalen: nat)

  function HeaderAt(b: seq<Byte>): (header: Header)
    requires |b| >= MINIMUM
  {
    Header(FromLittleEndian16(b[16..18]), FromLittleEndian32(b[8..12]), FromLittleEndian32(b[12..16]))
  }

  /** A header starts with a time stamp of eight bytes, which is not looked at. */
  lemma TimeStampIgnored(b: seq<Byte>, c: seq<Byte>)
    requires |b| == |c| >= MINIMUM && b[8..] == c[8..]
    ensures HeaderAt(b) == HeaderAt(c)
  {
    assert b[8..12] == b[8..][..4] && c[8..12] == c[8..][..4];
    assert b[12..16] == b[8..][4..8] && c[12..16] == c[8..][4..8];
    assert b[16..18] == b[8..][8..10] && c[16..18] == c[8..][8..10];
  }

  function Zeros(n: nat): (z: seq<Byte>)
    ensures |z| == n
  {
    seq(n, i => 0)
  }

  function HeaderBytes(length: nat): (b: seq<Byte>)
    requires length < 0x1_0000_0000
    ensures |b| == HEADER
  {
    Zeros(8) + LittleEndian32(length) + LittleEndian32(length) + [HEADER, 0, 0, 0]
  }

  function RecordSize(length: nat): (n: nat)
    ensures HEADER + length <= n <= HEADER + length + 3
  {
    WordAlign(HEADER + length)
  }

  function Record(f: Frame): (r: seq<Byte>)
    requires ValidFrame(f)
    ensures |r| == RecordSize(|f|)
  {
    HeaderBytes(|f|) + f + Zeros(RecordSize(|f|) - HEADER - |f|)
  }

  function EncodeRecords(fs: seq<Frame>): (bytes: seq<Byte>)
    requires ValidFrames(fs)
  {
    if fs == [] then [] else Record(fs[0]) + EncodeRecords(fs[1..])
  }

  predicate ValidHeader(h: Header, available: nat) {
    && MINIMUM <= h.hdrlen
    && h.hdrlen + h.caplen <= available
    && h.caplen == h.datalen
    && MIN_FRAME <= h.caplen <= MAX_FRAME
  }

  /** The frames of a record buffer up to its end or its first bad record. */
  datatype Captured = Captured(frames: seq<Frame>, ok: bool)

  function Capture(buf: seq<Byte>): (captured: Captured)
    decreases |buf|
  {
    if |buf| == 0 then Captured([], true)
    else if |buf| < MINIMUM then Captured([], false)
    else
      var h := HeaderAt(buf);
      if !ValidHeader(h, |buf|) then Captured([], false)
      else
        var tail := Capture(AfterRecord(buf, h));
        Captured([buf[h.hdrlen..h.hdrlen + h.caplen]] + tail.frames, tail.ok)
  }

  /** The last record of a capture need not be padded. */
  function AfterRecord(buf: seq<Byte>, h: Header): (rest: seq<Byte>)
    requires |buf| >= MINIMUM && ValidHeader(h, |buf|)
    ensures |rest| < |buf|
  {
    var next := WordAlign(h.hdrlen + h.caplen);
    if next >= |buf| then [] else buf[next..]
  }

  lemma {:induction false} CapturedFramesAreValid(buf: seq<Byte>)
    ensures ValidFrames(Capture(buf).frames)
    decreases |buf|
  {
    if |buf| >= MINIMUM {
      var h := HeaderAt(buf);
      if ValidHeader(h, |buf|) {
        CapturedFramesAreValid(AfterRecord(buf, h));
      }
    }
  }

  lemma HeaderOfRecord(f: Frame, t: seq<Byte>)
    requires ValidFrame(f)
    ensures |Record(f) + t| >= MINIMUM
    ensures HeaderAt(Record(f) + t) == Header(HEADER, |f|, |f|)
    ensures (Record(f) + t)[HEADER..HEADER + |f|] == f
    ensures (Record(f) + t)[RecordSize(|f|)..] == t
  {
    var b := Record(f) + t;
    assert b[8..12] == LittleEndian32(|f|);
    assert b[12..16] == LittleEndian32(|f|);
    assert b[16..18] == [HEADER, 0];
  }

  lemma CaptureRecord(f: Frame, t: seq<Byte>)
    requires ValidFrame(f)
    ensures Capture(Record(f) + t) == Captured([f] + Capture(t).frames, Capture(t).ok)
  {
    HeaderOfRecord(f, t);
    var b := Record(f) + t;
    assert AfterRecord(b, HeaderAt(b)) == t;
  }

  /** Records packed one after the other are read back as the frames that were packed. */
  lemma {:induction false} CaptureEncoded(fs: seq<Frame>, t: seq<Byte>)
    requires ValidFrames(fs)
    ensures Capture(EncodeRecords(fs) + t) == Captured(fs + Capture(t).frames, Capture(t).ok)
    decreases |fs|
  {
    hide Capture, Record;
    if fs == [] {
      assert EncodeRecords(fs) + t == t;
      assert fs + Capture(t).frames == Capture(t).frames;
    } else {
      var f, more := fs[0], fs[1..];
      CaptureEncoded(more, t);
      Associative(Record(f), EncodeRecords(more), t);
      CaptureRecord(f, EncodeRecords(more) + t);
      assert fs == [f] + more;
      Associative([f], more, Capture(t).frames);
    }
  }

  lemma {:induction false} EncodeRecordsPush(fs: seq<Frame>, f: Frame)
    requires ValidFrames(fs) && ValidFrame(f)
    ensures ValidFrames(fs + [f]) && EncodeRecords(fs + [f]) == EncodeRecords(fs) + Record(f)
  {
    if fs == [] {
      assert fs + [f] == [f] && EncodeRecords([f][1..]) == [];
    } else {
      assert (fs + [f])[1..] == fs[1..] + [f];
      EncodeRecordsPush(fs[1..], f);
      Associative(Record(fs[0]), EncodeRecords(fs[1..]), Record(f));
    }
  }
}
