/** The companion framing of scripts/simulate_tcp_mesh_network.py: a start byte, a 16-bit
    little-endian length and the payload.  `_rx_loop` decodes it from reads of any size. */
module Framing {
  import opened Common

  const HEADER_SIZE := 3
  const FRAME_RADIO_TO_APP: Byte := 0x3E

  // ---------------------------------------------------------------- one parse of a whole stream

  /** The stream from its first start byte on. */
  function Strip(b: Bytes): (s: Bytes)
    ensures |s| <= |b| && (s != [] ==> s[0] == FRAME_RADIO_TO_APP)
  {
    if b == [] || b[0] == FRAME_RADIO_TO_APP then b else Strip(b[1..])
  }

  /** The length the header announces. */
  function Announced(s: Bytes): nat
    requires |s| >= HEADER_SIZE
  {
    (s[1] as int) + 256 * (s[2] as int)
  }

  predicate Complete(s: Bytes) {
    |s| >= HEADER_SIZE && |s| >= HEADER_SIZE + Announced(s)
  }

  datatype Parsed = Parsed(frames: seq<Bytes>, rest: Bytes) {
    function Before(p: Parsed): Parsed {
      Parsed(frames + p.frames, p.rest)
    }
  }

  function Parse(b: Bytes): Parsed
    decreases |b|, 1
  {
    ParseAt(Strip(b))
  }

  /** Parse a stream that is empty or begins with a start byte. */
  function ParseAt(s: Bytes): Parsed
    decreases |s|, 0
  {
    if Complete(s) then Parsed([Head(s)], []).Before(Parse(Tail(s))) else Parsed([], s)
  }

  function Head(s: Bytes): Bytes
    requires Complete(s)
  {
    s[HEADER_SIZE..HEADER_SIZE + Announced(s)]
  }

  function Tail(s: Bytes): (t: Bytes)
    requires Complete(s)
    ensures |t| < |s|
  {
    s[HEADER_SIZE + Announced(s)..]
  }

  // ---------------------------------------------------------------- chunking does not matter

  lemma {:induction false} StripAppend(b: Bytes, c: Bytes)
    ensures Strip(b + c) == if Strip(b) == [] then Strip(c) else Strip(b) + c
    ensures Strip(Strip(b) + c) == Strip(b + c)
  {
    if b == [] {
      assert b + c == c;
    } else if b[0] != FRAME_RADIO_TO_APP {
      assert (b + c)[1..] == b[1..] + c;
      StripAppend(b[1..], c);
    }
    if Strip(b) == [] {
      assert Strip(b) + c == c;
    }
  }

  /** Leading noise does not matter, whatever follows. */
  lemma ParseStripped(b: Bytes, c: Bytes)
    ensures Parse(b + c) == Parse(Strip(b) + c)
  {
    StripAppend(b, c);
  }

  lemma CompleteAppend(s: Bytes, c: Bytes)
    requires Complete(s)
    ensures Complete(s + c) && Head(s + c) == Head(s) && Tail(s + c) == Tail(s) + c
  {
  }

  lemma BeforeIsAssociative(p: Parsed, q: Parsed, r: Parsed)
    ensures p.Before(q.Before(r)) == p.Before(q).Before(r)
  {
  }

  lemma {:induction false} ParseAppend(b: Bytes, c: Bytes)
    ensures Parse(b + c) == Parse(b).Before(Parse(Parse(b).rest + c))
    decreases |b|
  {
    var s := Strip(b);
    StripAppend(b, c);
    if Complete(s) {
      CompleteAppend(s, c);
      ParseAppend(Tail(s), c);
      var head, p := Parsed([Head(s)], []), Parse(Tail(s));
      assert Parse(b) == head.Before(p);
      assert Parse(b + c) == head.Before(Parse(Tail(s) + c));
      BeforeIsAssociative(head, p, Parse(p.rest + c));
    }
  }

  function Concat(chunks: seq<Bytes>): Bytes {
    if chunks == [] then [] else Concat(chunks[..|chunks| - 1]) + chunks[|chunks| - 1]
  }

  /** The reads before the end of the stream, which an empty read reports. */
  function BeforeEof(chunks: seq<Bytes>): seq<Bytes> {
    if chunks == [] || chunks[0] == [] then [] else [chunks[0]] + BeforeEof(chunks[1..])
  }

  lemma {:induction false} BeforeEofPrefix(chunks: seq<Bytes>, n: nat)
    requires n <= |chunks| && forall i | 0 <= i < n :: chunks[i] != []
    requires n == |chunks| || chunks[n] == []
    ensures BeforeEof(chunks) == chunks[..n]
  {
    if n > 0 {
      BeforeEofPrefix(chunks[1..], n - 1);
      assert chunks[..n] == [chunks[0]] + chunks[1..][..n - 1];
    }
  }

  // ---------------------------------------------------------------- round trip

  /** `send_command`: the header keeps the low 16 bits of the length.  Commands start with 0x3C;
      the frames that the decoder looks for have the same header with the other start byte. */
  function Frame(start: Byte, payload: Bytes): Bytes {
    [start, |payload| % 256, |payload| / 256 % 256] + payload
  }

  /** The wire format: start byte, length with the low byte first, payload. */
  lemma FrameBytes(start: Byte, payload: Bytes)
    requires |payload| < 0x1_0000
    ensures var f := Frame(start, payload);
            && |f| == 3 + |payload| && f[0] == start && f[1] as int + 256 * (f[2] as int) == |payload| && f[3..] == payload
  {
    assert |payload| / 256 % 256 == |payload| / 256;
  }

  /** One frame is read back exactly when its length fits the header. */
  lemma FrameRoundTrip(payload: Bytes, more: Bytes)
    ensures |payload| < 65536 ==>
              Parse(Frame(FRAME_RADIO_TO_APP, payload) + more) == Parsed([payload], []).Before(Parse(more))
    ensures Parse(Frame(FRAME_RADIO_TO_APP, payload)).frames == [payload] <==> |payload| < 65536
  {
    HeaderAnnounces(payload, more);
    HeaderAnnounces(payload, []);
    assert Frame(FRAME_RADIO_TO_APP, payload) + [] == Frame(FRAME_RADIO_TO_APP, payload);
    var f := Frame(FRAME_RADIO_TO_APP, payload);
    assert Parse(f) == Parsed([Head(f)], []).Before(Parse(Tail(f)));
    if |payload| < 65536 {
      assert Parse([]) == Parsed([], []);
      assert [payload] + [] == [payload];
    } else {
      assert Parse(f).frames[0] == Head(f);
    }
  }

  lemma HeaderAnnounces(payload: Bytes, more: Bytes)
    ensures var s := Frame(FRAME_RADIO_TO_APP, payload) + more;
            && Strip(s) == s && |s| == HEADER_SIZE + |payload| + |more|
            && Announced(s) == |payload| % 65536
            && Complete(s) && |Head(s)| == |payload| % 65536
            && (|payload| < 65536 ==> Head(s) == payload && Tail(s) == more)
  {
    var s := Frame(FRAME_RADIO_TO_APP, payload) + more;
    assert s == [FRAME_RADIO_TO_APP, |payload| % 256, |payload| / 256 % 256] + (payload + more);
    assert s[1] == |payload| % 256 && s[2] == |payload| / 256 % 256;
    SixteenBits(|payload|);
  }

  lemma SixteenBits(n: nat)
    ensures n % 256 + 256 * (n / 256 % 256) == n % 65536
  {
    var low, q := n % 256 + 256 * (n / 256 % 256), n / 256 / 256;
    assert n == 65536 * q + low;
    assert 0 <= low < 65536;
  }

  predicate Noise(b: Bytes) {
    FRAME_RADIO_TO_APP !in b
  }

  lemma {:induction false} NoiseIsStripped(noise: Bytes, c: Bytes)
    requires Noise(noise)
    ensures Strip(noise) == [] && Parse(noise + c) == Parse(c)
  {
    if noise == [] {
      assert noise + c == c;
    } else {
      NoiseIsStripped(noise[1..], c);
      StripAppend(noise, c);
    }
  }

  datatype Item = Item(noise: Bytes, payload: Bytes)

  function Stream(items: seq<Item>, tail: Bytes): Bytes {
    if items == [] then tail
    else items[0].noise + (Frame(FRAME_RADIO_TO_APP, items[0].payload) + Stream(items[1..], tail))
  }

  function Payloads(items: seq<Item>): seq<Bytes> {
    if items == [] then [] else [items[0].payload] + Payloads(items[1..])
  }

  /** Any list of payloads that fit their headers is recovered, with noise that holds no start
      byte before, between and after the frames. */
  lemma {:induction false} StreamRoundTrip(items: seq<Item>, tail: Bytes)
    requires Noise(tail) && forall i | 0 <= i < |items| :: Noise(items[i].noise) && |items[i].payload| < 65536
    ensures Parse(Stream(items, tail)) == Parsed(Payloads(items), [])
  {
    if items == [] {
      NoiseIsStripped(tail, []);
      assert tail + [] == tail;
    } else {
      StreamRoundTrip(items[1..], tail);
      var more := Stream(items[1..], tail);
      NoiseIsStripped(items[0].noise, Frame(FRAME_RADIO_TO_APP, items[0].payload) + more);
      FrameRoundTrip(items[0].payload, more);
    }
  }

  // ---------------------------------------------------------------- the program

  /** `buffer.find` of the start byte, -1 when there is none. */
  function Find(b: Bytes): (i: int)
    ensures i < 0 ==> Strip(b) == []
    ensures 0 <= i ==> i < |b| && Strip(b) == b[i..]
  {
    if b == [] then -1
    else if b[0] == FRAME_RADIO_TO_APP then 0
    else
      var i := Find(b[1..]);
      if i < 0 then -1 else i + 1
  }

  /** The inner loop: take every complete frame out of the buffer. */
  method Drain(data: Bytes) returns (frames: seq<Bytes>, buffer: Bytes)
    ensures frames == Parse(data).frames && Strip(buffer) == Parse(data).rest
  {
    buffer, frames := data, [];
    ParseStripped(data, []);
    while |buffer| >= HEADER_SIZE
      invariant Parsed(frames, []).Before(Parse(buffer)) == Parse(data)
      decreases |buffer|
    {
      var sof := Find(buffer);
      if sof < 0 {
        buffer := [];
        break;
      }
      if sof > 0 {
        buffer := buffer[sof..];
      }
      if |buffer| < HEADER_SIZE {
        break;
      }
      var totalLen := HEADER_SIZE + Announced(buffer);
      if |buffer| < totalLen {
        break;
      }
      frames := frames + [Head(buffer)];
      buffer := Tail(buffer);
    }
  }

  /** `_rx_loop`: however the stream is split into reads, the payloads are those of one parse
      of everything read before the end. */
  method RxLoop(chunks: seq<Bytes>) returns (rxFrames: seq<Bytes>)
    ensures rxFrames == Parse(Concat(BeforeEof(chunks))).frames
  {
    var buffer := [];
    rxFrames := [];
    var n := 0;
    while n < |chunks| && chunks[n] != []
      invariant n <= |chunks| && forall i | 0 <= i < n :: chunks[i] != []
      invariant rxFrames == Parse(Concat(chunks[..n])).frames
      invariant Strip(buffer) == Parse(Concat(chunks[..n])).rest
    {
      var seen := Concat(chunks[..n]);
      assert chunks[..n + 1][..n] == chunks[..n];
      ParseAppend(seen, chunks[n]);
      ParseStripped(buffer, chunks[n]);
      var frames;
      frames, buffer := Drain(buffer + chunks[n]);
      rxFrames := rxFrames + frames;
      n := n + 1;
    }
    BeforeEofPrefix(chunks, n);
  }
}
