/** The capture ring of src/packet_buffer.py, its pages and its PCAP export.  Capture times are
    whole microseconds.  The reader follows the format of draft-ietf-opsawg-pcap, section 4
    (file header) and section 5 (packet records), for little-endian files. */
module PacketCapture {
  import opened Common

  /** `raw` are the retained bytes and `size` how many there were; `caption` and `text`, in UTF-8, make
      up the line that stands in for them when there are none. */
  datatype Packet = Packet(
    packetId: nat, micros: nat, direction: string, packetType: string, raw: Bytes, caption: Bytes, text: Bytes, size: nat)

  /** What `record` is called with.  The three flags are its own argument, a text type of 1 in the
      payload, and a payload that is a sensitive response. */
  datatype Input = Input(
    micros: nat, direction: string, packetType: string, rawBytes: Bytes, caption: Bytes, text: Bytes,
    redactContent: bool, commandText: bool, sensitiveResponse: bool)

  /** "Contenido de administraci\u00f3n protegido" */
  const PROTECTED: Bytes :=
    [0x43, 0x6F, 0x6E, 0x74, 0x65, 0x6E, 0x69, 0x64, 0x6F, 0x20, 0x64, 0x65, 0x20,
     0x61, 0x64, 0x6D, 0x69, 0x6E, 0x69, 0x73, 0x74, 0x72, 0x61, 0x63, 0x69, 0xC3, 0xB3, 0x6E, 0x20,
     0x70, 0x72, 0x6F, 0x74, 0x65, 0x67, 0x69, 0x64, 0x6F]

  predicate Redacted(i: Input) {
    i.redactContent || i.packetType == "CLI_REPLY" || i.commandText || i.sensitiveResponse
  }

  /** The observed bytes, or else those of the text. */
  function Observed(i: Input): Bytes {
    if i.rawBytes == [] then i.text else i.rawBytes
  }

  function Captures(id: nat, i: Input): Packet {
    Packet(id, i.micros, i.direction, i.packetType, if Redacted(i) then [] else Observed(i),
           i.caption, if Redacted(i) then PROTECTED else i.text, |Observed(i)|)
  }

  // ---------------------------------------------------------------- little-endian numbers

  function Le16(n: nat): Bytes
    requires n < 0x1_0000
  {
    [n % 256, n / 256]
  }

  function Le32(n: nat): Bytes
    requires n < 0x1_0000_0000
  {
    Le16(n % 0x1_0000) + Le16(n / 0x1_0000)
  }

  function Read16(b: Bytes): nat
    requires |b| >= 2
  {
    (b[0] as int) + 256 * (b[1] as int)
  }

  function Read32(b: Bytes): nat
    requires |b| >= 4
  {
    Read16(b) + 0x1_0000 * Read16(b[2..])
  }

  // ---------------------------------------------------------------- writing

  const SNAPLEN := 65535
  const MICROS := 1_000_000

  /** Magic number, version 2.4, no zone, no accuracy, snap length, DLT_USER0. */
  const GLOBAL_HEADER: Bytes :=
    Le32(0xA1B2C3D4) + (Le16(2) + Le16(4)) + Le32(0) + Le32(0) + Le32(SNAPLEN) + Le32(147)

  function FrameData(p: Packet): Bytes {
    if p.raw == [] then p.caption + p.text else p.raw
  }

  function Included(p: Packet): nat {
    if |FrameData(p)| <= SNAPLEN then |FrameData(p)| else SNAPLEN
  }

  /** The two fields that `struct.pack` refuses when they do not fit 32 bits. */
  predicate Packable(p: Packet) {
    p.micros / MICROS < 0x1_0000_0000 && |FrameData(p)| < 0x1_0000_0000
  }

  function RecordHeader(p: Packet): Bytes
    requires Packable(p)
  {
    Le32(p.micros / MICROS) + (Le32(p.micros % MICROS) + (Le32(Included(p)) + Le32(|FrameData(p)|)))
  }

  function RecordOf(p: Packet): Bytes
    requires Packable(p)
  {
    RecordHeader(p) + FrameData(p)[..Included(p)]
  }

  function Records(ps: seq<Packet>): Option<Bytes> {
    if ps == [] then Some([])
    else
      var rest := Records(ps[1..]);
      if !Packable(ps[0]) || rest.None? then None else Some(RecordOf(ps[0]) + rest.value)
  }

  // ---------------------------------------------------------------- reading

  datatype Captured = Captured(seconds: nat, micros: nat, bytes: Bytes, originalLength: nat)

  function ReadRecords(b: Bytes): Option<seq<Captured>>
    decreases |b|
  {
    if b == [] then Some([])
    else if |b| < 16 then None
    else
      var captured := Read32(b[8..]);
      if |b| < 16 + captured then None
      else
        var rest := ReadRecords(b[16 + captured..]);
        if rest.None? then None
        else Some([Captured(Read32(b), Read32(b[4..]), b[16..16 + captured], Read32(b[12..]))] + rest.value)
  }

  /** A reader of little-endian microsecond files: checks the magic number and version, takes the
      snap length and link type as they are. */
  function ReadPcap(b: Bytes): Option<(nat, nat, seq<Captured>)> {
    if |b| < 24 || Read32(b) != 0xA1B2C3D4 || Read16(b[4..]) != 2 || Read16(b[6..]) != 4 then None
    else
      var records := ReadRecords(b[24..]);
      if records.None? then None else Some((Read32(b[16..]), Read32(b[20..]), records.value))
  }

  /** What a reader should see of a packet. */
  function View(p: Packet): Captured {
    Captured(p.micros / MICROS, p.micros % MICROS, FrameData(p)[..Included(p)], |FrameData(p)|)
  }

  function Views(ps: seq<Packet>): seq<Captured> {
    if ps == [] then [] else [View(ps[0])] + Views(ps[1..])
  }

  lemma HeaderFields(p: Packet, more: Bytes)
    requires Packable(p)
    ensures var b := RecordHeader(p) + more;
            && |RecordHeader(p)| == 16 && b[16..] == more
            && Read32(b) == p.micros / MICROS && Read32(b[4..]) == p.micros % MICROS
            && Read32(b[8..]) == Included(p) && Read32(b[12..]) == |FrameData(p)|
  {
  }

  lemma RecordRoundTrip(p: Packet, more: Bytes)
    requires Packable(p)
    ensures var rest := ReadRecords(more);
            ReadRecords(RecordOf(p) + more) == if rest.None? then None else Some([View(p)] + rest.value)
  {
    var data := FrameData(p)[..Included(p)];
    var b := RecordOf(p) + more;
    assert b == RecordHeader(p) + (data + more);
    HeaderFields(p, data + more);
    assert b[16..16 + Included(p)] == b[16..][..Included(p)] == data;
    assert b[16 + Included(p)..] == b[16..][Included(p)..] == more;
  }

  lemma {:induction false} RecordsExist(ps: seq<Packet>)
    ensures Records(ps).Some? <==> forall i | 0 <= i < |ps| :: Packable(ps[i])
  {
    if ps != [] {
      RecordsExist(ps[1..]);
      assert forall i | 0 < i < |ps| :: ps[i] == ps[1..][i - 1];
    }
  }

  lemma {:induction false} RecordsRoundTrip(ps: seq<Packet>)
    ensures Records(ps).Some? ==> ReadRecords(Records(ps).value) == Some(Views(ps))
  {
    if ps != [] {
      RecordsRoundTrip(ps[1..]);
      if Packable(ps[0]) && Records(ps[1..]).Some? {
        RecordRoundTrip(ps[0], Records(ps[1..]).value);
      }
    }
  }

  lemma GlobalHeaderBytes()
    ensures GLOBAL_HEADER
         == [0xD4, 0xC3, 0xB2, 0xA1, 2, 0, 4, 0, 0, 0, 0, 0, 0, 0, 0, 0, 0xFF, 0xFF, 0, 0, 147, 0, 0, 0]
  {
    assert Le32(0xA1B2C3D4) == [0xD4, 0xC3, 0xB2, 0xA1];
    assert Le16(2) + Le16(4) == [2, 0, 4, 0];
    assert Le32(0) == [0, 0, 0, 0];
    assert Le32(SNAPLEN) == [0xFF, 0xFF, 0, 0];
    assert Le32(147) == [147, 0, 0, 0];
  }

  lemma GlobalHeaderIsRead(more: Bytes)
    ensures var b := GLOBAL_HEADER + more;
            && |GLOBAL_HEADER| == 24 && b[24..] == more
            && Read32(b) == 0xA1B2C3D4 && Read16(b[4..]) == 2 && Read16(b[6..]) == 4
            && Read32(b[16..]) == SNAPLEN && Read32(b[20..]) == 147
  {
  }

  /** Reading back an export gives each buffered packet's seconds, microseconds, truncated bytes
      and original length, in order; there is an export exactly when every field fits. */
  lemma PcapRoundTrip(ps: seq<Packet>)
    ensures Records(ps).Some? ==> ReadPcap(GLOBAL_HEADER + Records(ps).value) == Some((SNAPLEN, 147, Views(ps)))
    ensures Records(ps).Some? <==> forall i | 0 <= i < |ps| :: Packable(ps[i])
  {
    RecordsExist(ps);
    RecordsRoundTrip(ps);
    if Records(ps).Some? {
      GlobalHeaderIsRead(Records(ps).value);
    }
  }

  // ---------------------------------------------------------------- what an export holds

  /** The start of `all` that fits the snap length, and the length of the whole. */
  ghost predicate Shows(c: Captured, all: Bytes) {
    c.originalLength == |all| && c.bytes == (if |all| <= 65535 then all else all[..65535])
  }

  /** A record that is read back shows the time to the microsecond, and the captured bytes; only
      where there are none, the caption and the text. */
  ghost predicate ReadsBack(c: Captured, p: Packet) {
    && 1_000_000 * c.seconds + c.micros == p.micros && c.micros < 1_000_000
    && (p.raw != [] ==> Shows(c, p.raw))
    && (p.raw == [] ==> Shows(c, p.caption + p.text))
  }

  ghost predicate AllReadBack(pcap: Bytes, ps: seq<Packet>) {
    match ReadPcap(pcap)
    case None => false
    case Some((snaplen, network, records)) =>
      snaplen == 65535 && network == 147 && |records| == |ps| && forall i | 0 <= i < |ps| :: ReadsBack(records[i], ps[i])
  }

  /** The seconds and the length fit 32 bits. */
  ghost predicate Fits(p: Packet) {
    p.micros < 0x1_0000_0000 * 1_000_000 && (if p.raw != [] then |p.raw| else |p.caption| + |p.text|) < 0x1_0000_0000
  }

  lemma PackableMeans(ps: seq<Packet>)
    ensures (forall i | 0 <= i < |ps| :: Packable(ps[i])) <==> (forall i | 0 <= i < |ps| :: Fits(ps[i]))
  {
    assert forall i | 0 <= i < |ps| :: Packable(ps[i]) <==> Fits(ps[i]);
  }

  lemma ViewReadsBack(p: Packet)
    ensures ReadsBack(View(p), p)
  {
  }

  lemma {:induction false} ViewsReadBack(ps: seq<Packet>)
    ensures |Views(ps)| == |ps| && forall i | 0 <= i < |ps| :: ReadsBack(Views(ps)[i], ps[i])
  {
    if ps != [] {
      ViewReadsBack(ps[0]);
      ViewsReadBack(ps[1..]);
      assert forall i | 0 < i < |ps| :: ps[i] == ps[1..][i - 1] && Views(ps)[i] == Views(ps[1..])[i - 1];
    }
  }

  /** There is an export exactly when every time and length fits, and then it reads back as the
      bytes, times and lengths of the ring. */
  lemma ExportReadsBack(ps: seq<Packet>)
    ensures Records(ps).Some? <==> forall i | 0 <= i < |ps| :: Fits(ps[i])
    ensures Records(ps).Some? ==> AllReadBack(GLOBAL_HEADER + Records(ps).value, ps)
  {
    PcapRoundTrip(ps);
    PackableMeans(ps);
    ViewsReadBack(ps);
  }

  /** What was recorded of a packet is what an export shows: the bytes that were handed in, or else
      the text as bytes; of a redacted packet, the caption and the notice. */
  lemma CaptureReadsBack(id: nat, i: Input, c: Captured)
    requires ReadsBack(c, Captures(id, i))
    ensures var hidden := i.redactContent || i.packetType == "CLI_REPLY" || i.commandText || i.sensitiveResponse;
            && (hidden ==> Shows(c, i.caption + PROTECTED))
            && (!hidden && i.rawBytes != [] ==> Shows(c, i.rawBytes))
            && (!hidden && i.rawBytes == [] && i.text != [] ==> Shows(c, i.text))
            && (!hidden && i.rawBytes == [] && i.text == [] ==> Shows(c, i.caption))
  {
    if i.text == [] && i.rawBytes == [] {
      assert i.caption + i.text == i.caption;
    }
  }

  /** The record of one received byte at one and a half seconds. */
  lemma RecordBytes(p: Packet)
    requires p.micros == 1_500_000 && p.raw == [0xC0]
    ensures Packable(p)
    ensures RecordOf(p) == [1, 0, 0, 0, 0x20, 0xA1, 7, 0, 1, 0, 0, 0, 1, 0, 0, 0, 0xC0]
  {
    assert Le32(1) == [1, 0, 0, 0] && Le32(500_000) == [0x20, 0xA1, 7, 0];
    assert p.raw[..1] == [0xC0];
  }

  // ---------------------------------------------------------------- redaction

  /** The captures of a list of inputs, numbered on from `id`. */
  function CapturesOf(inputs: seq<Input>, id: nat): seq<Packet> {
    if inputs == [] then [] else [Captures(id, inputs[0])] + CapturesOf(inputs[1..], id + 1)
  }

  /** Two inputs that must not be told apart: the same, or both redacted, at the same time and with
      the same caption. */
  predicate Alike(i: Input, j: Input) {
    i == j || (Redacted(i) && Redacted(j) && i.micros == j.micros && i.caption == j.caption)
  }

  predicate AllAlike(inputs: seq<Input>, others: seq<Input>) {
    |inputs| == |others| && forall k | 0 <= k < |inputs| :: Alike(inputs[k], others[k])
  }

  /** Packets that leave the same record. */
  predicate SameRecord(p: Packet, q: Packet) {
    p.micros == q.micros && FrameData(p) == FrameData(q)
  }

  predicate SameRecords(ps: seq<Packet>, qs: seq<Packet>) {
    |ps| == |qs| && forall k | 0 <= k < |ps| :: SameRecord(ps[k], qs[k])
  }

  lemma {:induction false} SameRecordsExportAlike(ps: seq<Packet>, qs: seq<Packet>)
    requires SameRecords(ps, qs)
    ensures Records(ps) == Records(qs)
    decreases |ps|
  {
    if ps != [] {
      assert SameRecord(ps[0], qs[0]);
      SameRecordsExportAlike(ps[1..], qs[1..]);
    }
  }

  lemma {:induction false} AlikeLeaveSameRecords(inputs: seq<Input>, others: seq<Input>, id: nat)
    requires AllAlike(inputs, others)
    ensures SameRecords(CapturesOf(inputs, id), CapturesOf(others, id))
    decreases |inputs|
  {
    if inputs != [] {
      assert Alike(inputs[0], others[0]);
      AlikeLeaveSameRecords(inputs[1..], others[1..], id + 1);
    }
  }

  lemma BoundedKeepsSameRecords(ps: seq<Packet>, qs: seq<Packet>, max: nat)
    requires SameRecords(ps, qs)
    ensures SameRecords(Bounded(ps, max), Bounded(qs, max))
  {
    BoundedSuffix(ps, max);
    BoundedSuffix(qs, max);
  }

  /** Nothing of what is redacted gets into an export: two runs of captures that differ in the
      redacted bytes and texts only leave rings with the same export, byte for byte. */
  lemma RedactionHides(inputs: seq<Input>, others: seq<Input>, max: nat)
    requires AllAlike(inputs, others)
    ensures Records(Bounded(CapturesOf(inputs, 1), max)) == Records(Bounded(CapturesOf(others, 1), max))
  {
    var ps, qs := CapturesOf(inputs, 1), CapturesOf(others, 1);
    AlikeLeaveSameRecords(inputs, others, 1);
    BoundedKeepsSameRecords(ps, qs, max);
    SameRecordsExportAlike(Bounded(ps, max), Bounded(qs, max));
  }

  // ---------------------------------------------------------------- pages

  datatype Order = Ascending | Descending

  predicate Wanted(p: Packet, direction: string, packetType: string) {
    (direction == "" || p.direction == direction) && (packetType == "" || p.packetType == packetType)
  }

  function Filter(ps: seq<Packet>, direction: string, packetType: string): seq<Packet> {
    if ps == [] then []
    else
      var front, p := Filter(ps[..|ps| - 1], direction, packetType), ps[|ps| - 1];
      if Wanted(p, direction, packetType) then front + [p] else front
  }

  function Backwards<T>(s: seq<T>): seq<T> {
    seq(|s|, i requires 0 <= i < |s| => s[|s| - 1 - i])
  }

  function Ordered(ps: seq<Packet>, order: Order): seq<Packet> {
    if order.Descending? then Backwards(ps) else ps
  }

  /** `items[offset:]` and then `[:limit]`; neither applies unless positive. */
  function Page<T>(items: seq<T>, limit: int, offset: int): seq<T> {
    var from := if offset <= 0 then items else if offset >= |items| then [] else items[offset..];
    if 0 < limit < |from| then from[..limit] else from
  }

  /** The page starts at the offset and ends after `limit` items or with the list; an offset or a
      limit that is not positive is none. */
  lemma PageIs<T>(items: seq<T>, limit: int, offset: int)
    ensures var page, from := Page(items, limit, offset), if offset <= 0 then 0 else offset;
            && |page| == (if from >= |items| then 0 else if 0 < limit < |items| - from then limit else |items| - from)
            && forall i | 0 <= i < |page| :: page[i] == items[from + i]
  {
  }

  /** The pages that a client gets by raising the offset by the limit. */
  function Pages<T>(items: seq<T>, limit: nat, offset: nat): seq<T>
    requires limit > 0
    decreases |items| - offset
  {
    if offset >= |items| then [] else Page(items, limit, offset) + Pages(items, limit, offset + limit)
  }

  /** Consecutive pages concatenate to the whole list. */
  lemma {:induction false} PagesConcatenate<T>(items: seq<T>, limit: nat, offset: nat)
    requires limit > 0 && offset <= |items|
    ensures Pages(items, limit, offset) == items[offset..]
    decreases |items| - offset
  {
    if offset < |items| {
      if offset + limit <= |items| {
        PagesConcatenate(items, limit, offset + limit);
        assert items[offset..] == items[offset..][..limit] + items[offset + limit..];
      } else {
        assert Page(items, limit, offset) == items[offset..];
      }
    }
  }

  // ---------------------------------------------------------------- the program

  ghost predicate Consecutive(ps: seq<Packet>, last: nat) {
    forall i | 0 <= i < |ps| :: ps[i].packetId == last - |ps| + 1 + i
  }

  ghost predicate Rising(ps: seq<Packet>) {
    forall i, j | 0 <= i < j < |ps| :: ps[i].packetId < ps[j].packetId
  }

  /** The filtered list is every wanted packet of the ring, once each and in capture order. */
  lemma {:induction false} FilterIsExact(ps: seq<Packet>, last: int, direction: string, packetType: string)
    requires forall i | 0 <= i < |ps| :: ps[i].packetId == last - |ps| + 1 + i
    ensures var kept := Filter(ps, direction, packetType);
            && Rising(kept)
            && (forall p :: p in kept <==> p in ps && Wanted(p, direction, packetType))
  {
    if ps != [] {
      var front, p := ps[..|ps| - 1], ps[|ps| - 1];
      FilterIsExact(front, last - 1, direction, packetType);
      assert ps == front + [p];
      assert forall q | q in front :: q.packetId < p.packetId;
    }
  }

  /** Packets of the ring that match the filters, by rising or by falling ids. */
  ghost predicate Listed(page: seq<Packet>, ps: seq<Packet>, direction: string, packetType: string, order: Order) {
    && (forall i, j | 0 <= i < j < |page| ::
          if order == Ascending then page[i].packetId < page[j].packetId else page[i].packetId > page[j].packetId)
    && (forall p | p in page ::
          p in ps && (direction == "" || p.direction == direction) && (packetType == "" || p.packetType == packetType))
  }

  lemma PageIsListed(ps: seq<Packet>, last: nat, direction: string, packetType: string, order: Order, limit: int, offset: int)
    requires Consecutive(ps, last)
    ensures Listed(Page(Ordered(Filter(ps, direction, packetType), order), limit, offset), ps, direction, packetType, order)
  {
    OrderedIsSorted(ps, last, direction, packetType, order);
    PageIs(Ordered(Filter(ps, direction, packetType), order), limit, offset);
  }

  lemma BackwardsHas<T>(s: seq<T>)
    ensures forall x :: x in Backwards(s) <==> x in s
  {
    forall x | x in s
      ensures x in Backwards(s)
    {
      var i :| 0 <= i < |s| && s[i] == x;
      assert Backwards(s)[|s| - 1 - i] == x;
    }
  }

  /** The whole list in either order: ids go up, or down, and it holds the wanted packets of the ring. */
  lemma OrderedIsSorted(ps: seq<Packet>, last: nat, direction: string, packetType: string, order: Order)
    requires Consecutive(ps, last)
    ensures var items := Ordered(Filter(ps, direction, packetType), order);
            && Listed(items, ps, direction, packetType, order)
            && (forall p | p in ps && Wanted(p, direction, packetType) :: p in items)
  {
    FilterIsExact(ps, last, direction, packetType);
    BackwardsHas(Filter(ps, direction, packetType));
  }

  class PacketBuffer {
    const maxPackets: nat
    var buffer: seq<Packet>
    var counter: nat
    var captureEnabled: bool
    ghost var captured: seq<Packet>     // everything recorded since the last clear

    /** The ring holds the last captures, and their ids have no gap. */
    ghost predicate Valid()
      reads this
    {
      buffer == Bounded(captured, maxPackets) && |captured| <= counter && Consecutive(captured, counter)
    }

    constructor (maxPackets: nat)
      ensures Valid() && this.maxPackets == maxPackets && captured == [] && counter == 0 && captureEnabled
    {
      this.maxPackets := maxPackets;
      buffer, counter, captureEnabled, captured := [], 0, true, [];
    }

    method Record(input: Input) returns (p: Option<Packet>)
      requires Valid()
      modifies this
      ensures Valid() && captureEnabled == old(captureEnabled)
      ensures !captureEnabled ==> p == None && captured == old(captured) && counter == old(counter)
      ensures captureEnabled ==>
                && counter == old(counter) + 1
                && p == Some(Captures(counter, input)) && captured == old(captured) + [p.value]
                && p.value.packetId == counter && p.value.micros == input.micros && p.value.caption == input.caption
                && p.value.direction == input.direction && p.value.packetType == input.packetType
                && p.value.size == (if input.rawBytes != [] then |input.rawBytes| else |input.text|)
                && (if input.redactContent || input.packetType == "CLI_REPLY" || input.commandText || input.sensitiveResponse
                    then p.value.raw == [] && p.value.text == PROTECTED
                    else p.value.raw == (if input.rawBytes != [] then input.rawBytes else input.text) && p.value.text == input.text)
    {
      if !captureEnabled {
        return None;
      }
      counter := counter + 1;
      var bytes, text := input.rawBytes, input.text;
      if bytes == [] && text != [] {
        bytes := text;
      }
      var size := |bytes|;
      if input.redactContent || input.packetType == "CLI_REPLY" || input.commandText || input.sensitiveResponse {
        bytes, text := [], PROTECTED;
      }
      var packet := Packet(counter, input.micros, input.direction, input.packetType, bytes, input.caption, text, size);
      BoundedPush(captured, packet, maxPackets);
      buffer := Bounded(buffer + [packet], maxPackets);
      captured := captured + [packet];
      return Some(packet);
    }

    /** Clearing does not reset the ids. */
    method Clear()
      requires Valid()
      modifies this
      ensures Valid() && buffer == [] && captured == [] && counter == old(counter)
    {
      buffer, captured := [], [];
    }

    method GetPackets(limit: int, offset: int, direction: string, packetType: string, order: Order)
      returns (page: seq<Packet>, total: nat)
      ensures page == Page(Ordered(Filter(buffer, direction, packetType), order), limit, offset)
      ensures total == |Filter(buffer, direction, packetType)|
      ensures Valid() ==> Listed(page, buffer, direction, packetType, order)
      ensures limit <= 0 && offset <= 0 ==> |page| == total
    {
      if Valid() {
        BoundedSuffix(captured, maxPackets);
        PageIsListed(buffer, counter, direction, packetType, order, limit, offset);
      }
      var items: seq<Packet> := [];
      for i := 0 to |buffer|
        invariant items == Filter(buffer[..i], direction, packetType)
      {
        var p := buffer[i];
        assert buffer[..i + 1][..i] == buffer[..i];
        if (direction == "" || p.direction == direction) && (packetType == "" || p.packetType == packetType) {
          items := items + [p];
        }
      }
      assert buffer[..|buffer|] == buffer;
      total := |items|;
      page := Page(Ordered(items, order), limit, offset);
    }

    /** `None` stands for the error that `struct.pack` raises. */
    method GeneratePcap() returns (pcap: Option<Bytes>)
      ensures pcap.Some? <==> forall i | 0 <= i < |buffer| :: Fits(buffer[i])
      ensures pcap.Some? ==> AllReadBack(pcap.value, buffer)
      ensures pcap == if Records(buffer).None? then None else Some(GLOBAL_HEADER + Records(buffer).value)
    {
      ExportReadsBack(buffer);
      pcap := WriteRecords(buffer, GLOBAL_HEADER);
    }
  }

  /** What is still to be written after `data` makes it the whole export. */
  ghost predicate Leads(data: Bytes, todo: seq<Packet>, whole: Option<Bytes>) {
    if Records(todo).None? then whole.None? else whole == Some(data + Records(todo).value)
  }

  lemma WritingLeads(data: Bytes, todo: seq<Packet>, whole: Option<Bytes>)
    requires todo != [] && Leads(data, todo, whole)
    ensures if Packable(todo[0]) then Leads(data + RecordOf(todo[0]), todo[1..], whole) else whole.None?
  {
    if Records(todo).Some? {
      assert data + (RecordOf(todo[0]) + Records(todo[1..]).value) == (data + RecordOf(todo[0])) + Records(todo[1..]).value;
    }
  }

  /** The loop of `generate_pcap`. */
  method WriteRecords(ps: seq<Packet>, header: Bytes) returns (pcap: Option<Bytes>)
    ensures pcap == if Records(ps).None? then None else Some(header + Records(ps).value)
  {
    var data := header;
    ghost var whole := if Records(ps).None? then None else Some(header + Records(ps).value);
    for i := 0 to |ps|
      invariant Leads(data, ps[i..], whole)
    {
      WritingLeads(data, ps[i..], whole);
      assert ps[i..][1..] == ps[i + 1..];
      if !Packable(ps[i]) {
        return None;
      }
      data := data + RecordOf(ps[i]);
    }
    assert data + [] == data;
    return Some(data);
  }
}
