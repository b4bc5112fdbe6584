/** Framing over a byte stream: whatever the chunk boundaries, the parser delivers the frames of
    the stream in order, drops exactly the frames whose checksum fails, and never tears one. */
module Framing {
  import opened Crc
  import opened Wire
  import opened Buffers
  import opened Codecs

  /** A frame whose header the parser accepts and whose length field is right. */
  datatype Frame = Frame(header: PacketHeader, payload: seq<byte>) {
    ghost predicate Valid() {
      HeaderError(header).None? && header.totalLen == HEADER_SIZE + |payload|
    }

    ghost predicate Good() {
      header.checksum == ChecksumValue(payload)
    }

    function Bytes(): (s: seq<byte>)
      ensures |s| == HEADER_SIZE + |payload|
    {
      HeaderBytes(header) + payload
    }

    ghost function ToEvent(): Event {
      if Good() then Packet(DecodedPacket(header, payload)) else Error(ErrChecksumMismatch)
    }
  }

  ghost predicate AllValid(frames: seq<Frame>) {
    forall i :: 0 <= i < |frames| ==> frames[i].Valid()
  }

  ghost predicate AllGood(frames: seq<Frame>) {
    forall i :: 0 <= i < |frames| ==> frames[i].Good()
  }

  function FlatMap<A, B>(f: A -> seq<B>, xs: seq<A>): seq<B> {
    if xs == [] then [] else f(xs[0]) + FlatMap(f, xs[1..])
  }

  lemma {:induction false} FlatMapSplit<A, B>(f: A -> seq<B>, xs: seq<A>, k: nat)
    requires k <= |xs|
    ensures FlatMap(f, xs) == FlatMap(f, xs[..k]) + FlatMap(f, xs[k..])
    decreases k
  {
    if k == 0 {
      assert xs[..0] == [] && xs[0..] == xs;
    } else {
      FlatMapSplit(f, xs[1..], k - 1);
      assert xs[..k][1..] == xs[1..][..k - 1];
      assert xs[1..][k - 1..] == xs[k..];
    }
  }

  /** The bytes of the frames back to back, and what the parser should report for them. */
  function Stream(frames: seq<Frame>): seq<byte> {
    FlatMap((f: Frame) => f.Bytes(), frames)
  }

  ghost function Events(frames: seq<Frame>): seq<Event> {
    FlatMap((f: Frame) => [f.ToEvent()], frames)
  }

  // ---------------------------------------------------------------- one frame

  lemma HeaderInFront(f: Frame, more: seq<byte>)
    ensures HeaderAt(f.Bytes() + more) == f.header
    ensures (f.Bytes() + more)[HEADER_SIZE..HEADER_SIZE + |f.payload|] == f.payload
    ensures (f.Bytes() + more)[HEADER_SIZE + |f.payload|..] == more
  {
    var s := f.Bytes() + more;
    assert s == HeaderBytes(f.header) + (f.payload + more);
    assert s[..HEADER_SIZE] == HeaderBytes(f.header);
    HeaderOfPrefix(s, HEADER_SIZE);
    HeaderRoundTrip(f.header);
  }

  /** Only the first 44 bytes matter to the header. */
  lemma HeaderOfPrefix(s: seq<byte>, n: nat)
    requires HEADER_SIZE <= n <= |s|
    ensures HeaderAt(s[..n]) == HeaderAt(s)
  {
    var t := s[..n];
    assert t[0..4] == s[0..4] && t[4..6] == s[4..6] && t[6..8] == s[6..8] && t[8..12] == s[8..12];
    assert t[12..14] == s[12..14] && t[14..16] == s[14..16] && t[16..20] == s[16..20] && t[20..28] == s[20..28];
    assert t[28..36] == s[28..36] && t[36..40] == s[36..40] && t[40..44] == s[40..44];
  }

  /** The parser takes a whole valid frame off the front and reports exactly that frame; only a
      good one lets it go on in the same call. */
  lemma DrainFrame(h: PacketHeader, f: Frame, more: seq<byte>)
    requires f.Valid()
    ensures Drain(Start(h), f.Bytes() + more)
         == Deliver(f.ToEvent(), if f.Good() then Drain(Start(f.header), more) else Outcome(Start(f.header), more, []))
  {
    var s := f.Bytes() + more;
    HeaderInFront(f, more);
    var p := Parser(ExpectPayload, f.header.totalLen, f.header);
    assert Drain(Start(h), s) == Drain(p, s);
  }

  /** With less than a whole frame in front the parser waits, remembering the header if it has it. */
  lemma DrainPartial(h: PacketHeader, f: Frame, part: seq<byte>)
    requires f.Valid() && part <= f.Bytes() && |part| < |f.Bytes()|
    ensures var o := Drain(Start(h), part);
            && o.rest == part && o.events == []
            && o.parser == if |part| < HEADER_SIZE then Start(h) else Parser(ExpectPayload, f.header.totalLen, f.header)
  {
    if |part| >= HEADER_SIZE {
      PartialHeader(f, part);
      var p := Parser(ExpectPayload, f.header.totalLen, f.header);
      assert Drain(Start(h), part) == Drain(p, part);
    }
  }

  lemma PartialHeader(f: Frame, part: seq<byte>)
    requires part <= f.Bytes() && HEADER_SIZE <= |part|
    ensures HeaderAt(part) == f.header
  {
    HeaderInFront(f, []);
    assert f.Bytes() + [] == f.Bytes();
    HeaderOfPrefix(f.Bytes(), |part|);
    assert f.Bytes()[..|part|] == part;
  }

  // ---------------------------------------------------------------- between calls

  /** What holds between two calls: a parser waiting for a payload has cached exactly the header
      at the front of the readable bytes. */
  ghost predicate Synced(o: Outcome) {
    && WellFormed(o.parser)
    && (o.parser.state.ExpectPayload? ==> HEADER_SIZE <= |o.rest| && o.parser.header == HeaderAt(o.rest))
  }

  /** So resuming after more bytes arrived is the same as starting over on all of them. */
  lemma Resume(o: Outcome, more: seq<byte>)
    requires Synced(o)
    ensures Drain(o.parser, o.rest + more) == Drain(Start(o.parser.header), o.rest + more)
  {
    if o.parser.state.ExpectPayload? {
      var s := o.rest + more;
      HeaderOfPrefix(s, |o.rest|);
      assert s[..|o.rest|] == o.rest;
    }
  }

  // ---------------------------------------------------------------- one call on a stream

  /** The parse stands at frame k: everything before it has been reported, `rest` is what was
      received of the stream from there on. */
  ghost predicate StandsAt(o: Outcome, frames: seq<Frame>, k: nat, received: seq<byte>) {
    && k <= |frames|
    && o.events == Events(frames[..k])
    && received == Stream(frames[..k]) + o.rest
    && Synced(o)
  }

  /** Frame k is not complete yet, or there is none. */
  ghost predicate Waiting(o: Outcome, frames: seq<Frame>, k: nat)
    requires k <= |frames|
  {
    if k == |frames| then o.rest == [] else |o.rest| < |frames[k].Bytes()|
  }

  lemma {:induction false} DrainStream(h: PacketHeader, frames: seq<Frame>, received: seq<byte>) returns (k: nat)
    requires AllValid(frames) && received <= Stream(frames)
    ensures StandsAt(Drain(Start(h), received), frames, k, received)
    ensures Waiting(Drain(Start(h), received), frames, k) || (k > 0 && !frames[k - 1].Good())
    decreases |frames|
  {
    hide HeaderAt, HeaderBytes, ChecksumValue;
    if frames == [] {
      k := 0;
      assert received == [] && frames[..0] == [];
    } else if |received| < |frames[0].Bytes()| {
      k := 0;
      StandsAtFirst(h, frames, received);
    } else {
      var f, later := frames[0], frames[1..];
      var more := received[|f.Bytes()|..];
      SplitFirst(f.Bytes(), Stream(later), received);
      DrainFrame(h, f, more);
      var i: nat, o := 0, Outcome(Start(f.header), more, []);
      if f.Good() {
        i := DrainStream(f.header, later, more);
        o := Drain(Start(f.header), more);
      }
      k := i + 1;
      StandsBehind(frames, o, i, more);
    }
  }

  lemma StreamHead(frames: seq<Frame>)
    ensures Stream(frames[..0]) == [] && Events(frames[..0]) == []
    ensures frames != [] ==> Stream(frames) == frames[0].Bytes() + Stream(frames[1..])
  {}

  lemma PartialSynced(h: PacketHeader, f: Frame, part: seq<byte>)
    requires f.Valid() && part <= f.Bytes() && |part| < |f.Bytes()|
    ensures var o := Drain(Start(h), part); o.rest == part && o.events == [] && Synced(o)
  {
    hide HeaderAt, HeaderBytes;
    DrainPartial(h, f, part);
    if |part| >= HEADER_SIZE {
      PartialHeader(f, part);
    }
  }

  lemma StandsAtFirst(h: PacketHeader, frames: seq<Frame>, received: seq<byte>)
    requires frames != [] && AllValid(frames)
    requires received <= Stream(frames) && |received| < |frames[0].Bytes()|
    ensures StandsAt(Drain(Start(h), received), frames, 0, received)
    ensures Waiting(Drain(Start(h), received), frames, 0)
  {
    hide Drain, Stream, Events, HeaderBytes, HeaderAt;
    StreamHead(frames);
    PrefixOfFirst(frames[0].Bytes(), Stream(frames[1..]), received);
    PartialSynced(h, frames[0], received);
  }

  lemma StandsBehind(frames: seq<Frame>, o: Outcome, i: nat, more: seq<byte>)
    requires frames != [] && StandsAt(o, frames[1..], i, more)
    ensures StandsAt(Deliver(frames[0].ToEvent(), o), frames, i + 1, frames[0].Bytes() + more)
    ensures Waiting(o, frames[1..], i) ==> Waiting(Deliver(frames[0].ToEvent(), o), frames, i + 1)
  {
    hide HeaderAt, HeaderBytes, ChecksumValue;
    var f, later := frames[0], frames[1..];
    assert frames[..i + 1][1..] == later[..i] && frames[..i + 1][0] == f;
    assert f.Bytes() + (Stream(later[..i]) + o.rest) == (f.Bytes() + Stream(later[..i])) + o.rest;
  }

  lemma PrefixOfFirst(a: seq<byte>, b: seq<byte>, s: seq<byte>)
    requires s <= a + b && |s| <= |a|
    ensures s <= a
  {
    assert a == (a + b)[..|a|];
  }

  lemma SplitFirst(a: seq<byte>, b: seq<byte>, s: seq<byte>)
    requires s <= a + b && |a| <= |s|
    ensures s == a + s[|a|..] && s[|a|..] <= b
  {
    assert a == (a + b)[..|a|];
    assert b == (a + b)[|a|..];
  }

  // ---------------------------------------------------------------- any number of calls

  /** One `OnMessage` call after `chunk` was appended; events accumulate. */
  ghost function Call(o: Outcome, chunk: seq<byte>): Outcome
    requires WellFormed(o.parser)
  {
    Prefixed(o.events, Drain(o.parser, o.rest + chunk))
  }

  ghost function Receive(o: Outcome, chunks: seq<seq<byte>>): (r: Outcome)
    requires WellFormed(o.parser)
    ensures WellFormed(r.parser)
    decreases |chunks|
  {
    if chunks == [] then o else Receive(Call(o, chunks[0]), chunks[1..])
  }

  ghost function Fresh(h: PacketHeader): Outcome { Outcome(Start(h), [], []) }

  lemma StreamSplit(frames: seq<Frame>, k: nat)
    requires k <= |frames|
    ensures Stream(frames) == Stream(frames[..k]) + Stream(frames[k..])
  {
    FlatMapSplit((f: Frame) => f.Bytes(), frames, k);
  }

  lemma EventsSplit(frames: seq<Frame>, k: nat)
    requires k <= |frames|
    ensures Events(frames) == Events(frames[..k]) + Events(frames[k..])
  {
    FlatMapSplit((f: Frame) => [f.ToEvent()], frames, k);
  }

  lemma StandsFurther(frames: seq<Frame>, o: Outcome, k: nat, received: seq<byte>, chunk: seq<byte>, d: Outcome, i: nat)
    requires StandsAt(o, frames, k, received) && StandsAt(d, frames[k..], i, o.rest + chunk)
    ensures StandsAt(Prefixed(o.events, d), frames, k + i, received + chunk)
    ensures Waiting(d, frames[k..], i) ==> Waiting(Prefixed(o.events, d), frames, k + i)
  {
    hide HeaderAt, Stream, Events;
    var done := frames[..k + i];
    assert done[..k] == frames[..k] && done[k..] == frames[k..][..i];
    StreamSplit(done, k);
    EventsSplit(done, k);
    Regroup(Stream(frames[..k]), o.rest, chunk, Stream(frames[k..][..i]), d.rest);
  }

  lemma Regroup(a: seq<byte>, rest: seq<byte>, chunk: seq<byte>, b: seq<byte>, rest': seq<byte>)
    requires rest + chunk == b + rest'
    ensures (a + rest) + chunk == (a + b) + rest'
  {
    assert (a + rest) + chunk == a + (rest + chunk) == a + (b + rest') == (a + b) + rest';
  }

  lemma CallStep(frames: seq<Frame>, o: Outcome, k: nat, received: seq<byte>, chunk: seq<byte>) returns (k': nat)
    requires AllValid(frames) && StandsAt(o, frames, k, received) && received + chunk <= Stream(frames)
    ensures k <= k' && StandsAt(Call(o, chunk), frames, k', received + chunk)
    ensures Waiting(Call(o, chunk), frames, k') || (k' > k && !frames[k' - 1].Good())
  {
    hide Drain, HeaderAt, Stream, Events;
    var ahead := o.rest + chunk;
    AheadOfStream(frames, k, received, o.rest, chunk);
    Resume(o, chunk);
    var i := DrainStream(o.parser.header, frames[k..], ahead);
    StandsFurther(frames, o, k, received, chunk, Drain(o.parser, ahead), i);
    k' := k + i;
  }

  lemma AheadOfStream(frames: seq<Frame>, k: nat, received: seq<byte>, rest: seq<byte>, chunk: seq<byte>)
    requires k <= |frames| && received == Stream(frames[..k]) + rest && received + chunk <= Stream(frames)
    ensures rest + chunk <= Stream(frames[k..])
  {
    var a := Stream(frames[..k]);
    StreamSplit(frames, k);
    assert received + chunk == a + (rest + chunk);
    SplitFirst(a, Stream(frames[k..]), received + chunk);
    assert (received + chunk)[|a|..] == rest + chunk;
  }

  /** On a stream of frames with acceptable headers and arbitrary checksums, after any chunks:
      the events are those of the first k frames, one per frame, in order; those frames and the
      readable bytes are exactly what was received; and the cached header is the one in front. */
  lemma {:induction false} Resynchronises(frames: seq<Frame>, o: Outcome, k: nat, received: seq<byte>,
                                          chunks: seq<seq<byte>>)
    returns (k': nat)
    requires AllValid(frames) && StandsAt(o, frames, k, received) && received + Concat(chunks) <= Stream(frames)
    ensures k <= k' && StandsAt(Receive(o, chunks), frames, k', received + Concat(chunks))
    ensures AllGood(frames) && (chunks != [] || Waiting(o, frames, k)) ==> Waiting(Receive(o, chunks), frames, k')
    decreases |chunks|
  {
    hide Drain, HeaderAt, Stream, Events;
    if chunks == [] {
      k' := k;
      assert received + [] == received;
    } else {
      var got := received + chunks[0];
      assert received + Concat(chunks) == got + Concat(chunks[1..]);
      var i := CallStep(frames, o, k, received, chunks[0]);
      k' := Resynchronises(frames, Call(o, chunks[0]), i, got, chunks[1..]);
    }
  }

  lemma StartsAtFirst(h: PacketHeader, frames: seq<Frame>)
    ensures StandsAt(Fresh(h), frames, 0, [])
  {
    assert frames[..0] == [];
  }

  /** A stream of good frames cut into chunks anywhere yields exactly its packets. */
  lemma ChunkingIrrelevant(h: PacketHeader, frames: seq<Frame>, chunks: seq<seq<byte>>)
    requires AllValid(frames) && AllGood(frames) && Concat(chunks) == Stream(frames)
    ensures var o := Receive(Fresh(h), chunks); o.events == Events(frames) && o.rest == []
  {
    StartsAtFirst(h, frames);
    assert [] + Concat(chunks) == Concat(chunks);
    if chunks == [] {
      EmptyStream(frames);
    } else {
      var k := Resynchronises(frames, Fresh(h), 0, [], chunks);
      AllConsumed(frames, k, Receive(Fresh(h), chunks));
    }
  }

  lemma AllConsumed(frames: seq<Frame>, k: nat, o: Outcome)
    requires StandsAt(o, frames, k, Stream(frames)) && Waiting(o, frames, k)
    ensures k == |frames| && o.events == Events(frames) && o.rest == []
  {
    var a := Stream(frames[..k]);
    StreamSplit(frames, k);
    assert o.rest == (a + o.rest)[|a|..] == (a + Stream(frames[k..]))[|a|..] == Stream(frames[k..]);
    assert frames[..k] == frames;
  }

  lemma EmptyStream(frames: seq<Frame>)
    requires Stream(frames) == []
    ensures frames == []
  {
  }

  // ---------------------------------------------------------------- which headers are accepted

  lemma ReadsAs32(s: seq<byte>)
    requires |s| == 4
    ensures FromNet32(s) == s[0] as int * 0x100_0000 + s[1] as int * 0x1_0000 + s[2] as int * 0x100 + s[3]
    ensures FromNet32(s) == 0xABCD1234 <==> s == [0xAB, 0xCD, 0x12, 0x34]
  {
    assert s[..2][0] == s[0] && s[..2][1] == s[1] && s[2..][0] == s[2] && s[2..][1] == s[3];
    assert s == [s[0], s[1], s[2], s[3]];
  }

  lemma ReadsAs16(s: seq<byte>, x: byte)
    requires |s| == 2
    ensures FromNet16(s) == x <==> s == [0, x]
  {
    assert s == [s[0], s[1]];
  }

  /** A parser that expects a header judges the first twelve bytes. It goes on to the payload if they are the
      magic number, version 1, the header length 44 and a total length from 44 bytes to 64 MiB. Otherwise it
      reports exactly one error, by the first of these that is wrong, and drops all it has. A complete frame
      is then delivered or dropped by its checksum. */
  lemma HeaderJudged(h: PacketHeader, bytes: seq<byte>)
    requires |bytes| >= 44
    ensures var o := Drain(Start(h), bytes);
            var total :=
              bytes[8] as int * 0x100_0000 + bytes[9] as int * 0x1_0000 + bytes[10] as int * 0x100 + bytes[11];
            if bytes[0..4] != [0xAB, 0xCD, 0x12, 0x34] then
              o.events == [Error(ErrInvalidPacket)] && o.rest == [] && o.parser.state == ExpectHeader
            else if bytes[4..6] != [0, 1] then
              o.events == [Error(ErrUnsupportedVersion)] && o.rest == [] && o.parser.state == ExpectHeader
            else if bytes[6..8] != [0, 44] || total < 44 || total > 64 * 1024 * 1024 then
              o.events == [Error(ErrPayloadTooLarge)] && o.rest == [] && o.parser.state == ExpectHeader
            else if |bytes| < total then
              o.events == [] && o.rest == bytes && o.parser == Parser(ExpectPayload, total, HeaderAt(bytes))
            else if FromNet32(bytes[40..44]) != Checksum(bytes[44..total]) as int then
              o.events == [Error(ErrChecksumMismatch)] && o.rest == bytes[total..] && o.parser.state == ExpectHeader
            else
              o.events != [] && o.events[0] == Packet(DecodedPacket(HeaderAt(bytes), bytes[44..total]))
  {
    hide FromNet16, FromNet32, FromNet64, Checksum;
    ReadsAs32(bytes[0..4]);
    ReadsAs16(bytes[4..6], 1);
    ReadsAs16(bytes[6..8], 44);
    ReadsAs32(bytes[8..12]);
    var header := HeaderAt(bytes);
    if HeaderError(header).None? {
      assert Drain(Start(h), bytes) == Drain(Parser(ExpectPayload, header.totalLen, header), bytes);
    }
  }

  // ---------------------------------------------------------------- packed packets

  ghost function Packed(p: DecodedPacket): Frame { Frame(Normalised(p.header, p.payload), p.payload) }

  ghost function PackedAll(packets: seq<DecodedPacket>): (frames: seq<Frame>)
    ensures |frames| == |packets| && forall i :: 0 <= i < |packets| ==> frames[i] == Packed(packets[i])
  {
    seq(|packets|, i requires 0 <= i < |packets| => Packed(packets[i]))
  }

  /** Event `e` brings packet `p`: its payload and the six fields that are the caller's, with the five fields
      of the protocol filled in. */
  ghost predicate Brings(e: Event, p: DecodedPacket) {
    && e.Packet? && e.packet.payload == p.payload
    && var h := e.packet.header;
    && h.command == p.header.command && h.flags == p.header.flags && h.requestId == p.header.requestId
    && h.clientSeq == p.header.clientSeq && h.serverSeq == p.header.serverSeq && h.errorCode == p.header.errorCode
    && h.magic == 0xABCD1234 && h.version == 1 && h.headerLen == 44 && h.totalLen == 44 + |p.payload|
    && h.checksum == Checksum(p.payload) as int
  }

  lemma PackedBrings(p: DecodedPacket)
    requires Fits(p)
    ensures Brings(Packet(DecodedPacket(Packed(p).header, p.payload)), p)
  {
    hide Checksum;
  }

  ghost predicate Fits(p: DecodedPacket) { HEADER_SIZE + |p.payload| <= MAX_MESSAGE_SIZE }

  lemma PackedIsGood(p: DecodedPacket)
    ensures Packed(p).Good()
    ensures Fits(p) ==> Packed(p).Valid()
  {
    hide ChecksumValue;
  }

  /** Round trip: any list of packets within the size limit, packed back to back and cut into any
      chunks, is decoded to exactly those packets: payload and the caller's header fields as they were
      given, the protocol's fields filled in. */
  lemma FramingRoundTrip(h: PacketHeader, packets: seq<DecodedPacket>, chunks: seq<seq<byte>>)
    requires forall i :: 0 <= i < |packets| ==> Fits(packets[i])
    requires Concat(chunks) == Stream(PackedAll(packets))
    ensures var o := Receive(Fresh(h), chunks);
            && o.rest == [] && |o.events| == |packets|
            && forall i :: 0 <= i < |packets| ==> Brings(o.events[i], packets[i])
  {
    hide Receive, ChecksumValue, HeaderBytes, Brings;
    var frames := PackedAll(packets);
    forall i | 0 <= i < |packets|
      ensures frames[i].Valid() && frames[i].Good()
    {
      PackedIsGood(packets[i]);
    }
    ChunkingIrrelevant(h, frames, chunks);
    EventsLength(frames);
    forall i | 0 <= i < |packets|
      ensures Brings(Events(frames)[i], packets[i])
    {
      EventAt(frames, i);
      PackedBrings(packets[i]);
    }
  }

  lemma {:induction false} EventsLength(frames: seq<Frame>)
    ensures |Events(frames)| == |frames|
  {
    if frames != [] {
      assert Events(frames) == [frames[0].ToEvent()] + Events(frames[1..]);
      EventsLength(frames[1..]);
    }
  }

  lemma {:induction false} EventAt(frames: seq<Frame>, i: nat)
    requires i < |frames| == |Events(frames)|
    ensures Events(frames)[i] == frames[i].ToEvent()
    decreases i
  {
    assert Events(frames) == [frames[0].ToEvent()] + Events(frames[1..]);
    if i > 0 { EventAt(frames[1..], i - 1); }
  }

  /** Exactly the packets within the size limit survive: a larger one is either refused outright
      or, where its 32-bit length field wrapped, comes out as something else. */
  lemma SurvivesExactlyIfFits(h: PacketHeader, p: DecodedPacket)
    ensures var events := Drain(Start(h), Packed(p).Bytes()).events;
            44 + |p.payload| <= 64 * 1024 * 1024 <==> |events| == 1 && Brings(events[0], p)
  {
    hide ChecksumValue, HeaderBytes;
    var f := Packed(p);
    assert f.Bytes() + [] == f.Bytes();
    HeaderInFront(f, []);
    PackedIsGood(p);
    if Fits(p) {
      DrainFrame(h, f, []);
      PackedBrings(p);
    } else {
      TooLargeIsLost(h, f);
    }
  }

  lemma TooLargeIsLost(h: PacketHeader, f: Frame)
    requires |f.payload| > MAX_MESSAGE_SIZE - HEADER_SIZE && HeaderAt(f.Bytes()) == f.header
    ensures var events := Drain(Start(h), f.Bytes()).events;
            |events| == 1 && events[0].Packet? ==> events[0].packet.payload != f.payload
  {
    var s := f.Bytes();
    if HeaderError(f.header).None? {
      var p := Parser(ExpectPayload, f.header.totalLen, f.header);
      assert Drain(Start(h), s) == Drain(p, s);
      assert |s| >= f.header.totalLen ==> |s[HEADER_SIZE..f.header.totalLen]| <= MAX_MESSAGE_SIZE - HEADER_SIZE;
    }
  }

  /** A packed frame whose payload was corrupted in transit by a burst of at most 16 bits, or in an
      odd number of bits, is never delivered: it is reported as a checksum error and dropped, and
      what follows it stays. */
  lemma CorruptionIsDropped(h: PacketHeader, p: DecodedPacket, corrupted: seq<byte>, more: seq<byte>)
    requires Fits(p) && |corrupted| == |p.payload| && corrupted != p.payload
    requires var e := Xor(Bits(p.payload), Bits(corrupted)); IsBurst(e) || Weight(e) % 2 == 1
    ensures var f := Frame(Packed(p).header, corrupted);
            Drain(Start(h), f.Bytes() + more) == Outcome(Start(f.header), more, [Error(ErrChecksumMismatch)])
  {
    var f := Frame(Packed(p).header, corrupted);
    PackedIsGood(p);
    DetectsErrors(p.payload, corrupted);
    if f.Good() {
      ValueOfInjective(Checksum(p.payload), Checksum(corrupted));
      assert false;
    }
    DrainFrame(h, f, more);
  }

  /** How many frames at the front of a stream are complete in its first n bytes. */
  function Complete(frames: seq<Frame>, n: nat): (k: nat)
    ensures k <= |frames|
  {
    if frames == [] || n < |frames[0].Bytes()| then 0 else 1 + Complete(frames[1..], n - |frames[0].Bytes()|)
  }

  /** Of frames k to c - 1, all but the last are good. */
  ghost predicate GoodUpToLast(frames: seq<Frame>, k: nat, c: nat)
    requires c <= |frames|
  {
    forall i :: k <= i && i + 1 < c ==> frames[i].Good()
  }

  lemma {:induction false} DrainReportsAll(h: PacketHeader, frames: seq<Frame>, received: seq<byte>)
    requires AllValid(frames) && received <= Stream(frames)
    ensures var c := Complete(frames, |received|);
            |Drain(Start(h), received).events| == c <==> GoodUpToLast(frames, 0, c)
    decreases |frames|
  {
    hide HeaderAt, HeaderBytes, ChecksumValue, Drain, Stream;
    StreamHead(frames);
    if frames == [] {
      DrainNothing(h);
    } else if |received| < |frames[0].Bytes()| {
      PrefixOfFirst(frames[0].Bytes(), Stream(frames[1..]), received);
      DrainPartial(h, frames[0], received);
    } else {
      var f, later := frames[0], frames[1..];
      var more := received[|f.Bytes()|..];
      SplitFirst(f.Bytes(), Stream(later), received);
      DrainFrame(h, f, more);
      DrainReportsAll(f.header, later, more);
      var c := Complete(later, |more|);
      GoodBeyond(frames, 1, c);
    }
  }

  lemma DrainNothing(h: PacketHeader)
    ensures Drain(Start(h), []).events == []
  {}

  lemma {:induction false} CompleteBeyond(frames: seq<Frame>, k: nat, n: nat)
    requires k <= |frames|
    ensures Complete(frames, |Stream(frames[..k])| + n) == k + Complete(frames[k..], n)
    decreases k
  {
    hide HeaderBytes, Stream;
    StreamHead(frames[..k]);
    if k > 0 {
      assert frames[..k][1..] == frames[1..][..k - 1] && frames[1..][k - 1..] == frames[k..];
      CompleteBeyond(frames[1..], k - 1, n);
    } else {
      assert frames[..0] == frames[..k] && frames[0..] == frames;
    }
  }

  /** Any call, on any stream of frames with acceptable headers, leaves every complete frame reported exactly
      if all complete frames that were not reported before it, but for the last, have a right checksum. */
  lemma ReportsAllExactlyIf(frames: seq<Frame>, o: Outcome, k: nat, received: seq<byte>, chunk: seq<byte>)
    requires AllValid(frames) && StandsAt(o, frames, k, received) && received + chunk <= Stream(frames)
    ensures var c := Complete(frames, |received + chunk|);
            |Call(o, chunk).events| == c <==> GoodUpToLast(frames, k, c)
  {
    hide Drain, HeaderAt, Stream, Events, HeaderBytes, Complete, GoodUpToLast, Synced;
    var ahead, later := o.rest + chunk, frames[k..];
    AheadOfStream(frames, k, received, o.rest, chunk);
    Resume(o, chunk);
    DrainReportsAll(o.parser.header, later, ahead);
    EventsLength(frames[..k]);
    CompleteBeyond(frames, k, |ahead|);
    var c := Complete(later, |ahead|);
    GoodBeyond(frames, k, c);
  }

  lemma GoodBeyond(frames: seq<Frame>, k: nat, c: nat)
    requires k + c <= |frames|
    ensures GoodUpToLast(frames, k, k + c) <==> GoodUpToLast(frames[k..], 0, c)
  {
    hide ChecksumValue;
    var later := frames[k..];
    assert forall i :: 0 <= i < |later| ==> later[i] == frames[k + i];
    assert forall i :: k <= i < |frames| ==> frames[i] == later[i - k];
  }

  /** A frame behind a bad one waits for the next call even when it is complete: reporting every
      complete frame at once holds only without checksum errors. */
  lemma GoodFrameWaitsBehindBad(h: PacketHeader, bad: Frame, good: Frame)
    requires bad.Valid() && !bad.Good() && good.Valid() && good.Good()
    ensures var o := Call(Fresh(h), bad.Bytes() + good.Bytes());
            && o.events == [Error(ErrChecksumMismatch)] && o.rest == good.Bytes()
            && Call(o, []).events == [Error(ErrChecksumMismatch), good.ToEvent()]
  {
    hide Drain, ChecksumValue, HeaderBytes;
    var first := bad.Bytes() + good.Bytes();
    assert [] + first == first;
    DrainFrame(h, bad, good.Bytes());
    var o := Call(Fresh(h), first);
    assert o == Outcome(Start(bad.header), good.Bytes(), [Error(ErrChecksumMismatch)]);
    LoneFrame(bad.header, good);
    assert good.Bytes() + [] == good.Bytes();
  }

  lemma LoneFrame(h: PacketHeader, f: Frame)
    requires f.Valid() && f.Good()
    ensures Drain(Start(h), f.Bytes()) == Outcome(Start(f.header), [], [f.ToEvent()])
  {
    assert f.Bytes() + [] == f.Bytes();
    DrainFrame(h, f, []);
    assert Drain(Start(f.header), []) == Outcome(Start(f.header), [], []);
  }

  // ---------------------------------------------------------------- the real objects

  /** Appending each chunk to the buffer and calling `OnMessage` is `Receive`. */
  method FeedChunks(codec: Codec, buffer: Buffer, chunks: seq<seq<byte>>) returns (events: seq<Event>)
    requires codec.Valid() && buffer.Valid()
    modifies codec, buffer, buffer.data
    ensures codec.Valid() && buffer.Valid()
    ensures Outcome(codec.Value(), buffer.Contents(), events)
         == Receive(Outcome(old(codec.Value()), old(buffer.Contents()), []), chunks)
  {
    events := [];
    var i := 0;
    ghost var target := Receive(Outcome(codec.Value(), buffer.Contents(), []), chunks);
    while i < |chunks|
      invariant i <= |chunks|
      invariant codec.Valid() && buffer.Valid()
      invariant buffer.data == old(buffer.data) || fresh(buffer.data)
      invariant target == Receive(Outcome(codec.Value(), buffer.Contents(), events), chunks[i..])
    {
      ghost var before := Outcome(codec.Value(), buffer.Contents(), events);
      buffer.Append(chunks[i]);
      var e := codec.OnMessage(buffer);
      events := events + e;
      assert chunks[i..][0] == chunks[i] && chunks[i..][1..] == chunks[i + 1..];
      assert Call(before, chunks[i]) == Outcome(codec.Value(), buffer.Contents(), events);
      i := i + 1;
    }
  }
}
