/** Packing and the two-state frame parser. One codec is paired with one buffer. */
module Codecs {
  import opened Crc
  import opened Wire
  import opened Buffers

  datatype ParseState = ExpectHeader | ExpectPayload

  datatype ErrorCode = ErrInvalidPacket | ErrUnsupportedVersion | ErrChecksumMismatch | ErrPayloadTooLarge

  datatype DecodedPacket = DecodedPacket(header: PacketHeader, payload: seq<byte>)

  /** What the callbacks observe, in order. */
  datatype Event = Packet(packet: DecodedPacket) | Error(code: ErrorCode)

  /** The codec's own state, as a value. */
  datatype Parser = Parser(state: ParseState, expected: nat, header: PacketHeader)

  datatype Outcome = Outcome(parser: Parser, rest: seq<byte>, events: seq<Event>)

  function ChecksumValue(data: seq<byte>): u32 {
    ValueOf(Checksum(data))
  }

  function ValueOf(c: bv16): u32 { c as int }

  lemma ValueOfInjective(c: bv16, d: bv16)
    requires ValueOf(c) == ValueOf(d)
    ensures c == d
  {
    assert (c as int) as bv16 == c && (d as int) as bv16 == d;
  }

  /** Why a header is refused, in the order the source checks. */
  function HeaderError(h: PacketHeader): Option<ErrorCode> {
    if h.magic != MAGIC then Some(ErrInvalidPacket)
    else if h.version != VERSION then Some(ErrUnsupportedVersion)
    else if h.headerLen != HEADER_SIZE || !(HEADER_SIZE <= h.totalLen <= MAX_MESSAGE_SIZE) then Some(ErrPayloadTooLarge)
    else None
  }

  ghost predicate WellFormed(p: Parser) {
    match p.state
    case ExpectHeader => p.expected == HEADER_SIZE
    case ExpectPayload => HeaderError(p.header).None? && p.expected == p.header.totalLen
  }

  function Start(h: PacketHeader): Parser { Parser(ExpectHeader, HEADER_SIZE, h) }

  /** One call of the parser loop on the readable bytes: it runs until bytes are missing, a header
      is refused (everything readable is dropped) or a checksum fails (that frame is dropped). */
  ghost function Drain(p: Parser, bytes: seq<byte>): (o: Outcome)
    requires WellFormed(p)
    ensures WellFormed(o.parser)
    decreases |bytes|, if p.state.ExpectHeader? then 1 else 0
  {
    match p.state
    case ExpectHeader =>
      if |bytes| < HEADER_SIZE then Outcome(p, bytes, [])
      else if HeaderError(HeaderAt(bytes)).Some? then
        Outcome(Start(HeaderAt(bytes)), [], [Error(HeaderError(HeaderAt(bytes)).value)])
      else Drain(Parser(ExpectPayload, HeaderAt(bytes).totalLen, HeaderAt(bytes)), bytes)
    case ExpectPayload =>
      if |bytes| < p.expected then Outcome(p, bytes, [])
      else if p.header.checksum != ChecksumValue(bytes[HEADER_SIZE..p.expected]) then
        Outcome(Start(p.header), bytes[p.expected..], [Error(ErrChecksumMismatch)])
      else Deliver(Packet(DecodedPacket(p.header, bytes[HEADER_SIZE..p.expected])),
                   Drain(Start(p.header), bytes[p.expected..]))
  }

  ghost function Deliver(e: Event, o: Outcome): Outcome {
    o.(events := [e] + o.events)
  }

  /** The header that goes on the wire for a caller's header and message; the length field is
      32 bits wide. */
  function Normalised(raw: PacketHeader, message: seq<byte>): PacketHeader {
    raw.(magic := MAGIC, version := VERSION, headerLen := HEADER_SIZE,
         totalLen := (HEADER_SIZE + |message| % 0x1_0000_0000) % 0x1_0000_0000,
         checksum := ChecksumValue(message))
  }

  method Pack(host: Host, buffer: Buffer, raw: PacketHeader, message: seq<byte>)
    requires buffer.Valid()
    modifies buffer, buffer.data
    ensures buffer.Valid() && (buffer.data == old(buffer.data) || fresh(buffer.data))
    ensures buffer.Contents() == old(buffer.Contents()) + (HeaderBytes(Normalised(raw, message)) + message)
  {
    hide Checksum, HeaderBytes;
    var crc := CalcCRC16(message);
    var header := raw.(magic := MAGIC, version := VERSION, headerLen := HEADER_SIZE,
    totalLen := (HEADER_SIZE + |message| % 0x1_0000_0000) % 0x1_0000_0000,
    checksum := ValueOf(crc));
    buffer.EnsureWritableBytes(HEADER_SIZE);
    PutHeader(host, buffer, header);
    buffer.HasWritten(HEADER_SIZE);
    ghost var withHeader := buffer.Contents();
    buffer.Append(message);
    assert withHeader + message == old(buffer.Contents()) + (HeaderBytes(header) + message);
  }

  method PutHeader(host: Host, buffer: Buffer, header: PacketHeader)
    requires buffer.Valid() && HEADER_SIZE <= buffer.WritableBytes()
    modifies buffer.data
    ensures buffer.data[buffer.writer..buffer.writer + HEADER_SIZE] == HeaderBytes(header)
    ensures buffer.Contents() == old(buffer.Contents())
  {
    WriteHeader(host, buffer.data, buffer.writer, header);
    assert buffer.data[buffer.reader..buffer.writer] == buffer.data[..buffer.writer][buffer.reader..];
  }

  class Codec {
    const host: Host
    var state: ParseState
    var expectedLength: nat
    var currentHeader: PacketHeader

    function Value(): Parser
      reads this
    {
      Parser(state, expectedLength, currentHeader)
    }

    ghost predicate Valid()
      reads this
    {
      WellFormed(Value())
    }

    constructor (host: Host)
      ensures Valid() && state == ExpectHeader && this.host == host
    {
      this.host := host;
      state, expectedLength := ExpectHeader, HEADER_SIZE;
      currentHeader := PacketHeader(MAGIC, VERSION, HEADER_SIZE, HEADER_SIZE, 0, 0, 0, 0, 0, 0, 0);
    }

    method OnMessage(buffer: Buffer) returns (events: seq<Event>)
      requires Valid() && buffer.Valid()
      modifies this, buffer`reader, buffer`writer
      ensures Valid() && buffer.Valid()
      ensures Outcome(Value(), buffer.Contents(), events) == Drain(old(Value()), old(buffer.Contents()))
    {
      events := [];
      var more := true;
      ghost var target := Drain(Value(), buffer.Contents());
      ghost var ahead := target;
      while more
        invariant Valid() && buffer.Valid()
        invariant more ==> ahead == Drain(Value(), buffer.Contents())
        invariant !more ==> ahead == Outcome(Value(), buffer.Contents(), [])
        invariant Prefixed(events, ahead) == target
        decreases more, buffer.ReadableBytes()
      {
        var event;
        event, more := Turn(buffer);
        ghost var next := if more then Drain(Value(), buffer.Contents()) else Outcome(Value(), buffer.Contents(), []);
        if event.Some? {
          PrefixedDeliver(events, event.value, next);
          events := events + [event.value];
        }
        ahead := next;
      }
    }

    /** One turn of the parser loop; `more` is false where the source breaks out. A completed turn
        consumes a whole frame, so at least a header's worth of bytes. */
    method Turn(buffer: Buffer) returns (event: Option<Event>, more: bool)
      requires Valid() && buffer.Valid()
      modifies this, buffer`reader, buffer`writer
      ensures Valid() && buffer.Valid()
      ensures more ==> event.Some? && buffer.ReadableBytes() + HEADER_SIZE <= old(buffer.ReadableBytes())
      ensures var next := if more then Drain(Value(), buffer.Contents()) else Outcome(Value(), buffer.Contents(), []);
              Drain(old(Value()), old(buffer.Contents())) == if event.Some? then Deliver(event.value, next) else next
    {
      hide ChecksumValue, HeaderAt;
      event, more := None, false;
      if state == ExpectHeader {
        if buffer.writer - buffer.reader < HEADER_SIZE {
          return;
        }
        var error := ParseHeader(buffer);
        if error.Some? {
          return Some(Error(error.value)), false;
        }
      }
      assert Drain(Value(), buffer.Contents()) == Drain(old(Value()), old(buffer.Contents()));
      if state == ExpectPayload {
        if buffer.writer - buffer.reader < expectedLength {
          return;
        }
        var e := ParsePayload(buffer);
        event, more := Some(e), e.Packet?;
      }
    }

    /** Reads the header in front of the buffer; a refused header empties the buffer. */
    method ParseHeader(buffer: Buffer) returns (error: Option<ErrorCode>)
      requires Valid() && buffer.Valid() && state == ExpectHeader && HEADER_SIZE <= buffer.ReadableBytes()
      modifies this, buffer`reader, buffer`writer
      ensures Valid() && buffer.Valid()
      ensures currentHeader == HeaderAt(old(buffer.Contents())) && error == HeaderError(currentHeader)
      ensures error.Some? ==> state == ExpectHeader && buffer.Contents() == []
      ensures error.None? ==> state == ExpectPayload && buffer.Contents() == old(buffer.Contents())
    {
      currentHeader := ReadHeader(host, buffer.data[buffer.reader..buffer.writer]);
      error := None;
      if currentHeader.magic != MAGIC {
        error := Some(ErrInvalidPacket);
      } else if currentHeader.version != VERSION {
        error := Some(ErrUnsupportedVersion);
      } else if currentHeader.headerLen != HEADER_SIZE
                || currentHeader.totalLen < HEADER_SIZE
                || currentHeader.totalLen > MAX_MESSAGE_SIZE {
        error := Some(ErrPayloadTooLarge);
      }
      if error.Some? {
        buffer.RetrieveAll();
        state, expectedLength := ExpectHeader, HEADER_SIZE;
        return;
      }
      expectedLength := currentHeader.totalLen;
      state := ExpectPayload;
    }

    /** Takes one whole frame off the buffer, delivering it if its checksum matches. */
    method ParsePayload(buffer: Buffer) returns (event: Event)
      requires Valid() && buffer.Valid() && state == ExpectPayload && expectedLength <= buffer.ReadableBytes()
      modifies this, buffer`reader, buffer`writer
      ensures Valid() && buffer.Valid()
      ensures Value() == Start(old(currentHeader))
      ensures buffer.Contents() == old(buffer.Contents())[old(expectedLength)..]
      ensures var payload := old(buffer.Contents())[HEADER_SIZE..old(expectedLength)];
              event == if currentHeader.checksum == ChecksumValue(payload)
                       then Packet(DecodedPacket(currentHeader, payload))
                       else Error(ErrChecksumMismatch)
    {
      hide Checksum;
      var payloadLen := currentHeader.totalLen - currentHeader.headerLen;
      var from := buffer.reader + currentHeader.headerLen;
      var payload := buffer.data[from..from + payloadLen];
      SliceOfSlice(buffer.data[..], buffer.reader, buffer.writer, HEADER_SIZE, expectedLength);
      var crc := CalcCRC16(payload);
      buffer.Retrieve(expectedLength);
      state, expectedLength := ExpectHeader, HEADER_SIZE;
      if currentHeader.checksum != ValueOf(crc) {
        event := Error(ErrChecksumMismatch);
      } else {
        event := Packet(DecodedPacket(currentHeader, payload));
      }
    }
  }

  lemma SliceOfSlice(s: seq<byte>, a: nat, b: nat, c: nat, d: nat)
    requires a <= b <= |s| && c <= d <= b - a
    ensures s[a..b][c..d] == s[a + c..a + d]
  {
    forall i | 0 <= i < d - c
      ensures s[a..b][c..d][i] == s[a + c..a + d][i]
    {
      assert s[a..b][c..d][i] == s[a..b][c + i] == s[a + (c + i)];
    }
  }

  lemma PrefixedDeliver(events: seq<Event>, e: Event, o: Outcome)
    ensures Prefixed(events, Deliver(e, o)) == Prefixed(events + [e], o)
  {
    assert events + ([e] + o.events) == (events + [e]) + o.events;
  }

  ghost function Prefixed(events: seq<Event>, o: Outcome): Outcome {
    o.(events := events + o.events)
  }
}
