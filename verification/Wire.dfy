/** Integers on the wire and the 44-byte packet header.

    Fields travel in network order (Appendix B of RFC 791). The source swaps each field into
    network order and then copies the host representation; both kinds of host are modelled, so
    that a header written on one is read back on the other. */
module Wire {
  import opened Crc

  type u16 = x: nat | x < 0x1_0000
  type u32 = x: nat | x < 0x1_0000_0000
  type u64 = x: nat | x < 0x1_0000_0000_0000_0000

  const MAGIC: u32 := 0xABCD1234
  const VERSION: u16 := 1
  const HEADER_SIZE: nat := 44
  const MAX_MESSAGE_SIZE: nat := 64 * 1024 * 1024

  datatype PacketHeader = PacketHeader(
    magic: u32, version: u16, headerLen: u16, totalLen: u32, command: u16, flags: u16,
    requestId: u32, clientSeq: u64, serverSeq: u64, errorCode: u32, checksum: u32)

  // ---------------------------------------------------------------- network order

  /** Most significant half first, all the way down to bytes. */
  function Net16(x: u16): (s: seq<byte>)
    ensures |s| == 2
  {
    [x / 256, x % 256]
  }

  function Net32(x: u32): (s: seq<byte>)
    ensures |s| == 4
  {
    Net16(x / 0x1_0000) + Net16(x % 0x1_0000)
  }

  function Net64(x: u64): (s: seq<byte>)
    ensures |s| == 8
  {
    Net32(x / 0x1_0000_0000) + Net32(x % 0x1_0000_0000)
  }

  function FromNet16(s: seq<byte>): u16
    requires |s| == 2
  {
    s[0] as int * 256 + s[1]
  }

  function FromNet32(s: seq<byte>): u32
    requires |s| == 4
  {
    FromNet16(s[..2]) * 0x1_0000 + FromNet16(s[2..])
  }

  function FromNet64(s: seq<byte>): u64
    requires |s| == 8
  {
    FromNet32(s[..4]) * 0x1_0000_0000 + FromNet32(s[4..])
  }

  lemma Net16RoundTrip(x: u16, s: seq<byte>)
    requires |s| == 2
    ensures FromNet16(Net16(x)) == x
    ensures Net16(FromNet16(s)) == s
  {}

  lemma Net32RoundTrip(x: u32, s: seq<byte>)
    requires |s| == 4
    ensures FromNet32(Net32(x)) == x
    ensures Net32(FromNet32(s)) == s
  {
    hide Net16, FromNet16;
    Net16RoundTrip(x / 0x1_0000, s[..2]);
    Net16RoundTrip(x % 0x1_0000, s[2..]);
    assert Net32(x)[..2] == Net16(x / 0x1_0000) && Net32(x)[2..] == Net16(x % 0x1_0000);
    var y, p, q := FromNet32(s), FromNet16(s[..2]), FromNet16(s[2..]);
    assert y / 0x1_0000 == p && y % 0x1_0000 == q;
    assert s == s[..2] + s[2..];
  }

  lemma Net64RoundTrip(x: u64, s: seq<byte>)
    requires |s| == 8
    ensures FromNet64(Net64(x)) == x
    ensures Net64(FromNet64(s)) == s
  {
    hide Net32, FromNet32;
    Net32RoundTrip(x / 0x1_0000_0000, s[..4]);
    Net32RoundTrip(x % 0x1_0000_0000, s[4..]);
    assert Net64(x)[..4] == Net32(x / 0x1_0000_0000) && Net64(x)[4..] == Net32(x % 0x1_0000_0000);
    var y, p, q := FromNet64(s), FromNet32(s[..4]), FromNet32(s[4..]);
    assert y / 0x1_0000_0000 == p && y % 0x1_0000_0000 == q;
    assert s == s[..4] + s[4..];
  }

  // ---------------------------------------------------------------- host order

  datatype Host = LittleEndianHost | BigEndianHost

  /** What copying an integer of each width out of the host's memory yields. */
  function Host16(host: Host, x: u16): (s: seq<byte>)
    ensures |s| == 2
  {
    if host.BigEndianHost? then Net16(x) else [x % 256, x / 256]
  }

  function Host32(host: Host, x: u32): (s: seq<byte>)
    ensures |s| == 4
  {
    if host.BigEndianHost? then Net32(x) else Host16(host, x % 0x1_0000) + Host16(host, x / 0x1_0000)
  }

  function Host64(host: Host, x: u64): (s: seq<byte>)
    ensures |s| == 8
  {
    if host.BigEndianHost? then Net64(x) else Host32(host, x % 0x1_0000_0000) + Host32(host, x / 0x1_0000_0000)
  }

  function HostToNetwork16(host: Host, x: u16): u16 {
    if host.BigEndianHost? then x else x % 256 * 256 + x / 256
  }

  function HostToNetwork32(host: Host, x: u32): u32 {
    if host.BigEndianHost? then x
    else HostToNetwork16(host, x % 0x1_0000) * 0x1_0000 + HostToNetwork16(host, x / 0x1_0000)
  }

  /** The source builds the 64-bit swap from two 32-bit ones, low half first. */
  function HostToNetwork64(host: Host, x: u64): u64 {
    if host.BigEndianHost? then x
    else HostToNetwork32(host, x % 0x1_0000_0000) * 0x1_0000_0000 + HostToNetwork32(host, x / 0x1_0000_0000)
  }

  lemma Swap16(host: Host, x: u16)
    ensures Host16(host, HostToNetwork16(host, x)) == Net16(x)
    ensures HostToNetwork16(host, HostToNetwork16(host, x)) == x
  {}

  lemma Swap32(host: Host, x: u32)
    ensures Host32(host, HostToNetwork32(host, x)) == Net32(x)
    ensures HostToNetwork32(host, HostToNetwork32(host, x)) == x
  {
    if host.LittleEndianHost? {
      var hi: u16, lo: u16 := x / 0x1_0000, x % 0x1_0000;
      Swap16(host, hi);
      Swap16(host, lo);
      var y, p, q := HostToNetwork32(host, x), HostToNetwork16(host, lo), HostToNetwork16(host, hi);
      assert y / 0x1_0000 == p && y % 0x1_0000 == q;
    }
  }

  lemma Swap64(host: Host, x: u64)
    ensures Host64(host, HostToNetwork64(host, x)) == Net64(x)
    ensures HostToNetwork64(host, HostToNetwork64(host, x)) == x
  {
    if host.LittleEndianHost? {
      var hi: u32, lo: u32 := x / 0x1_0000_0000, x % 0x1_0000_0000;
      Swap32(host, hi);
      Swap32(host, lo);
      var y, p, q := HostToNetwork64(host, x), HostToNetwork32(host, lo), HostToNetwork32(host, hi);
      assert y / 0x1_0000_0000 == p && y % 0x1_0000_0000 == q;
    }
  }

  /** Reading back: the host value of copied bytes, swapped, is the network value. */
  function FromHost16(host: Host, s: seq<byte>): u16
    requires |s| == 2
  {
    if host.BigEndianHost? then FromNet16(s) else s[1] as int * 256 + s[0]
  }

  function FromHost32(host: Host, s: seq<byte>): u32
    requires |s| == 4
  {
    if host.BigEndianHost? then FromNet32(s) else FromHost16(host, s[2..]) * 0x1_0000 + FromHost16(host, s[..2])
  }

  function FromHost64(host: Host, s: seq<byte>): u64
    requires |s| == 8
  {
    if host.BigEndianHost? then FromNet64(s) else FromHost32(host, s[4..]) * 0x1_0000_0000 + FromHost32(host, s[..4])
  }

  lemma SwapBack16(host: Host, s: seq<byte>)
    requires |s| == 2
    ensures HostToNetwork16(host, FromHost16(host, s)) == FromNet16(s)
  {
    if host.LittleEndianHost? {
      var y: int, p: int, q: int := FromHost16(host, s), s[1], s[0];
      assert y == p * 256 + q && 0 <= q < 256;
      assert y / 256 == p && y % 256 == q;
    }
  }

  lemma SwapBack32(host: Host, s: seq<byte>)
    requires |s| == 4
    ensures HostToNetwork32(host, FromHost32(host, s)) == FromNet32(s)
  {
    if host.LittleEndianHost? {
      SwapBack16(host, s[..2]);
      SwapBack16(host, s[2..]);
      var y, p, q := FromHost32(host, s), FromHost16(host, s[2..]), FromHost16(host, s[..2]);
      assert y / 0x1_0000 == p && y % 0x1_0000 == q;
    }
  }

  lemma SwapBack64(host: Host, s: seq<byte>)
    requires |s| == 8
    ensures HostToNetwork64(host, FromHost64(host, s)) == FromNet64(s)
  {
    if host.LittleEndianHost? {
      SwapBack32(host, s[..4]);
      SwapBack32(host, s[4..]);
      var y, p, q := FromHost64(host, s), FromHost32(host, s[4..]), FromHost32(host, s[..4]);
      assert y / 0x1_0000_0000 == p && y % 0x1_0000_0000 == q;
    }
  }

  // ---------------------------------------------------------------- the header

  /** The header on the wire: its fields side by side, in the documented order. */
  function HeaderBytes(h: PacketHeader): (s: seq<byte>)
    ensures |s| == HEADER_SIZE
  {
    Net32(h.magic) + Net16(h.version) + Net16(h.headerLen) + Net32(h.totalLen) + Net16(h.command) + Net16(h.flags)
    + Net32(h.requestId) + Net64(h.clientSeq) + Net64(h.serverSeq) + Net32(h.errorCode) + Net32(h.checksum)
  }

  /** The header read at the source's field offsets. */
  function HeaderAt(s: seq<byte>): PacketHeader
    requires |s| >= HEADER_SIZE
  {
    PacketHeader(
      FromNet32(s[0..4]), FromNet16(s[4..6]), FromNet16(s[6..8]), FromNet32(s[8..12]), FromNet16(s[12..14]),
      FromNet16(s[14..16]),
      FromNet32(s[16..20]), FromNet64(s[20..28]), FromNet64(s[28..36]), FromNet32(s[36..40]), FromNet32(s[40..44]))
  }

  /** Each field occupies exactly its own bytes. */
  lemma FieldSlices(h: PacketHeader)
    ensures var s := HeaderBytes(h);
            && s[0..4] == Net32(h.magic) && s[4..6] == Net16(h.version) && s[6..8] == Net16(h.headerLen)
            && s[8..12] == Net32(h.totalLen) && s[12..14] == Net16(h.command) && s[14..16] == Net16(h.flags)
            && s[16..20] == Net32(h.requestId) && s[20..28] == Net64(h.clientSeq) && s[28..36] == Net64(h.serverSeq)
            && s[36..40] == Net32(h.errorCode) && s[40..44] == Net32(h.checksum)
  {}

  lemma HeaderRoundTrip(h: PacketHeader)
    ensures HeaderAt(HeaderBytes(h)) == h
  {
    FieldSlices(h);
    var s := HeaderBytes(h);
    Net32RoundTrip(h.magic, s[0..4]);
    Net16RoundTrip(h.version, s[4..6]);
    Net16RoundTrip(h.headerLen, s[6..8]);
    Net32RoundTrip(h.totalLen, s[8..12]);
    Net16RoundTrip(h.command, s[12..14]);
    Net16RoundTrip(h.flags, s[14..16]);
    Net32RoundTrip(h.requestId, s[16..20]);
    Net64RoundTrip(h.clientSeq, s[20..28]);
    Net64RoundTrip(h.serverSeq, s[28..36]);
    Net32RoundTrip(h.errorCode, s[36..40]);
    Net32RoundTrip(h.checksum, s[40..44]);
  }

  /** Every byte of the header belongs to some field: nothing read is lost. */
  lemma HeaderCovers(s: seq<byte>)
    requires |s| == HEADER_SIZE
    ensures HeaderBytes(HeaderAt(s)) == s
  {
    var h := HeaderAt(s);
    Net32RoundTrip(h.magic, s[0..4]);
    Net16RoundTrip(h.version, s[4..6]);
    Net16RoundTrip(h.headerLen, s[6..8]);
    Net32RoundTrip(h.totalLen, s[8..12]);
    Net16RoundTrip(h.command, s[12..14]);
    Net16RoundTrip(h.flags, s[14..16]);
    Net32RoundTrip(h.requestId, s[16..20]);
    Net64RoundTrip(h.clientSeq, s[20..28]);
    Net64RoundTrip(h.serverSeq, s[28..36]);
    Net32RoundTrip(h.errorCode, s[36..40]);
    Net32RoundTrip(h.checksum, s[40..44]);
    assert s == s[0..4] + s[4..6] + s[6..8] + s[8..12] + s[12..14] + s[14..16] + s[16..20] + s[20..28] +
      s[28..36] + s[36..40] + s[40..44];
  }

  // ---------------------------------------------------------------- the source's copies

  /** Copies `bytes` behind what has been written since `start`. */
  method CopyNext(out: array<byte>, start: nat, at: nat, bytes: seq<byte>, ghost end: nat, ghost written: seq<byte>)
    requires start <= at && at + |bytes| <= end <= out.Length
    requires out[start..at] == written
    modifies out
    ensures out[start..at + |bytes|] == written + bytes
    ensures out[..start] == old(out[..start]) && out[end..] == old(out[end..])
  {
    for i := 0 to |bytes|
      invariant out[start..at + i] == written + bytes[..i]
      invariant out[..start] == old(out[..start]) && out[end..] == old(out[end..])
    {
      out[at + i] := bytes[i];
    }
  }

  method CopyField16(host: Host, out: array<byte>, start: nat, at: nat, x: u16, ghost end: nat,
                     ghost written: seq<byte>)
    requires start <= at && at + 2 <= end <= out.Length
    requires out[start..at] == written
    modifies out
    ensures out[start..at + 2] == written + Net16(x)
    ensures out[..start] == old(out[..start]) && out[end..] == old(out[end..])
  {
    Swap16(host, x);
    CopyNext(out, start, at, Host16(host, HostToNetwork16(host, x)), end, written);
  }

  method CopyField32(host: Host, out: array<byte>, start: nat, at: nat, x: u32, ghost end: nat,
                     ghost written: seq<byte>)
    requires start <= at && at + 4 <= end <= out.Length
    requires out[start..at] == written
    modifies out
    ensures out[start..at + 4] == written + Net32(x)
    ensures out[..start] == old(out[..start]) && out[end..] == old(out[end..])
  {
    Swap32(host, x);
    CopyNext(out, start, at, Host32(host, HostToNetwork32(host, x)), end, written);
  }

  method CopyField64(host: Host, out: array<byte>, start: nat, at: nat, x: u64, ghost end: nat,
                     ghost written: seq<byte>)
    requires start <= at && at + 8 <= end <= out.Length
    requires out[start..at] == written
    modifies out
    ensures out[start..at + 8] == written + Net64(x)
    ensures out[..start] == old(out[..start]) && out[end..] == old(out[end..])
  {
    Swap64(host, x);
    CopyNext(out, start, at, Host64(host, HostToNetwork64(host, x)), end, written);
  }

  /** Swaps every field into network order and copies it to its offset. */
  method WriteHeader(host: Host, out: array<byte>, at: nat, h: PacketHeader)
    requires at + HEADER_SIZE <= out.Length
    modifies out
    ensures out[at..at + HEADER_SIZE] == HeaderBytes(h)
    ensures out[..at] == old(out[..at]) && out[at + HEADER_SIZE..] == old(out[at + HEADER_SIZE..])
  {
    hide Net16, Net32, Net64;
    ghost var end, w := at + HEADER_SIZE, [];
    CopyField32(host, out, at, at + 0, h.magic, end, w);
    w := w + Net32(h.magic);
    CopyField16(host, out, at, at + 4, h.version, end, w);
    w := w + Net16(h.version);
    CopyField16(host, out, at, at + 6, h.headerLen, end, w);
    w := w + Net16(h.headerLen);
    CopyField32(host, out, at, at + 8, h.totalLen, end, w);
    w := w + Net32(h.totalLen);
    CopyField16(host, out, at, at + 12, h.command, end, w);
    w := w + Net16(h.command);
    CopyField16(host, out, at, at + 14, h.flags, end, w);
    w := w + Net16(h.flags);
    CopyField32(host, out, at, at + 16, h.requestId, end, w);
    w := w + Net32(h.requestId);
    CopyField64(host, out, at, at + 20, h.clientSeq, end, w);
    w := w + Net64(h.clientSeq);
    CopyField64(host, out, at, at + 28, h.serverSeq, end, w);
    w := w + Net64(h.serverSeq);
    CopyField32(host, out, at, at + 36, h.errorCode, end, w);
    w := w + Net32(h.errorCode);
    CopyField32(host, out, at, at + 40, h.checksum, end, w);
    w := w + Net32(h.checksum);
  }

  /** Copies every field from its offset and swaps it into host order. */
  method ReadHeader(host: Host, data: seq<byte>) returns (h: PacketHeader)
    requires |data| >= HEADER_SIZE
    ensures h == HeaderAt(data)
  {
    SwapBack32(host, data[0..4]);
    SwapBack16(host, data[4..6]);
    SwapBack16(host, data[6..8]);
    SwapBack32(host, data[8..12]);
    SwapBack16(host, data[12..14]);
    SwapBack16(host, data[14..16]);
    SwapBack32(host, data[16..20]);
    SwapBack64(host, data[20..28]);
    SwapBack64(host, data[28..36]);
    SwapBack32(host, data[36..40]);
    SwapBack32(host, data[40..44]);
    h := PacketHeader(
      HostToNetwork32(host, FromHost32(host, data[0..4])),
      HostToNetwork16(host, FromHost16(host, data[4..6])),
      HostToNetwork16(host, FromHost16(host, data[6..8])),
      HostToNetwork32(host, FromHost32(host, data[8..12])),
      HostToNetwork16(host, FromHost16(host, data[12..14])),
      HostToNetwork16(host, FromHost16(host, data[14..16])),
      HostToNetwork32(host, FromHost32(host, data[16..20])),
      HostToNetwork64(host, FromHost64(host, data[20..28])),
      HostToNetwork64(host, FromHost64(host, data[28..36])),
      HostToNetwork32(host, FromHost32(host, data[36..40])),
      HostToNetwork32(host, FromHost32(host, data[40..44])));
  }
}
