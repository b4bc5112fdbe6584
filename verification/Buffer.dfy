/** The two-index growable byte buffer. Its readable slice behaves as a byte sequence: bytes are
    appended at one end and retrieved at the other, whatever the storage does underneath. */
module Buffers {
  import opened Crc

  const CHEAP_PREPEND: nat := 8
  const INITIAL_SIZE: nat := 1024
  const EXTRA_SIZE: nat := 65536

  datatype Option<T> = None | Some(value: T)

  class Buffer {
    var data: array<byte>
    var reader: nat
    var writer: nat

    ghost predicate Valid()
      reads this
    {
      CHEAP_PREPEND <= reader <= writer <= data.Length
    }

    /** The readable bytes. */
    function Contents(): (s: seq<byte>)
      requires Valid()
      reads this, data
      ensures |s| == writer - reader
    {
      data[reader..writer]
    }

    function ReadableBytes(): nat
      requires Valid()
      reads this
    {
      writer - reader
    }

    function WritableBytes(): nat
      requires Valid()
      reads this
    {
      data.Length - writer
    }

    constructor ()
      ensures Valid() && fresh(data)
      ensures Contents() == []
      ensures WritableBytes() == INITIAL_SIZE
    {
      data := new byte[CHEAP_PREPEND + INITIAL_SIZE];
      reader, writer := CHEAP_PREPEND, CHEAP_PREPEND;
    }

    method Retrieve(len: nat)
      requires Valid() && len <= ReadableBytes()
      modifies this`reader, this`writer
      ensures Valid()
      ensures Contents() == old(Contents())[len..]
    {
      if len < writer - reader {
        reader := reader + len;
      } else {
        RetrieveAll();
      }
    }

    method RetrieveAll()
      requires Valid()
      modifies this`reader, this`writer
      ensures Valid()
      ensures Contents() == [] && WritableBytes() == data.Length - CHEAP_PREPEND
    {
      reader, writer := CHEAP_PREPEND, CHEAP_PREPEND;
    }

    method RetrieveAsString(len: nat) returns (s: seq<byte>)
      requires Valid() && len <= ReadableBytes()
      modifies this`reader, this`writer
      ensures Valid()
      ensures s + Contents() == old(Contents()) && |s| == len
    {
      s := data[reader..reader + len];
      Retrieve(len);
    }

    method HasWritten(len: nat)
      requires Valid() && len <= WritableBytes()
      modifies this`writer
      ensures Valid()
      ensures Contents() == old(Contents()) + old(data[writer..writer + len])
    {
      writer := writer + len;
    }

    method Grow(size: nat)
      requires Valid() && data.Length <= size
      modifies this`data
      ensures Valid() && fresh(data) && data.Length == size
      ensures Contents() == old(Contents())
    {
      var grown := new byte[size];
      for i := 0 to data.Length
        modifies grown
        invariant grown[..i] == data[..i]
      {
        grown[i] := data[i];
      }
      SliceOfFront(grown[..], data[..], reader, writer);
      data := grown;
    }

    /** Moves the readable bytes to the front. This needs a gap before them, so that copying
        forward never overwrites a byte still to be copied. */
    method Compact()
      requires Valid() && reader > CHEAP_PREPEND
      modifies this`reader, this`writer, data
      ensures Valid() && reader == CHEAP_PREPEND
      ensures Contents() == old(Contents())
    {
      var readable := writer - reader;
      for i := 0 to readable
        modifies data
        invariant data[CHEAP_PREPEND..CHEAP_PREPEND + i] == old(data[reader..reader + i])
        invariant forall k :: CHEAP_PREPEND + i <= k < data.Length ==> data[k] == old(data[k])
      {
        data[CHEAP_PREPEND + i] := data[reader + i];
      }
      reader := CHEAP_PREPEND;
      writer := reader + readable;
    }

    /** Called only when the writable area is too small; then the storage is compacted only if
        there is a gap in front. */
    method MakeSpace(len: nat)
      requires Valid() && WritableBytes() < len
      modifies this, data
      ensures Valid() && (data == old(data) || fresh(data))
      ensures Contents() == old(Contents())
      ensures WritableBytes() >= len
      ensures data == old(data) ==> reader == CHEAP_PREPEND < old(reader)
      ensures data != old(data) ==> WritableBytes() == len && reader == old(reader)
    {
      if data.Length - writer + reader < len + CHEAP_PREPEND {
        Grow(writer + len);
      } else {
        Compact();
      }
    }

    method EnsureWritableBytes(len: nat)
      requires Valid()
      modifies this, data
      ensures Valid() && (data == old(data) || fresh(data))
      ensures Contents() == old(Contents())
      ensures WritableBytes() >= len
    {
      if data.Length - writer < len {
        MakeSpace(len);
      }
    }

    /** Fills the writable area; the indices do not move. */
    method Fill(bytes: seq<byte>)
      requires Valid() && |bytes| <= WritableBytes()
      modifies data
      ensures data[writer..writer + |bytes|] == bytes
      ensures Contents() == old(Contents())
    {
      for i := 0 to |bytes|
        invariant data[writer..writer + i] == bytes[..i]
        invariant Contents() == old(Contents())
      {
        data[writer + i] := bytes[i];
      }
    }

    method Append(bytes: seq<byte>)
      requires Valid()
      modifies this, data
      ensures Valid() && (data == old(data) || fresh(data))
      ensures Contents() == old(Contents()) + bytes
    {
      EnsureWritableBytes(|bytes|);
      Fill(bytes);
      HasWritten(|bytes|);
    }

    /** The writable area is filled up, the rest is appended from the spill area. */
    method Spill(bytes: seq<byte>, writable: nat)
      requires Valid() && writable == WritableBytes() < |bytes|
      modifies this, data
      ensures Valid() && (data == old(data) || fresh(data))
      ensures Contents() == old(Contents()) + bytes
    {
      Fill(bytes[..writable]);
      writer := data.Length;
      ghost var direct := Contents();
      assert direct == old(Contents()) + bytes[..writable];
      Append(bytes[writable..]);
      assert bytes == bytes[..writable] + bytes[writable..];
    }

    /** A scattered read: `incoming` is what the kernel delivers, first into the writable area and
        the rest into the spill area; `None` is a failed read. */
    method ReadFd(incoming: Option<seq<byte>>) returns (n: int)
      requires Valid()
      requires incoming.Some? ==> |incoming.value| <= WritableBytes() + EXTRA_SIZE
      modifies this, data
      ensures Valid() && (data == old(data) || fresh(data))
      ensures n == if incoming.Some? then |incoming.value| else -1
      ensures Contents() == old(Contents()) + if incoming.Some? then incoming.value else []
    {
      var writable := data.Length - writer;
      if incoming.None? {
        n := -1;
        return;
      }
      var bytes := incoming.value;
      n := |bytes|;
      if n <= writable {
        Fill(bytes);
        writer := writer + n;
      } else {
        Spill(bytes, writable);
      }
    }
  }

  // ---------------------------------------------------------------- whole runs

  datatype Op =
    | DoAppend(bytes: seq<byte>)
    | DoRetrieve(len: nat)
    | DoRetrieveAll
    | DoReserve(len: nat)
    | DoRead(incoming: seq<byte>)

  /** What each operation does to the abstract byte sequence. */
  function Apply(s: seq<byte>, op: Op): seq<byte> {
    match op
    case DoAppend(bytes) => s + bytes
    case DoRetrieve(len) => if len <= |s| then s[len..] else s
    case DoRetrieveAll => []
    case DoReserve(_) => s
    case DoRead(incoming) => s + incoming
  }

  function ApplyAll(s: seq<byte>, ops: seq<Op>): seq<byte>
    decreases |ops|
  {
    if ops == [] then s else Apply(ApplyAll(s, ops[..|ops| - 1]), ops[|ops| - 1])
  }

  /** Every run from a new buffer agrees with the same run on an abstract byte sequence. Reads
      larger than one scattered read arrive as several; retrieving more than is readable, which
      the source forbids, is skipped on both sides. */
  method Replay(ops: seq<Op>) returns (b: Buffer)
    ensures fresh(b) && fresh(b.data) && b.Valid()
    ensures b.Contents() == ApplyAll([], ops)
  {
    b := new Buffer();
    for i := 0 to |ops|
      invariant fresh(b) && fresh(b.data) && b.Valid()
      invariant b.Contents() == ApplyAll([], ops[..i])
    {
      assert ops[..i + 1][..i] == ops[..i];
      match ops[i]
      case DoAppend(bytes) => b.Append(bytes);
      case DoRetrieve(len) => if len <= b.writer - b.reader { b.Retrieve(len); }
      case DoRetrieveAll => b.RetrieveAll();
      case DoReserve(len) => b.EnsureWritableBytes(len);
      case DoRead(incoming) => ReadInPieces(b, incoming);
    }
    assert ops[..|ops|] == ops;
  }

  method ReadInPieces(b: Buffer, incoming: seq<byte>)
    requires b.Valid()
    modifies b, b.data
    ensures b.Valid() && (b.data == old(b.data) || fresh(b.data))
    ensures b.Contents() == old(b.Contents()) + incoming
  {
    var at := 0;
    ghost var start := b.Contents();
    assert incoming[..0] == [];
    while at < |incoming|
      invariant at <= |incoming|
      invariant b.Valid() && (b.data == old(b.data) || fresh(b.data))
      invariant b.Contents() == start + incoming[..at]
    {
      var room := b.data.Length - b.writer + EXTRA_SIZE;
      var n := if |incoming| - at <= room then |incoming| - at else room;
      var _ := b.ReadFd(Some(incoming[at..at + n]));
      AppendPiece(start, incoming, at, at + n);
      at := at + n;
    }
    assert incoming[..at] == incoming;
  }

  lemma AppendPiece(start: seq<byte>, s: seq<byte>, a: nat, b: nat)
    requires a <= b <= |s|
    ensures (start + s[..a]) + s[a..b] == start + s[..b]
  {
    assert s[..a] + s[a..b] == s[..b];
  }

  lemma SliceOfFront(long: seq<byte>, front: seq<byte>, a: nat, b: nat)
    requires front <= long && a <= b <= |front|
    ensures long[a..b] == front[a..b]
  {
    assert forall i :: a <= i < b ==> long[i] == front[i];
  }

  /** Pieces of bytes back to back. */
  function Concat(chunks: seq<seq<byte>>): seq<byte> {
    if chunks == [] then [] else chunks[0] + Concat(chunks[1..])
  }

  lemma {:induction false} ConcatAppend(chunks: seq<seq<byte>>, last: seq<byte>)
    ensures Concat(chunks + [last]) == Concat(chunks) + last
  {
    if chunks == [] {
      assert (chunks + [last])[1..] == [];
    } else {
      assert (chunks + [last])[1..] == chunks[1..] + [last];
      ConcatAppend(chunks[1..], last);
    }
  }
}
