/** The output side of a connection: a direct write when nothing is queued, a capped queue drained
    by partial kernel writes, and high and low water marks. */
module Connections {
  import opened Crc
  import opened Buffers

  datatype State = Connecting | Connected | Disconnecting | Disconnected

  datatype Limits = Limits(high: nat, low: nat, max: nat)

  /** What the kernel does with one write: takes up to `capacity` bytes, refuses for now (or with an
      error the source only logs), or reports a broken peer. */
  datatype WriteResult = Accept(capacity: nat) | Refused | Broken

  /** A connection as a value; `wire` is every byte the kernel has taken. */
  datatype Conn = Conn(state: State, out: seq<byte>, writing: bool, backPressured: bool, wire: seq<byte>)

  const FRESH: Conn := Conn(Connecting, [], false, false, [])

  function Min(a: nat, b: nat): nat { if a <= b then a else b }

  // ---------------------------------------------------------------- specification

  predicate WritesDirectly(c: Conn) { !c.writing && c.out == [] }

  /** How many bytes a send hands to the kernel at once. */
  function DirectBytes(c: Conn, data: seq<byte>, k: WriteResult): (n: nat)
    ensures n <= |data|
  {
    if WritesDirectly(c) && k.Accept? then Min(k.capacity, |data|) else 0
  }

  predicate Faults(c: Conn, k: WriteResult) { WritesDirectly(c) && k.Broken? }

  /** The bytes left after the direct write fit under the cap. */
  predicate Queues(l: Limits, c: Conn, data: seq<byte>, k: WriteResult) {
    |c.out| + |data| - DirectBytes(c, data, k) <= l.max
  }

  /** The whole message is on the wire or queued after the send. */
  predicate Accepted(l: Limits, c: Conn, data: seq<byte>, k: WriteResult) {
    c.state != Disconnected && !Faults(c, k) && (DirectBytes(c, data, k) == |data| || Queues(l, c, data, k))
  }

  function Send(l: Limits, c: Conn, data: seq<byte>, k: WriteResult): Conn {
    if c.state == Disconnected then c
    else
      var n := DirectBytes(c, data, k);
      var sent := c.(wire := c.wire + data[..n]);
      if Faults(c, k) || n == |data| then sent
      else if !Queues(l, c, data, k) then sent.(backPressured := true)
      else sent.(out := c.out + data[n..], writing := true,
                 backPressured := c.backPressured || |c.out| + |data| - n >= l.high)
  }

  /** How much of `n` queued bytes a series of writes takes; the first write that takes nothing ends
      the series. */
  function Taken(caps: seq<nat>, n: nat): (t: nat)
    ensures t <= n
  {
    if n == 0 || caps == [] || caps[0] == 0 then 0
    else Min(caps[0], n) + Taken(caps[1..], n - Min(caps[0], n))
  }

  function TookOut(l: Limits, c: Conn, t: nat): Conn
    requires t <= |c.out|
  {
    c.(wire := c.wire + c.out[..t], out := c.out[t..],
       backPressured := c.backPressured && (t == 0 || |c.out| - t > l.low))
  }

  lemma TookMore(l: Limits, c: Conn, t: nat, n: nat)
    requires t + n <= |c.out|
    ensures TookOut(l, TookOut(l, c, t), n) == TookOut(l, c, t + n)
  {
    assert c.out[..t] + c.out[t..][..n] == c.out[..t + n];
  }

  lemma TookNone(l: Limits, c: Conn)
    ensures TookOut(l, c, 0) == c
  {
  }

  lemma TakenNone(caps: seq<nat>)
    ensures Taken(caps, 0) == 0
  {
  }

  lemma TakenNext(caps: seq<nat>, i: nat, n: nat)
    requires i <= |caps|
    ensures Taken(caps[i..], n) == if n == 0 || i == |caps| || caps[i] == 0 then 0
                                   else Min(caps[i], n) + Taken(caps[i + 1..], n - Min(caps[i], n))
  {
    assert i < |caps| ==> caps[i..][1..] == caps[i + 1..];
  }

  function Drained(l: Limits, c: Conn, caps: seq<nat>): Conn {
    if !c.writing then c
    else TookOut(l, c, Taken(caps, |c.out|)).(writing := Taken(caps, |c.out|) < |c.out|)
  }

  function Closed(c: Conn): Conn {
    if c.state == Connected || c.state == Disconnecting then c.(state := Disconnected, writing := false) else c
  }

  // ---------------------------------------------------------------- the source's object

  class TcpConnection {
    var state: State
    var output: Buffer
    var writing: bool
    var highWaterMark: nat
    var lowWaterMark: nat
    var maxOutputBytes: nat
    var backPressured: bool
    ghost var wire: seq<byte>

    ghost predicate Valid()
      reads this, output
    {
      output.Valid()
    }

    ghost function Value(): Conn
      requires Valid()
      reads this, output, output.data
    {
      Conn(state, output.Contents(), writing, backPressured, wire)
    }

    ghost function Lims(): Limits
      reads this
    {
      Limits(highWaterMark, lowWaterMark, maxOutputBytes)
    }

    constructor ()
      ensures Valid() && fresh(output) && fresh(output.data)
      ensures Value() == FRESH && Lims() == Limits(1024 * 1024, 256 * 1024, 4 * 1024 * 1024)
    {
      state, writing, backPressured, wire := Connecting, false, false, [];
      highWaterMark, lowWaterMark, maxOutputBytes := 1024 * 1024, 256 * 1024, 4 * 1024 * 1024;
      output := new Buffer();
    }

    method SendInLoop(data: seq<byte>, k: WriteResult)
      requires Valid()
      modifies this, output, output.data
      ensures Valid() && output == old(output) && (output.data == old(output.data) || fresh(output.data))
      ensures Lims() == old(Lims())
      ensures Value() == Send(old(Lims()), old(Value()), data, k)
    {
      var wrote, remaining, fault := 0, |data|, false;
      if state == Disconnected {
        return;
      }
      ghost var c := Value();
      if !writing && output.writer - output.reader == 0 {
        match k {
          case Accept(capacity) =>
            wrote := Min(capacity, |data|);
            remaining := |data| - wrote;
          case Refused =>
          case Broken =>
            fault := true;
        }
      }
      wire := wire + data[..wrote];
      assert wrote == DirectBytes(c, data, k) && fault == Faults(c, k);
      if !fault && remaining > 0 {
        Enqueue(data[wrote..]);
      }
    }

    /** What a send could not write at once: dropped with back-pressure above the cap, queued below. */
    method Enqueue(rest: seq<byte>)
      requires Valid() && rest != []
      modifies this`backPressured, this`writing, output, output.data
      ensures Valid() && (output.data == old(output.data) || fresh(output.data))
      ensures Value() == if |old(Value()).out| + |rest| > maxOutputBytes then old(Value()).(backPressured := true)
                         else old(Value()).(out := old(Value()).out + rest, writing := true,
                                            backPressured := old(backPressured) ||
                                              |old(Value()).out| + |rest| >= highWaterMark)
    {
      var pending := output.writer - output.reader + |rest|;
      if pending > maxOutputBytes {
        backPressured := true;
        return;
      }
      output.Append(rest);
      if !backPressured && output.writer - output.reader >= highWaterMark {
        backPressured := true;
      }
      if !writing {
        writing := true;
      }
    }

    /** `caps` are the kernel's answers to the successive writes. */
    method HandleWrite(caps: seq<nat>)
      requires Valid()
      modifies this, output`reader, output`writer
      ensures Valid() && output == old(output) && output.data == old(output.data)
      ensures Lims() == old(Lims())
      ensures Value() == Drained(old(Lims()), old(Value()), caps)
    {
      hide Taken, TookOut;
      if writing {
        WriteAll(caps);
        if output.writer - output.reader == 0 {
          writing := false;
        }
      }
    }

    /** Writes from the queue until it is empty or the kernel takes nothing. */
    method WriteAll(caps: seq<nat>)
      requires Valid()
      modifies this`wire, this`backPressured, output`reader, output`writer
      ensures Valid() && |Value().out| == |old(Value()).out| - Taken(caps, |old(Value()).out|)
      ensures Value() == TookOut(Lims(), old(Value()), Taken(caps, |old(Value()).out|))
    {
      hide Taken, TookOut;
      var i := 0;
      ghost var c, l, t := Value(), Lims(), 0;
      TookNone(l, c);
      while output.writer - output.reader > 0
        invariant Valid() && i <= |caps| && 0 <= t <= |c.out| && |Value().out| == |c.out| - t
        invariant t + Taken(caps[i..], |c.out| - t) == Taken(caps, |c.out|)
        invariant Value() == TookOut(l, c, t)
        decreases |caps| - i
      {
        TakenNext(caps, i, |c.out| - t);
        if i == |caps| {
          break;
        }
        var n := Min(caps[i], output.writer - output.reader);
        if n == 0 {
          break;
        }
        WriteOut(n);
        TookMore(l, c, t, n);
        i, t := i + 1, t + n;
      }
      TakenNone(caps[i..]);
    }

    /** One successful write of n queued bytes. */
    method WriteOut(n: nat)
      requires Valid() && 0 < n <= output.ReadableBytes()
      modifies this`wire, this`backPressured, output`reader, output`writer
      ensures Valid() && |Value().out| == |old(Value()).out| - n
      ensures Value() == TookOut(Lims(), old(Value()), n)
    {
      wire := wire + output.Contents()[..n];
      output.Retrieve(n);
      if backPressured && output.writer - output.reader <= lowWaterMark {
        backPressured := false;
      }
    }

    method HandleClose()
      requires Valid()
      modifies this`state, this`writing
      ensures Value() == Closed(old(Value()))
    {
      if state == Connected || state == Disconnecting {
        state, writing := Disconnected, false;
      }
    }
  }
}

/** What every run of sends, writes and closes keeps. */
module ConnectionRuns {
  import opened Crc
  import opened Buffers
  import opened Connections

  datatype Step =
    | DoSend(data: seq<byte>, k: WriteResult)
    | DoWritable(caps: seq<nat>)
    | DoEstablish
    | DoShutdown
    | DoClose

  /** A run's state together with the messages accepted so far. */
  datatype Trace = Trace(conn: Conn, accepted: seq<seq<byte>>)

  function Next(l: Limits, t: Trace, s: Step): Trace {
    var c := t.conn;
    match s
    case DoSend(data, k) =>
      Trace(Send(l, c, data, k), if Accepted(l, c, data, k) then t.accepted + [data] else t.accepted)
    case DoWritable(caps) => t.(conn := Drained(l, c, caps))
    case DoEstablish => t.(conn := if c.state == Connecting then c.(state := Connected) else c)
    case DoShutdown => t.(conn := if c.state == Connected then c.(state := Disconnecting) else c)
    case DoClose => t.(conn := Closed(c))
  }

  function Run(l: Limits, t: Trace, steps: seq<Step>): Trace
    decreases |steps|
  {
    if steps == [] then t else Run(l, Next(l, t, steps[0]), steps[1..])
  }

  const START: Trace := Trace(FRESH, [])

  ghost predicate SendsAtMost(steps: seq<Step>, m: nat) {
    forall i :: 0 <= i < |steps| && steps[i].DoSend? ==> |steps[i].data| <= m
  }

  lemma {:induction false} RunConcat(l: Limits, t: Trace, a: seq<Step>, b: seq<Step>)
    ensures Run(l, t, a + b) == Run(l, Run(l, t, a), b)
    decreases |a|
  {
    if a == [] {
      assert a + b == b;
    } else {
      assert (a + b)[1..] == a[1..] + b;
      RunConcat(l, Next(l, t, a[0]), a[1..], b);
    }
  }

  // ---------------------------------------------------------------- the cap and write interest

  /** The queue never exceeds the cap, and write interest is on exactly while bytes are queued. */
  ghost predicate QueueInvariant(l: Limits, c: Conn) {
    && |c.out| <= l.max
    && (c.state != Disconnected ==> (c.writing <==> c.out != []))
    && (c.state == Disconnected ==> !c.writing)
  }

  lemma {:induction false} QueueInvariantHolds(l: Limits, t: Trace, steps: seq<Step>)
    requires QueueInvariant(l, t.conn)
    ensures QueueInvariant(l, Run(l, t, steps).conn)
    decreases |steps|
  {
    hide Next, QueueInvariant;
    if steps != [] {
      StepKeepsQueue(l, t, steps[0]);
      QueueInvariantHolds(l, Next(l, t, steps[0]), steps[1..]);
    }
  }

  lemma StepKeepsQueue(l: Limits, t: Trace, s: Step)
    requires QueueInvariant(l, t.conn)
    ensures QueueInvariant(l, Next(l, t, s).conn)
  {
  }

  // ---------------------------------------------------------------- water marks

  ghost predicate MarksHold(l: Limits, c: Conn) {
    c.state != Disconnected ==> (|c.out| >= l.high ==> c.backPressured) && (c.backPressured ==> |c.out| > l.low)
  }

  lemma {:induction false} MarksKept(l: Limits, m: nat, t: Trace, steps: seq<Step>)
    requires l.low < l.high && m + l.low <= l.max && SendsAtMost(steps, m)
    requires QueueInvariant(l, t.conn) && MarksHold(l, t.conn)
    ensures MarksHold(l, Run(l, t, steps).conn)
    decreases |steps|
  {
    if steps != [] {
      var rest := steps[1..];
      assert SendsAtMost(rest, m) by {
        forall i | 0 <= i < |rest| && rest[i].DoSend?
          ensures |rest[i].data| <= m
        {
          assert rest[i] == steps[i + 1];
        }
      }
      MarksKept(l, m, Next(l, t, steps[0]), rest);
    }
  }

  /** A connection that is up. */
  const UP: Trace := Trace(FRESH.(state := Connected), [])

  /** Queue n single bytes while the kernel takes nothing. */
  function Fill(n: nat): (steps: seq<Step>)
    ensures |steps| == n && forall i :: 0 <= i < n ==> steps[i] == DoSend([0], Refused)
  {
    seq(n, _ => DoSend([0], Refused))
  }

  lemma {:induction false} FillReaches(l: Limits, t: Trace, n: nat)
    requires t.conn.state == Connected && !t.conn.backPressured && (t.conn.writing <==> t.conn.out != [])
    requires |t.conn.out| + n < l.high && |t.conn.out| + n <= l.max
    ensures var c := Run(l, t, Fill(n)).conn;
            && c.state == Connected && !c.backPressured && |c.out| == |t.conn.out| + n && (c.writing <==> c.out != [])
    decreases n
  {
    if n > 0 {
      assert Fill(n)[1..] == Fill(n - 1);
      FillReaches(l, Next(l, t, DoSend([0], Refused)), n - 1);
    }
  }

  /** For which limits and message sizes the water marks mean what they say. */
  predicate MarksSafe(l: Limits, m: nat) {
    l.high > 0 && (m == 0 || (l.low < l.high && m + l.low <= l.max))
  }

  /** Otherwise one message, sent when the queue is as long as it can be without trouble, is dropped or
      queued with the queue at or below the low mark, and leaves back-pressure on. */
  lemma MarksBroken(l: Limits, m: nat) returns (steps: seq<Step>)
    requires !MarksSafe(l, m)
    ensures SendsAtMost(steps, m) && !MarksHold(l, Run(l, UP, steps).conn)
  {
    if l.high == 0 {
      steps := [];
    } else {
      var room := Min(Min(l.low, l.max), l.high - 1);
      var size := if l.low < l.high && l.low <= l.max then m else 1;
      var last := DoSend(seq(size, _ => 0), Refused);
      steps := Fill(room) + [last];
      FillReaches(l, UP, room);
      RunConcat(l, UP, Fill(room), [last]);
      assert [last][1..] == [];
      forall i | 0 <= i < |steps| && steps[i].DoSend?
        ensures |steps[i].data| <= m
      {
        assert i < room ==> steps[i] == DoSend([0], Refused);
      }
    }
  }

  /** In every run of a connection that is up, with messages of at most m bytes, a queue at the high mark
      means back-pressure and back-pressure means a queue above the low mark, exactly if the high mark is
      positive and no message carries anything, or the marks are in order and m bytes fit between the low
      mark and the cap. */
  lemma MarksHoldExactlyIf(l: Limits, m: nat)
    ensures (forall steps :: SendsAtMost(steps, m) ==> MarksHold(l, Run(l, UP, steps).conn)) <==> MarksSafe(l, m)
  {
    if MarksSafe(l, m) {
      forall steps | SendsAtMost(steps, m)
        ensures MarksHold(l, Run(l, UP, steps).conn)
      {
        if m == 0 {
          NothingQueued(l, UP, steps);
        } else {
          MarksKept(l, m, UP, steps);
        }
      }
    } else {
      var steps := MarksBroken(l, m);
    }
  }

  lemma {:induction false} NothingQueued(l: Limits, t: Trace, steps: seq<Step>)
    requires SendsAtMost(steps, 0) && t.conn.out == [] && !t.conn.backPressured
    ensures Run(l, t, steps).conn.out == [] && !Run(l, t, steps).conn.backPressured
    decreases |steps|
  {
    if steps != [] {
      assert steps[0].DoSend? ==> steps[0].data == [];
      assert forall i :: 0 <= i < |steps[1..]| ==> steps[1..][i] == steps[i + 1];
      NothingQueued(l, Next(l, t, steps[0]), steps[1..]);
    }
  }

  // ---------------------------------------------------------------- nothing lost, nothing torn

  /** Every byte of every accepted message, in order, is on the wire or queued; nothing else is. */
  ghost predicate Conserved(t: Trace) {
    t.conn.wire + t.conn.out == Concat(t.accepted)
  }

  /** A send leaves part of a message on the wire and drops the rest exactly when it writes directly,
      the kernel takes some but not all of it, and what is left exceeds the cap. */
  lemma TornExactlyWhen(l: Limits, c: Conn, data: seq<byte>, k: WriteResult)
    requires QueueInvariant(l, c)
    ensures var n := DirectBytes(c, data, k);
            var before, after := c.wire + c.out, Send(l, c, data, k).wire + Send(l, c, data, k).out;
            var torn := c.state != Disconnected && 0 < n < |data| && |data| - n > l.max;
            && (Accepted(l, c, data, k) ==> after == before + data)
            && (!Accepted(l, c, data, k) && !torn ==> after == before)
            && (torn ==> !Accepted(l, c, data, k) && after == before + data[..n])
  {
    Regroup(c.wire, c.out, data, DirectBytes(c, data, k));
  }

  lemma Regroup(wire: seq<byte>, out: seq<byte>, data: seq<byte>, n: nat)
    requires n <= |data| && (n == 0 || out == [])
    ensures (wire + data[..n]) + out == (wire + out) + data[..n]
    ensures (wire + data[..n]) + (out + data[n..]) == (wire + out) + data
    ensures n == |data| ==> data[..n] == data
    ensures n == 0 ==> data[..n] == []
  {
  }

  lemma {:induction false} ConservedInRuns(l: Limits, t: Trace, steps: seq<Step>)
    requires QueueInvariant(l, t.conn) && Conserved(t) && SendsAtMost(steps, l.max)
    ensures Conserved(Run(l, t, steps))
    decreases |steps|
  {
    hide Next, QueueInvariant, Conserved;
    if steps != [] {
      StepConserves(l, t, steps[0]);
      StepKeepsQueue(l, t, steps[0]);
      assert forall i :: 0 <= i < |steps| - 1 ==> steps[1..][i] == steps[i + 1];
      ConservedInRuns(l, Next(l, t, steps[0]), steps[1..]);
    }
  }

  lemma StepConserves(l: Limits, t: Trace, s: Step)
    requires QueueInvariant(l, t.conn) && Conserved(t) && (s.DoSend? ==> |s.data| <= l.max)
    ensures Conserved(Next(l, t, s))
  {
    match s
    case DoSend(data, k) =>
      TornExactlyWhen(l, t.conn, data, k);
      if Accepted(l, t.conn, data, k) {
        ConcatAppend(t.accepted, data);
      }
    case DoWritable(caps) =>
      var c, n := t.conn, Taken(caps, |t.conn.out|);
      assert (c.wire + c.out[..n]) + c.out[n..] == c.wire + c.out;
    case DoEstablish =>
    case DoShutdown =>
    case DoClose =>
  }
}
