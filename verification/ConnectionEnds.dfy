/** What each event does to the bytes, and what becomes of the queue in the end: it gets out, or the
    connection is closed. */
module ConnectionEnds {
  import opened Crc
  import opened Buffers
  import opened Connections
  import opened ConnectionRuns

  /** What the kernel takes in a row: the capacities up to the first that is zero. */
  function Room(caps: seq<nat>): nat {
    if caps == [] || caps[0] == 0 then 0 else caps[0] + Room(caps[1..])
  }

  lemma {:induction false} TakenIsRoom(caps: seq<nat>, n: nat)
    ensures Taken(caps, n) == Min(n, Room(caps))
    decreases |caps|
  {
    if caps != [] && caps[0] != 0 {
      TakenIsRoom(caps[1..], n - Min(caps[0], n));
    }
  }

  /** A writable event moves the first min(|out|, Room) queued bytes to the end of the wire, in order, keeps
      the rest, and leaves write interest on iff something is left. Back-pressure ends when bytes went out and
      no more than the low mark is left. Without write interest nothing happens. */
  lemma WritableExactly(l: Limits, c: Conn, caps: seq<nat>)
    ensures var d := Drained(l, c, caps);
            var n := if |c.out| <= Room(caps) then |c.out| else Room(caps);
            && d.state == c.state
            && (!c.writing ==> d == c)
            && (c.writing ==>
                  && d.wire == c.wire + c.out[..n] && d.out == c.out[n..] && (d.writing <==> d.out != [])
                  && (d.backPressured <==> c.backPressured && (n == 0 || |c.out| - n > l.low)))
  {
    TakenIsRoom(caps, |c.out|);
  }

  /** What a send does, by the kernel's answer `k`, which only matters if nothing is queued. */
  lemma SendExactly(l: Limits, c: Conn, data: seq<byte>, k: WriteResult)
    ensures var d := Send(l, c, data, k);
            var direct := !c.writing && c.out == [];
            var n := if !direct || !k.Accept? then 0 else if k.capacity <= |data| then k.capacity else |data|;
            var pending := |c.out| + (|data| - n);
            if c.state == Disconnected || (direct && k.Broken?) then d == c
            else
              && d.state == c.state && d.wire == c.wire + data[..n]
              && if n == |data| then
                   d.out == c.out && d.writing == c.writing && d.backPressured == c.backPressured
                 else if pending > l.max then
                   d.out == c.out && d.writing == c.writing && d.backPressured
                 else
                   && d.out == c.out + data[n..] && d.writing
                   && (d.backPressured <==> c.backPressured || pending >= l.high)
  {
  }

  /** From any state of a connection that is not closed, one writable event for which the kernel has room puts
      every accepted message on the wire. */
  lemma WritableFlushes(l: Limits, steps: seq<Step>, caps: seq<nat>)
    requires SendsAtMost(steps, l.max)
    ensures var t := Run(l, START, steps);
            t.conn.state != Disconnected && |t.conn.out| <= Room(caps) ==>
            var n := Next(l, t, DoWritable(caps));
            n.conn.wire == Concat(n.accepted) && n.conn.out == [] && !n.conn.writing
  {
    hide Run;
    var t := Run(l, START, steps);
    QueueInvariantHolds(l, START, steps);
    ConservedInRuns(l, START, steps);
    WritableExactly(l, t.conn, caps);
    assert t.conn.wire + t.conn.out[..|t.conn.out|] == t.conn.wire + t.conn.out;
  }

  lemma {:induction false} NothingOnceClosed(l: Limits, t: Trace, steps: seq<Step>)
    requires t.conn.state == Disconnected && !t.conn.writing
    ensures Run(l, t, steps) == t
    decreases |steps|
  {
    if steps != [] {
      NothingOnceClosed(l, Next(l, t, steps[0]), steps[1..]);
    }
  }

  /** Closing a connection that is up or shutting down is final: whatever comes later, nothing more is
      accepted, written or queued. */
  lemma {:induction false} ClosingIsFinal(l: Limits, t: Trace, steps: seq<Step>)
    requires t.conn.state == Connected || t.conn.state == Disconnecting
    ensures var n := Run(l, Next(l, t, DoClose), steps);
            && n.conn.state == Disconnected && !n.conn.writing && n.accepted == t.accepted
            && n.conn.wire == t.conn.wire && n.conn.out == t.conn.out
  {
    NothingOnceClosed(l, Next(l, t, DoClose), steps);
  }
}
