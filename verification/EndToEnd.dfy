/** From `sendInLoop` on one side to the decoded packets on the other: for every schedule of partial
    kernel writes and every chunking at the receiver, the packets decoded are a prefix of the packets
    the sender accepted. */
module EndToEnd {
  import opened Crc
  import opened Wire
  import opened Buffers
  import opened Codecs
  import opened Framing
  import opened Connections
  import opened ConnectionRuns
  import opened ConnectionEnds

  /** What happens at the sender: a packet is packed and sent, or anything that is not a send. */
  datatype Action = SendPacket(packet: DecodedPacket, k: WriteResult) | Other(step: Step)

  ghost function ToStep(a: Action): Step {
    match a
    case SendPacket(p, k) => DoSend(Packed(p).Bytes(), k)
    case Other(step) => step
  }

  ghost function ToSteps(actions: seq<Action>): (steps: seq<Step>)
    ensures |steps| == |actions| && forall i :: 0 <= i < |actions| ==> steps[i] == ToStep(actions[i])
  {
    seq(|actions|, i requires 0 <= i < |actions| => ToStep(actions[i]))
  }

  /** Every packet is within the size limit and within the output cap. */
  ghost predicate Sendable(l: Limits, a: Action) {
    match a
    case SendPacket(p, _) => Fits(p) && HEADER_SIZE + |p.payload| <= l.max
    case Other(step) => !step.DoSend?
  }

  ghost predicate AllSendable(l: Limits, actions: seq<Action>) {
    forall i :: 0 <= i < |actions| ==> Sendable(l, actions[i])
  }

  /** The packets the sender accepted, in order. */
  ghost function AcceptedPackets(l: Limits, t: Trace, actions: seq<Action>): seq<DecodedPacket>
    decreases |actions|
  {
    if actions == [] then []
    else
      (if actions[0].SendPacket? && Accepted(l, t.conn, Packed(actions[0].packet).Bytes(), actions[0].k)
       then [actions[0].packet] else [])
      + AcceptedPackets(l, Next(l, t, ToStep(actions[0])), actions[1..])
  }

  ghost predicate AllFit(packets: seq<DecodedPacket>) {
    forall i :: 0 <= i < |packets| ==> Fits(packets[i])
  }

  lemma {:induction false} ConcatIsStream(messages: seq<seq<byte>>, frames: seq<Frame>)
    requires |messages| == |frames| && forall i :: 0 <= i < |frames| ==> messages[i] == frames[i].Bytes()
    ensures Concat(messages) == Stream(frames)
  {
    hide Stream, HeaderBytes;
    StreamHead(frames);
    if messages == [] {
      assert frames[..0] == frames;
    } else {
      ConcatIsStream(messages[1..], frames[1..]);
    }
  }

  /** What the connection accepted is exactly the packed form of those packets. */
  lemma {:induction false} AcceptedAreFrames(l: Limits, t: Trace, actions: seq<Action>)
    requires AllSendable(l, actions)
    ensures var a := Run(l, t, ToSteps(actions)).accepted;
            var packets := AcceptedPackets(l, t, actions);
            && AllFit(packets) && |a| == |t.accepted| + |packets| && t.accepted <= a
            && forall i :: 0 <= i < |packets| ==> a[|t.accepted| + i] == Packed(packets[i]).Bytes()
    decreases |actions|
  {
    hide HeaderBytes, ChecksumValue, Send, Accepted, Drained;
    if actions != [] {
      var next := Next(l, t, ToStep(actions[0]));
      assert ToSteps(actions)[1..] == ToSteps(actions[1..]);
      assert AllSendable(l, actions[1..]) by {
        forall i | 0 <= i < |actions| - 1
          ensures Sendable(l, actions[1..][i])
        {
          assert actions[1..][i] == actions[i + 1];
        }
      }
      AcceptedAreFrames(l, next, actions[1..]);
      var packets, later := AcceptedPackets(l, t, actions), AcceptedPackets(l, next, actions[1..]);
      var extra := |next.accepted| - |t.accepted|;
      assert extra == |packets| - |later|;
      forall i | 0 <= i < |packets|
        ensures Fits(packets[i])
        ensures Run(l, t, ToSteps(actions)).accepted[|t.accepted| + i] == Packed(packets[i]).Bytes()
      {
        if i >= extra { assert packets[i] == later[i - extra]; }
      }
    }
  }

  lemma SendsWithinCap(l: Limits, actions: seq<Action>)
    requires AllSendable(l, actions)
    ensures SendsAtMost(ToSteps(actions), l.max)
  {
    hide HeaderBytes, ChecksumValue;
    forall i | 0 <= i < |actions| && ToSteps(actions)[i].DoSend?
      ensures |ToSteps(actions)[i].data| <= l.max
    {
      assert Sendable(l, actions[i]);
    }
  }

  /** The bytes on the wire are a prefix of the accepted frames back to back. */
  lemma WireIsPrefix(l: Limits, actions: seq<Action>)
    requires AllSendable(l, actions)
    ensures AllFit(AcceptedPackets(l, START, actions))
    ensures Run(l, START, ToSteps(actions)).conn.wire <= Stream(PackedAll(AcceptedPackets(l, START, actions)))
  {
    hide Run, Stream, Packed;
    SendsWithinCap(l, actions);
    ConservedInRuns(l, START, ToSteps(actions));
    AcceptedAreFrames(l, START, actions);
    var t, packets := Run(l, START, ToSteps(actions)), AcceptedPackets(l, START, actions);
    ConcatIsStream(t.accepted, PackedAll(packets));
  }

  /** The packets decoded after any chunks of what the kernel took are the first k packets accepted,
      whole and in order, and k is as large as the bytes received allow. */
  lemma DecodedArePrefixOfAccepted(l: Limits, h: PacketHeader, actions: seq<Action>, chunks: seq<seq<byte>>)
    returns (k: nat)
    requires AllSendable(l, actions) && Concat(chunks) <= Run(l, START, ToSteps(actions)).conn.wire
    ensures var packets := AcceptedPackets(l, START, actions);
            var o := Receive(Fresh(h), chunks);
            && k <= |packets| && |o.events| == k
            && (forall i :: 0 <= i < k ==> Brings(o.events[i], packets[i]))
            && (k < |packets| ==> |Concat(chunks)| < |Stream(PackedAll(packets)[..k + 1])|)
  {
    hide Run, Stream, Events, ChecksumValue, HeaderBytes, Receive, Brings;
    var packets := AcceptedPackets(l, START, actions);
    var frames := PackedAll(packets);
    WireIsPrefix(l, actions);
    assert AllValid(frames) && AllGood(frames) by {
      forall i | 0 <= i < |packets|
        ensures frames[i].Valid() && frames[i].Good()
      {
        PackedIsGood(packets[i]);
      }
    }
    StartsAtFirst(h, frames);
    assert [] + Concat(chunks) == Concat(chunks);
    NothingYet(h, frames);
    k := Resynchronises(frames, Fresh(h), 0, [], chunks);
    DeliveredPackets(packets, frames, Receive(Fresh(h), chunks), k);
    if k < |packets| {
      StreamSplit(frames[..k + 1], k);
      assert frames[..k + 1][..k] == frames[..k] && frames[..k + 1][k..] == [frames[k]];
      OneFrame(frames[k]);
    }
  }

  lemma NothingYet(h: PacketHeader, frames: seq<Frame>)
    ensures Waiting(Fresh(h), frames, 0)
  {
    if frames != [] { assert |frames[0].Bytes()| >= HEADER_SIZE; }
  }

  lemma OneFrame(f: Frame)
    ensures Stream([f]) == f.Bytes()
  {
    StreamHead([f]);
    assert [f][1..] == [f][..0];
  }

  lemma DeliveredPackets(packets: seq<DecodedPacket>, frames: seq<Frame>, o: Outcome, k: nat)
    requires frames == PackedAll(packets) && AllGood(frames) && k <= |frames| && o.events == Events(frames[..k])
    requires AllFit(packets)
    ensures |o.events| == k
    ensures forall i :: 0 <= i < k ==> Brings(o.events[i], packets[i])
  {
    EventsLength(frames[..k]);
    forall i | 0 <= i < k
      ensures Brings(o.events[i], packets[i])
    {
      EventAt(frames[..k], i);
      assert frames[i].Good();
      PackedBrings(packets[i]);
    }
  }

  lemma SendableAppend(l: Limits, actions: seq<Action>, caps: seq<nat>)
    requires AllSendable(l, actions)
    ensures var all := actions + [Other(DoWritable(caps))];
            AllSendable(l, all) && ToSteps(all) == ToSteps(actions) + [DoWritable(caps)]
  {
    hide HeaderBytes, ChecksumValue;
    var all := actions + [Other(DoWritable(caps))];
    forall i | 0 <= i < |all| ensures Sendable(l, all[i]) {
      if i < |actions| { assert Sendable(l, actions[i]); }
    }
  }

  lemma {:induction false} AcceptedAppend(l: Limits, t: Trace, actions: seq<Action>, caps: seq<nat>)
    ensures AcceptedPackets(l, t, actions + [Other(DoWritable(caps))]) == AcceptedPackets(l, t, actions)
    decreases |actions|
  {
    hide HeaderBytes, ChecksumValue, Send, Accepted, Drained;
    var all := actions + [Other(DoWritable(caps))];
    if actions == [] {
      assert all[1..] == [];
    } else {
      assert all[1..] == actions[1..] + [Other(DoWritable(caps))];
      AcceptedAppend(l, Next(l, t, ToStep(actions[0])), actions[1..], caps);
    }
  }

  /** Nothing is held back: after any actions on a connection that is not closed, one writable event for which
      the kernel has room lets the receiver, however the bytes are cut, decode every accepted packet. */
  lemma AllAcceptedAreDecoded(l: Limits, h: PacketHeader, actions: seq<Action>, caps: seq<nat>, chunks: seq<seq<byte>>)
    requires AllSendable(l, actions)
    ensures var c := Run(l, START, ToSteps(actions)).conn;
            && c.state != Disconnected && |c.out| <= Room(caps)
            && Concat(chunks) == Run(l, START, ToSteps(actions) + [DoWritable(caps)]).conn.wire ==>
            var packets := AcceptedPackets(l, START, actions);
            var o := Receive(Fresh(h), chunks);
            |o.events| == |packets| && forall i :: 0 <= i < |packets| ==> Brings(o.events[i], packets[i])
  {
    hide Run, Stream, ChecksumValue, HeaderBytes, Receive, Brings, Next, Packed;
    var steps, packets := ToSteps(actions), AcceptedPackets(l, START, actions);
    var all := actions + [Other(DoWritable(caps))];
    SendableAppend(l, actions, caps);
    AcceptedAppend(l, START, actions, caps);
    SendsWithinCap(l, actions);
    WritableFlushes(l, steps, caps);
    RunAppend(l, START, steps, DoWritable(caps));
    var c, end := Run(l, START, steps).conn, Run(l, START, ToSteps(all));
    if c.state != Disconnected && |c.out| <= Room(caps) && Concat(chunks) == end.conn.wire {
      AcceptedAreFrames(l, START, all);
      ConcatIsStream(end.accepted, PackedAll(packets));
      var k := DecodedArePrefixOfAccepted(l, h, all, chunks);
      assert PackedAll(packets)[..|packets|] == PackedAll(packets);
      if k < |packets| {
        StreamSplit(PackedAll(packets), k + 1);
      }
    }
  }

  lemma RunAppend(l: Limits, t: Trace, steps: seq<Step>, s: Step)
    ensures Run(l, t, steps + [s]) == Next(l, Run(l, t, steps), s)
  {
    hide Next;
    RunConcat(l, t, steps, [s]);
    assert [s][1..] == [];
  }
}
