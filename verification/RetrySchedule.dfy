/** Delivery and retry of stored messages. Each delivery works on copies of messages it took from the
    store: a direct delivery on the message just saved, a retry pass on a page of pending ones. Steps of
    any number of deliveries, of acks and of the clock interleave between store operations. */
module RetrySchedules {
  import opened MessageStores
  import opened Numbers
  import Runs = MessageRuns

  datatype Config = Config(maxRetryCount: nat, ackTimeout: int, backoff: int) {
    predicate Valid() { maxRetryCount < U32 }
  }

  predicate ShouldRetry(c: Config, m: StoredMessage, now: int) {
    if m.status == Persisted then true
    else if m.status != Delivering then false
    else
      var last := if m.lastDeliverAt > 0 then m.lastDeliverAt else m.createdAt;
      var steps := if m.retryCount > 0 then m.retryCount - 1 else 0;
      now - last >= c.ackTimeout + steps * c.backoff
  }

  datatype Kind = Direct | Loaded | Pass(now: int)

  /** How far the first copy is: untouched; handed to the connection; its time of delivery read. */
  datatype Phase = Ready | Sent | Stamped(at: int)

  /** A delivery under way for `user`, and the copies still to handle. */
  datatype Delivery = Delivery(user: UserId, kind: Kind, items: seq<StoredMessage>, phase: Phase)

  /** What was handed to whose connection. */
  datatype Handover = Handover(user: UserId, notify: Notify)

  /** `sends` and `log` are history: when each message was handed to a connection, and what to whose. */
  datatype Service = Service(
    trace: Runs.Trace, clock: int, active: map<nat, Delivery>, sends: map<MsgId, seq<int>>, log: seq<Handover>)

  function Begin(clock: int): Service { Service(Runs.START, clock, map[], map[], []) }

  function SendsOf(sends: map<MsgId, seq<int>>, id: MsgId): seq<int> { if id in sends then sends[id] else [] }

  datatype Step =
    | Tick(clock: int)
    | SaveOffline(request: Request)
    | SaveDirect(d: nat, request: Request)
    | AckBy(user: UserId, id: MsgId, serverSeq: nat, code: nat, at: int)
    | Load(d: nat, user: UserId, after: nat, limit: nat)
    | ReadClock(d: nat)
    | GiveUp(d: nat)     // retries exhausted: recorded as failed
    | Skip(d: nat)       // not due yet, or the connection has gone
    | Send(d: nat)
    | Stamp(d: nat)      // after the send: the time of delivery is read
    | Record(d: nat)     // status, time and count go to the store
    | Finish(d: nat)

  /** Delivery `d` is at a copy it has not sent. */
  predicate AtItem(s: Service, d: nat) {
    d in s.active && !s.active[d].kind.Loaded? && s.active[d].items != [] && s.active[d].phase.Ready?
  }

  predicate Exhausted(c: Config, v: Delivery)
    requires v.items != []
  {
    v.kind.Pass? && v.items[0].retryCount >= c.maxRetryCount
  }

  predicate Enabled(c: Config, s: Service, step: Step) {
    match step
    case Tick(clock) => s.clock <= clock
    case SaveOffline(_) => true
    case SaveDirect(d, _) => d !in s.active
    case AckBy(_, _, _, _, _) => true
    case Load(d, _, _, _) => d !in s.active
    case ReadClock(d) => d in s.active && s.active[d].kind.Loaded?
    case GiveUp(d) => AtItem(s, d) && Exhausted(c, s.active[d])
    case Skip(d) => AtItem(s, d) && !Exhausted(c, s.active[d])
    case Send(d) =>
      && AtItem(s, d) && !Exhausted(c, s.active[d])
      && (s.active[d].kind.Pass? ==> ShouldRetry(c, s.active[d].items[0], s.active[d].kind.now))
    case Stamp(d) => d in s.active && s.active[d].items != [] && s.active[d].phase.Sent?
    case Record(d) => d in s.active && s.active[d].items != [] && s.active[d].phase.Stamped?
    case Finish(d) => d in s.active && s.active[d].items == []
  }

  function Do(s: Service, step: Runs.Step): Service { s.(trace := Runs.Next(s.trace, step)) }

  /** Delivery `d` goes on to its next copy. */
  function Advance(s: Service, d: nat): Service
    requires d in s.active && s.active[d].items != []
  {
    s.(active := s.active[d := s.active[d].(items := s.active[d].items[1..], phase := Ready)])
  }

  function Next(c: Config, s: Service, step: Step): Service
    requires Enabled(c, s, step)
  {
    match step
    case Tick(clock) => s.(clock := clock)
    case SaveOffline(r) => Do(s, Runs.DoSave(r))
    case SaveDirect(d, r) =>
      var v := Delivery(r.toUserId, Direct, [SavedMessage(s.trace.store, r)], Ready);
      Do(s, Runs.DoSave(r)).(active := s.active[d := v])
    case AckBy(user, id, serverSeq, code, at) => Do(s, Runs.DoAck(user, id, serverSeq, code, at))
    case Load(d, user, after, limit) =>
      s.(active := s.active[d := Delivery(user, Loaded, Page(s.trace.store, user, after, limit), Ready)])
    case ReadClock(d) => s.(active := s.active[d := s.active[d].(kind := Pass(s.clock))])
    case GiveUp(d) =>
      var m := s.active[d].items[0];
      Advance(Do(s, Runs.DoAttempt(m.receiverId, m.notify.msgId, Failed, m.lastDeliverAt, m.retryCount)), d)
    case Skip(d) => Advance(s, d)
    case Send(d) =>
      var notify := s.active[d].items[0].notify;
      s.(active := s.active[d := s.active[d].(phase := Sent)],
         sends := s.sends[notify.msgId := SendsOf(s.sends, notify.msgId) + [s.clock]],
         log := s.log + [Handover(s.active[d].user, notify)])
    case Stamp(d) => s.(active := s.active[d := s.active[d].(phase := Stamped(s.clock))])
    case Record(d) =>
      var m, at := s.active[d].items[0], s.active[d].phase.at;
      Advance(Do(s, Runs.DoAttempt(m.receiverId, m.notify.msgId, Delivering, at, (m.retryCount + 1) % U32)), d)
    case Finish(d) => s.(active := s.active - {d})
  }

  /** No overlapping deliveries: a pass loads only while no other delivery to its user is under way; and
      a sender does not re-send: a direct delivery is of a new message. */
  ghost predicate Polite(s: Service, step: Step) {
    match step
    case Load(_, user, _, _) => forall d :: d in s.active ==> s.active[d].user != user
    case SaveDirect(_, r) => !IsDuplicate(s.trace.store, r)
    case _ => true
  }

  ghost predicate IsRun(c: Config, s: Service, steps: seq<Step>)
    decreases |steps|
  {
    steps == [] || (Enabled(c, s, steps[0]) && IsRun(c, Next(c, s, steps[0]), steps[1..]))
  }

  ghost function After(c: Config, s: Service, steps: seq<Step>): Service
    requires IsRun(c, s, steps)
    decreases |steps|
  {
    if steps == [] then s else After(c, Next(c, s, steps[0]), steps[1..])
  }

  ghost predicate AllPolite(c: Config, s: Service, steps: seq<Step>)
    requires IsRun(c, s, steps)
    decreases |steps|
  {
    steps == [] || (Polite(s, steps[0]) && AllPolite(c, Next(c, s, steps[0]), steps[1..]))
  }

  // ---------------------------------------------------------------- the invariant

  /** Consecutive sends keep their distance, which grows by the backoff each time. */
  ghost predicate Spaced(c: Config, times: seq<int>) {
    forall k :: 0 <= k < |times| - 1 ==> times[k + 1] - times[k] >= c.ackTimeout + k * c.backoff
  }

  /** The sends of a message so far: spaced, not too many, none in the future. */
  ghost predicate SendsSound(c: Config, times: seq<int>, clock: int) {
    && Spaced(c, times) && |times| <= Max(1, c.maxRetryCount)
    && (times != [] ==> 0 < times[|times| - 1] <= clock)
  }

  /** A record of a message tells how often it was sent, and when last, or later. */
  ghost predicate Faithful(m: StoredMessage, times: seq<int>) {
    && m.retryCount == |times|
    && (times != [] ==> m.lastDeliverAt >= times[|times| - 1])
    && (m.status == Persisted ==> times == [])
  }

  ghost predicate InAir(s: Service, d: nat, id: MsgId) {
    d in s.active && !s.active[d].phase.Ready? && s.active[d].items != [] && s.active[d].items[0].notify.msgId == id
  }

  ghost predicate RecordSound(s: Service, id: MsgId)
    requires id in s.trace.store.messages
  {
    Faithful(s.trace.store.messages[id], SendsOf(s.sends, id)) || exists d :: InAir(s, d, id)
  }

  ghost predicate StoreSound(c: Config, s: Service) {
    && s.sends.Keys <= s.trace.store.messages.Keys
    && (forall id :: id in s.trace.store.messages ==>
          SendsSound(c, SendsOf(s.sends, id), s.clock) && RecordSound(s, id))
  }

  /** What a delivery knows of its copies. */
  ghost predicate ItemSound(s: Service, v: Delivery, i: nat)
    requires i < |v.items|
  {
    var m := v.items[i];
    var times := SendsOf(s.sends, m.notify.msgId);
    && m.notify.msgId in s.trace.store.messages && m.receiverId == v.user
    && s.trace.store.messages[m.notify.msgId].receiverId == v.user
    && (if i == 0 && !v.phase.Ready? then times != [] && m.retryCount + 1 == |times| else Faithful(m, times))
    && (i == 0 && v.phase.Stamped? ==> times[|times| - 1] <= v.phase.at)
    && (v.kind.Direct? && v.phase.Ready? ==> times == [])
  }

  ghost predicate DeliverySound(s: Service, v: Delivery) {
    && (v.kind.Pass? ==> v.kind.now <= s.clock)
    && (v.kind.Direct? ==> |v.items| <= 1)
    && (!v.phase.Ready? ==> v.items != [])
    && (forall i :: 0 <= i < |v.items| ==> ItemSound(s, v, i))
    && (forall i, j :: 0 <= i < j < |v.items| ==> v.items[i].notify.msgId != v.items[j].notify.msgId)
  }

  ghost predicate Holds(v: Delivery, id: MsgId) {
    exists i :: 0 <= i < |v.items| && v.items[i].notify.msgId == id
  }

  /** No two deliveries hold the same message. */
  ghost predicate Exclusive(s: Service) {
    forall d, e, id :: d in s.active && e in s.active && d != e ==> !(Holds(s.active[d], id) && Holds(s.active[e], id))
  }

  ghost predicate Sound(c: Config, s: Service) {
    && c.Valid() && s.clock > 0
    && Runs.Invariant(s.trace) && StoreSound(c, s) && Exclusive(s)
    && (forall d :: d in s.active ==> DeliverySound(s, s.active[d]))
  }

  // ---------------------------------------------------------------- every step keeps it

  /** The store's messages stay with their receivers, and faithful records stay faithful. */
  ghost predicate Follows(s: Service, trace: Runs.Trace) {
    forall id :: id in s.trace.store.messages ==>
      && id in trace.store.messages && trace.store.messages[id].receiverId == s.trace.store.messages[id].receiverId
      && (Faithful(s.trace.store.messages[id], SendsOf(s.sends, id)) ==>
            Faithful(trace.store.messages[id], SendsOf(s.sends, id)))
  }

  ghost predicate NewAreUnsent(s: Service, trace: Runs.Trace) {
    forall id :: id in trace.store.messages && id !in s.trace.store.messages ==>
      trace.store.messages[id].retryCount == 0
  }

  lemma TraceKeepsDelivery(s: Service, trace: Runs.Trace, v: Delivery)
    requires Follows(s, trace) && DeliverySound(s, v)
    ensures DeliverySound(s.(trace := trace), v)
  {
    hide Faithful;
    forall i | 0 <= i < |v.items| ensures ItemSound(s.(trace := trace), v, i) {
      assert ItemSound(s, v, i);
    }
  }

  lemma TraceKeepsStore(c: Config, s: Service, trace: Runs.Trace)
    requires StoreSound(c, s) && Follows(s, trace) && NewAreUnsent(s, trace)
    ensures StoreSound(c, s.(trace := trace))
  {
    var n := s.(trace := trace);
    forall id | id in trace.store.messages ensures SendsSound(c, SendsOf(n.sends, id), n.clock) && RecordSound(n, id) {
      if id in s.trace.store.messages {
        assert RecordSound(s, id) && SendsSound(c, SendsOf(s.sends, id), s.clock);
        if d :| InAir(s, d, id) {
          assert InAir(n, d, id);
        }
      } else {
        assert SendsOf(n.sends, id) == [];
      }
    }
  }

  lemma DoKeeps(c: Config, s: Service, step: Runs.Step)
    requires Sound(c, s) && Follows(s, Runs.Next(s.trace, step)) && NewAreUnsent(s, Runs.Next(s.trace, step))
    ensures Sound(c, Do(s, step))
  {
    hide Runs.Invariant, Runs.Next, StoreSound, DeliverySound, Follows, NewAreUnsent;
    Runs.StepKeepsInvariant(s.trace, step);
    TraceKeepsStore(c, s, Runs.Next(s.trace, step));
    forall d | d in s.active ensures DeliverySound(Do(s, step), s.active[d]) {
      TraceKeepsDelivery(s, Runs.Next(s.trace, step), s.active[d]);
    }
    assert Exclusive(s) ==> Exclusive(Do(s, step));
  }

  lemma SaveFollows(s: Service, r: Request)
    requires Runs.IdsDense(s.trace.store)
    ensures Follows(s, Runs.Next(s.trace, Runs.DoSave(r))) && NewAreUnsent(s, Runs.Next(s.trace, Runs.DoSave(r)))
  {
    hide Faithful;
  }

  lemma AckFollows(s: Service, user: UserId, id: MsgId, serverSeq: nat, code: nat, at: int)
    ensures var trace := Runs.Next(s.trace, Runs.DoAck(user, id, serverSeq, code, at));
            Follows(s, trace) && NewAreUnsent(s, trace)
  {
  }

  lemma AttemptFollows(s: Service, m: StoredMessage, status: Status, at: int, count: nat)
    requires m.notify.msgId in s.trace.store.messages
    requires var id := m.notify.msgId;
             var record := s.trace.store.messages[id].(status := status, lastDeliverAt := at, retryCount := count);
             Faithful(record, SendsOf(s.sends, id))
    ensures var trace := Runs.Next(s.trace, Runs.DoAttempt(m.receiverId, m.notify.msgId, status, at, count));
            Follows(s, trace) && NewAreUnsent(s, trace)
  {
    hide Faithful;
  }

  /** What a delivery's step on its own message leaves of the others. */
  lemma AdvanceKeepsStore(c: Config, s: Service, d: nat)
    requires StoreSound(c, s) && d in s.active && s.active[d].items != []
    requires var id := s.active[d].items[0].notify.msgId;
             id in s.trace.store.messages && Faithful(s.trace.store.messages[id], SendsOf(s.sends, id))
    ensures StoreSound(c, Advance(s, d))
  {
    hide SendsSound, Faithful;
    var n := Advance(s, d);
    forall id | id in n.trace.store.messages
      ensures SendsSound(c, SendsOf(n.sends, id), n.clock) && RecordSound(n, id) {
      assert RecordSound(s, id);
      if e :| InAir(s, e, id) {
        assert e != d ==> InAir(n, e, id);
      }
    }
  }

  lemma AdvanceKeepsDelivery(s: Service, d: nat, e: nat)
    requires d in s.active && s.active[d].items != [] && e in s.active && DeliverySound(s, s.active[e])
    ensures DeliverySound(Advance(s, d), Advance(s, d).active[e])
  {
    hide Faithful;
    var v, n := s.active[e], Advance(s, d);
    forall i | 0 <= i < |n.active[e].items| ensures ItemSound(n, n.active[e], i) {
      assert ItemSound(s, v, if e == d then i + 1 else i);
    }
  }

  lemma FewerStayExclusive(s: Service, n: Service)
    requires Exclusive(s) && n.active.Keys <= s.active.Keys
    requires forall d, id :: d in n.active && Holds(n.active[d], id) ==> Holds(s.active[d], id)
    ensures Exclusive(n)
  {
  }

  lemma AdvanceHolds(s: Service, d: nat)
    requires d in s.active && s.active[d].items != []
    ensures forall e, id :: e in s.active && Holds(Advance(s, d).active[e], id) ==> Holds(s.active[e], id)
  {
    forall e, id | e in s.active && Holds(Advance(s, d).active[e], id) ensures Holds(s.active[e], id) {
      var i :| 0 <= i < |Advance(s, d).active[e].items| && Advance(s, d).active[e].items[i].notify.msgId == id;
      assert s.active[e].items[if e == d then i + 1 else i].notify.msgId == id;
    }
  }

  lemma AdvanceKeeps(c: Config, s: Service, d: nat)
    requires Sound(c, s) && d in s.active && s.active[d].items != []
    requires var id := s.active[d].items[0].notify.msgId;
             id in s.trace.store.messages && Faithful(s.trace.store.messages[id], SendsOf(s.sends, id))
    ensures Sound(c, Advance(s, d))
  {
    hide Runs.Invariant, StoreSound, DeliverySound, Exclusive, Holds;
    AdvanceKeepsStore(c, s, d);
    forall e | e in s.active ensures DeliverySound(Advance(s, d), Advance(s, d).active[e]) {
      AdvanceKeepsDelivery(s, d, e);
    }
    AdvanceHolds(s, d);
    FewerStayExclusive(s, Advance(s, d));
  }

  /** The record of a message at which a delivery stands, and which it has not sent, is faithful. */
  lemma AtItemFaithful(c: Config, s: Service, d: nat)
    requires Sound(c, s) && AtItem(s, d)
    ensures var m := s.active[d].items[0];
            var times := SendsOf(s.sends, m.notify.msgId);
            && m.notify.msgId in s.trace.store.messages && m.receiverId == s.active[d].user
            && Faithful(m, times) && Faithful(s.trace.store.messages[m.notify.msgId], times)
            && SendsSound(c, times, s.clock)
            && (s.active[d].kind.Direct? ==> times == [])
  {
    hide Runs.Invariant, Faithful, SendsSound;
    var m := s.active[d].items[0];
    var id := m.notify.msgId;
    assert ItemSound(s, s.active[d], 0);
    assert RecordSound(s, id);
    forall e ensures !InAir(s, e, id) {
      assert Holds(s.active[d], id);
      assert e in s.active && s.active[e].items != [] ==> Holds(s.active[e], s.active[e].items[0].notify.msgId);
    }
  }

  lemma SkipKeeps(c: Config, s: Service, d: nat)
    requires Sound(c, s) && AtItem(s, d)
    ensures Sound(c, Advance(s, d))
  {
    hide Runs.Invariant, StoreSound, DeliverySound, Exclusive;
    AtItemFaithful(c, s, d);
    AdvanceKeeps(c, s, d);
  }

  lemma GiveUpKeeps(c: Config, s: Service, d: nat)
    requires Sound(c, s) && Enabled(c, s, GiveUp(d))
    ensures Sound(c, Next(c, s, GiveUp(d)))
  {
    hide Runs.Invariant, StoreSound, DeliverySound, Exclusive, Follows, NewAreUnsent;
    AtItemFaithful(c, s, d);
    var m := s.active[d].items[0];
    var step := Runs.DoAttempt(m.receiverId, m.notify.msgId, Failed, m.lastDeliverAt, m.retryCount);
    AttemptFollows(s, m, Failed, m.lastDeliverAt, m.retryCount);
    DoKeeps(c, s, step);
    SkipKeeps(c, Do(s, step), d);
  }

  /** Recording a send makes the store's record faithful again, however long ago its time was read. */
  lemma RecordKeeps(c: Config, s: Service, d: nat)
    requires Sound(c, s) && Enabled(c, s, Record(d))
    ensures Sound(c, Next(c, s, Record(d)))
  {
    hide Runs.Invariant, Exclusive, Follows, NewAreUnsent;
    var v := s.active[d];
    var m, at := v.items[0], v.phase.at;
    var id := m.notify.msgId;
    assert ItemSound(s, v, 0);
    assert SendsSound(c, SendsOf(s.sends, id), s.clock);
    var count := (m.retryCount + 1) % U32;
    assert count == m.retryCount + 1;
    var step := Runs.DoAttempt(m.receiverId, id, Delivering, at, count);
    AttemptFollows(s, m, Delivering, at, count);
    hide StoreSound, DeliverySound;
    DoKeeps(c, s, step);
    AdvanceKeeps(c, Do(s, step), d);
  }

  /** A send that the schedule allows keeps the distances and the count. */
  lemma SendIsDue(c: Config, s: Service, d: nat)
    requires Sound(c, s) && Enabled(c, s, Send(d))
    ensures SendsSound(c, SendsOf(s.sends, s.active[d].items[0].notify.msgId) + [s.clock], s.clock)
  {
    hide Runs.Invariant, StoreSound, Exclusive;
    AtItemFaithful(c, s, d);
    var m := s.active[d].items[0];
    var times := SendsOf(s.sends, m.notify.msgId);
    var k := |times|;
    if k > 0 {
      assert (k - 1) * c.backoff == (m.retryCount - 1) * c.backoff;
      assert s.clock - times[k - 1] >= c.ackTimeout + (k - 1) * c.backoff;
      var longer := times + [s.clock];
      forall j | 0 <= j < |longer| - 1 ensures longer[j + 1] - longer[j] >= c.ackTimeout + j * c.backoff {
        if j < k - 1 {
          assert times[j + 1] - times[j] >= c.ackTimeout + j * c.backoff;
        }
      }
    }
  }

  lemma SendKeepsStore(c: Config, s: Service, d: nat)
    requires StoreSound(c, s) && Enabled(c, s, Send(d)) && s.active[d].items[0].notify.msgId in s.trace.store.messages
    requires SendsSound(c, SendsOf(s.sends, s.active[d].items[0].notify.msgId) + [s.clock], s.clock)
    ensures StoreSound(c, Next(c, s, Send(d)))
  {
    hide SendsSound, Faithful;
    var n := Next(c, s, Send(d));
    var own := s.active[d].items[0].notify.msgId;
    forall id | id in n.trace.store.messages
      ensures SendsSound(c, SendsOf(n.sends, id), n.clock) && RecordSound(n, id) {
      assert RecordSound(s, id);
      if id == own {
        assert InAir(n, d, id);
      } else {
        assert SendsOf(n.sends, id) == SendsOf(s.sends, id);
        if e :| InAir(s, e, id) {
          assert InAir(n, e, id);
        }
      }
    }
  }

  lemma SendKeepsDelivery(c: Config, s: Service, d: nat, e: nat)
    requires Enabled(c, s, Send(d)) && Exclusive(s) && e in s.active && DeliverySound(s, s.active[e])
    ensures DeliverySound(Next(c, s, Send(d)), Next(c, s, Send(d)).active[e])
  {
    var n, v := Next(c, s, Send(d)), s.active[e];
    var own := s.active[d].items[0].notify.msgId;
    assert Holds(s.active[d], own);
    forall i | 0 <= i < |v.items| ensures ItemSound(n, n.active[e], i) {
      assert ItemSound(s, v, i);
      assert Holds(v, v.items[i].notify.msgId);
      if e != d || i != 0 {
        assert v.items[i].notify.msgId != own;
        assert SendsOf(n.sends, v.items[i].notify.msgId) == SendsOf(s.sends, v.items[i].notify.msgId);
      }
    }
  }

  lemma SendKeeps(c: Config, s: Service, d: nat)
    requires Sound(c, s) && Enabled(c, s, Send(d))
    ensures Sound(c, Next(c, s, Send(d)))
  {
    hide Runs.Invariant, StoreSound, DeliverySound, SendsSound, Faithful, Exclusive, Holds, ShouldRetry;
    var n := Next(c, s, Send(d));
    AtItemFaithful(c, s, d);
    SendIsDue(c, s, d);
    SendKeepsStore(c, s, d);
    forall e | e in n.active ensures DeliverySound(n, n.active[e]) {
      SendKeepsDelivery(c, s, d, e);
    }
    SameItemsHold(s, n);
    FewerStayExclusive(s, n);
  }

  lemma SameItemsHold(s: Service, n: Service)
    requires n.active.Keys <= s.active.Keys && forall d :: d in n.active ==> n.active[d].items == s.active[d].items
    ensures forall d, id :: d in n.active && Holds(n.active[d], id) ==> Holds(s.active[d], id)
  {
  }

  ghost predicate Apart(s: Service, v: Delivery) {
    forall e, id :: e in s.active ==> !(Holds(s.active[e], id) && Holds(v, id))
  }

  lemma NewKeepsStore(c: Config, s: Service, d: nat, v: Delivery)
    requires StoreSound(c, s) && d !in s.active
    ensures StoreSound(c, s.(active := s.active[d := v]))
  {
    hide SendsSound, Faithful;
    var n := s.(active := s.active[d := v]);
    forall id | id in n.trace.store.messages
      ensures SendsSound(c, SendsOf(n.sends, id), n.clock) && RecordSound(n, id) {
      assert RecordSound(s, id) && SendsOf(n.sends, id) == SendsOf(s.sends, id);
      if e :| InAir(s, e, id) {
        assert InAir(n, e, id);
      }
    }
  }

  /** Only the active deliveries differ, so what is known of a delivery carries over. */
  lemma ActiveIsLocal(s: Service, n: Service, v: Delivery)
    requires DeliverySound(s, v) && n.trace == s.trace && n.sends == s.sends && s.clock <= n.clock
    ensures DeliverySound(n, v)
  {
    hide Faithful;
    forall i | 0 <= i < |v.items| ensures ItemSound(n, v, i) {
      assert ItemSound(s, v, i);
    }
  }

  lemma NewKeeps(c: Config, s: Service, d: nat, v: Delivery)
    requires Sound(c, s) && d !in s.active && DeliverySound(s, v) && Apart(s, v)
    ensures Sound(c, s.(active := s.active[d := v]))
  {
    hide Runs.Invariant, StoreSound, DeliverySound, Holds;
    var n := s.(active := s.active[d := v]);
    NewKeepsStore(c, s, d, v);
    forall e | e in n.active ensures DeliverySound(n, n.active[e]) {
      ActiveIsLocal(s, n, n.active[e]);
    }
    assert Exclusive(n);
  }

  lemma LoadedAreSound(c: Config, s: Service, user: UserId, after: nat, limit: nat)
    requires Sound(c, s) && forall d :: d in s.active ==> s.active[d].user != user
    ensures DeliverySound(s, Delivery(user, Loaded, Page(s.trace.store, user, after, limit), Ready))
  {
    hide Runs.Invariant, Exclusive, Faithful, SendsSound, Page;
    var v := Delivery(user, Loaded, Page(s.trace.store, user, after, limit), Ready);
    Runs.PageIsFront(s.trace, user, after, limit);
    forall i | 0 <= i < |v.items|
      ensures ItemSound(s, v, i) && s.trace.store.messages[v.items[i].notify.msgId] == v.items[i] {
      var m := v.items[i];
      assert m in Eligible(s.trace.store, user, after);
      Runs.EligibleExactly(s.trace, user, after, m);
      assert RecordSound(s, m.notify.msgId);
      forall e ensures !InAir(s, e, m.notify.msgId) {
        assert e in s.active && s.active[e].items != [] ==> ItemSound(s, s.active[e], 0);
      }
    }
  }

  lemma LoadedAreApart(s: Service, v: Delivery)
    requires DeliverySound(s, v)
    requires forall e :: e in s.active ==> DeliverySound(s, s.active[e]) && s.active[e].user != v.user
    ensures Apart(s, v)
  {
    hide Faithful;
    forall e, id | e in s.active && Holds(s.active[e], id) ensures !Holds(v, id) {
      var i :| 0 <= i < |s.active[e].items| && s.active[e].items[i].notify.msgId == id;
      assert ItemSound(s, s.active[e], i);
      assert s.trace.store.messages[id].receiverId == s.active[e].user != v.user;
      forall j | 0 <= j < |v.items| ensures v.items[j].notify.msgId != id {
        assert ItemSound(s, v, j);
      }
    }
  }

  lemma LoadKeeps(c: Config, s: Service, d: nat, user: UserId, after: nat, limit: nat)
    requires Sound(c, s) && Enabled(c, s, Load(d, user, after, limit)) && Polite(s, Load(d, user, after, limit))
    ensures Sound(c, Next(c, s, Load(d, user, after, limit)))
  {
    hide Runs.Invariant, StoreSound, DeliverySound, Exclusive, Apart, Page;
    var v := Delivery(user, Loaded, Page(s.trace.store, user, after, limit), Ready);
    LoadedAreSound(c, s, user, after, limit);
    LoadedAreApart(s, v);
    NewKeeps(c, s, d, v);
  }

  lemma SaveDirectKeeps(c: Config, s: Service, d: nat, r: Request)
    requires Sound(c, s) && d !in s.active && !IsDuplicate(s.trace.store, r)
    ensures Sound(c, Next(c, s, SaveDirect(d, r)))
  {
    var m := NewMessage(s.trace.store, r);
    var v := Delivery(r.toUserId, Direct, [m], Ready);
    var n := Do(s, Runs.DoSave(r));
    SaveFollows(s, r);
    DoKeeps(c, s, Runs.DoSave(r));
    assert m.notify.msgId !in s.trace.store.messages;
    assert SendsOf(n.sends, m.notify.msgId) == [];
    assert ItemSound(n, v, 0);
    hide Runs.Invariant, StoreSound, Exclusive, Faithful, Apart, Runs.Next;
    NewIsApart(s, n, v, m);
    NewKeeps(c, n, d, v);
  }

  lemma NewIsApart(s: Service, n: Service, v: Delivery, m: StoredMessage)
    requires n.active == s.active && v.items == [m] && m.notify.msgId !in s.trace.store.messages
    requires forall e :: e in s.active ==> DeliverySound(s, s.active[e])
    ensures Apart(n, v)
  {
    hide Faithful;
    forall e, id | e in s.active && Holds(s.active[e], id) ensures !Holds(v, id) {
      var i :| 0 <= i < |s.active[e].items| && s.active[e].items[i].notify.msgId == id;
      assert ItemSound(s, s.active[e], i);
    }
  }

  /** Deliveries that only change how far they are leave the store's side alone, if those in the air stay. */
  lemma PhaseKeepsStore(c: Config, s: Service, n: Service)
    requires StoreSound(c, s) && n.trace == s.trace && n.sends == s.sends && n.clock == s.clock
    requires forall d, id :: InAir(s, d, id) ==> InAir(n, d, id)
    ensures StoreSound(c, n)
  {
    hide SendsSound, Faithful;
    forall id | id in n.trace.store.messages
      ensures SendsSound(c, SendsOf(n.sends, id), n.clock) && RecordSound(n, id) {
      assert RecordSound(s, id) && SendsOf(n.sends, id) == SendsOf(s.sends, id);
      if e :| InAir(s, e, id) {
        assert InAir(n, e, id);
      }
    }
  }

  lemma ReadClockKeeps(c: Config, s: Service, d: nat)
    requires Sound(c, s) && Enabled(c, s, ReadClock(d))
    ensures Sound(c, Next(c, s, ReadClock(d)))
  {
    hide Runs.Invariant, StoreSound, SendsSound, Faithful, Exclusive, Holds;
    var n := Next(c, s, ReadClock(d));
    PhaseKeepsStore(c, s, n);
    forall e | e in n.active ensures DeliverySound(n, n.active[e]) {
      assert DeliverySound(s, s.active[e]);
      forall i | 0 <= i < |n.active[e].items| ensures ItemSound(n, n.active[e], i) {
        assert ItemSound(s, s.active[e], i);
      }
    }
    SameItemsHold(s, n);
    FewerStayExclusive(s, n);
  }

  lemma StampKeepsDelivery(c: Config, s: Service, d: nat, e: nat)
    requires Enabled(c, s, Stamp(d)) && e in s.active && DeliverySound(s, s.active[e])
    requires var times := SendsOf(s.sends, s.active[d].items[0].notify.msgId);
             times != [] && times[|times| - 1] <= s.clock
    ensures DeliverySound(Next(c, s, Stamp(d)), Next(c, s, Stamp(d)).active[e])
  {
    hide Faithful;
    var n := Next(c, s, Stamp(d));
    forall i | 0 <= i < |n.active[e].items| ensures ItemSound(n, n.active[e], i) {
      assert ItemSound(s, s.active[e], i);
    }
  }

  lemma StampKeeps(c: Config, s: Service, d: nat)
    requires Sound(c, s) && Enabled(c, s, Stamp(d))
    ensures Sound(c, Next(c, s, Stamp(d)))
  {
    hide Runs.Invariant, Spaced, Faithful, Exclusive, Holds;
    var n, id := Next(c, s, Stamp(d)), s.active[d].items[0].notify.msgId;
    assert DeliverySound(s, s.active[d]) && ItemSound(s, s.active[d], 0);
    assert SendsSound(c, SendsOf(s.sends, id), s.clock);
    hide StoreSound, DeliverySound, ItemSound;
    PhaseKeepsStore(c, s, n);
    forall e | e in n.active ensures DeliverySound(n, n.active[e]) {
      StampKeepsDelivery(c, s, d, e);
    }
    SameItemsHold(s, n);
    FewerStayExclusive(s, n);
  }

  lemma FinishKeeps(c: Config, s: Service, d: nat)
    requires Sound(c, s) && Enabled(c, s, Finish(d))
    ensures Sound(c, Next(c, s, Finish(d)))
  {
    hide Runs.Invariant, SendsSound, Faithful, Exclusive, Holds;
    var n := Next(c, s, Finish(d));
    forall id | id in n.trace.store.messages
      ensures SendsSound(c, SendsOf(n.sends, id), n.clock) && RecordSound(n, id) {
      assert RecordSound(s, id) && SendsOf(n.sends, id) == SendsOf(s.sends, id);
      if e :| InAir(s, e, id) {
        assert InAir(n, e, id);
      }
    }
    forall e | e in n.active ensures DeliverySound(n, n.active[e]) {
      ActiveIsLocal(s, n, s.active[e]);
    }
    SameItemsHold(s, n);
    FewerStayExclusive(s, n);
  }

  lemma TickKeeps(c: Config, s: Service, clock: int)
    requires Sound(c, s) && s.clock <= clock
    ensures Sound(c, s.(clock := clock))
  {
    hide Runs.Invariant, Faithful, Exclusive, Holds;
    var n := s.(clock := clock);
    forall id | id in n.trace.store.messages
      ensures SendsSound(c, SendsOf(n.sends, id), n.clock) && RecordSound(n, id) {
      assert RecordSound(s, id) && SendsSound(c, SendsOf(s.sends, id), s.clock);
      if e :| InAir(s, e, id) {
        assert InAir(n, e, id);
      }
    }
    forall e | e in n.active ensures DeliverySound(n, n.active[e]) {
      ActiveIsLocal(s, n, s.active[e]);
    }
    SameItemsHold(s, n);
    FewerStayExclusive(s, n);
  }

  lemma StepKeeps(c: Config, s: Service, step: Step)
    requires Sound(c, s) && Enabled(c, s, step) && Polite(s, step)
    ensures Sound(c, Next(c, s, step))
  {
    match step
    case Tick(clock) => TickKeeps(c, s, clock);
    case SaveOffline(r) => SaveFollows(s, r); DoKeeps(c, s, Runs.DoSave(r));
    case SaveDirect(d, r) => SaveDirectKeeps(c, s, d, r);
    case AckBy(user, id, serverSeq, code, at) =>
      AckFollows(s, user, id, serverSeq, code, at);
      DoKeeps(c, s, Runs.DoAck(user, id, serverSeq, code, at));
    case Load(d, user, after, limit) => LoadKeeps(c, s, d, user, after, limit);
    case ReadClock(d) => ReadClockKeeps(c, s, d);
    case GiveUp(d) => GiveUpKeeps(c, s, d);
    case Skip(d) => SkipKeeps(c, s, d);
    case Send(d) => SendKeeps(c, s, d);
    case Stamp(d) => StampKeeps(c, s, d);
    case Record(d) => RecordKeeps(c, s, d);
    case Finish(d) => FinishKeeps(c, s, d);
  }

  lemma {:induction false} RunKeeps(c: Config, s: Service, steps: seq<Step>)
    requires Sound(c, s) && IsRun(c, s, steps) && AllPolite(c, s, steps)
    ensures Sound(c, After(c, s, steps))
    decreases |steps|
  {
    hide Sound, Enabled, Next, Polite;
    if steps != [] {
      StepKeeps(c, s, steps[0]);
      RunKeeps(c, Next(c, s, steps[0]), steps[1..]);
    }
  }

  // ---------------------------------------------------------------- the schedule

  /** n (n - 1) / 2 */
  function Triangle(n: nat): nat { n * (n - 1) / 2 }

  lemma TriangleStep(n: nat)
    ensures Triangle(n + 1) == Triangle(n) + n
  {
    assert (n + 1) * n == n * (n - 1) + 2 * n;
  }

  /** The distances add up. */
  lemma {:induction false} SpacedAddsUp(c: Config, times: seq<int>, k: nat)
    requires Spaced(c, times) && k < |times|
    ensures times[k] - times[0] >= k * c.ackTimeout + Triangle(k) * c.backoff
  {
    if k > 0 {
      SpacedAddsUp(c, times, k - 1);
      TriangleStep(k - 1);
      assert times[k - 1 + 1] - times[k - 1] >= c.ackTimeout + (k - 1) * c.backoff;
      hide Triangle, Spaced;
      Distribute(k - 1, 1, c.ackTimeout);
      Distribute(Triangle(k - 1), k - 1, c.backoff);
    }
  }

  lemma Distribute(a: int, b: int, x: int)
    ensures (a + b) * x == a * x + b * x
  {
  }

  lemma NthAfterFirst(c: Config, times: seq<int>, n: nat)
    requires Spaced(c, times) && 1 <= n <= |times|
    ensures times[n - 1] - times[0] >= (n - 1) * c.ackTimeout + (n - 1) * (n - 2) / 2 * c.backoff
  {
    SpacedAddsUp(c, times, n - 1);
  }

  lemma BeginIsSound(c: Config, clock: int)
    requires c.Valid() && clock > 0
    ensures Sound(c, Begin(clock))
  {
  }

  lemma TimesAreSound(c: Config, s: Service, id: MsgId)
    requires Sound(c, s)
    ensures var times := SendsOf(s.sends, id); Spaced(c, times) && |times| <= Max(1, c.maxRetryCount)
  {
    hide Runs.Invariant, Exclusive, DeliverySound;
    if id in s.sends {
      assert SendsSound(c, SendsOf(s.sends, id), s.clock);
    }
  }

  /** With a positive clock that never runs backwards, no overlapping deliveries and no re-sends: every
      message is sent at most max(1, maxRetryCount) times, and its n-th send comes at least
      (n - 1) ackTimeout + backoff (n - 1)(n - 2) / 2 after its first. */
  lemma RetrySchedule(c: Config, clock: int, steps: seq<Step>, id: MsgId, n: nat)
    requires c.Valid() && clock > 0 && IsRun(c, Begin(clock), steps) && AllPolite(c, Begin(clock), steps)
    ensures var times := SendsOf(After(c, Begin(clock), steps).sends, id);
            && |times| <= Max(1, c.maxRetryCount)
            && (1 <= n <= |times| ==>
                  times[n - 1] - times[0] >= (n - 1) * c.ackTimeout + (n - 1) * (n - 2) / 2 * c.backoff)
  {
    hide Sound, SendsOf, After, IsRun, AllPolite, Spaced;
    BeginIsSound(c, clock);
    RunKeeps(c, Begin(clock), steps);
    TimesAreSound(c, After(c, Begin(clock), steps), id);
    var times := SendsOf(After(c, Begin(clock), steps).sends, id);
    if 1 <= n <= |times| {
      NthAfterFirst(c, times, n);
    }
  }

  // ---------------------------------------------------------------- why both conditions are needed

  lemma TakeStep(c: Config, s: Service, step: Step, rest: seq<Step>)
    requires Enabled(c, s, step) && IsRun(c, Next(c, s, step), rest)
    ensures IsRun(c, s, [step] + rest) && After(c, s, [step] + rest) == After(c, Next(c, s, step), rest)
  {
    assert ([step] + rest)[1..] == rest;
  }

  /** Two sends at one time break the schedule: the distance, if the timeout is positive; the number of
      sends, if no more than one is allowed. */
  lemma TwiceBreaksSchedule(c: Config, clock: int)
    ensures c.ackTimeout > 0 ==> !Spaced(c, [clock, clock])
    ensures c.maxRetryCount <= 1 ==> |[clock, clock]| > Max(1, c.maxRetryCount)
  {
    var times := [clock, clock];
    assert times[0 + 1] - times[0] == 0;
  }

  /** A pass that loads a message while its direct delivery is under way sends it a second time at once,
      whatever the timeout. */
  lemma OverlapSendsTwice(c: Config, clock: int, r: Request) returns (steps: seq<Step>)
    requires c.maxRetryCount > 0
    ensures IsRun(c, Begin(clock), steps)
    ensures var times := SendsOf(After(c, Begin(clock), steps).sends, 1);
            && times == [clock, clock]
            && (c.ackTimeout > 0 ==> !Spaced(c, times)) && (c.maxRetryCount <= 1 ==> |times| > Max(1, c.maxRetryCount))
  {
    hide IsRun, After, Page, Spaced;
    TwiceBreaksSchedule(c, clock);
    FirstIsLoaded(r);
    var s := Begin(clock);
    steps := OverlapRun(c, Next(c, s, SaveDirect(0, r)), r.toUserId, NewMessage(EMPTY, r));
    TakeStep(c, s, SaveDirect(0, r), steps);
    steps := [SaveDirect(0, r)] + steps;
  }

  lemma FirstIsLoaded(r: Request)
    ensures Page(Save(EMPTY, r), r.toUserId, 0, 1) == [NewMessage(EMPTY, r)] == [SavedMessage(EMPTY, r)]
  {
    SelectOne(Save(EMPTY, r).messages, 1, 0);
    assert PendingOf(Save(EMPTY, r), r.toUserId) == [1];
  }

  lemma OverlapRun(c: Config, s: Service, user: UserId, m: StoredMessage) returns (steps: seq<Step>)
    requires s.active == map[0 := Delivery(user, Direct, [m], Ready)] && Page(s.trace.store, user, 0, 1) == [m]
    requires m.status == Persisted && m.retryCount < c.maxRetryCount && SendsOf(s.sends, m.notify.msgId) == []
    ensures IsRun(c, s, steps)
    ensures SendsOf(After(c, s, steps).sends, m.notify.msgId) == [s.clock, s.clock]
  {
    hide IsRun, After, Page;
    var s1 := Next(c, s, Load(1, user, 0, 1));
    var s2 := Next(c, s1, ReadClock(1));
    var s3 := Next(c, s2, Send(0));
    steps := [];
    NoSteps(c, Next(c, s3, Send(1)));
    TakeStep(c, s3, Send(1), steps); steps := [Send(1)] + steps;
    TakeStep(c, s2, Send(0), steps); steps := [Send(0)] + steps;
    TakeStep(c, s1, ReadClock(1), steps); steps := [ReadClock(1)] + steps;
    TakeStep(c, s, Load(1, user, 0, 1), steps); steps := [Load(1, user, 0, 1)] + steps;
  }

  /** Steps that can overlap with anything. */
  predicate Free(step: Step) { !step.Load? && !step.SaveDirect? }

  ghost predicate AllFree(steps: seq<Step>) { forall step :: step in steps ==> Free(step) }

  lemma {:induction false} FreeIsPolite(c: Config, s: Service, steps: seq<Step>)
    requires IsRun(c, s, steps) && AllFree(steps)
    ensures AllPolite(c, s, steps)
    decreases |steps|
  {
    if steps != [] {
      assert Free(steps[0]);
      FreeIsPolite(c, Next(c, s, steps[0]), steps[1..]);
    }
  }

  lemma PoliteThenFree(c: Config, s: Service, step: Step, rest: seq<Step>)
    requires Enabled(c, s, step) && Polite(s, step) && IsRun(c, Next(c, s, step), rest) && AllFree(rest)
    ensures IsRun(c, s, [step] + rest) && AllPolite(c, s, [step] + rest)
  {
    TakeStep(c, s, step, rest);
    FreeIsPolite(c, Next(c, s, step), rest);
    assert ([step] + rest)[1..] == rest;
  }

  /** The message a delivery stands at, sent, stamped and recorded. */
  lemma ItemRun(c: Config, s: Service, d: nat, at: int) returns (steps: seq<Step>)
    requires Enabled(c, s, Send(d)) && s.clock <= at
    ensures IsRun(c, s, steps) && AllFree(steps)
    ensures var n, v := After(c, s, steps), s.active[d];
            var m := v.items[0];
            && n.clock == at && n.active == s.active[d := v.(items := v.items[1..])]
            && n.sends == s.sends[m.notify.msgId := SendsOf(s.sends, m.notify.msgId) + [at]]
            && n.log == s.log + [Handover(v.user, m.notify)]
            && n.trace.store == Attempt(s.trace.store, m.receiverId, m.notify.msgId, Delivering, at,
                                        (m.retryCount + 1) % U32)
  {
    hide IsRun, After, Attempt;
    var s1 := Next(c, s, Tick(at));
    var s2 := Next(c, s1, Send(d));
    var s3 := Next(c, s2, Stamp(d));
    steps := [];
    NoSteps(c, Next(c, s3, Record(d)));
    TakeStep(c, s3, Record(d), steps); steps := [Record(d)] + steps;
    TakeStep(c, s2, Stamp(d), steps); steps := [Stamp(d)] + steps;
    TakeStep(c, s1, Send(d), steps); steps := [Send(d)] + steps;
    TakeStep(c, s, Tick(at), steps); steps := [Tick(at)] + steps;
  }

  /** A send to a connected receiver, of a message old or new, in steps. */
  lemma SendRun(c: Config, s: Service, d: nat, r: Request, at: int) returns (steps: seq<Step>)
    requires d !in s.active && s.clock <= at
    ensures IsRun(c, s, steps) && (!IsDuplicate(s.trace.store, r) ==> AllPolite(c, s, steps))
    ensures var n, m := After(c, s, steps), SavedMessage(s.trace.store, r);
            && n.active == s.active && n.clock == at
            && n.sends == s.sends[m.notify.msgId := SendsOf(s.sends, m.notify.msgId) + [at]]
            && n.log == s.log + [Handover(r.toUserId, m.notify)]
            && n.trace.store == Attempt(Save(s.trace.store, r), m.receiverId, m.notify.msgId, Delivering, at,
                                        (m.retryCount + 1) % U32)
  {
    hide IsRun, After, AllPolite, Save, SavedMessage, Attempt, IsDuplicate;
    var s1 := Next(c, s, SaveDirect(d, r));
    var body := ItemRun(c, s1, d, at);
    var s2 := After(c, s1, body);
    NoSteps(c, Next(c, s2, Finish(d)));
    TakeStep(c, s2, Finish(d), []);
    Joined(c, s1, body, [Finish(d)] + []);
    steps := body + ([Finish(d)] + []);
    TakeStep(c, s, SaveDirect(d, r), steps);
    if !IsDuplicate(s.trace.store, r) {
      PoliteThenFree(c, s, SaveDirect(d, r), steps);
    }
    assert s2.active - {d} == s.active;
    steps := [SaveDirect(d, r)] + steps;
  }

  /** A sender that re-sends gets its message delivered again at once, even after the first delivery is
      over, whatever the timeout and the retry limit. */
  lemma ResendSendsTwice(c: Config, clock: int, r: Request) returns (steps: seq<Step>)
    requires r.clientMsgId != ""
    ensures IsRun(c, Begin(clock), steps)
    ensures var times := SendsOf(After(c, Begin(clock), steps).sends, 1);
            && times == [clock, clock]
            && (c.ackTimeout > 0 ==> !Spaced(c, times)) && (c.maxRetryCount <= 1 ==> |times| > Max(1, c.maxRetryCount))
  {
    TwiceBreaksSchedule(c, clock);
    hide IsRun, After, Spaced;
    var s := Begin(clock);
    var first := SendRun(c, s, 0, r, clock);
    var n := After(c, s, first);
    assert IsDuplicate(n.trace.store, r) && SavedMessage(n.trace.store, r).notify.msgId == 1;
    var again := SendRun(c, n, 0, r, clock);
    Joined(c, s, first, again);
    steps := first + again;
  }

  lemma {:induction false} Joined(c: Config, s: Service, a: seq<Step>, b: seq<Step>)
    requires IsRun(c, s, a) && IsRun(c, After(c, s, a), b)
    ensures IsRun(c, s, a + b) && After(c, s, a + b) == After(c, After(c, s, a), b)
    decreases |a|
  {
    if a == [] {
      assert a + b == b;
    } else {
      assert (a + b)[1..] == a[1..] + b;
      Joined(c, Next(c, s, a[0]), a[1..], b);
    }
  }

  lemma NoSteps(c: Config, s: Service)
    ensures IsRun(c, s, []) && After(c, s, []) == s
  {
  }

  // ---------------------------------------------------------------- whose connection a message goes to

  /** Every copy a delivery holds is addressed to the delivery's own user. */
  ghost predicate OwnMessages(v: Delivery) {
    forall i :: 0 <= i < |v.items| ==> v.items[i].notify.toUserId == v.user
  }

  ghost predicate AllOwn(s: Service) {
    forall d :: d in s.active ==> OwnMessages(s.active[d])
  }

  /** What was handed over went to those it was addressed to. */
  ghost predicate LogOwn(s: Service) {
    forall i :: 0 <= i < |s.log| ==> s.log[i].notify.toUserId == s.log[i].user
  }

  /** A direct delivery is of a message that the store has for that same receiver: true of any new message;
      of a duplicate, if its client id was first used for that receiver. */
  ghost predicate SameReceiver(s: Service, step: Step) {
    step.SaveDirect? ==> SavedMessage(s.trace.store, step.request).notify.toUserId == step.request.toUserId
  }

  ghost predicate AllSameReceiver(c: Config, s: Service, steps: seq<Step>)
    requires IsRun(c, s, steps)
    decreases |steps|
  {
    steps == [] || (SameReceiver(s, steps[0]) && AllSameReceiver(c, Next(c, s, steps[0]), steps[1..]))
  }

  /** At every point of the run. */
  ghost predicate AlwaysOwn(c: Config, s: Service, steps: seq<Step>)
    requires IsRun(c, s, steps)
    decreases |steps|
  {
    AllOwn(s) && LogOwn(s) && (steps == [] || AlwaysOwn(c, Next(c, s, steps[0]), steps[1..]))
  }

  lemma LoadedAreOwn(t: Runs.Trace, user: UserId, after: nat, limit: nat)
    requires Runs.Invariant(t)
    ensures OwnMessages(Delivery(user, Loaded, Page(t.store, user, after, limit), Ready))
  {
    var page := Page(t.store, user, after, limit);
    forall i | 0 <= i < |page| ensures page[i].notify.toUserId == user {
      assert page[i] in Eligible(t.store, user, after);
      Runs.EligibleExactly(t, user, after, page[i]);
      assert Runs.WellFormed(t.store, page[i].notify.msgId);
    }
  }

  lemma StepOwn(c: Config, s: Service, step: Step)
    requires Enabled(c, s, step) && Runs.Invariant(s.trace) && AllOwn(s) && LogOwn(s)
    ensures AllOwn(Next(c, s, step)) && LogOwn(Next(c, s, step)) <==> SameReceiver(s, step)
  {
    hide Runs.Invariant, Runs.Next, Page, SavedMessage, ShouldRetry;
    var n := Next(c, s, step);
    match step
    case Load(d, user, after, limit) => LoadedAreOwn(s.trace, user, after, limit);
    case SaveDirect(d, r) =>
      var v := n.active[d];
      assert v.items == [SavedMessage(s.trace.store, r)];
      assert OwnMessages(v) <==> v.items[0].notify.toUserId == v.user;
    case _ =>
  }

  lemma StepKeepsTrace(c: Config, s: Service, step: Step)
    requires Enabled(c, s, step) && Runs.Invariant(s.trace)
    ensures Runs.Invariant(Next(c, s, step).trace)
  {
    hide Runs.Invariant, Runs.Next, Page, SavedMessage, ShouldRetry;
    match step
    case SaveOffline(r) => Runs.StepKeepsInvariant(s.trace, Runs.DoSave(r));
    case SaveDirect(d, r) => Runs.StepKeepsInvariant(s.trace, Runs.DoSave(r));
    case AckBy(user, id, serverSeq, code, at) =>
      Runs.StepKeepsInvariant(s.trace, Runs.DoAck(user, id, serverSeq, code, at));
    case GiveUp(d) =>
      var m := s.active[d].items[0];
      var failed := Runs.DoAttempt(m.receiverId, m.notify.msgId, Failed, m.lastDeliverAt, m.retryCount);
      Runs.StepKeepsInvariant(s.trace, failed);
    case Record(d) =>
      var m, at := s.active[d].items[0], s.active[d].phase.at;
      var count := (m.retryCount + 1) % U32;
      Runs.StepKeepsInvariant(s.trace, Runs.DoAttempt(m.receiverId, m.notify.msgId, Delivering, at, count));
    case _ =>
  }

  lemma {:induction false} OwnRun(c: Config, s: Service, steps: seq<Step>)
    requires IsRun(c, s, steps) && Runs.Invariant(s.trace) && AllOwn(s) && LogOwn(s)
    ensures AlwaysOwn(c, s, steps) <==> AllSameReceiver(c, s, steps)
    decreases |steps|
  {
    hide Runs.Invariant, AllOwn, LogOwn, SameReceiver, Enabled, Next;
    if steps != [] {
      var n := Next(c, s, steps[0]);
      StepKeepsTrace(c, s, steps[0]);
      StepOwn(c, s, steps[0]);
      if SameReceiver(s, steps[0]) {
        OwnRun(c, n, steps[1..]);
      }
    }
  }

  /** In every run, deliveries hold only messages for their own user, and hand over nothing else, at every
      point exactly if each direct delivery is of a message the store has for that same receiver. */
  lemma RightReceiverExactlyIf(c: Config, clock: int, steps: seq<Step>)
    requires IsRun(c, Begin(clock), steps)
    ensures AlwaysOwn(c, Begin(clock), steps) <==> AllSameReceiver(c, Begin(clock), steps)
  {
    assert Runs.Invariant(Runs.START);
    hide Runs.Invariant;
    OwnRun(c, Begin(clock), steps);
  }

  /** A sender that uses one client id for two receivers gets the first one's message delivered to the
      second. */
  lemma ReusedIdGoesAstray(c: Config, clock: int, first: Request, second: Request) returns (steps: seq<Step>)
    requires first.clientMsgId != "" && first.toUserId != second.toUserId
    requires second.fromUserId == first.fromUserId && second.clientMsgId == first.clientMsgId
    ensures IsRun(c, Begin(clock), steps)
    ensures var log := After(c, Begin(clock), steps).log;
            |log| == 2 && log[1].user == second.toUserId && log[1].notify.toUserId == first.toUserId
            && log[1].notify.content == first.content
  {
    hide IsRun, After;
    var s := Begin(clock);
    var a := SendRun(c, s, 0, first, clock);
    var n := After(c, s, a);
    assert IsDuplicate(n.trace.store, second);
    assert SavedMessage(n.trace.store, second).notify == NewMessage(EMPTY, first).notify;
    var b := SendRun(c, n, 0, second, clock);
    Joined(c, s, a, b);
    steps := a + b;
  }
}
