/** The message service's calls as the code makes them, one thread at a time: a retry pass and a direct
    delivery loop over copies of messages and write their outcome back. Each is shown to be a run of the
    step system, so what holds of all interleavings holds of them. */
module MessageServices {
  import opened MessageStores
  import opened Numbers
  import opened RetrySchedules
  import Runs = MessageRuns

  /** The store; when each message was handed to a connection, and what to whose. */
  datatype World = World(store: Store, sends: map<MsgId, seq<int>>, log: seq<Handover>)

  /** The clock readings and the connection's state, by the index of the message being handled. */
  datatype Setting = Setting(clock: nat -> int, connected: nat -> bool)

  function HandedOver(w: World, user: UserId, m: StoredMessage, at: int): World {
    var id := m.notify.msgId;
    World(Attempt(w.store, m.receiverId, id, Delivering, at, (m.retryCount + 1) % U32),
          w.sends[id := SendsOf(w.sends, id) + [at]], w.log + [Handover(user, m.notify)])
  }

  function Handled(c: Config, w: World, user: UserId, m: StoredMessage, now: int, at: int, connected: bool): World {
    if m.retryCount >= c.maxRetryCount then
      w.(store := Attempt(w.store, m.receiverId, m.notify.msgId, Failed, m.lastDeliverAt, m.retryCount))
    else if !ShouldRetry(c, m, now) || !connected then w
    else HandedOver(w, user, m, at)
  }

  /** What a pass makes of the messages from index `i` on. */
  function PassFrom(c: Config, w: World, user: UserId, items: seq<StoredMessage>, i: nat, now: int, setting: Setting)
    : World
    requires i <= |items|
    decreases |items| - i
  {
    if i == |items| then w
    else
      var next := Handled(c, w, user, items[i], now, setting.clock(i), setting.connected(i));
      PassFrom(c, next, user, items, i + 1, now, setting)
  }

  class MessageService {
    const store: InMemoryMessageStore
    const config: Config
    const retryBatchSize: nat
    var sends: map<MsgId, seq<int>>
    var log: seq<Handover>

    function Value(): World
      reads this, store
    {
      World(store.Value(), sends, log)
    }

    constructor (store: InMemoryMessageStore, config: Config, retryBatchSize: nat)
      ensures this.store == store && this.config == config && this.retryBatchSize == retryBatchSize
      ensures sends == map[] && log == []
    {
      this.store, this.config, this.retryBatchSize, sends, log := store, config, retryBatchSize, map[], [];
    }

    /** Sends one message on the connection of `user` and records the attempt; fails offline, or if the store
        does not know the message as the receiver's. */
    method DeliverLocked(user: UserId, message: StoredMessage, connected: bool, at: int)
      returns (updated: StoredMessage, ok: bool)
      modifies this`sends, this`log, store`messages
      ensures Value() == if connected then HandedOver(old(Value()), user, message, at) else old(Value())
      ensures updated == if connected
                         then message.(status := Delivering, lastDeliverAt := at,
                                       retryCount := (message.retryCount + 1) % U32)
                         else message
      ensures ok <==> connected && AttemptError(old(store.Value()), message.receiverId, message.notify.msgId) == NoError
    {
      updated := message;
      if !connected {
        return updated, false;
      }
      var id := message.notify.msgId;
      sends := sends[id := SendsOf(sends, id) + [at]];
      log := log + [Handover(user, message.notify)];
      updated := updated.(status := Delivering, lastDeliverAt := at, retryCount := (updated.retryCount + 1) % U32);
      var error :=
        store.MarkDeliveryAttempt(updated.receiverId, id, updated.status, updated.lastDeliverAt, updated.retryCount);
      ok := error == NoError;
    }

    /** Saves, and delivers at once to a receiver that is connected; a duplicate is delivered again. The
        connection may go between the two looks at it: then the message stays queued and the send fails. */
    method SendReliableP2PMessage(request: Request, found: bool, connected: bool, at: int)
      returns (id: MsgId, serverSeq: nat, ok: bool)
      modifies this`sends, this`log, store
      ensures var w := World(Save(old(store.Value()), request), old(sends), old(log));
              var m := SavedMessage(old(store.Value()), request);
              && Value() == (if found && connected then HandedOver(w, request.toUserId, m, at) else w)
              && id == m.notify.msgId && serverSeq == m.notify.serverSeq
              && (ok <==> !found || (connected && AttemptError(w.store, m.receiverId, m.notify.msgId) == NoError))
    {
      var message, _ := store.SaveMessageAndDelivery(request);
      id, serverSeq := message.notify.msgId, message.notify.serverSeq;
      ok := true;
      if found {
        var _, delivered := DeliverLocked(request.toUserId, message, connected, at);
        ok := delivered;
      }
    }

    method DeliverPendingMessages(user: UserId, now: int, setting: Setting)
      modifies this`sends, this`log, store`messages
      ensures var w := old(Value());
              var page := Page(w.store, user, At(w.store.lastAcked, user), retryBatchSize);
              Value() == PassFrom(config, w, user, page, 0, now, setting)
    {
      var mark := store.GetLastAckedSeq(user);
      var pending, _ := store.LoadPendingMessages(user, mark, retryBatchSize);
      ghost var w := Value();
      var i := 0;
      while i < |pending|
        invariant 0 <= i <= |pending|
        invariant PassFrom(config, Value(), user, pending, i, now, setting) ==
                  PassFrom(config, w, user, pending, 0, now, setting)
      {
        var message := pending[i];
        if message.retryCount >= config.maxRetryCount {
          var id := message.notify.msgId;
          var _ := store.MarkDeliveryAttempt(message.receiverId, id, Failed, message.lastDeliverAt, message.retryCount);
        } else if ShouldRetry(config, message, now) {
          var _, _ := DeliverLocked(user, message, setting.connected(i), setting.clock(i));
        }
        i := i + 1;
      }
    }

    /** A page of pending messages for the client, without the server's delivery record. */
    method PullOfflineMessages(user: UserId, lastAckedSeq: nat, limit: nat) returns (items: seq<Notify>, nextBegin: nat)
      ensures var page := Page(store.Value(), user, lastAckedSeq, limit);
              && |items| == |page| && (forall i :: 0 <= i < |page| ==> items[i] == page[i].notify)
              && nextBegin == NextBegin(lastAckedSeq, page)
    {
      var page, next := store.LoadPendingMessages(user, lastAckedSeq, limit);
      items, nextBegin := [], next;
      var i := 0;
      while i < |page|
        invariant 0 <= i <= |page| && |items| == i
        invariant forall k :: 0 <= k < i ==> items[k] == page[k].notify
      {
        items := items + [page[i].notify];
        i := i + 1;
      }
    }
  }

  /** The store can always record an attempt at what it just saved: a send to a connected receiver fails
      only if the connection has gone. */
  lemma SavedCanBeRecorded(t: Runs.Trace, r: Request)
    requires Runs.Invariant(t)
    ensures var m := SavedMessage(t.store, r);
            AttemptError(Save(t.store, r), m.receiverId, m.notify.msgId) == NoError
  {
    var key := DedupKey(r.fromUserId, r.clientMsgId);
    if IsDuplicate(t.store, r) {
      assert Runs.WellFormed(t.store, t.store.dedup[key]);
    }
  }

  /** A send to a connected receiver leaves exactly one more hand-over, at that time and to that receiver, and
      the stored message under way, with that time and one more attempt; no other message changes. */
  lemma DirectSendExactly(t: Runs.Trace, sends: map<MsgId, seq<int>>, log: seq<Handover>, r: Request, at: int)
    requires Runs.Invariant(t)
    ensures var m, w := SavedMessage(t.store, r), World(Save(t.store, r), sends, log);
            var n, id := HandedOver(w, r.toUserId, m, at), m.notify.msgId;
            && n.log == log + [Handover(r.toUserId, m.notify)]
            && n.sends == sends[id := SendsOf(sends, id) + [at]]
            && n.store.messages == w.store.messages[
                 id := m.(status := Delivering, lastDeliverAt := at, retryCount := (m.retryCount + 1) % 0x1_0000_0000)]
            && n.store.pending == w.store.pending && n.store.lastAcked == w.store.lastAcked
  {
    SavedCanBeRecorded(t, r);
  }

  // ---------------------------------------------------------------- what a pass does

  /** What a pass knows of a message it loaded: the store has it, as it was loaded. */
  ghost predicate Stored(w: World, m: StoredMessage) {
    var id := m.notify.msgId;
    id in w.store.messages && w.store.messages[id] == m
  }

  ghost predicate DistinctIds(items: seq<StoredMessage>) {
    forall a, b :: 0 <= a < b < |items| ==> items[a].notify.msgId != items[b].notify.msgId
  }

  /** Message `id` is the same in both worlds, and so are its sends. */
  ghost predicate Untouched(w: World, n: World, id: MsgId) {
    && SendsOf(n.sends, id) == SendsOf(w.sends, id)
    && (id in n.store.messages <==> id in w.store.messages)
    && (id in w.store.messages ==> n.store.messages[id] == w.store.messages[id])
  }

  lemma {:induction false} PassLeaves(c: Config, w: World, user: UserId, items: seq<StoredMessage>, i: nat, now: int,
                                      setting: Setting, id: MsgId)
    requires i <= |items| && forall k :: i <= k < |items| ==> items[k].notify.msgId != id
    ensures Untouched(w, PassFrom(c, w, user, items, i, now, setting), id)
    decreases |items| - i
  {
    hide ShouldRetry;
    if i < |items| {
      var next := Handled(c, w, user, items[i], now, setting.clock(i), setting.connected(i));
      PassLeaves(c, next, user, items, i + 1, now, setting, id);
    }
  }

  lemma {:induction false} PassHandles(c: Config, w: World, user: UserId, items: seq<StoredMessage>, i: nat, now: int,
                                       setting: Setting, k: nat)
    requires i <= k < |items| && DistinctIds(items) && Stored(w, items[k])
    ensures var m := items[k];
            var n := PassFrom(c, w, user, items, i, now, setting);
            var alone := Handled(c, w, user, m, now, setting.clock(k), setting.connected(k));
            Untouched(alone, n, m.notify.msgId)
    decreases k - i
  {
    hide ShouldRetry;
    var next := Handled(c, w, user, items[i], now, setting.clock(i), setting.connected(i));
    var id := items[k].notify.msgId;
    if i == k {
      PassLeaves(c, next, user, items, i + 1, now, setting, id);
    } else {
      assert Untouched(w, next, id);
      PassHandles(c, next, user, items, i + 1, now, setting, k);
      SameAlone(c, w, next, user, items[k], now, setting.clock(k), setting.connected(k));
    }
  }

  lemma SameAlone(c: Config, w: World, v: World, user: UserId, m: StoredMessage, now: int, at: int, connected: bool)
    requires Untouched(w, v, m.notify.msgId)
    ensures Untouched(Handled(c, w, user, m, now, at, connected), Handled(c, v, user, m, now, at, connected),
                      m.notify.msgId)
  {
    hide ShouldRetry;
  }

  /** The hand-overs of a pass from index `i` on. */
  ghost function Handed(c: Config, user: UserId, items: seq<StoredMessage>, i: nat, now: int, setting: Setting)
    : seq<Handover>
    requires i <= |items|
    decreases |items| - i
  {
    if i == |items| then []
    else
      var rest := Handed(c, user, items, i + 1, now, setting);
      if HandsOver(c, items[i], now, setting.connected(i)) then [Handover(user, items[i].notify)] + rest else rest
  }

  predicate HandsOver(c: Config, m: StoredMessage, now: int, connected: bool) {
    m.retryCount < c.maxRetryCount && ShouldRetry(c, m, now) && connected
  }

  lemma {:induction false} PassLogs(c: Config, w: World, user: UserId, items: seq<StoredMessage>, i: nat, now: int,
                                    setting: Setting)
    requires i <= |items|
    ensures PassFrom(c, w, user, items, i, now, setting).log == w.log + Handed(c, user, items, i, now, setting)
    decreases |items| - i
  {
    hide ShouldRetry;
    if i < |items| {
      var next := Handled(c, w, user, items[i], now, setting.clock(i), setting.connected(i));
      PassLogs(c, next, user, items, i + 1, now, setting);
    }
  }

  lemma {:induction false} HandedHolds(c: Config, user: UserId, items: seq<StoredMessage>, i: nat, now: int,
                                       setting: Setting, h: Handover)
    requires i <= |items|
    ensures h in Handed(c, user, items, i, now, setting) <==>
            exists k :: && i <= k < |items| && h == Handover(user, items[k].notify)
                        && HandsOver(c, items[k], now, setting.connected(k))
    decreases |items| - i
  {
    hide HandsOver;
    if i < |items| {
      HandedHolds(c, user, items, i + 1, now, setting, h);
    }
  }

  ghost predicate InSequence(log: seq<Handover>) {
    forall a, b :: 0 <= a < b < |log| ==> log[a].notify.serverSeq < log[b].notify.serverSeq
  }

  lemma {:induction false} HandedInSequence(c: Config, user: UserId, items: seq<StoredMessage>, i: nat, now: int,
                                            setting: Setting)
    requires i <= |items| && Runs.SeqsIncrease(items)
    ensures InSequence(Handed(c, user, items, i, now, setting))
    decreases |items| - i
  {
    hide HandsOver;
    if i < |items| {
      var rest := Handed(c, user, items, i + 1, now, setting);
      HandedInSequence(c, user, items, i + 1, now, setting);
      forall b | 0 <= b < |rest| ensures items[i].notify.serverSeq < rest[b].notify.serverSeq {
        HandedHolds(c, user, items, i + 1, now, setting, rest[b]);
      }
    }
  }

  lemma PageIsStored(t: Runs.Trace, sends: map<MsgId, seq<int>>, log: seq<Handover>, user: UserId, after: nat,
                     limit: nat)
    requires Runs.Invariant(t)
    ensures var page := Page(t.store, user, after, limit);
            && DistinctIds(page) && Runs.SeqsIncrease(page)
            && forall k :: 0 <= k < |page| ==> Stored(World(t.store, sends, log), page[k]) && page[k].receiverId == user
  {
    var page := Page(t.store, user, after, limit);
    Runs.PageIsFront(t, user, after, limit);
    forall k | 0 <= k < |page| ensures Stored(World(t.store, sends, log), page[k]) && page[k].receiverId == user {
      assert page[k] in Eligible(t.store, user, after);
      Runs.EligibleExactly(t, user, after, page[k]);
    }
  }

  /** What a retry pass does with each message it loaded: from any state of the store, in a pass that read the
      clock at `now`, the k-th message of the page is handed over to its receiver, once, iff its attempts are
      not used up, the connection is alive, and it was never delivered or its last delivery is at least the
      ack timeout ago, and the backoff once more for each attempt beyond the first. The store then has it under
      way, with the time of the delivery and one more attempt. If its attempts are used up it is given up.
      Otherwise nothing about it changes. */
  lemma PassExactly(c: Config, t: Runs.Trace, sends: map<MsgId, seq<int>>, log: seq<Handover>, user: UserId, limit: nat,
                    now: int, setting: Setting, k: nat)
    requires Runs.Invariant(t)
    requires k < |Page(t.store, user, At(t.store.lastAcked, user), limit)|
    ensures var page := Page(t.store, user, At(t.store.lastAcked, user), limit);
            var n := PassFrom(c, World(t.store, sends, log), user, page, 0, now, setting);
            var m := page[k];
            var id := m.notify.msgId;
            var last := if m.lastDeliverAt > 0 then m.lastDeliverAt else m.createdAt;
            var waits := if m.retryCount > 1 then m.retryCount - 1 else 0;
            var handed := && m.retryCount < c.maxRetryCount && setting.connected(k)
                          && (m.status == Persisted ||
                              (m.status == Delivering && now - last >= c.ackTimeout + waits * c.backoff));
            && SendsOf(n.sends, id) == SendsOf(sends, id) + (if handed then [setting.clock(k)] else [])
            && log <= n.log && (handed <==> Handover(user, m.notify) in n.log[|log|..])
            && id in n.store.messages
            && n.store.messages[id] ==
               if m.retryCount >= c.maxRetryCount then m.(status := Failed)
               else if handed then
                 m.(status := Delivering, lastDeliverAt := setting.clock(k),
                    retryCount := (m.retryCount + 1) % 0x1_0000_0000)
               else m
  {
    var w := World(t.store, sends, log);
    var page := Page(t.store, user, At(t.store.lastAcked, user), limit);
    PageIsStored(t, sends, log, user, At(t.store.lastAcked, user), limit);
    hide Page, PassFrom, Runs.Invariant, Runs.SeqsIncrease, DistinctIds, Handled, HandsOver, ShouldRetry;
    DueExactly(c, page[k], now, setting.connected(k));
    PassHandles(c, w, user, page, 0, now, setting, k);
    HandledExactly(c, w, user, page[k], now, setting.clock(k), setting.connected(k));
    PassLogsExactly(c, w, user, page, now, setting, k);
  }

  lemma DueExactly(c: Config, m: StoredMessage, now: int, connected: bool)
    ensures var last := if m.lastDeliverAt > 0 then m.lastDeliverAt else m.createdAt;
            var waits := if m.retryCount > 1 then m.retryCount - 1 else 0;
            HandsOver(c, m, now, connected) <==>
            && m.retryCount < c.maxRetryCount && connected
            && (m.status == Persisted || (m.status == Delivering && now - last >= c.ackTimeout + waits * c.backoff))
  {
  }

  lemma PassLogsExactly(c: Config, w: World, user: UserId, items: seq<StoredMessage>, now: int, setting: Setting,
                        k: nat)
    requires k < |items| && DistinctIds(items)
    ensures var n := PassFrom(c, w, user, items, 0, now, setting);
            && w.log <= n.log
            && (Handover(user, items[k].notify) in n.log[|w.log|..] <==>
                HandsOver(c, items[k], now, setting.connected(k)))
  {
    hide PassFrom, HandsOver, DistinctIds;
    PassLogs(c, w, user, items, 0, now, setting);
    var n := PassFrom(c, w, user, items, 0, now, setting);
    assert n.log[|w.log|..] == Handed(c, user, items, 0, now, setting);
    HandedHolds(c, user, items, 0, now, setting, Handover(user, items[k].notify));
    OneHandover(c, user, items, now, setting, k);
  }

  lemma OneHandover(c: Config, user: UserId, items: seq<StoredMessage>, now: int, setting: Setting, k: nat)
    requires k < |items| && DistinctIds(items)
    ensures (exists j :: 0 <= j < |items| && HandsOver(c, items[j], now, setting.connected(j))
                           && Handover(user, items[k].notify) == Handover(user, items[j].notify))
            <==> HandsOver(c, items[k], now, setting.connected(k))
  {
    hide HandsOver;
  }

  ghost predicate OnPage(page: seq<StoredMessage>, notify: Notify) {
    exists k :: 0 <= k < |page| && page[k].notify == notify
  }

  lemma HandledExactly(c: Config, w: World, user: UserId, m: StoredMessage, now: int, at: int, connected: bool)
    requires Stored(w, m)
    ensures var n := Handled(c, w, user, m, now, at, connected);
            var id := m.notify.msgId;
            var handed := HandsOver(c, m, now, connected);
            && SendsOf(n.sends, id) == SendsOf(w.sends, id) + (if handed then [at] else [])
            && id in n.store.messages
            && n.store.messages[id] ==
               if m.retryCount >= c.maxRetryCount then m.(status := Failed)
               else if handed then m.(status := Delivering, lastDeliverAt := at, retryCount := (m.retryCount + 1) % U32)
               else m
  {
    hide ShouldRetry;
  }

  /** A pass hands messages over in sequence order, after all earlier hand-overs, and only to its own user;
      nothing about messages that are not on its page changes. */
  lemma PassIsConfined(c: Config, t: Runs.Trace, sends: map<MsgId, seq<int>>, log: seq<Handover>, user: UserId,
                       limit: nat, now: int, setting: Setting, id: MsgId)
    requires Runs.Invariant(t)
    ensures var page := Page(t.store, user, At(t.store.lastAcked, user), limit);
            var w := World(t.store, sends, log);
            var n := PassFrom(c, w, user, page, 0, now, setting);
            && log <= n.log && InSequence(n.log[|log|..])
            && (forall h :: h in n.log[|log|..] ==> h.user == user && OnPage(page, h.notify))
            && ((forall k :: 0 <= k < |page| ==> page[k].notify.msgId != id) ==> Untouched(w, n, id))
  {
    var w := World(t.store, sends, log);
    var page := Page(t.store, user, At(t.store.lastAcked, user), limit);
    PageIsStored(t, sends, log, user, At(t.store.lastAcked, user), limit);
    hide Page, PassFrom, Runs.Invariant;
    var n := PassFrom(c, w, user, page, 0, now, setting);
    PassLogs(c, w, user, page, 0, now, setting);
    HandedInSequence(c, user, page, 0, now, setting);
    assert n.log[|log|..] == Handed(c, user, page, 0, now, setting);
    forall h | h in n.log[|log|..] ensures h.user == user && OnPage(page, h.notify) {
      HandedHolds(c, user, page, 0, now, setting, h);
    }
    if forall k :: 0 <= k < |page| ==> page[k].notify.msgId != id {
      PassLeaves(c, w, user, page, 0, now, setting, id);
    }
  }

  // ---------------------------------------------------------------- a pass is a run

  /** The clock does not run backwards from `clock` on. */
  ghost predicate ClockRuns(setting: Setting, i: nat, clock: int) {
    setting.clock(i) >= clock && forall j, k :: i <= j < k ==> setting.clock(j) <= setting.clock(k)
  }

  ghost predicate Matches(s: Service, w: World) {
    s.trace.store == w.store && s.sends == w.sends && s.log == w.log
  }

  /** Delivery `d` is a pass that read the clock at `now` and has `items` from index `i` still to handle. */
  ghost predicate AtIndex(s: Service, d: nat, user: UserId, now: int, items: seq<StoredMessage>, i: nat)
    requires i <= |items|
  {
    d in s.active && s.active[d] == Delivery(user, Pass(now), items[i..], Ready)
  }

  /** One message of a pass, in steps. */
  lemma ItemIsRun(c: Config, s: Service, w: World, d: nat, user: UserId, now: int, items: seq<StoredMessage>, i: nat,
                  setting: Setting)
    returns (steps: seq<Step>)
    requires Matches(s, w) && i < |items| && AtIndex(s, d, user, now, items, i) && ClockRuns(setting, i, s.clock)
    ensures IsRun(c, s, steps)
    ensures var n := After(c, s, steps);
            && Matches(n, Handled(c, w, user, items[i], now, setting.clock(i), setting.connected(i)))
            && AtIndex(n, d, user, now, items, i + 1) && n.clock <= setting.clock(i)
    ensures AllFree(steps)
  {
    assert items[i..][0] == items[i] && items[i..][1..] == items[i + 1..];
    if Exhausted(c, s.active[d]) {
      steps := OneStep(c, s, GiveUp(d));
    } else if !ShouldRetry(c, items[i], now) || !setting.connected(i) {
      steps := OneStep(c, s, Skip(d));
    } else {
      steps := ItemRun(c, s, d, setting.clock(i));
    }
  }

  lemma OneStep(c: Config, s: Service, step: Step) returns (steps: seq<Step>)
    requires Enabled(c, s, step)
    ensures IsRun(c, s, steps) && After(c, s, steps) == Next(c, s, step)
    ensures Free(step) ==> AllFree(steps)
  {
    steps := [step] + [];
    NoSteps(c, Next(c, s, step));
    TakeStep(c, s, step, []);
  }

  lemma {:induction false} ItemsAreRun(c: Config, s: Service, w: World, d: nat, user: UserId, now: int,
                                       items: seq<StoredMessage>, i: nat, setting: Setting)
    returns (steps: seq<Step>)
    requires Matches(s, w) && i <= |items| && AtIndex(s, d, user, now, items, i) && ClockRuns(setting, i, s.clock)
    ensures IsRun(c, s, steps)
    ensures var n := After(c, s, steps);
            Matches(n, PassFrom(c, w, user, items, i, now, setting)) && AtIndex(n, d, user, now, items, |items|)
    ensures AllFree(steps)
    decreases |items| - i
  {
    steps := [];
    if i < |items| {
      hide Handled, Matches, AtIndex, IsRun, After;
      var first := ItemIsRun(c, s, w, d, user, now, items, i, setting);
      var n := After(c, s, first);
      var next := Handled(c, w, user, items[i], now, setting.clock(i), setting.connected(i));
      assert setting.clock(i) <= setting.clock(i + 1);
      var rest := ItemsAreRun(c, n, next, d, user, now, items, i + 1, setting);
      Joined(c, s, first, rest);
      steps := first + rest;
    }
  }

  /** A whole retry pass is a run of the step system: load, read the clock, handle each message. It does
      not overlap with other deliveries if none to its user is under way when it loads. */
  lemma PassIsRun(c: Config, s: Service, d: nat, user: UserId, limit: nat, setting: Setting) returns (steps: seq<Step>)
    requires d !in s.active && ClockRuns(setting, 0, s.clock)
    ensures IsRun(c, s, steps)
    ensures var w := World(s.trace.store, s.sends, s.log);
            var page := Page(w.store, user, At(w.store.lastAcked, user), limit);
            Matches(After(c, s, steps), PassFrom(c, w, user, page, 0, s.clock, setting))
    ensures (forall e :: e in s.active ==> s.active[e].user != user) ==> AllPolite(c, s, steps)
  {
    var w := World(s.trace.store, s.sends, s.log);
    var mark := At(w.store.lastAcked, user);
    var page := Page(w.store, user, mark, limit);
    var load := Load(d, user, mark, limit);
    var s1 := Next(c, s, load);
    var s2 := Next(c, s1, ReadClock(d));
    hide Page, IsRun, After, PassFrom, AllPolite;
    assert page[0..] == page;
    steps := ItemsAreRun(c, s2, w, d, user, s.clock, page, 0, setting);
    TakeStep(c, s1, ReadClock(d), steps);
    steps := [ReadClock(d)] + steps;
    TakeStep(c, s, load, steps);
    if forall e :: e in s.active ==> s.active[e].user != user {
      PoliteThenFree(c, s, load, steps);
    }
    steps := [load] + steps;
  }

  /** So is a send to a connected receiver; it is no re-send if the message is new. */
  lemma SendIsRun(c: Config, s: Service, d: nat, r: Request, at: int) returns (steps: seq<Step>)
    requires d !in s.active && at >= s.clock
    ensures IsRun(c, s, steps)
    ensures var w := World(Save(s.trace.store, r), s.sends, s.log);
            Matches(After(c, s, steps), HandedOver(w, r.toUserId, SavedMessage(s.trace.store, r), at))
    ensures !IsDuplicate(s.trace.store, r) ==> AllPolite(c, s, steps)
  {
    hide IsRun, After, AllPolite, Save, SavedMessage, IsDuplicate, Attempt, Next, SendsOf;
    steps := SendRun(c, s, d, r, at);
  }
}
