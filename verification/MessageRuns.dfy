/** Whole runs of the message store: saves, delivery attempts and acks of any threads, in any order of
    their critical sections and with any arguments. */
module MessageRuns {
  import opened MessageStores
  import opened Numbers

  datatype Step =
    | DoSave(request: Request)
    | DoAttempt(receiver: UserId, id: MsgId, status: Status, at: int, retryCount: nat)
    | DoAck(receiver: UserId, id: MsgId, serverSeq: nat, code: nat, at: int)

  /** The store, with the history of which messages were acked. */
  datatype Trace = Trace(store: Store, acked: set<MsgId>)

  const START: Trace := Trace(EMPTY, {})

  function Next(t: Trace, s: Step): Trace {
    match s
    case DoSave(r) => t.(store := Save(t.store, r))
    case DoAttempt(receiver, id, status, at, retryCount) =>
      t.(store := Attempt(t.store, receiver, id, status, at, retryCount))
    case DoAck(receiver, id, serverSeq, code, at) =>
      Trace(Ack(t.store, receiver, id, serverSeq, code, at),
            if AckError(t.store, receiver, id, serverSeq) == NoError then t.acked + {id} else t.acked)
  }

  function After(t: Trace, steps: seq<Step>): Trace
    decreases |steps|
  {
    if steps == [] then t else After(Next(t, steps[0]), steps[1..])
  }

  // ---------------------------------------------------------------- the invariant

  ghost predicate Increasing(ids: seq<MsgId>) {
    forall i, j :: 0 <= i < j < |ids| ==> ids[i] < ids[j]
  }

  ghost predicate IdsDense(s: Store) {
    s.nextMsgId >= 1 && forall id :: id in s.messages <==> 1 <= id < s.nextMsgId
  }

  ghost predicate WellFormed(s: Store, id: MsgId)
    requires id in s.messages
  {
    var m := s.messages[id];
    m.notify.msgId == id && m.receiverId == m.notify.toUserId && 1 <= m.notify.serverSeq <= At(s.cursors, m.receiverId)
  }

  ghost predicate AllWellFormed(s: Store) {
    forall id :: id in s.messages ==> WellFormed(s, id)
  }

  /** To one receiver, later ids carry later sequence numbers. */
  ghost predicate InOrder(s: Store) {
    forall i, j :: i in s.messages && j in s.messages && i < j && s.messages[i].receiverId == s.messages[j].receiverId
      ==> s.messages[i].notify.serverSeq < s.messages[j].notify.serverSeq
  }

  ghost predicate PendingFor(t: Trace, u: UserId, id: MsgId) {
    id in t.store.messages && t.store.messages[id].receiverId == u && id !in t.acked
  }

  /** A pending list holds exactly its receiver's unacked messages, each once, oldest first. */
  ghost predicate PendingExactFor(t: Trace, u: UserId) {
    Increasing(PendingOf(t.store, u)) && forall id :: id in PendingOf(t.store, u) <==> PendingFor(t, u, id)
  }

  ghost predicate PendingExact(t: Trace) { forall u :: PendingExactFor(t, u) }

  ghost predicate MarkIsMax(t: Trace, u: UserId) {
    && (forall id :: id in t.acked && id in t.store.messages && t.store.messages[id].receiverId == u
          ==> t.store.messages[id].notify.serverSeq <= At(t.store.lastAcked, u))
    && (At(t.store.lastAcked, u) > 0 ==>
          exists id :: id in t.acked && id in t.store.messages && t.store.messages[id].receiverId == u
            && t.store.messages[id].notify.serverSeq == At(t.store.lastAcked, u))
  }

  ghost predicate MarksAreMax(t: Trace) {
    t.acked <= t.store.messages.Keys && forall u :: MarkIsMax(t, u)
  }

  ghost predicate Indexed(s: Store, id: MsgId)
    requires id in s.messages
  {
    var n := s.messages[id].notify;
    var key := DedupKey(n.fromUserId, n.clientMsgId);
    n.clientMsgId != "" ==> key in s.dedup && s.dedup[key] == id
  }

  /** The index holds the key of every message that has a client id, and nothing else. */
  ghost predicate DedupExact(s: Store) {
    && (forall key :: key in s.dedup ==>
          && s.dedup[key] in s.messages
          && s.messages[s.dedup[key]].notify.clientMsgId != ""
          && key == DedupKey(s.messages[s.dedup[key]].notify.fromUserId, s.messages[s.dedup[key]].notify.clientMsgId))
    && (forall id :: id in s.messages ==> Indexed(s, id))
  }

  ghost predicate Invariant(t: Trace) {
    && IdsDense(t.store) && AllWellFormed(t.store) && InOrder(t.store) && DedupExact(t.store)
    && PendingExact(t) && MarksAreMax(t)
  }

  // ---------------------------------------------------------------- steps that leave messages in place

  /** The messages are the same, up to their delivery records. */
  ghost predicate SameMessages(s: Store, n: Store) {
    && s.messages.Keys == n.messages.Keys
    && (forall id :: id in s.messages ==>
          s.messages[id].notify == n.messages[id].notify && s.messages[id].receiverId == n.messages[id].receiverId)
    && s.nextMsgId == n.nextMsgId && s.cursors == n.cursors && s.dedup == n.dedup
  }

  lemma SameMessagesKeep(s: Store, n: Store)
    requires SameMessages(s, n)
    requires IdsDense(s) && AllWellFormed(s) && InOrder(s) && DedupExact(s)
    ensures IdsDense(n) && AllWellFormed(n) && InOrder(n) && DedupExact(n)
  {
    forall id | id in n.messages ensures WellFormed(n, id) && Indexed(n, id) {
      assert WellFormed(s, id) && Indexed(s, id);
    }
  }

  lemma AttemptIsLocal(s: Store, receiver: UserId, id: MsgId, status: Status, at: int, retryCount: nat)
    ensures SameMessages(s, Attempt(s, receiver, id, status, at, retryCount))
  {
  }

  lemma AckIsLocal(s: Store, receiver: UserId, id: MsgId, serverSeq: nat, code: nat, at: int)
    ensures SameMessages(s, Ack(s, receiver, id, serverSeq, code, at))
  {
  }

  /** If neither the pending lists nor the acked set nor the marks change, their laws carry over. */
  lemma SameListsKeep(t: Trace, n: Trace)
    requires SameMessages(t.store, n.store) && t.store.pending == n.store.pending && t.acked == n.acked
    requires forall u :: At(t.store.lastAcked, u) == At(n.store.lastAcked, u)
    requires PendingExact(t) && MarksAreMax(t)
    ensures PendingExact(n) && MarksAreMax(n)
  {
    forall u ensures PendingExactFor(n, u) {
      assert PendingExactFor(t, u);
      assert PendingOf(t.store, u) == PendingOf(n.store, u);
      assert forall id :: PendingFor(t, u, id) == PendingFor(n, u, id);
    }
    forall u ensures MarkIsMax(n, u) {
      assert MarkIsMax(t, u);
    }
  }

  lemma AttemptKeepsInvariant(t: Trace, receiver: UserId, id: MsgId, status: Status, at: int, retryCount: nat)
    requires Invariant(t)
    ensures Invariant(Next(t, DoAttempt(receiver, id, status, at, retryCount)))
  {
    hide PendingExact, MarksAreMax, InOrder, AllWellFormed, IdsDense, DedupExact, SameMessages;
    var n := Next(t, DoAttempt(receiver, id, status, at, retryCount));
    AttemptIsLocal(t.store, receiver, id, status, at, retryCount);
    SameMessagesKeep(t.store, n.store);
    SameListsKeep(t, n);
  }

  // ---------------------------------------------------------------- acks

  lemma {:induction false} WithoutHolds(ids: seq<MsgId>, id: MsgId, x: MsgId)
    ensures x in Without(ids, id) <==> x in ids && x != id
  {
    if ids != [] {
      WithoutHolds(ids[1..], id, x);
    }
  }

  lemma {:induction false} WithoutIncreasing(ids: seq<MsgId>, id: MsgId)
    requires Increasing(ids)
    ensures Increasing(Without(ids, id))
  {
    if ids != [] {
      WithoutIncreasing(ids[1..], id);
      forall j | 0 <= j < |Without(ids[1..], id)| ensures ids[0] < Without(ids[1..], id)[j] {
        WithoutHolds(ids[1..], id, Without(ids[1..], id)[j]);
      }
    }
  }

  lemma AckKeepsPending(t: Trace, receiver: UserId, id: MsgId, serverSeq: nat, code: nat, at: int)
    requires PendingExact(t) && AckError(t.store, receiver, id, serverSeq) == NoError
    ensures PendingExact(Next(t, DoAck(receiver, id, serverSeq, code, at)))
  {
    var n := Next(t, DoAck(receiver, id, serverSeq, code, at));
    forall u ensures PendingExactFor(n, u) {
      assert PendingExactFor(t, u);
      var ids := PendingOf(t.store, u);
      WithoutIncreasing(ids, id);
      forall x ensures x in PendingOf(n.store, u) <==> PendingFor(n, u, x) {
        WithoutHolds(ids, id, x);
        assert x in ids <==> PendingFor(t, u, x);
      }
    }
  }

  lemma AckKeepsMarks(t: Trace, receiver: UserId, id: MsgId, serverSeq: nat, code: nat, at: int)
    requires MarksAreMax(t) && AckError(t.store, receiver, id, serverSeq) == NoError
    ensures MarksAreMax(Next(t, DoAck(receiver, id, serverSeq, code, at)))
  {
    var n := Next(t, DoAck(receiver, id, serverSeq, code, at));
    forall u ensures MarkIsMax(n, u) {
      assert MarkIsMax(t, u);
      if u == receiver && At(t.store.lastAcked, u) <= serverSeq {
        assert n.store.messages[id].notify.serverSeq == At(n.store.lastAcked, u);
      } else if At(n.store.lastAcked, u) > 0 {
        var w :| w in t.acked && w in t.store.messages && t.store.messages[w].receiverId == u
          && t.store.messages[w].notify.serverSeq == At(t.store.lastAcked, u);
        assert w in n.acked && n.store.messages[w].notify.serverSeq == At(n.store.lastAcked, u);
      }
    }
  }

  lemma AckKeepsInvariant(t: Trace, receiver: UserId, id: MsgId, serverSeq: nat, code: nat, at: int)
    requires Invariant(t)
    ensures Invariant(Next(t, DoAck(receiver, id, serverSeq, code, at)))
  {
    hide PendingExact, MarksAreMax, InOrder, AllWellFormed, IdsDense, DedupExact, SameMessages;
    var n := Next(t, DoAck(receiver, id, serverSeq, code, at));
    AckIsLocal(t.store, receiver, id, serverSeq, code, at);
    SameMessagesKeep(t.store, n.store);
    if AckError(t.store, receiver, id, serverSeq) == NoError {
      AckKeepsPending(t, receiver, id, serverSeq, code, at);
      AckKeepsMarks(t, receiver, id, serverSeq, code, at);
    } else {
      SameListsKeep(t, n);
    }
  }

  // ---------------------------------------------------------------- saves

  lemma InsertKeepsMessages(s: Store, r: Request)
    requires IdsDense(s) && AllWellFormed(s) && InOrder(s)
    ensures IdsDense(Insert(s, r)) && AllWellFormed(Insert(s, r)) && InOrder(Insert(s, r))
  {
    var n := Insert(s, r);
    forall id | id in n.messages ensures WellFormed(n, id) {
      assert id != s.nextMsgId ==> WellFormed(s, id);
    }
    InsertKeepsOrder(s, r);
  }

  lemma InsertKeepsOrder(s: Store, r: Request)
    requires IdsDense(s) && AllWellFormed(s) && InOrder(s)
    ensures InOrder(Insert(s, r))
  {
    var n := Insert(s, r);
    forall i, j | i in n.messages && j in n.messages && i < j && n.messages[i].receiverId == n.messages[j].receiverId
      ensures n.messages[i].notify.serverSeq < n.messages[j].notify.serverSeq {
      assert i in s.messages && WellFormed(s, i);
    }
  }

  lemma InsertKeepsPending(t: Trace, r: Request)
    requires IdsDense(t.store) && PendingExact(t) && t.acked <= t.store.messages.Keys
    ensures PendingExact(t.(store := Insert(t.store, r)))
  {
    var n := t.(store := Insert(t.store, r));
    forall u ensures PendingExactFor(n, u) {
      assert PendingExactFor(t, u);
      var ids := PendingOf(t.store, u);
      forall i | 0 <= i < |ids| ensures ids[i] < t.store.nextMsgId {
        assert ids[i] in ids && PendingFor(t, u, ids[i]);
      }
      assert forall x :: x in PendingOf(n.store, u) <==> x in ids || (u == r.toUserId && x == t.store.nextMsgId);
      assert forall x :: PendingFor(n, u, x) <==> PendingFor(t, u, x) || (u == r.toUserId && x == t.store.nextMsgId);
    }
  }

  lemma InsertKeepsMarks(t: Trace, r: Request)
    requires IdsDense(t.store) && MarksAreMax(t)
    ensures MarksAreMax(t.(store := Insert(t.store, r)))
  {
    var n := t.(store := Insert(t.store, r));
    forall u ensures MarkIsMax(n, u) {
      assert MarkIsMax(t, u);
    }
  }

  lemma InsertKeepsDedup(s: Store, r: Request)
    requires IdsDense(s) && DedupExact(s) && !IsDuplicate(s, r)
    ensures DedupExact(Insert(s, r))
  {
    var n := Insert(s, r);
    forall id | id in n.messages ensures Indexed(n, id) {
      assert id != s.nextMsgId ==> Indexed(s, id);
    }
  }

  lemma SaveKeepsInvariant(t: Trace, r: Request)
    requires Invariant(t)
    ensures Invariant(Next(t, DoSave(r)))
  {
    if !IsDuplicate(t.store, r) {
      InsertKeepsMessages(t.store, r);
      InsertKeepsDedup(t.store, r);
      assert t.acked <= t.store.messages.Keys;
      hide PendingExact, MarksAreMax, InOrder, AllWellFormed, IdsDense, DedupExact, Insert;
      InsertKeepsPending(t, r);
      InsertKeepsMarks(t, r);
    }
  }

  lemma StepKeepsInvariant(t: Trace, s: Step)
    requires Invariant(t)
    ensures Invariant(Next(t, s))
  {
    hide Invariant, Next;
    match s
    case DoSave(r) => SaveKeepsInvariant(t, r);
    case DoAttempt(receiver, id, status, at, retryCount) =>
      AttemptKeepsInvariant(t, receiver, id, status, at, retryCount);
    case DoAck(receiver, id, serverSeq, code, at) => AckKeepsInvariant(t, receiver, id, serverSeq, code, at);
  }

  lemma {:induction false} RunKeepsInvariant(t: Trace, steps: seq<Step>)
    requires Invariant(t)
    ensures Invariant(After(t, steps))
    decreases |steps|
  {
    hide Invariant, Next;
    if steps != [] {
      StepKeepsInvariant(t, steps[0]);
      RunKeepsInvariant(Next(t, steps[0]), steps[1..]);
    }
  }

  lemma Reachable(steps: seq<Step>)
    ensures Invariant(After(START, steps))
  {
    RunKeepsInvariant(START, steps);
  }

  // ---------------------------------------------------------------- conservation

  lemma {:induction false} IncreasingOnce(ids: seq<MsgId>, id: MsgId)
    requires Increasing(ids)
    ensures multiset(ids)[id] == if id in ids then 1 else 0
  {
    if ids != [] {
      assert ids == [ids[0]] + ids[1..];
      IncreasingOnce(ids[1..], id);
    }
  }

  /** In every interleaving, each saved message is either exactly once in its own receiver's pending list
      or acked, never both, and in nobody else's list. */
  lemma Conservation(steps: seq<Step>, id: MsgId, u: UserId)
    requires id in After(START, steps).store.messages
    ensures var t := After(START, steps);
            var m := t.store.messages[id];
            && m.notify.msgId == id && m.receiverId == m.notify.toUserId
            && multiset(PendingOf(t.store, u))[id] == if u == m.receiverId && id !in t.acked then 1 else 0
  {
    var t := After(START, steps);
    Reachable(steps);
    assert WellFormed(t.store, id);
    assert PendingExactFor(t, u);
    IncreasingOnce(PendingOf(t.store, u), id);
    assert id in PendingOf(t.store, u) <==> PendingFor(t, u, id);
  }

  /** Between two states: message `id` is still there, nothing of it changed but its delivery record, and
      if it was acked it still is. */
  ghost predicate Kept(t: Trace, n: Trace, id: MsgId)
    requires id in t.store.messages
  {
    && id in n.store.messages
    && n.store.messages[id].notify == t.store.messages[id].notify
    && n.store.messages[id].receiverId == t.store.messages[id].receiverId
    && n.store.messages[id].createdAt == t.store.messages[id].createdAt
    && (id in t.acked ==> id in n.acked)
  }

  lemma StepKeeps(t: Trace, s: Step, id: MsgId)
    requires IdsDense(t.store) && id in t.store.messages
    ensures Kept(t, Next(t, s), id)
  {
  }

  /** What was sent never changes, and an ack is for good. */
  lemma {:induction false} HistoryIsKept(t: Trace, steps: seq<Step>, id: MsgId)
    requires Invariant(t) && id in t.store.messages
    ensures Kept(t, After(t, steps), id)
    decreases |steps|
  {
    if steps != [] {
      hide Next, IdsDense, AllWellFormed, InOrder, PendingExact, MarksAreMax, DedupExact;
      StepKeepsInvariant(t, steps[0]);
      StepKeeps(t, steps[0], id);
      HistoryIsKept(Next(t, steps[0]), steps[1..], id);
    }
  }

  // ---------------------------------------------------------------- what a load returns

  lemma {:induction false} SelectHolds(messages: map<MsgId, StoredMessage>, ids: seq<MsgId>, after: nat,
                                       m: StoredMessage)
    requires forall id :: id in messages ==> messages[id].notify.msgId == id
    ensures m in Select(messages, ids, after)
            <==> var id := m.notify.msgId; id in ids && id in messages && messages[id] == m && Wanted(m, after)
  {
    if ids != [] {
      SelectHolds(messages, ids[1..], after, m);
    }
  }

  /** A load may return exactly the unacked messages of the user that lie above `after` and are in no
      final state. */
  lemma EligibleExactly(t: Trace, u: UserId, after: nat, m: StoredMessage)
    requires Invariant(t)
    ensures m in Eligible(t.store, u, after) <==>
            && PendingFor(t, u, m.notify.msgId) && t.store.messages[m.notify.msgId] == m
            && m.notify.serverSeq > after && m.status != Delivered && m.status != Read && m.status != Failed
  {
    var ids := PendingOf(t.store, u);
    forall id | id in t.store.messages ensures t.store.messages[id].notify.msgId == id {
      assert WellFormed(t.store, id);
    }
    SelectHolds(t.store.messages, ids, after, m);
    assert PendingExactFor(t, u);
  }

  ghost predicate SeqsIncrease(page: seq<StoredMessage>) {
    forall i, j :: 0 <= i < j < |page| ==> page[i].notify.serverSeq < page[j].notify.serverSeq
  }

  lemma {:induction false} SelectIncreases(t: Trace, u: UserId, ids: seq<MsgId>, after: nat)
    requires Invariant(t) && Increasing(ids) && forall id :: id in ids ==> PendingFor(t, u, id)
    ensures SeqsIncrease(Select(t.store.messages, ids, after))
  {
    if ids != [] {
      SelectIncreases(t, u, ids[1..], after);
      var rest := Select(t.store.messages, ids[1..], after);
      assert PendingFor(t, u, ids[0]);
      forall j | 0 <= j < |rest| ensures t.store.messages[ids[0]].notify.serverSeq < rest[j].notify.serverSeq {
        FromList(t, ids[1..], after, rest[j]);
        var id := rest[j].notify.msgId;
        var k :| 0 <= k < |ids[1..]| && ids[1..][k] == id;
        assert ids[0] < ids[k + 1] == id;
        assert PendingFor(t, u, id);
      }
    }
  }

  lemma FromList(t: Trace, ids: seq<MsgId>, after: nat, m: StoredMessage)
    requires Invariant(t) && m in Select(t.store.messages, ids, after)
    ensures m.notify.msgId in ids && m.notify.msgId in t.store.messages && t.store.messages[m.notify.msgId] == m
  {
    forall id | id in t.store.messages ensures t.store.messages[id].notify.msgId == id {
      assert WellFormed(t.store, id);
    }
    SelectHolds(t.store.messages, ids, after, m);
  }

  lemma EligibleIncreases(t: Trace, u: UserId, after: nat)
    requires Invariant(t)
    ensures SeqsIncrease(Eligible(t.store, u, after))
  {
    assert PendingExactFor(t, u);
    SelectIncreases(t, u, PendingOf(t.store, u), after);
  }

  /** An acked message is never loaded again, whatever late attempts write into its status. */
  lemma AckedNeverLoadedAgain(t: Trace, steps: seq<Step>, id: MsgId, u: UserId, after: nat, limit: nat)
    requires Invariant(t) && id in t.acked
    ensures forall m :: m in Page(After(t, steps).store, u, after, limit) ==> m.notify.msgId != id
  {
    var n := After(t, steps);
    assert id in t.store.messages;
    RunKeepsInvariant(t, steps);
    HistoryIsKept(t, steps, id);
    forall m | m in Page(n.store, u, after, limit) ensures m.notify.msgId != id {
      EligibleExactly(n, u, after, m);
    }
  }

  // ---------------------------------------------------------------- what each operation does to later loads

  /** A new message carries what was asked for, under the next numbers, and from then on is what its
      receiver can load besides what could be loaded before. */
  lemma SaveAddsOne(t: Trace, r: Request, u: UserId, after: nat, m: StoredMessage)
    requires Invariant(t) && !IsDuplicate(t.store, r)
    ensures var n, saved := Next(t, DoSave(r)), SavedMessage(t.store, r);
            && saved.notify.fromUserId == r.fromUserId && saved.notify.toUserId == r.toUserId
            && saved.notify.clientMsgId == r.clientMsgId && saved.notify.content == r.content
            && saved.notify.timestamp == saved.createdAt == r.timestamp && saved.receiverId == r.toUserId
            && saved.status == Persisted && saved.retryCount == 0 && saved.lastDeliverAt == 0 && saved.ackedAt == 0
            && saved.notify.serverSeq == At(t.store.cursors, r.toUserId) + 1 == At(n.store.cursors, r.toUserId)
            && saved.notify.msgId !in t.store.messages
            && (m in Eligible(n.store, u, after) <==>
                m in Eligible(t.store, u, after) || (m == saved && u == r.toUserId && saved.notify.serverSeq > after))
  {
    SaveKeepsInvariant(t, r);
    EligibleExactly(t, u, after, m);
    EligibleExactly(Next(t, DoSave(r)), u, after, m);
    assert t.acked <= t.store.messages.Keys;
  }

  /** An ack that is accepted takes its message, and nothing else, out of what anyone can load. */
  lemma AckRemovesOne(t: Trace, receiver: UserId, id: MsgId, serverSeq: nat, code: nat, at: int, u: UserId, after: nat,
                      m: StoredMessage)
    requires Invariant(t) && AckError(t.store, receiver, id, serverSeq) == NoError
    ensures var n := Next(t, DoAck(receiver, id, serverSeq, code, at));
            m in Eligible(n.store, u, after) <==> m in Eligible(t.store, u, after) && m.notify.msgId != id
  {
    AckKeepsInvariant(t, receiver, id, serverSeq, code, at);
    EligibleExactly(t, u, after, m);
    EligibleExactly(Next(t, DoAck(receiver, id, serverSeq, code, at)), u, after, m);
  }

  /** An attempt changes nothing about other messages; its own is loaded with the new record, unless it
      was acked or the new status is final. */
  lemma AttemptRewritesOne(t: Trace, receiver: UserId, id: MsgId, status: Status, at: int, retryCount: nat, u: UserId,
                           after: nat, m: StoredMessage)
    requires Invariant(t) && AttemptError(t.store, receiver, id) == NoError
    ensures var n := Next(t, DoAttempt(receiver, id, status, at, retryCount));
            m in Eligible(n.store, u, after) <==>
            if m.notify.msgId != id then m in Eligible(t.store, u, after) else
            && PendingFor(t, u, id) && Wanted(m, after)
            && m == t.store.messages[id].(status := status, lastDeliverAt := at, retryCount := retryCount)
  {
    AttemptKeepsInvariant(t, receiver, id, status, at, retryCount);
    EligibleExactly(t, u, after, m);
    EligibleExactly(Next(t, DoAttempt(receiver, id, status, at, retryCount)), u, after, m);
  }

  /** An ack is accepted iff the message is there, is the receiver's and bears that number; otherwise the first
      of these that fails is reported. It leaves the time and, by its code, Read or Delivered on that message,
      raises the receiver's mark to at least that number, and changes nothing else; refused, it changes no
      message, list or mark. */
  lemma AckExactly(t: Trace, receiver: UserId, id: MsgId, serverSeq: nat, code: nat, at: int)
    ensures var s, n := t.store, Next(t, DoAck(receiver, id, serverSeq, code, at));
            var error := AckError(s, receiver, id, serverSeq);
            && (error == MessageNotFound <==> id !in s.messages)
            && (error == ReceiverMismatch <==> id in s.messages && s.messages[id].receiverId != receiver)
            && (error == ServerSeqMismatch <==>
                  && id in s.messages && s.messages[id].receiverId == receiver
                  && s.messages[id].notify.serverSeq != serverSeq)
            && n.store.nextMsgId == s.nextMsgId && n.store.cursors == s.cursors && n.store.dedup == s.dedup
            && if error == NoError then
                 && n.store.messages == s.messages[
                      id := s.messages[id].(ackedAt := at, status := if code == 1 then Read else Delivered)]
                 && n.acked == t.acked + {id}
                 && (forall u :: At(n.store.lastAcked, u) ==
                       if u == receiver && serverSeq > At(s.lastAcked, u) then serverSeq else At(s.lastAcked, u))
               else
                 && n.store.messages == s.messages && n.store.pending == s.pending && n.acked == t.acked
                 && (forall u :: At(n.store.lastAcked, u) == At(s.lastAcked, u))
  {
  }

  /** An attempt is accepted iff the message is there and is the receiver's; otherwise the first that fails is
      reported and nothing changes. Nobody but its receiver can have a message's record rewritten. */
  lemma AttemptExactly(s: Store, receiver: UserId, id: MsgId, status: Status, at: int, retryCount: nat)
    ensures var n, error := Attempt(s, receiver, id, status, at, retryCount), AttemptError(s, receiver, id);
            && (error == MessageNotFound <==> id !in s.messages)
            && (error == ReceiverMismatch <==> id in s.messages && s.messages[id].receiverId != receiver)
            && (error == NoError || error == MessageNotFound || error == ReceiverMismatch)
            && (error != NoError ==> n == s)
            && (error == NoError ==>
                  var m := s.messages[id].(status := status, lastDeliverAt := at, retryCount := retryCount);
                  n == s.(messages := s.messages[id := m]))
  {
  }

  /** A step in which the receiver of message `id` acks it or has an attempt at it recorded. */
  predicate Concerns(s: Step, id: MsgId, receiver: UserId) {
    !s.DoSave? && s.id == id && s.receiver == receiver
  }

  lemma {:induction false} RecordStays(t: Trace, steps: seq<Step>, id: MsgId)
    requires Invariant(t) && id in t.store.messages
    requires forall s :: s in steps ==> !Concerns(s, id, t.store.messages[id].receiverId)
    ensures id in After(t, steps).store.messages && After(t, steps).store.messages[id] == t.store.messages[id]
    decreases |steps|
  {
    if steps != [] {
      hide IdsDense, AllWellFormed, InOrder, PendingExact, MarksAreMax, DedupExact;
      StepKeepsInvariant(t, steps[0]);
      RecordStep(t, steps[0], id);
      RecordStays(Next(t, steps[0]), steps[1..], id);
    }
  }

  lemma RecordStep(t: Trace, s: Step, id: MsgId)
    requires IdsDense(t.store) && id in t.store.messages && !Concerns(s, id, t.store.messages[id].receiverId)
    ensures id in Next(t, s).store.messages && Next(t, s).store.messages[id] == t.store.messages[id]
  {
  }

  /** An accepted ack is on record, by its code as read or as delivered, with its time, whatever anybody else
      does, until the receiver acks the message again or an attempt at it is recorded. */
  lemma AckIsOnRecord(t: Trace, receiver: UserId, id: MsgId, serverSeq: nat, code: nat, at: int, steps: seq<Step>)
    requires Invariant(t) && id in t.store.messages
    requires t.store.messages[id].receiverId == receiver && t.store.messages[id].notify.serverSeq == serverSeq
    requires forall s :: s in steps ==> !Concerns(s, id, receiver)
    ensures var n := After(Next(t, DoAck(receiver, id, serverSeq, code, at)), steps);
            && id in n.store.messages && n.store.messages[id].ackedAt == at
            && n.store.messages[id].status == (if code == 1 then Read else Delivered)
  {
    AckKeepsInvariant(t, receiver, id, serverSeq, code, at);
    RecordStays(Next(t, DoAck(receiver, id, serverSeq, code, at)), steps, id);
  }

  predicate Final(status: Status) { status == Failed || status == Delivered || status == Read }

  lemma {:induction false} FinalStays(t: Trace, steps: seq<Step>, id: MsgId)
    requires Invariant(t) && id in t.store.messages && Final(t.store.messages[id].status)
    requires forall s :: s in steps && s.DoAttempt? ==> s.id != id
    ensures id in After(t, steps).store.messages && Final(After(t, steps).store.messages[id].status)
    decreases |steps|
  {
    if steps != [] {
      hide IdsDense, AllWellFormed, InOrder, PendingExact, MarksAreMax, DedupExact;
      StepKeepsInvariant(t, steps[0]);
      FinalStep(t, steps[0], id);
      FinalStays(Next(t, steps[0]), steps[1..], id);
    }
  }

  lemma FinalStep(t: Trace, s: Step, id: MsgId)
    requires IdsDense(t.store) && id in t.store.messages && Final(t.store.messages[id].status)
    requires s.DoAttempt? ==> s.id != id
    ensures id in Next(t, s).store.messages && Final(Next(t, s).store.messages[id].status)
  {
  }

  /** A message given up is in no later page, of anybody, from any cursor, unless a later attempt at it is
      recorded. */
  lemma GivenUpStaysOut(t: Trace, steps: seq<Step>, id: MsgId, u: UserId, after: nat, limit: nat)
    requires Invariant(t) && id in t.store.messages && t.store.messages[id].status == Failed
    requires forall s :: s in steps && s.DoAttempt? ==> s.id != id
    ensures forall m :: m in Page(After(t, steps).store, u, after, limit) ==> m.notify.msgId != id
  {
    var n := After(t, steps);
    RunKeepsInvariant(t, steps);
    FinalStays(t, steps, id);
    forall m | m in Page(n.store, u, after, limit) ensures m.notify.msgId != id {
      EligibleExactly(n, u, after, m);
    }
  }

  // ---------------------------------------------------------------- the ack mark

  /** In every reachable state a user's mark is the largest acked sequence number, zero if none, and is at
      most the user's cursor. */
  lemma AckMark(steps: seq<Step>, u: UserId)
    ensures var t := After(START, steps);
            MarkIsMax(t, u) && At(t.store.lastAcked, u) <= At(t.store.cursors, u)
  {
    var t := After(START, steps);
    Reachable(steps);
    assert MarkIsMax(t, u);
    forall id | id in t.store.messages ensures WellFormed(t.store, id) { }
  }

  lemma {:induction false} MarkNeverDecreases(t: Trace, steps: seq<Step>, u: UserId)
    ensures At(t.store.lastAcked, u) <= At(After(t, steps).store.lastAcked, u)
    decreases |steps|
  {
    if steps != [] {
      MarkNeverDecreases(Next(t, steps[0]), steps[1..], u);
    }
  }

  /** No acked message of `u` has an unacked one before it. */
  ghost predicate NoGaps(t: Trace, u: UserId) {
    forall i, j :: i in t.acked && i in t.store.messages && t.store.messages[i].receiverId == u && PendingFor(t, u, j)
      ==> t.store.messages[i].notify.serverSeq < t.store.messages[j].notify.serverSeq
  }

  /** The attempts the message service records: under way, or given up. */
  predicate ByService(s: Step) {
    s.DoAttempt? ==> s.status == Delivering || s.status == Failed
  }

  /** An unacked message is not marked delivered or read. */
  ghost predicate StatusHonest(t: Trace) {
    forall id :: id in t.store.messages && id !in t.acked ==>
      t.store.messages[id].status != Delivered && t.store.messages[id].status != Read
  }

  lemma {:induction false} ServiceRunsHonest(t: Trace, steps: seq<Step>)
    requires StatusHonest(t) && forall s :: s in steps ==> ByService(s)
    ensures StatusHonest(After(t, steps))
    decreases |steps|
  {
    if steps != [] {
      assert ByService(steps[0]);
      ServiceRunsHonest(Next(t, steps[0]), steps[1..]);
    }
  }

  /** Every unacked message of `u` lies above the mark, so that no retry pass leaves it out for its number. */
  ghost predicate AllAboveMark(t: Trace, u: UserId) {
    forall id :: PendingFor(t, u, id) ==> t.store.messages[id].notify.serverSeq > At(t.store.lastAcked, u)
  }

  lemma AboveMarkIsNoGaps(t: Trace, u: UserId)
    requires Invariant(t)
    ensures NoGaps(t, u) <==> AllAboveMark(t, u)
  {
    assert MarkIsMax(t, u);
    forall id | PendingFor(t, u, id) ensures t.store.messages[id].notify.serverSeq > 0 {
      assert WellFormed(t.store, id);
    }
  }

  /** Every ack by `u` is for its oldest unacked message, or repeats an earlier ack. */
  ghost predicate AcksInOrder(t: Trace, steps: seq<Step>, u: UserId)
    decreases |steps|
  {
    steps == [] || (OldestFirst(t, steps[0], u) && AcksInOrder(Next(t, steps[0]), steps[1..], u))
  }

  ghost predicate OldestFirst(t: Trace, s: Step, u: UserId) {
    s.DoAck? && s.receiver == u && AckError(t.store, u, s.id, s.serverSeq) == NoError && s.id !in t.acked ==>
      forall j :: PendingFor(t, u, j) ==> s.id <= j
  }

  predicate AddressedTo(s: Store, id: MsgId, u: UserId) { id in s.messages && s.messages[id].receiverId == u }

  /** If the messages are the same, the unacked of `u` are fewer, and the newly acked are older than all of
      those, there is still no gap. */
  lemma FewerLeaveNoGaps(t: Trace, n: Trace, u: UserId)
    requires NoGaps(t, u) && SameMessages(t.store, n.store) && t.acked <= n.acked && InOrder(t.store)
    requires forall i: MsgId, j: MsgId ::
               i in n.acked - t.acked && AddressedTo(t.store, i, u) && PendingFor(n, u, j) ==> i < j
    ensures NoGaps(n, u)
  {
    forall i, j | i in n.acked && i in n.store.messages && n.store.messages[i].receiverId == u && PendingFor(n, u, j)
      ensures n.store.messages[i].notify.serverSeq < n.store.messages[j].notify.serverSeq {
      assert PendingFor(t, u, j);
      if i !in t.acked {
        assert i in n.acked - t.acked && AddressedTo(t.store, i, u);
      }
    }
  }

  lemma InsertLeavesNoGaps(t: Trace, r: Request, u: UserId)
    requires IdsDense(t.store) && AllWellFormed(t.store) && t.acked <= t.store.messages.Keys && NoGaps(t, u)
    ensures NoGaps(t.(store := Insert(t.store, r)), u)
  {
    var n := t.(store := Insert(t.store, r));
    forall i, j | i in n.acked && i in n.store.messages && n.store.messages[i].receiverId == u && PendingFor(n, u, j)
      ensures n.store.messages[i].notify.serverSeq < n.store.messages[j].notify.serverSeq {
      assert WellFormed(t.store, i);
      assert j in t.store.messages ==> PendingFor(t, u, j);
    }
  }

  lemma AckLeavesNoGaps(t: Trace, s: Step, u: UserId)
    requires s.DoAck? && InOrder(t.store) && NoGaps(t, u) && OldestFirst(t, s, u)
    ensures NoGaps(Next(t, s), u)
  {
    var n := Next(t, s);
    AckIsLocal(t.store, s.receiver, s.id, s.serverSeq, s.code, s.at);
    hide InOrder, NoGaps, SameMessages;
    forall i: MsgId, j: MsgId | i in n.acked - t.acked && AddressedTo(t.store, i, u) && PendingFor(n, u, j)
      ensures i < j {
      assert i == s.id && i != j && PendingFor(t, u, j);
    }
    FewerLeaveNoGaps(t, n, u);
  }

  lemma StepLeavesNoGaps(t: Trace, s: Step, u: UserId)
    requires Invariant(t) && NoGaps(t, u) && OldestFirst(t, s, u)
    ensures NoGaps(Next(t, s), u)
  {
    assert t.acked <= t.store.messages.Keys;
    hide PendingExact, MarksAreMax, DedupExact, AllWellFormed, IdsDense, InOrder, NoGaps, OldestFirst, SameMessages;
    match s
    case DoSave(r) =>
      if !IsDuplicate(t.store, r) {
        InsertLeavesNoGaps(t, r, u);
      }
    case DoAttempt(receiver, id, status, at, retryCount) =>
      AttemptIsLocal(t.store, receiver, id, status, at, retryCount);
      FewerLeaveNoGaps(t, Next(t, s), u);
    case DoAck(_, _, _, _, _) =>
      AckLeavesNoGaps(t, s, u);
  }

  /** An ack out of order leaves a gap. */
  lemma OtherAckLeavesGap(t: Trace, s: Step, u: UserId)
    requires InOrder(t.store) && !OldestFirst(t, s, u)
    ensures !NoGaps(Next(t, s), u)
  {
    var n := Next(t, s);
    var j: MsgId :| PendingFor(t, u, j) && j < s.id;
    assert PendingFor(n, u, j) && s.id in n.acked;
  }

  ghost predicate NeverGaps(t: Trace, steps: seq<Step>, u: UserId)
    decreases |steps|
  {
    NoGaps(t, u) && (steps == [] || NeverGaps(Next(t, steps[0]), steps[1..], u))
  }

  lemma {:induction false} NeverGapsIfOrdered(t: Trace, steps: seq<Step>, u: UserId)
    requires Invariant(t) && NoGaps(t, u)
    ensures AcksInOrder(t, steps, u) <==> NeverGaps(t, steps, u)
    decreases |steps|
  {
    hide NoGaps, Next, OldestFirst;
    if steps != [] {
      hide IdsDense, AllWellFormed, InOrder, PendingExact, MarksAreMax, DedupExact;
      var n := Next(t, steps[0]);
      StepKeepsInvariant(t, steps[0]);
      if OldestFirst(t, steps[0], u) {
        StepLeavesNoGaps(t, steps[0], u);
        NeverGapsIfOrdered(n, steps[1..], u);
      } else {
        OtherAckLeavesGap(t, steps[0], u);
      }
    }
  }

  lemma {:induction false} NeverGapsIsPrefixes(t: Trace, steps: seq<Step>, u: UserId)
    requires Invariant(t)
    ensures NeverGaps(t, steps, u) <==> forall k :: 0 <= k <= |steps| ==> AllAboveMark(After(t, steps[..k]), u)
    decreases |steps|
  {
    hide Invariant, NoGaps, AllAboveMark, Next;
    AboveMarkIsNoGaps(t, u);
    assert After(t, steps[..0]) == t;
    if steps != [] {
      var n, rest := Next(t, steps[0]), steps[1..];
      StepKeepsInvariant(t, steps[0]);
      NeverGapsIsPrefixes(n, rest, u);
      forall k | 1 <= k <= |steps| ensures After(t, steps[..k]) == After(n, rest[..k - 1]) {
        assert steps[..k][1..] == rest[..k - 1];
      }
      forall k | 0 <= k <= |rest| ensures After(n, rest[..k]) == After(t, steps[..k + 1]) { }
    }
  }

  /** Every unacked message of `u` is above the mark at every point of a run, exactly if each ack `u` gives
      is for its oldest unacked message or repeats an earlier one. */
  lemma AllAboveMarkExactlyIf(steps: seq<Step>, u: UserId)
    ensures AcksInOrder(START, steps, u) <==>
            forall k :: 0 <= k <= |steps| ==> AllAboveMark(After(START, steps[..k]), u)
  {
    assert Invariant(START);
    NeverGapsIfOrdered(START, steps, u);
    NeverGapsIsPrefixes(START, steps, u);
  }

  /** Acking the second of two messages first leaves the other behind the mark. */
  lemma LaterAckOvertakes(from: UserId, u: UserId, code: nat, at: int)
    ensures var r := Request(from, u, "", "", at);
            var t := After(START, [DoSave(r), DoSave(r), DoAck(u, 2, 2, code, at)]);
            PendingFor(t, u, 1) && t.store.messages[1].notify.serverSeq <= At(t.store.lastAcked, u)
  {
    var r := Request(from, u, "", "", at);
    var t1 := Next(START, DoSave(r));
    var t2 := Next(t1, DoSave(r));
    var t3 := Next(t2, DoAck(u, 2, 2, code, at));
    assert [DoSave(r), DoSave(r), DoAck(u, 2, 2, code, at)][1..] == [DoSave(r), DoAck(u, 2, 2, code, at)];
    assert [DoSave(r), DoAck(u, 2, 2, code, at)][1..] == [DoAck(u, 2, 2, code, at)];
    assert After(t2, [DoAck(u, 2, 2, code, at)]) == t3;
  }

  /** A message the mark has passed before its ack is in no later retry pass: one that reads the mark after
      `before` and loads after a further `between`. */
  lemma OvertakenIsNeverRetried(t: Trace, before: seq<Step>, between: seq<Step>, u: UserId, id: MsgId, limit: nat)
    requires Invariant(t) && PendingFor(t, u, id) && t.store.messages[id].notify.serverSeq <= At(t.store.lastAcked, u)
    ensures var a := After(t, before);
            var b := After(a, between);
            forall m :: m in Page(b.store, u, At(a.store.lastAcked, u), limit) ==> m.notify.msgId != id
  {
    var a := After(t, before);
    var b, mark := After(a, between), At(a.store.lastAcked, u);
    RunKeepsInvariant(t, before);
    HistoryIsKept(t, before, id);
    MarkNeverDecreases(t, before, u);
    RunKeepsInvariant(a, between);
    HistoryIsKept(a, between, id);
    forall m | m in Page(b.store, u, mark, limit) ensures m.notify.msgId != id {
      EligibleExactly(b, u, mark, m);
    }
  }

  // ---------------------------------------------------------------- idempotent sends

  lemma StepKeepsIndex(t: Trace, s: Step, key: string)
    requires DedupExact(t.store) && key in t.store.dedup
    ensures key in Next(t, s).store.dedup && Next(t, s).store.dedup[key] == t.store.dedup[key]
  {
    assert t.store.dedup[key] in t.store.messages;
  }

  lemma {:induction false} IndexIsKept(t: Trace, steps: seq<Step>, key: string)
    requires Invariant(t) && key in t.store.dedup
    ensures var n := After(t, steps); key in n.store.dedup && n.store.dedup[key] == t.store.dedup[key]
    decreases |steps|
  {
    if steps != [] {
      hide Next, IdsDense, AllWellFormed, InOrder, PendingExact, MarksAreMax, DedupExact;
      StepKeepsInvariant(t, steps[0]);
      StepKeepsIndex(t, steps[0], key);
      IndexIsKept(Next(t, steps[0]), steps[1..], key);
    }
  }

  /** Saves with the same sender and client id return the same message, whatever happens in between; the
      later one reports a duplicate and leaves the store as it was. */
  lemma IdempotentSend(t: Trace, r: Request, steps: seq<Step>, again: Request)
    requires Invariant(t) && r.clientMsgId != ""
    requires again.fromUserId == r.fromUserId && again.clientMsgId == r.clientMsgId
    ensures var n := After(Next(t, DoSave(r)), steps).store;
            && IsDuplicate(n, again) && Save(n, again) == n
            && SavedMessage(n, again).notify == SavedMessage(t.store, r).notify
  {
    var first := Next(t, DoSave(r));
    var key := DedupKey(r.fromUserId, r.clientMsgId);
    SaveKeepsInvariant(t, r);
    IndexIsKept(first, steps, key);
    HistoryIsKept(first, steps, first.store.dedup[key]);
  }

  ghost predicate SharesKey(s: Store, id: MsgId, r: Request) {
    && id in s.messages && s.messages[id].notify.clientMsgId != ""
    && DedupKey(s.messages[id].notify.fromUserId, s.messages[id].notify.clientMsgId)
       == DedupKey(r.fromUserId, r.clientMsgId)
  }

  /** A save is taken for a duplicate exactly if some saved message has its key; if the two senders'
      ids hold no '#', that message is the sender's own, under the same client id. */
  lemma DuplicateExactlyIf(t: Trace, r: Request)
    requires Invariant(t)
    ensures IsDuplicate(t.store, r) <==> r.clientMsgId != "" && exists id :: SharesKey(t.store, id, r)
    ensures IsDuplicate(t.store, r) ==>
            var n := SavedMessage(t.store, r).notify;
            '#' !in r.fromUserId && '#' !in n.fromUserId ==>
            n.fromUserId == r.fromUserId && n.clientMsgId == r.clientMsgId
  {
    var key := DedupKey(r.fromUserId, r.clientMsgId);
    forall id | id in t.store.messages ensures Indexed(t.store, id) { }
    if IsDuplicate(t.store, r) {
      var n := SavedMessage(t.store, r).notify;
      assert SharesKey(t.store, t.store.dedup[key], r);
      if '#' !in r.fromUserId && '#' !in n.fromUserId {
        PlainSendersKeepApart(n.fromUserId, n.clientMsgId, r.fromUserId, r.clientMsgId);
      }
    }
  }

  // ---------------------------------------------------------------- pulling page by page

  /** Between two pulls anything may happen; then one page is loaded. */
  datatype Round = Round(steps: seq<Step>, limit: nat)

  /** The lossless cursor: one less than nextBeginSeq, if the page was not empty. */
  function Continue(after: nat, page: seq<StoredMessage>): nat {
    if page == [] then after else NextBegin(after, page) - 1
  }

  /** Everything a client receives that pulls page by page from `after`. */
  function Pull(t: Trace, u: UserId, after: nat, rounds: seq<Round>): seq<StoredMessage>
    decreases |rounds|
  {
    if rounds == [] then []
    else
      var n := After(t, rounds[0].steps);
      var page := Page(n.store, u, after, rounds[0].limit);
      page + Pull(n, u, Continue(after, page), rounds[1..])
  }

  /** The state and the cursor at the end. */
  function PullEnd(t: Trace, u: UserId, after: nat, rounds: seq<Round>): (Trace, nat)
    decreases |rounds|
  {
    if rounds == [] then (t, after)
    else
      var n := After(t, rounds[0].steps);
      PullEnd(n, u, Continue(after, Page(n.store, u, after, rounds[0].limit)), rounds[1..])
  }

  /** At every load from when it was saved, message `id` could be returned. */
  ghost predicate StaysEligible(t: Trace, u: UserId, rounds: seq<Round>, id: MsgId)
    decreases |rounds|
  {
    rounds == [] ||
    var n := After(t, rounds[0].steps);
    && (id in n.store.messages ==> PendingFor(n, u, id) && Wanted(n.store.messages[id], 0))
    && StaysEligible(n, u, rounds[1..], id)
  }

  lemma {:induction false} MaxSeqIsLast(after: nat, page: seq<StoredMessage>)
    requires page != [] && SeqsIncrease(page) && forall m :: m in page ==> m.notify.serverSeq > after
    ensures MaxSeq(after, page) == page[|page| - 1].notify.serverSeq
  {
    var front := page[..|page| - 1];
    if front != [] {
      assert forall m :: m in front ==> m in page;
      MaxSeqIsLast(after, front);
      assert front[|front| - 1] == page[|page| - 2];
    } else {
      assert page[0] in page;
      assert MaxSeq(after, front) == after;
    }
  }

  ghost predicate AllAbove(page: seq<StoredMessage>, after: nat) {
    forall m :: m in page ==> m.notify.serverSeq > after
  }

  /** `page` is the front of `all`, and full if it is not the whole of it; what is not on it lies beyond. */
  ghost predicate FrontOf(page: seq<StoredMessage>, all: seq<StoredMessage>, after: nat, limit: nat) {
    && page <= all && SeqsIncrease(page) && AllAbove(page, after)
    && (page == all || |page| == Max(1, limit))
    && (forall m :: m in all && m !in page ==> m.notify.serverSeq > Continue(after, page))
  }

  lemma FrontPart(all: seq<StoredMessage>, after: nat, limit: nat)
    requires SeqsIncrease(all) && AllAbove(all, after) && |all| > Max(1, limit)
    ensures FrontOf(all[..Max(1, limit)], all, after, limit)
  {
    hide MaxSeq;
    var page := all[..Max(1, limit)];
    assert forall m :: m in page ==> m in all;
    MaxSeqIsLast(after, page);
    forall m | m in all && m !in page ensures m.notify.serverSeq > Continue(after, page) {
      BeyondFront(all, |page|, m);
    }
  }

  lemma BeyondFront(all: seq<StoredMessage>, n: nat, m: StoredMessage)
    requires SeqsIncrease(all) && 0 < n <= |all| && m in all && m !in all[..n]
    ensures m.notify.serverSeq > all[n - 1].notify.serverSeq
  {
    var k :| 0 <= k < |all| && all[k] == m;
    assert forall i :: 0 <= i < n ==> all[i] in all[..n];
  }

  /** A page is the first `limit` eligible messages in sequence order; if it is not empty, nextBeginSeq is
      one more than its last sequence number. */
  lemma PageIsFront(t: Trace, u: UserId, after: nat, limit: nat)
    requires Invariant(t)
    ensures FrontOf(Page(t.store, u, after, limit), Eligible(t.store, u, after), after, limit)
    ensures var page := Page(t.store, u, after, limit);
            NextBegin(after, page) == if page == [] then after else page[|page| - 1].notify.serverSeq + 1
  {
    var all := Eligible(t.store, u, after);
    EligibleIncreases(t, u, after);
    forall m | m in all ensures m.notify.serverSeq > after {
      EligibleExactly(t, u, after, m);
    }
    hide Invariant, Eligible, MaxSeq;
    if |all| > Max(1, limit) {
      FrontPart(all, after, limit);
    }
    var page := Page(t.store, u, after, limit);
    if page != [] {
      MaxSeqIsLast(after, page);
    }
  }

  /** A retry pass, whose mark was read at `t` and whose load happens after some further `steps`,
      considers exactly the unacked messages above that mark that have not failed, in sequence order, and
      of these the first `limit`. */
  lemma RetryPassConsiders(t: Trace, steps: seq<Step>, u: UserId, limit: nat, m: StoredMessage)
    requires Invariant(t) && StatusHonest(t) && forall s :: s in steps ==> ByService(s)
    ensures var n := After(t, steps);
            var mark := At(t.store.lastAcked, u);
            && (m in Eligible(n.store, u, mark) <==>
                && PendingFor(n, u, m.notify.msgId) && n.store.messages[m.notify.msgId] == m
                && m.status != Failed && m.notify.serverSeq > mark)
            && FrontOf(Page(n.store, u, mark, limit), Eligible(n.store, u, mark), mark, limit)
  {
    var n := After(t, steps);
    RunKeepsInvariant(t, steps);
    ServiceRunsHonest(t, steps);
    EligibleExactly(n, u, At(t.store.lastAcked, u), m);
    PageIsFront(n, u, At(t.store.lastAcked, u), limit);
  }

  ghost predicate Receives(page: seq<StoredMessage>, id: MsgId) {
    exists m :: m in page && m.notify.msgId == id
  }

  ghost predicate AllUpto(page: seq<StoredMessage>, cursor: nat) {
    forall m :: m in page ==> m.notify.serverSeq <= cursor
  }

  lemma PageUpto(page: seq<StoredMessage>, after: nat)
    requires SeqsIncrease(page) && AllAbove(page, after)
    ensures AllUpto(page, Continue(after, page)) && after <= Continue(after, page)
  {
    if page != [] {
      MaxSeqIsLast(after, page);
      assert page[0] in page;
    }
  }

  lemma Joined(a: seq<StoredMessage>, b: seq<StoredMessage>, after: nat, middle: nat, cursor: nat)
    requires SeqsIncrease(a) && SeqsIncrease(b) && AllAbove(a, after) && AllAbove(b, middle)
    requires AllUpto(a, middle) && AllUpto(b, cursor) && after <= middle <= cursor
    ensures SeqsIncrease(a + b) && AllAbove(a + b, after) && AllUpto(a + b, cursor)
  {
    assert forall i :: 0 <= i < |a| ==> a[i] in a;
    assert forall i :: 0 <= i < |b| ==> b[i] in b;
  }

  /** What is pulled page by page comes in strictly increasing sequence order, so nothing comes twice. */
  lemma {:induction false} PullIncreases(t: Trace, u: UserId, after: nat, rounds: seq<Round>)
    requires Invariant(t)
    ensures var pulled := Pull(t, u, after, rounds);
            var cursor := PullEnd(t, u, after, rounds).1;
            SeqsIncrease(pulled) && AllAbove(pulled, after) && AllUpto(pulled, cursor) && after <= cursor
    decreases |rounds|
  {
    hide Invariant, Page, Continue, SeqsIncrease, AllAbove, AllUpto, After;
    if rounds == [] {
      NothingYet(after);
    } else {
      var n := After(t, rounds[0].steps);
      var page := Page(n.store, u, after, rounds[0].limit);
      RunKeepsInvariant(t, rounds[0].steps);
      PageIsFront(n, u, after, rounds[0].limit);
      PageUpto(page, after);
      PullIncreases(n, u, Continue(after, page), rounds[1..]);
      Joined(page, Pull(n, u, Continue(after, page), rounds[1..]), after, Continue(after, page),
             PullEnd(t, u, after, rounds).1);
    }
  }

  lemma NothingYet(after: nat)
    ensures SeqsIncrease([]) && AllAbove([], after) && AllUpto([], after)
  {
  }

  lemma {:induction false} PullKeeps(t: Trace, u: UserId, after: nat, rounds: seq<Round>)
    requires Invariant(t)
    ensures var end := PullEnd(t, u, after, rounds).0;
            Invariant(end) && forall id :: id in t.store.messages ==> Kept(t, end, id)
    decreases |rounds|
  {
    if rounds != [] {
      hide Invariant, Page, Continue, After;
      var n := After(t, rounds[0].steps);
      RunKeepsInvariant(t, rounds[0].steps);
      forall id | id in t.store.messages ensures Kept(t, n, id) {
        HistoryIsKept(t, rounds[0].steps, id);
      }
      PullKeeps(n, u, Continue(after, Page(n.store, u, after, rounds[0].limit)), rounds[1..]);
    }
  }

  /** A message saved after a page was loaded lies beyond that page. */
  lemma LaterIsBeyond(n: Trace, end: Trace, u: UserId, after: nat, limit: nat, id: MsgId)
    requires Invariant(n) && Invariant(end) && forall x :: x in n.store.messages ==> Kept(n, end, x)
    requires id !in n.store.messages && id in end.store.messages && end.store.messages[id].receiverId == u
    requires end.store.messages[id].notify.serverSeq > after
    ensures var page := Page(n.store, u, after, limit);
            !Receives(page, id) && end.store.messages[id].notify.serverSeq > Continue(after, page)
  {
    var page := Page(n.store, u, after, limit);
    PageIsFront(n, u, after, limit);
    forall m | m in page ensures m.notify.msgId != id && m.notify.serverSeq < end.store.messages[id].notify.serverSeq {
      EligibleExactly(n, u, after, m);
      assert Kept(n, end, m.notify.msgId);
    }
  }

  /** A message that could be returned is on the page or beyond it. */
  lemma OnPageOrBeyond(n: Trace, u: UserId, after: nat, limit: nat, id: MsgId)
    requires Invariant(n) && PendingFor(n, u, id) && Wanted(n.store.messages[id], after)
    ensures var page := Page(n.store, u, after, limit);
            && (Receives(page, id) <==> n.store.messages[id].notify.serverSeq <= Continue(after, page))
            && (|page| < Max(1, limit) ==> Receives(page, id))
  {
    var page := Page(n.store, u, after, limit);
    var m := n.store.messages[id];
    assert WellFormed(n.store, id);
    EligibleExactly(n, u, after, m);
    PageIsFront(n, u, after, limit);
    PageUpto(page, after);
    forall x | x in page && x.notify.msgId == id ensures x == m {
      EligibleExactly(n, u, after, x);
    }
  }

  /** However saves, acks and attempts fall between the pages: a message that stays eligible is pulled
      exactly if the cursor has reached it; by `PullIncreases`, once. */
  lemma {:induction false} PullReturns(t: Trace, u: UserId, after: nat, rounds: seq<Round>, id: MsgId)
    requires Invariant(t) && StaysEligible(t, u, rounds, id)
    requires var end := PullEnd(t, u, after, rounds).0.store;
             id in end.messages && end.messages[id].receiverId == u && end.messages[id].notify.serverSeq > after
    ensures Receives(Pull(t, u, after, rounds), id)
            <==> PullEnd(t, u, after, rounds).0.store.messages[id].notify.serverSeq <= PullEnd(t, u, after, rounds).1
    decreases |rounds|
  {
    if rounds != [] {
      hide Invariant, Page, Continue, After;
      var n := After(t, rounds[0].steps);
      var limit := rounds[0].limit;
      var page := Page(n.store, u, after, limit);
      var next := Continue(after, page);
      var end, cursor := PullEnd(t, u, after, rounds).0, PullEnd(t, u, after, rounds).1;
      RunKeepsInvariant(t, rounds[0].steps);
      PullKeeps(n, u, next, rounds[1..]);
      PullIncreases(n, u, next, rounds[1..]);
      if id !in n.store.messages {
        LaterIsBeyond(n, end, u, after, limit, id);
      } else {
        assert Kept(n, end, id);
        OnPageOrBeyond(n, u, after, limit, id);
      }
      var rest := Pull(n, u, next, rounds[1..]);
      assert Receives(page + rest, id) <==> Receives(page, id) || Receives(rest, id);
      if end.store.messages[id].notify.serverSeq > next {
        PullReturns(n, u, next, rounds[1..], id);
      }
    }
  }

  /** The last page had room to spare. */
  ghost predicate CaughtUp(t: Trace, u: UserId, after: nat, rounds: seq<Round>)
    decreases |rounds|
  {
    rounds != [] &&
    var n := After(t, rounds[0].steps);
    var page := Page(n.store, u, after, rounds[0].limit);
    if |rounds| == 1 then |page| < Max(1, rounds[0].limit) else CaughtUp(n, u, Continue(after, page), rounds[1..])
  }

  /** A client that pulls until a page has room to spare has received every message that stayed eligible. */
  lemma {:induction false} PullCatchesUp(t: Trace, u: UserId, after: nat, rounds: seq<Round>, id: MsgId)
    requires Invariant(t) && StaysEligible(t, u, rounds, id) && CaughtUp(t, u, after, rounds)
    requires var end := PullEnd(t, u, after, rounds).0.store;
             id in end.messages && end.messages[id].receiverId == u && end.messages[id].notify.serverSeq > after
    ensures Receives(Pull(t, u, after, rounds), id)
    decreases |rounds|
  {
    hide Invariant, Page, Continue, After;
    var n := After(t, rounds[0].steps);
    var limit := rounds[0].limit;
    var page := Page(n.store, u, after, limit);
    var next := Continue(after, page);
    var end := PullEnd(t, u, after, rounds).0;
    RunKeepsInvariant(t, rounds[0].steps);
    PullKeeps(n, u, next, rounds[1..]);
    if id !in n.store.messages {
      LaterIsBeyond(n, end, u, after, limit, id);
    } else {
      assert Kept(n, end, id);
      OnPageOrBeyond(n, u, after, limit, id);
    }
    var rest := Pull(n, u, next, rounds[1..]);
    assert Receives(page, id) || Receives(rest, id) ==> Receives(page + rest, id);
    if !Receives(page, id) {
      PullCatchesUp(n, u, next, rounds[1..], id);
    }
  }

  /** Continuing from nextBeginSeq itself would lose exactly the message that bears that number. */
  lemma NextBeginSkips(t: Trace, u: UserId, after: nat, limit: nat, m: StoredMessage)
    requires Invariant(t) && m in Eligible(t.store, u, after) && m !in Page(t.store, u, after, limit)
    ensures var page := Page(t.store, u, after, limit);
            && page != []
            && m in Eligible(t.store, u, Continue(after, page))
            && (m in Eligible(t.store, u, NextBegin(after, page)) <==> m.notify.serverSeq != NextBegin(after, page))
  {
    var page := Page(t.store, u, after, limit);
    PageIsFront(t, u, after, limit);
    EligibleExactly(t, u, after, m);
    EligibleExactly(t, u, Continue(after, page), m);
    EligibleExactly(t, u, NextBegin(after, page), m);
  }

  /** ... and there is such a message after the first of any two. */
  lemma NextBeginLosesSecond(from: UserId, u: UserId, at: int)
    ensures var r := Request(from, u, "", "", at);
            var s := After(START, [DoSave(r), DoSave(r)]).store;
            var first := Page(s, u, 0, 1);
            && Receives(first, 1) && Receives(Page(s, u, Continue(0, first), 1), 2)
            && Page(s, u, NextBegin(0, first), 1) == []
  {
    var r := Request(from, u, "", "", at);
    var one := Next(START, DoSave(r));
    var two := Next(one, DoSave(r));
    assert [DoSave(r), DoSave(r)][1..] == [DoSave(r)];
    assert After(one, [DoSave(r)]) == two;
    var s := two.store;
    assert PendingOf(s, u) == [1] + [2];
    var m, n := s.messages[1], s.messages[2];
    forall after: nat
      ensures Eligible(s, u, after) == (if after < 1 then [m] else []) + (if after < 2 then [n] else []) {
      SelectConcat(s.messages, [1], [2], after);
      SelectOne(s.messages, 1, after);
      SelectOne(s.messages, 2, after);
    }
    assert Page(s, u, 0, 1) == [m];
    assert MaxSeq(0, [m]) == 1;
    assert Eligible(s, u, 1) == [n] && Eligible(s, u, 2) == [];
  }
}
