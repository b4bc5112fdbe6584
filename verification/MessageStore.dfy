/** The in-memory message store: messages, per-user sequence cursors, per-user ack marks, the index of
    client message ids, and per-user pending lists. `Store` is the value of its five maps; the class
    updates them in place, one method for each critical section. */
module MessageStores {
  import opened Numbers

  type UserId = string
  type MsgId = nat

  datatype Status = Created | Persisted | Delivering | Delivered | Failed | Read

  datatype Notify = Notify(
    msgId: MsgId, serverSeq: nat, fromUserId: UserId, toUserId: UserId, clientMsgId: string, content: string,
    timestamp: int)

  datatype StoredMessage = StoredMessage(
    notify: Notify, status: Status, receiverId: UserId, createdAt: int, lastDeliverAt: int, ackedAt: int,
    retryCount: nat)

  datatype Request = Request(fromUserId: UserId, toUserId: UserId, clientMsgId: string, content: string, timestamp: int)

  datatype Error = NoError | MessageNotFound | ReceiverMismatch | ServerSeqMismatch

  datatype Store = Store(
    nextMsgId: MsgId, cursors: map<UserId, nat>, lastAcked: map<UserId, nat>, dedup: map<string, MsgId>,
    messages: map<MsgId, StoredMessage>, pending: map<UserId, seq<MsgId>>)

  const EMPTY: Store := Store(1, map[], map[], map[], map[], map[])

  const ACK_READ: nat := 1

  /** What a map of counters holds for a key: zero if nothing was stored. */
  function At(m: map<UserId, nat>, u: UserId): nat { if u in m then m[u] else 0 }

  function PendingOf(s: Store, u: UserId): seq<MsgId> { if u in s.pending then s.pending[u] else [] }

  function DedupKey(fromUserId: UserId, clientMsgId: string): string {
    if clientMsgId == "" then "" else fromUserId + "#" + clientMsgId
  }

  // ---------------------------------------------------------------- saving

  predicate IsDuplicate(s: Store, r: Request) {
    var key := DedupKey(r.fromUserId, r.clientMsgId);
    key != "" && key in s.dedup && s.dedup[key] in s.messages
  }

  function NewMessage(s: Store, r: Request): StoredMessage {
    var serverSeq := At(s.cursors, r.toUserId) + 1;
    var notify := Notify(s.nextMsgId, serverSeq, r.fromUserId, r.toUserId, r.clientMsgId, r.content, r.timestamp);
    StoredMessage(notify, Persisted, r.toUserId, r.timestamp, 0, 0, 0)
  }

  function Insert(s: Store, r: Request): Store {
    var key := DedupKey(r.fromUserId, r.clientMsgId);
    Store(
      s.nextMsgId + 1,
      s.cursors[r.toUserId := At(s.cursors, r.toUserId) + 1],
      s.lastAcked,
      if key != "" then s.dedup[key := s.nextMsgId] else s.dedup,
      s.messages[s.nextMsgId := NewMessage(s, r)],
      s.pending[r.toUserId := PendingOf(s, r.toUserId) + [s.nextMsgId]])
  }

  function Save(s: Store, r: Request): Store {
    if IsDuplicate(s, r) then s else Insert(s, r)
  }

  function SavedMessage(s: Store, r: Request): StoredMessage {
    if IsDuplicate(s, r) then s.messages[s.dedup[DedupKey(r.fromUserId, r.clientMsgId)]] else NewMessage(s, r)
  }

  // ---------------------------------------------------------------- attempts and acks

  function AttemptError(s: Store, receiver: UserId, id: MsgId): Error {
    if id !in s.messages then MessageNotFound
    else if s.messages[id].receiverId != receiver then ReceiverMismatch
    else NoError
  }

  function Attempt(s: Store, receiver: UserId, id: MsgId, status: Status, at: int, retryCount: nat): Store {
    if AttemptError(s, receiver, id) != NoError then s
    else
      var m := s.messages[id].(status := status, lastDeliverAt := at, retryCount := retryCount);
      s.(messages := s.messages[id := m])
  }

  function AckError(s: Store, receiver: UserId, id: MsgId, serverSeq: nat): Error {
    if id !in s.messages then MessageNotFound
    else if s.messages[id].receiverId != receiver then ReceiverMismatch
    else if s.messages[id].notify.serverSeq != serverSeq then ServerSeqMismatch
    else NoError
  }

  function Without(ids: seq<MsgId>, id: MsgId): seq<MsgId> {
    if ids == [] then [] else (if ids[0] == id then [] else [ids[0]]) + Without(ids[1..], id)
  }

  function Acked(m: StoredMessage, code: nat, at: int): StoredMessage {
    m.(ackedAt := at, status := if code == ACK_READ then Read else Delivered)
  }

  /** A refused ack still leaves a zero mark behind for a receiver that had none. */
  function Ack(s: Store, receiver: UserId, id: MsgId, serverSeq: nat, code: nat, at: int): Store {
    if AckError(s, receiver, id, serverSeq) != NoError then
      s.(lastAcked := s.lastAcked[receiver := At(s.lastAcked, receiver)])
    else s.(
      messages := s.messages[id := Acked(s.messages[id], code, at)],
      lastAcked := s.lastAcked[receiver := Max(At(s.lastAcked, receiver), serverSeq)],
      pending := s.pending[receiver := Without(PendingOf(s, receiver), id)])
  }

  // ---------------------------------------------------------------- loading

  predicate Wanted(m: StoredMessage, after: nat) {
    m.notify.serverSeq > after && m.status != Delivered && m.status != Read && m.status != Failed
  }

  function Select(messages: map<MsgId, StoredMessage>, ids: seq<MsgId>, after: nat): seq<StoredMessage> {
    if ids == [] then [] else
    var rest := Select(messages, ids[1..], after);
    if ids[0] in messages && Wanted(messages[ids[0]], after) then [messages[ids[0]]] + rest else rest
  }

  /** The pending messages of a user that a load above `after` may return. */
  function Eligible(s: Store, u: UserId, after: nat): seq<StoredMessage> {
    Select(s.messages, PendingOf(s, u), after)
  }

  /** A page holds the first `limit` of them; a limit of zero still yields one. */
  function Page(s: Store, u: UserId, after: nat, limit: nat): seq<StoredMessage> {
    var all := Eligible(s, u, after);
    if |all| <= Max(1, limit) then all else all[..Max(1, limit)]
  }

  function MaxSeq(after: nat, page: seq<StoredMessage>): nat {
    if page == [] then after else Max(MaxSeq(after, page[..|page| - 1]), page[|page| - 1].notify.serverSeq)
  }

  function NextBegin(after: nat, page: seq<StoredMessage>): nat {
    if page == [] then after else MaxSeq(after, page) + 1
  }

  lemma SelectSplit(messages: map<MsgId, StoredMessage>, ids: seq<MsgId>, i: nat, after: nat)
    requires i < |ids|
    ensures Select(messages, ids[..i + 1], after) == Select(messages, ids[..i], after) +
      if ids[i] in messages && Wanted(messages[ids[i]], after) then [messages[ids[i]]] else []
  {
    SelectConcat(messages, ids[..i], [ids[i]], after);
    assert ids[..i + 1] == ids[..i] + [ids[i]];
    SelectOne(messages, ids[i], after);
  }

  lemma SelectNone(messages: map<MsgId, StoredMessage>, after: nat)
    ensures Select(messages, [], after) == [] && MaxSeq(after, []) == after
  {
  }

  lemma SelectOne(messages: map<MsgId, StoredMessage>, id: MsgId, after: nat)
    ensures Select(messages, [id], after) ==
            if id in messages && Wanted(messages[id], after) then [messages[id]] else []
  {
    assert Select(messages, [id][1..], after) == [];
  }

  lemma WholePage(s: Store, u: UserId, after: nat, limit: nat)
    requires Eligible(s, u, after) == []
    ensures Page(s, u, after, limit) == []
  {
  }

  /** What is selected from the first `i` pending messages is the page, if that fills it or they are all. */
  lemma FrontPage(s: Store, u: UserId, after: nat, limit: nat, i: nat)
    requires i <= |PendingOf(s, u)|
    requires var part := Select(s.messages, PendingOf(s, u)[..i], after);
             |part| == Max(1, limit) || (i == |PendingOf(s, u)| && |part| < Max(1, limit))
    ensures Select(s.messages, PendingOf(s, u)[..i], after) == Page(s, u, after, limit)
  {
    hide Select;
    var ids := PendingOf(s, u);
    SelectConcat(s.messages, ids[..i], ids[i..], after);
    assert ids[..i] + ids[i..] == ids;
    assert i == |ids| ==> ids[..i] == ids;
  }

  lemma MaxSeqAppend(after: nat, page: seq<StoredMessage>, m: StoredMessage)
    ensures MaxSeq(after, page + [m]) == Max(MaxSeq(after, page), m.notify.serverSeq)
  {
    assert (page + [m])[..|page|] == page;
  }

  lemma {:induction false} SelectConcat(messages: map<MsgId, StoredMessage>, a: seq<MsgId>, b: seq<MsgId>, after: nat)
    ensures Select(messages, a + b, after) == Select(messages, a, after) + Select(messages, b, after)
  {
    if a == [] {
      assert a + b == b;
    } else {
      assert (a + b)[1..] == a[1..] + b;
      SelectConcat(messages, a[1..], b, after);
    }
  }

  // ---------------------------------------------------------------- the object

  class InMemoryMessageStore {
    var nextMsgId: MsgId
    var nextServerSeqByUser: map<UserId, nat>
    var lastAckedSeqByUser: map<UserId, nat>
    var clientMsgDedupIndex: map<string, MsgId>
    var messages: map<MsgId, StoredMessage>
    var pendingMsgIdsByUser: map<UserId, seq<MsgId>>

    function Value(): Store
      reads this
    {
      Store(nextMsgId, nextServerSeqByUser, lastAckedSeqByUser, clientMsgDedupIndex, messages, pendingMsgIdsByUser)
    }

    constructor ()
      ensures Value() == EMPTY
    {
      nextMsgId := 1;
      nextServerSeqByUser, lastAckedSeqByUser, clientMsgDedupIndex := map[], map[], map[];
      messages, pendingMsgIdsByUser := map[], map[];
    }

    method SaveMessageAndDelivery(r: Request) returns (message: StoredMessage, duplicate: bool)
      modifies this
      ensures Value() == Save(old(Value()), r)
      ensures message == SavedMessage(old(Value()), r) && duplicate == IsDuplicate(old(Value()), r)
    {
      var key := DedupKey(r.fromUserId, r.clientMsgId);
      if key != "" && key in clientMsgDedupIndex && clientMsgDedupIndex[key] in messages {
        return messages[clientMsgDedupIndex[key]], true;
      }
      var id := nextMsgId;
      nextMsgId := nextMsgId + 1;
      nextServerSeqByUser := nextServerSeqByUser[r.toUserId := At(nextServerSeqByUser, r.toUserId) + 1];
      var serverSeq := nextServerSeqByUser[r.toUserId];
      var notify := Notify(id, serverSeq, r.fromUserId, r.toUserId, r.clientMsgId, r.content, r.timestamp);
      message := StoredMessage(notify, Persisted, r.toUserId, r.timestamp, 0, 0, 0);
      messages := messages[id := message];
      var ids := if r.toUserId in pendingMsgIdsByUser then pendingMsgIdsByUser[r.toUserId] else [];
      pendingMsgIdsByUser := pendingMsgIdsByUser[r.toUserId := ids + [id]];
      if key != "" {
        clientMsgDedupIndex := clientMsgDedupIndex[key := id];
      }
      duplicate := false;
    }

    method MarkDeliveryAttempt(receiver: UserId, id: MsgId, status: Status, deliverAt: int, retryCount: nat)
      returns (error: Error)
      modifies this`messages
      ensures Value() == Attempt(old(Value()), receiver, id, status, deliverAt, retryCount)
      ensures error == AttemptError(old(Value()), receiver, id)
    {
      if id !in messages {
        return MessageNotFound;
      }
      if messages[id].receiverId != receiver {
        return ReceiverMismatch;
      }
      messages := messages[id := messages[id].(status := status, lastDeliverAt := deliverAt, retryCount := retryCount)];
      return NoError;
    }

    method MarkAcked(receiver: UserId, id: MsgId, serverSeq: nat, code: nat, ackedAt: int)
      returns (lastAckedSeq: nat, error: Error)
      modifies this`messages, this`lastAckedSeqByUser, this`pendingMsgIdsByUser
      ensures Value() == Ack(old(Value()), receiver, id, serverSeq, code, ackedAt)
      ensures error == AckError(old(Value()), receiver, id, serverSeq)
      ensures lastAckedSeq == At(Value().lastAcked, receiver)
    {
      lastAckedSeqByUser := lastAckedSeqByUser[receiver := At(lastAckedSeqByUser, receiver)];
      lastAckedSeq := lastAckedSeqByUser[receiver];
      if id !in messages {
        return lastAckedSeq, MessageNotFound;
      }
      var message := messages[id];
      if message.receiverId != receiver {
        return lastAckedSeq, ReceiverMismatch;
      }
      if message.notify.serverSeq != serverSeq {
        return lastAckedSeq, ServerSeqMismatch;
      }
      messages := messages[id := message.(ackedAt := ackedAt, status := if code == ACK_READ then Read else Delivered)];
      lastAckedSeqByUser := lastAckedSeqByUser[receiver := Max(lastAckedSeqByUser[receiver], serverSeq)];
      lastAckedSeq := lastAckedSeqByUser[receiver];
      var ids := if receiver in pendingMsgIdsByUser then pendingMsgIdsByUser[receiver] else [];
      pendingMsgIdsByUser := pendingMsgIdsByUser[receiver := Without(ids, id)];
      error := NoError;
    }

    method LoadPendingMessages(receiver: UserId, after: nat, limit: nat)
      returns (result: seq<StoredMessage>, nextBegin: nat)
      ensures result == Page(Value(), receiver, after, limit)
      ensures nextBegin == NextBegin(after, result)
    {
      hide Select, MaxSeq, Page, Wanted;
      result, nextBegin := [], after;
      SelectNone(messages, after);
      if receiver !in pendingMsgIdsByUser {
        WholePage(Value(), receiver, after, limit);
        return;
      }
      var ids := pendingMsgIdsByUser[receiver];
      var i := 0;
      while i < |ids|
        invariant 0 <= i <= |ids|
        invariant result == Select(messages, ids[..i], after) && |result| < Max(1, limit)
        invariant nextBegin == MaxSeq(after, result)
      {
        SelectSplit(messages, ids, i, after);
        var id := ids[i];
        i := i + 1;
        if id in messages && Wanted(messages[id], after) {
          MaxSeqAppend(after, result, messages[id]);
          result := result + [messages[id]];
          nextBegin := Max(nextBegin, messages[id].notify.serverSeq);
          if |result| >= limit {
            break;
          }
        }
      }
      FrontPage(Value(), receiver, after, limit, i);
      if result != [] {
        nextBegin := nextBegin + 1;
      }
    }

    method GetLastAckedSeq(receiver: UserId) returns (r: nat)
      ensures r == At(Value().lastAcked, receiver)
    {
      r := if receiver in lastAckedSeqByUser then lastAckedSeqByUser[receiver] else 0;
    }
  }

  // ---------------------------------------------------------------- dedup keys

  /** The one way two different (sender, client id) pairs share a key: one sender's id continues the
      other's after a '#', by exactly what the other's client id starts with. */
  ghost predicate Overlaps(f: UserId, c: string, g: UserId, d: string) {
    exists x: string :: g == f + "#" + x && c == x + "#" + d
  }

  lemma LongerSender(f: UserId, c: string, g: UserId, d: string)
    requires f + "#" + c == g + "#" + d && |f| < |g|
    ensures Overlaps(f, c, g, d)
  {
    var k := f + "#" + c;
    var x := g[|f| + 1..];
    assert g == k[..|g|];
    assert k[..|f| + 1] == f + "#";
    assert g == f + "#" + x;
    assert c == k[|f| + 1..] == x + "#" + d;
  }

  lemma OverlapSharesKey(f: UserId, c: string, g: UserId, d: string)
    requires Overlaps(f, c, g, d)
    ensures f + "#" + c == g + "#" + d
  {
    var x: string :| g == f + "#" + x && c == x + "#" + d;
    assert f + "#" + (x + "#" + d) == (f + "#" + x) + "#" + d;
  }

  /** Exactly when two saves with a client id share a dedup key. */
  lemma SameKeyExactlyIf(f: UserId, c: string, g: UserId, d: string)
    requires c != "" && d != ""
    ensures DedupKey(f, c) == DedupKey(g, d) <==> (f == g && c == d) || Overlaps(f, c, g, d) || Overlaps(g, d, f, c)
  {
    var k, l := f + "#" + c, g + "#" + d;
    if k == l {
      if |f| < |g| {
        LongerSender(f, c, g, d);
      } else if |g| < |f| {
        LongerSender(g, d, f, c);
      } else {
        assert f == k[..|f|] && g == l[..|g|] && c == k[|f| + 1..] && d == l[|g| + 1..];
      }
    }
    if Overlaps(f, c, g, d) {
      OverlapSharesKey(f, c, g, d);
    }
    if Overlaps(g, d, f, c) {
      OverlapSharesKey(g, d, f, c);
    }
  }

  /** Senders without a '#' never share a key with anybody else's such message. */
  lemma PlainSendersKeepApart(f: UserId, c: string, g: UserId, d: string)
    requires c != "" && d != "" && '#' !in f && '#' !in g
    ensures DedupKey(f, c) == DedupKey(g, d) <==> f == g && c == d
  {
    SameKeyExactlyIf(f, c, g, d);
    forall x: string, h: UserId ensures '#' in h + "#" + x {
      assert (h + "#" + x)[|h|] == '#';
    }
  }

  /** Two different users with a '#' in an id do collide. */
  lemma SendersWithHashCollide()
    ensures DedupKey("a#b", "c") == DedupKey("a", "b#c")
  {
    OverlapSharesKey("a", "b#c", "a#b", "c") by {
      assert "a#b" == "a" + "#" + "b" && "b#c" == "b" + "#" + "c";
    }
  }
}
