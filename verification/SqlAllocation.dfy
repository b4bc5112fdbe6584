/** How the database-backed store allocates message ids and per-receiver sequence numbers: counters in
    memory, primed from the table, ahead of a transaction that may fail at any point, in a process that
    may be restarted at any time. */
module SqlAllocation {

  import opened Numbers

  type UserId = string

  /** What allocation needs of a request, and of a committed message with its delivery. */
  datatype Request = Request(sender: UserId, clientMsgId: string, receiver: UserId)

  datatype Row = Row(id: nat, sender: UserId, clientMsgId: string, receiver: UserId, serverSeq: nat)

  /** How the transaction goes. A commit whose reply is lost may or may not have been applied. */
  datatype Outcome = BeginFails | InsertFails | CommitFails(applied: bool) | Commits

  /** The table in commit order, and the process's counters. */
  datatype Db = Db(rows: seq<Row>, nextMsgId: nat, cursors: map<UserId, nat>)

  function MaxId(rows: seq<Row>): nat {
    if rows == [] then 0 else Max(MaxId(rows[..|rows| - 1]), rows[|rows| - 1].id)
  }

  function MaxSeq(rows: seq<Row>, u: UserId): nat {
    if rows == [] then 0
    else
      var last, rest := rows[|rows| - 1], MaxSeq(rows[..|rows| - 1], u);
      if last.receiver == u then Max(rest, last.serverSeq) else rest
  }

  predicate Used(rows: seq<Row>, u: UserId, q: nat) {
    exists i :: 0 <= i < |rows| && rows[i].receiver == u && rows[i].serverSeq == q
  }

  predicate KeyUsed(rows: seq<Row>, sender: UserId, clientMsgId: string) {
    exists i :: 0 <= i < |rows| && rows[i].sender == sender && rows[i].clientMsgId == clientMsgId
  }

  /** The schema's keys: the message id; sender and client id; receiver and sequence number. */
  predicate Unique(rows: seq<Row>, r: Row) {
    && (forall i :: 0 <= i < |rows| ==> rows[i].id != r.id)
    && !KeyUsed(rows, r.sender, r.clientMsgId) && !Used(rows, r.receiver, r.serverSeq)
  }

  function Restarted(rows: seq<Row>): Db { Db(rows, MaxId(rows) + 1, map[]) }

  /** A message with this sender and client id was committed for this receiver. */
  predicate IsDuplicate(rows: seq<Row>, q: Request) {
    && q.clientMsgId != ""
    && exists i :: 0 <= i < |rows| && rows[i].sender == q.sender && rows[i].clientMsgId == q.clientMsgId
         && rows[i].receiver == q.receiver
  }

  /** Without a client id nothing is looked up, so the lookup cannot fail. */
  predicate LookupFails(q: Request, lookupOk: bool) { q.clientMsgId != "" && !lookupOk }

  /** The cursor as a save finds it: primed from the table at first use; a failed query leaves zero. */
  function Primed(s: Db, u: UserId, queryOk: bool): Db {
    if u in s.cursors then s else s.(cursors := s.cursors[u := if queryOk then MaxSeq(s.rows, u) else 0])
  }

  predicate PrimingFails(s: Db, u: UserId, queryOk: bool) { u !in s.cursors && !queryOk }

  predicate Applied(outcome: Outcome) { outcome.Commits? || (outcome.CommitFails? && outcome.applied) }

  /** Id and sequence number are taken whether or not the transaction then succeeds. */
  function Allocate(s: Db, q: Request, outcome: Outcome): Db
    requires q.receiver in s.cursors
  {
    var number := s.cursors[q.receiver] + 1;
    var row := Row(s.nextMsgId, q.sender, q.clientMsgId, q.receiver, number);
    Db(if Applied(outcome) && Unique(s.rows, row) then s.rows + [row] else s.rows,
       s.nextMsgId + 1, s.cursors[q.receiver := number])
  }

  datatype Step = Restart | Save(request: Request, lookupOk: bool, queryOk: bool, outcome: Outcome)

  /** The save asks for the receiver's largest number and gets no answer. */
  predicate QueryFails(s: Db, step: Step) {
    && step.Save? && !LookupFails(step.request, step.lookupOk) && !IsDuplicate(s.rows, step.request)
    && PrimingFails(s, step.request.receiver, step.queryOk)
  }

  function Next(s: Db, step: Step): Db {
    match step
    case Restart => Restarted(s.rows)
    case Save(q, lookupOk, queryOk, outcome) =>
      if LookupFails(q, lookupOk) || IsDuplicate(s.rows, q) then s
      else if PrimingFails(s, q.receiver, queryOk) then Primed(s, q.receiver, queryOk)
      else Allocate(Primed(s, q.receiver, queryOk), q, outcome)
  }

  function After(s: Db, steps: seq<Step>): Db
    decreases |steps|
  {
    if steps == [] then s else After(Next(s, steps[0]), steps[1..])
  }

  // ---------------------------------------------------------------- the object

  datatype SaveResult = Saved(id: nat, serverSeq: nat) | Duplicate | Error

  class MySqlMessageStore {
    var rows: seq<Row>
    var nextMsgId: nat
    var nextServerSeqByUser: map<UserId, nat>

    function Value(): Db
      reads this
    {
      Db(rows, nextMsgId, nextServerSeqByUser)
    }

    /** A new process on an existing table, after a successful init(). */
    constructor (table: seq<Row>)
      ensures Value() == Restarted(table)
    {
      rows, nextMsgId, nextServerSeqByUser := table, MaxId(table) + 1, map[];
    }

    method EnsureServerSeqCursor(receiver: UserId, queryOk: bool) returns (ok: bool)
      modifies this`nextServerSeqByUser
      ensures Value() == Primed(old(Value()), receiver, queryOk)
      ensures ok == !PrimingFails(old(Value()), receiver, queryOk)
    {
      if receiver in nextServerSeqByUser {
        return true;
      }
      nextServerSeqByUser := nextServerSeqByUser[receiver := if queryOk then MaxSeq(rows, receiver) else 0];
      ok := queryOk;
    }

    method SaveMessageAndDelivery(q: Request, lookupOk: bool, queryOk: bool, outcome: Outcome) returns (r: SaveResult)
      modifies this
      ensures Value() == Next(old(Value()), Save(q, lookupOk, queryOk, outcome))
      ensures r.Duplicate? <==> !LookupFails(q, lookupOk) && IsDuplicate(old(rows), q)
      ensures r.Saved? ==> rows == old(rows) + [Row(r.id, q.sender, q.clientMsgId, q.receiver, r.serverSeq)]
      ensures outcome.Commits? && rows != old(rows) ==> r.Saved?
    {
      if LookupFails(q, lookupOk) {
        return Error;
      }
      if IsDuplicate(rows, q) {
        return Duplicate;
      }
      var primed := EnsureServerSeqCursor(q.receiver, queryOk);
      if !primed {
        return Error;
      }
      var id := nextMsgId;
      nextMsgId := nextMsgId + 1;
      nextServerSeqByUser := nextServerSeqByUser[q.receiver := nextServerSeqByUser[q.receiver] + 1];
      var row := Row(id, q.sender, q.clientMsgId, q.receiver, nextServerSeqByUser[q.receiver]);
      if outcome.BeginFails? {
        return Error;
      }
      if outcome.InsertFails? || !Unique(rows, row) {
        return Error;
      }
      if outcome.Commits? || outcome.applied {
        rows := rows + [row];
      }
      r := if outcome.Commits? then Saved(id, row.serverSeq) else Error;
    }
  }

  // ---------------------------------------------------------------- order of commits

  /** Committed ids, and each receiver's committed sequence numbers, strictly increase in commit order. */
  ghost predicate InCommitOrder(rows: seq<Row>) {
    forall i, j :: 0 <= i < j < |rows| ==>
      rows[i].id < rows[j].id && (rows[i].receiver == rows[j].receiver ==> rows[i].serverSeq < rows[j].serverSeq)
  }

  /** Every number above the cursor, up to the largest in the table, is taken. */
  ghost predicate NoHole(s: Db, u: UserId, cursor: nat) {
    forall q :: cursor < q <= MaxSeq(s.rows, u) ==> Used(s.rows, u, q)
  }

  /** All of 1 to the receiver's largest number is in the table. */
  ghost predicate Gapless(rows: seq<Row>, u: UserId) {
    forall q :: 0 < q <= MaxSeq(rows, u) ==> Used(rows, u, q)
  }

  ghost predicate Sound(s: Db) {
    && InCommitOrder(s.rows)
    && (forall i :: 0 <= i < |s.rows| ==> s.rows[i].id < s.nextMsgId)
    && (forall u :: u in s.cursors ==> NoHole(s, u, s.cursors[u]))
  }

  lemma {:induction false} MaxSeqBounds(rows: seq<Row>, u: UserId)
    ensures forall i :: 0 <= i < |rows| && rows[i].receiver == u ==> rows[i].serverSeq <= MaxSeq(rows, u)
  {
    if rows != [] {
      MaxSeqBounds(rows[..|rows| - 1], u);
    }
  }

  lemma {:induction false} MaxIdBounds(rows: seq<Row>)
    ensures forall i :: 0 <= i < |rows| ==> rows[i].id <= MaxId(rows)
  {
    if rows != [] {
      MaxIdBounds(rows[..|rows| - 1]);
    }
  }

  lemma MaxSeqAppend(rows: seq<Row>, r: Row, u: UserId)
    ensures MaxSeq(rows + [r], u) == if r.receiver == u then Max(MaxSeq(rows, u), r.serverSeq) else MaxSeq(rows, u)
  {
    assert (rows + [r])[..|rows|] == rows;
  }

  lemma UsedAppend(rows: seq<Row>, r: Row, u: UserId, q: nat)
    requires Used(rows, u, q)
    ensures Used(rows + [r], u, q)
  {
    var i :| 0 <= i < |rows| && rows[i].receiver == u && rows[i].serverSeq == q;
    assert (rows + [r])[i] == rows[i];
  }

  lemma AllocateKeeps(s: Db, q: Request, outcome: Outcome)
    requires Sound(s) && q.receiver in s.cursors
    ensures Sound(Allocate(s, q, outcome))
  {
    var u := q.receiver;
    var row := Row(s.nextMsgId, q.sender, q.clientMsgId, u, s.cursors[u] + 1);
    var n := Allocate(s, q, outcome);
    assert NoHole(s, u, s.cursors[u]);
    if n.rows != s.rows {
      assert row.serverSeq > MaxSeq(s.rows, u);
      MaxSeqBounds(s.rows, u);
    }
    forall w | w in n.cursors ensures NoHole(n, w, n.cursors[w]) {
      assert NoHole(s, w, s.cursors[w]);
      if n.rows != s.rows {
        MaxSeqAppend(s.rows, row, w);
        forall k | n.cursors[w] < k <= MaxSeq(n.rows, w) ensures Used(n.rows, w, k) {
          UsedAppend(s.rows, row, w, k);
        }
      }
    }
  }

  /** A failed query is harmless while the receiver's numbers have no gap. */
  ghost predicate Harmless(s: Db, step: Step) {
    QueryFails(s, step) ==> Gapless(s.rows, step.request.receiver)
  }

  ghost predicate AllHarmless(s: Db, steps: seq<Step>)
    decreases |steps|
  {
    steps == [] || (Harmless(s, steps[0]) && AllHarmless(Next(s, steps[0]), steps[1..]))
  }

  lemma StepKeeps(s: Db, step: Step)
    requires Sound(s) && Harmless(s, step)
    ensures Sound(Next(s, step))
  {
    match step
    case Restart => MaxIdBounds(s.rows);
    case Save(q, lookupOk, queryOk, outcome) =>
      if !LookupFails(q, lookupOk) && !IsDuplicate(s.rows, q) {
        var p := Primed(s, q.receiver, queryOk);
        forall w | w in p.cursors ensures NoHole(p, w, p.cursors[w]) {
          assert w in s.cursors ==> NoHole(s, w, s.cursors[w]);
        }
        if !PrimingFails(s, q.receiver, queryOk) {
          AllocateKeeps(p, q, outcome);
        }
      }
  }

  lemma {:induction false} RunKeeps(s: Db, steps: seq<Step>)
    requires Sound(s) && AllHarmless(s, steps)
    ensures Sound(After(s, steps))
    decreases |steps|
  {
    hide Sound, Harmless, Next;
    if steps != [] {
      StepKeeps(s, steps[0]);
      RunKeeps(Next(s, steps[0]), steps[1..]);
    }
  }

  ghost predicate QueriesOk(steps: seq<Step>) {
    forall step :: step in steps && step.Save? ==> step.queryOk
  }

  lemma {:induction false} QueriesOkAreHarmless(s: Db, steps: seq<Step>)
    requires QueriesOk(steps)
    ensures AllHarmless(s, steps)
    decreases |steps|
  {
    if steps != [] {
      QueriesOkAreHarmless(Next(s, steps[0]), steps[1..]);
    }
  }

  /** Over any saves, failures and restarts with successful queries, on any table that was in order,
      ids and sequence numbers are committed in strictly increasing order. */
  lemma CommittedInOrder(table: seq<Row>, steps: seq<Step>)
    requires InCommitOrder(table) && QueriesOk(steps)
    ensures InCommitOrder(After(Restarted(table), steps).rows)
  {
    MaxIdBounds(table);
    QueriesOkAreHarmless(Restarted(table), steps);
    RunKeeps(Restarted(table), steps);
  }

  // ---------------------------------------------------------------- a failed query

  lemma {:induction false} MaxSeqIsUsed(rows: seq<Row>, u: UserId)
    ensures MaxSeq(rows, u) > 0 ==> Used(rows, u, MaxSeq(rows, u))
  {
    if rows != [] {
      var front := rows[..|rows| - 1];
      MaxSeqIsUsed(front, u);
      assert rows == front + [rows[|rows| - 1]];
      if MaxSeq(rows, u) > 0 {
        if MaxSeq(rows, u) == MaxSeq(front, u) {
          UsedAppend(front, rows[|rows| - 1], u, MaxSeq(front, u));
        } else {
          assert rows[|rows| - 1].receiver == u && rows[|rows| - 1].serverSeq == MaxSeq(rows, u);
        }
      }
    }
  }

  /** A client id that no row has. */
  function Longer(rows: seq<Row>): string {
    if rows == [] then "x" else Longer(rows[1..]) + rows[0].clientMsgId
  }

  lemma {:induction false} LongerIsNew(rows: seq<Row>)
    ensures Longer(rows) != "" && forall i :: 0 <= i < |rows| ==> |rows[i].clientMsgId| < |Longer(rows)|
  {
    if rows != [] {
      LongerIsNew(rows[1..]);
      assert forall i :: 1 <= i < |rows| ==> rows[i] == rows[1..][i - 1];
    }
  }

  /** From a cursor below an unused number, saves of a message nobody has sent get there. */
  lemma {:induction false} FillHole(s: Db, q: Request, k: nat) returns (steps: seq<Step>)
    requires q.receiver in s.cursors && s.cursors[q.receiver] < k && !Used(s.rows, q.receiver, k)
    requires !KeyUsed(s.rows, q.sender, q.clientMsgId)
    requires forall i :: 0 <= i < |s.rows| ==> s.rows[i].id < s.nextMsgId
    ensures QueriesOk(steps)
    ensures var rows := After(s, steps).rows;
            && |rows| == |s.rows| + 1 && rows[..|s.rows|] == s.rows
            && rows[|s.rows|].receiver == q.receiver && rows[|s.rows|].serverSeq == k
    decreases k - s.cursors[q.receiver]
  {
    assert !IsDuplicate(s.rows, q);
    if s.cursors[q.receiver] + 1 == k {
      steps := [Save(q, true, true, Commits)];
      assert After(s, steps) == Next(s, steps[0]);
    } else {
      var first := Save(q, true, true, InsertFails);
      var rest := FillHole(Next(s, first), q, k);
      steps := [first] + rest;
      assert steps[1..] == rest;
    }
  }

  /** After a failed query for a receiver the order is safe, whatever saves and restarts follow, exactly if
      its committed numbers have no gap: the unique key then refuses every reused number. */
  lemma FailedQuerySafeExactlyIf(s: Db, step: Step)
    requires Sound(s) && QueryFails(s, step)
    ensures var n := Next(s, step);
            (forall steps :: QueriesOk(steps) ==> InCommitOrder(After(n, steps).rows))
            <==> Gapless(s.rows, step.request.receiver)
  {
    var n, u := Next(s, step), step.request.receiver;
    if Gapless(s.rows, u) {
      StepKeeps(s, step);
      forall steps | QueriesOk(steps) ensures InCommitOrder(After(n, steps).rows) {
        QueriesOkAreHarmless(n, steps);
        RunKeeps(n, steps);
      }
    } else {
      var k :| 0 < k <= MaxSeq(s.rows, u) && !Used(s.rows, u, k);
      LongerIsNew(s.rows);
      var steps := FillHole(n, Request("", Longer(s.rows), u), k);
      OutOfOrder(s.rows, u, k, After(n, steps).rows);
    }
  }

  lemma OutOfOrder(rows: seq<Row>, u: UserId, k: nat, longer: seq<Row>)
    requires 0 < k <= MaxSeq(rows, u) && !Used(rows, u, k)
    requires |longer| == |rows| + 1 && longer[..|rows|] == rows
    requires longer[|rows|].receiver == u && longer[|rows|].serverSeq == k
    ensures !InCommitOrder(longer)
  {
    MaxSeqIsUsed(rows, u);
    var i :| 0 <= i < |rows| && rows[i].receiver == u && rows[i].serverSeq == MaxSeq(rows, u);
    assert longer[i] == longer[..|rows|][i] == rows[i];
  }

  lemma ThreeSteps(s: Db, a: Step, b: Step, c: Step)
    ensures After(s, [a, b, c]) == Next(Next(Next(s, a), b), c)
  {
    hide Next;
    assert [a, b, c][1..] == [b, c] && [b, c][1..] == [c] && [c][1..] == [];
    assert After(Next(s, a), [b, c]) == After(Next(Next(s, a), b), [c]);
  }

  lemma OneRow(r: Row)
    ensures MaxSeq([], r.receiver) == 0 && MaxSeq([r], r.receiver) == r.serverSeq && MaxId([r]) == r.id
    ensures forall k :: Used([r], r.receiver, k) ==> k == r.serverSeq
  {
    var rows := [r];
    assert rows[..0] == [];
  }

  lemma AfterFailedInsert(q: Request)
    ensures Next(Restarted([]), Save(q, true, true, InsertFails)) == Db([], 2, map[q.receiver := 1])
  {
    OneRow(Row(1, q.sender, q.clientMsgId, q.receiver, 1));
  }

  lemma AfterCommit(q: Request)
    ensures Next(Db([], 2, map[q.receiver := 1]), Save(q, true, true, Commits)).rows
            == [Row(2, q.sender, q.clientMsgId, q.receiver, 2)]
  {
  }

  /** Such a gap is left by any failed insert and a commit after it. */
  lemma FailedInsertLeavesGap(q: Request)
    ensures var row := Row(2, q.sender, q.clientMsgId, q.receiver, 2);
            var steps := [Save(q, true, true, InsertFails), Save(q, true, true, Commits), Restart];
            && After(Restarted([]), steps) == Restarted([row])
            && Sound(Restarted([row])) && !Gapless([row], q.receiver)
  {
    var row := Row(2, q.sender, q.clientMsgId, q.receiver, 2);
    ThreeSteps(Restarted([]), Save(q, true, true, InsertFails), Save(q, true, true, Commits), Restart);
    hide After;
    AfterFailedInsert(q);
    AfterCommit(q);
    OneRow(row);
    assert !Used([row], q.receiver, 1);
  }

  // ---------------------------------------------------------------- one message for each client id

  /** No two committed messages have the same sender and client id. */
  ghost predicate KeysDiffer(rows: seq<Row>) {
    forall i, j :: 0 <= i < j < |rows| ==>
      rows[i].sender != rows[j].sender || rows[i].clientMsgId != rows[j].clientMsgId
  }

  /** Whatever fails, each pair of sender and client id is committed at most once, and what is committed
      stays. */
  lemma {:induction false} CommittedOnce(s: Db, steps: seq<Step>)
    requires KeysDiffer(s.rows)
    ensures KeysDiffer(After(s, steps).rows) && s.rows <= After(s, steps).rows
    decreases |steps|
  {
    if steps != [] {
      var n := Next(s, steps[0]);
      assert KeysDiffer(n.rows) && s.rows <= n.rows;
      CommittedOnce(n, steps[1..]);
    }
  }

  /** So a committed message with a client id is found again by every later save of it, after any failures
      and restarts, and that save changes nothing; without a client id the sender's next message is never
      committed, since the key of sender and empty id is taken, though its numbers are used up. */
  lemma SavedAgain(s: Db, steps: seq<Step>, i: nat, q: Request, queryOk: bool, outcome: Outcome)
    requires KeysDiffer(s.rows)
    requires i < |s.rows| && s.rows[i].sender == q.sender && s.rows[i].clientMsgId == q.clientMsgId
    ensures var n := After(s, steps);
            && Next(n, Save(q, true, queryOk, outcome)).rows == n.rows
            && (q.clientMsgId != "" && s.rows[i].receiver == q.receiver ==>
                  Next(n, Save(q, true, queryOk, outcome)) == n)
  {
    CommittedOnce(s, steps);
    var rows := After(s, steps).rows;
    assert rows[i] == s.rows[i];
    assert KeyUsed(rows, q.sender, q.clientMsgId);
  }

  // ---------------------------------------------------------------- when a save is committed

  ghost predicate IdsBelow(s: Db) {
    forall i :: 0 <= i < |s.rows| ==> s.rows[i].id < s.nextMsgId
  }

  lemma {:induction false} IdsStayBelow(s: Db, steps: seq<Step>)
    requires IdsBelow(s)
    ensures IdsBelow(After(s, steps))
    decreases |steps|
  {
    if steps != [] {
      MaxIdBounds(s.rows);
      IdsStayBelow(Next(s, steps[0]), steps[1..]);
    }
  }

  lemma RestartedBelow(table: seq<Row>)
    ensures IdsBelow(Restarted(table))
  {
    MaxIdBounds(table);
  }

  /** The number the next save for `u` will take. */
  function NextNumber(s: Db, u: UserId): nat { (if u in s.cursors then s.cursors[u] else MaxSeq(s.rows, u)) + 1 }

  /** A save whose queries and transaction succeed is committed, after any earlier failures and restarts on
      any table, exactly if neither its sender and client id nor the receiver's next number is taken. */
  lemma CommitsExactlyIf(table: seq<Row>, steps: seq<Step>, q: Request)
    ensures var s := After(Restarted(table), steps);
            Next(s, Save(q, true, true, Commits)).rows != s.rows
            <==> !KeyUsed(s.rows, q.sender, q.clientMsgId) && !Used(s.rows, q.receiver, NextNumber(s, q.receiver))
  {
    hide Next, After, Restarted, IdsBelow, Used, KeyUsed;
    var s := After(Restarted(table), steps);
    RestartedBelow(table);
    IdsStayBelow(Restarted(table), steps);
    CommitsFrom(s, q);
  }

  lemma CommitsFrom(s: Db, q: Request)
    requires IdsBelow(s)
    ensures Next(s, Save(q, true, true, Commits)).rows != s.rows
            <==> !KeyUsed(s.rows, q.sender, q.clientMsgId) && !Used(s.rows, q.receiver, NextNumber(s, q.receiver))
  {
    hide MaxSeq, Used;
    if IsDuplicate(s.rows, q) {
      assert KeyUsed(s.rows, q.sender, q.clientMsgId);
    } else {
      hide KeyUsed, IsDuplicate;
      var row := Row(s.nextMsgId, q.sender, q.clientMsgId, q.receiver, NextNumber(s, q.receiver));
      assert |s.rows + [row]| != |s.rows|;
    }
  }

  /** No primed cursor lags behind the table. */
  ghost predicate CursorsLead(s: Db) {
    forall u :: u in s.cursors ==> MaxSeq(s.rows, u) <= s.cursors[u]
  }

  lemma StepLeads(s: Db, step: Step)
    requires CursorsLead(s) && (step.Save? ==> step.queryOk)
    ensures CursorsLead(Next(s, step))
  {
    var n := Next(s, step);
    if n.rows != s.rows {
      var row := n.rows[|s.rows|];
      assert n.rows == s.rows + [row];
      forall u | u in n.cursors ensures MaxSeq(n.rows, u) <= n.cursors[u] {
        MaxSeqAppend(s.rows, row, u);
      }
    }
  }

  lemma {:induction false} RunLeads(s: Db, steps: seq<Step>)
    requires CursorsLead(s) && QueriesOk(steps)
    ensures CursorsLead(After(s, steps))
    decreases |steps|
  {
    hide CursorsLead, Next;
    if steps != [] {
      StepLeads(s, steps[0]);
      RunLeads(Next(s, steps[0]), steps[1..]);
    }
  }

  /** If no earlier query failed: exactly if the sender has not used this client id, or none, before. */
  lemma CommitsExactlyIfKeyIsNew(table: seq<Row>, steps: seq<Step>, q: Request)
    requires QueriesOk(steps)
    ensures var s := After(Restarted(table), steps);
            Next(s, Save(q, true, true, Commits)).rows != s.rows <==> !KeyUsed(s.rows, q.sender, q.clientMsgId)
  {
    var s := After(Restarted(table), steps);
    CommitsExactlyIf(table, steps, q);
    RunLeads(Restarted(table), steps);
    hide Next, After, KeyUsed, MaxSeq;
    MaxSeqBounds(s.rows, q.receiver);
  }

  // ---------------------------------------------------------------- which numbers a save gets

  lemma {:induction false} MaxIdIsUsed(rows: seq<Row>)
    ensures MaxId(rows) > 0 ==> exists i :: 0 <= i < |rows| && rows[i].id == MaxId(rows)
  {
    if rows != [] {
      var front := rows[..|rows| - 1];
      MaxIdIsUsed(front);
      if MaxId(rows) == MaxId(front) && MaxId(rows) > 0 {
        var i :| 0 <= i < |front| && front[i].id == MaxId(front);
        assert rows[i].id == MaxId(rows);
      } else {
        assert rows[|rows| - 1].id == MaxId(rows);
      }
    }
  }

  /** The first save after a restart that commits gets an id one above the largest in the table, and a number
      one above its receiver's largest: no number is skipped and none is used twice. */
  lemma FirstAfterRestart(table: seq<Row>, q: Request)
    requires !KeyUsed(table, q.sender, q.clientMsgId)
    ensures var rows := Next(Restarted(table), Save(q, true, true, Commits)).rows;
            && |rows| == |table| + 1 && rows[..|table|] == table
            && var row := rows[|table|];
            && row.sender == q.sender && row.clientMsgId == q.clientMsgId && row.receiver == q.receiver
            && (forall i :: 0 <= i < |table| ==> table[i].id < row.id)
            && (row.id == 1 || exists i :: 0 <= i < |table| && table[i].id == row.id - 1)
            && (forall i :: 0 <= i < |table| && table[i].receiver == q.receiver ==> table[i].serverSeq < row.serverSeq)
            && (row.serverSeq == 1 ||
                Used(table, q.receiver, row.serverSeq - 1))
  {
    MaxIdBounds(table);
    MaxIdIsUsed(table);
    MaxSeqBounds(table, q.receiver);
    MaxSeqIsUsed(table, q.receiver);
    hide MaxId, MaxSeq;
    assert !IsDuplicate(table, q);
    assert !Used(table, q.receiver, MaxSeq(table, q.receiver) + 1);
  }

  /** A save that is answered from the table, or whose lookup fails, changes nothing. Any other either fails to
      prime the receiver's cursor, or uses up exactly one id and one of the receiver's numbers, whatever becomes
      of its transaction; it adds at most its own row, and none if the transaction fails before its commit. A
      commit that is applied though its reply is lost adds the row as any other. */
  lemma SaveUsesUp(s: Db, q: Request, lookupOk: bool, queryOk: bool, outcome: Outcome)
    ensures var n := Next(s, Save(q, lookupOk, queryOk, outcome));
            var committed := exists i :: && 0 <= i < |s.rows| && s.rows[i].sender == q.sender
                                         && s.rows[i].clientMsgId == q.clientMsgId && s.rows[i].receiver == q.receiver;
            if q.clientMsgId != "" && (!lookupOk || committed) then n == s
            else if q.receiver !in s.cursors && !queryOk then
              n.rows == s.rows && n.nextMsgId == s.nextMsgId && n.cursors == s.cursors[q.receiver := 0]
            else
              var number := (if q.receiver in s.cursors then s.cursors[q.receiver] else MaxSeq(s.rows, q.receiver)) + 1;
              && n.nextMsgId == s.nextMsgId + 1 && n.cursors == s.cursors[q.receiver := number]
              && (n.rows == s.rows ||
                  n.rows == s.rows + [Row(s.nextMsgId, q.sender, q.clientMsgId, q.receiver, number)])
              && (outcome == BeginFails || outcome == InsertFails || outcome == CommitFails(false) ==> n.rows == s.rows)
    ensures Next(s, Save(q, lookupOk, queryOk, CommitFails(true))) == Next(s, Save(q, lookupOk, queryOk, Commits))
  {
    hide MaxSeq;
  }
}
