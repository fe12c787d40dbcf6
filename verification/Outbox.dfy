/**
 * The transactional outbox and its relays.
 *
 * `rows` is the committed table. Any number of relays run at once; each holds at most
 * one transaction whose updates stay private in `writes` until Commit. Publishing
 * happens outside the database, so a step of the bus can never be rolled back.
 *
 * Assumptions about the database, stated here once:
 *  - event_order is unique, and a row becomes visible only with an order above every
 *    visible row of its aggregate (guards of Insert);
 *  - the locking select is one atomic step on committed state (Select);
 *  - now() is the start of the transaction (`began`).
 */
module Outbox {
  import opened Prelude
  import opened Runs

  type Id = nat
  type RelayId = nat

  const MAX_ATTEMPTS := 5
  const BATCH_LIMIT := 50

  /**
   * One outbox row. `failed` says last_error IS NOT NULL. `scheduled` is a history
   * variable the table does not have: the sum of all committed retry delays.
   */
  datatype Row = Row(
    company: nat, aggregate: nat, order: nat, decodable: bool,
    attempts: nat, nextAttempt: nat, publishedAt: Option<nat>, failed: bool,
    scheduled: nat)
  {
    predicate Settled() { publishedAt.Some? }
    predicate SameAggregate(other: Row) { company == other.company && aggregate == other.aggregate }
    function Failures(): int { if Settled() then attempts - 1 else attempts }
  }

  datatype Mark = Published | Failure | DeadLetter

  datatype Phase = Ready | NeedDlq | Decided(mark: Mark)

  datatype Tx = Tx(began: nat, batch: seq<Id>, next: nat, phase: Phase, writes: map<Id, Row>)

  /**
   * `log` lists the ids handed to the bus under their own subject, `accepted` and `dlq`
   * the ids the bus really stored, `dlqErrors` the ids whose dead-letter publish failed.
   */
  datatype State = State(
    rows: map<Id, Row>, txs: map<RelayId, Tx>, clock: nat,
    log: seq<Id>, accepted: set<Id>, dlq: set<Id>, dlqErrors: set<Id>)

  datatype Step =
    | Insert(id: Id, row: Row)
    | Tick(now: nat)
    | Select(relay: RelayId, batch: seq<Id>)
    | Publish(relay: RelayId, outcome: Outcome)
    | SkipUndecodable(relay: RelayId)
    | PublishDlq(relay: RelayId, outcome: Outcome)
    | Write(relay: RelayId)
    | Commit(relay: RelayId)
    | Rollback(relay: RelayId)

  /** Seconds until the next attempt, from the attempt count before the update. */
  function Backoff(attempts: nat): nat {
    Min(300, Pow2(Min(attempts, 8)))
  }

  function BackoffSum(n: nat): nat {
    if n == 0 then 0 else BackoffSum(n - 1) + Backoff(n - 1)
  }

  function Marked(row: Row, mark: Mark, now: nat): Row {
    match mark
    case Published => row.(publishedAt := Some(now), attempts := row.attempts + 1, failed := false)
    case DeadLetter => row.(publishedAt := Some(now), attempts := row.attempts + 1, failed := true)
    case Failure =>
      row.(attempts := row.attempts + 1, failed := true,
      nextAttempt := now + Backoff(row.attempts),
      scheduled := row.scheduled + Backoff(row.attempts))
  }

  /** No row of the same aggregate with a smaller order is still unsettled. */
  ghost predicate Head(rows: map<Id, Row>, id: Id)
    requires id in rows
  {
    forall e :: e in rows && rows[e].SameAggregate(rows[id]) && rows[e].order < rows[id].order ==> rows[e].Settled()
  }

  ghost predicate Candidate(rows: map<Id, Row>, id: Id, now: nat) {
    id in rows && !rows[id].Settled() && rows[id].nextAttempt <= now && Head(rows, id)
  }

  ghost predicate Locked(txs: map<RelayId, Tx>, id: Id) {
    exists r :: r in txs && id in txs[r].batch
  }

  /** The result of SELECT ... ORDER BY event_order FOR UPDATE SKIP LOCKED LIMIT 50. */
  ghost predicate IsSelection(rows: map<Id, Row>, txs: map<RelayId, Tx>, now: nat, batch: seq<Id>) {
    && |batch| <= BATCH_LIMIT
    && (forall i :: 0 <= i < |batch| ==> Candidate(rows, batch[i], now) && !Locked(txs, batch[i]))
    && (forall i, j :: 0 <= i < j < |batch| ==> rows[batch[i]].order < rows[batch[j]].order)
    && (forall id :: Candidate(rows, id, now) && !Locked(txs, id) && id !in batch ==>
          |batch| == BATCH_LIMIT && forall i :: 0 <= i < |batch| ==> rows[batch[i]].order < rows[id].order)
  }

  ghost predicate Init(s: State) {
    s.rows == map[] && s.txs == map[] && s.log == [] && s.accepted == {} && s.dlq == {} && s.dlqErrors == {}
  }

  ghost predicate Fresh(s: State, id: Id, row: Row) {
    && id !in s.rows && id !in s.log
    && row.attempts == 0 && row.publishedAt == None && !row.failed && row.scheduled == 0
    && forall e :: e in s.rows ==>
         s.rows[e].order != row.order && (s.rows[e].SameAggregate(row) ==> s.rows[e].order < row.order)
  }

  /** Relay r is working on a row of its batch, in the given phase. */
  predicate AtItem(s: State, r: RelayId) {
    r in s.txs && s.txs[r].next < |s.txs[r].batch| && s.txs[r].batch[s.txs[r].next] in s.rows
  }

  function Item(s: State, r: RelayId): Id
    requires AtItem(s, r)
  {
    s.txs[r].batch[s.txs[r].next]
  }

  function SetPhase(s: State, r: RelayId, phase: Phase): State
    requires r in s.txs
  {
    s.(txs := s.txs[r := s.txs[r].(phase := phase)])
  }

  /** Where a failed delivery of the current row leads: the DLQ from the fifth try on. */
  function AfterError(row: Row): Phase {
    if row.attempts + 1 >= MAX_ATTEMPTS then NeedDlq else Decided(Failure)
  }

  function Stored(ids: set<Id>, id: Id, outcome: Outcome): set<Id> {
    if outcome == Refused then ids else ids + {id}
  }

  ghost predicate Next(s: State, step: Step, s': State) {
    match step
    case Insert(id, row) =>
      Fresh(s, id, row) && s' == s.(rows := s.rows[id := row])
    case Tick(now) =>
      s.clock <= now && s' == s.(clock := now)
    case Select(r, batch) =>
      && r !in s.txs && IsSelection(s.rows, s.txs, s.clock, batch)
      && s' == s.(txs := s.txs[r := Tx(s.clock, batch, 0, Ready, map[])])
    case Publish(r, outcome) =>
      && AtItem(s, r) && s.txs[r].phase == Ready && s.rows[Item(s, r)].decodable
      && s' == SetPhase(s, r, if outcome == Accepted then Decided(Published) else AfterError(s.rows[Item(s, r)]))
        .(log := s.log + [Item(s, r)], accepted := Stored(s.accepted, Item(s, r), outcome))
    case SkipUndecodable(r) =>
      && AtItem(s, r) && s.txs[r].phase == Ready && !s.rows[Item(s, r)].decodable
      && s' == SetPhase(s, r, AfterError(s.rows[Item(s, r)]))
    case PublishDlq(r, outcome) =>
      && AtItem(s, r) && s.txs[r].phase == NeedDlq
      && s' == SetPhase(s, r, Decided(if outcome == Accepted then DeadLetter else Failure))
        .(dlq := Stored(s.dlq, Item(s, r), outcome),
        dlqErrors := if outcome == Accepted then s.dlqErrors else s.dlqErrors + {Item(s, r)})
    case Write(r) =>
      && AtItem(s, r) && s.txs[r].phase.Decided?
      && var tx := s.txs[r];
      var id := Item(s, r);
      s' == s.(txs := s.txs[r := tx.(next := tx.next + 1, phase := Ready,
      writes := tx.writes[id := Marked(s.rows[id], tx.phase.mark, tx.began)])])
    case Commit(r) =>
      && r in s.txs && s.txs[r].next == |s.txs[r].batch| && s.txs[r].phase == Ready
      && s' == s.(rows := s.rows + s.txs[r].writes, txs := s.txs - {r})
    case Rollback(r) =>
      r in s.txs && s' == s.(txs := s.txs - {r})
  }

  /** A run of the system from an empty outbox. */
  ghost predicate IsRun(run: Run<State, Step>) {
    IsPath(Next, run) && Init(run.states[0])
  }

  // ----- the invariant -----

  ghost predicate UniqueOrders(rows: map<Id, Row>) {
    forall a, b :: a in rows && b in rows && a != b ==> rows[a].order != rows[b].order
  }

  /** What is true of the value of one row, committed or about to be. */
  ghost predicate RowInv(s: State, id: Id, row: Row) {
    && (row.Settled() ==> row.attempts >= 1)
    && (row.Settled() && !row.failed ==> id in s.accepted)
    && (row.Settled() && row.failed ==> id in s.dlq && row.attempts >= MAX_ATTEMPTS)
    && row.Failures() >= 0 && row.scheduled == BackoffSum(row.Failures())
    && (row.Failures() >= MAX_ATTEMPTS ==> id in s.dlqErrors)
  }

  ghost predicate RowsInv(s: State) {
    forall id :: id in s.rows ==> RowInv(s, id, s.rows[id])
  }

  ghost predicate Justified(s: State, id: Id, mark: Mark)
    requires id in s.rows
  {
    match mark
    case Published => id in s.accepted
    case DeadLetter => id in s.dlq && s.rows[id].attempts + 1 >= MAX_ATTEMPTS
    case Failure => s.rows[id].attempts + 1 >= MAX_ATTEMPTS ==> id in s.dlqErrors
  }

  ghost predicate SameKey(a: Row, b: Row) {
    a.SameAggregate(b) && a.order == b.order && a.decodable == b.decodable
  }

  /**
   * What one attempt makes of a row, column by column: the count goes up by one; the row is
   * settled at the start of the transaction, or it is due again after a delay that doubles
   * with the attempts made before, up to 256 seconds.
   */
  ghost predicate Attempted(row: Row, row': Row, began: nat) {
    && SameKey(row', row) && row'.attempts == row.attempts + 1
    && (row'.publishedAt == Some(began) ==> row'.nextAttempt == row.nextAttempt && row'.scheduled == row.scheduled)
    && (row'.publishedAt != Some(began) ==>
          && row'.publishedAt == None && row'.failed
          && row'.nextAttempt == began + Min(300, Pow2(Min(row.attempts, 8)))
          && row'.scheduled == row.scheduled + (row'.nextAttempt - began))
  }

  ghost predicate BatchInv(s: State, tx: Tx) {
    && tx.next <= |tx.batch| && tx.began <= s.clock
    && (forall i :: 0 <= i < |tx.batch| ==> Candidate(s.rows, tx.batch[i], tx.began))
    && (forall i, j :: 0 <= i < j < |tx.batch| ==> tx.batch[i] != tx.batch[j])
  }

  ghost predicate WritesInv(s: State, tx: Tx)
    requires BatchInv(s, tx)
  {
    && (forall id :: id in tx.writes ==>
          && id in tx.batch[..tx.next] && id in s.rows && SameKey(tx.writes[id], s.rows[id]) && RowInv(s, id, tx.writes[id])
          && Attempted(s.rows[id], tx.writes[id], tx.began))
    && (forall k :: 0 <= k < tx.next ==> tx.batch[k] in tx.writes)
    && (tx.next < |tx.batch| ==>
          && (tx.phase == NeedDlq ==> s.rows[tx.batch[tx.next]].attempts + 1 >= MAX_ATTEMPTS)
          && (tx.phase.Decided? ==> Justified(s, tx.batch[tx.next], tx.phase.mark)))
  }

  ghost predicate TxsInv(s: State) {
    forall r :: r in s.txs ==> BatchInv(s, s.txs[r]) && WritesInv(s, s.txs[r])
  }

  ghost predicate BatchesDisjoint(s: State) {
    forall r, q, id :: r in s.txs && q in s.txs && id in s.txs[r].batch && id in s.txs[q].batch ==> r == q
  }

  /** Everything handed to the bus is a decodable row whose predecessors are durably settled. */
  ghost predicate LogSettled(s: State) {
    forall i :: 0 <= i < |s.log| ==> s.log[i] in s.rows && s.rows[s.log[i]].decodable && Head(s.rows, s.log[i])
  }

  /** The bus stores nothing it was not handed. */
  ghost predicate AcceptedLogged(s: State) {
    forall id :: id in s.accepted ==> id in s.log
  }

  /** For one aggregate the bus sees orders that never go down. */
  ghost predicate LogOrdered(s: State) {
    && (forall i :: 0 <= i < |s.log| ==> s.log[i] in s.rows)
    && forall i, j :: 0 <= i < j < |s.log| && s.rows[s.log[i]].SameAggregate(s.rows[s.log[j]]) ==>
         s.rows[s.log[i]].order <= s.rows[s.log[j]].order
  }

  ghost predicate Inv(s: State) {
    && UniqueOrders(s.rows) && RowsInv(s) && TxsInv(s) && BatchesDisjoint(s) && LogSettled(s) && LogOrdered(s) && AcceptedLogged(s)
  }

  // ----- preservation, one lemma per kind of step -----

  /** The bus only ever gains, and time only moves on. */
  ghost predicate Grows(s: State, s': State) {
    s.clock <= s'.clock && s.accepted <= s'.accepted && s.dlq <= s'.dlq && s.dlqErrors <= s'.dlqErrors
  }

  /** A transaction whose rows did not move is as good in s' as it was in s. */
  lemma TxKept(s: State, s': State, tx: Tx)
    requires BatchInv(s, tx) && WritesInv(s, tx) && Grows(s, s')
    requires forall i :: 0 <= i < |tx.batch| ==>
      tx.batch[i] in s'.rows && s'.rows[tx.batch[i]] == s.rows[tx.batch[i]] && Head(s'.rows, tx.batch[i])
    ensures BatchInv(s', tx) && WritesInv(s', tx)
  {
    hide Attempted, BackoffSum, Head, SameKey;
  }

  lemma SameRowsKept(s: State, s': State)
    requires TxsInv(s) && RowsInv(s) && Grows(s, s') && s'.rows == s.rows
    ensures RowsInv(s')
    ensures forall r :: r in s.txs ==> BatchInv(s', s.txs[r]) && WritesInv(s', s.txs[r])
  {
    forall r | r in s.txs ensures BatchInv(s', s.txs[r]) && WritesInv(s', s.txs[r]) {
      TxKept(s, s', s.txs[r]);
    }
  }

  /** A new row comes after the visible rows of its aggregate, so it unsettles no head. */
  lemma InsertHeads(s: State, id: Id, row: Row)
    requires Fresh(s, id, row)
    ensures forall e :: e in s.rows && Head(s.rows, e) ==> Head(s.rows[id := row], e)
  {
  }

  lemma InsertKeepsRows(s: State, id: Id, row: Row, s': State)
    requires UniqueOrders(s.rows) && RowsInv(s) && Next(s, Insert(id, row), s')
    ensures UniqueOrders(s'.rows) && RowsInv(s')
  {
    assert RowInv(s', id, row);
    hide Head;
    forall e | e in s.rows ensures RowInv(s', e, s'.rows[e]) { SameBusSameRow(s, s', e, s.rows[e]); }
    hide RowInv;
  }

  lemma InsertKeepsLog(s: State, id: Id, row: Row, s': State)
    requires LogSettled(s) && LogOrdered(s) && AcceptedLogged(s) && Next(s, Insert(id, row), s')
    ensures LogSettled(s') && LogOrdered(s') && AcceptedLogged(s')
  {
    InsertHeads(s, id, row);
    hide Head;
  }

  lemma InsertKeeps(s: State, id: Id, row: Row, s': State)
    requires Inv(s) && Next(s, Insert(id, row), s')
    ensures Inv(s')
  {
    hide Head, RowsInv, UniqueOrders, LogSettled, LogOrdered, AcceptedLogged, WritesInv;
    InsertKeepsRows(s, id, row, s');
    InsertKeepsLog(s, id, row, s');
    InsertHeads(s, id, row);
    forall r | r in s'.txs ensures BatchInv(s', s'.txs[r]) && WritesInv(s', s'.txs[r]) {
      TxKept(s, s', s.txs[r]);
    }
  }

  lemma SelectKeeps(s: State, r: RelayId, batch: seq<Id>, s': State)
    requires Inv(s) && Next(s, Select(r, batch), s')
    ensures Inv(s')
  {
    hide UniqueOrders, RowInv, Head;
    SameRowsKept(s, s');
    forall q, id | q in s.txs && id in s.txs[q].batch ensures id !in batch { assert Locked(s.txs, id); }
  }

  /** Steps that touch only relay r's phase and the bus. */
  lemma BusKeeps(s: State, r: RelayId, phase: Phase, log: seq<Id>, accepted: set<Id>, dlq: set<Id>, errors: set<Id>, s': State)
    requires Inv(s) && AtItem(s, r)
    requires s' == SetPhase(s, r, phase).(log := log, accepted := accepted, dlq := dlq, dlqErrors := errors)
    requires s.accepted <= accepted && s.dlq <= dlq && s.dlqErrors <= errors
    requires (log == s.log && accepted == s.accepted) || (log == s.log + [Item(s, r)] && accepted <= s.accepted + {Item(s, r)} && s.rows[Item(s, r)].decodable)
    requires phase == NeedDlq ==> s.rows[Item(s, r)].attempts + 1 >= MAX_ATTEMPTS
    requires phase.Decided? ==> Justified(s', Item(s, r), phase.mark)
    ensures Inv(s')
  {
    SameRowsKept(s, s');
    assert BatchInv(s', s'.txs[r]) && WritesInv(s', s'.txs[r]);
    LogKeeps(s, r, log);
  }

  lemma LogKeeps(s: State, r: RelayId, log: seq<Id>)
    requires Inv(s) && AtItem(s, r) && (log == s.log || (log == s.log + [Item(s, r)] && s.rows[Item(s, r)].decodable))
    ensures LogSettled(s.(log := log)) && LogOrdered(s.(log := log))
  {
    assert BatchInv(s, s.txs[r]);
    assert Candidate(s.rows, Item(s, r), s.txs[r].began);
    forall i, j | 0 <= i < j < |log| && s.rows[log[i]].SameAggregate(s.rows[log[j]])
      ensures s.rows[log[i]].order <= s.rows[log[j]].order
    {
      if j == |s.log| { assert Head(s.rows, s.log[i]); }
    }
  }

  lemma WriteKeeps(s: State, r: RelayId, s': State)
    requires Inv(s) && Next(s, Write(r), s')
    ensures Inv(s')
  {
    SameRowsKept(s, s');
    OwnWriteKept(s, r, s');
  }

  lemma OwnWriteKept(s: State, r: RelayId, s': State)
    requires Inv(s) && Next(s, Write(r), s')
    ensures BatchInv(s', s'.txs[r]) && WritesInv(s', s'.txs[r])
  {
    hide Head, LogSettled, LogOrdered, UniqueOrders, AcceptedLogged, BatchesDisjoint, BackoffSum, Backoff, Marked;
    var tx, tx', id := s.txs[r], s'.txs[r], Item(s, r);
    assert BatchInv(s, tx) && WritesInv(s, tx);
    assert tx'.batch[..tx'.next] == tx.batch[..tx.next] + [id];
    assert Candidate(s.rows, id, tx.began);
    MarkedRow(s, id, tx.phase.mark, tx.began);
    hide RowInv, SameKey, Justified, Attempted;
    forall w | w in tx'.writes
      ensures w in tx'.batch[..tx'.next] && w in s'.rows && SameKey(tx'.writes[w], s'.rows[w]) && RowInv(s', w, tx'.writes[w])
      ensures Attempted(s'.rows[w], tx'.writes[w], tx'.began)
    {
      SameBusSameRow(s, s', w, tx'.writes[w]);
    }
  }

  lemma SameBusSameRow(s: State, s': State, id: Id, row: Row)
    requires s'.accepted == s.accepted && s'.dlq == s.dlq && s'.dlqErrors == s.dlqErrors
    ensures RowInv(s', id, row) <==> RowInv(s, id, row)
  {
  }

  lemma MarkedRow(s: State, id: Id, mark: Mark, now: nat)
    requires id in s.rows && !s.rows[id].Settled() && RowInv(s, id, s.rows[id]) && Justified(s, id, mark)
    ensures RowInv(s, id, Marked(s.rows[id], mark, now)) && SameKey(Marked(s.rows[id], mark, now), s.rows[id])
    ensures Attempted(s.rows[id], Marked(s.rows[id], mark, now), now)
  {
    assert BackoffSum(s.rows[id].attempts + 1) == BackoffSum(s.rows[id].attempts) + Backoff(s.rows[id].attempts);
  }

  /** What a commit does to the table, row by row. */
  lemma CommitRows(s: State, r: RelayId, s': State)
    requires Inv(s) && Next(s, Commit(r), s')
    ensures s'.rows.Keys == s.rows.Keys
    ensures forall e :: e in s.rows ==> SameKey(s'.rows[e], s.rows[e]) && RowInv(s, e, s'.rows[e])
    ensures forall e :: e in s.rows && s.rows[e].Settled() ==> s'.rows[e] == s.rows[e]
    ensures forall e :: e in s.rows && e !in s.txs[r].batch ==> s'.rows[e] == s.rows[e]
    ensures forall e :: e in s.rows && e in s.txs[r].batch ==> Attempted(s.rows[e], s'.rows[e], s.txs[r].began)
  {
    hide Attempted;
    var tx := s.txs[r];
    assert BatchInv(s, tx) && WritesInv(s, tx);
    assert forall e :: e in tx.batch ==> e in tx.writes;
    forall e | e in s.rows
      ensures e in tx.writes ==> e in tx.batch && !s.rows[e].Settled()
    {
    }
  }

  lemma CommitKeeps(s: State, r: RelayId, s': State)
    requires Inv(s) && Next(s, Commit(r), s')
    ensures Inv(s')
  {
    CommitKeepsRows(s, r, s');
    forall q | q in s'.txs ensures BatchInv(s', s'.txs[q]) && WritesInv(s', s'.txs[q]) {
      CommitKeepsOther(s, r, s', q);
    }
  }

  lemma CommitKeepsRows(s: State, r: RelayId, s': State)
    requires Inv(s) && Next(s, Commit(r), s')
    ensures UniqueOrders(s'.rows) && RowsInv(s') && LogSettled(s') && LogOrdered(s')
  {
    hide Head, TxsInv, BatchesDisjoint, BackoffSum, LogSettled, LogOrdered, RowInv;
    CommitRows(s, r, s');
    CommitKeepsLog(s, s');
    forall e | e in s'.rows ensures RowInv(s', e, s'.rows[e]) { SameBusSameRow(s, s', e, s'.rows[e]); }
  }

  /** The log is about keys and heads, which a commit keeps. */
  lemma CommitKeepsLog(s: State, s': State)
    requires LogSettled(s) && LogOrdered(s) && s'.log == s.log && s'.rows.Keys == s.rows.Keys
    requires forall e :: e in s.rows ==> SameKey(s'.rows[e], s.rows[e])
    requires forall e :: e in s.rows && s.rows[e].Settled() ==> s'.rows[e] == s.rows[e]
    ensures LogSettled(s') && LogOrdered(s')
  {
    HeadsKept(s.rows, s'.rows);
    hide Head;
  }

  lemma HeadsKept(rows: map<Id, Row>, rows': map<Id, Row>)
    requires rows'.Keys == rows.Keys
    requires forall e :: e in rows ==> SameKey(rows'[e], rows[e])
    requires forall e :: e in rows && rows[e].Settled() ==> rows'[e] == rows[e]
    ensures forall e :: e in rows && Head(rows, e) ==> Head(rows', e)
  {
  }

  lemma CommitKeepsOther(s: State, r: RelayId, s': State, q: RelayId)
    requires Inv(s) && Next(s, Commit(r), s') && q in s'.txs
    ensures BatchInv(s', s'.txs[q]) && WritesInv(s', s'.txs[q])
  {
    hide Head, RowInv, LogSettled, LogOrdered, UniqueOrders, WritesInv, RowsInv;
    CommitRows(s, r, s');
    HeadsKept(s.rows, s'.rows);
    assert BatchInv(s, s.txs[q]);
    TxKept(s, s', s.txs[q]);
  }

  lemma RollbackKeeps(s: State, r: RelayId, s': State)
    requires Inv(s) && Next(s, Rollback(r), s')
    ensures Inv(s')
  {
    SameRowsKept(s, s');
  }

  lemma TickKeeps(s: State, now: nat, s': State)
    requires Inv(s) && Next(s, Tick(now), s')
    ensures Inv(s')
  {
    SameRowsKept(s, s');
  }

  lemma StepKeeps(s: State, step: Step, s': State)
    requires Inv(s) && Next(s, step, s')
    ensures Inv(s')
  {
    match step
    case Insert(id, row) => InsertKeeps(s, id, row, s');
    case Tick(now) => TickKeeps(s, now, s');
    case Select(r, batch) => SelectKeeps(s, r, batch, s');
    case Publish(r, outcome) =>
      BusKeeps(s, r, s'.txs[r].phase, s'.log, s'.accepted, s.dlq, s.dlqErrors, s');
    case SkipUndecodable(r) =>
      BusKeeps(s, r, s'.txs[r].phase, s.log, s.accepted, s.dlq, s.dlqErrors, s');
    case PublishDlq(r, outcome) =>
      assert WritesInv(s, s.txs[r]);
      BusKeeps(s, r, s'.txs[r].phase, s.log, s.accepted, s'.dlq, s'.dlqErrors, s');
    case Write(r) => WriteKeeps(s, r, s');
    case Commit(r) => CommitKeeps(s, r, s');
    case Rollback(r) => RollbackKeeps(s, r, s');
  }

  lemma {:induction false} RunInv(run: Run<State, Step>, n: nat)
    requires IsRun(run) && n < |run.states|
    ensures Inv(run.states[n])
  {
    if n > 0 {
      RunInv(run, n - 1);
      StepKeeps(run.states[n - 1], run.steps[n - 1], run.states[n]);
    }
  }

  // ----- what every run guarantees -----

  /** Settled rows are frozen; other rows keep their identity and stay in the table. */
  lemma StepKeepsRow(s: State, step: Step, s': State, e: Id)
    requires Inv(s) && Next(s, step, s') && e in s.rows
    ensures e in s'.rows && SameKey(s'.rows[e], s.rows[e])
    ensures s.rows[e].Settled() ==> s'.rows[e] == s.rows[e]
  {
    if step.Commit? {
      var tx := s.txs[step.relay];
      assert BatchInv(s, tx) && WritesInv(s, tx);
      if e in tx.writes {
        assert e in tx.batch;
      }
    }
  }

  lemma {:induction false} RowKept(run: Run<State, Step>, i: nat, j: nat, e: Id)
    requires IsRun(run) && i <= j < |run.states| && e in run.states[i].rows
    ensures e in run.states[j].rows && SameKey(run.states[j].rows[e], run.states[i].rows[e])
    ensures run.states[i].rows[e].Settled() ==> run.states[j].rows[e] == run.states[i].rows[e]
  {
    if i < j {
      RowKept(run, i, j - 1, e);
      RunInv(run, j - 1);
      StepKeepsRow(run.states[j - 1], run.steps[j - 1], run.states[j], e);
    }
  }

  /** A row that is in the table later and was not there before has a higher order than all it joins. */
  lemma {:induction false} LateRowIsLater(run: Run<State, Step>, i: nat, j: nat, a: Id, e: Id)
    requires IsRun(run) && i <= j < |run.states|
    requires a in run.states[i].rows && e in run.states[j].rows && e !in run.states[i].rows
    requires run.states[j].rows[e].SameAggregate(run.states[i].rows[a])
    ensures run.states[i].rows[a].order < run.states[j].rows[e].order
  {
    RowKept(run, i, j - 1, a);
    RunInv(run, j - 1);
    if e in run.states[j - 1].rows {
      StepKeepsRow(run.states[j - 1], run.steps[j - 1], run.states[j], e);
      LateRowIsLater(run, i, j - 1, a, e);
    } else {
      assert Next(run.states[j - 1], run.steps[j - 1], run.states[j]);
      NewRowsComeFromInsert(run.states[j - 1], run.steps[j - 1], run.states[j], e);
    }
  }

  lemma NewRowsComeFromInsert(s: State, step: Step, s': State, e: Id)
    requires Inv(s) && Next(s, step, s') && e in s'.rows && e !in s.rows
    ensures step.Insert? && step.id == e && s'.rows[e] == step.row
  {
  }

  /**
   * Main ordering theorem. When a row is handed to the bus, under its own subject or as a
   * dead letter, every row of its aggregate
   * that has or will ever have a smaller order is already in the table, is durably
   * published or dead-lettered, and will never change again.
   */
  lemma PredecessorsSettledFirst(run: Run<State, Step>, i: nat, j: nat, e: Id)
    requires IsRun(run) && i < |run.steps| && (run.steps[i].Publish? || run.steps[i].PublishDlq?) && i <= j < |run.states|
    requires e in run.states[j].rows
    requires
      var a := run.states[i].rows[Item(run.states[i], run.steps[i].relay)];
      run.states[j].rows[e].SameAggregate(a) && run.states[j].rows[e].order < a.order
    ensures e in run.states[i].rows && run.states[i].rows[e].Settled()
    ensures run.states[j].rows[e] == run.states[i].rows[e]
  {
    var s := run.states[i];
    var a := Item(s, run.steps[i].relay);
    RunInv(run, i);
    assert BatchInv(s, s.txs[run.steps[i].relay]);
    if e !in s.rows {
      LateRowIsLater(run, i, j, a, e);
    } else {
      RowKept(run, i, j, e);
      assert Head(s.rows, a);
    }
  }

  /** The bus sees each aggregate in order, whatever relays, rollbacks and lost replies do. */
  lemma BusSeesAggregateInOrder(run: Run<State, Step>, n: nat, i: nat, j: nat)
    requires IsRun(run) && n < |run.states| && i < j < |run.states[n].log|
    ensures
      var s := run.states[n];
      && s.log[i] in s.rows && s.log[j] in s.rows
      && (s.rows[s.log[i]].SameAggregate(s.rows[s.log[j]]) ==> s.rows[s.log[i]].order <= s.rows[s.log[j]].order)
  {
    RunInv(run, n);
  }

  /** At most one row of an aggregate is in flight, in one batch or across all relays. */
  lemma OneRowPerAggregateInFlight(run: Run<State, Step>, n: nat, r: RelayId, q: RelayId, i: nat, j: nat)
    requires IsRun(run) && n < |run.states|
    requires r in run.states[n].txs && q in run.states[n].txs
    requires i < |run.states[n].txs[r].batch| && j < |run.states[n].txs[q].batch|
    requires
      var s := run.states[n];
      var a, b := s.txs[r].batch[i], s.txs[q].batch[j];
      a in s.rows && b in s.rows && s.rows[a].SameAggregate(s.rows[b])
    ensures r == q && i == j
  {
    RunInv(run, n);
    var s := run.states[n];
    assert BatchInv(s, s.txs[r]) && BatchInv(s, s.txs[q]);
    var a, b := s.txs[r].batch[i], s.txs[q].batch[j];
    assert Candidate(s.rows, a, s.txs[r].began) && Candidate(s.rows, b, s.txs[q].began);
    assert a == b && a in s.txs[r].batch && a in s.txs[q].batch;
  }

  /** A committed published_at is backed by the bus, and a dead letter by five tries. */
  lemma SettledMeansStored(run: Run<State, Step>, n: nat, id: Id)
    requires IsRun(run) && n < |run.states| && id in run.states[n].rows && run.states[n].rows[id].Settled()
    ensures !run.states[n].rows[id].failed ==> id in run.states[n].accepted
    ensures run.states[n].rows[id].failed ==> id in run.states[n].dlq && run.states[n].rows[id].attempts >= 5
  {
    RunInv(run, n);
    assert RowInv(run.states[n], id, run.states[n].rows[id]);
  }

  /** A rollback, at any point of a batch, leaves each of its rows selectable at once. */
  lemma RollbackLosesNothing(run: Run<State, Step>, n: nat, i: nat)
    requires IsRun(run) && n < |run.steps| && run.steps[n].Rollback?
    requires i < |run.states[n].txs[run.steps[n].relay].batch|
    ensures
      var s, s' := run.states[n], run.states[n + 1];
      var id := s.txs[run.steps[n].relay].batch[i];
      s'.rows == s.rows && Candidate(s'.rows, id, s'.clock) && !Locked(s'.txs, id)
  {
    RunInv(run, n);
    var s := run.states[n];
    assert BatchInv(s, s.txs[run.steps[n].relay]);
    assert Candidate(s.rows, s.txs[run.steps[n].relay].batch[i], s.txs[run.steps[n].relay].began);
  }

  /**
   * What a commit does to the table: every row of the batch counts one attempt more and is
   * settled as of the start of the transaction, or is due again after least(300, 2^least(
   * attempts, 8)) seconds, between 1 and 256; every other row stays as it is.
   */
  lemma CommitAdvancesBatch(run: Run<State, Step>, n: nat, id: Id)
    requires IsRun(run) && n < |run.steps| && run.steps[n].Commit? && id in run.states[n].rows
    ensures run.steps[n].relay in run.states[n].txs && id in run.states[n + 1].rows
    ensures
      var tx, row, row' := run.states[n].txs[run.steps[n].relay], run.states[n].rows[id], run.states[n + 1].rows[id];
      if id !in tx.batch then row' == row
      else
        && row'.attempts == row.attempts + 1 && (row'.publishedAt == Some(tx.began) || row'.publishedAt == None)
        && (row'.publishedAt == None ==>
              && row'.nextAttempt == tx.began + Min(300, Pow2(Min(row.attempts, 8)))
              && 1 <= row'.nextAttempt - tx.began <= 256)
  {
    RunInv(run, n);
    var s := run.states[n];
    assert Next(s, run.steps[n], run.states[n + 1]);
    hide Inv;
    CommitRows(s, run.steps[n].relay, run.states[n + 1]);
    BackoffBounds(s.rows[id].attempts, s.rows[id].attempts);
  }

  /** A poll takes at most 50 rows, in the order of their events, none settled, none before its time, none held by another relay. */
  lemma SelectedRowsAreDue(run: Run<State, Step>, n: nat, i: nat)
    requires IsRun(run) && n < |run.steps| && run.steps[n].Select? && i < |run.steps[n].batch|
    ensures |run.steps[n].batch| <= 50 && run.steps[n].batch[i] in run.states[n].rows
    ensures
      var s, batch := run.states[n], run.steps[n].batch;
      var row := s.rows[batch[i]];
      && row.publishedAt == None && row.nextAttempt <= s.clock
      && (forall r :: r in s.txs ==> batch[i] !in s.txs[r].batch)
      && (forall j :: i < j < |batch| ==> batch[j] in s.rows && row.order < s.rows[batch[j]].order)
      && (forall e :: e in s.rows && s.rows[e].company == row.company && s.rows[e].aggregate == row.aggregate && s.rows[e].order < row.order
            ==> s.rows[e].publishedAt != None)
  {
    var s, batch := run.states[n], run.steps[n].batch;
    assert Next(s, run.steps[n], run.states[n + 1]);
    forall r | r in s.txs ensures batch[i] !in s.txs[r].batch {
      assert !Locked(s.txs, batch[i]);
    }
    assert forall j :: i < j < |batch| ==> Candidate(s.rows, batch[j], s.clock);
  }

  /** The delay that step n - 1 schedules for a row: from the start of its transaction to the next attempt. */
  ghost function DelayBy(run: Run<State, Step>, n: nat, id: Id): int
    requires IsPath(Next, run) && 0 < n < |run.states|
  {
    var s, step, s' := run.states[n - 1], run.steps[n - 1], run.states[n];
    if step.Commit? && step.relay in s.txs && id in s.rows && id in s'.rows && s'.rows[id].attempts != s.rows[id].attempts && s'.rows[id].publishedAt == None
    then s'.rows[id].nextAttempt - s.txs[step.relay].began else 0
  }

  ghost function DelaySum(run: Run<State, Step>, n: nat, id: Id): int
    requires IsPath(Next, run) && n < |run.states|
  {
    if n == 0 then 0 else DelaySum(run, n - 1, id) + DelayBy(run, n, id)
  }

  /** The history variable is what its name says. */
  lemma {:induction false} ScheduledIsSum(run: Run<State, Step>, n: nat, id: Id)
    requires IsRun(run) && n < |run.states|
    ensures DelaySum(run, n, id) == if id in run.states[n].rows then run.states[n].rows[id].scheduled else 0
  {
    if n > 0 {
      ScheduledIsSum(run, n - 1, id);
      RunInv(run, n - 1);
      assert Next(run.states[n - 1], run.steps[n - 1], run.states[n]);
      hide Inv, DelaySum;
      ScheduledStep(run, n, id);
    }
  }

  lemma ScheduledStep(run: Run<State, Step>, n: nat, id: Id)
    requires IsPath(Next, run) && 0 < n < |run.states| && Inv(run.states[n - 1])
    requires Next(run.states[n - 1], run.steps[n - 1], run.states[n])
    ensures id in run.states[n - 1].rows ==> id in run.states[n].rows
    ensures (if id in run.states[n].rows then run.states[n].rows[id].scheduled else 0) ==
      (if id in run.states[n - 1].rows then run.states[n - 1].rows[id].scheduled else 0) + DelayBy(run, n, id)
  {
    hide Inv;
    var s, step, s' := run.states[n - 1], run.steps[n - 1], run.states[n];
    if step.Commit? { CommitRows(s, step.relay, s'); }
  }

  lemma BackoffBounds(m: nat, n: nat)
    requires m <= n
    ensures 1 <= Backoff(m) <= Backoff(n) <= 256
  {
    Pow2Monotone(Min(m, 8), Min(n, 8));
    Pow2Monotone(Min(n, 8), 8);
    Pow2OfEight();
  }

  lemma Pow2OfEight()
    ensures Pow2(0) == 1 && Pow2(1) == 2 && Pow2(2) == 4 && Pow2(3) == 8 && Pow2(8) == 256
  {
    assert Pow2(4) == 16;
    assert Pow2(6) == 64;
  }

  lemma FourDelays()
    ensures BackoffSum(4) == 15
  {
    Pow2OfEight();
    assert BackoffSum(2) == 3;
  }

  /**
   * As long as no dead-letter publish of this row failed, the row never survives a fifth
   * committed attempt, and if that attempt dead-letters it, the delays scheduled before it,
   * each from the start of its transaction to the next attempt, sum to exactly 15 seconds.
   */
  lemma FifthAttemptSettles(run: Run<State, Step>, n: nat, id: Id)
    requires IsRun(run) && n < |run.states| && id in run.states[n].rows && id !in run.states[n].dlqErrors
    ensures
      var row := run.states[n].rows[id];
      && row.attempts <= 5
      && (row.publishedAt == None ==> row.attempts < 5)
      && (row.publishedAt != None && row.failed ==> row.attempts == 5 && DelaySum(run, n, id) == 15)
  {
    RunInv(run, n);
    assert RowInv(run.states[n], id, run.states[n].rows[id]);
    FourDelays();
    ScheduledIsSum(run, n, id);
  }

  // ----- the relay as it is written: one batch, start to finish -----

  /** What the broker and the database do with one row of a batch. */
  datatype Fate = Fate(own: Outcome, dead: Outcome, written: bool)

  /** The mark a row earns, from its attempt count and the broker's two answers. */
  function MarkOf(row: Row, fate: Fate): Mark {
    if row.decodable && fate.own == Accepted then Published
    else if row.attempts + 1 >= MAX_ATTEMPTS && fate.dead == Accepted then DeadLetter
    else Failure
  }

  /**
   * How a row ends, column by column: published if it decodes and the bus said so; dead
   * from the fifth try on if the dead-letter subject said so; otherwise pending, and due
   * after least(300, 2^least(attempts, 8)) seconds.
   */
  ghost predicate Earned(row: Row, fate: Fate, now: nat, row': Row) {
    && SameKey(row', row) && row'.attempts == row.attempts + 1
    && if row.decodable && fate.own == Accepted then row'.publishedAt == Some(now) && !row'.failed && row'.nextAttempt == row.nextAttempt
       else if row.attempts + 1 >= 5 && fate.dead == Accepted then row'.publishedAt == Some(now) && row'.failed && row'.nextAttempt == row.nextAttempt
       else row'.publishedAt == row.publishedAt && row'.failed && row'.nextAttempt == now + Min(300, Pow2(Min(row.attempts, 8)))
  }

  lemma EarnedMark(row: Row, fate: Fate, now: nat)
    ensures Earned(row, fate, now, Marked(row, MarkOf(row, fate), now))
  {
  }

  class Table {
    var rows: map<Id, Row>
    constructor () ensures rows == map[] { rows := map[]; }
  }

  class Bus {
    var log: seq<Id>
    var accepted: set<Id>
    var dlq: set<Id>
    var dlqErrors: set<Id>

    constructor ()
      ensures log == [] && accepted == {} && dlq == {} && dlqErrors == {}
    {
      log, accepted, dlq, dlqErrors := [], {}, {}, {};
    }

    method Publish(id: Id, outcome: Outcome) returns (ok: bool)
      modifies this`log, this`accepted
      ensures ok == (outcome == Accepted)
      ensures log == old(log) + [id] && accepted == if outcome == Refused then old(accepted) else old(accepted) + {id}
    {
      log, accepted, ok := log + [id], Stored(accepted, id, outcome), outcome == Accepted;
    }

    method PublishDlq(id: Id, outcome: Outcome) returns (ok: bool)
      modifies this`dlq, this`dlqErrors
      ensures ok == (outcome == Accepted)
      ensures dlq == if outcome == Refused then old(dlq) else old(dlq) + {id}
      ensures dlqErrors == if ok then old(dlqErrors) else old(dlqErrors) + {id}
    {
      dlq, ok := Stored(dlq, id, outcome), outcome == Accepted;
      if !ok { dlqErrors := dlqErrors + {id}; }
    }
  }

  class Relay {
    const id: RelayId
    const pool: Table
    const publisher: Bus

    constructor (id: RelayId, pool: Table, publisher: Bus)
      ensures this.id == id && this.pool == pool && this.publisher == publisher
    {
      this.id, this.pool, this.publisher := id, pool, publisher;
    }

    /** The protocol state while this relay holds transaction tx, or none, next to those of the other relays. */
    ghost function View(now: nat, tx: Option<Tx>, others: map<RelayId, Tx>): State
      reads pool, publisher
    {
      State(pool.rows, if tx.Some? then others[id := tx.value] else others, now,
            publisher.log, publisher.accepted, publisher.dlq, publisher.dlqErrors)
    }

    /** The first attempt: the row's own subject, unless its payload does not decode. */
    method PublishOwn(row: Row, rowId: Id, fate: Fate, ghost now: nat, ghost tx: Tx, ghost others: map<RelayId, Tx>,
                      ghost s0: State, ghost run: Run<State, Step>)
      returns (delivered: bool, ghost run': Run<State, Step>)
      requires tx.next < |tx.batch| && tx.batch[tx.next] == rowId && tx.phase == Ready
      requires rowId in pool.rows && pool.rows[rowId] == row
      requires Leads(Next, run, s0, View(now, Some(tx), others))
      modifies publisher
      ensures delivered <==> row.decodable && fate.own == Accepted
      ensures Leads(Next, run', s0, View(now, Some(tx.(phase := if delivered then Decided(Published) else AfterError(row))), others))
    {
      hide Leads, Extend;
      ghost var s := View(now, Some(tx), others);
      if row.decodable {
        delivered := publisher.Publish(rowId, fate.own);
        ghost var s' := View(now, Some(tx.(phase := if delivered then Decided(Published) else AfterError(row))), others);
        assert Next(s, Step.Publish(id, fate.own), s');
        ExtendLeads(Next, run, s0, s, Step.Publish(id, fate.own), s');
        run' := Extend(run, Step.Publish(id, fate.own), s');
      } else {
        delivered := false;
        ghost var s' := View(now, Some(tx.(phase := AfterError(row))), others);
        assert Next(s, SkipUndecodable(id), s');
        ExtendLeads(Next, run, s0, s, SkipUndecodable(id), s');
        run' := Extend(run, SkipUndecodable(id), s');
      }
    }

    /** Deliver one row and return the mark to write: the DLQ is tried from the fifth failure on. */
    method Deliver(row: Row, rowId: Id, fate: Fate, ghost now: nat, ghost tx: Tx, ghost others: map<RelayId, Tx>,
                      ghost s0: State, ghost run: Run<State, Step>)
      returns (mark: Mark, ghost run': Run<State, Step>)
      requires tx.next < |tx.batch| && tx.batch[tx.next] == rowId && tx.phase == Ready
      requires rowId in pool.rows && pool.rows[rowId] == row
      requires Leads(Next, run, s0, View(now, Some(tx), others))
      modifies publisher
      ensures mark == MarkOf(row, fate)
      ensures Leads(Next, run', s0, View(now, Some(tx.(phase := Decided(mark))), others))
    {
      hide Leads, Extend;
      var delivered;
      delivered, run' := PublishOwn(row, rowId, fate, now, tx, others, s0, run);
      if delivered {
        return Mark.Published, run';
      }
      mark := Failure;
      if row.attempts + 1 >= MAX_ATTEMPTS {
        ghost var s := View(now, Some(tx.(phase := NeedDlq)), others);
        var dead := publisher.PublishDlq(rowId, fate.dead);
        if dead { mark := DeadLetter; }
        ghost var s' := View(now, Some(tx.(phase := Decided(mark))), others);
        assert Next(s, Step.PublishDlq(id, fate.dead), s');
        ExtendLeads(Next, run', s0, s, Step.PublishDlq(id, fate.dead), s');
        run' := Extend(run', Step.PublishDlq(id, fate.dead), s');
      }
    }

    /** The loop over the batch; stops at the first UPDATE that fails. */
    method DeliverAll(now: nat, batch: seq<Id>, fates: seq<Fate>, ghost others: map<RelayId, Tx>, ghost s0: State, ghost run0: Run<State, Step>)
      returns (writes: map<Id, Row>, ok: bool, ghost tx: Tx, ghost run: Run<State, Step>)
      requires forall i :: 0 <= i < |batch| ==> batch[i] in pool.rows
      requires forall i, j :: 0 <= i < j < |batch| ==> batch[i] != batch[j]
      requires |fates| == |batch|
      requires Leads(Next, run0, s0, View(now, Some(Tx(now, batch, 0, Ready, map[])), others))
      modifies publisher
      ensures ok <==> forall i :: 0 <= i < |fates| ==> fates[i].written
      ensures Leads(Next, run, s0, View(now, Some(tx), others))
      ensures ok ==> tx == Tx(now, batch, |batch|, Ready, writes)
      ensures ok ==> forall e :: e in writes ==> e in batch
      ensures ok ==> forall k :: 0 <= k < |batch| ==> batch[k] in writes && Earned(pool.rows[batch[k]], fates[k], now, writes[batch[k]])
    {
      hide Leads, Extend, Next, MarkOf, Earned;
      writes, tx, run := map[], Tx(now, batch, 0, Ready, map[]), run0;
      for i := 0 to |batch|
        invariant forall k :: 0 <= k < i ==> fates[k].written
        invariant tx == Tx(now, batch, i, Ready, writes)
        invariant Leads(Next, run, s0, View(now, Some(tx), others))
        invariant forall e :: e in writes ==> e in batch
        invariant forall k :: 0 <= k < i ==> batch[k] in writes && Earned(pool.rows[batch[k]], fates[k], now, writes[batch[k]])
      {
        var row := pool.rows[batch[i]];
        var mark;
        mark, run := Deliver(row, batch[i], fates[i], now, tx, others, s0, run);
        tx := tx.(phase := Decided(mark));
        if !fates[i].written {
          return writes, false, tx, run;
        }
        ghost var was := tx;
        run := WriteStep(View(now, Some(tx), others), id, tx, s0, run);
        writes := writes[batch[i] := Marked(row, mark, now)];
        EarnedMark(row, fates[i], now);
        tx := tx.(next := i + 1, phase := Ready, writes := writes);
        assert others[id := was][id := tx] == others[id := tx];
      }
      ok := true;
    }

    /**
     * One poll of the relay, next to the open transactions `others` of any number of other
     * relays. `batch` is what the locking select returned, `fates` what happens to each
     * row, `commit` what becomes of the final COMMIT. The call is a path of
     * protocol steps; if the commit took effect every row of the batch carries exactly the
     * mark it earned and no other row moved, otherwise the table is untouched.
     */
    method PublishBatch(now: nat, batch: seq<Id>, fates: seq<Fate>, commit: Outcome, ghost others: map<RelayId, Tx>)
      returns (processed: nat, ok: bool, ghost run: Run<State, Step>)
      requires id !in others && IsSelection(pool.rows, others, now, batch) && |fates| == |batch|
      modifies pool, publisher
      ensures Leads(Next, run, old(View(now, None, others)), View(now, None, others))
      ensures ok <==> commit == Accepted && forall i :: 0 <= i < |fates| ==> fates[i].written
      ensures processed == if ok then |batch| else 0
      ensures
        if commit != Refused && forall i :: 0 <= i < |fates| ==> fates[i].written then
          && pool.rows.Keys == old(pool.rows.Keys)
          && (forall i :: 0 <= i < |batch| ==> batch[i] in pool.rows && Earned(old(pool.rows)[batch[i]], fates[i], now, pool.rows[batch[i]]))
          && (forall e :: e in pool.rows && e !in batch ==> pool.rows[e] == old(pool.rows)[e])
        else
          pool.rows == old(pool.rows)
    {
      hide Leads, Extend, Next, IsSelection;
      ghost var s0 := View(now, None, others);
      ghost var s;
      run := SelectStep(s0, id, batch);
      SelectionIsDistinct(pool.rows, others, now, batch);
      var writes;
      ghost var tx;
      writes, ok, tx, run := DeliverAll(now, batch, fates, others, s0, run);
      s := View(now, Some(tx), others);
      if !ok || commit == Refused {
        EndStep(s, id, tx, others, View(now, None, others));
        ExtendLeads(Next, run, s0, s, Rollback(id), View(now, None, others));
        run := Extend(run, Rollback(id), View(now, None, others));
        return 0, false, run;
      }
      pool.rows := pool.rows + writes;
      EndStep(s, id, tx, others, View(now, None, others));
      ExtendLeads(Next, run, s0, s, Commit(id), View(now, None, others));
      run := Extend(run, Commit(id), View(now, None, others));
      ok := commit == Accepted;
      processed := if ok then |batch| else 0;
    }
  }

  lemma SelectStep(s: State, r: RelayId, batch: seq<Id>) returns (run: Run<State, Step>)
    requires r !in s.txs && IsSelection(s.rows, s.txs, s.clock, batch)
    ensures Leads(Next, run, s, s.(txs := s.txs[r := Tx(s.clock, batch, 0, Ready, map[])]))
  {
    var s' := s.(txs := s.txs[r := Tx(s.clock, batch, 0, Ready, map[])]);
    run := Run([s, s'], [Select(r, batch)]);
  }

  lemma WriteStep(s: State, r: RelayId, tx: Tx, s0: State, run: Run<State, Step>) returns (run': Run<State, Step>)
    requires r in s.txs && s.txs[r] == tx && tx.next < |tx.batch| && tx.batch[tx.next] in s.rows && tx.phase.Decided?
    requires Leads(Next, run, s0, s)
    ensures
      var id := tx.batch[tx.next];
      var tx' := tx.(next := tx.next + 1, phase := Ready, writes := tx.writes[id := Marked(s.rows[id], tx.phase.mark, tx.began)]);
      Leads(Next, run', s0, s.(txs := s.txs[r := tx']))
  {
    var id := tx.batch[tx.next];
    var tx' := tx.(next := tx.next + 1, phase := Ready, writes := tx.writes[id := Marked(s.rows[id], tx.phase.mark, tx.began)]);
    var s' := s.(txs := s.txs[r := tx']);
    assert Next(s, Write(r), s');
    hide Leads, Extend, Next;
    ExtendLeads(Next, run, s0, s, Write(r), s');
    run' := Extend(run, Write(r), s');
  }

  lemma EndStep(s: State, r: RelayId, tx: Tx, others: map<RelayId, Tx>, s': State)
    requires s.txs == others[r := tx] && r !in others
    ensures s' == s.(txs := others) ==> Next(s, Rollback(r), s')
    ensures tx.next == |tx.batch| && tx.phase == Ready && s' == s.(rows := s.rows + tx.writes, txs := others) ==> Next(s, Commit(r), s')
  {
    assert s.txs - {r} == others;
  }

  lemma SelectionIsDistinct(rows: map<Id, Row>, txs: map<RelayId, Tx>, now: nat, batch: seq<Id>)
    requires IsSelection(rows, txs, now, batch)
    ensures forall i :: 0 <= i < |batch| ==> batch[i] in rows
    ensures forall i, j :: 0 <= i < j < |batch| ==> batch[i] != batch[j]
  {
    assert forall i :: 0 <= i < |batch| ==> Candidate(rows, batch[i], now);
    assert forall i, j :: 0 <= i < j < |batch| ==> rows[batch[i]].order < rows[batch[j]].order;
  }
}
