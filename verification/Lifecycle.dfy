/**
 Transaction records, the shared transition guard of the storage layer and its
 four callers, and the paged status query.

 The specification side is the documented state diagram (`Edge`); the class
 `Store` runs the guard the way the code does, from lists of valid sources.
 */
module Lifecycle {
  import opened Types

  const MAX_REASON_LEN: nat := 64
  const MAX_STATUS_PAGE_LIMIT: nat := 50

  datatype TxStatus = Pending | Processing | Completed | Failed | Cancelled

  datatype Transaction = Transaction(
    status: TxStatus,
    amount: i128,
    caller: Address,
    reason: Option<string>,
    stellarTxHash: string)

  type Records = map<TxId, Transaction>

  datatype TransitionError = NotFound | InvalidSource

  datatype Op =
    | Start(id: TxId, caller: Address)
    | Complete(id: TxId, caller: Address)
    | Cancel(id: TxId, reason: string, caller: Address)
    | Fail(id: TxId, reason: string, caller: Address)

  // ---- The documented diagram ----

  predicate Edge(from: TxStatus, to: TxStatus) {
    match to
    case Pending => false
    case Processing => from == Pending
    case Completed => from == Processing
    case Failed => from == Pending || from == Processing
    case Cancelled => from == Pending || from == Processing
  }

  predicate Terminal(s: TxStatus) {
    s == Completed || s == Failed || s == Cancelled
  }

  function Target(op: Op): TxStatus {
    match op
    case Start(_, _) => Processing
    case Complete(_, _) => Completed
    case Cancel(_, _, _) => Cancelled
    case Fail(_, _, _) => Failed
  }

  function Reason(op: Op): Option<string> {
    if op.Cancel? || op.Fail? then Some(op.reason) else None
  }

  /** What a transition must answer, read off the diagram. */
  function Outcome(txs: Records, op: Op): Result<Transaction, TransitionError> {
    if Reason(op).Some? && |Reason(op).value| > MAX_REASON_LEN then Err(InvalidSource)
    else if op.id !in txs then Err(TransitionError.NotFound)
    else if !Edge(txs[op.id].status, Target(op)) then Err(InvalidSource)
    else Ok(txs[op.id].(status := Target(op), caller := op.caller, reason := Reason(op)))
  }

  /** What it must leave in storage: errors write nothing, successes one record. */
  function Apply(txs: Records, op: Op): Records {
    match Outcome(txs, op)
    case Ok(tx) => txs[op.id := tx]
    case Err(_) => txs
  }

  // ---- Runs ----

  /** A registration writes a fresh pending record and never overwrites one. */
  datatype Event =
    | Registered(txId: TxId, amount: i128, caller: Address)
    | Moved(op: Op)

  function NewRecord(amount: i128, caller: Address): Transaction {
    Transaction(Pending, amount, caller, None, "")
  }

  function Step(txs: Records, e: Event): Records {
    match e
    case Registered(id, amount, caller) => if id in txs then txs else txs[id := NewRecord(amount, caller)]
    case Moved(op) => Apply(txs, op)
  }

  function Run(txs: Records, events: seq<Event>): Records
    decreases |events|
  {
    if events == [] then txs else Run(Step(txs, events[0]), events[1..])
  }

  /** How many transitions of `id` succeed along the run. */
  function Successes(txs: Records, events: seq<Event>, id: TxId): nat
    decreases |events|
  {
    if events == [] then 0
    else
      (if events[0].Moved? && events[0].op.id == id && Outcome(txs, events[0].op).Ok? then 1 else 0)
      + Successes(Step(txs, events[0]), events[1..], id)
  }

  function Rank(s: TxStatus): nat {
    match s
    case Pending => 2
    case Processing => 1
    case _ => 0
  }

  /** The reflexive-transitive closure of `Edge`, written out. */
  predicate Path(from: TxStatus, to: TxStatus) {
    from == to || Edge(from, to) || (from == Pending && Edge(Processing, to))
  }

  predicate ReasonsInPlace(txs: Records) {
    forall id :: id in txs ==>
      && (txs[id].reason.Some? <==> txs[id].status == Failed || txs[id].status == Cancelled)
      && (txs[id].reason.Some? ==> |txs[id].reason.value| <= MAX_REASON_LEN)
  }

  /** No step deletes a record, and a record that changes at all has moved along
      one edge of the diagram, by the one operation that named it. */
  lemma StepFollowsAnEdge(txs: Records, e: Event, id: TxId)
    requires id in txs
    ensures id in Step(txs, e)
    ensures Step(txs, e)[id] != txs[id] ==>
              e.Moved? && e.op.id == id && Edge(txs[id].status, Step(txs, e)[id].status)
    ensures e.Moved? && e.op.id == id && Outcome(txs, e.op).Ok? ==>
              Rank(Step(txs, e)[id].status) < Rank(txs[id].status)
  {
  }

  /** Over every run a transaction stays on the diagram, each success costs it
      rank (so at most two succeed), and a terminal record never changes again. */
  lemma {:induction false} TransactionHistory(txs: Records, events: seq<Event>, id: TxId)
    requires id in txs
    ensures id in Run(txs, events)
    ensures Path(txs[id].status, Run(txs, events)[id].status)
    ensures Successes(txs, events, id) + Rank(Run(txs, events)[id].status) <= Rank(txs[id].status)
    ensures Successes(txs, events, id) <= 2
    ensures Successes(txs, events, id) == 0 <==> Run(txs, events)[id].status == txs[id].status
    ensures Terminal(txs[id].status) ==> Run(txs, events)[id] == txs[id]
    decreases |events|
  {
    if events != [] {
      StepFollowsAnEdge(txs, events[0], id);
      TransactionHistory(Step(txs, events[0]), events[1..], id);
    }
  }

  lemma StepKeepsReasons(txs: Records, e: Event)
    requires ReasonsInPlace(txs)
    ensures ReasonsInPlace(Step(txs, e))
  {
  }

  /** Starting from records whose reasons are in place (in particular from none),
      a reason is stored exactly in Failed and Cancelled, within the cap. */
  lemma {:induction false} ReasonsOverRuns(txs: Records, events: seq<Event>)
    requires ReasonsInPlace(txs)
    ensures ReasonsInPlace(Run(txs, events))
    decreases |events|
  {
    if events != [] {
      StepKeepsReasons(txs, events[0]);
      ReasonsOverRuns(Step(txs, events[0]), events[1..]);
    }
  }

  // ---- Which transitions succeed, and what they write ----

  /** A transition succeeds iff the record exists, is in a source of that transition,
      and the reason is at most 64 characters; it is `NotFound` iff nothing else is
      wrong than the id. */
  lemma SucceedsIff(txs: Records, op: Op)
    ensures Outcome(txs, op).Ok? <==>
            && op.id in txs
            && (op.Start? ==> txs[op.id].status == Pending)
            && (op.Complete? ==> txs[op.id].status == Processing)
            && (op.Cancel? || op.Fail? ==>
                  (txs[op.id].status == Pending || txs[op.id].status == Processing) && |op.reason| <= 64)
    ensures Outcome(txs, op) == Err(TransitionError.NotFound) <==>
            op.id !in txs && (op.Cancel? || op.Fail? ==> |op.reason| <= 64)
  {
  }

  /** What a successful transition leaves in the record, field by field. */
  ghost predicate WrittenBy(op: Op, before: Transaction, after: Transaction) {
    && after.status == (match op
                        case Start(_, _) => Processing
                        case Complete(_, _) => Completed
                        case Cancel(_, _, _) => Cancelled
                        case Fail(_, _, _) => Failed)
    && after.caller == op.caller
    && after.reason == (if op.Cancel? || op.Fail? then Some(op.reason) else None)
    && after.amount == before.amount && after.stellarTxHash == before.stellarTxHash
  }

  /** The last successful transition of `id` along the run. */
  function LastMove(txs: Records, events: seq<Event>, id: TxId): Option<Op>
    decreases |events|
  {
    if events == [] then None
    else
      var later := LastMove(Step(txs, events[0]), events[1..], id);
      if later.None? && events[0].Moved? && events[0].op.id == id && Outcome(txs, events[0].op).Ok?
      then Some(events[0].op) else later
  }

  lemma MoveWrites(txs: Records, e: Event, id: TxId)
    requires id in txs
    ensures id in Step(txs, e)
    ensures e.Moved? && e.op.id == id && Outcome(txs, e.op).Ok? ==> WrittenBy(e.op, txs[id], Step(txs, e)[id])
    ensures !(e.Moved? && e.op.id == id && Outcome(txs, e.op).Ok?) ==> Step(txs, e)[id] == txs[id]
  {
  }

  /** Over every run a record shows exactly its last successful transition: its
      target, its caller and its reason; amount and hash stay. */
  lemma {:induction false} RecordShowsLastMove(txs: Records, events: seq<Event>, id: TxId)
    requires id in txs
    ensures id in Run(txs, events)
    ensures match LastMove(txs, events, id)
            case None => Run(txs, events)[id] == txs[id]
            case Some(op) => WrittenBy(op, txs[id], Run(txs, events)[id])
    decreases |events|
  {
    if events != [] {
      MoveWrites(txs, events[0], id);
      RecordShowsLastMove(Step(txs, events[0]), events[1..], id);
    }
  }

  /** A registration writes a pending record with its amount and caller, and leaves
      an existing one alone. */
  lemma RegistrationWrites(txs: Records, id: TxId, amount: i128, caller: Address)
    ensures var after := Step(txs, Registered(id, amount, caller));
            && id in after && (forall other :: other in txs ==> other in after && after[other] == txs[other])
            && (id !in txs ==> after[id] == Transaction(Pending, amount, caller, None, ""))
            && (forall other :: other in after && other != id ==> other in txs)
  {
  }

  // ---- Paged status query ----

  /** Position `i` of the index holds a record that exists and is in `status`. */
  predicate Matches(txs: Records, status: TxStatus, index: seq<TxId>, i: nat)
    requires i < |index|
  {
    index[i] in txs && txs[index[i]].status == status
  }

  /** Filtering positions `from` up to `upto` of an index: the records that exist and
      are still in `status`, in index order. */
  function Filter(txs: Records, status: TxStatus, index: seq<TxId>, from: nat, upto: nat): seq<Transaction>
    requires upto <= |index|
    decreases upto
  {
    if upto <= from then []
    else
      Filter(txs, status, index, from, upto - 1)
      + if Matches(txs, status, index, upto - 1) then [txs[index[upto - 1]]] else []
  }

  function Min(a: nat, b: nat): nat {
    if a <= b then a else b
  }

  /** The page at `offset`, with mathematical addition. */
  function Page(txs: Records, status: TxStatus, index: seq<TxId>, offset: nat, limit: nat): seq<Transaction> {
    Filter(txs, status, index, offset, Min(offset + limit, |index|))
  }

  /** What a client collects that asks for page after page from `offset` on. */
  function AllPages(txs: Records, status: TxStatus, index: seq<TxId>, offset: nat, limit: nat): seq<Transaction>
    requires limit > 0
    decreases |index| - offset
  {
    if offset >= |index| then []
    else Page(txs, status, index, offset, limit) + AllPages(txs, status, index, offset + limit, limit)
  }

  lemma {:induction false} FilterSplit(txs: Records, status: TxStatus, index: seq<TxId>, from: nat, mid: nat, upto: nat)
    requires from <= mid <= upto <= |index|
    ensures Filter(txs, status, index, from, upto)
         == Filter(txs, status, index, from, mid) + Filter(txs, status, index, mid, upto)
    decreases upto
  {
    if mid < upto {
      FilterSplit(txs, status, index, from, mid, upto - 1);
    }
  }

  lemma {:induction false} FilterLength(txs: Records, status: TxStatus, index: seq<TxId>, from: nat, upto: nat)
    requires from <= upto <= |index|
    ensures |Filter(txs, status, index, from, upto)| <= upto - from
    decreases upto
  {
    if from < upto {
      FilterLength(txs, status, index, from, upto - 1);
    }
  }

  /** Consecutive pages concatenate to the filtered index, for every page size,
      and no page is longer than its limit. */
  lemma {:induction false} PagingIsFiltering(txs: Records, status: TxStatus, index: seq<TxId>, offset: nat, limit: nat)
    requires limit > 0 && offset <= |index|
    ensures AllPages(txs, status, index, offset, limit) == Filter(txs, status, index, offset, |index|)
    ensures |Page(txs, status, index, offset, limit)| <= limit
    decreases |index| - offset
  {
    if offset < |index| {
      var end := Min(offset + limit, |index|);
      FilterLength(txs, status, index, offset, end);
      FilterSplit(txs, status, index, offset, end, |index|);
      if offset + limit <= |index| {
        PagingIsFiltering(txs, status, index, offset + limit, limit);
      }
    }
  }

  /** `at` lists, ascending, exactly the positions from `from` up to `upto` whose record
      exists and is in `status`. */
  ghost predicate ListsMatches(txs: Records, status: TxStatus, index: seq<TxId>, from: nat, upto: nat, at: seq<nat>)
    requires upto <= |index|
  {
    && (forall k :: 0 <= k < |at| ==>
          from <= at[k] < upto && index[at[k]] in txs && txs[index[at[k]]].status == status)
    && (forall j, k :: 0 <= j < k < |at| ==> at[j] < at[k])
    && (forall i :: from <= i < upto && index[i] in txs && txs[index[i]].status == status ==> i in at)
  }

  /** The records at the listed positions. */
  function RecordsAt(txs: Records, index: seq<TxId>, at: seq<nat>): seq<Transaction>
    requires forall k :: 0 <= k < |at| ==> at[k] < |index| && index[at[k]] in txs
  {
    seq(|at|, k requires 0 <= k < |at| => txs[index[at[k]]])
  }

  lemma ListsSnoc(txs: Records, status: TxStatus, index: seq<TxId>, from: nat, upto: nat, at: seq<nat>)
    requires from <= upto < |index| && ListsMatches(txs, status, index, from, upto, at)
    ensures Matches(txs, status, index, upto) ==> ListsMatches(txs, status, index, from, upto + 1, at + [upto])
    ensures !Matches(txs, status, index, upto) ==> ListsMatches(txs, status, index, from, upto + 1, at)
  {
    assert forall i :: i in at ==> i in at + [upto];
  }

  lemma {:induction false} FilterIsExact(txs: Records, status: TxStatus, index: seq<TxId>, from: nat, upto: nat)
    returns (at: seq<nat>)
    requires from <= upto <= |index|
    ensures ListsMatches(txs, status, index, from, upto, at)
    ensures Filter(txs, status, index, from, upto) == RecordsAt(txs, index, at)
    decreases upto
  {
    at := [];
    if from < upto {
      at := FilterIsExact(txs, status, index, from, upto - 1);
      ListsSnoc(txs, status, index, from, upto - 1, at);
      if Matches(txs, status, index, upto - 1) {
        assert RecordsAt(txs, index, at + [upto - 1]) == RecordsAt(txs, index, at) + [txs[index[upto - 1]]];
        at := at + [upto - 1];
      }
    }
  }

  /** A page shows exactly the indexed ids among its `limit` positions that exist with
      that status, each once per position and in index order. */
  lemma PageIsExact(txs: Records, status: TxStatus, index: seq<TxId>, offset: nat, limit: nat) returns (at: seq<nat>)
    ensures ListsMatches(txs, status, index, offset,
                         if offset + limit <= |index| then offset + limit else |index|, at)
    ensures |Page(txs, status, index, offset, limit)| == |at|
    ensures forall k :: 0 <= k < |at| ==> Page(txs, status, index, offset, limit)[k] == txs[index[at[k]]]
  {
    var upto := if offset + limit <= |index| then offset + limit else |index|;
    if offset <= upto {
      at := FilterIsExact(txs, status, index, offset, upto);
    } else {
      at := [];
    }
  }

  function SaturatingAddU32(a: u32, b: u32): u32 {
    if a + b > U32_MAX then U32_MAX else a + b
  }

  // ---- Storage ----

  class Store {
    var transactions: Records
    var statusIndex: map<TxStatus, seq<TxId>>

    constructor ()
      ensures transactions == map[] && statusIndex == map[]
    {
      transactions := map[];
      statusIndex := map[];
    }

    /** The guard every lifecycle entry point goes through. */
    method TransitionStatus(id: TxId, validSources: seq<TxStatus>, target: TxStatus, caller: Address,
                            reason: Option<string>)
      returns (r: Result<Transaction, TransitionError>)
      modifies this`transactions
      ensures id !in old(transactions) ==> r == Err(TransitionError.NotFound)
      ensures id in old(transactions) && old(transactions)[id].status !in validSources ==> r == Err(InvalidSource)
      ensures id in old(transactions) && old(transactions)[id].status in validSources ==>
                r == Ok(old(transactions)[id].(status := target, caller := caller, reason := reason))
      ensures transactions == if r.Ok? then old(transactions)[id := r.value] else old(transactions)
    {
      if id !in transactions {
        return Err(TransitionError.NotFound);
      }
      var tx := transactions[id];
      if tx.status !in validSources {
        return Err(InvalidSource);
      }
      tx := tx.(status := target);
      tx := tx.(caller := caller);
      tx := tx.(reason := reason);
      transactions := transactions[id := tx];
      return Ok(tx);
    }

    method StartProcessing(id: TxId, caller: Address) returns (r: Result<Transaction, TransitionError>)
      modifies this`transactions
      ensures r == Outcome(old(transactions), Start(id, caller))
      ensures transactions == Apply(old(transactions), Start(id, caller))
    {
      r := TransitionStatus(id, [Pending], Processing, caller, None);
    }

    method CompleteTransaction(id: TxId, caller: Address) returns (r: Result<Transaction, TransitionError>)
      modifies this`transactions
      ensures r == Outcome(old(transactions), Complete(id, caller))
      ensures transactions == Apply(old(transactions), Complete(id, caller))
    {
      r := TransitionStatus(id, [Processing], Completed, caller, None);
    }

    method CancelTransaction(id: TxId, reason: string, caller: Address)
      returns (r: Result<Transaction, TransitionError>)
      modifies this`transactions
      ensures r == Outcome(old(transactions), Cancel(id, reason, caller))
      ensures transactions == Apply(old(transactions), Cancel(id, reason, caller))
    {
      if |reason| > MAX_REASON_LEN {
        return Err(InvalidSource);
      }
      r := TransitionStatus(id, [Pending, Processing], Cancelled, caller, Some(reason));
    }

    method FailTransaction(id: TxId, reason: string, caller: Address)
      returns (r: Result<Transaction, TransitionError>)
      modifies this`transactions
      ensures r == Outcome(old(transactions), Fail(id, reason, caller))
      ensures transactions == Apply(old(transactions), Fail(id, reason, caller))
    {
      if |reason| > MAX_REASON_LEN {
        return Err(InvalidSource);
      }
      r := TransitionStatus(id, [Pending, Processing], Failed, caller, Some(reason));
    }

    function StatusIndex(status: TxStatus): seq<TxId>
      reads this
    {
      if status in statusIndex then statusIndex[status] else []
    }

    /** One page of the transactions in `status`. The index length is a `u32`, so
        the saturating end of the range is the true one. */
    method GetTransactionsByStatus(status: TxStatus, offset: u32, limit: u32)
      returns (r: Result<seq<Transaction>, ContractError>)
      requires |StatusIndex(status)| <= U32_MAX
      ensures r == if limit == 0 || limit > 50 then Err(InvalidPageLimit)
                   else Ok(Page(transactions, status, StatusIndex(status), offset, limit))
    {
      if limit == 0 || limit > MAX_STATUS_PAGE_LIMIT {
        return Err(InvalidPageLimit);
      }
      var index := StatusIndex(status);
      var total: u32 := |index|;
      var page := [];
      if offset >= total {
        return Ok(page);
      }
      var end := Min(SaturatingAddU32(offset, limit), total);
      var i := offset;
      while i < end
        invariant offset <= i <= end <= total
        invariant page == Filter(transactions, status, index, offset, i)
      {
        var txId := index[i];
        if txId in transactions {
          var tx := transactions[txId];
          if tx.status == status {
            page := page + [tx];
          }
        }
        i := i + 1;
      }
      return Ok(page);
    }
  }
}
