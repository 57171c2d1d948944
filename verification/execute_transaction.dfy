/** The transaction execution workflow of the demand side: a stored
    transaction that is still pending is submitted (unless it already
    carries a hash), the workflow waits for the next block, verifies the
    transaction on chain, records the outcome, and then, by type and
    outcome, materialises or updates node records and notifies the
    provider. The stored transactions are a class whose rows the workflow
    patches step by step; the activities it calls are recorded in order. */
module TransactionWorkflow {
  import opened Common

  datatype TxStatus = Pending | Success | Failure

  datatype TxType = Stake | Unstake

  /** A stored transaction; the empty `hash` stands for "not submitted yet". */
  datatype Transaction = Transaction(
    id: nat,
    txType: TxType,
    status: TxStatus,
    hash: string,
    executionHeight: Option<int>,
    verificationHeight: Option<int>,
    code: Option<int>,
    log: Option<string>,
    consumedFee: int)

  /** What submitting returns; the empty `transactionHash` means the chain
      did not accept it, `message` is empty when the chain sent none. */
  datatype SendResult = SendResult(transactionHash: string, code: int, message: string)

  /** What verifying a hash on chain returns: success, result code, gas used
      (absent when the chain reports none). */
  datatype Verification = Verification(success: bool, code: int, gasUsed: Option<int>)

  /** The partial writes the workflow makes to the stored transaction. */
  datatype TxPatch =
    | MarkFailed(failCode: int, failLog: string)
    | MarkSubmitted(atHeight: int, txHash: string)
    | MarkVerified(newStatus: TxStatus, atHeight: int, fee: int)

  /** The activities the workflow runs, besides reading the transaction,
      reading the block height and patching the transaction. */
  datatype Activity =
    | Submit(transactionId: nat)
    | WaitForNextBlock(height: int)
    | VerifyOnChain(txHash: string)
    | CreateNodes(transactionId: nat)
    | NotifyStaked(transactionId: nat)
    | NotifyFailedStakes(transactionId: nat)
    | UpdateUnstakingNodes(transactionId: nat)
    | NotifyUnstaking(transactionId: nat)

  /** Why the workflow stops with an error: the transaction is unknown,
      it is not pending ("Transaction is not pending"), or the submission
      returned nothing ("Transaction execution failed"). */
  datatype WorkflowError = TransactionNotFound | NotPending | ExecutionFailed

  /** What the workflow returns: the transaction as read, with the fields
      the workflow decided overwritten, and for a completed run the height
      read before submitting, the nodes it created or moved to unstaking,
      and the verification code. */
  datatype Outcome =
    | RejectedBySubmission(record: Transaction)
    | Completed(record: Transaction, txHeight: int, newNodes: seq<string>, unstakingNodes: seq<string>, code: int)

  datatype Result<T> = Ok(value: T) | Err(error: WorkflowError)

  /** The text recorded for a rejected submission (`message || 'unknown error'`). */
  function FailureLog(message: string): (log: string)
    ensures |log| > 0
    ensures message != "" ==> log == message
  {
    if message != "" then message else "unknown error"
  }

  /** The status a verification leads to. */
  function FinalStatus(success: bool): (s: TxStatus)
    ensures s == Success <==> success
    ensures s != Pending
  {
    if success then Success else Failure
  }

  /** `Number(gasUsed || 0)`. */
  function ConsumedFee(gasUsed: Option<int>): int
  {
    if gasUsed.Some? then gasUsed.value else 0
  }

  /** A transaction after a partial write. */
  function Patch(t: Transaction, p: TxPatch): (r: Transaction)
    ensures r.id == t.id && r.txType == t.txType
  {
    match p
    case MarkFailed(c, l) => t.(status := Failure, code := Some(c), log := Some(l))
    case MarkSubmitted(h, hash) => t.(executionHeight := Some(h), hash := hash)
    case MarkVerified(s, h, fee) => t.(status := s, verificationHeight := Some(h), consumedFee := fee)
  }

  /** The activities that follow a verification, by type and outcome. */
  function FollowUp(txType: TxType, success: bool, id: nat): (steps: seq<Activity>)
    ensures CreateNodes(id) in steps <==> txType == Stake && success
    ensures UpdateUnstakingNodes(id) in steps <==> txType == Unstake && success
    ensures NotifyFailedStakes(id) in steps <==> txType == Stake && !success
    ensures txType == Unstake && !success ==> steps == []
  {
    if txType.Stake? then
      if success then [CreateNodes(id), NotifyStaked(id)] else [NotifyFailedStakes(id)]
    else if success then [UpdateUnstakingNodes(id), NotifyUnstaking(id)]
    else []
  }

  /** The stored transactions and the activities run against them, oldest first. */
  class TransactionStore {
    var rows: map<nat, Transaction>
    var activities: seq<Activity>

    constructor(initial: map<nat, Transaction>)
      ensures rows == initial && activities == []
    {
      rows, activities := initial, [];
    }

    /** `updateTransaction`: a partial write to the stored transaction. */
    method UpdateTransaction(id: nat, p: TxPatch)
      modifies this
      ensures rows == if id in old(rows) then old(rows)[id := Patch(old(rows)[id], p)] else old(rows)
      ensures activities == old(activities)
    {
      if id in rows {
        rows := rows[id := Patch(rows[id], p)];
      }
    }

    /** Runs an activity the workflow calls, which only the log records. */
    method Run(a: Activity)
      modifies this
      ensures rows == old(rows) && activities == old(activities) + [a]
    {
      activities := activities + [a];
    }
  }

  /** `ExecuteTransaction`. The chain and the activities it does not model
      come in as parameters: the two block heights it reads (before
      submitting and after verifying), the submission result (`None` for
      a null result), the on-chain verification of a hash, the nodes
      created from a successful stake (`None` when the activity returns
      nothing) and the nodes moved to unstaking by a successful unstake. */
  method ExecuteTransaction(store: TransactionStore, transactionId: nat,
                            heightBefore: int, heightAfter: int,
                            submission: Option<SendResult>,
                            verify: string -> Verification,
                            createdNodes: Option<seq<string>>,
                            unstakedNodes: seq<string>)
    returns (r: Result<Outcome>)
    modifies store
    // nothing happens to an unknown or non-pending transaction
    ensures transactionId !in old(store.rows) ==>
              r == Err(TransactionNotFound) && store.rows == old(store.rows) && store.activities == old(store.activities)
    ensures transactionId in old(store.rows) && old(store.rows)[transactionId].status != Pending ==>
              r == Err(NotPending) && store.rows == old(store.rows) && store.activities == old(store.activities)
    // every other outcome, by whether a hash is stored and what the submission returned
    ensures transactionId in old(store.rows) && old(store.rows)[transactionId].status == Pending ==>
              var t := old(store.rows)[transactionId];
              var submits := t.hash == "";
              if submits && submission.None? then
                // a null submission result fails the workflow after the attempt
                r == Err(ExecutionFailed) && store.rows == old(store.rows)
                && store.activities == old(store.activities) + [Submit(t.id)]
              else if submits && submission.value.transactionHash == "" then
                // a rejected submission marks the transaction failed; no wait, no verification
                var failed := Patch(t, MarkFailed(submission.value.code, FailureLog(submission.value.message)));
                r == Ok(RejectedBySubmission(failed))
                && store.rows == old(store.rows)[transactionId := failed]
                && store.activities == old(store.activities) + [Submit(t.id)]
              else
                // otherwise the fresh hash (or the stored one) is verified and the outcome recorded
                var hash := if submits then submission.value.transactionHash else t.hash;
                var v := verify(hash);
                var submitted := if submits then Patch(t, MarkSubmitted(heightBefore, hash)) else t;
                var recorded := Patch(submitted, MarkVerified(FinalStatus(v.success), heightAfter, ConsumedFee(v.gasUsed)));
                && store.rows == old(store.rows)[transactionId := recorded]
                && store.activities == old(store.activities) + (if submits then [Submit(t.id)] else [])
                                       + [WaitForNextBlock(heightBefore), VerifyOnChain(hash)]
                                       + FollowUp(t.txType, v.success, t.id)
                && r.Ok? && r.value.Completed?
                && r.value.record == t.(status := FinalStatus(v.success), hash := hash)
                && r.value.txHeight == heightBefore && r.value.code == v.code
                && r.value.newNodes == (if t.txType == Stake && v.success && createdNodes.Some? then createdNodes.value else [])
                && r.value.unstakingNodes == (if t.txType == Unstake && v.success then unstakedNodes else [])
  {
    if transactionId !in store.rows {
      return Err(TransactionNotFound);
    }
    var transaction := store.rows[transactionId];
    if transaction.status != Pending {
      return Err(NotPending);
    }
    var txHeight := heightBefore;
    var freshHash := "";
    if transaction.hash == "" {
      store.Run(Submit(transaction.id));
      if submission.None? {
        return Err(ExecutionFailed);
      }
      var result := submission.value;
      if result.transactionHash == "" {
        var log := FailureLog(result.message);
        store.UpdateTransaction(transactionId, MarkFailed(result.code, log));
        return Ok(RejectedBySubmission(transaction.(status := Failure, code := Some(result.code), log := Some(log))));
      }
      store.UpdateTransaction(transactionId, MarkSubmitted(txHeight, result.transactionHash));
      freshHash := result.transactionHash;
    }

    var hash := if freshHash != "" then freshHash else transaction.hash;
    r := VerifyAndFollowUp(store, transactionId, transaction, hash, txHeight, heightAfter, verify, createdNodes, unstakedNodes);
  }

  /** The rest of the workflow once the transaction has a hash: wait for
      the next block, verify the hash, record the result, then run the
      follow-up activities of the transaction's type and outcome. */
  method VerifyAndFollowUp(store: TransactionStore, transactionId: nat, transaction: Transaction, hash: string,
                           txHeight: int, heightAfter: int, verify: string -> Verification,
                           createdNodes: Option<seq<string>>, unstakedNodes: seq<string>)
    returns (r: Result<Outcome>)
    requires transactionId in store.rows
    modifies store
    ensures var v := verify(hash);
            var row := old(store.rows)[transactionId];
            && store.rows == old(store.rows)[transactionId := Patch(row, MarkVerified(FinalStatus(v.success), heightAfter, ConsumedFee(v.gasUsed)))]
            && store.activities == old(store.activities) + [WaitForNextBlock(txHeight), VerifyOnChain(hash)]
                                   + FollowUp(transaction.txType, v.success, transaction.id)
            && r == Ok(Completed(transaction.(status := FinalStatus(v.success), hash := hash), txHeight,
                                 if transaction.txType == Stake && v.success && createdNodes.Some? then createdNodes.value else [],
                                 if transaction.txType == Unstake && v.success then unstakedNodes else [],
                                 v.code))
  {
    store.Run(WaitForNextBlock(txHeight));
    store.Run(VerifyOnChain(hash));
    var v := verify(hash);
    var txStatus := FinalStatus(v.success);
    var verificationHeight := heightAfter;
    store.UpdateTransaction(transactionId, MarkVerified(txStatus, verificationHeight, ConsumedFee(v.gasUsed)));

    var record := transaction.(status := txStatus, hash := hash);
    if transaction.txType == Stake {
      if v.success {
        store.Run(CreateNodes(transaction.id));
        store.Run(NotifyStaked(transaction.id));
        var newNodes := if createdNodes.Some? then createdNodes.value else [];
        return Ok(Completed(record, txHeight, newNodes, [], v.code));
      } else {
        store.Run(NotifyFailedStakes(transaction.id));
        return Ok(Completed(record, txHeight, [], [], v.code));
      }
    } else if transaction.txType == Unstake && v.success {
      store.Run(UpdateUnstakingNodes(transaction.id));
      store.Run(NotifyUnstaking(transaction.id));
      return Ok(Completed(record, txHeight, [], unstakedNodes, v.code));
    }
    return Ok(Completed(record, txHeight, [], [], v.code));
  }
}
