/** The block executor's accounting as functions on values: what one execution and one commit do
    to the ledger. The class in Executor is proved to compute them. */
module ExecutorModel {
  import opened Primitives
  import opened StateDb
  import opened Hardforks

  const DEPOSIT_TRANSACTION_TYPE: Byte := 126
  const L1_BLOCK_CONTRACT: Address := 0x4200000000000000000000000000000000000015

  // A recovered transaction with its environment; the enveloped bytes may be missing.
  datatype Transaction = Transaction(
    ty: Byte, gasLimit: U64, sender: Address, enveloped: Option<Bytes>, encoded2718: Bytes)

  predicate IsDeposit(tx: Transaction) {
    tx.ty == DEPOSIT_TRANSACTION_TYPE
  }

  datatype ExecutionResult = ExecutionResult(gasUsed: U64, success: bool, logs: seq<Bytes>)

  datatype ResultAndState = ResultAndState(result: ExecutionResult, state: map<Address, Account>)

  datatype TxResult = TxResult(
    inner: ResultAndState, blobGasUsed: U64, txType: Byte, isDeposit: bool, sender: Address)

  datatype ExecutionError =
    | GasLimitMoreThanAvailable(transactionGasLimit: U64, blockAvailableGas: U64)
    | DaFootprintAboveGasLimit(transactionDaFootprint: U64, availableBlockDaFootprint: U64)
    | DatabaseFailed
    | EvmFailed
    | SystemCallFailed
    | IncrementBalanceFailed
    | StateHookFailed

  datatype Receipt =
    | Receipt(txType: Byte, success: bool, cumulativeGasUsed: U64, logs: seq<Bytes>)
    | DepositReceipt(success: bool, cumulativeGasUsed: U64, logs: seq<Bytes>,
                     depositNonce: Option<U64>, depositReceiptVersion: Option<nat>)

  // The parts that come from libraries: interpretation of a transaction against a world, the
  // estimated compressed size of its encoding, the scalar the L1 block contract holds, the diffs of
  // the two system calls before the first transaction, the balance increments after the last, and
  // whether a state hook, if one is set, can be told of them.
  datatype Library = Library(
    evm: (World, Transaction) -> Result<ResultAndState, ExecutionError>,
    compressedSize: Bytes -> U64,
    daScalar: World -> U64,
    blockHashesCall: World -> Option<map<Address, Account>>,
    beaconRootCall: World -> Option<map<Address, Account>>,
    balanceIncrements: World -> Option<map<Address, Account>>,
    hookInformed: World -> bool)

  datatype Context = Context(spec: ChainSpec, timestamp: Word, gasLimit: U64, library: Library)

  function Time(cx: Context): U64 {
    SaturatingToU64(cx.timestamp)
  }

  predicate Regolith(cx: Context) {
    Active(cx.spec.regolith, Time(cx))
  }

  predicate Jovian(cx: Context) {
    Active(cx.spec.jovian, Time(cx))
  }

  // What the executor holds: the database and its running totals.
  datatype Ledger = Ledger(db: DbState, gasUsed: U64, daFootprintUsed: U64, receipts: seq<Receipt>)

  function NewLedger(db: DbState): Ledger {
    Ledger(db, 0, 0, [])
  }

  // The compressed size counts in millionths of a byte.
  function SizeEstimate(cx: Context, tx: Transaction): U64 {
    var bytes := match tx.enveloped case Some(encoded) => encoded case None => tx.encoded2718;
    cx.library.compressedSize(bytes) / 1_000_000
  }

  function DaFootprint(cx: Context, w: World, tx: Transaction): U64 {
    SaturatingMul(SizeEstimate(cx, tx), cx.library.daScalar(w))
  }

  // ---------- Before the first transaction ----------

  // How the work before the first transaction ends: a slice out of range panics, which is no error
  // a caller sees.
  datatype PreExecutionOutcome = Applied | Failed(error: ExecutionError) | Panicked

  // The two system calls run against the world in turn, each committed before the next step; a
  // call that fails ends the block with what was committed before it.
  function SystemCalls(library: Library, d: DbState): (DbState, Result<(), ExecutionError>) {
    match library.blockHashesCall(d.world)
    case None => (d, Err(SystemCallFailed))
    case Some(hashes) =>
      var d1 := d.(world := Committed(d.world, hashes));
      match library.beaconRootCall(d1.world)
      case None => (d1, Err(SystemCallFailed))
      case Some(root) => (d1.(world := Committed(d1.world, root)), Ok(()))
  }

  // ---------- Executing without committing ----------

  predicate GasRejects(cx: Context, s: Ledger, tx: Transaction) {
    tx.gasLimit > WrappingSub(cx.gasLimit, s.gasUsed) && (Regolith(cx) || !IsDeposit(tx))
  }

  predicate CountsFootprint(cx: Context, tx: Transaction) {
    Jovian(cx) && !IsDeposit(tx)
  }

  predicate DaRejects(cx: Context, s: Ledger, tx: Transaction) {
    CountsFootprint(cx, tx) && DaFootprint(cx, s.db.world, tx) > WrappingSub(cx.gasLimit, s.daFootprintUsed)
  }

  function Advanced(s: Ledger, n: nat): Ledger {
    s.(db := s.db.Advance(n))
  }

  function Transact(cx: Context, s: Ledger, tx: Transaction, footprint: U64): Result<TxResult, ExecutionError> {
    match cx.library.evm(s.db.world, tx)
    case Ok(out) => Ok(TxResult(out, footprint, tx.ty, IsDeposit(tx), tx.sender))
    case Err(_) => Err(EvmFailed)
  }

  // The gas check, the footprint check with its two database reads, then the EVM. Only the read
  // count of the ledger changes.
  function Execute(cx: Context, s: Ledger, tx: Transaction): (Ledger, Result<TxResult, ExecutionError>) {
    if GasRejects(cx, s, tx) then
      (s, Err(GasLimitMoreThanAvailable(tx.gasLimit, WrappingSub(cx.gasLimit, s.gasUsed))))
    else if !CountsFootprint(cx, tx) then
      (s, Transact(cx, s, tx, 0))
    else if s.db.NextFails() then
      (Advanced(s, 1), Err(DatabaseFailed))
    else if s.db.Advance(1).NextFails() then
      (Advanced(s, 2), Err(DatabaseFailed))
    else
      var footprint := DaFootprint(cx, s.db.world, tx);
      if DaRejects(cx, s, tx) then
        (Advanced(s, 2), Err(DaFootprintAboveGasLimit(footprint, WrappingSub(cx.gasLimit, s.daFootprintUsed))))
      else
        (Advanced(s, 2), Transact(cx, s, tx, footprint))
  }

  // ---------- Committing ----------

  // The receipt builder handles every type but deposits, whose receipt is built by hand.
  function BuildReceipt(cx: Context, out: TxResult, cumulativeGasUsed: U64, depositNonce: Option<U64>): Receipt {
    var result := out.inner.result;
    if out.txType != DEPOSIT_TRANSACTION_TYPE then
      Receipt(out.txType, result.success, cumulativeGasUsed, result.logs)
    else
      DepositReceipt(result.success, cumulativeGasUsed, result.logs, depositNonce,
                     if out.isDeposit && Active(cx.spec.canyon, Time(cx)) then Some(1) else None)
  }

  predicate RecordsNonce(cx: Context, out: TxResult) {
    Regolith(cx) && out.isDeposit
  }

  function Commit(cx: Context, s: Ledger, out: TxResult): (Ledger, Result<U64, ExecutionError>) {
    if RecordsNonce(cx, out) && s.db.NextFails() then
      (Advanced(s, 1), Err(DatabaseFailed))
    else
      var nonce := if RecordsNonce(cx, out) then Some(Info(s.db.world, out.sender).nonce) else None;
      var db := if RecordsNonce(cx, out) then s.db.Advance(1) else s.db;
      var gasUsed := WrappingAdd(s.gasUsed, out.inner.result.gasUsed);
      var daFootprintUsed := if Jovian(cx) && !out.isDeposit
                             then SaturatingAdd(s.daFootprintUsed, out.blobGasUsed) else s.daFootprintUsed;
      var receipt := BuildReceipt(cx, out, gasUsed, nonce);
      (Ledger(db.(world := Committed(s.db.world, out.inner.state)), gasUsed, daFootprintUsed, s.receipts + [receipt]),
       Ok(out.inner.result.gasUsed))
  }

  // ---------- Finishing ----------

  // The increments are committed first; a hook that cannot be told of them fails the block after
  // that.
  function AfterBlock(library: Library, d: DbState): (DbState, Result<(), ExecutionError>) {
    match library.balanceIncrements(d.world)
    case None => (d, Err(IncrementBalanceFailed))
    case Some(diff) =>
      var d1 := d.(world := Committed(d.world, diff));
      (d1, if library.hookInformed(d1.world) then Ok(()) else Err(StateHookFailed))
  }

  datatype BlockExecutionResult = BlockExecutionResult(receipts: seq<Receipt>, gasUsed: U64, blobGasUsed: U64)

  function Finished(s: Ledger): BlockExecutionResult {
    var gasUsed := if s.receipts == [] then 0 else s.receipts[|s.receipts| - 1].cumulativeGasUsed;
    BlockExecutionResult(s.receipts, gasUsed, s.daFootprintUsed)
  }

  // ---------- A block ----------

  // One transaction, executed and committed before the next; a rejected one is skipped.
  function Process(cx: Context, s: Ledger, tx: Transaction): Ledger {
    var (executed, r) := Execute(cx, s, tx);
    match r
    case Err(_) => executed
    case Ok(out) => Commit(cx, executed, out).0
  }

  function RunBlock(cx: Context, s: Ledger, txs: seq<Transaction>): Ledger {
    if txs == [] then s
    else Process(cx, RunBlock(cx, s, txs[..|txs| - 1]), txs[|txs| - 1])
  }
}
