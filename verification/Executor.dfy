/** The block executor: running totals kept next to a mutable database. */
module Executor {
  import opened Primitives
  import opened StateDb
  import opened Transitions
  import opened Hardforks
  import opened PreExecution
  import opened ExecutorModel
  import Canyon
  import Granite
  import Holocene
  import Isthmus

  class FraxtalBlockExecutor {
    const spec: ChainSpec
    const timestamp: Word
    const gasLimit: U64
    const library: Library
    const create2Bytecode: Bytes
    const isRegolith: bool
    const db: Database
    var receipts: seq<Receipt>
    var gasUsed: U64
    var daFootprintUsed: U64

    function Cx(): Context {
      Context(spec, timestamp, gasLimit, library)
    }

    predicate Valid() {
      isRegolith == Regolith(Cx())
    }

    ghost function State(): Ledger
      reads this, db
    {
      Ledger(db.State(), gasUsed, daFootprintUsed, receipts)
    }

    constructor (spec: ChainSpec, timestamp: Word, gasLimit: U64, library: Library,
                 create2Bytecode: Bytes, db: Database)
      ensures Valid() && this.db == db && this.create2Bytecode == create2Bytecode
      ensures Cx() == Context(spec, timestamp, gasLimit, library)
      ensures State() == NewLedger(db.State())
    {
      this.spec, this.timestamp, this.gasLimit := spec, timestamp, gasLimit;
      this.library, this.create2Bytecode, this.db := library, create2Bytecode, db;
      isRegolith := Active(spec.regolith, SaturatingToU64(timestamp));
      receipts, gasUsed, daFootprintUsed := [], 0, 0;
    }

    // A library step loads every account its diff mentions before the diff is committed.
    method CommitDiff(diff: map<Address, Account>)
      modifies db`accounts, db`storage, db`loaded
      ensures State() == old(State()).(db := old(db.State()).(world := Committed(old(db.State()).world, diff)))
      ensures old(db.loaded) <= db.loaded
    {
      db.loaded := db.loaded + diff.Keys;
      db.Commit(diff);
    }

    method ApplyPreExecutionChanges() returns (r: PreExecutionOutcome)
      modifies db`accounts, db`storage, db`readCount, db`loaded
      ensures var (called, ok) := SystemCalls(library, old(db.State()));
              var run := RunChanges(PreExecutionChanges(spec, SaturatingToU64(timestamp), create2Bytecode), called);
              match ok
              case Err(e) => db.State() == called && r == Failed(e)
              case Ok(_) =>
                && db.State() == run.db
                && r == match run.outcome
                        case Done => Applied
                        case ReadFailed => Failed(DatabaseFailed)
                        case OutOfBounds => Panicked
      ensures State() == old(State()).(db := db.State())
    {
      hide RunChanges, PreExecutionChanges, Committed;
      var hashes := library.blockHashesCall(World(db.accounts, db.storage, db.codes, db.keccak));
      if hashes.None? { return Failed(SystemCallFailed); }
      CommitDiff(hashes.value);
      var root := library.beaconRootCall(World(db.accounts, db.storage, db.codes, db.keccak));
      if root.None? { return Failed(SystemCallFailed); }
      CommitDiff(root.value);
      var outcome := ApplyMigrations();
      match outcome
      case Done => return Applied;
      case ReadFailed => return Failed(DatabaseFailed);
      case OutOfBounds => return Panicked;
    }

    method ApplyMigrations() returns (outcome: Outcome)
      modifies db`accounts, db`storage, db`readCount, db`loaded
      ensures Run(db.State(), outcome) ==
              RunChanges(PreExecutionChanges(spec, SaturatingToU64(timestamp), create2Bytecode), old(db.State()))
      ensures State() == old(State()).(db := db.State())
    {
      hide RunChanges;
      var t := SaturatingToU64(timestamp);
      ghost var d := db.State();
      ghost var c, g := Canyon.CanyonChanges(spec, t, create2Bytecode), Granite.GraniteChanges(spec, t);
      ghost var h, i := Holocene.HoloceneChanges(spec, t), Isthmus.IsthmusChanges(spec, t);
      RunAppend(c, g, d);
      RunAppend(c + g, h, d);
      RunAppend(c + g + h, i, d);
      outcome := Canyon.EnsureCreate2Deployer(spec, t, create2Bytecode, db);
      if !outcome.Done? { return; }
      outcome := Granite.MigrateFrxusd(spec, t, db);
      if !outcome.Done? { return; }
      outcome := Holocene.MigrateFraxHolocene(spec, t, db);
      if !outcome.Done? { return; }
      outcome := Isthmus.MigrateFraxIsthmus(spec, t, db);
    }

    // The L1 block contract must be loaded before its scalar can be fetched.
    method JovianDaFootprintEstimation(tx: Transaction) returns (r: Result<U64, ExecutionError>)
      modifies db`readCount, db`loaded
      ensures old(db.loaded) <= db.loaded && (r.Ok? ==> L1_BLOCK_CONTRACT in db.loaded)
      ensures var d := old(db.State());
              if d.NextFails() then db.State() == d.Advance(1) && r == Err(DatabaseFailed)
              else db.State() == d.Advance(2)
                   && r == if d.Advance(1).NextFails() then Err(DatabaseFailed)
                           else Ok(DaFootprint(Cx(), d.world, tx))
    {
      var encoded := match tx.enveloped
        case None => library.compressedSize(tx.encoded2718)
        case Some(bytes) => library.compressedSize(bytes);
      encoded := encoded / 1_000_000;
      var basic := db.Basic(L1_BLOCK_CONTRACT);
      if basic.Err? { return Err(DatabaseFailed); }
      var scalar := FetchDaFootprintGasScalar();
      if scalar.Err? { return Err(DatabaseFailed); }
      return Ok(SaturatingMul(encoded, scalar.value));
    }

    method FetchDaFootprintGasScalar() returns (r: Result<U64, DbError>)
      requires L1_BLOCK_CONTRACT in db.loaded
      modifies db`readCount
      ensures db.State() == old(db.State()).Advance(1)
      ensures r == if old(db.State()).NextFails() then Err(ReadError) else Ok(library.daScalar(db.State().world))
    {
      var failed := db.readCount in db.faults;
      db.readCount := db.readCount + 1;
      if failed { return Err(ReadError); }
      return Ok(library.daScalar(World(db.accounts, db.storage, db.codes, db.keccak)));
    }

    // The EVM loads every account its state diff mentions.
    method TransactRaw(tx: Transaction) returns (r: Result<ResultAndState, ExecutionError>)
      modifies db`loaded
      ensures r == library.evm(db.State().world, tx)
      ensures old(db.loaded) <= db.loaded
      ensures r.Ok? ==> r.value.state.Keys <= db.loaded
    {
      r := library.evm(World(db.accounts, db.storage, db.codes, db.keccak), tx);
      db.loaded := db.loaded + if r.Ok? then r.value.state.Keys else {};
    }

    method ExecuteTransactionWithoutCommit(tx: Transaction) returns (r: Result<TxResult, ExecutionError>)
      requires Valid()
      modifies db`readCount, db`loaded
      ensures (State(), r) == Execute(Cx(), old(State()), tx)
      ensures old(db.loaded) <= db.loaded
      ensures r.Ok? ==> r.value.inner.state.Keys <= db.loaded
    {
      var isDeposit := tx.ty == DEPOSIT_TRANSACTION_TYPE;
      var blockAvailableGas := WrappingSub(gasLimit, gasUsed);
      if tx.gasLimit > blockAvailableGas && (isRegolith || !isDeposit) {
        return Err(GasLimitMoreThanAvailable(tx.gasLimit, blockAvailableGas));
      }
      var footprint: U64 := 0;
      if Active(spec.jovian, SaturatingToU64(timestamp)) && !isDeposit {
        var available := WrappingSub(gasLimit, daFootprintUsed);
        var estimate := JovianDaFootprintEstimation(tx);
        if estimate.Err? { return Err(DatabaseFailed); }
        if estimate.value > available {
          return Err(DaFootprintAboveGasLimit(estimate.value, available));
        }
        footprint := estimate.value;
      }
      var result := TransactRaw(tx);
      if result.Err? { return Err(EvmFailed); }
      return Ok(TxResult(result.value, footprint, tx.ty, isDeposit, tx.sender));
    }

    method CommitTransaction(output: TxResult) returns (r: Result<U64, ExecutionError>)
      requires Valid() && output.inner.state.Keys <= db.loaded
      modifies this`receipts, this`gasUsed, this`daFootprintUsed,
               db`accounts, db`storage, db`readCount, db`loaded
      ensures (State(), r) == Commit(Cx(), old(State()), output)
      ensures old(db.loaded) <= db.loaded
    {
      hide Committed;
      var depositor: Option<AccountInfo> := None;
      if isRegolith && output.isDeposit {
        var basic := db.Basic(output.sender);
        if basic.Err? { return Err(DatabaseFailed); }
        depositor := Some(match basic.value case Some(info) => info case None => DefaultInfo(db.keccak));
      }
      var transactionGas := output.inner.result.gasUsed;
      gasUsed := WrappingAdd(gasUsed, transactionGas);
      if Active(spec.jovian, SaturatingToU64(timestamp)) && !output.isDeposit {
        daFootprintUsed := SaturatingAdd(daFootprintUsed, output.blobGasUsed);
      }
      var nonce: Option<U64> := match depositor case Some(account) => Some(account.nonce) case None => None;
      receipts := receipts + [BuildReceipt(Cx(), output, gasUsed, nonce)];
      db.Commit(output.inner.state);
      return Ok(transactionGas);
    }

    // The balance increments are computed and committed by the database library.
    method Finish() returns (r: Result<BlockExecutionResult, ExecutionError>)
      modifies db`accounts, db`storage, db`loaded
      ensures var (after, ok) := AfterBlock(library, old(db.State()));
              && State() == old(State()).(db := after)
              && r == match ok case Err(e) => Err(e) case Ok(_) => Ok(Finished(old(State())))
    {
      var increments := library.balanceIncrements(World(db.accounts, db.storage, db.codes, db.keccak));
      if increments.None? { return Err(IncrementBalanceFailed); }
      CommitDiff(increments.value);
      if !library.hookInformed(World(db.accounts, db.storage, db.codes, db.keccak)) {
        return Err(StateHookFailed);
      }
      var legacyGasUsed: U64 := 0;
      if |receipts| > 0 {
        legacyGasUsed := receipts[|receipts| - 1].cumulativeGasUsed;
      }
      return Ok(BlockExecutionResult(receipts, legacyGasUsed, daFootprintUsed));
    }
  }
}
