/** Invariants and totals over whole runs of the block executor. */
module ExecutorRuns {
  import opened Primitives
  import opened StateDb
  import opened Hardforks
  import opened ExecutorModel

  // ---------- Assumptions on a run ----------

  // The EVM never uses more gas than the transaction's limit.
  ghost predicate GasBounded(library: Library) {
    forall w, tx :: library.evm(w, tx).Ok? ==> library.evm(w, tx).value.result.gasUsed <= tx.gasLimit
  }

  predicate NoDeposits(txs: seq<Transaction>) {
    forall i :: 0 <= i < |txs| ==> !IsDeposit(txs[i])
  }

  // ---------- The log of a run ----------

  // One committed transaction, the world it was executed in, the gas its commit returned and the
  // footprint it was charged.
  datatype Entry = Entry(tx: Transaction, world: World, gas: U64, footprint: U64)

  function CommitEntry(cx: Context, s: Ledger, tx: Transaction): Option<Entry> {
    var (executed, r) := Execute(cx, s, tx);
    match r
    case Err(_) => None
    case Ok(out) =>
      match Commit(cx, executed, out).1
      case Err(_) => None
      case Ok(gas) => Some(Entry(tx, s.db.world, gas, out.blobGasUsed))
  }

  function Log(cx: Context, s: Ledger, txs: seq<Transaction>): seq<Entry> {
    if txs == [] then []
    else
      var init := txs[..|txs| - 1];
      var entry := CommitEntry(cx, RunBlock(cx, s, init), txs[|txs| - 1]);
      Log(cx, s, init) + match entry case None => [] case Some(e) => [e]
  }

  function TotalGas(log: seq<Entry>): nat {
    if log == [] then 0 else TotalGas(log[..|log| - 1]) + log[|log| - 1].gas
  }

  function TotalFootprint(log: seq<Entry>): nat {
    if log == [] then 0 else TotalFootprint(log[..|log| - 1]) + log[|log| - 1].footprint
  }

  // ---------- One transaction ----------

  // What a step does, whatever happens: it changes nothing but the read count, or it commits the
  // EVM's result for the transaction against the world of the step, once.
  lemma StepShape(cx: Context, s: Ledger, tx: Transaction)
    ensures var s', e := Process(cx, s, tx), CommitEntry(cx, s, tx);
            match e
            case None => s' == Advanced(s, s'.db.readCount - s.db.readCount) && s'.db.readCount >= s.db.readCount
            case Some(entry) =>
              && cx.library.evm(s.db.world, tx).Ok?
              && var out := cx.library.evm(s.db.world, tx).value;
              && entry.tx == tx && entry.gas == out.result.gasUsed
              && s'.gasUsed == WrappingAdd(s.gasUsed, entry.gas)
              && s'.daFootprintUsed ==
                 (if CountsFootprint(cx, tx) then SaturatingAdd(s.daFootprintUsed, entry.footprint)
                  else s.daFootprintUsed)
              && s'.db.world == Committed(s.db.world, out.state) && s'.db.faults == s.db.faults
              && |s'.receipts| == |s.receipts| + 1 && s'.receipts[..|s.receipts|] == s.receipts
              && s'.receipts[|s.receipts|].cumulativeGasUsed == s'.gasUsed
  {
    hide Committed;
  }

  // While the totals are within the limit, the wrapping and saturating checks admit exactly the
  // transactions that fit in exact arithmetic.
  lemma AcceptedIff(cx: Context, s: Ledger, tx: Transaction)
    requires s.db.FaultFree() && s.gasUsed <= cx.gasLimit && s.daFootprintUsed <= cx.gasLimit
    ensures CommitEntry(cx, s, tx).Some? <==>
            && (s.gasUsed + tx.gasLimit <= cx.gasLimit || (!Regolith(cx) && IsDeposit(tx)))
            && (Jovian(cx) && !IsDeposit(tx) ==> s.daFootprintUsed + DaFootprint(cx, s.db.world, tx) <= cx.gasLimit)
            && cx.library.evm(s.db.world, tx).Ok?
  {
    hide Committed, BuildReceipt, DaFootprint;
  }

  // Gas: an accepted transaction fits, so the total neither wraps nor passes the block limit.
  lemma GasStep(cx: Context, s: Ledger, tx: Transaction)
    requires GasBounded(cx.library) && s.gasUsed <= cx.gasLimit
    requires Regolith(cx) || !IsDeposit(tx)
    ensures Process(cx, s, tx).gasUsed <= cx.gasLimit
    ensures CommitEntry(cx, s, tx).Some? ==>
              Process(cx, s, tx).gasUsed == s.gasUsed + CommitEntry(cx, s, tx).value.gas
  {
  }

  // Footprint: an accepted transaction fits, so the sum never saturates.
  lemma DaStep(cx: Context, s: Ledger, tx: Transaction)
    requires s.daFootprintUsed <= cx.gasLimit
    ensures Process(cx, s, tx).daFootprintUsed <= cx.gasLimit
    ensures match CommitEntry(cx, s, tx)
            case None => Process(cx, s, tx).daFootprintUsed == s.daFootprintUsed
            case Some(e) =>
              && Process(cx, s, tx).daFootprintUsed == s.daFootprintUsed + e.footprint
              && e.footprint == if CountsFootprint(cx, tx) then DaFootprint(cx, s.db.world, tx) else 0
  {
  }

  // ---------- Whole runs ----------

  // In every state reachable under Regolith, or without deposits, the gas used stays within the
  // block gas limit and is exactly the sum of the committed amounts: no subtraction underflows
  // and no addition wraps.
  lemma {:induction false} GasNeverWraps(cx: Context, d: DbState, txs: seq<Transaction>)
    requires GasBounded(cx.library)
    requires Regolith(cx) || NoDeposits(txs)
    ensures var s := RunBlock(cx, NewLedger(d), txs);
            && s.gasUsed <= cx.gasLimit
            && WrappingSub(cx.gasLimit, s.gasUsed) == cx.gasLimit - s.gasUsed
            && s.gasUsed == TotalGas(Log(cx, NewLedger(d), txs))
  {
    if txs != [] {
      var init, last := txs[..|txs| - 1], txs[|txs| - 1];
      var s0 := NewLedger(d);
      var s := RunBlock(cx, s0, init);
      GasNeverWraps(cx, d, init);
      GasStep(cx, s, last);
      StepShape(cx, s, last);
      LogStep(cx, s0, txs);
    }
  }

  lemma LogStep(cx: Context, s0: Ledger, txs: seq<Transaction>)
    requires txs != []
    ensures var init := txs[..|txs| - 1];
            var log, log' := Log(cx, s0, init), Log(cx, s0, txs);
            match CommitEntry(cx, RunBlock(cx, s0, init), txs[|txs| - 1])
            case None => log' == log
            case Some(e) =>
              && log' == log + [e] && TotalGas(log') == TotalGas(log) + e.gas
              && TotalFootprint(log') == TotalFootprint(log) + e.footprint
  {
    hide RunBlock, CommitEntry;
    var init := txs[..|txs| - 1];
    var log, log' := Log(cx, s0, init), Log(cx, s0, txs);
    if |log'| > |log| {
      assert log'[..|log'| - 1] == log;
    }
  }

  // In every reachable state the footprint stays within the block gas limit and is exactly the
  // sum of the committed footprints; nothing is charged before Jovian.
  lemma {:induction false} DaNeverSaturates(cx: Context, d: DbState, txs: seq<Transaction>)
    ensures var s := RunBlock(cx, NewLedger(d), txs);
            && s.daFootprintUsed <= cx.gasLimit
            && WrappingSub(cx.gasLimit, s.daFootprintUsed) == cx.gasLimit - s.daFootprintUsed
            && s.daFootprintUsed == TotalFootprint(Log(cx, NewLedger(d), txs))
            && (!Jovian(cx) || (forall i :: 0 <= i < |txs| ==> IsDeposit(txs[i])) ==> s.daFootprintUsed == 0)
  {
    if txs != [] {
      var init, last := txs[..|txs| - 1], txs[|txs| - 1];
      var s0 := NewLedger(d);
      DaNeverSaturates(cx, d, init);
      DaStep(cx, RunBlock(cx, s0, init), last);
      LogStep(cx, s0, txs);
      assert last == txs[|txs| - 1];
    }
  }

  // ---------- Receipts ----------

  const TWO_64: int := U64_MAX + 1

  lemma WrapsModulo(total: nat, gas: U64)
    ensures WrappingAdd(total % TWO_64, gas) == (total + gas) % TWO_64
  {
  }

  // Every run of every block, deposits and early forks included: one receipt per commit, and the
  // running total and every receipt are the sums of the committed amounts modulo 2^64.
  lemma {:induction false} GasIsExactModulo(cx: Context, d: DbState, txs: seq<Transaction>)
    ensures var s, log := RunBlock(cx, NewLedger(d), txs), Log(cx, NewLedger(d), txs);
            s.gasUsed == TotalGas(log) % TWO_64 && PrefixSumsModulo(s.receipts, log)
  {
    hide Process, CommitEntry, WrappingAdd, PrefixSumsModulo, Committed;
    var s0 := NewLedger(d);
    if txs == [] {
      NoReceipts();
    } else {
      var init, last := txs[..|txs| - 1], txs[|txs| - 1];
      var s, log := RunBlock(cx, s0, init), Log(cx, s0, init);
      GasIsExactModulo(cx, d, init);
      StepShape(cx, s, last);
      LogStep(cx, s0, txs);
      match CommitEntry(cx, s, last) {
        case None =>
        case Some(e) =>
          WrapsModulo(TotalGas(log), e.gas);
          OneMoreReceipt(s.receipts, Process(cx, s, last).receipts, log, e);
      }
    }
  }

  // One receipt per commit, each carrying the sum so far modulo 2^64.
  ghost predicate PrefixSumsModulo(receipts: seq<Receipt>, log: seq<Entry>) {
    |receipts| == |log|
    && forall i :: 0 <= i < |log| ==> receipts[i].cumulativeGasUsed == TotalGas(log[..i + 1]) % TWO_64
  }

  lemma NoReceipts()
    ensures PrefixSumsModulo([], [])
  {
  }

  lemma OneMoreReceipt(receipts: seq<Receipt>, more: seq<Receipt>, log: seq<Entry>, e: Entry)
    requires PrefixSumsModulo(receipts, log)
    requires |more| == |receipts| + 1 && more[..|receipts|] == receipts
    requires more[|receipts|].cumulativeGasUsed == TotalGas(log + [e]) % TWO_64
    ensures PrefixSumsModulo(more, log + [e])
  {
    hide TotalGas;
    var log' := log + [e];
    forall i | 0 <= i < |log'| ensures more[i].cumulativeGasUsed == TotalGas(log'[..i + 1]) % TWO_64 {
      if i < |log| {
        assert more[i] == receipts[i];
        assert log'[..i + 1] == log[..i + 1];
      } else {
        assert log'[..i + 1] == log';
      }
    }
  }

  lemma {:induction false} TotalGasGrows(log: seq<Entry>, i: nat, j: nat)
    requires i <= j <= |log|
    ensures TotalGas(log[..i]) <= TotalGas(log[..j])
    decreases j
  {
    if i < j {
      TotalGasGrows(log, i, j - 1);
      assert log[..j][..j - 1] == log[..j - 1];
    }
  }

  lemma WholeLog(log: seq<Entry>)
    ensures log[..|log|] == log
  {
  }

  // Receipt i carries the gas of the first i + 1 commits, for all receipts of the block, if and
  // only if the block's gas fits a u64.
  lemma ReceiptsArePrefixSums(cx: Context, d: DbState, txs: seq<Transaction>)
    ensures var s, log := RunBlock(cx, NewLedger(d), txs), Log(cx, NewLedger(d), txs);
            && |s.receipts| == |log|
            && ((forall i :: 0 <= i < |log| ==> s.receipts[i].cumulativeGasUsed == TotalGas(log[..i + 1]))
                <==> TotalGas(log) <= U64_MAX)
  {
    hide RunBlock, Log, NewLedger;
    GasIsExactModulo(cx, d, txs);
    var rs, log := RunBlock(cx, NewLedger(d), txs).receipts, Log(cx, NewLedger(d), txs);
    WholeLog(log);
    if TotalGas(log) <= U64_MAX {
      forall i | 0 <= i < |log| ensures rs[i].cumulativeGasUsed == TotalGas(log[..i + 1]) {
        TotalGasGrows(log, i + 1, |log|);
      }
    } else {
      var k := |log| - 1;
      assert rs[k].cumulativeGasUsed != TotalGas(log[..k + 1]);
    }
  }

  // The first prefix of the log whose gas no longer fits a u64.
  lemma {:induction false} FirstWrap(log: seq<Entry>) returns (k: nat)
    requires TotalGas(log) > U64_MAX
    ensures 1 <= k < |log| && TotalGas(log[..k]) <= U64_MAX < TotalGas(log[..k + 1])
    ensures TotalGas(log[..k + 1]) <= TotalGas(log[..k]) + U64_MAX
  {
    var init := log[..|log| - 1];
    if TotalGas(init) > U64_MAX {
      k := FirstWrap(init);
      assert init[..k] == log[..k] && init[..k + 1] == log[..k + 1];
    } else {
      k := |log| - 1;
      WholeLog(log);
      assert log[..0] == [];
    }
  }

  lemma WrappedOnce(before: nat, after: nat)
    requires before <= U64_MAX < after <= before + U64_MAX
    ensures before % TWO_64 == before && after % TWO_64 < before
  {
  }

  // The cumulative amounts never decrease along the receipts if and only if the block's gas fits a
  // u64: every wrap shows as a decrease.
  lemma ReceiptsNeverDecrease(cx: Context, d: DbState, txs: seq<Transaction>)
    ensures var rs := RunBlock(cx, NewLedger(d), txs).receipts;
            (forall i, j :: 0 <= i < j < |rs| ==> rs[i].cumulativeGasUsed <= rs[j].cumulativeGasUsed)
            <==> TotalGas(Log(cx, NewLedger(d), txs)) <= U64_MAX
  {
    hide RunBlock, Log, TotalGas, NewLedger;
    GasIsExactModulo(cx, d, txs);
    var rs, log := RunBlock(cx, NewLedger(d), txs).receipts, Log(cx, NewLedger(d), txs);
    if TotalGas(log) <= U64_MAX {
      ReceiptsArePrefixSums(cx, d, txs);
      forall i, j | 0 <= i < j < |rs| ensures rs[i].cumulativeGasUsed <= rs[j].cumulativeGasUsed {
        TotalGasGrows(log, i + 1, j + 1);
      }
    } else {
      var k := FirstWrap(log);
      WrappedOnce(TotalGas(log[..k]), TotalGas(log[..k + 1]));
      assert rs[k].cumulativeGasUsed == TotalGas(log[..k + 1]) % TWO_64;
      assert rs[k - 1].cumulativeGasUsed == TotalGas(log[..k - 1 + 1]) % TWO_64 == TotalGas(log[..k]);
      assert rs[k].cumulativeGasUsed < rs[k - 1].cumulativeGasUsed;
    }
  }

  // What finishing reads off the last receipt is the executor's own total, for every run,
  // wrapped or not, and for the empty block.
  lemma {:induction false} FinishReportsTotals(cx: Context, d: DbState, txs: seq<Transaction>)
    ensures var s := RunBlock(cx, NewLedger(d), txs);
            Finished(s) == BlockExecutionResult(s.receipts, s.gasUsed, s.daFootprintUsed)
  {
    if txs != [] {
      var init, last := txs[..|txs| - 1], txs[|txs| - 1];
      FinishReportsTotals(cx, d, init);
      StepShape(cx, RunBlock(cx, NewLedger(d), init), last);
    }
  }

  // A finished block reports the sum of the committed footprints, zero before Jovian, and the sum
  // of the committed gas modulo 2^64, which is the sum if and only if it fits a u64.
  lemma FinishedBlockTotals(cx: Context, d: DbState, txs: seq<Transaction>)
    ensures var r, log := Finished(RunBlock(cx, NewLedger(d), txs)), Log(cx, NewLedger(d), txs);
            && |r.receipts| == |log|
            && r.blobGasUsed == TotalFootprint(log) && (!Jovian(cx) ==> r.blobGasUsed == 0)
            && r.gasUsed == TotalGas(log) % TWO_64
            && (r.gasUsed == TotalGas(log) <==> TotalGas(log) <= U64_MAX)
  {
    hide RunBlock, Log, NewLedger, Jovian;
    FinishReportsTotals(cx, d, txs);
    DaNeverSaturates(cx, d, txs);
    GasIsExactModulo(cx, d, txs);
  }

  // ---------- Where the gas invariant ends ----------

  // A step that keeps the books: the total is exact and within the limit.
  ghost predicate KeepsBooks(cx: Context, s: Ledger, tx: Transaction) {
    var s' := Process(cx, s, tx);
    && s'.gasUsed <= cx.gasLimit
    && match CommitEntry(cx, s, tx) case None => true case Some(e) => s'.gasUsed == s.gasUsed + e.gas
  }

  type Evm = (World, Transaction) -> Result<ResultAndState, ExecutionError>

  function WithEvm(cx: Context, evm: Evm): Context {
    cx.(library := cx.library.(evm := evm))
  }

  // A step keeps the books for every EVM that respects gas limits exactly when the transaction
  // is one the gas check applies to, or fits into what the block has left.
  lemma BooksKeptIff(cx: Context, s: Ledger, tx: Transaction)
    requires s.gasUsed <= cx.gasLimit
    ensures (forall evm: Evm :: GasBounded(WithEvm(cx, evm).library) ==> KeepsBooks(WithEvm(cx, evm), s, tx))
            <==> (Regolith(cx) || !IsDeposit(tx) || tx.gasLimit <= cx.gasLimit - s.gasUsed)
  {
    if Regolith(cx) || !IsDeposit(tx) {
      forall evm: Evm | GasBounded(WithEvm(cx, evm).library) ensures KeepsBooks(WithEvm(cx, evm), s, tx) {
        GasStep(WithEvm(cx, evm), s, tx);
      }
    } else if tx.gasLimit <= cx.gasLimit - s.gasUsed {
      forall evm: Evm | GasBounded(WithEvm(cx, evm).library) ensures KeepsBooks(WithEvm(cx, evm), s, tx) {
        FittingDeposit(WithEvm(cx, evm), s, tx);
      }
    } else {
      var evm: Evm := (w: World, t: Transaction) =>
        Ok(ResultAndState(ExecutionResult(t.gasLimit, true, []), map[]));
      BigDeposit(cx, s, tx, evm);
    }
  }

  lemma FittingDeposit(cx: Context, s: Ledger, tx: Transaction)
    requires GasBounded(cx.library) && s.gasUsed <= cx.gasLimit && tx.gasLimit <= cx.gasLimit - s.gasUsed
    ensures KeepsBooks(cx, s, tx)
  {
    StepShape(cx, s, tx);
  }

  lemma BigDeposit(cx: Context, s: Ledger, tx: Transaction, evm: Evm)
    requires s.gasUsed <= cx.gasLimit && tx.gasLimit > cx.gasLimit - s.gasUsed
    requires !Regolith(cx) && IsDeposit(tx)
    requires forall w, t :: evm(w, t) == Ok(ResultAndState(ExecutionResult(t.gasLimit, true, []), map[]))
    ensures GasBounded(WithEvm(cx, evm).library) && !KeepsBooks(WithEvm(cx, evm), s, tx)
  {
  }

  // ---------- Skipping rejected transactions ----------

  // The transactions of a run that were committed.
  function AcceptedOnly(cx: Context, s: Ledger, txs: seq<Transaction>): seq<Transaction> {
    if txs == [] then []
    else
      var init, last := txs[..|txs| - 1], txs[|txs| - 1];
      AcceptedOnly(cx, s, init)
      + if CommitEntry(cx, RunBlock(cx, s, init), last).Some? then [last] else []
  }

  // The same accumulators, receipts and world; the reads may differ.
  ghost predicate SameBooks(s: Ledger, t: Ledger) {
    && s.gasUsed == t.gasUsed && s.daFootprintUsed == t.daFootprintUsed && s.receipts == t.receipts
    && s.db.world == t.db.world
  }

  // Every read of a committed transaction has succeeded, so without failing reads it does the same.
  lemma SameBooksStep(cx: Context, s: Ledger, t: Ledger, tx: Transaction)
    requires SameBooks(s, t) && t.db.FaultFree()
    ensures Process(cx, t, tx).db.FaultFree()
    ensures CommitEntry(cx, s, tx).None? ==> SameBooks(Process(cx, s, tx), t)
    ensures CommitEntry(cx, s, tx).Some? ==>
              CommitEntry(cx, t, tx) == CommitEntry(cx, s, tx) && SameBooks(Process(cx, s, tx), Process(cx, t, tx))
  {
    hide Committed, BuildReceipt, DaFootprint;
  }

  // Whatever reads fail, dropping every transaction that was rejected leads to the same
  // accumulators, receipts and world: what is left runs on a database with the same contents
  // whose reads all succeed, and nothing of it is rejected.
  lemma {:induction false} SkippingRefinesAcceptedRun(cx: Context, s: Ledger, t: Ledger, txs: seq<Transaction>)
    requires SameBooks(s, t) && t.db.FaultFree()
    ensures var kept := AcceptedOnly(cx, s, txs);
            && SameBooks(RunBlock(cx, s, txs), RunBlock(cx, t, kept)) && RunBlock(cx, t, kept).db.FaultFree()
            && Log(cx, t, kept) == Log(cx, s, txs) && AcceptedOnly(cx, t, kept) == kept
  {
    hide Process, CommitEntry, DbState.FaultFree;
    if txs != [] {
      var init, last := txs[..|txs| - 1], txs[|txs| - 1];
      var kept, all := AcceptedOnly(cx, s, init), AcceptedOnly(cx, s, txs);
      SkippingRefinesAcceptedRun(cx, s, t, init);
      SameBooksStep(cx, RunBlock(cx, s, init), RunBlock(cx, t, kept), last);
      if CommitEntry(cx, RunBlock(cx, s, init), last).Some? {
        assert all == kept + [last] && all[..|all| - 1] == kept;
      } else {
        assert all == kept;
      }
    }
  }

  // The transactions of a run that passed the gas check when their turn came.
  function PastGasCheck(cx: Context, s: Ledger, txs: seq<Transaction>): seq<Transaction> {
    if txs == [] then []
    else
      var init, last := txs[..|txs| - 1], txs[|txs| - 1];
      PastGasCheck(cx, s, init) + if GasRejects(cx, RunBlock(cx, s, init), last) then [] else [last]
  }

  // The gas check reads nothing: dropping what it rejects gives the very same ledger, down to the
  // read count, under any pattern of failing reads.
  lemma {:induction false} GasRejectedLeaveNoTrace(cx: Context, s: Ledger, txs: seq<Transaction>)
    ensures var kept := PastGasCheck(cx, s, txs);
            && RunBlock(cx, s, kept) == RunBlock(cx, s, txs) && Log(cx, s, kept) == Log(cx, s, txs)
            && PastGasCheck(cx, s, kept) == kept
  {
    hide Process, CommitEntry, GasRejects;
    if txs != [] {
      var init, last := txs[..|txs| - 1], txs[|txs| - 1];
      var kept, all := PastGasCheck(cx, s, init), PastGasCheck(cx, s, txs);
      GasRejectedLeaveNoTrace(cx, s, init);
      if GasRejects(cx, RunBlock(cx, s, init), last) {
        GasRejectionChangesNothing(cx, RunBlock(cx, s, init), last);
        assert all == kept;
      } else {
        assert all == kept + [last] && all[..|all| - 1] == kept;
      }
    }
  }

  lemma GasRejectionChangesNothing(cx: Context, s: Ledger, tx: Transaction)
    requires GasRejects(cx, s, tx)
    ensures Process(cx, s, tx) == s && CommitEntry(cx, s, tx).None?
  {
  }

  // ---------- Rejections are final ----------

  lemma {:induction false} FootprintGrows(cx: Context, d: DbState, txs: seq<Transaction>, i: nat)
    requires i <= |txs|
    ensures RunBlock(cx, NewLedger(d), txs[..i]).daFootprintUsed <= RunBlock(cx, NewLedger(d), txs).daFootprintUsed
  {
    hide Process, CommitEntry;
    if i < |txs| {
      var init, last := txs[..|txs| - 1], txs[|txs| - 1];
      assert init[..i] == txs[..i];
      FootprintGrows(cx, d, init, i);
      DaNeverSaturates(cx, d, init);
      DaStep(cx, RunBlock(cx, NewLedger(d), init), last);
    } else {
      assert txs[..i] == txs;
    }
  }

  lemma {:induction false} LogGrows(cx: Context, d: DbState, txs: seq<Transaction>, i: nat)
    requires i <= |txs|
    ensures TotalGas(Log(cx, NewLedger(d), txs[..i])) <= TotalGas(Log(cx, NewLedger(d), txs))
  {
    hide CommitEntry, TotalGas, Log;
    if i < |txs| {
      var init := txs[..|txs| - 1];
      assert init[..i] == txs[..i];
      LogGrows(cx, d, init, i);
      LogStep(cx, NewLedger(d), txs);
    } else {
      assert txs[..i] == txs;
    }
  }

  function GasLeft(cx: Context, s: Ledger): U64 {
    WrappingSub(cx.gasLimit, s.gasUsed)
  }

  // What the gas check rejects in the one state it rejects in the other.
  ghost predicate StaysRejected(cx: Context, s: Ledger, t: Ledger) {
    forall tx :: GasRejects(cx, s, tx) ==> GasRejects(cx, t, tx)
  }

  lemma StaysRejectedIff(cx: Context, s: Ledger, t: Ledger)
    ensures StaysRejected(cx, s, t) <==> GasLeft(cx, t) <= GasLeft(cx, s)
  {
    if GasLeft(cx, t) > GasLeft(cx, s) {
      var tx := Transaction(2, GasLeft(cx, s) + 1, 0, None, []);
      assert GasRejects(cx, s, tx) && !GasRejects(cx, t, tx);
    }
  }

  lemma LeftWithin(limit: U64, total: nat)
    ensures total <= limit ==> WrappingSub(limit, total % TWO_64) == limit - total
    ensures limit < total <= limit + U64_MAX ==> WrappingSub(limit, total % TWO_64) == limit - total + TWO_64
  {
  }

  lemma NothingLogged(cx: Context, d: DbState)
    ensures TotalGas(Log(cx, NewLedger(d), [])) == 0
  {
  }

  // The block's first transaction with which its gas passes the limit.
  lemma {:induction false} FirstExcess(cx: Context, d: DbState, txs: seq<Transaction>) returns (k: nat)
    requires TotalGas(Log(cx, NewLedger(d), txs)) > cx.gasLimit
    ensures k < |txs|
    ensures var before := TotalGas(Log(cx, NewLedger(d), txs[..k]));
            var after := TotalGas(Log(cx, NewLedger(d), txs[..k + 1]));
            before <= cx.gasLimit < after <= before + U64_MAX
  {
    NothingLogged(cx, d);
    hide CommitEntry, Log, TotalGas, RunBlock, NewLedger;
    assert txs != [];
    var init := txs[..|txs| - 1];
    if TotalGas(Log(cx, NewLedger(d), init)) > cx.gasLimit {
      k := FirstExcess(cx, d, init);
      assert init[..k] == txs[..k] && init[..k + 1] == txs[..k + 1];
    } else {
      k := |txs| - 1;
      LogStep(cx, NewLedger(d), txs);
      assert txs[..k + 1] == txs;
    }
  }

  // A block whose gas stays within its limit, and only such a block, rejects at every later point
  // what its gas check has rejected at an earlier one.
  lemma GasRejectionsFinalIff(cx: Context, d: DbState, txs: seq<Transaction>)
    ensures (forall i, j :: 0 <= i <= j <= |txs| ==>
               StaysRejected(cx, RunBlock(cx, NewLedger(d), txs[..i]), RunBlock(cx, NewLedger(d), txs[..j])))
            <==> TotalGas(Log(cx, NewLedger(d), txs)) <= cx.gasLimit
  {
    hide RunBlock, Log, TotalGas, NewLedger, StaysRejected;
    var s0 := NewLedger(d);
    if TotalGas(Log(cx, s0, txs)) <= cx.gasLimit {
      forall i, j | 0 <= i <= j <= |txs|
        ensures StaysRejected(cx, RunBlock(cx, s0, txs[..i]), RunBlock(cx, s0, txs[..j]))
      {
        assert txs[..j][..i] == txs[..i];
        LogGrows(cx, d, txs[..j], i);
        LogGrows(cx, d, txs, j);
        LeftAfter(cx, d, txs[..i]);
        LeftAfter(cx, d, txs[..j]);
        StaysRejectedIff(cx, RunBlock(cx, s0, txs[..i]), RunBlock(cx, s0, txs[..j]));
      }
    } else {
      var k := FirstExcess(cx, d, txs);
      LeftAfter(cx, d, txs[..k]);
      LeftAfter(cx, d, txs[..k + 1]);
      StaysRejectedIff(cx, RunBlock(cx, s0, txs[..k]), RunBlock(cx, s0, txs[..k + 1]));
    }
  }

  lemma LeftAfter(cx: Context, d: DbState, txs: seq<Transaction>)
    ensures var total, left := TotalGas(Log(cx, NewLedger(d), txs)), GasLeft(cx, RunBlock(cx, NewLedger(d), txs));
            && (total <= cx.gasLimit ==> left == cx.gasLimit - total)
            && (cx.gasLimit < total <= cx.gasLimit + U64_MAX ==> left == cx.gasLimit - total + TWO_64)
  {
    hide RunBlock, Log, NewLedger;
    GasIsExactModulo(cx, d, txs);
    LeftWithin(cx.gasLimit, TotalGas(Log(cx, NewLedger(d), txs)));
  }

  // In particular under Regolith or without deposits: a transaction the gas check rejects at one
  // point of the block is rejected at every later one.
  lemma GasRejectionIsFinal(cx: Context, d: DbState, txs: seq<Transaction>, i: nat, tx: Transaction)
    requires i <= |txs| && GasRejects(cx, RunBlock(cx, NewLedger(d), txs[..i]), tx)
    ensures TotalGas(Log(cx, NewLedger(d), txs)) <= cx.gasLimit
            || (GasBounded(cx.library) && (Regolith(cx) || NoDeposits(txs))) ==>
              GasRejects(cx, RunBlock(cx, NewLedger(d), txs), tx)
  {
    hide RunBlock, Log, NewLedger, GasRejects, GasBounded, Regolith, NoDeposits;
    if GasBounded(cx.library) && (Regolith(cx) || NoDeposits(txs)) {
      GasNeverWraps(cx, d, txs);
    }
    GasRejectionsFinalIff(cx, d, txs);
    assert txs[..|txs|] == txs;
    if TotalGas(Log(cx, NewLedger(d), txs)) <= cx.gasLimit {
      assert StaysRejected(cx, RunBlock(cx, NewLedger(d), txs[..i]), RunBlock(cx, NewLedger(d), txs[..|txs|]));
    }
  }

  // Before Regolith that fails: with a limit of 100 a deposit uses 150 gas, and a transaction of
  // 101, rejected before, is then admitted.
  lemma DepositReopensBlock(d: DbState) returns (cx: Context, deposit: Transaction, tx: Transaction)
    ensures GasBounded(cx.library) && !Regolith(cx) && IsDeposit(deposit) && !IsDeposit(tx)
    ensures tx.gasLimit > cx.gasLimit && GasRejects(cx, NewLedger(d), tx)
    ensures RunBlock(cx, NewLedger(d), [deposit]).gasUsed == 150
    ensures !GasRejects(cx, RunBlock(cx, NewLedger(d), [deposit]), tx)
  {
    hide Committed;
    cx := Context(ChainSpec(252, Never, Never, Never, Never, Never, Never), 0, 100,
                  Library(Spending(), (b: Bytes) => 0, (w: World) => 0,
                          NoDiff(), NoDiff(), NoDiff(), (w: World) => true));
    deposit := Transaction(DEPOSIT_TRANSACTION_TYPE, 150, 0, None, []);
    tx := Transaction(2, 101, 0, None, []);
    assert [deposit][..0] == [];
    assert RunBlock(cx, NewLedger(d), []) == NewLedger(d);
    assert RunBlock(cx, NewLedger(d), [deposit]) == Process(cx, NewLedger(d), deposit);
  }

  // An EVM that uses up every gas limit and changes nothing.
  function Spending(): Evm {
    (w: World, t: Transaction) => Ok(ResultAndState(ExecutionResult(t.gasLimit, true, []), map[]))
  }

  function NoDiff(): World -> Option<map<Address, Account>> {
    (w: World) => Some(map[])
  }

  // The same for the footprint check, as long as the scalar is the same at both points.
  lemma DaRejectionIsFinal(cx: Context, d: DbState, txs: seq<Transaction>, i: nat, tx: Transaction)
    requires i <= |txs|
    ensures var earlier, later := RunBlock(cx, NewLedger(d), txs[..i]), RunBlock(cx, NewLedger(d), txs);
            cx.library.daScalar(earlier.db.world) == cx.library.daScalar(later.db.world) ==>
              DaRejects(cx, earlier, tx) ==> DaRejects(cx, later, tx)
  {
    FootprintGrows(cx, d, txs, i);
    DaNeverSaturates(cx, d, txs);
    DaNeverSaturates(cx, d, txs[..i]);
  }

  // ---------- The footprint check in exact arithmetic ----------

  // The saturating product decides like the unbounded one, unless everything is available and
  // the product is too big for a u64: exactly then the check passes what exact arithmetic rejects.
  lemma SaturatedCheckIsExact(cx: Context, s: Ledger, tx: Transaction)
    requires CountsFootprint(cx, tx) && s.daFootprintUsed <= cx.gasLimit
    ensures var product := SizeEstimate(cx, tx) * cx.library.daScalar(s.db.world);
            var available := cx.gasLimit - s.daFootprintUsed;
            (!DaRejects(cx, s, tx) <==> product <= available) <==> (available < U64_MAX || product <= U64_MAX)
  {
  }

  // Acceptance is monotone in the size estimate and in the scalar.
  lemma SmallerFootprintPasses(cx: Context, s: Ledger, tx: Transaction, cx': Context, s': Ledger, tx': Transaction)
    requires CountsFootprint(cx, tx) && CountsFootprint(cx', tx')
    requires cx.gasLimit == cx'.gasLimit && s.daFootprintUsed == s'.daFootprintUsed
    requires SizeEstimate(cx', tx') <= SizeEstimate(cx, tx)
    requires cx'.library.daScalar(s'.db.world) <= cx.library.daScalar(s.db.world)
    requires !DaRejects(cx, s, tx)
    ensures !DaRejects(cx', s', tx')
  {
    ProductMonotone(SizeEstimate(cx', tx'), SizeEstimate(cx, tx),
                    cx'.library.daScalar(s'.db.world), cx.library.daScalar(s.db.world));
  }

  lemma ProductMonotone(a: nat, a': nat, b: nat, b': nat)
    requires a <= a' && b <= b'
    ensures a * b <= a' * b'
  {
    assert a * b <= a' * b;
    assert a' * b <= a' * b';
  }

  // ---------- Deposit nonces ----------

  // Committing a transaction raises this account's nonce by one if it is the sender, and leaves
  // it otherwise.
  ghost predicate NonceFollowsSender(library: Library, who: Address) {
    forall w, tx :: library.evm(w, tx).Ok? ==>
      Info(Committed(w, library.evm(w, tx).value.state), who).nonce as int
      == Info(w, who).nonce + if tx.sender == who then 1 else 0
  }

  function SentBy(who: Address, log: seq<Entry>): nat {
    if log == [] then 0
    else SentBy(who, log[..|log| - 1]) + if log[|log| - 1].tx.sender == who then 1 else 0
  }

  // Each deposit of the sender that the log lists has a receipt recording the initial nonce plus
  // the number of the sender's transactions before it in the log.
  ghost predicate NoncesRecorded(who: Address, initial: U64, receipts: seq<Receipt>, log: seq<Entry>) {
    |receipts| == |log|
    && forall i :: 0 <= i < |log| && log[i].tx.sender == who && IsDeposit(log[i].tx) ==>
         && receipts[i].DepositReceipt? && receipts[i].depositNonce.Some?
         && receipts[i].depositNonce.value as int == initial + SentBy(who, log[..i])
  }

  // Every deposit receipt of the sender records the nonce the sender had in the state before the
  // deposit: the initial nonce plus its transactions committed earlier in the block.
  lemma {:induction false} DepositNonces(cx: Context, d: DbState, txs: seq<Transaction>, who: Address)
    requires Regolith(cx) && NonceFollowsSender(cx.library, who)
    ensures var s, log := RunBlock(cx, NewLedger(d), txs), Log(cx, NewLedger(d), txs);
            var initial := Info(d.world, who).nonce;
            && Info(s.db.world, who).nonce as int == initial + SentBy(who, log)
            && NoncesRecorded(who, initial, s.receipts, log)
  {
    hide Process, CommitEntry, Regolith, NonceFollowsSender;
    if txs != [] {
      var init, last := txs[..|txs| - 1], txs[|txs| - 1];
      var s0 := NewLedger(d);
      var s := RunBlock(cx, s0, init);
      assert RunBlock(cx, s0, txs) == Process(cx, s, last);
      DepositNonces(cx, d, init, who);
      LogStep(cx, s0, txs);
      hide NoncesRecorded, RunBlock, Log, SentBy;
      StepShape(cx, s, last);
      NonceStep(cx, s, last, who);
      match CommitEntry(cx, s, last) {
        case None =>
        case Some(e) =>
          SentByAppend(who, Log(cx, s0, init), e);
          OneMoreNonce(who, Info(d.world, who).nonce, s.receipts, Process(cx, s, last).receipts, Log(cx, s0, init), e);
      }
    }
  }

  lemma OneMoreNonce(who: Address, initial: U64, receipts: seq<Receipt>, more: seq<Receipt>,
                     log: seq<Entry>, e: Entry)
    requires NoncesRecorded(who, initial, receipts, log)
    requires |more| == |receipts| + 1 && more[..|receipts|] == receipts
    requires e.tx.sender == who && IsDeposit(e.tx) ==>
               && more[|receipts|].DepositReceipt? && more[|receipts|].depositNonce.Some?
               && more[|receipts|].depositNonce.value as int == initial + SentBy(who, log)
    ensures NoncesRecorded(who, initial, more, log + [e])
  {
    hide SentBy;
    forall i | 0 <= i < |log| ensures more[i] == receipts[i] && (log + [e])[..i] == log[..i] {
      assert receipts[i] == more[..|receipts|][i];
    }
    assert (log + [e])[..|log|] == log;
  }

  lemma SentByAppend(who: Address, log: seq<Entry>, e: Entry)
    ensures SentBy(who, log + [e]) == SentBy(who, log) + if e.tx.sender == who then 1 else 0
  {
    assert (log + [e])[..|log|] == log;
  }

  lemma NonceStep(cx: Context, s: Ledger, tx: Transaction, who: Address)
    requires Regolith(cx) && NonceFollowsSender(cx.library, who)
    ensures var s', e := Process(cx, s, tx), CommitEntry(cx, s, tx);
            match e
            case None => s'.db.world == s.db.world
            case Some(entry) =>
              && entry.tx == tx
              && Info(s'.db.world, who).nonce as int
                 == Info(s.db.world, who).nonce + (if tx.sender == who then 1 else 0)
              && |s'.receipts| == |s.receipts| + 1
              && (IsDeposit(tx) ==>
                    && s'.receipts[|s.receipts|].DepositReceipt?
                    && s'.receipts[|s.receipts|].depositNonce == Some(Info(s.db.world, tx.sender).nonce))
  {
    hide Committed;
  }
}
