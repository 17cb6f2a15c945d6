/** The rules of a block read off transactions, worlds and fork times: what a receipt tells, what a
    footprint is, why a transaction is rejected, and what happens around the transactions. */
module BlockRules {
  import opened Primitives
  import opened StateDb
  import opened Hardforks
  import opened ExecutorModel
  import opened ExecutorRuns

  // The fork is active at the block's time.
  predicate Reached(fork: ForkActivation, cx: Context) {
    fork.Timestamp? && fork.at <= cx.timestamp
  }

  lemma ActiveWhenReached(fork: ForkActivation, cx: Context)
    ensures Active(fork, Time(cx)) <==> Reached(fork, cx)
  {
  }

  // ---------- Receipts ----------

  // The receipt tells of the execution of this transaction in this world.
  ghost predicate TellsOf(cx: Context, r: Receipt, e: Entry) {
    && cx.library.evm(e.world, e.tx).Ok?
    && var result := cx.library.evm(e.world, e.tx).value.result;
    && e.gas == result.gasUsed && r.success == result.success && r.logs == result.logs
    && (r.DepositReceipt? <==> e.tx.ty == 126)
    && (r.Receipt? ==> r.txType == e.tx.ty)
    && (r.DepositReceipt? ==>
          && r.depositReceiptVersion == (if Reached(cx.spec.canyon, cx) then Some(1) else None)
          && r.depositNonce ==
             if Reached(cx.spec.regolith, cx) then Some(Info(e.world, e.tx.sender).nonce) else None)
  }

  // The world the log goes on in: the first entry's is the given one, every other is the one its
  // predecessor's diff left.
  ghost function WorldAfter(cx: Context, w: World, log: seq<Entry>): World {
    if log == [] then w
    else
      var last := log[|log| - 1];
      match cx.library.evm(last.world, last.tx)
      case Ok(out) => Committed(last.world, out.state)
      case Err(_) => last.world
  }

  // Every transaction of the log was executed in the world the ones before it left.
  ghost predicate OneAfterTheOther(cx: Context, w: World, log: seq<Entry>) {
    forall i :: 0 <= i < |log| ==> log[i].world == WorldAfter(cx, w, log[..i])
  }

  lemma ReceiptStep(cx: Context, s: Ledger, tx: Transaction)
    ensures var s' := Process(cx, s, tx);
            match CommitEntry(cx, s, tx)
            case None => s'.db.world == s.db.world && s'.receipts == s.receipts
            case Some(e) =>
              && e.world == s.db.world && e.tx == tx
              && |s'.receipts| == |s.receipts| + 1 && s'.receipts[..|s.receipts|] == s.receipts
              && TellsOf(cx, s'.receipts[|s.receipts|], e)
              && s'.db.world == Committed(s.db.world, cx.library.evm(s.db.world, tx).value.state)
  {
    hide Committed, DaFootprint;
    ActiveWhenReached(cx.spec.canyon, cx);
    ActiveWhenReached(cx.spec.regolith, cx);
  }

  // For every block, whatever reads fail: one receipt per committed transaction, each telling of
  // that transaction's own execution, in the world left by the ones committed before it.
  lemma {:induction false} ReceiptsTellOfExecution(cx: Context, d: DbState, txs: seq<Transaction>)
    ensures var s, log := RunBlock(cx, NewLedger(d), txs), Log(cx, NewLedger(d), txs);
            && |s.receipts| == |log| && (forall i :: 0 <= i < |log| ==> TellsOf(cx, s.receipts[i], log[i]))
            && OneAfterTheOther(cx, d.world, log) && s.db.world == WorldAfter(cx, d.world, log)
  {
    hide Process, CommitEntry, TellsOf, Committed, WorldAfter, OneAfterTheOther;
    if txs == [] {
      NothingExecuted(cx, d.world);
    } else {
      var init, last := txs[..|txs| - 1], txs[|txs| - 1];
      var s0 := NewLedger(d);
      var s, log := RunBlock(cx, s0, init), Log(cx, s0, init);
      ReceiptsTellOfExecution(cx, d, init);
      ReceiptStep(cx, s, last);
      LogStep(cx, s0, txs);
      match CommitEntry(cx, s, last) {
        case None =>
        case Some(e) => OneMoreExecution(cx, d.world, log, e, s.receipts, Process(cx, s, last).receipts);
      }
    }
  }

  lemma NothingExecuted(cx: Context, w: World)
    ensures OneAfterTheOther(cx, w, []) && WorldAfter(cx, w, []) == w
  {
  }

  lemma OneMoreExecution(cx: Context, w: World, log: seq<Entry>, e: Entry, rs: seq<Receipt>, rs': seq<Receipt>)
    requires |rs| == |log| && forall i :: 0 <= i < |log| ==> TellsOf(cx, rs[i], log[i])
    requires OneAfterTheOther(cx, w, log) && e.world == WorldAfter(cx, w, log)
    requires |rs'| == |rs| + 1 && rs'[..|rs|] == rs && TellsOf(cx, rs'[|rs|], e)
    ensures OneAfterTheOther(cx, w, log + [e])
    ensures forall i :: 0 <= i < |log + [e]| ==> TellsOf(cx, rs'[i], (log + [e])[i])
    ensures cx.library.evm(e.world, e.tx).Ok?
    ensures WorldAfter(cx, w, log + [e]) == Committed(e.world, cx.library.evm(e.world, e.tx).value.state)
  {
    hide Committed;
    var log' := log + [e];
    assert cx.library.evm(e.world, e.tx).Ok?;
    hide TellsOf;
    forall i | 0 <= i < |log'| ensures log'[i].world == WorldAfter(cx, w, log'[..i]) && TellsOf(cx, rs'[i], log'[i]) {
      if i < |log| {
        assert log'[..i] == log[..i] && rs'[i] == rs[i];
      } else {
        assert log'[..i] == log;
      }
    }
  }

  // ---------- Footprints ----------

  // The bytes a footprint is estimated from.
  function Payload(tx: Transaction): Bytes {
    if tx.enveloped.Some? then tx.enveloped.value else tx.encoded2718
  }

  // The whole millions in a number.
  predicate Millions(n: nat, q: nat) {
    q * 1_000_000 <= n < (q + 1) * 1_000_000
  }

  function Capped(n: nat): U64 {
    if n > U64_MAX then U64_MAX else n
  }

  // The footprint: the whole millions in the compressed size times the scalar, capped.
  predicate IsFootprint(cx: Context, w: World, tx: Transaction, q: nat, footprint: U64) {
    Millions(cx.library.compressedSize(Payload(tx)), q) && footprint == Capped(q * cx.library.daScalar(w))
  }

  lemma FootprintIs(cx: Context, w: World, tx: Transaction, q: nat, footprint: U64)
    requires IsFootprint(cx, w, tx, q, footprint)
    ensures DaFootprint(cx, w, tx) == footprint
  {
    assert cx.library.compressedSize(Payload(tx)) / 1_000_000 == q;
  }

  // Under Jovian and without failing reads, a transaction other than a deposit that passes the gas
  // check is rejected for its footprint exactly when that is more than what is left, the error
  // names both amounts, and a committed one is charged just that.
  lemma FootprintRule(cx: Context, s: Ledger, tx: Transaction, q: nat, footprint: U64)
    requires s.db.FaultFree() && Reached(cx.spec.jovian, cx) && tx.ty != 126
    requires tx.gasLimit <= WrappingSub(cx.gasLimit, s.gasUsed)
    requires IsFootprint(cx, s.db.world, tx, q, footprint)
    ensures var left, e := WrappingSub(cx.gasLimit, s.daFootprintUsed), CommitEntry(cx, s, tx);
            && (Execute(cx, s, tx).1 == Err(DaFootprintAboveGasLimit(footprint, left)) <==> footprint > left)
            && (e.Some? <==> footprint <= left && cx.library.evm(s.db.world, tx).Ok?)
            && (e.Some? ==>
                  && e.value.footprint == footprint
                  && Process(cx, s, tx).daFootprintUsed == Capped(s.daFootprintUsed + footprint))
  {
    hide Committed, DaFootprint, BuildReceipt, IsFootprint;
    ActiveWhenReached(cx.spec.jovian, cx);
    FootprintIs(cx, s.db.world, tx, q, footprint);
  }

  // What every entry of a log is charged.
  ghost predicate RightlyCharged(cx: Context, e: Entry) {
    if Reached(cx.spec.jovian, cx) && e.tx.ty != 126
    then forall q, footprint :: IsFootprint(cx, e.world, e.tx, q, footprint) ==> e.footprint == footprint
    else e.footprint == 0
  }

  lemma ChargeStep(cx: Context, s: Ledger, tx: Transaction)
    ensures CommitEntry(cx, s, tx).Some? ==> RightlyCharged(cx, CommitEntry(cx, s, tx).value)
  {
    hide Committed, DaFootprint, BuildReceipt, IsFootprint;
    ActiveWhenReached(cx.spec.jovian, cx);
    forall q, footprint | IsFootprint(cx, s.db.world, tx, q, footprint)
      ensures DaFootprint(cx, s.db.world, tx) == footprint
    {
      FootprintIs(cx, s.db.world, tx, q, footprint);
    }
  }

  // For every block, whatever reads fail: under Jovian each committed transaction but a deposit is
  // charged the footprint of its own bytes at the scalar of its own world, every other one nothing.
  lemma {:induction false} FootprintsCharged(cx: Context, d: DbState, txs: seq<Transaction>)
    ensures forall i :: 0 <= i < |Log(cx, NewLedger(d), txs)| ==> RightlyCharged(cx, Log(cx, NewLedger(d), txs)[i])
  {
    hide RightlyCharged, CommitEntry, RunBlock;
    if txs != [] {
      var init, last := txs[..|txs| - 1], txs[|txs| - 1];
      FootprintsCharged(cx, d, init);
      ChargeStep(cx, RunBlock(cx, NewLedger(d), init), last);
      LogStep(cx, NewLedger(d), txs);
    }
  }

  // The log lists the committed transactions in the order of the block.
  lemma {:induction false} LogListsAccepted(cx: Context, s: Ledger, txs: seq<Transaction>)
    ensures var log, accepted := Log(cx, s, txs), AcceptedOnly(cx, s, txs);
            |log| == |accepted| && forall i :: 0 <= i < |log| ==> log[i].tx == accepted[i]
  {
    if txs != [] {
      LogListsAccepted(cx, s, txs[..|txs| - 1]);
      ReceiptStep(cx, RunBlock(cx, s, txs[..|txs| - 1]), txs[|txs| - 1]);
    }
  }

  // ---------- Rejections ----------

  // A transaction is rejected for its gas exactly when its limit is more than what is left, unless
  // it is a deposit before Regolith; the error names the limit and what is left.
  lemma GasRule(cx: Context, s: Ledger, tx: Transaction)
    ensures var left := WrappingSub(cx.gasLimit, s.gasUsed);
            && (s.gasUsed <= cx.gasLimit ==> left == cx.gasLimit - s.gasUsed)
            && (Execute(cx, s, tx).1 == Err(GasLimitMoreThanAvailable(tx.gasLimit, left)) <==>
                tx.gasLimit > left && (Reached(cx.spec.regolith, cx) || tx.ty != 126))
  {
    hide DaFootprint;
    ActiveWhenReached(cx.spec.regolith, cx);
  }

  // Past the gas check, execution fails on the database exactly when one of the two reads fails
  // that Jovian needs for a transaction other than a deposit.
  lemma ReadRule(cx: Context, s: Ledger, tx: Transaction)
    requires tx.gasLimit <= WrappingSub(cx.gasLimit, s.gasUsed)
    ensures Execute(cx, s, tx).1 == Err(DatabaseFailed) <==>
            && Reached(cx.spec.jovian, cx) && tx.ty != 126
            && (s.db.readCount in s.db.faults || s.db.readCount + 1 in s.db.faults)
    ensures Execute(cx, s, tx).0 == s.(db := Execute(cx, s, tx).0.db) && Execute(cx, s, tx).0.db.world == s.db.world
  {
    hide DaFootprint;
    ActiveWhenReached(cx.spec.jovian, cx);
  }

  // Everything a transaction needs to be committed, whatever reads fail: gas left, or a deposit
  // before Regolith; under Jovian two reads and footprint left, unless it is a deposit; a result
  // from the EVM; and from Regolith on, for a deposit, the read of its sender.
  lemma CommittedIff(cx: Context, s: Ledger, tx: Transaction, q: nat, footprint: U64)
    requires IsFootprint(cx, s.db.world, tx, q, footprint)
    ensures CommitEntry(cx, s, tx).Some? <==>
            && (tx.gasLimit <= WrappingSub(cx.gasLimit, s.gasUsed) || (tx.ty == 126 && !Reached(cx.spec.regolith, cx)))
            && (Reached(cx.spec.jovian, cx) && tx.ty != 126 ==>
                  && s.db.readCount !in s.db.faults && s.db.readCount + 1 !in s.db.faults
                  && footprint <= WrappingSub(cx.gasLimit, s.daFootprintUsed))
            && cx.library.evm(s.db.world, tx).Ok?
            && (Reached(cx.spec.regolith, cx) && tx.ty == 126 ==> s.db.readCount !in s.db.faults)
  {
    hide Committed, DaFootprint, BuildReceipt, IsFootprint;
    ActiveWhenReached(cx.spec.jovian, cx);
    ActiveWhenReached(cx.spec.regolith, cx);
    FootprintIs(cx, s.db.world, tx, q, footprint);
  }

  // ---------- Around the transactions ----------

  // The diff laid over the world: touched accounts and their slots are the diff's, the rest is kept.
  ghost predicate Overlaid(w: World, diff: map<Address, Account>, w': World) {
    && SameLibrary(w, w')
    && (forall a :: Info(w', a) == if a in diff && diff[a].touched then diff[a].info else Info(w, a))
    && (forall a, k :: Slot(w', a, k) == if a in diff && diff[a].touched && k in diff[a].storage
                                         then diff[a].storage[k] else Slot(w, a, k))
  }

  // Both system calls leave their diffs, the second computed on what the first has left; a call
  // that fails leaves what was there.
  lemma SystemCallsLeaveDiffs(library: Library, d: DbState) returns (between: World)
    ensures var (called, ok) := SystemCalls(library, d);
            var hashes, root := library.blockHashesCall(d.world), library.beaconRootCall(between);
            && called.faults == d.faults && called.readCount == d.readCount
            && (hashes.Some? ==> Overlaid(d.world, hashes.value, between))
            && (hashes.Some? && root.Some? ==> ok.Ok? && Overlaid(between, root.value, called.world))
            && (hashes.None? ==> ok == Err(SystemCallFailed) && called == d)
            && (hashes.Some? && root.None? ==> ok == Err(SystemCallFailed) && called.world == between)
  {
    var hashes := library.blockHashesCall(d.world);
    between := if hashes.Some? then Committed(d.world, hashes.value) else d.world;
    OverlaidByCommit(d.world, if hashes.Some? then hashes.value else map[]);
    var root := library.beaconRootCall(between);
    OverlaidByCommit(between, if root.Some? then root.value else map[]);
  }

  lemma OverlaidByCommit(w: World, diff: map<Address, Account>)
    ensures Overlaid(w, diff, Committed(w, diff))
  {
  }

  // The increments stay even when the hook then fails.
  lemma IncrementsStay(library: Library, d: DbState)
    ensures var (after, ok) := AfterBlock(library, d);
            var diff := library.balanceIncrements(d.world);
            && after.faults == d.faults && after.readCount == d.readCount
            && (diff.Some? ==>
                  && Overlaid(d.world, diff.value, after.world)
                  && ok == if library.hookInformed(after.world) then Ok(()) else Err(StateHookFailed))
            && (diff.None? ==> after == d && ok == Err(IncrementBalanceFailed))
  {
    var diff := library.balanceIncrements(d.world);
    OverlaidByCommit(d.world, if diff.Some? then diff.value else map[]);
  }
}
