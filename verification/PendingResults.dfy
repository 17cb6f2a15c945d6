/** Execution and commit as separate steps: what holds when each result is committed before the next
    execution, and what fails when several are pending. */
module PendingResults {
  import opened Primitives
  import opened StateDb
  import opened Hardforks
  import opened ExecutorModel
  import opened ExecutorRuns

  // Results are executed and committed as separate steps; any number may be pending.
  datatype Event = Exec(tx: Transaction) | CommitOldest

  datatype Machine = Machine(ledger: Ledger, pending: seq<TxResult>)

  function Step(cx: Context, m: Machine, e: Event): Machine {
    match e
    case Exec(tx) =>
      (match Execute(cx, m.ledger, tx)
       case (s, Ok(out)) => Machine(s, m.pending + [out])
       case (s, Err(_)) => Machine(s, m.pending))
    case CommitOldest =>
      if m.pending == [] then m
      else Machine(Commit(cx, m.ledger, m.pending[0]).0, m.pending[1..])
  }

  function Play(cx: Context, m: Machine, events: seq<Event>): Machine {
    if events == [] then m
    else Step(cx, Play(cx, m, events[..|events| - 1]), events[|events| - 1])
  }

  // Nothing is executed while a result is pending.
  predicate OneAtATime(cx: Context, m: Machine, events: seq<Event>) {
    forall i :: 0 <= i < |events| && events[i].Exec? ==> Play(cx, m, events[..i]).pending == []
  }

  predicate OnlyCheckedDeposits(cx: Context, events: seq<Event>) {
    Regolith(cx) || forall i :: 0 <= i < |events| && events[i].Exec? ==> !IsDeposit(events[i].tx)
  }

  // The gas total is within the limit and leaves room for the pending result.
  predicate GasCovered(cx: Context, m: Machine) {
    && m.ledger.gasUsed <= cx.gasLimit && |m.pending| <= 1
    && (m.pending != [] ==> m.ledger.gasUsed + m.pending[0].inner.result.gasUsed <= cx.gasLimit)
  }

  // The same for the footprint.
  predicate FootprintCovered(cx: Context, m: Machine) {
    && m.ledger.daFootprintUsed <= cx.gasLimit && |m.pending| <= 1
    && (m.pending != [] && Jovian(cx) && !m.pending[0].isDeposit ==>
          m.ledger.daFootprintUsed + m.pending[0].blobGasUsed <= cx.gasLimit)
  }

  // Committing each result before the next execution keeps the footprint within the limit in every
  // reachable state, whatever executions and commits fail; and the gas as well, if the EVM respects
  // gas limits and no deposit escapes the gas check.
  lemma {:induction false} OneAtATimeIsSafe(cx: Context, d: DbState, events: seq<Event>)
    requires OneAtATime(cx, Machine(NewLedger(d), []), events)
    ensures FootprintCovered(cx, Play(cx, Machine(NewLedger(d), []), events))
    ensures GasBounded(cx.library) && OnlyCheckedDeposits(cx, events) ==>
              GasCovered(cx, Play(cx, Machine(NewLedger(d), []), events))
  {
    hide Step, FootprintCovered, GasCovered, GasBounded, Regolith;
    if events == [] {
      NothingPending(cx, d);
    } else {
      var m0 := Machine(NewLedger(d), []);
      var init := events[..|events| - 1];
      forall i | 0 <= i < |init| && init[i].Exec? ensures Play(cx, m0, init[..i]).pending == [] {
        assert init[..i] == events[..i] && events[i].Exec?;
      }
      OneAtATimeIsSafe(cx, d, init);
      assert events[|events| - 1].Exec? ==> Play(cx, m0, events[..|events| - 1]).pending == [];
      SafeStep(cx, Play(cx, m0, init), events[|events| - 1]);
    }
  }

  lemma NothingPending(cx: Context, d: DbState)
    ensures FootprintCovered(cx, Machine(NewLedger(d), [])) && GasCovered(cx, Machine(NewLedger(d), []))
  {
  }

  lemma SafeStep(cx: Context, m: Machine, e: Event)
    requires e.Exec? ==> m.pending == []
    ensures FootprintCovered(cx, m) ==> FootprintCovered(cx, Step(cx, m, e))
    ensures GasBounded(cx.library) && (e.Exec? ==> Regolith(cx) || !IsDeposit(e.tx)) && GasCovered(cx, m) ==>
              GasCovered(cx, Step(cx, m, e))
  {
    hide Committed, BuildReceipt, DaFootprint;
  }

  // What the commits of a batch that succeed should add up to; those whose depositor read fails
  // add nothing.
  function PendingGas(cx: Context, s: Ledger, outs: seq<TxResult>): nat
    decreases |outs|
  {
    if outs == [] then 0
    else
      var (s', r) := Commit(cx, s, outs[0]);
      (if r.Ok? then outs[0].inner.result.gasUsed else 0) + PendingGas(cx, s', outs[1..])
  }

  function PendingFootprint(cx: Context, s: Ledger, outs: seq<TxResult>): nat
    decreases |outs|
  {
    if outs == [] then 0
    else
      var (s', r) := Commit(cx, s, outs[0]);
      (if r.Ok? && Jovian(cx) && !outs[0].isDeposit then outs[0].blobGasUsed else 0)
      + PendingFootprint(cx, s', outs[1..])
  }

  function CommitAll(cx: Context, s: Ledger, outs: seq<TxResult>): Ledger
    decreases |outs|
  {
    if outs == [] then s else CommitAll(cx, Commit(cx, s, outs[0]).0, outs[1..])
  }

  // Every commit of the batch that succeeds adds its gas exactly and stays within the limit.
  predicate BatchKeepsBooks(cx: Context, s: Ledger, outs: seq<TxResult>)
    decreases |outs|
  {
    outs == [] ||
    (var (s', r) := Commit(cx, s, outs[0]);
     && (r.Ok? ==> s'.gasUsed == s.gasUsed + outs[0].inner.result.gasUsed && s'.gasUsed <= cx.gasLimit)
     && BatchKeepsBooks(cx, s', outs[1..]))
  }

  // The same for the footprint.
  predicate BatchKeepsFootprints(cx: Context, s: Ledger, outs: seq<TxResult>)
    decreases |outs|
  {
    outs == [] ||
    (var (s', r) := Commit(cx, s, outs[0]);
     && (r.Ok? && Jovian(cx) && !outs[0].isDeposit ==>
           s'.daFootprintUsed == s.daFootprintUsed + outs[0].blobGasUsed && s'.daFootprintUsed <= cx.gasLimit)
     && BatchKeepsFootprints(cx, s', outs[1..]))
  }

  // Several results pending at once are safe exactly when together they fit into what is left,
  // whichever of their commits fail: the check of each against the block alone is not enough.
  lemma {:induction false} PendingSafeIff(cx: Context, s: Ledger, outs: seq<TxResult>)
    requires s.gasUsed <= cx.gasLimit
    ensures BatchKeepsBooks(cx, s, outs) <==> s.gasUsed + PendingGas(cx, s, outs) <= cx.gasLimit
    ensures BatchKeepsBooks(cx, s, outs) ==>
              CommitAll(cx, s, outs).gasUsed == s.gasUsed + PendingGas(cx, s, outs)
    decreases |outs|
  {
    hide Committed, BuildReceipt;
    if outs != [] {
      var s' := Commit(cx, s, outs[0]).0;
      if s'.gasUsed <= cx.gasLimit {
        PendingSafeIff(cx, s', outs[1..]);
      }
    }
  }

  lemma {:induction false} PendingFootprintsSafeIff(cx: Context, s: Ledger, outs: seq<TxResult>)
    requires s.daFootprintUsed <= cx.gasLimit
    ensures BatchKeepsFootprints(cx, s, outs) <==>
            s.daFootprintUsed + PendingFootprint(cx, s, outs) <= cx.gasLimit
    ensures BatchKeepsFootprints(cx, s, outs) ==>
              CommitAll(cx, s, outs).daFootprintUsed == s.daFootprintUsed + PendingFootprint(cx, s, outs)
    decreases |outs|
  {
    hide Committed, BuildReceipt;
    if outs != [] {
      var s' := Commit(cx, s, outs[0]).0;
      if s'.daFootprintUsed <= cx.gasLimit {
        PendingFootprintsSafeIff(cx, s', outs[1..]);
      }
    }
  }

  // ---------- Two results pending ----------

  ghost predicate SpendsEverything(library: Library) {
    forall w, tx :: library.evm(w, tx) == Ok(ResultAndState(ExecutionResult(tx.gasLimit, true, []), map[]))
  }

  // A transaction that passes both checks in an empty block. Its footprint is only estimated
  // under Jovian, with two reads that must not fail.
  ghost predicate PassesAlone(cx: Context, d: DbState, tx: Transaction) {
    && !IsDeposit(tx) && tx.gasLimit <= cx.gasLimit
    && (Jovian(cx) ==> d.FaultFree() && DaFootprint(cx, d.world, tx) <= cx.gasLimit)
  }

  function Charged(cx: Context, w: World, tx: Transaction): U64 {
    if Jovian(cx) then DaFootprint(cx, w, tx) else 0
  }

  // Two transactions executed one after the other and committed only then: each is checked
  // against the empty block.
  lemma TwoPending(cx: Context, d: DbState, a: Transaction, b: Transaction)
    requires SpendsEverything(cx.library) && PassesAlone(cx, d, a) && PassesAlone(cx, d, b)
    ensures var m := Play(cx, Machine(NewLedger(d), []), [Exec(a), Exec(b), CommitOldest, CommitOldest]);
            && m.pending == []
            && m.ledger.gasUsed == WrappingAdd(a.gasLimit, b.gasLimit)
            && m.ledger.daFootprintUsed == SaturatingAdd(Charged(cx, d.world, a), Charged(cx, d.world, b))
            && m.ledger.db.world == d.world
  {
    hide Commit, Execute, SpendsEverything, PassesAlone, Charged, SaturatingAdd, WrappingAdd;
    var m0 := Machine(NewLedger(d), []);
    PlayAppend(cx, m0, [], Exec(a));
    PlayAppend(cx, m0, [Exec(a)], Exec(b));
    PlayAppend(cx, m0, [Exec(a), Exec(b)], CommitOldest);
    PlayAppend(cx, m0, [Exec(a), Exec(b), CommitOldest], CommitOldest);
    assert [] + [Exec(a)] == [Exec(a)] && [Exec(a)] + [Exec(b)] == [Exec(a), Exec(b)];
    assert [Exec(a), Exec(b)] + [CommitOldest] == [Exec(a), Exec(b), CommitOldest];
    assert [Exec(a), Exec(b), CommitOldest] + [CommitOldest] == [Exec(a), Exec(b), CommitOldest, CommitOldest];
    assert Play(cx, m0, []) == m0;
    ExecSpends(cx, m0, d, a);
    var m1 := Step(cx, m0, Exec(a));
    ExecSpends(cx, m1, d, b);
    var m2 := Step(cx, m1, Exec(b));
    CommitSpends(cx, m2, a, d.world);
    var m3 := Step(cx, m2, CommitOldest);
    CommitSpends(cx, m3, b, d.world);
    FirstAmounts(a.gasLimit, Charged(cx, d.world, a));
  }

  lemma FirstAmounts(gas: U64, footprint: U64)
    ensures WrappingAdd(0, gas) == gas && SaturatingAdd(0, footprint) == footprint
  {
  }

  // The pending result of a transaction that spends its whole limit and changes no state.
  ghost predicate Spends(cx: Context, w: World, tx: Transaction, out: TxResult) {
    && out.inner == ResultAndState(ExecutionResult(tx.gasLimit, true, []), map[])
    && !out.isDeposit && out.blobGasUsed == Charged(cx, w, tx)
  }

  lemma ExecSpends(cx: Context, m: Machine, d: DbState, tx: Transaction)
    requires SpendsEverything(cx.library) && PassesAlone(cx, d, tx)
    requires m.ledger.gasUsed == m.ledger.daFootprintUsed == 0 && m.ledger.db.world == d.world
    requires m.ledger.db.faults == d.faults && m.ledger.db.readCount >= d.readCount
    ensures var m' := Step(cx, m, Exec(tx));
            && m'.ledger == Advanced(m.ledger, m'.ledger.db.readCount - m.ledger.db.readCount)
            && m'.ledger.db.readCount >= m.ledger.db.readCount
            && |m'.pending| == |m.pending| + 1 && m'.pending[..|m.pending|] == m.pending
            && Spends(cx, d.world, tx, m'.pending[|m.pending|])
  {
    hide DaFootprint;
  }

  lemma CommitSpends(cx: Context, m: Machine, tx: Transaction, w: World)
    requires m.pending != [] && m.ledger.db.world == w && Spends(cx, w, tx, m.pending[0])
    ensures var m' := Step(cx, m, CommitOldest);
            && m'.pending == m.pending[1..]
            && m'.ledger.gasUsed == WrappingAdd(m.ledger.gasUsed, tx.gasLimit)
            && m'.ledger.daFootprintUsed == SaturatingAdd(m.ledger.daFootprintUsed, Charged(cx, w, tx))
            && m'.ledger.db.world == w
  {
    hide DaFootprint, BuildReceipt;
    NothingCommitted(w);
  }

  lemma NothingCommitted(w: World)
    ensures Committed(w, map[]) == w
  {
    assert CommittedAccounts(w.accounts, map[]) == w.accounts;
    assert CommittedStorage(w.storage, map[]) == w.storage;
  }

  // Both transactions pass the gas check, the total passes the limit, and what is left wraps, so
  // that a transaction larger than the block can be admitted.
  lemma TwoPendingBreak(cx: Context, d: DbState, a: Transaction, b: Transaction, c: Transaction)
    requires SpendsEverything(cx.library) && PassesAlone(cx, d, a) && PassesAlone(cx, d, b)
    requires cx.gasLimit < a.gasLimit + b.gasLimit <= U64_MAX
    ensures var m := Play(cx, Machine(NewLedger(d), []), [Exec(a), Exec(b), CommitOldest, CommitOldest]);
            var left := WrappingSub(cx.gasLimit, m.ledger.gasUsed);
            && m.pending == [] && m.ledger.gasUsed == a.gasLimit + b.gasLimit
            && left > cx.gasLimit && (c.gasLimit <= left ==> !GasRejects(cx, m.ledger, c))
  {
    hide Play, SpendsEverything, PassesAlone;
    TwoPending(cx, d, a, b);
  }

  // The same for the footprint under Jovian: the total passes the limit (or saturates), and the
  // subtraction wraps to more than the whole block.
  lemma TwoPendingFootprintsBreak(cx: Context, d: DbState, a: Transaction, b: Transaction, c: Transaction)
    requires SpendsEverything(cx.library) && PassesAlone(cx, d, a) && PassesAlone(cx, d, b)
    requires Jovian(cx) && cx.gasLimit < U64_MAX
    requires cx.gasLimit < DaFootprint(cx, d.world, a) + DaFootprint(cx, d.world, b)
    ensures var m := Play(cx, Machine(NewLedger(d), []), [Exec(a), Exec(b), CommitOldest, CommitOldest]);
            var left := WrappingSub(cx.gasLimit, m.ledger.daFootprintUsed);
            && m.pending == [] && m.ledger.db.world == d.world && m.ledger.daFootprintUsed > cx.gasLimit
            && left > cx.gasLimit && (DaFootprint(cx, d.world, c) <= left ==> !DaRejects(cx, m.ledger, c))
  {
    hide Play, SpendsEverything, PassesAlone, DaFootprint;
    TwoPending(cx, d, a, b);
  }

  // Such blocks exist. With a limit of 100: two transactions of 60 gas each, then one of 1000; two
  // of footprint 60 each, within the gas limit, then one of footprint 1000.
  lemma PendingResultsBreakTheLimit(d: DbState) returns (cx: Context, big: Transaction, events: seq<Event>)
    ensures GasBounded(cx.library) && Regolith(cx)
    ensures var m := Play(cx, Machine(NewLedger(d), []), events);
            m.ledger.gasUsed > cx.gasLimit && big.gasLimit > cx.gasLimit && !GasRejects(cx, m.ledger, big)
  {
    cx := Context(ChainSpec(252, Timestamp(0), Never, Never, Never, Never, Never), 0, 100,
                  Library(Spending(), (b: Bytes) => 0, (w: World) => 0,
                          NoDiff(), NoDiff(), NoDiff(), (w: World) => true));
    var small := Transaction(2, 60, 0, None, []);
    big := Transaction(2, 1000, 0, None, []);
    events := [Exec(small), Exec(small), CommitOldest, CommitOldest];
    TwoPendingBreak(cx, d, small, small, big);
  }

  lemma PendingFootprintsBreakTheLimit(d: DbState) returns (cx: Context, big: Transaction, events: seq<Event>)
    requires d.FaultFree()
    ensures GasBounded(cx.library) && Regolith(cx) && Jovian(cx)
    ensures var m := Play(cx, Machine(NewLedger(d), []), events);
            && m.ledger.gasUsed <= cx.gasLimit < m.ledger.daFootprintUsed
            && DaFootprint(cx, d.world, big) > cx.gasLimit && !DaRejects(cx, m.ledger, big)
  {
    var sizes := (b: Bytes) => if b == [] then 60_000_000 else 1000_000_000;
    cx := Context(ChainSpec(252, Timestamp(0), Never, Never, Never, Never, Timestamp(0)), 0, 100,
                  Library(Spending(), sizes, (w: World) => 1,
                          NoDiff(), NoDiff(), NoDiff(), (w: World) => true));
    var small := Transaction(2, 50, 0, None, []);
    big := Transaction(2, 50, 0, None, [1]);
    events := [Exec(small), Exec(small), CommitOldest, CommitOldest];
    assert DaFootprint(cx, d.world, small) == 60 && DaFootprint(cx, d.world, big) == 1000;
    TwoPending(cx, d, small, small);
    TwoPendingFootprintsBreak(cx, d, small, small, big);
  }

  lemma PlayAppend(cx: Context, m: Machine, events: seq<Event>, e: Event)
    ensures Play(cx, m, events + [e]) == Step(cx, Play(cx, m, events), e)
  {
    assert (events + [e])[..|events|] == events;
  }
}
