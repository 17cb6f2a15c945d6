/** All forks' migrations in one pre-execution step. */
module PreExecution {
  import opened Primitives
  import opened ByteCodec
  import opened StateDb
  import opened Transitions
  import opened Simultaneity
  import opened LostLookups
  import opened Hardforks
  import opened ForkTables
  import opened ProxyLaws
  import opened ProxyMigration
  import Canyon
  import Granite
  import Holocene
  import Isthmus

  // ---------- One block ----------

  // The items the migrations of one block consist of, in the order they are called.
  function PreExecutionChanges(spec: ChainSpec, timestamp: U64, bytecode: Bytes): seq<Change> {
    Canyon.CanyonChanges(spec, timestamp, bytecode) + Granite.GraniteChanges(spec, timestamp)
    + Holocene.HoloceneChanges(spec, timestamp) + Isthmus.IsthmusChanges(spec, timestamp)
  }

  lemma FiredTables(spec: ChainSpec, timestamp: U64, bytecode: Bytes)
    ensures PreExecutionChanges(spec, timestamp, bytecode) ==
            ChosenTables(spec.chainId, bytecode,
                         AtTransition(spec.canyon, timestamp), AtTransition(spec.granite, timestamp),
                         AtTransition(spec.holocene, timestamp), AtTransition(spec.isthmus, timestamp))
  {
    hide Granite.GraniteTable, Holocene.HoloceneTable, Isthmus.IsthmusTable;
  }

  // What becomes of an upgrade of a step that reports success: with its lookup lost the contract is
  // left with no logic, otherwise it resolves to its own.
  ghost predicate UpgradedOrLost(cs: seq<Change>, i: nat, d: DbState, w': World)
    requires i < |cs| && cs[i].ProxyUpgrade? && Fits(cs[i], d.world)
  {
    if LookupLost(cs, i, d)
    then cs[i].offsets == [] && Code(w', cs[i].contract) == Code(d.world, PROXY) && Logic(w', cs[i].contract) == []
    else Upgraded(cs[i], d.world, w')
  }

  // Whatever forks activate in a block and whatever reads fail: the migrations get through exactly
  // when every account they load can be read and every patch fits the code it has seen, and then
  // all have acted at once on the state before them. No migration undoes another, and an upgraded contract resolves to
  // its own original logic unless its code lookup was lost. Without failing reads the step
  // succeeds exactly when every patched range is in bounds.
  lemma PreExecutionIsSimultaneous(spec: ChainSpec, timestamp: U64, bytecode: Bytes, d: DbState)
    ensures var cs := PreExecutionChanges(spec, timestamp, bytecode);
            var r := RunChanges(cs, d);
            && (r.outcome.Done? <==> forall i :: 0 <= i < |cs| ==>
                  AccountReadsSucceed(cs, i, d) && InBounds(cs[i], Seen(cs, i, d)))
            && (r.outcome.Done? ==>
                  && EachFits(cs, d.world) && SimultaneousAsSeen(cs, d, r.db.world)
                  && (forall a :: Info(r.db.world, a).nonce == Info(d.world, a).nonce
                               && Info(r.db.world, a).balance == Info(d.world, a).balance)
                  && (forall i :: 0 <= i < |cs| && cs[i].ProxyUpgrade? ==>
                        Fits(cs[i], d.world) && UpgradedOrLost(cs, i, d, r.db.world))
                  && ((forall i :: 0 <= i < |cs| ==> !LookupLost(cs, i, d)) ==> Simultaneous(cs, d.world, r.db.world)))
            && (d.FaultFree() ==>
                  && (forall i :: 0 <= i < |cs| ==> !LookupLost(cs, i, d)) && r.db.FaultFree()
                  && r.outcome == if EachFits(cs, d.world) then Done else OutOfBounds)
  {
    hide PerformedAll, AllFit, At, Simultaneous, SimultaneousAsSeen, AllIndependent, PreExecutionChanges,
         UpgradedOrLost, Fits, Tidy, RunChanges, RunsAlone, LookupLost, WritesTo, ReadsFrom, DbState.FaultFree,
         AccountReadsSucceed, InBounds, Seen;
    var cs := PreExecutionChanges(spec, timestamp, bytecode);
    var w' := RunChanges(cs, d).db.world;
    BlockIsIndependent(spec, timestamp, bytecode);
    RunIsSimultaneous(cs, d);
    forall i | 0 <= i < |cs|
      ensures RunsAlone(cs, i, d) <==> AccountReadsSucceed(cs, i, d) && InBounds(cs[i], Seen(cs, i, d))
    {
      RunsAloneIff(cs, i, d);
    }
    if d.FaultFree() {
      FaultFreeRun(cs, d);
      IndependentFit(cs, d.world);
      NothingLost(cs, d);
    }
    if RunChanges(cs, d).outcome.Done? {
      AsSeenFits(cs, d, w');
      FundsKeptAsSeen(cs, d, w');
      forall i | 0 <= i < |cs| && cs[i].ProxyUpgrade?
        ensures Fits(cs[i], d.world) && UpgradedOrLost(cs, i, d, w')
      {
        UpgradeAsSeen(cs, i, d, w');
      }
      if forall i :: 0 <= i < |cs| ==> !LookupLost(cs, i, d) {
        AsSeenIsSimultaneous(cs, d, w');
      }
    }
  }

  lemma AsSeenFits(cs: seq<Change>, d: DbState, w': World)
    requires SimultaneousAsSeen(cs, d, w')
    ensures EachFits(cs, d.world)
  {
    hide Fits, InBounds, Seen;
    SeenFits(cs, d);
  }

  lemma UpgradeAsSeen(cs: seq<Change>, i: nat, d: DbState, w': World)
    requires Tidy(cs) && SimultaneousAsSeen(cs, d, w') && i < |cs| && cs[i].ProxyUpgrade?
    ensures Fits(cs[i], d.world) && UpgradedOrLost(cs, i, d, w')
    ensures forall s :: s in cs[i].extra ==> Slot(w', cs[i].contract, s) == cs[i].extra[s]
  {
    UpgradesUseProxy(cs);
    SeenFits(cs, d);
    assert cs[i] in cs && Fits(cs[i], d.world);
    hide SimultaneousAsSeen, Fits, Listed, LookupLost, Logic, SpliceAll, AddressBytes, EachFits;
    ListedIsWellPlaced(cs[i]);
    UpgradedAsSeen(cs, i, d, w');
    NothingPatched([], cs[i].token);
  }

  lemma BlockIsIndependent(spec: ChainSpec, timestamp: U64, bytecode: Bytes)
    ensures var cs := PreExecutionChanges(spec, timestamp, bytecode); Tidy(cs) && AllIndependent(cs)
  {
    hide PreExecutionChanges, ChosenTables, Tidy, AllIndependent;
    FiredTables(spec, timestamp, bytecode);
    ForksAreIndependent(spec.chainId, bytecode,
                        AtTransition(spec.canyon, timestamp), AtTransition(spec.granite, timestamp),
                        AtTransition(spec.holocene, timestamp), AtTransition(spec.isthmus, timestamp));
  }

  lemma UpgradesHold(cs: seq<Change>, w: World, w': World)
    requires Tidy(cs) && EachFits(cs, w) && Simultaneous(cs, w, w')
    ensures forall c :: c in cs && c.ProxyUpgrade? ==> Upgraded(c, w, w')
  {
    hide Simultaneous, Upgraded, Fits, Identity, ImplementationAddress, CONTRACTS;
    forall c | c in cs && c.ProxyUpgrade? ensures Upgraded(c, w, w') {
      var i :| 0 <= i < |cs| && cs[i] == c;
      ListedIsWellPlaced(c);
      UpgradedAmongOthers(cs, i, w, w');
    }
  }

  // The migrations of a block keep every account's code and code hash in agreement, provided
  // the create2 bytecode hashes to the constant that is stored with it.
  lemma PreExecutionKeepsCoherence(spec: ChainSpec, timestamp: U64, bytecode: Bytes, d: DbState)
    requires Coherent(d.world) && d.world.keccak(bytecode) == Canyon.CREATE_2_DEPLOYER_CODEHASH
    ensures Coherent(RunChanges(PreExecutionChanges(spec, timestamp, bytecode), d).db.world)
  {
    hide Apply, RunChanges, Granite.GraniteTable, Holocene.HoloceneTable, Isthmus.IsthmusTable;
    NoOtherDeploys(spec.chainId);
    RunKeepsCoherence(PreExecutionChanges(spec, timestamp, bytecode), d);
  }

  // ---------- Granite in a block ----------

  // A token that became a proxy: new name and symbol, admin and implementation slots, proxy code.
  ghost predicate Rebranded(token: Address, implementation: Address, name: Word, symbol: Word, w: World, w': World) {
    && Slot(w', token, 3) == name && Slot(w', token, 4) == symbol
    && Slot(w', token, PROXY_ADMIN_SLOT) == Granite.PROXY_ADMIN_ADDR
    && Slot(w', token, PROXY_IMPLEMENTATION_SLOT) == implementation
    && Code(w', token) == Code(w, PROXY)
  }

  // When Granite's gate opens, frax becomes a proxy for its patched logic under the new name and
  // symbol, whatever other forks fire in the same block; and so does sfrax where it is migrated. A
  // lost lookup makes Granite panic, so its tokens always keep their own logic.
  lemma GraniteOutcome(spec: ChainSpec, timestamp: U64, bytecode: Bytes, d: DbState)
    requires AtTransition(spec.granite, timestamp)
    ensures var r := RunChanges(PreExecutionChanges(spec, timestamp, bytecode), d);
            var w := r.db.world;
            r.outcome.Done? ==>
            && Rebranded(Granite.FRAX_ADDR, Granite.FRAX_IMPL_ADDR,
                         Granite.FRXUSD_NAME_STORAGE_VALUE, Granite.FRXUSD_SYMBOL_STORAGE_VALUE, d.world, w)
            && (spec.chainId != 2522 ==>
                  Rebranded(Granite.SFRAX_ADDR, Granite.SFRAX_IMPL_ADDR,
                            Granite.SFRXUSD_NAME_STORAGE_VALUE, Granite.SFRXUSD_SYMBOL_STORAGE_VALUE, d.world, w))
            && forall c :: c in Granite.GraniteTable(spec.chainId) ==>
                 Fits(c, d.world) && Logic(w, c.contract) == PatchedLogic(c, d.world)
  {
    hide RunChanges, PreExecutionChanges, Fits, SpliceAll, PatchedLogic, Logic, Code, At, CodeOf, Slot;
    if RunChanges(PreExecutionChanges(spec, timestamp, bytecode), d).outcome.Done? {
      var w, table := RunChanges(PreExecutionChanges(spec, timestamp, bytecode), d).db.world,
                      Granite.GraniteTable(spec.chainId);
      forall c | c in table ensures Fits(c, d.world) && Upgraded(c, d.world, w)
        ensures forall s :: s in c.extra ==> Slot(w, c.contract, s) == c.extra[s]
        ensures Logic(w, c.contract) == PatchedLogic(c, d.world)
      {
        GraniteUpgrade(spec, timestamp, bytecode, d, c);
      }
      assert table[0] in table && Upgraded(table[0], d.world, w) && 3 in table[0].extra && 4 in table[0].extra;
      if spec.chainId != 2522 {
        assert table[1] in table && Upgraded(table[1], d.world, w) && 3 in table[1].extra && 4 in table[1].extra;
      }
    }
  }

  lemma GraniteUpgrade(spec: ChainSpec, timestamp: U64, bytecode: Bytes, d: DbState, c: Change)
    requires RunChanges(PreExecutionChanges(spec, timestamp, bytecode), d).outcome.Done?
    requires AtTransition(spec.granite, timestamp) && c in Granite.GraniteTable(spec.chainId)
    ensures var w := RunChanges(PreExecutionChanges(spec, timestamp, bytecode), d).db.world;
            && Fits(c, d.world) && Upgraded(c, d.world, w)
            && Logic(w, c.contract) == PatchedLogic(c, d.world)
            && forall s :: s in c.extra ==> Slot(w, c.contract, s) == c.extra[s]
  {
    hide Holocene.HoloceneTable, Isthmus.IsthmusTable, CONTRACTS, Listed, Identity;
    assert c.offsets != [];
    assert c in PreExecutionChanges(spec, timestamp, bytecode);
    hide RunChanges, PreExecutionChanges, Granite.GraniteTable, Fits, SpliceAll, Logic, Code, At, SimultaneousAsSeen,
         Tidy, AllIndependent, LookupLost, RunsAlone, AddressBytes;
    var cs := PreExecutionChanges(spec, timestamp, bytecode);
    BlockIsIndependent(spec, timestamp, bytecode);
    RunIsSimultaneous(cs, d);
    var i :| 0 <= i < |cs| && cs[i] == c;
    UpgradeAsSeen(cs, i, d, RunChanges(cs, d).db.world);
  }
}
