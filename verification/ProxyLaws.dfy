/** What the proxy upgrades mean: every contract now answers through the proxy with its own
    original logic, once; and when that fails. */
module ProxyLaws {
  import opened Primitives
  import opened ByteCodec
  import opened StateDb
  import opened Transitions
  import opened Simultaneity
  import opened LostLookups
  import opened ProxyMigration

  // The code reached by following the implementation slot of a proxied contract.
  function Logic(w: World, contract: Address): Bytes {
    Code(w, AddressFromBytes(ToBigEndian(Slot(w, contract, PROXY_IMPLEMENTATION_SLOT), 32)[12..]))
  }

  // ---------- One upgrade ----------

  predicate WellPlaced(c: Change) {
    c.ProxyUpgrade? && c.contract != c.implementation
    && PROXY_ADMIN_SLOT !in c.extra && PROXY_IMPLEMENTATION_SLOT !in c.extra
  }

  // The logic an upgrade preserves: the contract's code with the token patched in.
  function PatchedLogic(c: Change, w: World): Bytes
    requires c.ProxyUpgrade? && Fits(c, w)
  {
    SpliceAll(Code(w, c.contract), c.offsets, AddressBytes(c.token))
  }

  // What one upgrade that has seen `code` leaves at its two accounts.
  ghost predicate UpgradedWith(c: Change, code: Bytes, w: World, w': World)
    requires c.ProxyUpgrade? && InBounds(c, code)
  {
    var logic := SpliceAll(code, c.offsets, AddressBytes(c.token));
    && At(w', CodeAt(c.contract)) == At(w, CodeAt(c.proxy))
    && At(w', CodeAt(c.implementation)) == CodeCell(w.keccak(logic), Some(logic))
    && Slot(w', c.contract, PROXY_ADMIN_SLOT) == c.admin
    && Slot(w', c.contract, PROXY_IMPLEMENTATION_SLOT) == c.implementation
    && Code(w', c.contract) == Code(w, c.proxy)
    && Logic(w', c.contract) == logic
  }

  ghost predicate Upgraded(c: Change, w: World, w': World)
    requires c.ProxyUpgrade? && Fits(c, w)
  {
    UpgradedWith(c, Code(w, c.contract), w, w')
  }

  // An upgrade carried out among other, independent items leaves exactly that.
  lemma UpgradedAmongOthers(cs: seq<Change>, i: nat, w: World, w': World)
    requires Simultaneous(cs, w, w') && i < |cs|
    requires WellPlaced(cs[i]) && Fits(cs[i], w)
    ensures Upgraded(cs[i], w, w')
    ensures forall s :: s in cs[i].extra ==> Slot(w', cs[i].contract, s) == cs[i].extra[s]
  {
    hide Performed, UpgradedWith, CellAfter, Code;
    var c := cs[i];
    forall l | WritesTo(c, l) ensures At(w', l) == CellAfter(c, w, Code(w, c.contract), l) {
      PerformedCell(c, w, l);
    }
    UpgradedByCells(c, Code(w, c.contract), w, w');
  }

  // The same whatever reads fail: what counts is the code the upgrade has seen.
  lemma UpgradedAsSeen(cs: seq<Change>, i: nat, d: DbState, w': World)
    requires SimultaneousAsSeen(cs, d, w') && i < |cs| && WellPlaced(cs[i])
    ensures InBounds(cs[i], Seen(cs, i, d)) && UpgradedWith(cs[i], Seen(cs, i, d), d.world, w')
    ensures forall s :: s in cs[i].extra ==> Slot(w', cs[i].contract, s) == cs[i].extra[s]
  {
    hide UpgradedWith, CellAfter, Seen, InBounds;
    UpgradedByCells(cs[i], Seen(cs, i, d), d.world, w');
  }

  lemma UpgradedByCells(c: Change, code: Bytes, w: World, w': World)
    requires WellPlaced(c) && InBounds(c, code) && SameLibrary(w, w')
    requires forall l :: WritesTo(c, l) ==> At(w', l) == CellAfter(c, w, code, l)
    ensures UpgradedWith(c, code, w, w')
    ensures forall s :: s in c.extra ==> Slot(w', c.contract, s) == c.extra[s]
  {
    hide SpliceAll, AddressBytes, ToBigEndian, LeftPaddedWord, AddressFromBytes;
    AddressWordDecodes(c.admin);
    AddressWordDecodes(c.implementation);
    assert At(w', CodeAt(c.contract)) == CellAfter(c, w, code, CodeAt(c.contract));
    assert At(w', CodeAt(c.implementation)) == CellAfter(c, w, code, CodeAt(c.implementation));
    UpgradedSlot(c, w, w', code, PROXY_ADMIN_SLOT);
    UpgradedSlot(c, w, w', code, PROXY_IMPLEMENTATION_SLOT);
    forall s | s in c.extra ensures Slot(w', c.contract, s) == c.extra[s] {
      UpgradedSlot(c, w, w', code, s);
    }
  }

  lemma UpgradedSlot(c: Change, w: World, w': World, code: Bytes, s: Word)
    requires c.ProxyUpgrade? && InBounds(c, code) && s in UpgradeSlots(c)
    requires forall l :: WritesTo(c, l) ==> At(w', l) == CellAfter(c, w, code, l)
    ensures Slot(w', c.contract, s) == UpgradeSlots(c)[s]
  {
    hide SpliceAll, AddressBytes, AddressWord;
    assert WritesTo(c, SlotAt(c.contract, s));
    assert At(w', SlotAt(c.contract, s)) == CellAfter(c, w, code, SlotAt(c.contract, s));
  }

  lemma PerformedCell(c: Change, w: World, l: Location)
    requires Fits(c, w)
    ensures At(Performed(c, w), l) == CellAfter(c, w, Code(w, Target(c)), l)
  {
    EffectCells(c, w, Code(w, Target(c)), l);
  }

  // ---------- The loop over a list of contracts ----------

  // The listed contracts differ in their last 17 bytes, none of them is another's derived
  // address, and the proxy is neither.
  ghost predicate Separate(contracts: seq<Address>, proxy: Address) {
    && (forall i, j :: 0 <= i < j < |contracts| ==>
          AddressBytes(contracts[i])[3..] != AddressBytes(contracts[j])[3..])
    && (forall i, j :: 0 <= i < |contracts| && 0 <= j < |contracts| ==>
          contracts[i] != ImplementationAddress(contracts[j]))
    && (forall i :: 0 <= i < |contracts| ==>
          contracts[i] != proxy && ImplementationAddress(contracts[i]) != proxy)
  }

  // Every listed contract is upgraded and nothing else changes.
  ghost predicate Migrated(contracts: seq<Address>, proxy: Address, admin: Address, w: World, w': World) {
    && SameLibrary(w, w')
    && (forall i :: 0 <= i < |contracts| ==>
          var c := contracts[i];
          && Info(w', c) == Info(w, c).(code := Info(w, proxy).code, codeHash := Info(w, proxy).codeHash)
          && Info(w', ImplementationAddress(c)) == WithCode(Info(w, ImplementationAddress(c)), Code(w, c), w.keccak)
          && Slot(w', c, PROXY_ADMIN_SLOT) == admin
          && Code(w', c) == Code(w, proxy)
          && Logic(w', c) == Code(w, c))
    && (forall a :: a !in contracts && (forall i :: 0 <= i < |contracts| ==> a != ImplementationAddress(contracts[i]))
          ==> Info(w', a) == Info(w, a))
    && (forall a, s :: !(a in contracts && s in {PROXY_ADMIN_SLOT, PROXY_IMPLEMENTATION_SLOT})
          ==> Slot(w', a, s) == Slot(w, a, s))
  }

  // The sequential loop is the simultaneous migration of all listed contracts.
  lemma ProxyLoopMigratesAll(contracts: seq<Address>, proxy: Address, admin: Address, d: DbState)
    requires d.FaultFree() && Separate(contracts, proxy)
    ensures var r := RunChanges(ToProxies(contracts, proxy, admin), d);
            r.outcome.Done? && r.db.FaultFree() && Migrated(contracts, proxy, admin, d.world, r.db.world)
  {
    hide Apply, RunChanges, PerformedAll, AllFit, WritesTo, ReadsFrom, ImplementationAddress, AddressBytes, Logic;
    var cs := ToProxies(contracts, proxy, admin);
    SeparateIsIndependent(contracts, proxy, admin);
    NothingPatchedFits(contracts, proxy, admin, d.world);
    SequentialIsSimultaneous(cs, d.world);
    FaultFreeRun(cs, d);
    SimultaneousMigrates(contracts, proxy, admin, d.world, RunChanges(cs, d).db.world);
  }

  lemma NothingPatchedFits(contracts: seq<Address>, proxy: Address, admin: Address, w: World)
    ensures EachFits(ToProxies(contracts, proxy, admin), w)
  {
  }

  lemma SeparateIsIndependent(contracts: seq<Address>, proxy: Address, admin: Address)
    requires Separate(contracts, proxy)
    ensures AllIndependent(ToProxies(contracts, proxy, admin))
  {
    hide AddressBytes, ImplementationAddress;
    var cs := ToProxies(contracts, proxy, admin);
    forall i, j | 0 <= i < j < |cs| ensures Independent(cs[i], cs[j]) {
      ImplementationAddressLaws(contracts[i], contracts[j]);
      TwoProxies(contracts[i], contracts[j], proxy, admin);
    }
  }

  lemma TwoProxies(p: Address, q: Address, proxy: Address, admin: Address)
    requires p != q && ImplementationAddress(p) != ImplementationAddress(q)
    requires p != ImplementationAddress(q) && q != ImplementationAddress(p)
    requires proxy !in {p, q, ImplementationAddress(p), ImplementationAddress(q)}
    ensures Independent(ToProxy(p, proxy, admin), ToProxy(q, proxy, admin))
  {
  }

  lemma SimultaneousMigrates(contracts: seq<Address>, proxy: Address, admin: Address, w: World, w': World)
    requires Separate(contracts, proxy)
    requires Simultaneous(ToProxies(contracts, proxy, admin), w, w')
    ensures Migrated(contracts, proxy, admin, w, w')
  {
    hide AddressBytes, ImplementationAddress, Logic, Performed, AddressWord;
    var cs := ToProxies(contracts, proxy, admin);
    forall i | 0 <= i < |contracts|
      ensures Upgraded(cs[i], w, w') && PatchedLogic(cs[i], w) == Code(w, contracts[i])
    {
      assert Fits(cs[i], w);
      UpgradedAmongOthers(cs, i, w, w');
      NothingPatched(Code(w, contracts[i]), 0);
    }
    FundsKept(cs, w, w');
    OthersKept(contracts, proxy, admin, w, w');
  }

  lemma OthersKept(contracts: seq<Address>, proxy: Address, admin: Address, w: World, w': World)
    requires Simultaneous(ToProxies(contracts, proxy, admin), w, w')
    ensures forall a ::
              a !in contracts && (forall i :: 0 <= i < |contracts| ==> a != ImplementationAddress(contracts[i]))
              ==> Info(w', a) == Info(w, a)
    ensures forall a, s :: !(a in contracts && s in {PROXY_ADMIN_SLOT, PROXY_IMPLEMENTATION_SLOT})
              ==> Slot(w', a, s) == Slot(w, a, s)
  {
    hide ImplementationAddress, Performed, AddressWord;
    var cs := ToProxies(contracts, proxy, admin);
    forall a | a !in contracts && (forall i :: 0 <= i < |contracts| ==> a != ImplementationAddress(contracts[i]))
      ensures Info(w', a) == Info(w, a)
    {
      assert !WrittenBy(cs, CodeAt(a)) && !WrittenBy(cs, FundsAt(a));
      assert At(w', CodeAt(a)) == At(w, CodeAt(a)) && At(w', FundsAt(a)) == At(w, FundsAt(a));
    }
    forall a, s | !(a in contracts && s in {PROXY_ADMIN_SLOT, PROXY_IMPLEMENTATION_SLOT})
      ensures Slot(w', a, s) == Slot(w, a, s)
    {
      assert !WrittenBy(cs, SlotAt(a, s));
      assert At(w', SlotAt(a, s)) == At(w, SlotAt(a, s));
    }
  }

  // ---------- One shot only ----------

  // Running the loop a second time makes every contract answer with the proxy's own code: the
  // original logic survives exactly where it was that code already.
  lemma SecondRunLosesLogic(contracts: seq<Address>, proxy: Address, admin: Address, d: DbState)
    requires d.FaultFree() && Separate(contracts, proxy)
    ensures var cs := ToProxies(contracts, proxy, admin);
            var once := RunChanges(cs, d);
            var twice := RunChanges(cs, once.db);
            && once.outcome.Done? && twice.outcome.Done?
            && forall i :: 0 <= i < |contracts| ==>
                 && Logic(once.db.world, contracts[i]) == Code(d.world, contracts[i])
                 && Logic(twice.db.world, contracts[i]) == Code(d.world, proxy)
  {
    hide RunChanges, Separate, Logic;
    var cs := ToProxies(contracts, proxy, admin);
    var once := RunChanges(cs, d);
    ProxyLoopMigratesAll(contracts, proxy, admin, d);
    ProxyLoopMigratesAll(contracts, proxy, admin, once.db);
  }

  // ---------- The three bodies agree ----------

  // Granite's upgrade, with no offsets and its name and symbol writes removed, does to any
  // database what one step of the Holocene and Isthmus loops does, whatever reads fail.
  lemma BodiesAgree(granite: Change, d: DbState)
    requires granite.ProxyUpgrade? && granite.implementation == ImplementationAddress(granite.contract)
    ensures Apply(granite.(offsets := [], extra := map[]), d) ==
            Apply(ToProxy(granite.contract, granite.proxy, granite.admin), d)
  {
    hide Committed, AddressBytes, AddressWord, ImplementationAddress, UpgradeSlots;
    var bare, step := granite.(offsets := [], extra := map[]), ToProxy(granite.contract, granite.proxy, granite.admin);
    var code := CodeSeen(step, d);
    NothingPatched(code, bare.token);
    NothingPatched(code, step.token);
    SameSlots(bare, step);
    assert ChangeSet(bare, d.world, code) == ChangeSet(step, d.world, code);
  }

  lemma SameSlots(c: Change, c': Change)
    requires c.ProxyUpgrade? && c'.ProxyUpgrade?
    requires c.admin == c'.admin && c.implementation == c'.implementation && c.extra == c'.extra
    ensures UpgradeSlots(c) == UpgradeSlots(c')
  {
  }

  // With its offsets, name and symbol, Granite's upgrade stops where the bare step stops or
  // because a window does not fit; and when it completes, it differs from the bare step only in
  // the patched copy of the code and in the extra slots.
  lemma GraniteExtendsStep(granite: Change, d: DbState)
    requires WellPlaced(granite) && granite.implementation == ImplementationAddress(granite.contract)
    ensures var step := ToProxy(granite.contract, granite.proxy, granite.admin);
            var r, b := Apply(granite, d), Apply(step, d);
            && (r.outcome.OutOfBounds? <==> !d.NextFails() && !InBounds(granite, CodeSeen(granite, d)))
            && (!r.outcome.OutOfBounds? ==> r.outcome == b.outcome && r.db == b.db.(world := r.db.world))
            && (r.outcome.Done? ==>
                  && (forall s :: s in granite.extra ==> Slot(r.db.world, granite.contract, s) == granite.extra[s])
                  && WindowsInRange(granite.offsets, 20, |Code(b.db.world, granite.implementation)|)
                  && Code(r.db.world, granite.implementation) ==
                     SpliceAll(Code(b.db.world, granite.implementation), granite.offsets, AddressBytes(granite.token))
                  && forall l :: l != CodeAt(granite.implementation)
                              && !(l.SlotAt? && l.address == granite.contract && l.slot in granite.extra)
                       ==> At(r.db.world, l) == At(b.db.world, l))
  {
    hide Committed, ChangeSet, Effect, SpliceAll, AddressBytes, AddressWord, ImplementationAddress;
    var step := ToProxy(granite.contract, granite.proxy, granite.admin);
    var code := CodeSeen(granite, d);
    NothingPatched(code, step.token);
    if Apply(granite, d).outcome.Done? {
      forall l ensures At(Apply(granite, d).db.world, l) == CellAfter(granite, d.world, code, l) {
        EffectCells(granite, d.world, code, l);
      }
      forall l ensures At(Apply(step, d).db.world, l) == CellAfter(step, d.world, code, l) {
        EffectCells(step, d.world, code, l);
      }
      ExtraCells(granite, d.world, Apply(granite, d).db.world, Apply(step, d).db.world, code);
    }
  }

  lemma ExtraCells(granite: Change, w: World, r: World, b: World, code: Bytes)
    requires WellPlaced(granite) && InBounds(granite, code)
    requires forall l :: At(r, l) == CellAfter(granite, w, code, l)
    requires var step := granite.(offsets := [], token := 0, extra := map[]);
             forall l :: At(b, l) == CellAfter(step, w, code, l)
    ensures forall s :: s in granite.extra ==> Slot(r, granite.contract, s) == granite.extra[s]
    ensures Code(b, granite.implementation) == code
    ensures Code(r, granite.implementation) == SpliceAll(code, granite.offsets, AddressBytes(granite.token))
    ensures forall l :: l != CodeAt(granite.implementation)
                     && !(l.SlotAt? && l.address == granite.contract && l.slot in granite.extra)
              ==> At(r, l) == At(b, l)
  {
    hide AddressBytes, AddressWord, SpliceAll;
    NothingPatched(code, 0);
    assert At(b, CodeAt(granite.implementation)) == CodeCell(w.keccak(code), Some(code));
    assert At(r, CodeAt(granite.implementation)).code
           == Some(SpliceAll(code, granite.offsets, AddressBytes(granite.token)));
    forall s | s in granite.extra ensures Slot(r, granite.contract, s) == granite.extra[s] {
      assert At(r, SlotAt(granite.contract, s)) == CellAfter(granite, w, code, SlotAt(granite.contract, s));
    }
    forall l | l != CodeAt(granite.implementation)
            && !(l.SlotAt? && l.address == granite.contract && l.slot in granite.extra)
      ensures At(r, l) == At(b, l)
    {
      assert At(r, l) == CellAfter(granite, w, code, l);
    }
  }

  // ---------- A swallowed read ----------

  // A code lookup that fails is not reported: the upgrade still completes, and keeps the
  // original logic exactly when the code was inline, the lookup succeeded, or there was none.
  lemma SwallowedReadLosesLogic(contract: Address, proxy: Address, admin: Address, d: DbState)
    requires contract != ImplementationAddress(contract)
    requires Apply(ToProxy(contract, proxy, admin), d).outcome.Done?
    ensures var lost := Info(d.world, contract).code.None? && d.readCount + 1 in d.faults;
            Logic(Apply(ToProxy(contract, proxy, admin), d).db.world, contract) ==
            if lost then [] else Code(d.world, contract)
  {
    hide Committed, ChangeSet, Effect, AddressBytes, ToBigEndian, LeftPaddedWord, AddressFromBytes,
         ImplementationAddress;
    var c := ToProxy(contract, proxy, admin);
    var code := CodeSeen(c, d);
    var w' := Effect(c, d.world, code);
    NothingPatched(code, 0);
    AddressWordDecodes(c.implementation);
    EffectCells(c, d.world, code, CodeAt(c.implementation));
    EffectCells(c, d.world, code, SlotAt(contract, PROXY_IMPLEMENTATION_SLOT));
  }

  // Such a loss in a database of one account: its one-byte code is stored by hash, the lookup
  // fails, the upgrade reports success, and the contract answers with no code at all.
  lemma LostLogicExists(proxy: Address, admin: Address) returns (contract: Address, d: DbState)
    ensures var r := Apply(ToProxy(contract, proxy, admin), d);
            && Info(d.world, contract).code.None? && Code(d.world, contract) == [0xfe]
            && d.faults == {d.readCount + 1}
            && r.outcome.Done? && Logic(r.db.world, contract) == []
  {
    hide Committed, ChangeSet, Effect, Logic, ImplementationAddress;
    contract := 1;
    ImplementationAddressArithmetic(contract);
    d := DbState(World(map[contract := AccountInfo(0, 0, 7, None)], map[], map[7 := [0xfe]], (b: Bytes) => 7), {1}, 0);
    SwallowedReadLosesLogic(contract, proxy, admin, d);
  }

  // Whatever reads fail, a loop that reports success leaves every contract behind the proxy with
  // its original logic, or with no code at all exactly when its own lookup was lost.
  lemma LoopWithLostLookups(contracts: seq<Address>, proxy: Address, admin: Address, d: DbState)
    requires Separate(contracts, proxy)
    requires RunChanges(ToProxies(contracts, proxy, admin), d).outcome.Done?
    ensures var cs := ToProxies(contracts, proxy, admin);
            var w' := RunChanges(cs, d).db.world;
            forall i :: 0 <= i < |contracts| ==>
              && Code(w', contracts[i]) == Code(d.world, proxy)
              && Logic(w', contracts[i]) == if LookupLost(cs, i, d) then [] else Code(d.world, contracts[i])
  {
    hide RunChanges, ImplementationAddress, AddressBytes, Logic, Code, SimultaneousAsSeen, LookupLost, AllIndependent;
    var cs := ToProxies(contracts, proxy, admin);
    var w' := RunChanges(cs, d).db.world;
    SeparateIsIndependent(contracts, proxy, admin);
    RunIsSimultaneous(cs, d);
    forall i | 0 <= i < |contracts|
      ensures Code(w', contracts[i]) == Code(d.world, proxy)
      ensures Logic(w', contracts[i]) == if LookupLost(cs, i, d) then [] else Code(d.world, contracts[i])
    {
      UpgradedAsSeen(cs, i, d, w');
      NothingPatched(Seen(cs, i, d), cs[i].token);
    }
  }
}
