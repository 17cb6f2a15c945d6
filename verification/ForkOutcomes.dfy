/** What each fork leaves in the world, contract by contract and chain by chain, whatever other forks
    fire in the same block and whatever reads fail; and that nothing else changes. */
module ForkOutcomes {
  import opened Primitives
  import opened ByteCodec
  import opened StateDb
  import opened Transitions
  import opened Simultaneity
  import opened LostLookups
  import opened Hardforks
  import opened ForkGate
  import opened HoloceneConstants
  import opened ForkTables
  import opened ProxyLaws
  import opened ProxyMigration
  import opened PreExecution
  import Canyon
  import Granite
  import Holocene
  import Isthmus

  // The two seconds from a fork's time on.
  predicate Opens(fork: ForkActivation, timestamp: U64) {
    fork.Timestamp? && 1 <= fork.at <= timestamp < fork.at + 2
  }

  lemma GateOpens(fork: ForkActivation, timestamp: U64)
    ensures AtTransition(fork, timestamp) <==> Opens(fork, timestamp)
  {
    if fork.Timestamp? {
      GateWindow(fork.at, timestamp);
    }
  }

  predicate NamingChain(chainId: U64) {
    chainId != 2521 && chainId != 2522
  }

  // ---------- What may change ----------

  // The cells an upgrade of contract `a` to the shared proxy writes.
  predicate ProxyCell(a: Address, l: Location) {
    || l == CodeAt(a) || l == CodeAt(ImplementationAddress(a))
    || l == SlotAt(a, PROXY_ADMIN_SLOT) || l == SlotAt(a, PROXY_IMPLEMENTATION_SLOT)
  }

  predicate ProxyCellOf(contracts: seq<Address>, l: Location) {
    exists i :: 0 <= i < |contracts| && ProxyCell(contracts[i], l)
  }

  predicate GraniteCell(chainId: U64, l: Location) {
    || ProxyCell(Granite.FRAX_ADDR, l) || l == SlotAt(Granite.FRAX_ADDR, 3) || l == SlotAt(Granite.FRAX_ADDR, 4)
    || (chainId != 2522 &&
        (ProxyCell(Granite.SFRAX_ADDR, l) || l == SlotAt(Granite.SFRAX_ADDR, 3) || l == SlotAt(Granite.SFRAX_ADDR, 4)))
  }

  predicate NamingCell(l: Location) {
    || (exists i :: 0 <= i < |MAINNET_NAMING_BYTECODE_CHANGES| &&
          l == CodeAt(MAINNET_NAMING_BYTECODE_CHANGES[i].address))
    || (exists i :: 0 <= i < |MAINNET_NAMING_STORAGE_CHANGES| &&
          l == SlotAt(MAINNET_NAMING_STORAGE_CHANGES[i].address, MAINNET_NAMING_STORAGE_CHANGES[i].storageSlot))
  }

  predicate HoloceneCell(chainId: U64, l: Location) {
    if chainId == 2521 then ProxyCellOf(DEVNET_TOKENS_ADDRESSES, l)
    else if chainId == 2522 then ProxyCellOf(TESTNET_TOKENS_ADDRESSES, l)
    else ProxyCellOf(MAINNET_TOKENS_ADDRESSES, l) || NamingCell(l)
  }

  predicate IsthmusCell(chainId: U64, l: Location) {
    chainId == 252 && ProxyCellOf(Isthmus.MAINNET_ORACLES_ADDRESSES, l)
  }

  predicate MayChange(spec: ChainSpec, timestamp: U64, l: Location) {
    || (Opens(spec.canyon, timestamp) && l == CodeAt(Canyon.CREATE_2_DEPLOYER_ADDR))
    || (Opens(spec.granite, timestamp) && GraniteCell(spec.chainId, l))
    || (Opens(spec.holocene, timestamp) && HoloceneCell(spec.chainId, l))
    || (Opens(spec.isthmus, timestamp) && IsthmusCell(spec.chainId, l))
  }

  lemma ProxiesWrite(contracts: seq<Address>, c: Change, l: Location)
    requires c in ToProxies(contracts, PROXY, PROXY) && WritesTo(c, l)
    ensures ProxyCellOf(contracts, l)
  {
    hide ImplementationAddress, AddressWord;
    var cs := ToProxies(contracts, PROXY, PROXY);
    var i :| 0 <= i < |cs| && cs[i] == c;
    assert ProxyCell(contracts[i], l);
  }

  lemma GraniteWrites(chainId: U64, c: Change, l: Location)
    requires c in Granite.GraniteTable(chainId) && WritesTo(c, l)
    ensures GraniteCell(chainId, l)
  {
    hide ImplementationAddress, AddressWord;
    ImplementationIsDerived(0);
  }

  lemma NamingWritten(chainId: U64, c: Change, l: Location)
    requires c in NamingTable(chainId) && WritesTo(c, l)
    ensures NamingChain(chainId) && NamingCell(l)
  {
    hide MAINNET_NAMING_BYTECODE_CHANGES, MAINNET_NAMING_STORAGE_CHANGES;
    var patches, writes := Holocene.Patches(Holocene.NamingPatches(chainId)),
                           Holocene.Writes(Holocene.NamingWrites(chainId));
    if c in patches {
      var i :| 0 <= i < |patches| && patches[i] == c;
      assert l == CodeAt(MAINNET_NAMING_BYTECODE_CHANGES[i].address);
    } else {
      var i :| 0 <= i < |writes| && writes[i] == c;
      assert l == SlotAt(MAINNET_NAMING_STORAGE_CHANGES[i].address, MAINNET_NAMING_STORAGE_CHANGES[i].storageSlot);
    }
  }

  lemma HoloceneWrites(chainId: U64, c: Change, l: Location)
    requires c in Holocene.HoloceneTable(chainId) && WritesTo(c, l)
    ensures HoloceneCell(chainId, l)
  {
    hide WritesTo, NamingTable, CONTRACTS, ProxyCellOf, NamingCell, ToProxies,
         MAINNET_TOKENS_ADDRESSES, DEVNET_TOKENS_ADDRESSES, TESTNET_TOKENS_ADDRESSES;
    var n := TokensAmongContracts(chainId);
    ContractCount();
    TableParts(chainId, n);
    if c in NamingTable(chainId) {
      NamingWritten(chainId, c, l);
    } else {
      ProxiesWrite(Holocene.TokenAddresses(chainId), c, l);
    }
  }

  lemma IsthmusWrites(chainId: U64, c: Change, l: Location)
    requires c in Isthmus.IsthmusTable(chainId) && WritesTo(c, l)
    ensures IsthmusCell(chainId, l)
  {
    hide WritesTo, ProxyCellOf, ToProxies;
    ProxiesWrite(Isthmus.MAINNET_ORACLES_ADDRESSES, c, l);
  }

  lemma ItemWrites(spec: ChainSpec, timestamp: U64, bytecode: Bytes, c: Change, l: Location)
    requires c in PreExecutionChanges(spec, timestamp, bytecode) && WritesTo(c, l)
    ensures MayChange(spec, timestamp, l)
  {
    hide AtTransition, Opens, GraniteCell, HoloceneCell, IsthmusCell, Granite.GraniteTable, Holocene.HoloceneTable,
         Isthmus.IsthmusTable;
    GateOpens(spec.canyon, timestamp);
    GateOpens(spec.granite, timestamp);
    GateOpens(spec.holocene, timestamp);
    GateOpens(spec.isthmus, timestamp);
    if c in Granite.GraniteChanges(spec, timestamp) {
      GraniteWrites(spec.chainId, c, l);
    } else if c in Holocene.HoloceneChanges(spec, timestamp) {
      HoloceneWrites(spec.chainId, c, l);
    } else if c in Isthmus.IsthmusChanges(spec, timestamp) {
      IsthmusWrites(spec.chainId, c, l);
    }
  }

  // Wherever the migrations of a block end and whatever reads fail, they change no other cell.
  lemma OnlyTheseChange(spec: ChainSpec, timestamp: U64, bytecode: Bytes, d: DbState, l: Location)
    requires !MayChange(spec, timestamp, l)
    ensures At(RunChanges(PreExecutionChanges(spec, timestamp, bytecode), d).db.world, l) == At(d.world, l)
  {
    hide RunChanges, PreExecutionChanges, MayChange, At, WritesTo;
    var cs := PreExecutionChanges(spec, timestamp, bytecode);
    forall i | 0 <= i < |cs| ensures !WritesTo(cs[i], l) {
      if WritesTo(cs[i], l) {
        ItemWrites(spec, timestamp, bytecode, cs[i], l);
      }
    }
    RunFrame(cs, d, l);
  }

  // ---------- A contract behind the proxy ----------

  // Contract `a` answers through the proxy with its own code, or with none if its lookup was lost;
  // funds stay where they were, and a new implementation account has none.
  ghost predicate Proxied(a: Address, lost: bool, w: World, w': World) {
    var logic, implementation := if lost then [] else Code(w, a), ImplementationAddress(a);
    && Code(w', a) == Code(w, PROXY) && Info(w', a).codeHash == Info(w, PROXY).codeHash
    && Slot(w', a, PROXY_ADMIN_SLOT) == Granite.PROXY_ADMIN_ADDR
    && Slot(w', a, PROXY_IMPLEMENTATION_SLOT) == implementation
    && Logic(w', a) == logic && Info(w', implementation).code == Some(logic)
    && Info(w', implementation).codeHash == w.keccak(logic)
    && (a !in w.accounts ==> logic == [])
    && (PROXY !in w.accounts ==> Code(w', a) == [] && Info(w', a).codeHash == w.keccak([]))
    && Info(w', a).nonce == Info(w, a).nonce && Info(w', a).balance == Info(w, a).balance
    && Info(w', implementation).nonce == (if implementation in w.accounts then w.accounts[implementation].nonce else 0)
    && Info(w', implementation).balance ==
       (if implementation in w.accounts then w.accounts[implementation].balance else 0)
  }

  ghost predicate AllProxied(contracts: seq<Address>, lost: set<Address>, w: World, w': World) {
    forall i :: 0 <= i < |contracts| ==> Proxied(contracts[i], contracts[i] in lost, w, w')
  }

  lemma ProxiedInBlock(spec: ChainSpec, timestamp: U64, bytecode: Bytes, d: DbState, a: Address)
    requires RunChanges(PreExecutionChanges(spec, timestamp, bytecode), d).outcome.Done?
    requires ToProxy(a, PROXY, PROXY) in PreExecutionChanges(spec, timestamp, bytecode)
    ensures var cs := PreExecutionChanges(spec, timestamp, bytecode);
            Proxied(a, a in Lost(cs, d), d.world, RunChanges(cs, d).db.world)
  {
    hide RunChanges, PreExecutionChanges, SimultaneousAsSeen, Tidy, AllIndependent, LookupLost, RunsAlone, Lost, Listed,
         ProxiesElsewhere, AddressBytes, ImplementationAddress, Logic;
    var cs := PreExecutionChanges(spec, timestamp, bytecode);
    var w' := RunChanges(cs, d).db.world;
    BlockIsIndependent(spec, timestamp, bytecode);
    RunIsSimultaneous(cs, d);
    var i :| 0 <= i < |cs| && cs[i] == ToProxy(a, PROXY, PROXY);
    UpgradesUseProxy(cs);
    TidyItem(cs, i);
    OnlyOwnLoss(cs, i, d);
    UpgradedAsSeen(cs, i, d, w');
    FundsKeptAsSeen(cs, d, w');
    NothingPatched(Seen(cs, i, d), cs[i].token);
  }

  lemma TidyItem(cs: seq<Change>, i: nat)
    requires Tidy(cs) && i < |cs| && cs[i].ProxyUpgrade?
    ensures WellPlaced(cs[i])
  {
    hide Listed, Identity, CONTRACTS;
    assert cs[i] in cs;
    ListedIsWellPlaced(cs[i]);
  }

  lemma AllProxiedInBlock(spec: ChainSpec, timestamp: U64, bytecode: Bytes, d: DbState, contracts: seq<Address>)
    requires RunChanges(PreExecutionChanges(spec, timestamp, bytecode), d).outcome.Done?
    requires forall c :: c in ToProxies(contracts, PROXY, PROXY) ==> c in PreExecutionChanges(spec, timestamp, bytecode)
    ensures var cs := PreExecutionChanges(spec, timestamp, bytecode);
            AllProxied(contracts, Lost(cs, d), d.world, RunChanges(cs, d).db.world)
  {
    hide RunChanges, PreExecutionChanges, Lost, Proxied, ToProxy;
    var cs := PreExecutionChanges(spec, timestamp, bytecode);
    var upgrades := ToProxies(contracts, PROXY, PROXY);
    forall i | 0 <= i < |contracts|
      ensures Proxied(contracts[i], contracts[i] in Lost(cs, d), d.world, RunChanges(cs, d).db.world)
    {
      assert upgrades[i] in upgrades && upgrades[i] == ToProxy(contracts[i], PROXY, PROXY);
      ProxiedInBlock(spec, timestamp, bytecode, d, contracts[i]);
    }
  }

  // ---------- The lists keep apart ----------

  // The cells of a contract: its code, the code at its derived address, its slots.
  predicate ContractCell(a: Address, l: Location) {
    l == CodeAt(a) || l == CodeAt(ImplementationAddress(a)) || (l.SlotAt? && l.address == a)
  }

  lemma ContractCellsApart(a: Address, b: Address, l: Location)
    requires a in CONTRACTS && b in CONTRACTS && ContractCell(a, l) && ContractCell(b, l)
    ensures a == b
  {
    hide CONTRACTS, ImplementationAddress, Derived;
    ContractsNotDerived();
    ImplementationIsDerived(a);
    ImplementationIsDerived(b);
    if a != b {
      DifferentContracts(a, b);
    }
  }

  lemma ContractLists()
    ensures Granite.FRAX_ADDR in CONTRACTS && Granite.SFRAX_ADDR in CONTRACTS
    ensures forall a :: a in DEVNET_TOKENS_ADDRESSES || a in TESTNET_TOKENS_ADDRESSES ==> a in MAINNET_TOKENS_ADDRESSES
    ensures forall a :: a in MAINNET_TOKENS_ADDRESSES || a in Isthmus.MAINNET_ORACLES_ADDRESSES ==> a in CONTRACTS
    ensures forall a :: a in MAINNET_TOKENS_ADDRESSES ==>
              a !in Isthmus.MAINNET_ORACLES_ADDRESSES && a != Granite.FRAX_ADDR && a != Granite.SFRAX_ADDR
    ensures Granite.FRAX_ADDR != Granite.SFRAX_ADDR
    ensures Granite.FRAX_ADDR !in Isthmus.MAINNET_ORACLES_ADDRESSES
    ensures Granite.SFRAX_ADDR !in Isthmus.MAINNET_ORACLES_ADDRESSES
    ensures Granite.SFRAX_ADDR !in MAINNET_TOKENS_ADDRESSES
  {
  }

  // The contracts the open gates of a block upgrade.
  predicate UpgradedHere(spec: ChainSpec, timestamp: U64, a: Address) {
    || (Opens(spec.granite, timestamp) && (a == Granite.FRAX_ADDR || (a == Granite.SFRAX_ADDR && spec.chainId != 2522)))
    || (Opens(spec.holocene, timestamp) &&
        if spec.chainId == 2521 then a in DEVNET_TOKENS_ADDRESSES
        else if spec.chainId == 2522 then a in TESTNET_TOKENS_ADDRESSES
        else a in MAINNET_TOKENS_ADDRESSES)
    || (Opens(spec.isthmus, timestamp) && spec.chainId == 252 && a in Isthmus.MAINNET_ORACLES_ADDRESSES)
  }

  lemma OfList(contracts: seq<Address>, a: Address, l: Location)
    requires a in CONTRACTS && ContractCell(a, l) && ProxyCellOf(contracts, l)
    requires forall b :: b in contracts ==> b in CONTRACTS
    ensures a in contracts
  {
    hide CONTRACTS, ImplementationAddress;
    var i :| 0 <= i < |contracts| && ProxyCell(contracts[i], l);
    ContractCellsApart(a, contracts[i], l);
  }

  lemma NamedElsewhere(a: Address, l: Location)
    requires a in CONTRACTS && ContractCell(a, l)
    ensures !NamingCell(l) && l != CodeAt(Canyon.CREATE_2_DEPLOYER_ADDR)
  {
    hide CONTRACTS, ImplementationAddress, Derived, MAINNET_NAMING_BYTECODE_CHANGES, MAINNET_NAMING_STORAGE_CHANGES;
    DeployElsewhere();
    ImplementationIsDerived(a);
    MainnetRecords();
    forall i | 0 <= i < |MAINNET_NAMING_BYTECODE_CHANGES|
      ensures l != CodeAt(MAINNET_NAMING_BYTECODE_CHANGES[i].address)
    {
      PatchesElsewhere(i);
      PatchesNotDerived(i);
    }
    forall i | 0 <= i < |MAINNET_NAMING_STORAGE_CHANGES|
      ensures l != SlotAt(MAINNET_NAMING_STORAGE_CHANGES[i].address, MAINNET_NAMING_STORAGE_CHANGES[i].storageSlot)
    {
      assert MAINNET_NAMING_STORAGE_CHANGES[i] in MAINNET_NAMING_STORAGE_CHANGES;
    }
  }

  lemma OfGranite(chainId: U64, a: Address, l: Location)
    requires a in CONTRACTS && ContractCell(a, l) && GraniteCell(chainId, l)
    ensures a == Granite.FRAX_ADDR || (a == Granite.SFRAX_ADDR && chainId != 2522)
  {
    hide CONTRACTS, ImplementationAddress;
    ContractLists();
    if ContractCell(Granite.FRAX_ADDR, l) {
      ContractCellsApart(a, Granite.FRAX_ADDR, l);
    } else {
      ContractCellsApart(a, Granite.SFRAX_ADDR, l);
    }
  }

  // A contract no open gate upgrades keeps all its cells.
  lemma ContractUntouched(spec: ChainSpec, timestamp: U64, a: Address, l: Location)
    requires a in CONTRACTS && ContractCell(a, l) && !UpgradedHere(spec, timestamp, a)
    ensures !MayChange(spec, timestamp, l)
  {
    hide CONTRACTS, ContractCell, ProxyCellOf, GraniteCell, NamingCell, Opens, DEVNET_TOKENS_ADDRESSES,
         TESTNET_TOKENS_ADDRESSES, MAINNET_TOKENS_ADDRESSES, Isthmus.MAINNET_ORACLES_ADDRESSES;
    ContractLists();
    NamedElsewhere(a, l);
    if GraniteCell(spec.chainId, l) {
      OfGranite(spec.chainId, a, l);
    }
    if ProxyCellOf(DEVNET_TOKENS_ADDRESSES, l) {
      OfList(DEVNET_TOKENS_ADDRESSES, a, l);
    }
    if ProxyCellOf(TESTNET_TOKENS_ADDRESSES, l) {
      OfList(TESTNET_TOKENS_ADDRESSES, a, l);
    }
    if ProxyCellOf(MAINNET_TOKENS_ADDRESSES, l) {
      OfList(MAINNET_TOKENS_ADDRESSES, a, l);
    }
    if ProxyCellOf(Isthmus.MAINNET_ORACLES_ADDRESSES, l) {
      OfList(Isthmus.MAINNET_ORACLES_ADDRESSES, a, l);
    }
  }

  lemma NotNamed(contracts: seq<Address>, l: Location)
    requires NamingCell(l) && forall b :: b in contracts ==> b in CONTRACTS
    ensures !ProxyCellOf(contracts, l)
  {
    hide CONTRACTS, ImplementationAddress, NamingCell;
    forall i | 0 <= i < |contracts| ensures !ProxyCell(contracts[i], l) {
      if ProxyCell(contracts[i], l) {
        NamedElsewhere(contracts[i], l);
      }
    }
  }

  // On the chains without naming phases the named slots and codes keep their contents.
  lemma NamesUntouched(spec: ChainSpec, timestamp: U64, l: Location)
    requires !NamingChain(spec.chainId) && NamingCell(l)
    ensures !MayChange(spec, timestamp, l)
  {
    hide CONTRACTS, ProxyCellOf, NamingCell, Opens, DEVNET_TOKENS_ADDRESSES, ImplementationAddress,
         TESTNET_TOKENS_ADDRESSES, MAINNET_TOKENS_ADDRESSES, Isthmus.MAINNET_ORACLES_ADDRESSES;
    ContractLists();
    NotNamed(DEVNET_TOKENS_ADDRESSES, l);
    NotNamed(TESTNET_TOKENS_ADDRESSES, l);
    NotNamed(Isthmus.MAINNET_ORACLES_ADDRESSES, l);
    if ContractCell(Granite.FRAX_ADDR, l) {
      NamedElsewhere(Granite.FRAX_ADDR, l);
    }
    if ContractCell(Granite.SFRAX_ADDR, l) {
      NamedElsewhere(Granite.SFRAX_ADDR, l);
    }
    NamedAreNotDeployed(l);
  }

  lemma NamedAreNotDeployed(l: Location)
    requires NamingCell(l)
    ensures l != CodeAt(Canyon.CREATE_2_DEPLOYER_ADDR)
  {
    hide MAINNET_NAMING_BYTECODE_CHANGES, MAINNET_NAMING_STORAGE_CHANGES;
    if l.CodeAt? {
      var i :| 0 <= i < |MAINNET_NAMING_BYTECODE_CHANGES| && l == CodeAt(MAINNET_NAMING_BYTECODE_CHANGES[i].address);
      PatchesNotDerived(i);
    }
  }

  // ---------- Canyon ----------

  // The deployer gets the given bytecode and the fixed hash, and keeps its funds.
  lemma CanyonDeploys(spec: ChainSpec, timestamp: U64, bytecode: Bytes, d: DbState)
    requires Opens(spec.canyon, timestamp)
    ensures var r := RunChanges(PreExecutionChanges(spec, timestamp, bytecode), d);
            var deployer := Canyon.CREATE_2_DEPLOYER_ADDR;
            r.outcome.Done? ==>
            Info(r.db.world, deployer) == Info(d.world, deployer).(code := Some(bytecode),
                                                          codeHash := Canyon.CREATE_2_DEPLOYER_CODEHASH)
  {
    hide RunChanges, Granite.GraniteChanges, Holocene.HoloceneChanges, Isthmus.IsthmusChanges, Tidy, AllIndependent,
         RunsAlone, AtTransition, Seen;
    if RunChanges(PreExecutionChanges(spec, timestamp, bytecode), d).outcome.Done? {
      var cs := PreExecutionChanges(spec, timestamp, bytecode);
      var w' := RunChanges(cs, d).db.world;
      GateOpens(spec.canyon, timestamp);
      BlockIsIndependent(spec, timestamp, bytecode);
      RunIsSimultaneous(cs, d);
      FundsKeptAsSeen(cs, d, w');
      var l := CodeAt(Canyon.CREATE_2_DEPLOYER_ADDR);
      assert cs[0] == ForceDeploy(Canyon.CREATE_2_DEPLOYER_ADDR, Canyon.CREATE_2_DEPLOYER_CODEHASH, bytecode);
      assert WritesTo(cs[0], l) && At(w', l) == CellAfter(cs[0], d.world, Seen(cs, 0, d), l);
    }
  }

  // ---------- Granite ----------

  // Which token's L1 address stands where: in frax the one of frxUSD, in sfrax the one of sfrxUSD,
  // at the chain's own offsets; and on chain 2522 sfrax is left as it was.
  lemma GranitePatches(spec: ChainSpec, timestamp: U64, bytecode: Bytes, d: DbState)
    requires Opens(spec.granite, timestamp)
    ensures var r := RunChanges(PreExecutionChanges(spec, timestamp, bytecode), d);
            var w, w' := d.world, r.db.world;
            var frax, sfrax := Granite.FRAX_ADDR, Granite.SFRAX_ADDR;
            var frxusd, sfrxusd := Granite.FRXUSD_L1_ADDR, Granite.SFRXUSD_L1_ADDR;
            r.outcome.Done? ==>
            && (spec.chainId == 2521 ==>
                  && Carries([693, 1303], frxusd, Code(w, frax), Logic(w', frax))
                  && Carries([693, 1303], sfrxusd, Code(w, sfrax), Logic(w', sfrax)))
            && (spec.chainId == 2522 ==>
                  && Carries([2137, 6962, 7330], frxusd, Code(w, frax), Logic(w', frax))
                  && (forall l :: ContractCell(sfrax, l) ==> At(w', l) == At(w, l)))
            && (spec.chainId != 2521 && spec.chainId != 2522 ==>
                  && Carries([2137, 6850, 7218], frxusd, Code(w, frax), Logic(w', frax))
                  && Carries([2137, 6850, 7218], sfrxusd, Code(w, sfrax), Logic(w', sfrax)))
            && Rebranded(frax, ImplementationAddress(frax),
                         Granite.FRXUSD_NAME_STORAGE_VALUE, Granite.FRXUSD_SYMBOL_STORAGE_VALUE, w, w')
            && (spec.chainId != 2522 ==>
                  Rebranded(sfrax, ImplementationAddress(sfrax),
                            Granite.SFRXUSD_NAME_STORAGE_VALUE, Granite.SFRXUSD_SYMBOL_STORAGE_VALUE, w, w'))
  {
    hide RunChanges, PreExecutionChanges, Carries, Rebranded, Fits, PatchedLogic, Logic, Code, At,
         ImplementationAddress;
    if RunChanges(PreExecutionChanges(spec, timestamp, bytecode), d).outcome.Done? {
      GateOpens(spec.granite, timestamp);
      GraniteOutcome(spec, timestamp, bytecode, d);
      ImplementationIsDerived(0);
      var w' := RunChanges(PreExecutionChanges(spec, timestamp, bytecode), d).db.world;
      var table := Granite.GraniteTable(spec.chainId);
      assert table[0] in table;
      GraniteItemCarries(spec.chainId, 0, d.world, w');
      if spec.chainId == 2522 {
        forall l | ContractCell(Granite.SFRAX_ADDR, l) ensures At(w', l) == At(d.world, l) {
          ContractLists();
          ContractUntouched(spec, timestamp, Granite.SFRAX_ADDR, l);
          OnlyTheseChange(spec, timestamp, bytecode, d, l);
        }
      } else {
        assert table[1] in table;
        GraniteItemCarries(spec.chainId, 1, d.world, w');
      }
    }
  }

  lemma GraniteItemCarries(chainId: U64, i: nat, w: World, w': World)
    requires i < |Granite.GraniteTable(chainId)|
    requires var c := Granite.GraniteTable(chainId)[i];
             Fits(c, w) && Logic(w', c.contract) == PatchedLogic(c, w)
    ensures var c := Granite.GraniteTable(chainId)[i];
            Carries(c.offsets, c.token, Code(w, c.contract), Logic(w', c.contract))
  {
    hide Carries, Fits, PatchedLogic, Logic, Code;
    GraniteLogicCarriesToken(chainId, i, w);
  }

  // ---------- Holocene ----------

  // The names as the records give them: every listed slot holds its value; every listed window
  // holds its bytes, the rest of the code and its length are kept, and the hash matches.
  ghost predicate Named(w: World, w': World) {
    && (forall g, k :: 0 <= g < |MAINNET_NAMING_GROUPS| && 0 <= k < |MAINNET_NAMING_GROUPS[g].slots| ==>
          Slot(w', MAINNET_NAMING_GROUPS[g].address, MAINNET_NAMING_GROUPS[g].slots[k])
          == MAINNET_NAMING_GROUPS[g].values[k])
    && (forall r :: r in MAINNET_NAMING_STORAGE_CHANGES ==> Slot(w', r.address, r.storageSlot) == r.value)
    && (forall r :: r in MAINNET_NAMING_BYTECODE_CHANGES ==> Renamed(r, w, w'))
  }

  ghost predicate Renamed(r: ByteCodeChange, w: World, w': World) {
    var code, code' := Code(w, r.address), Code(w', r.address);
    && r.offset + |r.value| <= |code| == |code'|
    && code'[r.offset..r.offset + |r.value|] == r.value
    && (forall k :: 0 <= k < |code| && !(r.offset <= k < r.offset + |r.value|) ==> code'[k] == code[k])
    && Info(w', r.address).code == Some(code') && Info(w', r.address).codeHash == w.keccak(code')
  }

  // Every token listed for the chain is a proxy for its own code. On the chains with naming phases
  // the names are the listed ones; on the others no listed name changes and no other token is
  // touched.
  lemma HoloceneOutcome(spec: ChainSpec, timestamp: U64, bytecode: Bytes, d: DbState)
    requires Opens(spec.holocene, timestamp)
    ensures var cs := PreExecutionChanges(spec, timestamp, bytecode);
            var w, w' := d.world, RunChanges(cs, d).db.world;
            RunChanges(cs, d).outcome.Done? ==>
            && (spec.chainId == 2521 ==> AllProxied(DEVNET_TOKENS_ADDRESSES, Lost(cs, d), w, w'))
            && (spec.chainId == 2522 ==> AllProxied(TESTNET_TOKENS_ADDRESSES, Lost(cs, d), w, w'))
            && (spec.chainId != 2521 && spec.chainId != 2522 ==>
                  AllProxied(MAINNET_TOKENS_ADDRESSES, Lost(cs, d), w, w') && Named(w, w'))
            && (spec.chainId == 2521 || spec.chainId == 2522 ==>
                  && (forall l :: NamingCell(l) ==> At(w', l) == At(w, l))
                  && (forall a, l :: a in MAINNET_TOKENS_ADDRESSES && ContractCell(a, l)
                        && a !in (if spec.chainId == 2521 then DEVNET_TOKENS_ADDRESSES else TESTNET_TOKENS_ADDRESSES)
                        ==> At(w', l) == At(w, l)))
  {
    hide RunChanges, PreExecutionChanges, AllProxied, Named, NamingCell, ContractCell, At, Lost, Opens, CONTRACTS,
         DEVNET_TOKENS_ADDRESSES, TESTNET_TOKENS_ADDRESSES, MAINNET_TOKENS_ADDRESSES, Isthmus.MAINNET_ORACLES_ADDRESSES;
    if RunChanges(PreExecutionChanges(spec, timestamp, bytecode), d).outcome.Done? {
      var cs := PreExecutionChanges(spec, timestamp, bytecode);
      var w' := RunChanges(cs, d).db.world;
      HoloceneItems(spec, timestamp, bytecode);
      AllProxiedInBlock(spec, timestamp, bytecode, d, Holocene.TokenAddresses(spec.chainId));
      ContractLists();
      if NamingChain(spec.chainId) {
        NamedInBlock(spec, timestamp, bytecode, d);
      } else {
        forall l | NamingCell(l) ensures At(w', l) == At(d.world, l) {
          NamesUntouched(spec, timestamp, l);
          OnlyTheseChange(spec, timestamp, bytecode, d, l);
        }
        forall a, l | a in MAINNET_TOKENS_ADDRESSES && ContractCell(a, l)
                   && a !in (if spec.chainId == 2521 then DEVNET_TOKENS_ADDRESSES else TESTNET_TOKENS_ADDRESSES)
          ensures At(w', l) == At(d.world, l)
        {
          ContractUntouched(spec, timestamp, a, l);
          OnlyTheseChange(spec, timestamp, bytecode, d, l);
        }
      }
    }
  }

  lemma HoloceneItems(spec: ChainSpec, timestamp: U64, bytecode: Bytes)
    requires Opens(spec.holocene, timestamp)
    ensures forall c :: c in Holocene.HoloceneTable(spec.chainId) ==>
              c in PreExecutionChanges(spec, timestamp, bytecode)
    ensures forall c :: c in ToProxies(Holocene.TokenAddresses(spec.chainId), PROXY, PROXY) ==>
              c in PreExecutionChanges(spec, timestamp, bytecode)
    ensures forall c :: c in NamingTable(spec.chainId) ==> c in PreExecutionChanges(spec, timestamp, bytecode)
  {
    hide AtTransition, Opens, ToProxies, NamingTable, Holocene.TokenAddresses, CONTRACTS;
    GateOpens(spec.holocene, timestamp);
    var n := TokensAmongContracts(spec.chainId);
    ContractCount();
    TableParts(spec.chainId, n);
    hide Holocene.HoloceneTable;
  }

  lemma NamedInBlock(spec: ChainSpec, timestamp: U64, bytecode: Bytes, d: DbState)
    requires RunChanges(PreExecutionChanges(spec, timestamp, bytecode), d).outcome.Done?
    requires Opens(spec.holocene, timestamp) && NamingChain(spec.chainId)
    ensures Named(d.world, RunChanges(PreExecutionChanges(spec, timestamp, bytecode), d).db.world)
  {
    hide RunChanges, PreExecutionChanges, Tidy, AllIndependent, SimultaneousAsSeen, Renamed, RunsAlone, Opens, Slot,
         MAINNET_NAMING_BYTECODE_CHANGES, MAINNET_NAMING_STORAGE_CHANGES, MAINNET_NAMING_GROUPS;
    var cs := PreExecutionChanges(spec, timestamp, bytecode);
    var w' := RunChanges(cs, d).db.world;
    HoloceneItems(spec, timestamp, bytecode);
    BlockIsIndependent(spec, timestamp, bytecode);
    RunIsSimultaneous(cs, d);
    forall r | r in MAINNET_NAMING_STORAGE_CHANGES ensures Slot(w', r.address, r.storageSlot) == r.value {
      WriteListed(spec.chainId, r);
      SlotInBlock(cs, d, w', r);
    }
    forall r | r in MAINNET_NAMING_BYTECODE_CHANGES ensures Renamed(r, d.world, w') {
      PatchListed(spec.chainId, r);
      assert CodePatch(r.address, r.offset, r.value) in cs;
      PatchInBlock(cs, d, w', r);
    }
    MainnetCount();
    forall g, k | 0 <= g < |MAINNET_NAMING_GROUPS| && 0 <= k < |MAINNET_NAMING_GROUPS[g].slots|
      ensures Slot(w', MAINNET_NAMING_GROUPS[g].address, MAINNET_NAMING_GROUPS[g].slots[k])
              == MAINNET_NAMING_GROUPS[g].values[k]
    {
      GroupListed(g, k);
    }
  }

  lemma GroupListed(g: nat, k: nat)
    requires g < |MAINNET_NAMING_GROUPS| && k < |MAINNET_NAMING_GROUPS[g].slots|
    ensures var group := MAINNET_NAMING_GROUPS[g];
            && |group.slots| == |group.values|
            && StorageChange(group.address, group.slots[k], group.values[k]) in MAINNET_NAMING_STORAGE_CHANGES
  {
    hide MAINNET_NAMING_GROUPS;
    MainnetCount();
    RecordListed(MAINNET_NAMING_GROUPS, g, k);
  }

  lemma {:induction false} RecordListed(groups: seq<NamingGroup>, g: nat, k: nat)
    requires WellFormed(groups) && g < |groups| && k < |groups[g].slots|
    ensures StorageChange(groups[g].address, groups[g].slots[k], groups[g].values[k]) in AllRecords(groups)
  {
    if g == 0 {
      assert Records(groups[0])[k] in Records(groups[0]);
    } else {
      RecordListed(groups[1..], g - 1, k);
    }
  }

  lemma WriteListed(chainId: U64, r: StorageChange)
    requires r in MAINNET_NAMING_STORAGE_CHANGES && NamingChain(chainId)
    ensures SlotWrite(r.address, r.storageSlot, r.value) in NamingTable(chainId)
  {
    hide MAINNET_NAMING_STORAGE_CHANGES, MAINNET_NAMING_BYTECODE_CHANGES;
    var rows := MAINNET_NAMING_STORAGE_CHANGES;
    var i :| 0 <= i < |rows| && rows[i] == r;
    var writes := Holocene.Writes(rows);
    assert writes[i] in writes;
  }

  lemma PatchListed(chainId: U64, r: ByteCodeChange)
    requires r in MAINNET_NAMING_BYTECODE_CHANGES && NamingChain(chainId)
    ensures CodePatch(r.address, r.offset, r.value) in NamingTable(chainId) && |r.value| == 64
  {
    RecordLengths();
    hide MAINNET_NAMING_STORAGE_CHANGES, MAINNET_NAMING_BYTECODE_CHANGES;
    var rows := MAINNET_NAMING_BYTECODE_CHANGES;
    var i :| 0 <= i < |rows| && rows[i] == r;
    var patches := Holocene.Patches(rows);
    assert patches[i] in patches;
  }

  lemma SlotInBlock(cs: seq<Change>, d: DbState, w': World, r: StorageChange)
    requires SimultaneousAsSeen(cs, d, w') && SlotWrite(r.address, r.storageSlot, r.value) in cs
    ensures Slot(w', r.address, r.storageSlot) == r.value
  {
    hide Seen;
    var i :| 0 <= i < |cs| && cs[i] == SlotWrite(r.address, r.storageSlot, r.value);
    var l := SlotAt(r.address, r.storageSlot);
    assert WritesTo(cs[i], l) && At(w', l) == CellAfter(cs[i], d.world, Seen(cs, i, d), l);
  }

  // A patch whose lookup is lost does not fit, so it has seen the code there was.
  lemma PatchInBlock(cs: seq<Change>, d: DbState, w': World, r: ByteCodeChange)
    requires SimultaneousAsSeen(cs, d, w') && CodePatch(r.address, r.offset, r.value) in cs && |r.value| > 0
    ensures Renamed(r, d.world, w')
  {
    hide Start;
    var i :| 0 <= i < |cs| && cs[i] == CodePatch(r.address, r.offset, r.value);
    var l, code := CodeAt(r.address), Code(d.world, r.address);
    assert InBounds(cs[i], Seen(cs, i, d)) && Seen(cs, i, d) == code;
    assert WritesTo(cs[i], l) && At(w', l) == CellAfter(cs[i], d.world, code, l);
    var code' := Splice(code, r.offset, r.value);
    assert Code(w', r.address) == code';
  }

  // ---------- Isthmus ----------

  // On chain 252 both oracles are proxies for their own code.
  lemma IsthmusOutcome(spec: ChainSpec, timestamp: U64, bytecode: Bytes, d: DbState)
    requires Opens(spec.isthmus, timestamp) && spec.chainId == 252
    ensures var cs := PreExecutionChanges(spec, timestamp, bytecode);
            RunChanges(cs, d).outcome.Done? ==>
              AllProxied(Isthmus.MAINNET_ORACLES_ADDRESSES, Lost(cs, d), d.world, RunChanges(cs, d).db.world)
  {
    hide RunChanges, AllProxied, Lost, Opens, AtTransition, ToProxies;
    if RunChanges(PreExecutionChanges(spec, timestamp, bytecode), d).outcome.Done? {
      GateOpens(spec.isthmus, timestamp);
      AllProxiedInBlock(spec, timestamp, bytecode, d, Isthmus.MAINNET_ORACLES_ADDRESSES);
    }
  }

  // On every other chain no block touches an oracle, and a block in which only Isthmus fires
  // touches nothing, reads nothing and succeeds.
  lemma IsthmusElsewhere(spec: ChainSpec, timestamp: U64, bytecode: Bytes, d: DbState)
    requires spec.chainId != 252
    ensures var r := RunChanges(PreExecutionChanges(spec, timestamp, bytecode), d);
            && (forall a, l :: a in Isthmus.MAINNET_ORACLES_ADDRESSES && ContractCell(a, l) ==>
                  At(r.db.world, l) == At(d.world, l))
            && (!Opens(spec.canyon, timestamp) && !Opens(spec.granite, timestamp) && !Opens(spec.holocene, timestamp)
                ==> r == Run(d, Done))
  {
    hide AllProxied, Opens, AtTransition, ContractCell, At, MayChange, CONTRACTS, MAINNET_TOKENS_ADDRESSES,
         DEVNET_TOKENS_ADDRESSES, TESTNET_TOKENS_ADDRESSES, Isthmus.MAINNET_ORACLES_ADDRESSES, Granite.GraniteTable,
         Holocene.HoloceneTable, Apply;
    GateOpens(spec.canyon, timestamp);
    GateOpens(spec.granite, timestamp);
    GateOpens(spec.holocene, timestamp);
    ContractLists();
    forall a, l | a in Isthmus.MAINNET_ORACLES_ADDRESSES && ContractCell(a, l)
      ensures At(RunChanges(PreExecutionChanges(spec, timestamp, bytecode), d).db.world, l) == At(d.world, l)
    {
      ContractUntouched(spec, timestamp, a, l);
      OnlyTheseChange(spec, timestamp, bytecode, d, l);
    }
  }
}
