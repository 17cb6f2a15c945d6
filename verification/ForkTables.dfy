/** The forks' constant tables do not interfere: every item of Canyon, Granite, Holocene and
    Isthmus is independent of every other, on every chain. */
module ForkTables {
  import opened Primitives
  import opened ByteCodec
  import opened StateDb
  import opened Transitions
  import opened Simultaneity
  import opened LostLookups
  import opened ProxyMigration
  import opened ProxyLaws
  import opened HoloceneConstants
  import Canyon
  import Granite
  import Holocene
  import Isthmus

  const PROXY: Address := Granite.PROXY_ADDR

  // Every contract some fork turns into a proxy.
  const CONTRACTS: seq<Address> := [
    0xFc00000000000000000000000000000000000001,
    0xFc00000000000000000000000000000000000008,
    0xfc00000000000000000000000000000000000002,
    0xfc00000000000000000000000000000000000003,
    0xfc00000000000000000000000000000000000004,
    0xfc00000000000000000000000000000000000005,
    0xfc00000000000000000000000000000000000006,
    0xfc00000000000000000000000000000000000007,
    0xacA9A33698cF96413A40A4eB9E87906ff40fC6CA,
    0x6c9f4E6089c8890AfEE2bcBA364C2712f88fA818,
    0xF1e2b576aF4C6a7eE966b14C810b772391e92153,
    0xc38173D34afaEA88Bc482813B3CD267bc8A1EA83,
    0xf750636e1df115e3b334ed06e5b45c375107fc60,
    0x1B680F4385f24420D264D78cab7C58365ED3F1FF
  ]

  // ---------- Facts about the constants ----------

  lemma ContractsListed()
    ensures CONTRACTS == [Granite.FRAX_ADDR, Granite.SFRAX_ADDR] + MAINNET_TOKENS_ADDRESSES
                         + Isthmus.MAINNET_ORACLES_ADDRESSES
    ensures TESTNET_TOKENS_ADDRESSES == MAINNET_TOKENS_ADDRESSES[..5]
    ensures DEVNET_TOKENS_ADDRESSES == MAINNET_TOKENS_ADDRESSES[..6]
  {
  }

  lemma ContractsDiffer(i: nat, j: nat)
    requires i < j < |CONTRACTS|
    ensures CONTRACTS[i] % TWO_136 != CONTRACTS[j] % TWO_136
  {
    assert i == 0 || i == 1 || i == 2 || i == 3 || i == 4 || i == 5 || i == 6 || i == 7 || i == 8 || i == 9
        || i == 10 || i == 11 || i == 12;
    assert j == 1 || j == 2 || j == 3 || j == 4 || j == 5 || j == 6 || j == 7 || j == 8 || j == 9
        || j == 10 || j == 11 || j == 12 || j == 13;
  }

  predicate Derived(a: Address) {
    a / TWO_136 == 0xfcc0d3
  }

  lemma ContractsNotDerived()
    ensures forall i :: 0 <= i < |CONTRACTS| ==> !Derived(CONTRACTS[i]) && CONTRACTS[i] != PROXY
    ensures !Derived(PROXY)
  {
    forall i | 0 <= i < |CONTRACTS| ensures !Derived(CONTRACTS[i]) && CONTRACTS[i] != PROXY {
      assert i == 0 || i == 1 || i == 2 || i == 3 || i == 4 || i == 5 || i == 6 || i == 7 || i == 8 || i == 9
          || i == 10 || i == 11 || i == 12 || i == 13;
    }
  }

  lemma PatchesNotDerived(i: nat)
    requires i < |MAINNET_NAMING_BYTECODE_CHANGES|
    ensures var a := MAINNET_NAMING_BYTECODE_CHANGES[i].address;
            !Derived(a) && a != PROXY && a != Canyon.CREATE_2_DEPLOYER_ADDR
  {
    hide Naming, ToBigEndian;
    assert i == 0 || i == 1 || i == 2 || i == 3 || i == 4 || i == 5 || i == 6 || i == 7 || i == 8 || i == 9
          || i == 10 || i == 11 || i == 12 || i == 13 || i == 14;
  }

  lemma PatchesElsewhere(i: nat)
    requires i < |MAINNET_NAMING_BYTECODE_CHANGES|
    ensures var a := MAINNET_NAMING_BYTECODE_CHANGES[i].address;
            a !in CONTRACTS
  {
    hide Naming, ToBigEndian;
    assert i == 0 || i == 1 || i == 2 || i == 3 || i == 4 || i == 5 || i == 6 || i == 7 || i == 8 || i == 9
          || i == 10 || i == 11 || i == 12 || i == 13 || i == 14;
  }

  lemma PatchesDiffer(i: nat, j: nat)
    requires i < j < |MAINNET_NAMING_BYTECODE_CHANGES|
    ensures MAINNET_NAMING_BYTECODE_CHANGES[i].address != MAINNET_NAMING_BYTECODE_CHANGES[j].address
  {
    hide Naming, ToBigEndian;
    assert i == 0 || i == 1 || i == 2 || i == 3 || i == 4 || i == 5 || i == 6 || i == 7 || i == 8 || i == 9
          || i == 10 || i == 11 || i == 12 || i == 13;
    assert j == 1 || j == 2 || j == 3 || j == 4 || j == 5 || j == 6 || j == 7 || j == 8 || j == 9 || j == 10
          || j == 11 || j == 12 || j == 13 || j == 14;
  }

  lemma GroupsElsewhere(i: nat)
    requires i < |MAINNET_NAMING_GROUPS|
    ensures MAINNET_NAMING_GROUPS[i].address !in CONTRACTS
  {
    assert i == 0 || i == 1 || i == 2 || i == 3 || i == 4 || i == 5 || i == 6 || i == 7 || i == 8 || i == 9
          || i == 10 || i == 11 || i == 12 || i == 13 || i == 14 || i == 15 || i == 16 || i == 17 || i == 18 || i == 19
          || i == 20 || i == 21;
  }

  lemma GroupSlots(i: nat)
    requires i < |MAINNET_NAMING_GROUPS|
    ensures var slots := MAINNET_NAMING_GROUPS[i].slots;
            slots == SHORT_GAUGE_SLOTS || slots == GAUGE_SLOTS || slots == LATE_GAUGE_SLOTS || slots == PAIR_SLOTS
  {
    hide SHORT_GAUGE_SLOTS, GAUGE_SLOTS, LATE_GAUGE_SLOTS, PAIR_SLOTS;
    assert i == 0 || i == 1 || i == 2 || i == 3 || i == 4 || i == 5 || i == 6 || i == 7 || i == 8 || i == 9
          || i == 10 || i == 11 || i == 12 || i == 13 || i == 14 || i == 15 || i == 16 || i == 17 || i == 18 || i == 19
          || i == 20 || i == 21;
  }

  lemma SlotListsDistinct()
    ensures DistinctSlots(SHORT_GAUGE_SLOTS) && DistinctSlots(GAUGE_SLOTS)
    ensures DistinctSlots(LATE_GAUGE_SLOTS) && DistinctSlots(PAIR_SLOTS)
  {
  }

  lemma GroupAddressesDiffer(i: nat, j: nat)
    requires i < j < |MAINNET_NAMING_GROUPS|
    ensures MAINNET_NAMING_GROUPS[i].address != MAINNET_NAMING_GROUPS[j].address
  {
    assert i == 0 || i == 1 || i == 2 || i == 3 || i == 4 || i == 5 || i == 6 || i == 7 || i == 8 || i == 9
        || i == 10 || i == 11 || i == 12 || i == 13 || i == 14 || i == 15 || i == 16 || i == 17 || i == 18 || i == 19
        || i == 20;
    assert j == 1 || j == 2 || j == 3 || j == 4 || j == 5 || j == 6 || j == 7 || j == 8 || j == 9 || j == 10
        || j == 11 || j == 12 || j == 13 || j == 14 || j == 15 || j == 16 || j == 17 || j == 18 || j == 19 || j == 20
        || j == 21;
  }

  lemma GroupsDiffer()
    ensures DistinctGroups(MAINNET_NAMING_GROUPS)
  {
    hide MAINNET_NAMING_GROUPS;
    forall i, j | 0 <= i < j < |MAINNET_NAMING_GROUPS|
      ensures MAINNET_NAMING_GROUPS[i].address != MAINNET_NAMING_GROUPS[j].address
    {
      GroupAddressesDiffer(i, j);
    }
    SlotListsDistinct();
    forall i | 0 <= i < |MAINNET_NAMING_GROUPS| ensures DistinctSlots(MAINNET_NAMING_GROUPS[i].slots) {
      GroupSlots(i);
    }
  }

  lemma DeployElsewhere()
    ensures var a := Canyon.CREATE_2_DEPLOYER_ADDR; a !in CONTRACTS && !Derived(a) && a != PROXY
  {
  }

  lemma ImplementationIsDerived(a: Address)
    ensures Derived(ImplementationAddress(a))
    ensures Granite.FRAX_IMPL_ADDR == ImplementationAddress(Granite.FRAX_ADDR)
    ensures Granite.SFRAX_IMPL_ADDR == ImplementationAddress(Granite.SFRAX_ADDR)
  {
    ImplementationAddressArithmetic(a);
    ImplementationAddressArithmetic(Granite.FRAX_ADDR);
    ImplementationAddressArithmetic(Granite.SFRAX_ADDR);
  }

  // ---------- The storage records name every slot once ----------

  predicate DistinctSlots(slots: seq<Word>) {
    forall i, j :: 0 <= i < j < |slots| ==> slots[i] != slots[j]
  }

  predicate DistinctGroups(groups: seq<NamingGroup>) {
    && (forall i, j :: 0 <= i < j < |groups| ==> groups[i].address != groups[j].address)
    && (forall i :: 0 <= i < |groups| ==> DistinctSlots(groups[i].slots))
  }

  predicate DistinctRecords(changes: seq<StorageChange>) {
    forall i, j :: 0 <= i < j < |changes| ==>
      changes[i].address != changes[j].address || changes[i].storageSlot != changes[j].storageSlot
  }

  lemma {:induction false} RecordsOfGroups(groups: seq<NamingGroup>)
    requires WellFormed(groups)
    ensures forall r :: r in AllRecords(groups) ==> exists g :: g in groups && g.address == r.address
  {
    if groups != [] {
      var rest := groups[1..];
      RecordsOfGroups(rest);
      forall r | r in AllRecords(groups) ensures exists g :: g in groups && g.address == r.address {
        if r in AllRecords(rest) {
          var g' :| g' in rest && g'.address == r.address;
          assert g' in groups;
        } else {
          assert groups[0] in groups && r in Records(groups[0]);
        }
      }
    }
  }

  lemma {:induction false} DistinctGroupsGiveDistinctRecords(groups: seq<NamingGroup>)
    requires WellFormed(groups) && DistinctGroups(groups)
    ensures DistinctRecords(AllRecords(groups))
  {
    if groups != [] {
      var g, rest := groups[0], groups[1..];
      assert forall k :: 0 <= k < |rest| ==> rest[k] == groups[k + 1];
      DistinctGroupsGiveDistinctRecords(rest);
      RecordsOfGroups(rest);
      forall r | r in AllRecords(rest) ensures r.address != g.address {
        var g' :| g' in rest && g'.address == r.address;
        var k :| 0 <= k < |rest| && rest[k] == g';
        assert groups[0].address != groups[k + 1].address;
      }
      DistinctAppend(Records(g), AllRecords(rest));
    }
  }

  lemma DistinctAppend(first: seq<StorageChange>, rest: seq<StorageChange>)
    requires DistinctRecords(first) && DistinctRecords(rest)
    requires forall r, r' :: r in first && r' in rest ==> r.address != r'.address
    ensures DistinctRecords(first + rest)
  {
    var all, n := first + rest, |first|;
    forall i, j | 0 <= i < j < |all|
      ensures all[i].address != all[j].address || all[i].storageSlot != all[j].storageSlot
    {
      if i < n <= j {
        assert all[i] in first && all[j] in rest;
      }
    }
  }

  // How many records the groups hold.
  function RecordCount(groups: seq<NamingGroup>): nat {
    if groups == [] then 0 else |groups[0].slots| + RecordCount(groups[1..])
  }

  lemma {:induction false} CountOfRecords(groups: seq<NamingGroup>)
    requires WellFormed(groups)
    ensures |AllRecords(groups)| == RecordCount(groups)
  {
    if groups != [] {
      CountOfRecords(groups[1..]);
    }
  }

  // The number of slots of each group: gauges, then pairs.
  function GroupSize(i: nat): nat {
    if i < 4 then 3 else if i < 8 then 2 else if i < 10 then 3 else if i < 11 then 2 else if i < 15 then 3 else 6
  }

  lemma GroupSizes(i: nat)
    requires i < 22
    ensures |MAINNET_NAMING_GROUPS| == 22 && |MAINNET_NAMING_GROUPS[i].slots| == GroupSize(i)
  {
    assert i == 0 || i == 1 || i == 2 || i == 3 || i == 4 || i == 5 || i == 6 || i == 7 || i == 8 || i == 9
        || i == 10 || i == 11 || i == 12 || i == 13 || i == 14 || i == 15 || i == 16 || i == 17 || i == 18 || i == 19
        || i == 20 || i == 21;
  }

  lemma {:induction false} EqualSizes(groups: seq<NamingGroup>, lo: nat, hi: nat, size: nat)
    requires lo <= hi <= |groups| && forall i :: lo <= i < hi ==> |groups[i].slots| == size
    ensures RecordCount(groups[lo..]) == (hi - lo) * size + RecordCount(groups[hi..])
    decreases hi - lo
  {
    if lo < hi {
      assert groups[lo..][1..] == groups[lo + 1..];
      EqualSizes(groups, lo + 1, hi, size);
      assert (hi - lo) * size == size + (hi - (lo + 1)) * size;
    }
  }

  lemma CountBySizes(groups: seq<NamingGroup>)
    requires |groups| == 22 && forall i :: 0 <= i < 22 ==> |groups[i].slots| == GroupSize(i)
    ensures RecordCount(groups) == 82
  {
    hide RecordCount;
    EqualSizes(groups, 0, 4, 3);
    EqualSizes(groups, 4, 8, 2);
    EqualSizes(groups, 8, 10, 3);
    EqualSizes(groups, 10, 11, 2);
    EqualSizes(groups, 11, 15, 3);
    EqualSizes(groups, 15, 22, 6);
    assert groups[0..] == groups && groups[22..] == [];
    NothingToCount();
  }

  lemma NothingToCount()
    ensures RecordCount([]) == 0
  {
  }

  lemma MainnetCount()
    ensures WellFormed(MAINNET_NAMING_GROUPS) && |MAINNET_NAMING_STORAGE_CHANGES| == 82
  {
    hide AllRecords, RecordCount;
    GroupSizes(0);
    forall i | 0 <= i < 22 ensures |MAINNET_NAMING_GROUPS[i].slots| == GroupSize(i) {
      GroupSizes(i);
    }
    CountBySizes(MAINNET_NAMING_GROUPS);
    CountOfRecords(MAINNET_NAMING_GROUPS);
  }

  lemma MainnetRecords()
    ensures |MAINNET_NAMING_STORAGE_CHANGES| == 82
    ensures DistinctRecords(MAINNET_NAMING_STORAGE_CHANGES)
    ensures forall r :: r in MAINNET_NAMING_STORAGE_CHANGES ==> r.address !in CONTRACTS
  {
    hide AllRecords, CONTRACTS, DistinctGroups, DistinctRecords;
    MainnetCount();
    GroupsDiffer();
    hide MAINNET_NAMING_GROUPS;
    RecordsOfGroups(MAINNET_NAMING_GROUPS);
    DistinctGroupsGiveDistinctRecords(MAINNET_NAMING_GROUPS);
    forall r | r in MAINNET_NAMING_STORAGE_CHANGES ensures r.address !in CONTRACTS {
      var g :| g in MAINNET_NAMING_GROUPS && g.address == r.address;
      var i :| 0 <= i < |MAINNET_NAMING_GROUPS| && MAINNET_NAMING_GROUPS[i] == g;
      GroupsElsewhere(i);
    }
  }

  // ---------- All items of all forks ----------

  predicate Listed(c: Change) {
    match c
    case ProxyUpgrade(contract, implementation, proxy, _, _, _, extra) =>
      && contract in CONTRACTS && implementation == ImplementationAddress(contract) && proxy == PROXY
      && PROXY_ADMIN_SLOT !in extra && PROXY_IMPLEMENTATION_SLOT !in extra
    case SlotWrite(a, _, _) => a !in CONTRACTS
    case ForceDeploy(a, _, _) => a !in CONTRACTS && !Derived(a) && a != PROXY
    case CodePatch(a, _, _) => a !in CONTRACTS && !Derived(a) && a != PROXY
  }

  // The cell that sets an item apart from all others.
  function Identity(c: Change): Location {
    if c.SlotWrite? then SlotAt(c.address, c.slot) else CodeAt(Target(c))
  }

  predicate Tidy(cs: seq<Change>) {
    && (forall c :: c in cs ==> Listed(c))
    && (forall i, j :: 0 <= i < j < |cs| ==> Identity(cs[i]) != Identity(cs[j]))
  }

  predicate Apart(cs: seq<Change>, cs': seq<Change>) {
    forall c, c' :: c in cs && c' in cs' ==> Identity(c) != Identity(c')
  }

  lemma TidyAppend(cs: seq<Change>, cs': seq<Change>)
    requires Tidy(cs) && Tidy(cs') && Apart(cs, cs')
    ensures Tidy(cs + cs')
  {
    hide Listed, Identity;
    var all, n := cs + cs', |cs|;
    forall i, j | 0 <= i < j < |all| ensures Identity(all[i]) != Identity(all[j]) {
      if i < n <= j {
        assert all[i] in cs && all[j] in cs';
      }
    }
  }

  lemma DifferentListedItems(c: Change, c': Change)
    requires Listed(c) && Listed(c') && Identity(c) != Identity(c')
    ensures Independent(c, c')
  {
    hide CONTRACTS, PROXY, ImplementationAddress, Derived;
    ContractsNotDerived();
    ImplementationIsDerived(Target(c));
    ImplementationIsDerived(Target(c'));
    if c.ProxyUpgrade? && c'.ProxyUpgrade? {
      DifferentContracts(c.contract, c'.contract);
    }
  }

  lemma ListedIsWellPlaced(c: Change)
    requires Listed(c) && c.ProxyUpgrade?
    ensures WellPlaced(c)
  {
    hide CONTRACTS, PROXY, ImplementationAddress, Derived;
    ContractsNotDerived();
    ImplementationIsDerived(c.contract);
  }

  lemma UpgradesUseProxy(cs: seq<Change>)
    requires Tidy(cs)
    ensures forall c :: c in cs && c.ProxyUpgrade? ==> c.proxy == PROXY && c.contract != PROXY
    ensures ProxiesElsewhere(cs)
  {
    hide CONTRACTS, PROXY, ImplementationAddress, Derived;
    ContractsNotDerived();
  }

  // A proxy's code is copied, not looked up: no migration loses it.
  lemma ProxyNeverLost(cs: seq<Change>, d: DbState)
    requires Tidy(cs)
    ensures PROXY !in Lost(cs, d)
  {
    hide CONTRACTS, PROXY, ImplementationAddress, Derived, Start;
    ContractsNotDerived();
    forall i | 0 <= i < |cs| && LookupLost(cs, i, d) ensures Target(cs[i]) != PROXY {
      assert cs[i] in cs && Listed(cs[i]);
    }
  }

  lemma DifferentContracts(a: Address, b: Address)
    requires a in CONTRACTS && b in CONTRACTS && a != b
    ensures ImplementationAddress(a) != ImplementationAddress(b)
  {
    hide CONTRACTS;
    var i :| 0 <= i < |CONTRACTS| && CONTRACTS[i] == a;
    var j :| 0 <= j < |CONTRACTS| && CONTRACTS[j] == b;
    if i < j {
      ContractsDiffer(i, j);
    } else {
      ContractsDiffer(j, i);
    }
    ImplementationAddressArithmetic(a);
    ImplementationAddressArithmetic(b);
  }

  lemma TidyIsIndependent(cs: seq<Change>)
    requires Tidy(cs)
    ensures AllIndependent(cs)
  {
    hide Listed, Identity, Independent;
    forall i, j | 0 <= i < j < |cs| ensures Independent(cs[i], cs[j]) {
      assert cs[i] in cs && cs[j] in cs;
      DifferentListedItems(cs[i], cs[j]);
    }
  }

  // The items of the four forks for a chain, in the order of the forks.
  function CanyonTable(bytecode: Bytes): seq<Change> {
    [ForceDeploy(Canyon.CREATE_2_DEPLOYER_ADDR, Canyon.CREATE_2_DEPLOYER_CODEHASH, bytecode)]
  }

  function AllTables(chainId: U64, bytecode: Bytes): seq<Change> {
    CanyonTable(bytecode) + Granite.GraniteTable(chainId)
    + Holocene.HoloceneTable(chainId) + Isthmus.IsthmusTable(chainId)
  }

  lemma ContractsAreDistinct(i: nat, j: nat)
    requires i < |CONTRACTS| && j < |CONTRACTS| && i != j
    ensures CONTRACTS[i] != CONTRACTS[j]
  {
    if i < j {
      ContractsDiffer(i, j);
    } else {
      ContractsDiffer(j, i);
    }
  }

  // An upgrade of one of the contracts numbered lo to hi.
  ghost predicate ContractItem(c: Change, lo: nat, hi: nat) {
    hi <= |CONTRACTS| && exists i :: lo <= i < hi && Identity(c) == CodeAt(CONTRACTS[i])
  }

  // A rewrite of a name.
  predicate NamingItem(c: Change) {
    c.SlotWrite? || (c.CodePatch? && c.address !in CONTRACTS && c.address != Canyon.CREATE_2_DEPLOYER_ADDR)
  }

  predicate CanyonItem(c: Change) {
    c.ForceDeploy? && c.address == Canyon.CREATE_2_DEPLOYER_ADDR
  }

  lemma ContractItemsApart(c: Change, c': Change, lo: nat, hi: nat, lo': nat, hi': nat)
    requires ContractItem(c, lo, hi) && ContractItem(c', lo', hi') && (hi <= lo' || hi' <= lo)
    ensures Identity(c) != Identity(c')
  {
    hide CONTRACTS;
    var i :| lo <= i < hi && Identity(c) == CodeAt(CONTRACTS[i]);
    var j :| lo' <= j < hi' && Identity(c') == CodeAt(CONTRACTS[j]);
    ContractsAreDistinct(i, j);
  }

  lemma OthersApart(c: Change, c': Change, lo: nat, hi: nat)
    requires NamingItem(c) || CanyonItem(c)
    requires ContractItem(c', lo, hi) || (CanyonItem(c) != CanyonItem(c') && (NamingItem(c') || CanyonItem(c')))
    ensures Identity(c) != Identity(c')
  {
    hide CONTRACTS;
    DeployElsewhere();
    if ContractItem(c', lo, hi) {
      var i :| lo <= i < hi && Identity(c') == CodeAt(CONTRACTS[i]);
      assert CONTRACTS[i] in CONTRACTS;
    }
  }

  lemma ContractCount()
    ensures |CONTRACTS| == 14
  {
  }

  // The proxy loop's conditions hold for any stretch of the listed contracts.
  lemma ContractsSeparate(lo: nat, hi: nat)
    requires lo <= hi <= |CONTRACTS|
    ensures Separate(CONTRACTS[lo..hi], PROXY)
  {
    hide CONTRACTS, ImplementationAddress, AddressBytes, Derived;
    var cs := CONTRACTS[lo..hi];
    ContractsNotDerived();
    forall i | 0 <= i < |cs| ensures Derived(ImplementationAddress(cs[i])) && !Derived(cs[i]) && cs[i] != PROXY {
      ImplementationIsDerived(cs[i]);
      assert cs[i] == CONTRACTS[lo + i];
    }
    forall i, j | 0 <= i < j < |cs| ensures AddressBytes(cs[i])[3..] != AddressBytes(cs[j])[3..] {
      ContractsAreDistinct(lo + i, lo + j);
      DifferentContracts(cs[i], cs[j]);
      ImplementationAddressLaws(cs[i], cs[j]);
    }
  }

  lemma TidyUpgrades(lo: nat, hi: nat)
    requires lo <= hi <= |CONTRACTS|
    ensures Tidy(ToProxies(CONTRACTS[lo..hi], PROXY, PROXY))
    ensures forall c :: c in ToProxies(CONTRACTS[lo..hi], PROXY, PROXY) ==> ContractItem(c, lo, hi)
  {
    hide CONTRACTS, PROXY, ImplementationAddress;
    var cs := ToProxies(CONTRACTS[lo..hi], PROXY, PROXY);
    forall i, j | 0 <= i < j < |cs| ensures Identity(cs[i]) != Identity(cs[j]) {
      ContractsAreDistinct(lo + i, lo + j);
    }
    forall c | c in cs ensures Listed(c) && ContractItem(c, lo, hi)
    {
      var k :| 0 <= k < |cs| && cs[k] == c;
      assert Identity(c) == CodeAt(CONTRACTS[lo + k]);
    }
  }

  lemma TidyGranite(chainId: U64)
    ensures Tidy(Granite.GraniteTable(chainId))
    ensures forall c :: c in Granite.GraniteTable(chainId) ==> ContractItem(c, 0, 2)
  {
    hide ImplementationAddress;
    ImplementationIsDerived(0);
    assert CONTRACTS[0] == Granite.FRAX_ADDR && CONTRACTS[1] == Granite.SFRAX_ADDR;
  }

  lemma TidyPatches()
    ensures Tidy(Holocene.Patches(MAINNET_NAMING_BYTECODE_CHANGES))
    ensures forall c :: c in Holocene.Patches(MAINNET_NAMING_BYTECODE_CHANGES) ==> NamingItem(c)
  {
    hide CONTRACTS, PROXY, MAINNET_NAMING_BYTECODE_CHANGES, Derived;
    var rows := MAINNET_NAMING_BYTECODE_CHANGES;
    var cs := Holocene.Patches(rows);
    forall i, j | 0 <= i < j < |cs| ensures Identity(cs[i]) != Identity(cs[j]) {
      PatchesDiffer(i, j);
    }
    forall c | c in cs ensures Listed(c) && NamingItem(c)
    {
      var k :| 0 <= k < |cs| && cs[k] == c;
      PatchesElsewhere(k);
      PatchesNotDerived(k);
    }
  }

  lemma TidyWrites()
    ensures Tidy(Holocene.Writes(MAINNET_NAMING_STORAGE_CHANGES))
    ensures forall c :: c in Holocene.Writes(MAINNET_NAMING_STORAGE_CHANGES) ==> c.SlotWrite?
  {
    hide CONTRACTS, PROXY, MAINNET_NAMING_STORAGE_CHANGES;
    MainnetRecords();
    var rows := MAINNET_NAMING_STORAGE_CHANGES;
    var cs := Holocene.Writes(rows);
    forall c | c in cs ensures Listed(c) && c.SlotWrite? {
      var k :| 0 <= k < |cs| && cs[k] == c;
      assert rows[k] in rows;
    }
  }

  lemma TokensAmongContracts(chainId: U64) returns (n: nat)
    ensures 2 <= n <= 12 && Holocene.TokenAddresses(chainId) == CONTRACTS[2..n]
  {
    ContractsListed();
    n := if chainId == 2521 then 8 else if chainId == 2522 then 7 else 12;
  }

  ghost predicate HoloceneItem(c: Change) {
    NamingItem(c) || ContractItem(c, 2, 12)
  }

  lemma TidyNaming(chainId: U64)
    ensures Tidy(NamingTable(chainId)) && forall c :: c in NamingTable(chainId) ==> NamingItem(c)
  {
    hide CONTRACTS, PROXY, Listed, MAINNET_NAMING_BYTECODE_CHANGES, MAINNET_NAMING_STORAGE_CHANGES;
    TidyPatches();
    TidyWrites();
    TidyAppend(Holocene.Patches(Holocene.NamingPatches(chainId)), Holocene.Writes(Holocene.NamingWrites(chainId)));
  }

  function NamingTable(chainId: U64): seq<Change> {
    Holocene.Patches(Holocene.NamingPatches(chainId)) + Holocene.Writes(Holocene.NamingWrites(chainId))
  }

  lemma TidyHolocene(chainId: U64)
    ensures Tidy(Holocene.HoloceneTable(chainId))
    ensures forall c :: c in Holocene.HoloceneTable(chainId) ==> HoloceneItem(c)
  {
    hide CONTRACTS, PROXY, Listed, Tidy, Identity, ContractItem, NamingItem, NamingTable,
         Holocene.HoloceneTable, ToProxies;
    var n := TokensAmongContracts(chainId);
    ContractCount();
    TableParts(chainId, n);
    TidyUpgrades(2, n);
    TidyNaming(chainId);
    var upgrades := ToProxies(CONTRACTS[2..n], PROXY, PROXY);
    forall c | c in upgrades ensures ContractItem(c, 2, 12) {
      WiderRange(c, 2, n, 12);
    }
    forall c, c' | c in upgrades && c' in NamingTable(chainId) ensures Identity(c) != Identity(c') {
      OthersApart(c', c, 2, 12);
    }
    TidyAppend(upgrades, NamingTable(chainId));
  }

  lemma WiderRange(c: Change, lo: nat, hi: nat, hi': nat)
    requires ContractItem(c, lo, hi) && hi <= hi' <= |CONTRACTS|
    ensures ContractItem(c, lo, hi')
  {
  }

  lemma TableParts(chainId: U64, n: nat)
    requires 2 <= n <= |CONTRACTS| && Holocene.TokenAddresses(chainId) == CONTRACTS[2..n]
    ensures Holocene.HoloceneTable(chainId) == ToProxies(CONTRACTS[2..n], PROXY, PROXY) + NamingTable(chainId)
  {
    hide CONTRACTS, Holocene.Patches, Holocene.Writes, Holocene.TokenAddresses;
  }

  lemma TidyIsthmus(chainId: U64)
    ensures Tidy(Isthmus.IsthmusTable(chainId))
    ensures forall c :: c in Isthmus.IsthmusTable(chainId) ==> ContractItem(c, 12, 14)
  {
    hide Tidy, Identity, ContractItem;
    ContractsListed();
    assert Isthmus.MAINNET_ORACLES_ADDRESSES == CONTRACTS[12..14];
    TidyUpgrades(12, 14);
    EmptyIsTidy();
  }

  lemma EmptyIsTidy()
    ensures Tidy([])
  {
  }

  lemma TidyCanyon(bytecode: Bytes)
    ensures Tidy(CanyonTable(bytecode))
    ensures forall c :: c in CanyonTable(bytecode) ==> CanyonItem(c)
  {
    DeployElsewhere();
  }

  // Only Canyon deploys code.
  lemma NoOtherDeploys(chainId: U64)
    ensures forall c :: c in Granite.GraniteTable(chainId) ==> !c.ForceDeploy?
    ensures forall c :: c in Holocene.HoloceneTable(chainId) ==> !c.ForceDeploy?
    ensures forall c :: c in Isthmus.IsthmusTable(chainId) ==> !c.ForceDeploy?
  {
    hide ToProxy, ImplementationAddress, Holocene.TokenAddresses, Holocene.NamingPatches, Holocene.NamingWrites;
    assert forall a, b, c :: !ToProxy(a, b, c).ForceDeploy? by {
      OnlyUpgrades();
    }
  }

  lemma OnlyUpgrades()
    ensures forall a, b, c :: ToProxy(a, b, c).ProxyUpgrade?
  {
  }

  // The tables of any choice of forks.
  function Chosen(take: bool, cs: seq<Change>): seq<Change> {
    if take then cs else []
  }

  function ChosenTables(chainId: U64, bytecode: Bytes, canyon: bool, granite: bool, holocene: bool, isthmus: bool)
    : seq<Change>
  {
    Chosen(canyon, CanyonTable(bytecode)) + Chosen(granite, Granite.GraniteTable(chainId))
    + Chosen(holocene, Holocene.HoloceneTable(chainId)) + Chosen(isthmus, Isthmus.IsthmusTable(chainId))
  }

  // Whatever forks are taken together, no two of their items interfere.
  lemma ForksAreIndependent(chainId: U64, bytecode: Bytes, canyon: bool, granite: bool, holocene: bool, isthmus: bool)
    ensures Tidy(ChosenTables(chainId, bytecode, canyon, granite, holocene, isthmus))
    ensures AllIndependent(ChosenTables(chainId, bytecode, canyon, granite, holocene, isthmus))
  {
    hide CONTRACTS, Listed, Tidy, Identity, Granite.GraniteTable, Holocene.HoloceneTable, Isthmus.IsthmusTable;
    var c, g, h, i := Chosen(canyon, CanyonTable(bytecode)), Chosen(granite, Granite.GraniteTable(chainId)),
      Chosen(holocene, Holocene.HoloceneTable(chainId)), Chosen(isthmus, Isthmus.IsthmusTable(chainId));
    EmptyIsTidy();
    TidyCanyon(bytecode);
    TidyGranite(chainId);
    TidyHolocene(chainId);
    TidyIsthmus(chainId);
    ApartFromCanyon(chainId, bytecode);
    ApartAmongContracts(chainId);
    TidyAppend(c, g);
    TidyAppend(c + g, h);
    TidyAppend(c + g + h, i);
    TidyIsIndependent(c + g + h + i);
  }

  lemma ApartFromCanyon(chainId: U64, bytecode: Bytes)
    ensures Apart(CanyonTable(bytecode), Granite.GraniteTable(chainId))
    ensures Apart(CanyonTable(bytecode), Holocene.HoloceneTable(chainId))
    ensures Apart(CanyonTable(bytecode), Isthmus.IsthmusTable(chainId))
  {
    hide CONTRACTS, Tidy, Identity, ContractItem, CanyonTable,
         Granite.GraniteTable, Holocene.HoloceneTable, Isthmus.IsthmusTable;
    TidyCanyon(bytecode);
    TidyGranite(chainId);
    TidyHolocene(chainId);
    TidyIsthmus(chainId);
    forall c, c' | c in CanyonTable(bytecode) && c' in Granite.GraniteTable(chainId)
      ensures Identity(c) != Identity(c') { OthersApart(c, c', 0, 2); }
    forall c, c' | c in CanyonTable(bytecode) && c' in Holocene.HoloceneTable(chainId)
      ensures Identity(c) != Identity(c') { OthersApart(c, c', 2, 12); }
    forall c, c' | c in CanyonTable(bytecode) && c' in Isthmus.IsthmusTable(chainId)
      ensures Identity(c) != Identity(c') { OthersApart(c, c', 12, 14); }
  }

  lemma ApartAmongContracts(chainId: U64)
    ensures Apart(Granite.GraniteTable(chainId), Holocene.HoloceneTable(chainId))
    ensures Apart(Granite.GraniteTable(chainId), Isthmus.IsthmusTable(chainId))
    ensures Apart(Holocene.HoloceneTable(chainId), Isthmus.IsthmusTable(chainId))
  {
    hide CONTRACTS, Tidy, Identity, ContractItem, NamingItem,
         Granite.GraniteTable, Holocene.HoloceneTable, Isthmus.IsthmusTable;
    TidyGranite(chainId);
    TidyHolocene(chainId);
    TidyIsthmus(chainId);
    forall c, c' | c in Granite.GraniteTable(chainId) && c' in Holocene.HoloceneTable(chainId)
      ensures Identity(c) != Identity(c')
    {
      if NamingItem(c') { OthersApart(c', c, 0, 2); } else { ContractItemsApart(c, c', 0, 2, 2, 12); }
    }
    forall c, c' | c in Granite.GraniteTable(chainId) && c' in Isthmus.IsthmusTable(chainId)
      ensures Identity(c) != Identity(c') { ContractItemsApart(c, c', 0, 2, 12, 14); }
    forall c, c' | c in Holocene.HoloceneTable(chainId) && c' in Isthmus.IsthmusTable(chainId)
      ensures Identity(c) != Identity(c')
    {
      if NamingItem(c) { OthersApart(c, c', 12, 14); } else { ContractItemsApart(c, c', 2, 12, 12, 14); }
    }
  }

  // The order in which the forks' items are carried out makes no difference.
  lemma AnyForkOrder(chainId: U64, bytecode: Bytes, permuted: seq<Change>, w: World)
    requires multiset(permuted) == multiset(AllTables(chainId, bytecode))
    requires EachFits(AllTables(chainId, bytecode), w)
    ensures AllFit(permuted, w) && AllFit(AllTables(chainId, bytecode), w)
    ensures Same(PerformedAll(AllTables(chainId, bytecode), w), PerformedAll(permuted, w))
  {
    hide Granite.GraniteTable, Holocene.HoloceneTable, Isthmus.IsthmusTable,
         PerformedAll, AllFit, AllIndependent, Fits, Tidy;
    ForksAreIndependent(chainId, bytecode, true, true, true, true);
    assert AllTables(chainId, bytecode) == ChosenTables(chainId, bytecode, true, true, true, true);
    OrderDoesNotMatter(AllTables(chainId, bytecode), permuted, w);
  }

  // ---------- When the tables fit, and what Granite patches ----------

  // The least code lengths Granite's offsets need.
  function FraxLength(chainId: U64): nat {
    if chainId == 2521 then 1323 else if chainId == 2522 then 7350 else 7238
  }

  function SfraxLength(chainId: U64): nat {
    if chainId == 2521 then 1323 else if chainId == 2522 then 0 else 7238
  }

  lemma GraniteFitsIff(chainId: U64, w: World)
    ensures EachFits(Granite.GraniteTable(chainId), w) <==>
            |Code(w, Granite.FRAX_ADDR)| >= FraxLength(chainId) && |Code(w, Granite.SFRAX_ADDR)| >= SfraxLength(chainId)
  {
    var table := Granite.GraniteTable(chainId);
    assert Fits(table[0], w) <==> |Code(w, Granite.FRAX_ADDR)| >= FraxLength(chainId) by {
      LastOffset(table[0], |Code(w, Granite.FRAX_ADDR)|);
    }
    if |table| == 2 {
      assert Fits(table[1], w) <==> |Code(w, Granite.SFRAX_ADDR)| >= SfraxLength(chainId) by {
        LastOffset(table[1], |Code(w, Granite.SFRAX_ADDR)|);
      }
    }
  }

  // Offsets in increasing order fit when the last one does.
  lemma LastOffset(c: Change, length: nat)
    requires c.ProxyUpgrade? && c.offsets != []
    requires forall i, j :: 0 <= i < j < |c.offsets| ==> c.offsets[i] < c.offsets[j]
    ensures WindowsInRange(c.offsets, 20, length) <==> c.offsets[|c.offsets| - 1] + 20 <= length
  {
  }

  // A string as it stands in code: its length as a word, then its characters, the last one not zero,
  // filled up with zeros.
  ghost predicate IsString(v: Bytes) {
    && |v| == 64
    && var n := FromBigEndian(v[..32]);
       && 1 <= n <= 32 && v[32 + n - 1] != 0
       && forall k :: 32 + n <= k < 64 ==> v[k] == 0
  }

  lemma {:induction false} ZeroBytes(b: Bytes)
    requires FromBigEndian(b) == 0
    ensures forall k :: 0 <= k < |b| ==> b[k] == 0
  {
    if b != [] {
      ZeroBytes(b[..|b| - 1]);
      assert forall k :: 0 <= k < |b| - 1 ==> b[..|b| - 1][k] == b[k];
    }
  }

  lemma {:induction false} NotAllZero(b: Bytes)
    requires FromBigEndian(b) != 0
    ensures exists k :: 0 <= k < |b| && b[k] != 0
  {
    var init := b[..|b| - 1];
    if FromBigEndian(init) != 0 {
      NotAllZero(init);
      var k :| 0 <= k < |init| && init[k] != 0;
      assert b[k] != 0;
    } else {
      assert b[|b| - 1] != 0;
    }
  }

  // The low k bytes are zero and the next one is not, as the remainders say.
  lemma LowBytes(text: Word, k: nat)
    requires k < 32 && text % Pow256(k) == 0 && text % Pow256(k + 1) != 0
    ensures FromBigEndian(ToBigEndian(text, 32)[32 - k..]) == 0
    ensures FromBigEndian(ToBigEndian(text, 32)[31 - k..]) != 0
  {
    hide FromBigEndian, ToBigEndian, Pow256;
    EncodeSuffix(text, 32, k);
    EncodeSuffix(text, 32, k + 1);
    DecodeEncode(text, k);
    DecodeEncode(text, k + 1);
  }

  lemma TextBytes(characters: Bytes, n: nat)
    requires 1 <= n <= 32 == |characters|
    requires FromBigEndian(characters[n..]) == 0 && FromBigEndian(characters[n - 1..]) != 0
    ensures characters[n - 1] != 0 && forall k :: n <= k < 32 ==> characters[k] == 0
  {
    hide FromBigEndian;
    var rest, more := characters[n..], characters[n - 1..];
    ZeroBytes(rest);
    NotAllZero(more);
    assert forall k :: n <= k < 32 ==> rest[k - n] == characters[k];
    var k :| 0 <= k < |more| && more[k] != 0;
    assert more[k] == characters[n - 1 + k];
  }

  lemma LengthWord(length: Word)
    ensures FromBigEndian(ToBigEndian(length, 32)) == length
  {
    DecodeEncode(length, 32);
    Powers();
  }

  lemma NamingIsString(length: Word, text: Word)
    requires 1 <= length <= 32
    requires text % Pow256(32 - length) == 0 && text % Pow256(32 - length + 1) != 0
    ensures IsString(Naming(length, text))
  {
    LowBytes(text, 32 - length);
    LengthWord(length);
    hide FromBigEndian, ToBigEndian, Pow256;
    var v, characters := Naming(length, text), ToBigEndian(text, 32);
    TextBytes(characters, length);
    assert v[..32] == ToBigEndian(length, 32);
    assert forall k :: 0 <= k < 32 ==> v[32 + k] == characters[k];
  }

  lemma SmallPowers()
    ensures Pow256(15) == 0x1_000000_000000_000000_000000_000000
    ensures Pow256(16) == 0x1_000000_000000_000000_000000_000000_00
    ensures Pow256(19) == 0x1_000000_000000_000000_000000_000000_00000000
    ensures Pow256(20) == 0x1_000000_000000_000000_000000_000000_0000000000
    ensures Pow256(21) == 0x1_000000_000000_000000_000000_000000_000000000000
    ensures Pow256(22) == 0x1_000000_000000_000000_000000_000000_00000000000000
    ensures Pow256(23) == 0x1_000000_000000_000000_000000_000000_0000000000000000
  {
    Powers();
    assert Pow256(18) == 256 * Pow256(17) && Pow256(17) == 256 * Pow256(16) && Pow256(16) == 256 * Pow256(15);
    assert Pow256(19) == 256 * Pow256(18) && Pow256(21) == 256 * Pow256(20);
    assert Pow256(22) == 256 * Pow256(21) && Pow256(23) == 256 * Pow256(22);
  }

  // Every bytecode record holds a name.
  lemma NamingRecordsAreStrings()
    ensures forall r :: r in MAINNET_NAMING_BYTECODE_CHANGES ==> IsString(r.value)
  {
    hide Naming, IsString, Pow256;
    SmallPowers();
    var rows := MAINNET_NAMING_BYTECODE_CHANGES;
    NamingIsString(13, 0x6372765553442f66727855534400000000000000000000000000000000000000);
    NamingIsString(11, 0x6672785553442f73444149000000000000000000000000000000000000000000);
    NamingIsString(11, 0x6672785553442f55534465000000000000000000000000000000000000000000);
    NamingIsString(12, 0x6672785553442f73555344650000000000000000000000000000000000000000);
    NamingIsString(17, 0x6672785553444658423230323931323331000000000000000000000000000000);
    NamingIsString(17, 0x6672785553444658423230353531323331000000000000000000000000000000);
    NamingIsString(17, 0x6672785553444658423230323531323331000000000000000000000000000000);
    NamingIsString(11, 0x6672785553442f64555344000000000000000000000000000000000000000000);
    NamingIsString(17, 0x6672785553444658423230323631323331000000000000000000000000000000);
    NamingIsString(11, 0x6672785553442f55534454000000000000000000000000000000000000000000);
    NamingIsString(11, 0x6672785553442f55534443000000000000000000000000000000000000000000);
    NamingIsString(10, 0x6672785553442f44414900000000000000000000000000000000000000000000);
    NamingIsString(12, 0x6672785553442f50595553440000000000000000000000000000000000000000);
    NamingIsString(11, 0x564348462f667278555344000000000000000000000000000000000000000000);
    NamingIsString(11, 0x564555522f667278555344000000000000000000000000000000000000000000);
    forall r | r in rows ensures IsString(r.value) {
      var i :| 0 <= i < |rows| && rows[i] == r;
      assert i == 0 || i == 1 || i == 2 || i == 3 || i == 4 || i == 5 || i == 6 || i == 7 || i == 8 || i == 9
          || i == 10 || i == 11 || i == 12 || i == 13 || i == 14;
    }
  }

  // Holocene's records need 23825 bytes of code, its last two 18131.
  function NamingLength(i: nat): nat {
    if i < 13 then 23825 else 18131
  }

  lemma HoloceneFitsIff(chainId: U64, w: World)
    ensures EachFits(Holocene.HoloceneTable(chainId), w) <==>
            chainId == 2521 || chainId == 2522
            || forall i :: 0 <= i < 15 ==> |Code(w, MAINNET_NAMING_BYTECODE_CHANGES[i].address)| >= NamingLength(i)
  {
    RecordLengths();
    hide MAINNET_NAMING_BYTECODE_CHANGES, MAINNET_NAMING_STORAGE_CHANGES, Code, Holocene.TokenAddresses, Fits,
         NamingLength;
    var upgrades := Holocene.TokenUpgrades(Holocene.TokenAddresses(chainId));
    var patches, writes := Holocene.Patches(Holocene.NamingPatches(chainId)),
                           Holocene.Writes(Holocene.NamingWrites(chainId));
    EachFitsConcat(upgrades + patches, writes, w);
    EachFitsConcat(upgrades, patches, w);
    NothingPatchedFits(Holocene.TokenAddresses(chainId), PROXY, PROXY, w);
    WritesFit(Holocene.NamingWrites(chainId), w);
    if chainId != 2521 && chainId != 2522 {
      PatchesFitIff(w);
    }
  }

  lemma WritesFit(changes: seq<StorageChange>, w: World)
    ensures EachFits(Holocene.Writes(changes), w)
  {
  }

  lemma PatchesFitIff(w: World)
    ensures |MAINNET_NAMING_BYTECODE_CHANGES| == 15
    ensures EachFits(Holocene.Patches(MAINNET_NAMING_BYTECODE_CHANGES), w) <==>
            forall i :: 0 <= i < 15 ==> |Code(w, MAINNET_NAMING_BYTECODE_CHANGES[i].address)| >= NamingLength(i)
  {
    RecordLengths();
    hide MAINNET_NAMING_BYTECODE_CHANGES, Code, NamingLength;
    var cs := Holocene.Patches(MAINNET_NAMING_BYTECODE_CHANGES);
    forall i | 0 <= i < 15
      ensures Fits(cs[i], w) <==> |Code(w, MAINNET_NAMING_BYTECODE_CHANGES[i].address)| >= NamingLength(i)
    {
    }
  }

  lemma RecordLengths()
    ensures |MAINNET_NAMING_BYTECODE_CHANGES| == 15
    ensures forall i :: 0 <= i < 15 ==>
              MAINNET_NAMING_BYTECODE_CHANGES[i].offset + |MAINNET_NAMING_BYTECODE_CHANGES[i].value| == NamingLength(i)
    ensures forall i :: 0 <= i < 15 ==> |MAINNET_NAMING_BYTECODE_CHANGES[i].value| == 64
  {
    hide ToBigEndian;
    forall i | 0 <= i < 15
      ensures |MAINNET_NAMING_BYTECODE_CHANGES[i].value| == 64
      ensures MAINNET_NAMING_BYTECODE_CHANGES[i].offset + |MAINNET_NAMING_BYTECODE_CHANGES[i].value| == NamingLength(i)
    {
      assert i == 0 || i == 1 || i == 2 || i == 3 || i == 4 || i == 5 || i == 6 || i == 7 || i == 8 || i == 9
          || i == 10 || i == 11 || i == 12 || i == 13 || i == 14;
    }
  }

  // The token's address in every window of the code, and the code's own bytes everywhere else.
  ghost predicate Carries(windows: seq<nat>, token: Address, code: Bytes, logic: Bytes) {
    && |logic| == |code| && WindowsInRange(windows, 20, |code|)
    && (forall k :: 0 <= k < |windows| ==> logic[windows[k]..windows[k] + 20] == AddressBytes(token))
    && (forall k :: 0 <= k < |logic| && Uncovered(windows, 20, k) ==> logic[k] == code[k])
  }

  ghost predicate CarriesToken(c: Change, code: Bytes, logic: Bytes)
    requires c.ProxyUpgrade?
  {
    Carries(c.offsets, c.token, code, logic)
  }

  lemma SplicedCarriesToken(c: Change, code: Bytes)
    requires c.ProxyUpgrade? && InBounds(c, code) && WindowsDisjoint(c.offsets, 20)
    ensures CarriesToken(c, code, SpliceAll(code, c.offsets, AddressBytes(c.token)))
  {
    hide AddressBytes, SpliceAll;
    SpliceAllIsOverlay(code, c.offsets, AddressBytes(c.token));
  }

  // Granite's moved code is the original with the L1 token's address in every window, and only
  // there.
  lemma GraniteLogicCarriesToken(chainId: U64, i: nat, w: World)
    requires i < |Granite.GraniteTable(chainId)| && Fits(Granite.GraniteTable(chainId)[i], w)
    ensures var c := Granite.GraniteTable(chainId)[i]; CarriesToken(c, Code(w, c.contract), PatchedLogic(c, w))
  {
    hide AddressBytes, SpliceAll, CarriesToken;
    var c := Granite.GraniteTable(chainId)[i];
    assert WindowsDisjoint(c.offsets, 20);
    SplicedCarriesToken(c, Code(w, c.contract));
  }
}
