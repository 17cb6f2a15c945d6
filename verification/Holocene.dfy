/** The Holocene transition: the remaining frax tokens become upgradable proxies, and on mainnet
    names in bytecode and storage are rewritten. */
module Holocene {
  import opened Primitives
  import opened ByteCodec
  import opened StateDb
  import opened Utils
  import opened Transitions
  import opened Hardforks
  import opened ProxyMigration
  import opened HoloceneConstants

  function TokenAddresses(chainId: U64): seq<Address> {
    if chainId == 2521 then DEVNET_TOKENS_ADDRESSES
    else if chainId == 2522 then TESTNET_TOKENS_ADDRESSES
    else MAINNET_TOKENS_ADDRESSES
  }

  function NamingPatches(chainId: U64): seq<ByteCodeChange> {
    if chainId == 2521 || chainId == 2522 then [] else MAINNET_NAMING_BYTECODE_CHANGES
  }

  function NamingWrites(chainId: U64): seq<StorageChange> {
    if chainId == 2521 || chainId == 2522 then [] else MAINNET_NAMING_STORAGE_CHANGES
  }

  function TokenUpgrades(contracts: seq<Address>): seq<Change> {
    ToProxies(contracts, PROXY_ADDR, PROXY_ADMIN_ADDR)
  }

  function Patches(changes: seq<ByteCodeChange>): (cs: seq<Change>)
    ensures |cs| == |changes|
    ensures forall i :: 0 <= i < |cs| ==> cs[i] == CodePatch(changes[i].address, changes[i].offset, changes[i].value)
  {
    seq(|changes|, i requires 0 <= i < |changes| =>
        CodePatch(changes[i].address, changes[i].offset, changes[i].value))
  }

  function Writes(changes: seq<StorageChange>): (cs: seq<Change>)
    ensures |cs| == |changes|
    ensures forall i :: 0 <= i < |cs| ==>
              cs[i] == SlotWrite(changes[i].address, changes[i].storageSlot, changes[i].value)
  {
    seq(|changes|, i requires 0 <= i < |changes| =>
        SlotWrite(changes[i].address, changes[i].storageSlot, changes[i].value))
  }

  function HoloceneTable(chainId: U64): seq<Change> {
    TokenUpgrades(TokenAddresses(chainId)) + Patches(NamingPatches(chainId)) + Writes(NamingWrites(chainId))
  }

  function HoloceneChanges(spec: ChainSpec, timestamp: U64): seq<Change> {
    if AtTransition(spec.holocene, timestamp) then HoloceneTable(spec.chainId) else []
  }

  method UpgradeToken(addr: Address, db: Database) returns (outcome: Outcome)
    modifies db`accounts, db`storage, db`readCount, db`loaded
    ensures Run(db.State(), outcome) == Apply(ToProxy(addr, PROXY_ADDR, PROXY_ADMIN_ADDR), old(db.State()))
    ensures old(db.loaded) <= db.loaded
  {
    hide Committed, SpliceAll, Splice, AddressBytes, AddressWord, AddressFromBytes;
    ghost var d := db.State();
    ghost var change := ToProxy(addr, PROXY_ADDR, PROXY_ADMIN_ADDR);
    var implementationAddr := AddressFromBytes(Splice(AddressBytes(addr), 0, IMPLEMENTATION_PREFIX));

    var current := LoadContractAccount(db, addr);
    if current.Err? { return ReadFailed; }
    var contractAcc := current.value;
    var newImplementationCode := GetContractCode(db, contractAcc);

    var implementation := LoadContractAccount(db, implementationAddr);
    if implementation.Err? { return ReadFailed; }
    var implementationAcc := implementation.value.(code := Some(newImplementationCode));
    implementationAcc := implementationAcc.(codeHash := db.keccak(newImplementationCode));

    var proxy := LoadContractAccount(db, PROXY_ADDR);
    if proxy.Err? { return ReadFailed; }
    contractAcc := contractAcc.(code := proxy.value.code);
    contractAcc := contractAcc.(codeHash := proxy.value.codeHash);

    var slots: map<Word, Word> := map[PROXY_ADMIN_SLOT := AddressWord(PROXY_ADMIN_ADDR)];
    slots := slots[PROXY_IMPLEMENTATION_SLOT := AddressWord(implementationAddr)];
    assert slots == UpgradeSlots(change);

    var changes := map[implementationAddr := Account(implementationAcc, true, map[]),
                       addr := Account(contractAcc, true, slots)];
    NothingPatched(newImplementationCode, change.token);
    assert changes == ChangeSet(change, d.world, newImplementationCode);
    db.Commit(changes);
    return Done;
  }

  method UpgradeTokens(migrations: seq<Address>, db: Database) returns (outcome: Outcome)
    modifies db`accounts, db`storage, db`readCount, db`loaded
    ensures Run(db.State(), outcome) == RunChanges(TokenUpgrades(migrations), old(db.State()))
    ensures old(db.loaded) <= db.loaded
  {
    hide Apply;
    ghost var all := TokenUpgrades(migrations);
    for i := 0 to |migrations|
      invariant RunChanges(all, old(db.State())) == RunChanges(all[i..], db.State())
      invariant old(db.loaded) <= db.loaded
    {
      assert all[i..][0] == all[i] && all[i..][1..] == all[i + 1..];
      outcome := UpgradeToken(migrations[i], db);
      if !outcome.Done? { return; }
    }
    return Done;
  }

  method PatchBytecode(change: ByteCodeChange, db: Database) returns (outcome: Outcome)
    modifies db`accounts, db`storage, db`readCount, db`loaded
    ensures Run(db.State(), outcome) ==
            Apply(CodePatch(change.address, change.offset, change.value), old(db.State()))
    ensures old(db.loaded) <= db.loaded
  {
    hide Committed, Splice;
    var loaded := LoadContractAccount(db, change.address);
    if loaded.Err? { return ReadFailed; }
    var acc := loaded.value;
    var code := GetContractCode(db, acc);
    if change.offset + |change.value| > |code| { return OutOfBounds; }
    code := PatchedCode(code, change.offset, change.value);
    acc := acc.(code := Some(code));
    acc := acc.(codeHash := db.keccak(code));
    db.Commit(map[change.address := Account(acc, true, map[])]);
    return Done;
  }

  method PatchBytecodes(migrations: seq<ByteCodeChange>, db: Database) returns (outcome: Outcome)
    modifies db`accounts, db`storage, db`readCount, db`loaded
    ensures Run(db.State(), outcome) == RunChanges(Patches(migrations), old(db.State()))
    ensures old(db.loaded) <= db.loaded
  {
    hide Apply;
    ghost var all := Patches(migrations);
    for i := 0 to |migrations|
      invariant RunChanges(all, old(db.State())) == RunChanges(all[i..], db.State())
      invariant old(db.loaded) <= db.loaded
    {
      assert all[i..][0] == all[i] && all[i..][1..] == all[i + 1..];
      outcome := PatchBytecode(migrations[i], db);
      if !outcome.Done? { return; }
    }
    return Done;
  }

  method WriteSlot(change: StorageChange, db: Database) returns (outcome: Outcome)
    modifies db`accounts, db`storage, db`readCount, db`loaded
    ensures Run(db.State(), outcome) ==
            Apply(SlotWrite(change.address, change.storageSlot, change.value), old(db.State()))
    ensures old(db.loaded) <= db.loaded
  {
    hide Committed;
    var loaded := LoadContractAccount(db, change.address);
    if loaded.Err? { return ReadFailed; }
    db.Commit(map[change.address := Account(loaded.value, true, map[change.storageSlot := change.value])]);
    return Done;
  }

  method WriteSlots(migrations: seq<StorageChange>, db: Database) returns (outcome: Outcome)
    modifies db`accounts, db`storage, db`readCount, db`loaded
    ensures Run(db.State(), outcome) == RunChanges(Writes(migrations), old(db.State()))
    ensures old(db.loaded) <= db.loaded
  {
    hide Apply;
    ghost var all := Writes(migrations);
    for i := 0 to |migrations|
      invariant RunChanges(all, old(db.State())) == RunChanges(all[i..], db.State())
      invariant old(db.loaded) <= db.loaded
    {
      assert all[i..][0] == all[i] && all[i..][1..] == all[i + 1..];
      outcome := WriteSlot(migrations[i], db);
      if !outcome.Done? { return; }
    }
    return Done;
  }

  method PatchedCode(code: Bytes, offset: nat, value: Bytes) returns (r: Bytes)
    requires offset + |value| <= |code|
    ensures r == Splice(code, offset, value)
  {
    var buffer := new Byte[|code|](i requires 0 <= i < |code| => code[i]);
    assert buffer[..] == code;
    CopyFromSlice(buffer, offset, value);
    return buffer[..];
  }

  lemma RunNothing(d: DbState)
    ensures RunChanges([], d) == Run(d, Done)
  {
  }

  // The phases of the migration, one after the other; a failed phase ends it.
  function RunPhases(upgrades: seq<Change>, patches: seq<Change>, writes: seq<Change>, d: DbState): Run {
    var r := RunChanges(upgrades, d);
    if !r.outcome.Done? then r else
    var r' := RunChanges(patches, r.db);
    if !r'.outcome.Done? then r' else RunChanges(writes, r'.db)
  }

  lemma RunTable(chainId: U64, d: DbState)
    ensures RunChanges(HoloceneTable(chainId), d) ==
            RunPhases(TokenUpgrades(TokenAddresses(chainId)), Patches(NamingPatches(chainId)),
                      Writes(NamingWrites(chainId)), d)
    ensures NamingPatches(chainId) == [] ==> forall e :: RunChanges(Patches([]), e) == Run(e, Done)
    ensures NamingWrites(chainId) == [] ==> forall e :: RunChanges(Writes([]), e) == Run(e, Done)
  {
    hide Apply;
    var upgrades, patches := TokenUpgrades(TokenAddresses(chainId)), Patches(NamingPatches(chainId));
    RunAppend(upgrades + patches, Writes(NamingWrites(chainId)), d);
    RunAppend(upgrades, patches, d);
  }

  method MigrateFraxHolocene(spec: ChainSpec, timestamp: U64, db: Database) returns (outcome: Outcome)
    modifies db`accounts, db`storage, db`readCount, db`loaded
    ensures Run(db.State(), outcome) == RunChanges(HoloceneChanges(spec, timestamp), old(db.State()))
    ensures old(db.loaded) <= db.loaded
  {
    hide Apply, RunChanges, TokenUpgrades, Patches, Writes;
    if Active(spec.holocene, timestamp) && !Active(spec.holocene, SaturatingSub(timestamp, 2)) {
      RunTable(spec.chainId, db.State());
      var tokens, patches, writes := Some(DEVNET_TOKENS_ADDRESSES), None, None;
      if spec.chainId == 2522 {
        tokens := Some(TESTNET_TOKENS_ADDRESSES);
      } else if spec.chainId != 2521 {
        tokens := Some(MAINNET_TOKENS_ADDRESSES);
        patches := Some(MAINNET_NAMING_BYTECODE_CHANGES);
        writes := Some(MAINNET_NAMING_STORAGE_CHANGES);
      }
      if tokens.Some? {
        outcome := UpgradeTokens(tokens.value, db);
        if !outcome.Done? { return; }
      }
      if patches.Some? {
        outcome := PatchBytecodes(patches.value, db);
        if !outcome.Done? { return; }
      }
      if writes.Some? {
        outcome := WriteSlots(writes.value, db);
        if !outcome.Done? { return; }
      }
      return Done;
    }
    RunNothing(db.State());
    return Done;
  }
}
