/** The Isthmus transition: on mainnet the frax oracles become upgradable proxies. */
module Isthmus {
  import opened Primitives
  import opened ByteCodec
  import opened StateDb
  import opened Utils
  import opened Transitions
  import opened Hardforks
  import opened ProxyMigration

  const MAINNET_ORACLES_ADDRESSES: seq<Address> := [
    0xf750636e1df115e3b334ed06e5b45c375107fc60,
    0x1B680F4385f24420D264D78cab7C58365ED3F1FF
  ]
  const PROXY_ADDR: Address := 0xfc0000000000000000000000000000000000000a
  const PROXY_ADMIN_ADDR: Address := 0xfc0000000000000000000000000000000000000a

  function IsthmusTable(chainId: U64): seq<Change> {
    if chainId != 252 then [] else ToProxies(MAINNET_ORACLES_ADDRESSES, PROXY_ADDR, PROXY_ADMIN_ADDR)
  }

  function IsthmusChanges(spec: ChainSpec, timestamp: U64): seq<Change> {
    if AtTransition(spec.isthmus, timestamp) then IsthmusTable(spec.chainId) else []
  }

  method UpgradeOracle(addr: Address, db: Database) returns (outcome: Outcome)
    modifies db`accounts, db`storage, db`readCount, db`loaded
    ensures Run(db.State(), outcome) == Apply(ToProxy(addr, PROXY_ADDR, PROXY_ADMIN_ADDR), old(db.State()))
    ensures old(db.loaded) <= db.loaded
  {
    hide Committed, SpliceAll, Splice, AddressBytes, AddressWord, AddressFromBytes;
    ghost var d := db.State();
    ghost var change := ToProxy(addr, PROXY_ADDR, PROXY_ADMIN_ADDR);
    var implementationAddr := AddressFromBytes(Splice(AddressBytes(addr), 0, IMPLEMENTATION_PREFIX));

    var current := LoadContractAccount(db, addr);
    if current.Err? { return ReadFailed; }
    var contractAcc := current.value;
    var newImplementationCode := GetContractCode(db, contractAcc);

    var implementation := LoadContractAccount(db, implementationAddr);
    if implementation.Err? { return ReadFailed; }
    var implementationAcc := implementation.value.(code := Some(newImplementationCode));
    implementationAcc := implementationAcc.(codeHash := db.keccak(newImplementationCode));

    var proxy := LoadContractAccount(db, PROXY_ADDR);
    if proxy.Err? { return ReadFailed; }
    contractAcc := contractAcc.(code := proxy.value.code);
    contractAcc := contractAcc.(codeHash := proxy.value.codeHash);

    var slots: map<Word, Word> := map[PROXY_ADMIN_SLOT := AddressWord(PROXY_ADMIN_ADDR)];
    slots := slots[PROXY_IMPLEMENTATION_SLOT := AddressWord(implementationAddr)];
    assert slots == UpgradeSlots(change);

    var changes := map[implementationAddr := Account(implementationAcc, true, map[]),
                       addr := Account(contractAcc, true, slots)];
    NothingPatched(newImplementationCode, change.token);
    assert changes == ChangeSet(change, d.world, newImplementationCode);
    db.Commit(changes);
    return Done;
  }

  method MigrateFraxIsthmus(spec: ChainSpec, timestamp: U64, db: Database) returns (outcome: Outcome)
    modifies db`accounts, db`storage, db`readCount, db`loaded
    ensures Run(db.State(), outcome) == RunChanges(IsthmusChanges(spec, timestamp), old(db.State()))
    ensures old(db.loaded) <= db.loaded
  {
    hide Apply;
    if Active(spec.isthmus, timestamp) && !Active(spec.isthmus, SaturatingSub(timestamp, 2)) {
      if spec.chainId != 252 {
        return Done;
      }
      ghost var all := IsthmusTable(spec.chainId);
      for i := 0 to |MAINNET_ORACLES_ADDRESSES|
        invariant RunChanges(all, old(db.State())) == RunChanges(all[i..], db.State())
        invariant old(db.loaded) <= db.loaded
      {
        assert all[i..][0] == all[i] && all[i..][1..] == all[i + 1..];
        outcome := UpgradeOracle(MAINNET_ORACLES_ADDRESSES[i], db);
        if !outcome.Done? { return; }
      }
    }
    return Done;
  }
}
