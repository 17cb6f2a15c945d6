/** The Granite transition: frax and sfrax become upgradable proxies for frxUSD and sfrxUSD. */
module Granite {
  import opened Primitives
  import opened ByteCodec
  import opened StateDb
  import opened Utils
  import opened Transitions
  import opened Hardforks

  const FRAX_ADDR: Address := 0xFc00000000000000000000000000000000000001
  const FRAX_IMPL_ADDR: Address := 0xfcc0d30000000000000000000000000000000001
  const SFRAX_ADDR: Address := 0xFc00000000000000000000000000000000000008
  const SFRAX_IMPL_ADDR: Address := 0xfcc0d30000000000000000000000000000000008
  const PROXY_ADDR: Address := 0xfc0000000000000000000000000000000000000a
  const PROXY_ADMIN_ADDR: Address := 0xfc0000000000000000000000000000000000000a
  const FRXUSD_L1_ADDR: Address := 0xCAcd6fd266aF91b8AeD52aCCc382b4e165586E29
  const SFRXUSD_L1_ADDR: Address := 0xcf62F905562626CfcDD2261162a51fd02Fc9c5b6

  const FRXUSD_NAME_STORAGE_VALUE: Word := 0x4672617820555344000000000000000000000000000000000000000000000010
  const FRXUSD_SYMBOL_STORAGE_VALUE: Word := 0x667278555344000000000000000000000000000000000000000000000000000c
  const SFRXUSD_NAME_STORAGE_VALUE: Word := 0x5374616b6564204672617820555344000000000000000000000000000000001e
  const SFRXUSD_SYMBOL_STORAGE_VALUE: Word := 0x736672785553440000000000000000000000000000000000000000000000000e

  const MAINNET_FRAX_L1_REPLACEMENTS_INDEXES: seq<nat> := [2137, 6850, 7218]
  const MAINNET_SFRAX_L1_REPLACEMENTS_INDEXES: seq<nat> := [2137, 6850, 7218]
  const TESTNET_FRAX_L1_REPLACEMENTS_INDEXES: seq<nat> := [2137, 6962, 7330]
  const DEVNET_FRAX_L1_REPLACEMENTS_INDEXES: seq<nat> := [693, 1303]
  const DEVNET_SFRAX_L1_REPLACEMENTS_INDEXES: seq<nat> := [693, 1303]

  // Slots 3 and 4 hold the token's name and symbol.
  function NameAndSymbol(name: Word, symbol: Word): map<Word, Word> {
    map[3 := name, 4 := symbol]
  }

  function FraxChange(offsets: seq<nat>): Change {
    ProxyUpgrade(FRAX_ADDR, FRAX_IMPL_ADDR, PROXY_ADDR, PROXY_ADMIN_ADDR, offsets, FRXUSD_L1_ADDR,
                 NameAndSymbol(FRXUSD_NAME_STORAGE_VALUE, FRXUSD_SYMBOL_STORAGE_VALUE))
  }

  function SfraxChange(offsets: seq<nat>): Change {
    ProxyUpgrade(SFRAX_ADDR, SFRAX_IMPL_ADDR, PROXY_ADDR, PROXY_ADMIN_ADDR, offsets, SFRXUSD_L1_ADDR,
                 NameAndSymbol(SFRXUSD_NAME_STORAGE_VALUE, SFRXUSD_SYMBOL_STORAGE_VALUE))
  }

  function GraniteTable(chainId: U64): seq<Change> {
    if chainId == 2521 then
      [FraxChange(DEVNET_FRAX_L1_REPLACEMENTS_INDEXES), SfraxChange(DEVNET_SFRAX_L1_REPLACEMENTS_INDEXES)]
    else if chainId == 2522 then
      [FraxChange(TESTNET_FRAX_L1_REPLACEMENTS_INDEXES)]
    else
      [FraxChange(MAINNET_FRAX_L1_REPLACEMENTS_INDEXES), SfraxChange(MAINNET_SFRAX_L1_REPLACEMENTS_INDEXES)]
  }

  function GraniteChanges(spec: ChainSpec, timestamp: U64): seq<Change> {
    if AtTransition(spec.granite, timestamp) then GraniteTable(spec.chainId) else []
  }

  lemma InsertedSlots(owner: Address, implementation: Address, name: Word, symbol: Word)
    ensures map[PROXY_ADMIN_SLOT := AddressWord(owner)]
              [PROXY_IMPLEMENTATION_SLOT := AddressWord(implementation)][3 := name][4 := symbol]
            == ProxySlots(owner, implementation) + NameAndSymbol(name, symbol)
  {
  }

  // Copies the token's bytes in at every offset; slicing past the end of the code panics.
  method ReplaceL1Token(code: Bytes, replacements: seq<nat>, l1TokenBytes: Bytes) returns (r: Option<Bytes>)
    requires |l1TokenBytes| == 20
    ensures r.Some? <==> WindowsInRange(replacements, 20, |code|)
    ensures r.Some? ==> r.value == SpliceAll(code, replacements, l1TokenBytes)
  {
    var buffer := new Byte[|code|](i requires 0 <= i < |code| => code[i]);
    assert buffer[..] == code;
    for i := 0 to |replacements|
      modifies buffer
      invariant WindowsInRange(replacements[..i], 20, |code|)
      invariant buffer[..] == SpliceAll(code, replacements[..i], l1TokenBytes)
    {
      if replacements[i] + |l1TokenBytes| > buffer.Length {
        return None;
      }
      CopyFromSlice(buffer, replacements[i], l1TokenBytes);
      assert replacements[..i + 1][..i] == replacements[..i];
    }
    assert replacements[..|replacements|] == replacements;
    return Some(buffer[..]);
  }

  method Migrate(contractAddr: Address, implementationAddr: Address, proxySourceAddr: Address,
                 l1Token: Address, replacements: seq<nat>, owner: Address,
                 nameStorage: Word, symbolStorage: Word, db: Database)
    returns (outcome: Outcome)
    modifies db`accounts, db`storage, db`readCount, db`loaded
    ensures Run(db.State(), outcome) ==
            Apply(ProxyUpgrade(contractAddr, implementationAddr, proxySourceAddr, owner, replacements,
                               l1Token, NameAndSymbol(nameStorage, symbolStorage)), old(db.State()))
    ensures old(db.loaded) <= db.loaded
  {
    hide Committed, SpliceAll, AddressBytes, AddressWord;
    ghost var d := db.State();
    ghost var change := ProxyUpgrade(contractAddr, implementationAddr, proxySourceAddr, owner, replacements,
                                     l1Token, NameAndSymbol(nameStorage, symbolStorage));
    var l1TokenBytes := AddressBytes(l1Token);
    var current := LoadContractAccount(db, contractAddr);
    if current.Err? {
      return ReadFailed;
    }
    var contractAcc := current.value;
    var code := GetContractCode(db, contractAcc);
    var patched := ReplaceL1Token(code, replacements, l1TokenBytes);
    if patched.None? {
      return OutOfBounds;
    }
    var newImplementationCode := patched.value;

    var implementation := LoadContractAccount(db, implementationAddr);
    if implementation.Err? {
      return ReadFailed;
    }
    var implementationAcc := implementation.value.(code := Some(newImplementationCode));
    implementationAcc := implementationAcc.(codeHash := db.keccak(newImplementationCode));

    var proxy := LoadContractAccount(db, proxySourceAddr);
    if proxy.Err? {
      return ReadFailed;
    }
    contractAcc := contractAcc.(code := proxy.value.code);
    contractAcc := contractAcc.(codeHash := proxy.value.codeHash);

    var storage: map<Word, Word> := map[PROXY_ADMIN_SLOT := AddressWord(owner)];
    storage := storage[PROXY_IMPLEMENTATION_SLOT := AddressWord(implementationAddr)];
    storage := storage[3 := nameStorage];
    storage := storage[4 := symbolStorage];
    InsertedSlots(owner, implementationAddr, nameStorage, symbolStorage);

    var changes := map[implementationAddr := Account(implementationAcc, true, map[]),
                       contractAddr := Account(contractAcc, true, storage)];
    assert changes == ChangeSet(change, d.world, code);
    db.Commit(changes);
    return Done;
  }

  lemma RunTable(chainId: U64, d: DbState)
    ensures var table := GraniteTable(chainId);
            RunChanges(table, d) ==
            var first := Apply(table[0], d);
            if |table| == 1 || !first.outcome.Done? then first else Apply(table[1], first.db)
  {
    hide Apply;
    var table := GraniteTable(chainId);
    assert table == [table[0]] + table[1..];
    RunOne(table[0], d);
    RunAppend([table[0]], table[1..], d);
    if |table| == 2 {
      assert table[1..] == [table[1]];
      RunOne(table[1], Apply(table[0], d).db);
    }
  }

  method MigrateFrxusd(spec: ChainSpec, timestamp: U64, db: Database) returns (outcome: Outcome)
    modifies db`accounts, db`storage, db`readCount, db`loaded
    ensures Run(db.State(), outcome) == RunChanges(GraniteChanges(spec, timestamp), old(db.State()))
    ensures old(db.loaded) <= db.loaded
  {
    hide Apply;
    if AtTransition(spec.granite, timestamp) {
      RunTable(spec.chainId, db.State());
    }
    if Active(spec.granite, timestamp) && !Active(spec.granite, SaturatingSub(timestamp, 2)) {
      if spec.chainId == 2521 {
        outcome := Migrate(FRAX_ADDR, FRAX_IMPL_ADDR, PROXY_ADDR, FRXUSD_L1_ADDR,
                           DEVNET_FRAX_L1_REPLACEMENTS_INDEXES, PROXY_ADMIN_ADDR,
                           FRXUSD_NAME_STORAGE_VALUE, FRXUSD_SYMBOL_STORAGE_VALUE, db);
        if !outcome.Done? { return; }
        outcome := Migrate(SFRAX_ADDR, SFRAX_IMPL_ADDR, PROXY_ADDR, SFRXUSD_L1_ADDR,
                           DEVNET_SFRAX_L1_REPLACEMENTS_INDEXES, PROXY_ADMIN_ADDR,
                           SFRXUSD_NAME_STORAGE_VALUE, SFRXUSD_SYMBOL_STORAGE_VALUE, db);
        if !outcome.Done? { return; }
      } else if spec.chainId == 2522 {
        outcome := Migrate(FRAX_ADDR, FRAX_IMPL_ADDR, PROXY_ADDR, FRXUSD_L1_ADDR,
                           TESTNET_FRAX_L1_REPLACEMENTS_INDEXES, PROXY_ADMIN_ADDR,
                           FRXUSD_NAME_STORAGE_VALUE, FRXUSD_SYMBOL_STORAGE_VALUE, db);
        if !outcome.Done? { return; }
      } else {
        outcome := Migrate(FRAX_ADDR, FRAX_IMPL_ADDR, PROXY_ADDR, FRXUSD_L1_ADDR,
                           MAINNET_FRAX_L1_REPLACEMENTS_INDEXES, PROXY_ADMIN_ADDR,
                           FRXUSD_NAME_STORAGE_VALUE, FRXUSD_SYMBOL_STORAGE_VALUE, db);
        if !outcome.Done? { return; }
        outcome := Migrate(SFRAX_ADDR, SFRAX_IMPL_ADDR, PROXY_ADDR, SFRXUSD_L1_ADDR,
                           MAINNET_SFRAX_L1_REPLACEMENTS_INDEXES, PROXY_ADMIN_ADDR,
                           SFRXUSD_NAME_STORAGE_VALUE, SFRXUSD_SYMBOL_STORAGE_VALUE, db);
        if !outcome.Done? { return; }
      }
    }
    return Done;
  }
}
