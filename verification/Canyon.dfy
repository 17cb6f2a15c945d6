/** The Canyon transition: the create2 deployer is force-deployed. */
module Canyon {
  import opened Primitives
  import opened StateDb
  import opened Transitions
  import opened Hardforks

  const CREATE_2_DEPLOYER_ADDR: Address := 0x13b0D85CcB8bf860b6b79AF3029fCA081AE9beF2
  const CREATE_2_DEPLOYER_CODEHASH: Hash := 0xb0550b5b431e30d38000efb7107aaa0ade03d48a7198a140edda9d27134468b2

  function CanyonChanges(spec: ChainSpec, timestamp: U64, bytecode: Bytes): seq<Change> {
    if AtTransition(spec.canyon, timestamp)
    then [ForceDeploy(CREATE_2_DEPLOYER_ADDR, CREATE_2_DEPLOYER_CODEHASH, bytecode)]
    else []
  }

  method EnsureCreate2Deployer(spec: ChainSpec, timestamp: U64, bytecode: Bytes, db: Database)
    returns (outcome: Outcome)
    modifies db`accounts, db`storage, db`readCount, db`loaded
    ensures Run(db.State(), outcome) == RunChanges(CanyonChanges(spec, timestamp, bytecode), old(db.State()))
    ensures old(db.loaded) <= db.loaded
  {
    if Active(spec.canyon, timestamp) && !Active(spec.canyon, SaturatingSub(timestamp, 2)) {
      var basic := db.Basic(CREATE_2_DEPLOYER_ADDR);
      if basic.Err? {
        return ReadFailed;
      }
      var info := match basic.value case Some(i) => i case None => DefaultInfo(db.keccak);
      info := info.(codeHash := CREATE_2_DEPLOYER_CODEHASH);
      info := info.(code := Some(bytecode));
      db.Commit(map[CREATE_2_DEPLOYER_ADDR := Account(info, true, map[])]);
    }
    return Done;
  }
}
