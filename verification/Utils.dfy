/** The two lookups the migrations share. */
module Utils {
  import opened Primitives
  import opened StateDb

  // The code a lookup yields when it starts at database state `d`: a failing read by hash is
  // swallowed and yields empty code.
  function CodeRead(d: DbState, info: AccountInfo): Bytes {
    if info.code.None? && d.NextFails() then [] else CodeOf(d.world, info)
  }

  // The number of database reads that lookup makes.
  function CodeReads(info: AccountInfo): nat {
    if info.code.Some? then 0 else 1
  }

  method LoadContractAccount(db: Database, address: Address) returns (r: Result<AccountInfo, DbError>)
    modifies db`readCount, db`loaded
    ensures db.State() == old(db.State()).Advance(1)
    ensures r == if old(db.State()).NextFails() then Err(ReadError) else Ok(Info(db.State().world, address))
    ensures db.loaded == if r.Ok? then old(db.loaded) + {address} else old(db.loaded)
  {
    var basic := db.Basic(address);
    match basic
    case Err(_) => return Err(ReadError);
    case Ok(account) =>
      return Ok(match account case Some(info) => info case None => DefaultInfo(db.keccak));
  }

  method GetContractCode(db: Database, account: AccountInfo) returns (code: Bytes)
    modifies db`readCount
    ensures code == CodeRead(old(db.State()), account)
    ensures db.State() == old(db.State()).Advance(CodeReads(account))
  {
    match account.code
    case Some(inline) => return inline;
    case None =>
      var stored := db.CodeByHash(account.codeHash);
      return match stored case Ok(bytes) => bytes case Err(_) => [];
  }
}
