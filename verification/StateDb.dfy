/** The state database the migrations and the block executor work on. The library that provides
    it is not part of this model: the contracts below are what the code relies on. */
module StateDb {
  import opened Primitives

  // An account's code is either carried inline or only named by its hash.
  datatype AccountInfo = AccountInfo(nonce: U64, balance: Word, codeHash: Hash, code: Option<Bytes>)

  // An entry of the change set handed to `commit`: untouched entries are ignored.
  datatype Account = Account(info: AccountInfo, touched: bool, storage: map<Word, Word>)

  datatype World = World(accounts: map<Address, AccountInfo>, storage: map<Address, map<Word, Word>>,
                         codes: map<Hash, Bytes>, keccak: Bytes -> Hash)

  // A world together with its read history: the reads numbered in `faults` fail.
  datatype DbState = DbState(world: World, faults: set<nat>, readCount: nat)
  {
    predicate NextFails() { readCount in faults }
    function Advance(n: nat): DbState { this.(readCount := readCount + n) }
    ghost predicate FaultFree() { forall k :: k in faults ==> k < readCount }
  }

  datatype DbError = ReadError

  // ---------- Reading a world ----------

  function DefaultInfo(keccak: Bytes -> Hash): AccountInfo {
    AccountInfo(0, 0, keccak([]), Some([]))
  }

  function Info(w: World, a: Address): AccountInfo {
    if a in w.accounts then w.accounts[a] else DefaultInfo(w.keccak)
  }

  function Slot(w: World, a: Address, s: Word): Word {
    if a in w.storage && s in w.storage[a] then w.storage[a][s] else 0
  }

  function StoredCode(w: World, h: Hash): Bytes {
    if h in w.codes then w.codes[h] else []
  }

  // The effective code: inline when present, otherwise looked up by hash.
  function CodeOf(w: World, info: AccountInfo): Bytes {
    match info.code
    case Some(code) => code
    case None => StoredCode(w, info.codeHash)
  }

  function Code(w: World, a: Address): Bytes {
    CodeOf(w, Info(w, a))
  }

  // Every account's effective code hashes to its code hash.
  ghost predicate Coherent(w: World) {
    forall a: Address :: w.keccak(Code(w, a)) == Info(w, a).codeHash
  }

  // ---------- Locations ----------

  // What a world holds, cell by cell: an account's code, its nonce and balance, and its slots.
  // Two worlds are the same when all their cells are.
  datatype Location = CodeAt(address: Address) | FundsAt(address: Address) | SlotAt(address: Address, slot: Word)

  datatype Cell =
    | CodeCell(codeHash: Hash, code: Option<Bytes>)
    | FundsCell(nonce: U64, balance: Word)
    | SlotCell(word: Word)

  function At(w: World, l: Location): Cell {
    match l
    case CodeAt(a) => CodeCell(Info(w, a).codeHash, Info(w, a).code)
    case FundsAt(a) => FundsCell(Info(w, a).nonce, Info(w, a).balance)
    case SlotAt(a, s) => SlotCell(Slot(w, a, s))
  }

  ghost predicate SameLibrary(w: World, w': World) {
    w.codes == w'.codes && w.keccak == w'.keccak
  }

  ghost predicate Same(w: World, w': World) {
    SameLibrary(w, w') && forall l :: At(w, l) == At(w', l)
  }

  // ---------- Committing ----------

  function CommittedAccounts(accounts: map<Address, AccountInfo>, changes: map<Address, Account>)
    : map<Address, AccountInfo>
  {
    accounts + (map a | a in changes && changes[a].touched :: changes[a].info)
  }

  function CommittedStorage(storage: map<Address, map<Word, Word>>, changes: map<Address, Account>)
    : map<Address, map<Word, Word>>
  {
    storage + (map a | a in changes && changes[a].touched ::
                 (if a in storage then storage[a] else map[]) + changes[a].storage)
  }

  // The touched accounts replace the stored ones; their slots are laid over the stored slots.
  function Committed(w: World, changes: map<Address, Account>): (r: World)
    ensures SameLibrary(w, r)
    ensures forall a {:trigger Info(r, a)} ::
              Info(r, a) == if a in changes && changes[a].touched then changes[a].info else Info(w, a)
    ensures forall a, s {:trigger Slot(r, a, s)} ::
              Slot(r, a, s) == if a in changes && changes[a].touched && s in changes[a].storage
                               then changes[a].storage[s] else Slot(w, a, s)
  {
    w.(accounts := CommittedAccounts(w.accounts, changes), storage := CommittedStorage(w.storage, changes))
  }

  class Database {
    const keccak: Bytes -> Hash
    const faults: set<nat>
    const codes: map<Hash, Bytes>
    var accounts: map<Address, AccountInfo>
    var storage: map<Address, map<Word, Word>>
    var readCount: nat
    ghost var loaded: set<Address>  // addresses whose accounts were read through this database

    ghost function State(): DbState
      reads this
    {
      DbState(World(accounts, storage, codes, keccak), faults, readCount)
    }

    method Basic(a: Address) returns (r: Result<Option<AccountInfo>, DbError>)
      modifies this`readCount, this`loaded
      ensures readCount == old(readCount) + 1
      ensures r.Err? <==> old(State()).NextFails()
      ensures r.Ok? ==> r.value == (if a in accounts then Some(accounts[a]) else None)
      ensures loaded == if r.Ok? then old(loaded) + {a} else old(loaded)
    {
      var failed := readCount in faults;
      readCount := readCount + 1;
      if failed {
        return Err(ReadError);
      }
      loaded := loaded + {a};
      return Ok(if a in accounts then Some(accounts[a]) else None);
    }

    method CodeByHash(h: Hash) returns (r: Result<Bytes, DbError>)
      modifies this`readCount
      ensures readCount == old(readCount) + 1
      ensures r == if old(State()).NextFails() then Err(ReadError) else Ok(StoredCode(State().world, h))
    {
      var failed := readCount in faults;
      readCount := readCount + 1;
      if failed {
        return Err(ReadError);
      }
      return Ok(if h in codes then codes[h] else []);
    }

    // Overlays the touched accounts, which must have been loaded before.
    method Commit(changes: map<Address, Account>)
      requires changes.Keys <= loaded
      modifies this`accounts, this`storage
      ensures State() == old(State()).(world := Committed(old(State()).world, changes))
    {
      accounts, storage := CommittedAccounts(accounts, changes), CommittedStorage(storage, changes);
    }
  }
}
