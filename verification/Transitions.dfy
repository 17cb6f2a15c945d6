/** The items an irregular state transition is made of, and what running a list of them does.
    Each fork's migration is proved to run such a list; the laws below hold for any list. */
module Transitions {
  import opened Primitives
  import opened ByteCodec
  import opened StateDb
  import opened Utils

  // EIP-1967, "Admin address" and "Logic contract address".
  const PROXY_ADMIN_SLOT: Word := 0xb53127684a568b3173ae13b9f8a6016e243e63b6e8ee1178d6a717850b5d6103
  const PROXY_IMPLEMENTATION_SLOT: Word := 0x360894a13ba1a3210667c828492db98dca3e2076cc3735a920a3ca505d382bbc

  datatype Change =
    | ForceDeploy(address: Address, codeHash: Hash, bytecode: Bytes)
    | ProxyUpgrade(contract: Address, implementation: Address, proxy: Address, admin: Address,
                   offsets: seq<nat>, token: Address, extra: map<Word, Word>)
    | CodePatch(address: Address, offset: nat, value: Bytes)
    | SlotWrite(address: Address, slot: Word, word: Word)

  // ---------- One item ----------

  // The account an item loads first.
  function Target(c: Change): Address {
    if c.ProxyUpgrade? then c.contract else c.address
  }

  predicate ReadsCode(c: Change) {
    c.ProxyUpgrade? || c.CodePatch?
  }

  // Whether every byte range the item overwrites lies inside the code; slicing panics otherwise.
  predicate InBounds(c: Change, code: Bytes) {
    match c
    case ProxyUpgrade(_, _, _, _, offsets, _, _) => WindowsInRange(offsets, 20, |code|)
    case CodePatch(_, offset, value) => offset + |value| <= |code|
    case _ => true
  }

  function WithCode(info: AccountInfo, code: Bytes, keccak: Bytes -> Hash): AccountInfo {
    info.(code := Some(code), codeHash := keccak(code))
  }

  function ProxySlots(admin: Address, implementation: Address): map<Word, Word> {
    map[PROXY_ADMIN_SLOT := AddressWord(admin), PROXY_IMPLEMENTATION_SLOT := AddressWord(implementation)]
  }

  // The change set an item commits, given the code it read.
  function ChangeSet(c: Change, w: World, code: Bytes): map<Address, Account>
    requires InBounds(c, code)
  {
    match c
    case ForceDeploy(a, hash, bytecode) =>
      map[a := Account(Info(w, a).(codeHash := hash, code := Some(bytecode)), true, map[])]
    case ProxyUpgrade(contract, implementation, proxy, admin, offsets, token, extra) =>
      var logic := SpliceAll(code, offsets, AddressBytes(token));
      map[implementation := Account(WithCode(Info(w, implementation), logic, w.keccak), true, map[]),
          contract := Account(
            Info(w, contract).(code := Info(w, proxy).code, codeHash := Info(w, proxy).codeHash),
            true, UpgradeSlots(c))]
    case CodePatch(a, offset, value) =>
      map[a := Account(WithCode(Info(w, a), Splice(code, offset, value), w.keccak), true, map[])]
    case SlotWrite(a, slot, word) =>
      map[a := Account(Info(w, a), true, map[slot := word])]
  }

  // The slots an upgrade writes on the contract, now a proxy.
  function UpgradeSlots(c: Change): map<Word, Word>
    requires c.ProxyUpgrade?
  {
    ProxySlots(c.admin, c.implementation) + c.extra
  }

  function Effect(c: Change, w: World, code: Bytes): World
    requires InBounds(c, code)
  {
    Committed(w, ChangeSet(c, w, code))
  }

  // What a cell holds after an item, cell by cell.
  function CellAfter(c: Change, w: World, code: Bytes, l: Location): Cell
    requires InBounds(c, code)
  {
    match c
    case ForceDeploy(a, hash, bytecode) =>
      if l == CodeAt(a) then CodeCell(hash, Some(bytecode)) else At(w, l)
    case CodePatch(a, offset, value) =>
      var patched := Splice(code, offset, value);
      if l == CodeAt(a) then CodeCell(w.keccak(patched), Some(patched)) else At(w, l)
    case SlotWrite(a, slot, word) =>
      if l == SlotAt(a, slot) then SlotCell(word) else At(w, l)
    case ProxyUpgrade(contract, implementation, proxy, _, offsets, token, _) =>
      var logic := SpliceAll(code, offsets, AddressBytes(token));
      if l == CodeAt(contract) then At(w, CodeAt(proxy))
      else if l == CodeAt(implementation) then CodeCell(w.keccak(logic), Some(logic))
      else if l.SlotAt? && l.address == contract && l.slot in UpgradeSlots(c) then
        SlotCell(UpgradeSlots(c)[l.slot])
      else At(w, l)
  }

  lemma EffectCells(c: Change, w: World, code: Bytes, l: Location)
    requires InBounds(c, code)
    ensures At(Effect(c, w, code), l) == CellAfter(c, w, code, l)
  {
    hide Committed, Splice, SpliceAll;
    var changes := ChangeSet(c, w, code);
    assert Target(c) in changes;
    if c.ProxyUpgrade? {
      assert changes[c.contract].storage == UpgradeSlots(c);
      assert c.implementation in changes;
    }
  }

  // ---------- Running items against a database whose reads may fail ----------

  datatype Outcome = Done | ReadFailed | OutOfBounds

  datatype Run = Run(db: DbState, outcome: Outcome)

  // The code the item sees when it starts at `d`: its target is read first.
  function CodeSeen(c: Change, d: DbState): Bytes {
    if ReadsCode(c) then CodeRead(d.Advance(1), Info(d.world, Target(c))) else []
  }

  function AfterCodeRead(c: Change, d: DbState): DbState {
    d.Advance(1 + if ReadsCode(c) then CodeReads(Info(d.world, Target(c))) else 0)
  }

  // An item stops at its first failing account read or at an out-of-range slice; only an item
  // that gets through commits, and then once.
  function Apply(c: Change, d: DbState): Run {
    var code, coded := CodeSeen(c, d), AfterCodeRead(c, d);
    if d.NextFails() then Run(d.Advance(1), ReadFailed)
    else if !InBounds(c, code) then Run(coded, OutOfBounds)
    else if !c.ProxyUpgrade? then Run(coded.(world := Effect(c, d.world, code)), Done)
    else if coded.NextFails() then Run(coded.Advance(1), ReadFailed)
    else if coded.Advance(1).NextFails() then Run(coded.Advance(2), ReadFailed)
    else Run(coded.Advance(2).(world := Effect(c, d.world, code)), Done)
  }

  function RunChanges(cs: seq<Change>, d: DbState): Run {
    if cs == [] then Run(d, Done)
    else
      var first := Apply(cs[0], d);
      if first.outcome.Done? then RunChanges(cs[1..], first.db) else first
  }

  lemma RunOne(c: Change, d: DbState)
    ensures RunChanges([c], d) == Apply(c, d)
  {
    hide Apply;
    var r := Apply(c, d);
    assert r == Run(r.db, r.outcome);
    assert RunChanges([], r.db) == Run(r.db, Done);
  }

  lemma {:induction false} RunAppend(cs: seq<Change>, more: seq<Change>, d: DbState)
    ensures RunChanges(cs + more, d) ==
            var r := RunChanges(cs, d); if r.outcome.Done? then RunChanges(more, r.db) else r
  {
    if cs == [] {
      assert cs + more == more;
    } else {
      assert (cs + more)[1..] == cs[1..] + more;
      if Apply(cs[0], d).outcome.Done? {
        RunAppend(cs[1..], more, Apply(cs[0], d).db);
      }
    }
  }

  lemma StoppedItemCommitsNothing(c: Change, d: DbState)
    ensures !Apply(c, d).outcome.Done? ==> Apply(c, d).db.world == d.world
  {
  }

  // A run that stops midway leaves the world of exactly the items completed before: never half
  // an item, never one after it.
  lemma {:induction false} FailureKeepsPrefix(cs: seq<Change>, d: DbState) returns (k: nat)
    requires !RunChanges(cs, d).outcome.Done?
    ensures k < |cs| && RunChanges(cs[..k], d).outcome.Done?
    ensures Apply(cs[k], RunChanges(cs[..k], d).db) == RunChanges(cs, d)
    ensures RunChanges(cs, d).db.world == RunChanges(cs[..k], d).db.world
    ensures forall j :: k < j <= |cs| ==> !RunChanges(cs[..j], d).outcome.Done?
  {
    hide Apply;
    var first := Apply(cs[0], d);
    if !first.outcome.Done? {
      k := 0;
      StoppedItemCommitsNothing(cs[0], d);
      forall j | 0 < j <= |cs| ensures !RunChanges(cs[..j], d).outcome.Done? {
        assert cs[..j][0] == cs[0];
      }
    } else {
      var k' := FailureKeepsPrefix(cs[1..], first.db);
      k := k' + 1;
      assert cs[..k][1..] == cs[1..][..k'];
      forall j | k < j <= |cs| ensures !RunChanges(cs[..j], d).outcome.Done? {
        assert cs[..j][1..] == cs[1..][..j - 1];
      }
    }
  }

  // ---------- Code-hash coherence ----------

  ghost predicate HonestDeploys(cs: seq<Change>, keccak: Bytes -> Hash) {
    forall c :: c in cs && c.ForceDeploy? ==> keccak(c.bytecode) == c.codeHash
  }

  // No list of items, wherever it stops and whatever reads fail, breaks the agreement between
  // codes and code hashes, even when only the hash of the proxy's code is copied.
  lemma {:induction false} RunKeepsCoherence(cs: seq<Change>, d: DbState)
    requires Coherent(d.world) && HonestDeploys(cs, d.world.keccak)
    ensures Coherent(RunChanges(cs, d).db.world)
  {
    if cs != [] {
      ApplyKeepsCoherence(cs[0], d);
      if Apply(cs[0], d).outcome.Done? {
        RunKeepsCoherence(cs[1..], Apply(cs[0], d).db);
      }
    }
  }

  lemma ApplyKeepsCoherence(c: Change, d: DbState)
    requires Coherent(d.world) && HonestDeploys([c], d.world.keccak)
    ensures SameLibrary(d.world, Apply(c, d).db.world) && Coherent(Apply(c, d).db.world)
  {
    hide Committed, ChangeSet, Splice, SpliceAll;
    if Apply(c, d).outcome.Done? {
      assert c in [c];
      EffectKeepsCoherence(c, d.world, CodeSeen(c, d));
    }
  }

  lemma EffectKeepsCoherence(c: Change, w: World, code: Bytes)
    requires Coherent(w) && InBounds(c, code)
    requires c.ForceDeploy? ==> w.keccak(c.bytecode) == c.codeHash
    ensures Coherent(Effect(c, w, code))
  {
    hide Committed, ChangeSet, Splice, SpliceAll;
    var r := Effect(c, w, code);
    assert SameLibrary(w, r);
    forall a: Address ensures w.keccak(Code(r, a)) == Info(r, a).codeHash {
      EffectCells(c, w, code, CodeAt(a));
      assert w.keccak(Code(w, a)) == Info(w, a).codeHash;
      if c.ProxyUpgrade? {
        assert w.keccak(Code(w, c.proxy)) == Info(w, c.proxy).codeHash;
      }
    }
  }

  // ---------- What an item reads and writes ----------

  predicate WritesTo(c: Change, l: Location) {
    match c
    case ForceDeploy(a, _, _) => l == CodeAt(a)
    case CodePatch(a, _, _) => l == CodeAt(a)
    case SlotWrite(a, slot, _) => l == SlotAt(a, slot)
    case ProxyUpgrade(contract, implementation, _, _, _, _, _) =>
      match l
      case CodeAt(a) => a == contract || a == implementation
      case FundsAt(_) => false
      case SlotAt(a, s) => a == contract && s in UpgradeSlots(c)
  }

  predicate ReadsFrom(c: Change, l: Location) {
    match c
    case ForceDeploy(_, _, _) => false
    case CodePatch(a, _, _) => l == CodeAt(a)
    case SlotWrite(_, _, _) => false
    case ProxyUpgrade(contract, _, proxy, _, _, _, _) => l == CodeAt(contract) || l == CodeAt(proxy)
  }

  predicate Fits(c: Change, w: World) {
    InBounds(c, Code(w, Target(c)))
  }

  // The item carried out on a world with no failing read; nothing if it does not fit.
  function Performed(c: Change, w: World): World {
    if Fits(c, w) then Effect(c, w, Code(w, Target(c))) else w
  }

  function PerformedAll(cs: seq<Change>, w: World): World {
    if cs == [] then w else PerformedAll(cs[1..], Performed(cs[0], w))
  }

  // Each item fits when its turn comes.
  predicate AllFit(cs: seq<Change>, w: World) {
    cs == [] || (Fits(cs[0], w) && AllFit(cs[1..], Performed(cs[0], w)))
  }

  // Without failing reads a run succeeds exactly when every item fits, and then carries them out.
  lemma {:induction false} FaultFreeRun(cs: seq<Change>, d: DbState)
    requires d.FaultFree()
    ensures RunChanges(cs, d).db.FaultFree()
    ensures RunChanges(cs, d).outcome == if AllFit(cs, d.world) then Done else OutOfBounds
    ensures AllFit(cs, d.world) ==> RunChanges(cs, d).db.world == PerformedAll(cs, d.world)
  {
    hide Committed, Splice, SpliceAll;
    if cs != [] {
      assert CodeSeen(cs[0], d) == if ReadsCode(cs[0]) then Code(d.world, Target(cs[0])) else [];
      if Fits(cs[0], d.world) {
        FaultFreeRun(cs[1..], Apply(cs[0], d).db);
      }
    }
  }

  // No code lookup by hash fails, as far as the run gets.
  predicate LookupsSucceed(cs: seq<Change>, d: DbState) {
    cs == [] ||
    (var c := cs[0];
     && (ReadsCode(c) && Info(d.world, Target(c)).code.None? ==> d.readCount + 1 !in d.faults)
     && (Apply(c, d).outcome.Done? ==> LookupsSucceed(cs[1..], Apply(c, d).db)))
  }

  // Account reads may fail anywhere: a run that reports success with no lookup lost has carried
  // out every item in full.
  lemma {:induction false} DoneIsExact(cs: seq<Change>, d: DbState)
    requires RunChanges(cs, d).outcome.Done? && LookupsSucceed(cs, d)
    ensures AllFit(cs, d.world) && RunChanges(cs, d).db.world == PerformedAll(cs, d.world)
  {
    hide Committed, Splice, SpliceAll;
    if cs != [] {
      assert CodeSeen(cs[0], d) == if ReadsCode(cs[0]) then Code(d.world, Target(cs[0])) else [];
      DoneIsExact(cs[1..], Apply(cs[0], d).db);
    }
  }

  // An item changes nothing but what it writes.
  lemma PerformedFrame(c: Change, w: World, l: Location)
    requires !WritesTo(c, l)
    ensures At(Performed(c, w), l) == At(w, l)
  {
    hide Committed, ChangeSet, Splice, SpliceAll;
    if Fits(c, w) {
      EffectCells(c, w, Code(w, Target(c)), l);
    }
  }

  // A cell holds the same in both worlds and, where it is a code, stands for the same bytes: the
  // stores of codes by hash may differ elsewhere.
  ghost predicate Alike(w: World, w': World, l: Location) {
    At(w, l) == At(w', l) && (l.CodeAt? ==> Code(w, l.address) == Code(w', l.address))
  }

  lemma SameIsAlike(w: World, w': World, l: Location)
    requires SameLibrary(w, w') && At(w, l) == At(w', l)
    ensures Alike(w, w', l)
  {
  }

  // What an item writes depends only on what it reads.
  lemma PerformedLocal(c: Change, w: World, w': World, l: Location)
    requires w.keccak == w'.keccak && forall m :: ReadsFrom(c, m) ==> Alike(w, w', m)
    requires WritesTo(c, l)
    ensures Fits(c, w) ==> Alike(Performed(c, w), Performed(c, w'), l)
  {
    hide Committed, ChangeSet, Splice, SpliceAll;
    SameInputs(c, w, w');
    if Fits(c, w) {
      EffectCells(c, w, Code(w, Target(c)), l);
      EffectCells(c, w', Code(w', Target(c)), l);
      if c.ProxyUpgrade? {
        assert ReadsFrom(c, CodeAt(c.proxy));
      }
    }
  }

  lemma SameInputs(c: Change, w: World, w': World)
    requires forall m :: ReadsFrom(c, m) ==> Alike(w, w', m)
    ensures Fits(c, w) <==> Fits(c, w')
    ensures ReadsCode(c) ==> Code(w, Target(c)) == Code(w', Target(c))
  {
    if ReadsCode(c) {
      assert ReadsFrom(c, CodeAt(Target(c)));
    }
  }

  lemma {:induction false} PerformedConcat(cs: seq<Change>, more: seq<Change>, w: World)
    ensures PerformedAll(cs + more, w) == PerformedAll(more, PerformedAll(cs, w))
    ensures AllFit(cs + more, w) <==> AllFit(cs, w) && AllFit(more, PerformedAll(cs, w))
  {
    hide Performed, Fits;
    if cs == [] {
      assert cs + more == more;
    } else {
      assert (cs + more)[1..] == cs[1..] + more;
      PerformedConcat(cs[1..], more, Performed(cs[0], w));
    }
  }
}
