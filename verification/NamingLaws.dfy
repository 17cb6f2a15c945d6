/** The naming phases of Holocene, for arbitrary lists of records: the last record wins, slot by
    slot and byte by byte, and running a phase again changes nothing. */
module NamingLaws {
  import opened Primitives
  import opened ByteCodec
  import opened StateDb
  import opened Transitions
  import opened Simultaneity
  import opened Commutation
  import opened ProxyMigration
  import opened HoloceneConstants
  import opened Holocene

  // ---------- Storage records ----------

  // The last value listed for a slot, if it is listed at all.
  function LastWritten(changes: seq<StorageChange>, a: Address, s: Word): Option<Word> {
    if changes == [] then None
    else
      var last := changes[|changes| - 1];
      if last.address == a && last.storageSlot == s then Some(last.value)
      else LastWritten(changes[..|changes| - 1], a, s)
  }

  lemma PerformedAppend(cs: seq<Change>, c: Change, w: World)
    ensures PerformedAll(cs + [c], w) == Performed(c, PerformedAll(cs, w))
    ensures AllFit(cs + [c], w) <==> AllFit(cs, w) && Fits(c, PerformedAll(cs, w))
  {
    hide Performed, Fits;
    PerformedConcat(cs, [c], w);
    var w' := PerformedAll(cs, w);
    assert PerformedAll([c], w') == PerformedAll([], Performed(c, w'));
    assert AllFit([c], w') <==> Fits(c, w') && AllFit([], Performed(c, w'));
  }

  lemma WritesInit(changes: seq<StorageChange>)
    requires changes != []
    ensures var last := changes[|changes| - 1];
            Writes(changes) ==
            Writes(changes[..|changes| - 1]) + [SlotWrite(last.address, last.storageSlot, last.value)]
  {
  }

  // Every listed slot holds its last listed value; every other slot and all accounts are kept.
  lemma {:induction false} LastWriteWins(changes: seq<StorageChange>, w: World)
    ensures var w' := PerformedAll(Writes(changes), w);
            && AllFit(Writes(changes), w) && SameLibrary(w, w')
            && (forall a :: Info(w', a) == Info(w, a))
            && (forall a, s :: Slot(w', a, s) ==
                               match LastWritten(changes, a, s) case Some(v) => v case None => Slot(w, a, s))
  {
    hide Performed, Writes;
    if changes != [] {
      var init, last := changes[..|changes| - 1], changes[|changes| - 1];
      WritesInit(changes);
      LastWriteWins(init, w);
      PerformedAppend(Writes(init), SlotWrite(last.address, last.storageSlot, last.value), w);
      WriteCells(last, PerformedAll(Writes(init), w));
    }
  }

  lemma WriteCells(change: StorageChange, w: World)
    ensures var w' := Performed(SlotWrite(change.address, change.storageSlot, change.value), w);
            && SameLibrary(w, w')
            && (forall a {:trigger Info(w', a)} :: Info(w', a) == Info(w, a))
            && (forall a, s {:trigger Slot(w', a, s)} ::
                  Slot(w', a, s) == if a == change.address && s == change.storageSlot
                                    then change.value else Slot(w, a, s))
  {
    hide Committed;
  }

  lemma WritesAreIdempotent(changes: seq<StorageChange>, w: World)
    ensures var cs := Writes(changes);
            Same(PerformedAll(cs, PerformedAll(cs, w)), PerformedAll(cs, w))
  {
    hide PerformedAll, AllFit;
    var w1 := PerformedAll(Writes(changes), w);
    var w2 := PerformedAll(Writes(changes), w1);
    LastWriteWins(changes, w);
    LastWriteWins(changes, w1);
    forall l ensures At(w2, l) == At(w1, l) {
      match l {
        case CodeAt(a) => assert Info(w2, a) == Info(w1, a);
        case FundsAt(a) => assert Info(w2, a) == Info(w1, a);
        case SlotAt(a, s) => assert Slot(w2, a, s) == Slot(w1, a, s);
      }
    }
  }

  // With no slot listed twice the order of the records does not matter either.
  lemma DistinctWritesAreIndependent(changes: seq<StorageChange>, w: World)
    requires forall i, j :: 0 <= i < j < |changes| ==>
               changes[i].address != changes[j].address || changes[i].storageSlot != changes[j].storageSlot
    ensures AllIndependent(Writes(changes)) && EachFits(Writes(changes), w)
  {
  }

  lemma DistinctWritesAnyOrder(changes: seq<StorageChange>, permuted: seq<StorageChange>, w: World)
    requires forall i, j :: 0 <= i < j < |changes| ==>
               changes[i].address != changes[j].address || changes[i].storageSlot != changes[j].storageSlot
    requires multiset(changes) == multiset(permuted)
    ensures Same(PerformedAll(Writes(permuted), w), PerformedAll(Writes(changes), w))
  {
    hide PerformedAll, AllFit, AllIndependent;
    DistinctWritesAreIndependent(changes, w);
    WritesOfPermutation(changes, permuted);
    OrderDoesNotMatter(Writes(changes), Writes(permuted), w);
  }

  lemma {:induction false} WritesOfPermutation(changes: seq<StorageChange>, permuted: seq<StorageChange>)
    requires multiset(changes) == multiset(permuted)
    ensures multiset(Writes(changes)) == multiset(Writes(permuted))
  {
    forall c: Change ensures multiset(Writes(changes))[c] == multiset(Writes(permuted))[c] {
      CountOfWrite(changes, c);
      CountOfWrite(permuted, c);
    }
  }

  // The record a slot write stands for occurs as often as the write.
  lemma {:induction false} CountOfWrite(changes: seq<StorageChange>, c: Change)
    ensures multiset(Writes(changes))[c] ==
            if c.SlotWrite? then multiset(changes)[StorageChange(c.address, c.slot, c.word)] else 0
  {
    if changes == [] {
    } else {
      var init, last := changes[..|changes| - 1], changes[|changes| - 1];
      WritesInit(changes);
      CountOfWrite(init, c);
      assert changes == init + [last];
      assert multiset(changes) == multiset(init) + multiset{last};
    }
  }

  // ---------- Bytecode records ----------

  // The byte the last record covering position k of an account's code puts there.
  function LastPatched(changes: seq<ByteCodeChange>, a: Address, k: nat): Option<Byte> {
    if changes == [] then None
    else
      var last := changes[|changes| - 1];
      if last.address == a && last.offset <= k < last.offset + |last.value| then Some(last.value[k - last.offset])
      else LastPatched(changes[..|changes| - 1], a, k)
  }

  predicate Patched(changes: seq<ByteCodeChange>, a: Address) {
    exists i :: 0 <= i < |changes| && changes[i].address == a
  }

  lemma PatchesInit(changes: seq<ByteCodeChange>)
    requires changes != []
    ensures var last := changes[|changes| - 1];
            Patches(changes) == Patches(changes[..|changes| - 1]) + [CodePatch(last.address, last.offset, last.value)]
  {
  }

  // An account named by a record carries its code inline, with a matching hash and the length it
  // had; each byte comes from the last record covering it. Everything else is kept.
  ghost predicate LastPatchHolds(changes: seq<ByteCodeChange>, w: World, w': World) {
    && SameLibrary(w, w')
    && (forall a, s :: Slot(w', a, s) == Slot(w, a, s))
    && (forall a :: !Patched(changes, a) ==> Info(w', a) == Info(w, a))
    && (forall a :: Patched(changes, a) ==> Info(w', a) == WithCode(Info(w, a), Code(w', a), w.keccak))
    && (forall a :: |Code(w', a)| == |Code(w, a)|)
    && (forall a, k :: 0 <= k < |Code(w, a)| ==>
          Code(w', a)[k] == match LastPatched(changes, a, k) case Some(b) => b case None => Code(w, a)[k])
  }

  lemma {:induction false} LastPatchWins(changes: seq<ByteCodeChange>, w: World)
    requires AllFit(Patches(changes), w)
    ensures LastPatchHolds(changes, w, PerformedAll(Patches(changes), w))
  {
    if changes != [] {
      var init, last := changes[..|changes| - 1], changes[|changes| - 1];
      var c := CodePatch(last.address, last.offset, last.value);
      PatchesInit(changes);
      PerformedAppend(Patches(init), c, w);
      LastPatchWins(init, w);
      OneMorePatch(changes, w, PerformedAll(Patches(init), w));
    }
  }

  lemma OneMorePatch(changes: seq<ByteCodeChange>, w: World, w1: World)
    requires changes != []
    requires LastPatchHolds(changes[..|changes| - 1], w, w1)
    requires var last := changes[|changes| - 1];
             Fits(CodePatch(last.address, last.offset, last.value), w1)
    ensures var last := changes[|changes| - 1];
            LastPatchHolds(changes, w, Performed(CodePatch(last.address, last.offset, last.value), w1))
  {
    hide Performed, Splice, LastPatched, Patched;
    var init, last := changes[..|changes| - 1], changes[|changes| - 1];
    var w' := Performed(CodePatch(last.address, last.offset, last.value), w1);
    PatchCells(last, w1);
    assert Code(w', last.address) == Splice(Code(w1, last.address), last.offset, last.value);
    forall a ensures Patched(changes, a) <==> a == last.address || Patched(init, a) {
      PatchedInit(changes, a);
    }
    forall a | a != last.address ensures Code(w', a) == Code(w1, a) {
      assert Info(w', a) == Info(w1, a);
    }
    forall a, k | 0 <= k < |Code(w, a)|
      ensures Code(w', a)[k] == match LastPatched(changes, a, k) case Some(b) => b case None => Code(w, a)[k]
    {
      LastPatchedInit(changes, a, k);
      if a == last.address {
        SpliceAt(Code(w1, a), last.offset, last.value, k);
      }
    }
  }

  lemma LastPatchedInit(changes: seq<ByteCodeChange>, a: Address, k: nat)
    requires changes != []
    ensures var init, last := changes[..|changes| - 1], changes[|changes| - 1];
            LastPatched(changes, a, k) ==
            if last.address == a && last.offset <= k < last.offset + |last.value|
            then Some(last.value[k - last.offset]) else LastPatched(init, a, k)
  {
  }

  lemma PatchedInit(changes: seq<ByteCodeChange>, a: Address)
    requires changes != []
    ensures Patched(changes, a) <==> a == changes[|changes| - 1].address || Patched(changes[..|changes| - 1], a)
  {
    var init, last := changes[..|changes| - 1], changes[|changes| - 1];
    if Patched(init, a) {
      var i :| 0 <= i < |init| && init[i].address == a;
      assert changes[i].address == a;
    }
  }

  lemma PatchCells(change: ByteCodeChange, w: World)
    requires Fits(CodePatch(change.address, change.offset, change.value), w)
    ensures var w' := Performed(CodePatch(change.address, change.offset, change.value), w);
            && SameLibrary(w, w')
            && (forall a, s :: Slot(w', a, s) == Slot(w, a, s))
            && (forall a :: a != change.address ==> Info(w', a) == Info(w, a))
            && Info(w', change.address) ==
               WithCode(Info(w, change.address), Splice(Code(w, change.address), change.offset, change.value), w.keccak)
  {
  }

  // Patching again fits whenever patching fitted, and changes nothing.
  lemma PatchesAreIdempotent(changes: seq<ByteCodeChange>, w: World)
    requires AllFit(Patches(changes), w)
    ensures var cs := Patches(changes);
            && AllFit(cs, PerformedAll(cs, w))
            && Same(PerformedAll(cs, PerformedAll(cs, w)), PerformedAll(cs, w))
  {
    hide PerformedAll, AllFit, Patches;
    var cs := Patches(changes);
    var w1 := PerformedAll(cs, w);
    LastPatchWins(changes, w);
    SameLengthsFit(changes, w, w1);
    var w2 := PerformedAll(cs, w1);
    LastPatchWins(changes, w1);
    forall a ensures Info(w2, a) == Info(w1, a) {
      forall k | 0 <= k < |Code(w1, a)| ensures Code(w2, a)[k] == Code(w1, a)[k] {
      }
      assert Code(w2, a) == Code(w1, a);
    }
    forall l ensures At(w2, l) == At(w1, l) {
      match l {
        case CodeAt(a) =>
        case FundsAt(a) =>
        case SlotAt(a, s) => assert Slot(w2, a, s) == Slot(w1, a, s);
      }
    }
  }

  // Patches never change lengths, so whether they fit depends on lengths alone.
  lemma {:induction false} SameLengthsFit(changes: seq<ByteCodeChange>, w: World, w': World)
    requires AllFit(Patches(changes), w)
    requires forall a :: |Code(w', a)| == |Code(w, a)|
    ensures AllFit(Patches(changes), w')
  {
    hide Performed;
    if changes != [] {
      var init, last := changes[..|changes| - 1], changes[|changes| - 1];
      var c := CodePatch(last.address, last.offset, last.value);
      PatchesInit(changes);
      PerformedAppend(Patches(init), c, w);
      PerformedAppend(Patches(init), c, w');
      SameLengthsFit(init, w, w');
      LastPatchWins(init, w);
      LastPatchWins(init, w');
    }
  }

  // ---------- The phases commute ----------

  // The two naming phases never interfere: one writes slots, the other codes.
  lemma WritesCommuteWithPatches(writes: seq<StorageChange>, patches: seq<ByteCodeChange>, w: World)
    ensures Commute(Writes(writes), Patches(patches), w)
  {
    hide Commute;
    IndependentListsCommute(Writes(writes), Patches(patches), w);
  }

  // The storage phase commutes with any proxy loop whose two slots it does not list.
  lemma WritesCommuteWithProxies(writes: seq<StorageChange>, contracts: seq<Address>, proxy: Address,
                                 admin: Address, w: World)
    requires forall r :: r in writes && r.address in contracts ==>
               r.storageSlot != PROXY_ADMIN_SLOT && r.storageSlot != PROXY_IMPLEMENTATION_SLOT
    ensures Commute(Writes(writes), ToProxies(contracts, proxy, admin), w)
  {
    hide Commute, ImplementationAddress, AddressWord;
    var cs, ds := Writes(writes), ToProxies(contracts, proxy, admin);
    forall c, d | c in cs && d in ds ensures Independent(c, d) {
      var i :| 0 <= i < |cs| && cs[i] == c;
      var j :| 0 <= j < |ds| && ds[j] == d;
      assert writes[i] in writes;
    }
    IndependentListsCommute(cs, ds, w);
  }

  // The bytecode phase commutes with any proxy loop that uses none of the patched accounts.
  lemma PatchesCommuteWithProxies(patches: seq<ByteCodeChange>, contracts: seq<Address>, proxy: Address,
                                  admin: Address, w: World)
    requires forall p :: p in patches ==> p.address !in contracts && p.address != proxy
    requires forall p, a :: p in patches && a in contracts ==> p.address != ImplementationAddress(a)
    ensures Commute(Patches(patches), ToProxies(contracts, proxy, admin), w)
  {
    hide Commute, ImplementationAddress, AddressWord;
    var cs, ds := Patches(patches), ToProxies(contracts, proxy, admin);
    forall c, d | c in cs && d in ds ensures Independent(c, d) {
      var i :| 0 <= i < |cs| && cs[i] == c;
      var j :| 0 <= j < |ds| && ds[j] == d;
      assert patches[i] in patches && contracts[j] in contracts;
    }
    IndependentListsCommute(cs, ds, w);
  }
}
