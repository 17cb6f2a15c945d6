/** A migration step that stops midway: it runs phase by phase, and stops within one of them. */
module StoppedSteps {
  import opened Primitives
  import opened ByteCodec
  import opened StateDb
  import opened Transitions
  import opened Simultaneity
  import opened LostLookups
  import opened Hardforks
  import opened HoloceneConstants
  import opened ForkTables
  import opened ProxyLaws
  import opened ProxyMigration
  import opened PreExecution
  import opened ForkOutcomes
  import Canyon
  import Granite
  import Holocene
  import Isthmus

  // The phases in the order the client runs them.
  predicate InPhase(c: Change, phase: nat) {
    match phase
    case 0 => c.ForceDeploy?
    case 1 => c.ProxyUpgrade? && (c.contract == Granite.FRAX_ADDR || c.contract == Granite.SFRAX_ADDR)
    case 2 => c.ProxyUpgrade? && c.contract in MAINNET_TOKENS_ADDRESSES
    case 3 => c.CodePatch?
    case 4 => c.SlotWrite?
    case 5 => c.ProxyUpgrade? && c.contract in Isthmus.MAINNET_ORACLES_ADDRESSES
    case _ => false
  }

  ghost predicate PhasesInOrder(cs: seq<Change>) {
    && (forall c :: c in cs ==> exists p :: InPhase(c, p))
    && (forall i, j, p, q :: 0 <= i < j < |cs| && InPhase(cs[i], p) && InPhase(cs[j], q) ==> p <= q)
  }

  // All items lie in phases lo to hi.
  ghost predicate Within(cs: seq<Change>, lo: nat, hi: nat) {
    forall c :: c in cs ==> exists p :: lo <= p < hi && InPhase(c, p)
  }

  lemma OnePhase(c: Change, p: nat, q: nat)
    requires InPhase(c, p) && InPhase(c, q)
    ensures p == q
  {
    hide MAINNET_TOKENS_ADDRESSES, Isthmus.MAINNET_ORACLES_ADDRESSES, CONTRACTS;
    ContractLists();
  }

  lemma PhasesAppend(cs: seq<Change>, ds: seq<Change>, lo: nat, mid: nat, hi: nat)
    requires lo <= mid <= hi && PhasesInOrder(cs) && PhasesInOrder(ds) && Within(cs, lo, mid) && Within(ds, mid, hi)
    ensures PhasesInOrder(cs + ds) && Within(cs + ds, lo, hi)
  {
    hide InPhase;
    var all := cs + ds;
    forall i, j, p, q | 0 <= i < j < |all| && InPhase(all[i], p) && InPhase(all[j], q) ensures p <= q {
      if i < |cs| <= j {
        assert all[i] in cs && all[j] in ds;
        var p' :| lo <= p' < mid && InPhase(all[i], p');
        var q' :| mid <= q' < hi && InPhase(all[j], q');
        OnePhase(all[i], p, p');
        OnePhase(all[j], q, q');
      }
    }
    forall c | c in all ensures exists p :: lo <= p < hi && InPhase(c, p) {
      if c in cs {
        var p :| lo <= p < mid && InPhase(c, p);
      } else {
        var p :| mid <= p < hi && InPhase(c, p);
      }
    }
  }

  lemma SinglePhase(cs: seq<Change>, p: nat)
    requires forall c :: c in cs ==> InPhase(c, p)
    ensures PhasesInOrder(cs) && Within(cs, p, p + 1)
  {
    hide InPhase;
    forall i, j, q, r | 0 <= i < j < |cs| && InPhase(cs[i], q) && InPhase(cs[j], r) ensures q <= r {
      OnePhase(cs[i], p, q);
      OnePhase(cs[j], p, r);
    }
  }

  lemma UpgradesPhase(contracts: seq<Address>, p: nat)
    requires p == 2 ==> forall a :: a in contracts ==> a in MAINNET_TOKENS_ADDRESSES
    requires p == 5 ==> forall a :: a in contracts ==> a in Isthmus.MAINNET_ORACLES_ADDRESSES
    requires p == 2 || p == 5
    ensures forall c :: c in ToProxies(contracts, PROXY, PROXY) ==> InPhase(c, p)
  {
    hide ImplementationAddress, MAINNET_TOKENS_ADDRESSES, Isthmus.MAINNET_ORACLES_ADDRESSES;
    var cs := ToProxies(contracts, PROXY, PROXY);
    forall c | c in cs ensures InPhase(c, p) {
      var i :| 0 <= i < |cs| && cs[i] == c;
      assert contracts[i] in contracts;
    }
  }

  lemma HolocenePhases(chainId: U64)
    ensures PhasesInOrder(Holocene.HoloceneTable(chainId)) && Within(Holocene.HoloceneTable(chainId), 2, 5)
  {
    hide PhasesInOrder, Within, CONTRACTS, MAINNET_NAMING_BYTECODE_CHANGES, MAINNET_NAMING_STORAGE_CHANGES,
         DEVNET_TOKENS_ADDRESSES, TESTNET_TOKENS_ADDRESSES, MAINNET_TOKENS_ADDRESSES, ToProxies;
    ContractLists();
    var upgrades := Holocene.TokenUpgrades(Holocene.TokenAddresses(chainId));
    var patches, writes := Holocene.Patches(Holocene.NamingPatches(chainId)),
                           Holocene.Writes(Holocene.NamingWrites(chainId));
    UpgradesPhase(Holocene.TokenAddresses(chainId), 2);
    SinglePhase(upgrades, 2);
    SinglePhase(patches, 3);
    SinglePhase(writes, 4);
    PhasesAppend(upgrades, patches, 2, 3, 4);
    PhasesAppend(upgrades + patches, writes, 2, 4, 5);
  }

  lemma NoPhase(lo: nat, hi: nat)
    ensures PhasesInOrder([]) && Within([], lo, hi)
  {
  }

  lemma BlockPhases(spec: ChainSpec, timestamp: U64, bytecode: Bytes)
    ensures PhasesInOrder(PreExecutionChanges(spec, timestamp, bytecode))
  {
    hide PhasesInOrder, Within, AtTransition, Holocene.HoloceneTable, ToProxies;
    NoPhase(0, 1);
    NoPhase(1, 2);
    NoPhase(2, 5);
    NoPhase(5, 6);
    var c, g := Canyon.CanyonChanges(spec, timestamp, bytecode), Granite.GraniteChanges(spec, timestamp);
    var h, i := Holocene.HoloceneChanges(spec, timestamp), Isthmus.IsthmusChanges(spec, timestamp);
    SinglePhase(c, 0);
    SinglePhase(g, 1);
    HolocenePhases(spec.chainId);
    UpgradesPhase(Isthmus.MAINNET_ORACLES_ADDRESSES, 5);
    SinglePhase(i, 5);
    PhasesAppend(c, g, 0, 1, 2);
    PhasesAppend(c + g, h, 0, 2, 5);
    PhasesAppend(c + g + h, i, 0, 5, 6);
  }

  // A step that stops does so within one phase: every earlier phase is complete, on the codes it
  // has seen, and no later one has begun.
  lemma StoppedStepIsInPhase(spec: ChainSpec, timestamp: U64, bytecode: Bytes, d: DbState) returns (phase: nat)
    requires !RunChanges(PreExecutionChanges(spec, timestamp, bytecode), d).outcome.Done?
    ensures var cs := PreExecutionChanges(spec, timestamp, bytecode);
            var w' := RunChanges(cs, d).db.world;
            && (forall i, p: nat, l :: 0 <= i < |cs| && InPhase(cs[i], p) && p < phase && WritesTo(cs[i], l) ==>
                  && InBounds(cs[i], Seen(cs, i, d))
                  && At(w', l) == CellAfter(cs[i], d.world, Seen(cs, i, d), l))
            && (forall i, p: nat, l :: 0 <= i < |cs| && InPhase(cs[i], p) && p > phase && WritesTo(cs[i], l) ==>
                  At(w', l) == At(d.world, l))
  {
    hide RunChanges, PreExecutionChanges, InPhase, Apply, WritesTo, ReadsFrom, At, CellAfter, InBounds, Tidy,
         Independent, Start, RunsAlone, SimultaneousAsSeen;
    var cs := PreExecutionChanges(spec, timestamp, bytecode);
    BlockIsIndependent(spec, timestamp, bytecode);
    BlockPhases(spec, timestamp, bytecode);
    var k := FailureKeepsPrefix(cs, d);
    assert cs[k] in cs;
    phase :| InPhase(cs[k], phase);
    var init, w' := cs[..k], RunChanges(cs, d).db.world;
    PrefixIndependent(cs, k);
    RunIsSimultaneous(init, d);
    forall i, p: nat, l | 0 <= i < |cs| && InPhase(cs[i], p) && p < phase && WritesTo(cs[i], l)
      ensures InBounds(cs[i], Seen(cs, i, d)) && At(w', l) == CellAfter(cs[i], d.world, Seen(cs, i, d), l)
    {
      if i == k {
        OnePhase(cs[k], p, phase);
      }
      assert i < k;
      PrefixSeen(cs, k, i, d);
      ActedAsSeen(init, i, d, w', l);
    }
    forall i, p: nat, l | 0 <= i < |cs| && InPhase(cs[i], p) && p > phase && WritesTo(cs[i], l)
      ensures At(w', l) == At(d.world, l)
    {
      if i == k {
        OnePhase(cs[k], p, phase);
      }
      assert i > k;
      NotYetWritten(cs, k, i, l);
      RunFrame(init, d, l);
    }
  }

  lemma PrefixIndependent(cs: seq<Change>, k: nat)
    requires k <= |cs| && AllIndependent(cs)
    ensures AllIndependent(cs[..k])
  {
    hide Independent;
  }

  lemma NotYetWritten(cs: seq<Change>, k: nat, i: nat, l: Location)
    requires k <= i < |cs| && AllIndependent(cs) && WritesTo(cs[i], l)
    ensures !WrittenBy(cs[..k], l)
  {
    hide WritesTo, ReadsFrom;
    forall j | 0 <= j < k ensures !WritesTo(cs[..k][j], l) {
      assert Independent(cs[j], cs[i]);
    }
  }

  lemma {:induction false} PrefixStart(cs: seq<Change>, k: nat, i: nat, d: DbState)
    requires i <= k <= |cs|
    ensures Start(cs[..k], i, d) == Start(cs, i, d)
  {
    hide ReadsOf;
    if i > 0 {
      PrefixStart(cs, k, i - 1, d);
    }
  }

  lemma PrefixSeen(cs: seq<Change>, k: nat, i: nat, d: DbState)
    requires i < k <= |cs|
    ensures Seen(cs[..k], i, d) == Seen(cs, i, d)
  {
    hide Start;
    PrefixStart(cs, k, i, d);
  }

  lemma ActedAsSeen(cs: seq<Change>, i: nat, d: DbState, w': World, l: Location)
    requires SimultaneousAsSeen(cs, d, w') && i < |cs| && WritesTo(cs[i], l)
    ensures InBounds(cs[i], Seen(cs, i, d)) && At(w', l) == CellAfter(cs[i], d.world, Seen(cs, i, d), l)
  {
    hide WritesTo, At, CellAfter, Seen, InBounds;
  }
}
