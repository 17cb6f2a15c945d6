/** What a fork's table means when it is carried out several times in a row. */
module TableRounds {
  import opened Primitives
  import opened ByteCodec
  import opened StateDb
  import opened Transitions
  import opened Simultaneity
  import opened LostLookups
  import opened ForkTables
  import opened ProxyLaws
  import opened PreExecution
  import Granite

  // The table carried out n times, one round after the other.
  function PerformedRounds(cs: seq<Change>, n: nat, w: World): World {
    if n == 0 then w else PerformedAll(cs, PerformedRounds(cs, n - 1, w))
  }

  predicate AllRoundsFit(cs: seq<Change>, n: nat, w: World) {
    n == 0 || (AllRoundsFit(cs, n - 1, w) && AllFit(cs, PerformedRounds(cs, n - 1, w)))
  }

  // The same, read off the world before the first round: from the second round on, an upgrade
  // patches the proxy's own code.
  ghost predicate RoundsFit(cs: seq<Change>, n: nat, w: World) {
    && (n >= 1 ==> EachFits(cs, w))
    && (n >= 2 ==> forall c :: c in cs && c.ProxyUpgrade? ==> InBounds(c, Code(w, PROXY)))
  }

  // The logic behind an upgraded contract after n rounds: its own code in the first round, the
  // proxy's code in any later one, each time with the token patched in.
  function LogicAfter(c: Change, n: nat, w: World): Bytes
    requires c.ProxyUpgrade? && InBounds(c, Code(w, if n == 1 then c.contract else PROXY))
  {
    SpliceAll(Code(w, if n == 1 then c.contract else PROXY), c.offsets, AddressBytes(c.token))
  }

  // What later rounds find: every upgraded contract with the proxy's code and pointing to its
  // derived address.
  ghost predicate Proxied(cs: seq<Change>, w: World, w': World) {
    && Code(w', PROXY) == Code(w, PROXY)
    && (forall c :: c in cs && c.ProxyUpgrade? ==> Code(w', c.contract) == Code(w, PROXY))
    && (forall c :: c in cs && c.ProxyUpgrade? ==>
          Slot(w', c.contract, PROXY_IMPLEMENTATION_SLOT) == c.implementation)
  }

  // Patched accounts keep the length of their code.
  ghost predicate SameLengths(cs: seq<Change>, w: World, w': World) {
    forall c :: c in cs && c.CodePatch? ==> |Code(w', c.address)| == |Code(w, c.address)|
  }

  // One round on any world.
  lemma OneRound(cs: seq<Change>, w: World)
    requires Tidy(cs) && EachFits(cs, w)
    ensures var w1 := PerformedAll(cs, w);
            && Simultaneous(cs, w, w1) && AllFit(cs, w) && Proxied(cs, w, w1) && SameLengths(cs, w, w1)
            && forall c :: c in cs && c.ProxyUpgrade? ==>
                 Fits(c, w) && Upgraded(c, w, w1) && Logic(w1, c.contract) == PatchedLogic(c, w)
  {
    hide Performed, PerformedAll, AllFit, Simultaneous, WritesTo, ReadsFrom, At, Fits, Listed, Identity, Logic, Code,
         SpliceAll, AddressBytes;
    var w1 := PerformedAll(cs, w);
    TidyIsIndependent(cs);
    SequentialIsSimultaneous(cs, w);
    UpgradesHold(cs, w, w1);
    UpgradesUseProxy(cs);
    ProxyKept(cs, w, w1);
    forall c | c in cs && c.CodePatch? ensures |Code(w1, c.address)| == |Code(w, c.address)| {
      PatchKeepsLength(cs, c, w, w1);
    }
  }

  lemma ProxyKept(cs: seq<Change>, w: World, w': World)
    requires Tidy(cs) && Simultaneous(cs, w, w')
    ensures Code(w', PROXY) == Code(w, PROXY)
  {
    hide Performed, CONTRACTS, PROXY, ImplementationAddress, Derived, UpgradeSlots;
    ContractsNotDerived();
    forall i | 0 <= i < |cs| ensures !WritesTo(cs[i], CodeAt(PROXY)) {
      assert cs[i] in cs && Listed(cs[i]);
      ImplementationIsDerived(Target(cs[i]));
    }
    assert !WrittenBy(cs, CodeAt(PROXY));
    assert At(w', CodeAt(PROXY)) == At(w, CodeAt(PROXY));
  }

  lemma PatchKeepsLength(cs: seq<Change>, c: Change, w: World, w': World)
    requires Simultaneous(cs, w, w') && c in cs && c.CodePatch? && Fits(c, w)
    ensures |Code(w', c.address)| == |Code(w, c.address)|
  {
    hide Performed, Splice;
    var i :| 0 <= i < |cs| && cs[i] == c;
    PerformedCell(c, w, CodeAt(c.address));
    assert WritesTo(cs[i], CodeAt(c.address));
    assert At(w', CodeAt(c.address)) == At(Performed(c, w), CodeAt(c.address));
  }

  // A later round fits exactly when the proxy's code is long enough for every upgrade.
  lemma LaterRoundFits(cs: seq<Change>, w: World, w': World)
    requires EachFits(cs, w) && Proxied(cs, w, w') && SameLengths(cs, w, w')
    ensures EachFits(cs, w') <==> forall c :: c in cs && c.ProxyUpgrade? ==> InBounds(c, Code(w, PROXY))
  {
    hide Code;
    forall c | c in cs
      ensures Fits(c, w') <==> c.ProxyUpgrade? ==> InBounds(c, Code(w, PROXY))
    {
      assert Fits(c, w) by {
        var i :| 0 <= i < |cs| && cs[i] == c;
      }
    }
    if EachFits(cs, w') {
      forall c | c in cs && c.ProxyUpgrade? ensures InBounds(c, Code(w, PROXY)) {
        var i :| 0 <= i < |cs| && cs[i] == c;
      }
    }
  }

  lemma ProxiedTransitive(cs: seq<Change>, w: World, w': World, w'': World)
    requires Proxied(cs, w, w') && Proxied(cs, w', w'')
    ensures Proxied(cs, w, w'')
    ensures SameLengths(cs, w, w') && SameLengths(cs, w', w'') ==> SameLengths(cs, w, w'')
  {
    hide Code;
  }

  // Any number of rounds: when they fit, and whose logic ends up behind the proxy.
  lemma {:induction false} RoundsSettle(cs: seq<Change>, n: nat, w: World)
    requires Tidy(cs)
    ensures AllRoundsFit(cs, n, w) <==> RoundsFit(cs, n, w)
    ensures n >= 1 && RoundsFit(cs, n, w) ==>
              && Proxied(cs, w, PerformedRounds(cs, n, w)) && SameLengths(cs, w, PerformedRounds(cs, n, w))
              && forall c :: c in cs && c.ProxyUpgrade? ==>
                   && InBounds(c, Code(w, if n == 1 then c.contract else PROXY))
                   && Logic(PerformedRounds(cs, n, w), c.contract) == LogicAfter(c, n, w)
  {
    hide Tidy, Code, Logic, PerformedAll, AllFit, EachFits, Proxied, SameLengths, Performed, Simultaneous, Upgraded,
         SpliceAll, AddressBytes, InBounds;
    if n >= 1 {
      var w' := PerformedRounds(cs, n - 1, w);
      RoundsSettle(cs, n - 1, w);
      TidyIsIndependent(cs);
      IndependentFit(cs, w');
      if n >= 2 && RoundsFit(cs, n - 1, w) {
        LaterRoundFits(cs, w, w');
      }
      if AllRoundsFit(cs, n, w) {
        OneRound(cs, w');
        LastRound(cs, n, w, w');
      }
    }
  }

  lemma LastRound(cs: seq<Change>, n: nat, w: World, w': World)
    requires n >= 1 && Tidy(cs) && RoundsFit(cs, n, w) && w' == PerformedRounds(cs, n - 1, w)
    requires n >= 2 ==> Proxied(cs, w, w') && SameLengths(cs, w, w')
    requires EachFits(cs, w') && Proxied(cs, w', PerformedRounds(cs, n, w))
    requires SameLengths(cs, w', PerformedRounds(cs, n, w))
    requires forall c :: c in cs && c.ProxyUpgrade? ==>
               Fits(c, w') && Logic(PerformedRounds(cs, n, w), c.contract) == PatchedLogic(c, w')
    ensures Proxied(cs, w, PerformedRounds(cs, n, w)) && SameLengths(cs, w, PerformedRounds(cs, n, w))
    ensures forall c :: c in cs && c.ProxyUpgrade? ==>
              && InBounds(c, Code(w, if n == 1 then c.contract else PROXY))
              && Logic(PerformedRounds(cs, n, w), c.contract) == LogicAfter(c, n, w)
  {
    hide Tidy, Code, Logic, PerformedAll, SpliceAll, AddressBytes;
    if n >= 2 {
      ProxiedTransitive(cs, w, w', PerformedRounds(cs, n, w));
    }
  }

  // ---------- Rounds that lose lookups ----------

  // In round k the codes of the accounts in losses[k] are seen as empty.
  function LossyRounds(cs: seq<Change>, losses: seq<set<Address>>, w: World): World {
    if losses == [] then w
    else
      var n := |losses| - 1;
      PerformedAll(cs, Emptied(LossyRounds(cs, losses[..n], w), losses[n]))
  }

  predicate AllLossyFit(cs: seq<Change>, losses: seq<set<Address>>, w: World) {
    losses == [] ||
    (var n := |losses| - 1;
     AllLossyFit(cs, losses[..n], w) && AllFit(cs, Emptied(LossyRounds(cs, losses[..n], w), losses[n])))
  }

  lemma OneMoreLossyRound(cs: seq<Change>, losses: seq<set<Address>>, lost: set<Address>, w: World)
    ensures var v := Emptied(LossyRounds(cs, losses, w), lost);
            && LossyRounds(cs, losses + [lost], w) == PerformedAll(cs, v)
            && (AllLossyFit(cs, losses + [lost], w) <==> AllLossyFit(cs, losses, w) && AllFit(cs, v))
  {
    hide PerformedAll, AllFit, Emptied;
    assert (losses + [lost])[..|losses|] == losses;
  }

  // The code an upgrade has seen in the last round.
  function LastSeen(c: Change, losses: seq<set<Address>>, w: World): Bytes
    requires c.ProxyUpgrade? && losses != []
  {
    if c.contract in losses[|losses| - 1] then [] else Code(w, if |losses| == 1 then c.contract else PROXY)
  }

  // Only the last round decides on the logic behind an upgraded contract.
  lemma {:induction false} LossyRoundsSettle(cs: seq<Change>, losses: seq<set<Address>>, w: World)
    requires Tidy(cs) && AllLossyFit(cs, losses, w) && losses != []
    requires forall k :: 0 <= k < |losses| ==> PROXY !in losses[k]
    ensures Proxied(cs, w, LossyRounds(cs, losses, w))
    ensures forall c :: c in cs && c.ProxyUpgrade? ==>
              && Fits(c, w) && InBounds(c, LastSeen(c, losses, w))
              && Logic(LossyRounds(cs, losses, w), c.contract) ==
                 SpliceAll(LastSeen(c, losses, w), c.offsets, AddressBytes(c.token))
  {
    hide Tidy, Code, Logic, PerformedAll, AllFit, EachFits, Performed, Simultaneous, Upgraded, SpliceAll, SameLengths,
         AddressBytes, InBounds, Emptied, PROXY;
    var n := |losses| - 1;
    var v := LossyRounds(cs, losses[..n], w);
    var u := Emptied(v, losses[n]);
    TidyIsIndependent(cs);
    IndependentFit(cs, u);
    OneRound(cs, u);
    EmptiedCells(v, losses[n]);
    if n > 0 {
      LossyRoundsSettle(cs, losses[..n], w);
    }
    forall c | c in cs && c.ProxyUpgrade?
      ensures Fits(c, w) && Code(u, c.contract) == LastSeen(c, losses, w)
    {
      if n == 0 && c.contract in losses[0] {
        EmptyFits(c, Code(w, c.contract));
      }
    }
  }

  lemma {:induction false} NothingLostInRounds(cs: seq<Change>, losses: seq<set<Address>>, w: World)
    requires forall k :: 0 <= k < |losses| ==> losses[k] == {}
    ensures LossyRounds(cs, losses, w) == PerformedRounds(cs, |losses|, w)
    ensures AllLossyFit(cs, losses, w) <==> AllRoundsFit(cs, |losses|, w)
  {
    hide PerformedAll, AllFit, Emptied;
    if losses != [] {
      var n := |losses| - 1;
      NothingLostInRounds(cs, losses[..n], w);
      EmptiedCells(LossyRounds(cs, losses[..n], w), losses[n]);
    }
  }

  // ---------- Granite twice ----------

  // Granite's table patches again in every later round: it fits if and only if the proxy's code is
  // long enough as well, and then leaves the token in that code's windows and no logic of frax.
  lemma SecondGranite(chainId: U64, n: nat, w: World)
    requires n >= 2
    ensures var table := Granite.GraniteTable(chainId);
            RoundsFit(table, n, w) <==>
            && |Code(w, Granite.FRAX_ADDR)| >= FraxLength(chainId)
            && |Code(w, Granite.SFRAX_ADDR)| >= SfraxLength(chainId)
            && |Code(w, PROXY)| >= FraxLength(chainId)
    ensures forall c :: c in Granite.GraniteTable(chainId) && InBounds(c, Code(w, PROXY)) ==>
              CarriesToken(c, Code(w, PROXY), LogicAfter(c, n, w))
  {
    hide Code, AddressBytes, SpliceAll, EachFits, CarriesToken;
    var table := Granite.GraniteTable(chainId);
    GraniteFitsIff(chainId, w);
    forall c | c in table
      ensures InBounds(c, Code(w, PROXY)) <==> |Code(w, PROXY)| >= FraxLength(chainId)
      ensures InBounds(c, Code(w, PROXY)) ==> CarriesToken(c, Code(w, PROXY), LogicAfter(c, n, w))
    {
      GraniteBounds(chainId, c, Code(w, PROXY));
      if InBounds(c, Code(w, PROXY)) {
        SplicedCarriesToken(c, Code(w, PROXY));
      }
    }
    assert table[0] in table;
  }

  lemma GraniteBounds(chainId: U64, c: Change, code: Bytes)
    requires c in Granite.GraniteTable(chainId)
    ensures InBounds(c, code) <==> |code| >= FraxLength(chainId)
    ensures WindowsDisjoint(c.offsets, 20)
  {
    LastOffset(c, |code|);
  }
}
