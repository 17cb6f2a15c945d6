/** The migrations over a chain of blocks with transactions in between: how often each fork's table
    runs, and what is left of the contracts it upgrades. */
module ChainMigration {
  import opened Primitives
  import opened ByteCodec
  import opened StateDb
  import opened Transitions
  import opened Simultaneity
  import opened LostLookups
  import opened Commutation
  import opened Hardforks
  import opened ForkGate
  import opened ForkTables
  import opened HoloceneConstants
  import opened ProxyLaws
  import opened PreExecution
  import opened TableRounds
  import Granite
  import Holocene
  import Isthmus

  datatype Fork = CanyonFork | GraniteFork | HoloceneFork | IsthmusFork

  function Activation(spec: ChainSpec, f: Fork): ForkActivation {
    match f
    case CanyonFork => spec.canyon
    case GraniteFork => spec.granite
    case HoloceneFork => spec.holocene
    case IsthmusFork => spec.isthmus
  }

  function Table(spec: ChainSpec, bytecode: Bytes, f: Fork): seq<Change> {
    match f
    case CanyonFork => CanyonTable(bytecode)
    case GraniteFork => Granite.GraniteTable(spec.chainId)
    case HoloceneFork => Holocene.HoloceneTable(spec.chainId)
    case IsthmusFork => Isthmus.IsthmusTable(spec.chainId)
  }

  lemma TableIsTidy(spec: ChainSpec, bytecode: Bytes, f: Fork)
    ensures Tidy(Table(spec, bytecode, f)) && AllIndependent(Table(spec, bytecode, f))
  {
    hide Tidy, CanyonTable, Granite.GraniteTable, Holocene.HoloceneTable, Isthmus.IsthmusTable;
    TidyCanyon(bytecode);
    TidyGranite(spec.chainId);
    TidyHolocene(spec.chainId);
    TidyIsthmus(spec.chainId);
    TidyIsIndependent(Table(spec, bytecode, f));
  }

  lemma TablesApart(spec: ChainSpec, bytecode: Bytes, f: Fork, g: Fork)
    requires f != g
    ensures CrossIndependent(Table(spec, bytecode, f), Table(spec, bytecode, g))
  {
    hide Identity, Listed, Independent, CanyonTable, Granite.GraniteTable, Holocene.HoloceneTable,
         Isthmus.IsthmusTable;
    var cs, ds := Table(spec, bytecode, f), Table(spec, bytecode, g);
    ApartFromCanyon(spec.chainId, bytecode);
    ApartAmongContracts(spec.chainId);
    TableIsTidy(spec, bytecode, f);
    TableIsTidy(spec, bytecode, g);
    forall c, d | c in cs && d in ds ensures Independent(c, d) {
      assert Apart(cs, ds) || Apart(ds, cs);
      DifferentListedItems(c, d);
    }
  }

  // ---------- Running blocks ----------

  // Each block runs its migrations and then, here as any transformation of the world, what happens
  // until the next block's migrations: its transactions, its end, the next block's system calls.
  function RunChain(spec: ChainSpec, bytecode: Bytes, chain: seq<U64>, bodies: seq<World -> World>, d: DbState): Run
    requires |bodies| == |chain|
  {
    if chain == [] then Run(d, Done)
    else
      var n := |chain| - 1;
      var before := RunChain(spec, bytecode, chain[..n], bodies[..n], d);
      if !before.outcome.Done? then before
      else
        var block := RunChanges(PreExecutionChanges(spec, chain[n], bytecode), before.db);
        if !block.outcome.Done? then block
        else Run(block.db.(world := bodies[n](block.db.world)), Done)
  }

  // For every block in which the fork's gate is open, the accounts whose code lookup that block's
  // migrations lost.
  function Losses(spec: ChainSpec, bytecode: Bytes, chain: seq<U64>, bodies: seq<World -> World>, d: DbState, f: Fork)
    : (r: seq<set<Address>>)
    requires |bodies| == |chain|
    ensures |r| == Firings(Activation(spec, f), chain)
  {
    if chain == [] then []
    else
      var n := |chain| - 1;
      var earlier := Losses(spec, bytecode, chain[..n], bodies[..n], d, f);
      var before := RunChain(spec, bytecode, chain[..n], bodies[..n], d);
      if AtTransition(Activation(spec, f), chain[n])
      then earlier + [Lost(PreExecutionChanges(spec, chain[n], bytecode), before.db)]
      else earlier
  }

  ghost predicate NoneLost(losses: seq<set<Address>>) {
    forall k :: 0 <= k < |losses| ==> losses[k] == {}
  }

  // A chain may be cut anywhere: its second part starts where the first one ended.
  lemma {:induction false} RunChainSplit(spec: ChainSpec, bytecode: Bytes, chain: seq<U64>, more: seq<U64>,
                                         bodies: seq<World -> World>, moreBodies: seq<World -> World>, d: DbState)
    requires |bodies| == |chain| && |moreBodies| == |more|
    ensures RunChain(spec, bytecode, chain + more, bodies + moreBodies, d) ==
            var first := RunChain(spec, bytecode, chain, bodies, d);
            if first.outcome.Done? then RunChain(spec, bytecode, more, moreBodies, first.db) else first
  {
    hide RunChanges, PreExecutionChanges;
    var n := |more| - 1;
    if more == [] {
      assert chain + more == chain && bodies + moreBodies == bodies;
    } else {
      assert (chain + more)[..|chain| + n] == chain + more[..n];
      assert (bodies + moreBodies)[..|chain| + n] == bodies + moreBodies[..n];
      RunChainSplit(spec, bytecode, chain, more[..n], bodies, moreBodies[..n], d);
    }
  }

  // ---------- The cells a fork's table uses ----------

  ghost predicate Touched(cs: seq<Change>, l: Location) {
    exists i :: 0 <= i < |cs| && (WritesTo(cs[i], l) || ReadsFrom(cs[i], l))
  }

  ghost predicate AgreeOn(cs: seq<Change>, w: World, w': World) {
    w.keccak == w'.keccak && forall l :: Touched(cs, l) ==> Alike(w, w', l)
  }

  // The transactions of a block leave the cells the table uses alone. They may change anything
  // else, deploy contracts, and move any funds.
  ghost predicate LeavesAlone(body: World -> World, cs: seq<Change>) {
    forall w :: AgreeOn(cs, w, body(w))
  }

  ghost predicate AllLeaveAlone(bodies: seq<World -> World>, cs: seq<Change>) {
    forall i :: 0 <= i < |bodies| ==> LeavesAlone(bodies[i], cs)
  }

  lemma AgreeReflexive(cs: seq<Change>, w: World)
    ensures AgreeOn(cs, w, w)
  {
  }

  lemma AgreeTransitive(cs: seq<Change>, w: World, w': World, w'': World)
    requires AgreeOn(cs, w, w') && AgreeOn(cs, w', w'')
    ensures AgreeOn(cs, w, w'')
  {
    hide Touched, At;
  }

  // A list run on two worlds that agree on the cells it uses fits both or neither, and leaves
  // them in agreement.
  lemma {:induction false} OwnTable(cs: seq<Change>, run: seq<Change>, w: World, w': World)
    requires AgreeOn(cs, w, w') && forall c :: c in run ==> c in cs
    ensures AllFit(run, w) <==> AllFit(run, w')
    ensures AllFit(run, w) ==> AgreeOn(cs, PerformedAll(run, w), PerformedAll(run, w'))
  {
    hide Performed, WritesTo, ReadsFrom, Fits, At, Alike;
    if run != [] {
      var c := run[0];
      assert c in run && c in cs;
      var i :| 0 <= i < |cs| && cs[i] == c;
      assert forall l :: WritesTo(c, l) || ReadsFrom(c, l) ==> Touched(cs, l);
      SameInputs(c, w, w');
      if Fits(c, w) {
        PerformedKeepsLibrary(c, w);
        PerformedKeepsLibrary(c, w');
        forall l | Touched(cs, l) ensures Alike(Performed(c, w), Performed(c, w'), l) {
          if WritesTo(c, l) {
            PerformedLocal(c, w, w', l);
          } else {
            UnwrittenAlike(c, w, w', l);
          }
        }
        OwnTable(cs, run[1..], Performed(c, w), Performed(c, w'));
      }
    }
  }

  lemma UnwrittenAlike(c: Change, w: World, w': World, l: Location)
    requires Alike(w, w', l) && !WritesTo(c, l)
    ensures Alike(Performed(c, w), Performed(c, w'), l)
  {
    hide Performed, WritesTo;
    PerformedFrame(c, w, l);
    PerformedFrame(c, w', l);
    PerformedKeepsLibrary(c, w);
    PerformedKeepsLibrary(c, w');
  }

  // Another fork's table does not touch them.
  lemma {:induction false} ForeignTable(cs: seq<Change>, ds: seq<Change>, w: World)
    requires CrossIndependent(cs, ds)
    ensures AgreeOn(cs, w, PerformedAll(ds, w))
  {
    hide Performed, WritesTo, ReadsFrom, At, AgreeOn;
    if ds == [] {
      AgreeReflexive(cs, w);
    } else {
      var d, rest := ds[0], ds[1..];
      ForeignItem(cs, d, w);
      ForeignTable(cs, rest, Performed(d, w));
      AgreeTransitive(cs, w, Performed(d, w), PerformedAll(ds, w));
    }
  }

  lemma ForeignItem(cs: seq<Change>, d: Change, w: World)
    requires forall c :: c in cs ==> Independent(c, d)
    ensures AgreeOn(cs, w, Performed(d, w))
  {
    hide Performed, WritesTo, ReadsFrom, At;
    PerformedKeepsLibrary(d, w);
    forall l | Touched(cs, l) ensures Alike(w, Performed(d, w), l) {
      var i :| 0 <= i < |cs| && (WritesTo(cs[i], l) || ReadsFrom(cs[i], l));
      assert Independent(cs[i], d);
      PerformedFrame(d, w, l);
      SameIsAlike(w, Performed(d, w), l);
    }
  }

  // ---------- One fork's view of a block ----------

  // What fork f contributes to a part of a block that runs g's table or nothing.
  function Own(spec: ChainSpec, bytecode: Bytes, f: Fork, g: Fork, fires: bool): seq<Change> {
    Chosen(f == g && fires, Table(spec, bytecode, f))
  }

  lemma TrackPart(spec: ChainSpec, bytecode: Bytes, f: Fork, g: Fork, fires: bool, w: World, w': World)
    requires AgreeOn(Table(spec, bytecode, f), w, w')
    ensures var part, own := Chosen(fires, Table(spec, bytecode, g)), Own(spec, bytecode, f, g, fires);
            AllFit(part, w') ==>
              AllFit(own, w) && AgreeOn(Table(spec, bytecode, f), PerformedAll(own, w), PerformedAll(part, w'))
  {
    hide AgreeOn, AllFit, PerformedAll, CrossIndependent;
    var cs, part := Table(spec, bytecode, f), Chosen(fires, Table(spec, bytecode, g));
    hide Table;
    NothingPerformed(w);
    if f == g {
      OwnTable(cs, part, w, w');
    } else {
      TablesApart(spec, bytecode, f, g);
      EmptyIsApart(cs);
      ForeignTable(cs, part, w');
      AgreeTransitive(cs, w, w', PerformedAll(part, w'));
    }
  }

  lemma EmptyIsApart(cs: seq<Change>)
    ensures CrossIndependent(cs, [])
  {
  }

  lemma NothingPerformed(w: World)
    ensures PerformedAll([], w) == w && AllFit([], w)
  {
  }

  // To fork f a whole block is its own table, or nothing when its gate is shut.
  lemma TrackBlock(spec: ChainSpec, timestamp: U64, bytecode: Bytes, f: Fork, w: World, w': World)
    requires AgreeOn(Table(spec, bytecode, f), w, w')
    requires AllFit(PreExecutionChanges(spec, timestamp, bytecode), w')
    ensures var own := Chosen(AtTransition(Activation(spec, f), timestamp), Table(spec, bytecode, f));
            && AllFit(own, w)
            && AgreeOn(Table(spec, bytecode, f), PerformedAll(own, w),
                       PerformedAll(PreExecutionChanges(spec, timestamp, bytecode), w'))
  {
    var t1, t2 := AtTransition(spec.canyon, timestamp), AtTransition(spec.granite, timestamp);
    var t3, t4 := AtTransition(spec.holocene, timestamp), AtTransition(spec.isthmus, timestamp);
    var c, g := Chosen(t1, Table(spec, bytecode, CanyonFork)), Chosen(t2, Table(spec, bytecode, GraniteFork));
    var h, i := Chosen(t3, Table(spec, bytecode, HoloceneFork)), Chosen(t4, Table(spec, bytecode, IsthmusFork));
    BlockInParts(spec, timestamp, bytecode);
    hide AgreeOn, AllFit, PerformedAll, Table, AtTransition, PreExecutionChanges;
    PerformedConcat(c + g + h, i, w');
    PerformedConcat(c + g, h, w');
    PerformedConcat(c, g, w');
    var w1' := PerformedAll(c, w');
    var w2' := PerformedAll(g, w1');
    var w3' := PerformedAll(h, w2');
    var w1 := PerformedAll(Own(spec, bytecode, f, CanyonFork, t1), w);
    var w2 := PerformedAll(Own(spec, bytecode, f, GraniteFork, t2), w1);
    var w3 := PerformedAll(Own(spec, bytecode, f, HoloceneFork, t3), w2);
    TrackPart(spec, bytecode, f, CanyonFork, t1, w, w');
    TrackPart(spec, bytecode, f, GraniteFork, t2, w1, w1');
    TrackPart(spec, bytecode, f, HoloceneFork, t3, w2, w2');
    TrackPart(spec, bytecode, f, IsthmusFork, t4, w3, w3');
    NothingPerformed(w);
    NothingPerformed(w1);
    NothingPerformed(w2);
    NothingPerformed(w3);
  }

  lemma BlockInParts(spec: ChainSpec, timestamp: U64, bytecode: Bytes)
    ensures PreExecutionChanges(spec, timestamp, bytecode) ==
            Chosen(AtTransition(spec.canyon, timestamp), Table(spec, bytecode, CanyonFork))
            + Chosen(AtTransition(spec.granite, timestamp), Table(spec, bytecode, GraniteFork))
            + Chosen(AtTransition(spec.holocene, timestamp), Table(spec, bytecode, HoloceneFork))
            + Chosen(AtTransition(spec.isthmus, timestamp), Table(spec, bytecode, IsthmusFork))
  {
    hide AtTransition, PreExecutionChanges, CanyonTable, Granite.GraniteTable, Holocene.HoloceneTable,
         Isthmus.IsthmusTable;
    FiredTables(spec, timestamp, bytecode);
  }

  // ---------- One fork's view of a chain ----------

  lemma BlockApart(spec: ChainSpec, timestamp: U64, bytecode: Bytes, f: Fork)
    requires !AtTransition(Activation(spec, f), timestamp)
    ensures CrossIndependent(Table(spec, bytecode, f), PreExecutionChanges(spec, timestamp, bytecode))
  {
    BlockInParts(spec, timestamp, bytecode);
    hide AtTransition, Table, PreExecutionChanges, Independent;
    forall g | g != f ensures CrossIndependent(Table(spec, bytecode, f), Table(spec, bytecode, g)) {
      TablesApart(spec, bytecode, f, g);
    }
    var cs := Table(spec, bytecode, f);
    assert CrossIndependent(cs, Chosen(AtTransition(spec.canyon, timestamp), Table(spec, bytecode, CanyonFork)));
    assert CrossIndependent(cs, Chosen(AtTransition(spec.granite, timestamp), Table(spec, bytecode, GraniteFork)));
    assert CrossIndependent(cs, Chosen(AtTransition(spec.holocene, timestamp), Table(spec, bytecode, HoloceneFork)));
    assert CrossIndependent(cs, Chosen(AtTransition(spec.isthmus, timestamp), Table(spec, bytecode, IsthmusFork)));
  }

  // A run of foreign items changes none of the table's cells, whatever reads fail.
  lemma ForeignRun(cs: seq<Change>, ds: seq<Change>, d: DbState)
    requires CrossIndependent(cs, ds)
    ensures AgreeOn(cs, d.world, RunChanges(ds, d).db.world)
  {
    hide RunChanges, WritesTo, ReadsFrom, At, Alike;
    RunKeepsLibrary(ds, d);
    forall l | Touched(cs, l) ensures Alike(d.world, RunChanges(ds, d).db.world, l) {
      var i :| 0 <= i < |cs| && (WritesTo(cs[i], l) || ReadsFrom(cs[i], l));
      forall j | 0 <= j < |ds| ensures !WritesTo(ds[j], l) {
        assert Independent(cs[i], ds[j]);
      }
      RunFrame(ds, d, l);
      SameIsAlike(d.world, RunChanges(ds, d).db.world, l);
    }
  }

  lemma EmptiedAgree(cs: seq<Change>, w: World, w': World, lost: set<Address>)
    requires AgreeOn(cs, w, w')
    ensures AgreeOn(cs, Emptied(w, lost), Emptied(w', lost))
  {
    hide Touched;
    EmptiedCells(w, lost);
    EmptiedCells(w', lost);
    forall l | Touched(cs, l) ensures Alike(Emptied(w, lost), Emptied(w', lost), l) {
      assert Alike(w, w', l);
    }
  }

  lemma SameAgrees(cs: seq<Change>, w: World, w': World)
    requires Same(w, w')
    ensures AgreeOn(cs, w, w') && AgreeOn(cs, w', w)
  {
    hide At, Touched;
    forall l ensures Alike(w, w', l) && Alike(w', w, l) {
      SameIsAlike(w, w', l);
      SameIsAlike(w', w, l);
    }
  }

  // A block in which the gate opens is one round of the table, on a world in which the codes it
  // fails to look up are empty.
  lemma FiringBlock(spec: ChainSpec, timestamp: U64, bytecode: Bytes, f: Fork, w: World, d: DbState)
    requires AtTransition(Activation(spec, f), timestamp) && AgreeOn(Table(spec, bytecode, f), w, d.world)
    requires RunChanges(PreExecutionChanges(spec, timestamp, bytecode), d).outcome.Done?
    ensures var cs, block := Table(spec, bytecode, f), PreExecutionChanges(spec, timestamp, bytecode);
            var v := Emptied(w, Lost(block, d));
            && AllFit(cs, v) && AgreeOn(cs, PerformedAll(cs, v), RunChanges(block, d).db.world)
            && PROXY !in Lost(block, d)
  {
    hide Table, Activation, PreExecutionChanges, RunChanges, AllFit, PerformedAll, AgreeOn, Emptied, Lost, Tidy, Same,
         AllIndependent, ProxiesElsewhere, AtTransition, EachFits;
    var cs, block := Table(spec, bytecode, f), PreExecutionChanges(spec, timestamp, bytecode);
    BlockIsIndependent(spec, timestamp, bytecode);
    UpgradesUseProxy(block);
    ProxyNeverLost(block, d);
    LostRun(block, d);
    var v, v' := Emptied(w, Lost(block, d)), Emptied(d.world, Lost(block, d));
    EmptiedAgree(cs, w, d.world, Lost(block, d));
    TrackBlock(spec, timestamp, bytecode, f, v, v');
    SameAgrees(cs, RunChanges(block, d).db.world, PerformedAll(block, v'));
    AgreeTransitive(cs, PerformedAll(cs, v), PerformedAll(block, v'), RunChanges(block, d).db.world);
  }

  // On the cells its table uses, whatever the other forks do and whatever reads fail, a chain that
  // runs through means to a fork its own table, carried out once for every block in which its gate
  // is open, each time with the lost codes seen as empty.
  lemma {:induction false} ChainTracksFork(spec: ChainSpec, bytecode: Bytes, chain: seq<U64>,
                                           bodies: seq<World -> World>, d: DbState, f: Fork)
    requires |bodies| == |chain| && AllLeaveAlone(bodies, Table(spec, bytecode, f))
    requires RunChain(spec, bytecode, chain, bodies, d).outcome.Done?
    ensures var cs, losses := Table(spec, bytecode, f), Losses(spec, bytecode, chain, bodies, d, f);
            && AllLossyFit(cs, losses, d.world) && (forall k :: 0 <= k < |losses| ==> PROXY !in losses[k])
            && AgreeOn(cs, LossyRounds(cs, losses, d.world), RunChain(spec, bytecode, chain, bodies, d).db.world)
  {
    hide Table, Activation, PreExecutionChanges, RunChanges, AllFit, PerformedAll, AtTransition,
         AgreeOn, LeavesAlone, Emptied, Lost, Firings;
    var cs := Table(spec, bytecode, f);
    if chain == [] {
      AgreeReflexive(cs, d.world);
    } else {
      var n := |chain| - 1;
      var block, losses := PreExecutionChanges(spec, chain[n], bytecode), Losses(spec, bytecode, chain, bodies, d, f);
      var before := RunChain(spec, bytecode, chain[..n], bodies[..n], d).db;
      var earlier := Losses(spec, bytecode, chain[..n], bodies[..n], d, f);
      var ran := RunChanges(block, before).db.world;
      ChainTracksFork(spec, bytecode, chain[..n], bodies[..n], d, f);
      var w := LossyRounds(cs, earlier, d.world);
      if AtTransition(Activation(spec, f), chain[n]) {
        FiringBlock(spec, chain[n], bytecode, f, w, before);
        OneMoreLossyRound(cs, earlier, Lost(block, before), d.world);
      } else {
        BlockApart(spec, chain[n], bytecode, f);
        ForeignRun(cs, block, before);
        AgreeTransitive(cs, w, before.world, ran);
      }
      BodyAgrees(cs, bodies[n], ran);
      AgreeTransitive(cs, LossyRounds(cs, losses, d.world), ran, bodies[n](ran));
    }
  }

  // With nothing lost these are the plain rounds.
  lemma ChainTracksRounds(spec: ChainSpec, bytecode: Bytes, chain: seq<U64>, bodies: seq<World -> World>,
                          d: DbState, f: Fork)
    requires |bodies| == |chain| && AllLeaveAlone(bodies, Table(spec, bytecode, f))
    requires RunChain(spec, bytecode, chain, bodies, d).outcome.Done?
    requires NoneLost(Losses(spec, bytecode, chain, bodies, d, f))
    ensures var cs, n := Table(spec, bytecode, f), Firings(Activation(spec, f), chain);
            && AllRoundsFit(cs, n, d.world)
            && AgreeOn(cs, PerformedRounds(cs, n, d.world), RunChain(spec, bytecode, chain, bodies, d).db.world)
  {
    hide Table, AgreeOn, RunChain, Losses, AllLeaveAlone, LossyRounds, AllLossyFit;
    ChainTracksFork(spec, bytecode, chain, bodies, d, f);
    NothingLostInRounds(Table(spec, bytecode, f), Losses(spec, bytecode, chain, bodies, d, f), d.world);
  }

  lemma BodyAgrees(cs: seq<Change>, body: World -> World, w: World)
    requires LeavesAlone(body, cs)
    ensures AgreeOn(cs, w, body(w))
  {
    hide AgreeOn;
  }

  // ---------- When a chain runs through ----------

  lemma ChosenFit(spec: ChainSpec, bytecode: Bytes, canyon: bool, granite: bool, holocene: bool, isthmus: bool,
                  w: World)
    ensures EachFits(ChosenTables(spec.chainId, bytecode, canyon, granite, holocene, isthmus), w) <==>
            && (canyon ==> EachFits(Table(spec, bytecode, CanyonFork), w))
            && (granite ==> EachFits(Table(spec, bytecode, GraniteFork), w))
            && (holocene ==> EachFits(Table(spec, bytecode, HoloceneFork), w))
            && (isthmus ==> EachFits(Table(spec, bytecode, IsthmusFork), w))
  {
    hide CanyonTable, Granite.GraniteTable, Holocene.HoloceneTable, Isthmus.IsthmusTable, Fits;
    var c := Chosen(canyon, Table(spec, bytecode, CanyonFork));
    var g := Chosen(granite, Table(spec, bytecode, GraniteFork));
    var h := Chosen(holocene, Table(spec, bytecode, HoloceneFork));
    var i := Chosen(isthmus, Table(spec, bytecode, IsthmusFork));
    EachFitsConcat(c + g + h, i, w);
    EachFitsConcat(c + g, h, w);
    EachFitsConcat(c, g, w);
  }

  lemma BlockFits(spec: ChainSpec, timestamp: U64, bytecode: Bytes, w: World)
    ensures AllFit(PreExecutionChanges(spec, timestamp, bytecode), w) <==>
            forall f :: AtTransition(Activation(spec, f), timestamp) ==> AllFit(Table(spec, bytecode, f), w)
  {
    hide PreExecutionChanges, AtTransition, Table, AllFit, AllIndependent, Tidy, EachFits, ChosenTables;
    BlockIsIndependent(spec, timestamp, bytecode);
    IndependentFit(PreExecutionChanges(spec, timestamp, bytecode), w);
    FiredTables(spec, timestamp, bytecode);
    ChosenFit(spec, bytecode, AtTransition(spec.canyon, timestamp), AtTransition(spec.granite, timestamp),
              AtTransition(spec.holocene, timestamp), AtTransition(spec.isthmus, timestamp), w);
    forall f ensures AllFit(Table(spec, bytecode, f), w) <==> EachFits(Table(spec, bytecode, f), w) {
      TableIsTidy(spec, bytecode, f);
      IndependentFit(Table(spec, bytecode, f), w);
    }
    AllForks(f => AtTransition(Activation(spec, f), timestamp) ==> AllFit(Table(spec, bytecode, f), w));
  }

  lemma AllForks(p: Fork -> bool)
    ensures (forall f :: p(f)) <==> p(CanyonFork) && p(GraniteFork) && p(HoloceneFork) && p(IsthmusFork)
  {
    if p(CanyonFork) && p(GraniteFork) && p(HoloceneFork) && p(IsthmusFork) {
      forall f: Fork ensures p(f) {
        match f
        case CanyonFork =>
        case GraniteFork =>
        case HoloceneFork =>
        case IsthmusFork =>
      }
    }
  }

  // The fit conditions of all forks, read off the world before the chain.
  ghost predicate ForksFit(spec: ChainSpec, bytecode: Bytes, chain: seq<U64>, w: World) {
    forall f :: RoundsFit(Table(spec, bytecode, f), Firings(Activation(spec, f), chain), w)
  }

  // The transactions leave alone what the forks use whose gate opens in the chain.
  ghost predicate TransactionsLeaveAlone(spec: ChainSpec, bytecode: Bytes, chain: seq<U64>,
                                         bodies: seq<World -> World>)
  {
    forall f :: Firings(Activation(spec, f), chain) > 0 ==> AllLeaveAlone(bodies, Table(spec, bytecode, f))
  }

  // Without failing reads a chain runs through exactly when every fork's patched ranges lie in
  // bounds: in the contracts' own codes the first time, in the proxy's code any later time.
  // Otherwise it panics.
  lemma {:induction false} ChainOutcome(spec: ChainSpec, bytecode: Bytes, chain: seq<U64>,
                                        bodies: seq<World -> World>, d: DbState)
    requires d.FaultFree() && |bodies| == |chain| && TransactionsLeaveAlone(spec, bytecode, chain, bodies)
    ensures forall f :: NoneLost(Losses(spec, bytecode, chain, bodies, d, f))
    ensures var r := RunChain(spec, bytecode, chain, bodies, d);
            r.db.FaultFree() && r.outcome == if ForksFit(spec, bytecode, chain, d.world) then Done else OutOfBounds
  {
    hide Table, Activation, PreExecutionChanges, RunChanges, AllFit, PerformedAll, Lost, RoundsFit,
         AllLeaveAlone, DbState.FaultFree, AtTransition;
    if chain == [] {
      forall f ensures RoundsFit(Table(spec, bytecode, f), Firings(Activation(spec, f), chain), d.world) {
        NoRoundsFit(Table(spec, bytecode, f), d.world);
      }
    } else {
      var n := |chain| - 1;
      var before := RunChain(spec, bytecode, chain[..n], bodies[..n], d);
      var block := PreExecutionChanges(spec, chain[n], bytecode);
      forall f | Firings(Activation(spec, f), chain[..n]) > 0
        ensures AllLeaveAlone(bodies[..n], Table(spec, bytecode, f))
      {
        PrefixLeavesAlone(bodies, Table(spec, bytecode, f), n);
      }
      ChainOutcome(spec, bytecode, chain[..n], bodies[..n], d);
      NothingLost(block, before.db);
      if before.outcome.Done? {
        FaultFreeRun(block, before.db);
        LastBlockFits(spec, bytecode, chain, bodies, d);
        KeepsFaultFree(RunChanges(block, before.db).db, bodies[n]);
      } else if ForksFit(spec, bytecode, chain, d.world) {
        EarlierRoundsFit(spec, bytecode, chain, d.world);
      }
    }
  }

  lemma NoRoundsFit(cs: seq<Change>, w: World)
    ensures RoundsFit(cs, 0, w)
  {
  }

  lemma PrefixLeavesAlone(bodies: seq<World -> World>, cs: seq<Change>, n: nat)
    requires n <= |bodies| && AllLeaveAlone(bodies, cs)
    ensures AllLeaveAlone(bodies[..n], cs)
  {
    hide LeavesAlone;
  }

  lemma KeepsFaultFree(d: DbState, body: World -> World)
    requires d.FaultFree()
    ensures d.(world := body(d.world)).FaultFree()
  {
  }

  lemma EarlierRoundsFit(spec: ChainSpec, bytecode: Bytes, chain: seq<U64>, w: World)
    requires chain != [] && ForksFit(spec, bytecode, chain, w)
    ensures ForksFit(spec, bytecode, chain[..|chain| - 1], w)
  {
    hide Table, AtTransition, EachFits;
    var init := chain[..|chain| - 1];
    forall f ensures RoundsFit(Table(spec, bytecode, f), Firings(Activation(spec, f), init), w) {
      assert RoundsFit(Table(spec, bytecode, f), Firings(Activation(spec, f), chain), w);
      assert Firings(Activation(spec, f), init) <= Firings(Activation(spec, f), chain);
    }
  }

  lemma LastBlockFits(spec: ChainSpec, bytecode: Bytes, chain: seq<U64>, bodies: seq<World -> World>, d: DbState)
    requires chain != [] && |bodies| == |chain| && TransactionsLeaveAlone(spec, bytecode, chain, bodies)
    requires var n := |chain| - 1;
             && RunChain(spec, bytecode, chain[..n], bodies[..n], d).outcome.Done?
             && (forall f :: NoneLost(Losses(spec, bytecode, chain[..n], bodies[..n], d, f)))
             && ForksFit(spec, bytecode, chain[..n], d.world)
    ensures var n := |chain| - 1;
            var w := RunChain(spec, bytecode, chain[..n], bodies[..n], d).db.world;
            AllFit(PreExecutionChanges(spec, chain[n], bytecode), w) <==> ForksFit(spec, bytecode, chain, d.world)
  {
    var n := |chain| - 1;
    var w := RunChain(spec, bytecode, chain[..n], bodies[..n], d).db.world;
    hide Table, Activation, PreExecutionChanges, AllFit, PerformedAll, RoundsFit, RunChain, Losses,
         AllLeaveAlone, AtTransition, AgreeOn, NoneLost;
    BlockFits(spec, chain[n], bytecode, w);
    forall f
      ensures RoundsFit(Table(spec, bytecode, f), Firings(Activation(spec, f), chain), d.world) <==>
              AtTransition(Activation(spec, f), chain[n]) ==> AllFit(Table(spec, bytecode, f), w)
    {
      var cs := Table(spec, bytecode, f);
      TableIsTidy(spec, bytecode, f);
      if Firings(Activation(spec, f), chain) == 0 {
        NoRoundsFit(cs, d.world);
      } else {
        PrefixLeavesAlone(bodies, cs, n);
        ChainTracksRounds(spec, bytecode, chain[..n], bodies[..n], d, f);
        OneMoreRound(cs, Firings(Activation(spec, f), chain[..n]), AtTransition(Activation(spec, f), chain[n]),
                     d.world, w);
      }
    }
  }

  lemma OneMoreRound(cs: seq<Change>, n: nat, fires: bool, w: World, w': World)
    requires Tidy(cs) && AllRoundsFit(cs, n, w) && AgreeOn(cs, PerformedRounds(cs, n, w), w')
    ensures RoundsFit(cs, n + if fires then 1 else 0, w) <==> fires ==> AllFit(cs, w')
  {
    hide AllFit, PerformedAll, RoundsFit, AgreeOn, Tidy, Logic, Proxied, LogicAfter;
    RoundsSettle(cs, n, w);
    RoundsSettle(cs, n + 1, w);
    OwnTable(cs, cs, PerformedRounds(cs, n, w), w');
  }

  // ---------- What becomes of the upgraded contracts ----------

  lemma AgreedLogic(cs: seq<Change>, c: Change, w: World, w': World)
    requires c in cs && c.ProxyUpgrade? && AgreeOn(cs, w, w')
    requires Slot(w, c.contract, PROXY_IMPLEMENTATION_SLOT) == c.implementation
    ensures Code(w', c.contract) == Code(w, c.contract) && Logic(w', c.contract) == Logic(w, c.contract)
  {
    hide SpliceAll, AddressBytes, ToBigEndian, LeftPaddedWord, AddressFromBytes, AddressWord;
    var i :| 0 <= i < |cs| && cs[i] == c;
    forall l | WritesTo(c, l) ensures Alike(w, w', l) {
      assert Touched(cs, l);
    }
    assert Alike(w, w', CodeAt(c.contract)) && Alike(w, w', CodeAt(c.implementation));
    assert WritesTo(c, SlotAt(c.contract, PROXY_IMPLEMENTATION_SLOT));
    assert Alike(w, w', SlotAt(c.contract, PROXY_IMPLEMENTATION_SLOT));
    AddressWordDecodes(c.implementation);
  }

  // After a chain in which a fork's gate opened, whatever the other forks did and whatever reads
  // failed: every upgraded contract runs the proxy's code, and the logic behind it is the code the
  // last round has seen, patched. That is its own code if the gate opened once, the proxy's if
  // more often, and nothing if that block lost the lookup.
  lemma LogicOverChain(spec: ChainSpec, bytecode: Bytes, chain: seq<U64>, bodies: seq<World -> World>,
                       d: DbState, f: Fork)
    requires |bodies| == |chain| && AllLeaveAlone(bodies, Table(spec, bytecode, f))
    requires RunChain(spec, bytecode, chain, bodies, d).outcome.Done?
    ensures var cs, losses := Table(spec, bytecode, f), Losses(spec, bytecode, chain, bodies, d, f);
            var w' := RunChain(spec, bytecode, chain, bodies, d).db.world;
            && (NoneLost(losses) ==> RoundsFit(cs, |losses|, d.world))
            && (|losses| >= 1 ==> forall c :: c in cs && c.ProxyUpgrade? ==>
                  && Fits(c, d.world) && InBounds(c, LastSeen(c, losses, d.world))
                  && Code(w', c.contract) == Code(d.world, PROXY)
                  && Logic(w', c.contract) ==
                     SpliceAll(LastSeen(c, losses, d.world), c.offsets, AddressBytes(c.token)))
  {
    hide Table, RunChain, Losses, AllLeaveAlone, AgreeOn, Tidy, AllRoundsFit, RoundsFit, PerformedRounds, AllLossyFit,
         LossyRounds, LastSeen, WindowsInRange, Fits, Code, Logic, Firings, NoneLost, SpliceAll, AddressBytes;
    var cs, losses := Table(spec, bytecode, f), Losses(spec, bytecode, chain, bodies, d, f);
    ChainTracksFork(spec, bytecode, chain, bodies, d, f);
    TableIsTidy(spec, bytecode, f);
    if NoneLost(losses) {
      ChainTracksRounds(spec, bytecode, chain, bodies, d, f);
      RoundsSettle(cs, |losses|, d.world);
    }
    if |losses| >= 1 {
      LossyRoundsSettle(cs, losses, d.world);
      var w, w' := LossyRounds(cs, losses, d.world), RunChain(spec, bytecode, chain, bodies, d).db.world;
      forall c | c in cs && c.ProxyUpgrade?
        ensures Fits(c, d.world) && InBounds(c, LastSeen(c, losses, d.world))
        ensures Code(w', c.contract) == Code(d.world, PROXY)
        ensures Logic(w', c.contract) == SpliceAll(LastSeen(c, losses, d.world), c.offsets, AddressBytes(c.token))
      {
        AgreedLogic(cs, c, w, w');
      }
    }
  }

  // Over strictly increasing timestamps, whatever reads fail: if the block of the last firing did
  // not lose the contract's lookup, an upgraded contract keeps its own logic if and only if the
  // fork's time and the second after it are not both block times, or the proxy's code patched the
  // same way is that logic anyway. If it lost the lookup, only a contract without code keeps it.
  lemma LogicKeptIff(spec: ChainSpec, bytecode: Bytes, chain: seq<U64>, bodies: seq<World -> World>,
                     d: DbState, f: Fork, c: Change)
    requires |bodies| == |chain| && AllLeaveAlone(bodies, Table(spec, bytecode, f)) && GapsAtLeast(chain, 1)
    requires Firings(Activation(spec, f), chain) >= 1 && c in Table(spec, bytecode, f) && c.ProxyUpgrade?
    requires RunChain(spec, bytecode, chain, bodies, d).outcome.Done?
    ensures Activation(spec, f).Timestamp? && Fits(c, d.world)
    ensures var w' := RunChain(spec, bytecode, chain, bodies, d).db.world;
            var losses := Losses(spec, bytecode, chain, bodies, d, f);
            var lost, twice := c.contract in losses[|losses| - 1], BothBlockTimes(Activation(spec, f).at, chain);
            && Code(w', c.contract) == Code(d.world, PROXY)
            && (Logic(w', c.contract) == PatchedLogic(c, d.world) <==>
                if lost then Code(d.world, c.contract) == []
                else twice ==>
                  InBounds(c, Code(d.world, PROXY)) && LogicAfter(c, 2, d.world) == PatchedLogic(c, d.world))
            && (c.offsets == [] ==>
                  (Logic(w', c.contract) == Code(d.world, c.contract) <==>
                   if lost then Code(d.world, c.contract) == []
                   else twice ==> Code(d.world, PROXY) == Code(d.world, c.contract)))
  {
    hide Table, RunChain, Losses, AllLeaveAlone, Activation, Firings, BothBlockTimes, Code, Logic,
         SpliceAll, AddressBytes;
    LogicOverChain(spec, bytecode, chain, bodies, d, f);
    GenesisForkNeverFires(chain);
    FiresTwiceIff(Activation(spec, f), chain);
    var losses := Losses(spec, bytecode, chain, bodies, d, f);
    if c.contract in losses[|losses| - 1] {
      EmptyFits(c, Code(d.world, c.contract));
    }
    NothingSpliced([], AddressBytes(c.token));
    NothingSpliced(Code(d.world, c.contract), AddressBytes(c.token));
    NothingSpliced(Code(d.world, PROXY), AddressBytes(c.token));
  }

  lemma NothingSpliced(code: Bytes, patch: Bytes)
    ensures SpliceAll(code, [], patch) == code
  {
  }

  // A chain whose first part never opens the fork's gate: that part may run any transactions, and
  // everything said of the fork is then relative to the world it leaves.
  lemma LateFork(spec: ChainSpec, bytecode: Bytes, early: seq<U64>, chain: seq<U64>,
                 earlyBodies: seq<World -> World>, bodies: seq<World -> World>, d: DbState, f: Fork)
    requires |earlyBodies| == |early| && |bodies| == |chain| && AllLeaveAlone(bodies, Table(spec, bytecode, f))
    requires Firings(Activation(spec, f), early) == 0
    ensures var start := RunChain(spec, bytecode, early, earlyBodies, d).db;
            var r := RunChain(spec, bytecode, early + chain, earlyBodies + bodies, d);
            var losses := Losses(spec, bytecode, chain, bodies, start, f);
            && |losses| == Firings(Activation(spec, f), early + chain)
            && (|losses| >= 1 && r.outcome.Done? ==> forall c :: c in Table(spec, bytecode, f) && c.ProxyUpgrade? ==>
                  && InBounds(c, LastSeen(c, losses, start.world))
                  && Code(r.db.world, c.contract) == Code(start.world, PROXY)
                  && Logic(r.db.world, c.contract) ==
                     SpliceAll(LastSeen(c, losses, start.world), c.offsets, AddressBytes(c.token)))
  {
    hide Table, RunChain, Losses, AllLeaveAlone, Activation, Firings, Code, Logic, InBounds, LastSeen, SpliceAll,
         AddressBytes;
    RunChainSplit(spec, bytecode, early, chain, earlyBodies, bodies, d);
    FiringsConcat(Activation(spec, f), early, chain);
    if RunChain(spec, bytecode, early + chain, earlyBodies + bodies, d).outcome.Done? {
      LogicOverChain(spec, bytecode, chain, bodies, RunChain(spec, bytecode, early, earlyBodies, d).db, f);
    }
  }

  // ---------- Every table once ----------

  // The items run by all blocks of a chain, block after block.
  function ChainChanges(spec: ChainSpec, bytecode: Bytes, chain: seq<U64>): seq<Change> {
    if chain == [] then []
    else ChainChanges(spec, bytecode, chain[..|chain| - 1])
         + PreExecutionChanges(spec, chain[|chain| - 1], bytecode)
  }

  function Times(n: nat, m: multiset<Change>): multiset<Change> {
    if n == 0 then multiset{} else Times(n - 1, m) + m
  }

  // Over a chain a fork's table is run once for every block its gate is open in.
  lemma {:induction false} ChainRunsTables(spec: ChainSpec, bytecode: Bytes, chain: seq<U64>)
    ensures multiset(ChainChanges(spec, bytecode, chain)) ==
            Times(Firings(spec.canyon, chain), multiset(CanyonTable(bytecode)))
            + Times(Firings(spec.granite, chain), multiset(Granite.GraniteTable(spec.chainId)))
            + Times(Firings(spec.holocene, chain), multiset(Holocene.HoloceneTable(spec.chainId)))
            + Times(Firings(spec.isthmus, chain), multiset(Isthmus.IsthmusTable(spec.chainId)))
  {
    hide CanyonTable, Granite.GraniteTable, Holocene.HoloceneTable, Isthmus.IsthmusTable,
         PreExecutionChanges, AtTransition, Firings, Times, Chosen;
    var c, g := CanyonTable(bytecode), Granite.GraniteTable(spec.chainId);
    var h, i := Holocene.HoloceneTable(spec.chainId), Isthmus.IsthmusTable(spec.chainId);
    if chain == [] {
      NothingRun(spec.canyon, c);
      NothingRun(spec.granite, g);
      NothingRun(spec.holocene, h);
      NothingRun(spec.isthmus, i);
    } else {
      var init, last := chain[..|chain| - 1], chain[|chain| - 1];
      ChainRunsTables(spec, bytecode, init);
      FiredTables(spec, last, bytecode);
      OneMoreBlock(spec.canyon, chain, c);
      OneMoreBlock(spec.granite, chain, g);
      OneMoreBlock(spec.holocene, chain, h);
      OneMoreBlock(spec.isthmus, chain, i);
      SumOfTables(Chosen(AtTransition(spec.canyon, last), c), Chosen(AtTransition(spec.granite, last), g),
                  Chosen(AtTransition(spec.holocene, last), h), Chosen(AtTransition(spec.isthmus, last), i));
    }
  }

  lemma SumOfTables(c: seq<Change>, g: seq<Change>, h: seq<Change>, i: seq<Change>)
    ensures multiset(c + g + h + i) == multiset(c) + multiset(g) + multiset(h) + multiset(i)
  {
  }

  lemma NothingRun(fork: ForkActivation, cs: seq<Change>)
    ensures Times(Firings(fork, []), multiset(cs)) == multiset{}
  {
  }

  lemma OneMoreBlock(fork: ForkActivation, chain: seq<U64>, cs: seq<Change>)
    requires chain != []
    ensures Times(Firings(fork, chain), multiset(cs)) ==
            Times(Firings(fork, chain[..|chain| - 1]), multiset(cs))
            + multiset(Chosen(AtTransition(fork, chain[|chain| - 1]), cs))
  {
    hide AtTransition;
  }

  // The forks whose gate opened somewhere in the chain.
  function FiredOver(spec: ChainSpec, bytecode: Bytes, chain: seq<U64>): seq<Change> {
    ChosenTables(spec.chainId, bytecode,
                 Firings(spec.canyon, chain) > 0, Firings(spec.granite, chain) > 0,
                 Firings(spec.holocene, chain) > 0, Firings(spec.isthmus, chain) > 0)
  }

  // A chain in which no gate opens twice runs every fired table exactly once.
  lemma EachTableOnce(spec: ChainSpec, bytecode: Bytes, chain: seq<U64>)
    requires forall f :: Firings(Activation(spec, f), chain) <= 1
    ensures multiset(ChainChanges(spec, bytecode, chain)) == multiset(FiredOver(spec, bytecode, chain))
  {
    hide CanyonTable, Granite.GraniteTable, Holocene.HoloceneTable, Isthmus.IsthmusTable,
         ChainChanges, Firings, Times, Chosen;
    ChainRunsTables(spec, bytecode, chain);
    var c, g := CanyonTable(bytecode), Granite.GraniteTable(spec.chainId);
    var h, i := Holocene.HoloceneTable(spec.chainId), Isthmus.IsthmusTable(spec.chainId);
    assert forall f :: Firings(Activation(spec, f), chain) <= 1;
    assert Firings(Activation(spec, CanyonFork), chain) <= 1 && Firings(Activation(spec, GraniteFork), chain) <= 1;
    assert Firings(Activation(spec, HoloceneFork), chain) <= 1 && Firings(Activation(spec, IsthmusFork), chain) <= 1;
    OnceOrNever(spec.canyon, chain, c);
    OnceOrNever(spec.granite, chain, g);
    OnceOrNever(spec.holocene, chain, h);
    OnceOrNever(spec.isthmus, chain, i);
    SumOfTables(Chosen(Firings(spec.canyon, chain) > 0, c), Chosen(Firings(spec.granite, chain) > 0, g),
                Chosen(Firings(spec.holocene, chain) > 0, h), Chosen(Firings(spec.isthmus, chain) > 0, i));
  }

  lemma OnceOrNever(fork: ForkActivation, chain: seq<U64>, cs: seq<Change>)
    requires Firings(fork, chain) <= 1
    ensures Times(Firings(fork, chain), multiset(cs)) == multiset(Chosen(Firings(fork, chain) > 0, cs))
  {
    hide Firings;
    assert Times(1, multiset(cs)) == Times(0, multiset(cs)) + multiset(cs);
  }

  lemma AgreedCells(cs: seq<Change>, w: World, w1: World, w2: World)
    requires Simultaneous(cs, w, w1) && AgreeOn(cs, w1, w2)
    ensures forall c, l :: c in cs && WritesTo(c, l) ==> At(w2, l) == At(Performed(c, w), l)
  {
    hide Performed, WritesTo, ReadsFrom, At;
    forall c, l | c in cs && WritesTo(c, l) ensures At(w2, l) == At(Performed(c, w), l) {
      var i :| 0 <= i < |cs| && cs[i] == c;
      assert Touched(cs, l) && Alike(w1, w2, l);
    }
  }

  // An upgrade is a matter of cells the migrations use.
  lemma AgreedUpgrade(cs: seq<Change>, c: Change, w: World, w1: World, w2: World)
    requires c in cs && c.ProxyUpgrade? && Fits(c, w) && Upgraded(c, w, w1) && AgreeOn(cs, w1, w2)
    ensures Upgraded(c, w, w2)
  {
    hide SpliceAll, AddressBytes, ToBigEndian, LeftPaddedWord, AddressFromBytes, Logic;
    AgreedLogic(cs, c, w1, w2);
    var i :| 0 <= i < |cs| && cs[i] == c;
    forall l | WritesTo(c, l) ensures Alike(w1, w2, l) {
      assert Touched(cs, l);
    }
    assert Alike(w1, w2, CodeAt(c.contract)) && Alike(w1, w2, CodeAt(c.implementation));
    assert WritesTo(c, SlotAt(c.contract, PROXY_ADMIN_SLOT));
    assert WritesTo(c, SlotAt(c.contract, PROXY_IMPLEMENTATION_SLOT));
    assert Alike(w1, w2, SlotAt(c.contract, PROXY_ADMIN_SLOT));
    assert Alike(w1, w2, SlotAt(c.contract, PROXY_IMPLEMENTATION_SLOT));
  }

  // Every cell of the table is as the table alone makes it of the world `w`, all at once.
  ghost predicate DoneOnce(cs: seq<Change>, w: World, w': World) {
    && EachFits(cs, w)
    && (forall c, l :: c in cs && WritesTo(c, l) ==> At(w', l) == At(Performed(c, w), l))
    && (forall c :: c in cs && c.ProxyUpgrade? ==> Fits(c, w) && Upgraded(c, w, w'))
  }

  lemma ForkMigratesOnce(spec: ChainSpec, bytecode: Bytes, chain: seq<U64>, bodies: seq<World -> World>,
                         d: DbState, f: Fork)
    requires |bodies| == |chain| && AllLeaveAlone(bodies, Table(spec, bytecode, f))
    requires Firings(Activation(spec, f), chain) == 1
    requires RunChain(spec, bytecode, chain, bodies, d).outcome.Done?
    ensures DoneOnce(Table(spec, bytecode, f), Emptied(d.world, Losses(spec, bytecode, chain, bodies, d, f)[0]),
                     RunChain(spec, bytecode, chain, bodies, d).db.world)
  {
    hide Table, RunChain, Losses, AllLeaveAlone, AgreeOn, Tidy, PerformedAll, Upgraded, Fits, AllFit, AllIndependent,
         Firings, WritesTo, At, Performed, EachFits, Simultaneous, Proxied, SameLengths, Logic, PatchedLogic, Emptied;
    var cs, w' := Table(spec, bytecode, f), RunChain(spec, bytecode, chain, bodies, d).db.world;
    var losses := Losses(spec, bytecode, chain, bodies, d, f);
    var w := Emptied(d.world, losses[0]);
    ChainTracksFork(spec, bytecode, chain, bodies, d, f);
    TableIsTidy(spec, bytecode, f);
    assert losses[..0] == [];
    assert LossyRounds(cs, [], d.world) == d.world;
    IndependentFit(cs, w);
    OneRound(cs, w);
    AgreedCells(cs, w, PerformedAll(cs, w), w');
    forall c | c in cs && c.ProxyUpgrade? ensures Fits(c, w) && Upgraded(c, w, w') {
      AgreedUpgrade(cs, c, w, PerformedAll(cs, w), w');
    }
  }

  // A chain in which no gate opens twice, whatever block each fork falls in, whatever transactions
  // run in between and whatever reads fail: if it runs through, the migrations amount to carrying
  // out every fired table once, all at once, on the original world, where a code is seen as empty
  // if its lookup was lost. Without failing reads it runs through exactly when all their patched
  // ranges are in bounds there.
  lemma ChainMigratesOnce(spec: ChainSpec, bytecode: Bytes, chain: seq<U64>, bodies: seq<World -> World>, d: DbState)
    requires |bodies| == |chain| && TransactionsLeaveAlone(spec, bytecode, chain, bodies)
    requires forall f :: Firings(Activation(spec, f), chain) <= 1
    ensures var cs := FiredOver(spec, bytecode, chain);
            var r := RunChain(spec, bytecode, chain, bodies, d);
            && (r.outcome.Done? ==> forall f :: Firings(Activation(spec, f), chain) == 1 ==>
                  DoneOnce(Table(spec, bytecode, f), Emptied(d.world, Losses(spec, bytecode, chain, bodies, d, f)[0]),
                           r.db.world))
            && (r.outcome.Done? && (forall f :: NoneLost(Losses(spec, bytecode, chain, bodies, d, f))) ==>
                  DoneOnce(cs, d.world, r.db.world))
            && (d.FaultFree() ==>
                  && (forall f :: NoneLost(Losses(spec, bytecode, chain, bodies, d, f)))
                  && r.outcome == if EachFits(cs, d.world) then Done else OutOfBounds)
  {
    hide Table, RunChain, Losses, AllLeaveAlone, Activation, Firings, EachFits, DoneOnce, ChosenTables,
         DbState.FaultFree, Emptied;
    FiredFit(spec, bytecode, chain, d.world);
    if d.FaultFree() {
      ChainOutcome(spec, bytecode, chain, bodies, d);
    }
    var r := RunChain(spec, bytecode, chain, bodies, d);
    if r.outcome.Done? {
      forall f | Firings(Activation(spec, f), chain) == 1
        ensures DoneOnce(Table(spec, bytecode, f), Emptied(d.world, Losses(spec, bytecode, chain, bodies, d, f)[0]),
                         r.db.world)
      {
        ForkMigratesOnce(spec, bytecode, chain, bodies, d, f);
      }
      if forall f :: NoneLost(Losses(spec, bytecode, chain, bodies, d, f)) {
        EmptiedCells(d.world, {});
        forall f | Firings(Activation(spec, f), chain) > 0
          ensures DoneOnce(Table(spec, bytecode, f), d.world, r.db.world)
        {
          assert NoneLost(Losses(spec, bytecode, chain, bodies, d, f));
        }
        AllDoneOnce(spec, bytecode, chain, d.world, r.db.world);
      }
    }
  }

  lemma FiredFit(spec: ChainSpec, bytecode: Bytes, chain: seq<U64>, w: World)
    requires forall f :: Firings(Activation(spec, f), chain) <= 1
    ensures ForksFit(spec, bytecode, chain, w) <==> EachFits(FiredOver(spec, bytecode, chain), w)
  {
    hide Table, Firings, EachFits, ChosenTables;
    ChosenFit(spec, bytecode, Firings(spec.canyon, chain) > 0, Firings(spec.granite, chain) > 0,
              Firings(spec.holocene, chain) > 0, Firings(spec.isthmus, chain) > 0, w);
    AllForks(f => Firings(Activation(spec, f), chain) <= 1);
    AllForks(f => RoundsFit(Table(spec, bytecode, f), Firings(Activation(spec, f), chain), w));
  }

  lemma FromFiredTable(spec: ChainSpec, bytecode: Bytes, chain: seq<U64>, c: Change) returns (f: Fork)
    requires c in FiredOver(spec, bytecode, chain)
    ensures Firings(Activation(spec, f), chain) > 0 && c in Table(spec, bytecode, f)
  {
    hide Firings, CanyonTable, Granite.GraniteTable, Holocene.HoloceneTable, Isthmus.IsthmusTable;
    if c in Chosen(Firings(spec.canyon, chain) > 0, Table(spec, bytecode, CanyonFork)) {
      f := CanyonFork;
    } else if c in Chosen(Firings(spec.granite, chain) > 0, Table(spec, bytecode, GraniteFork)) {
      f := GraniteFork;
    } else if c in Chosen(Firings(spec.holocene, chain) > 0, Table(spec, bytecode, HoloceneFork)) {
      f := HoloceneFork;
    } else {
      f := IsthmusFork;
    }
  }

  lemma AllDoneOnce(spec: ChainSpec, bytecode: Bytes, chain: seq<U64>, w: World, w': World)
    requires forall f :: Firings(Activation(spec, f), chain) > 0 ==> DoneOnce(Table(spec, bytecode, f), w, w')
    ensures DoneOnce(FiredOver(spec, bytecode, chain), w, w')
  {
    hide Firings, WritesTo, At, Performed, Upgraded, Fits, Table, FiredOver, Activation;
    var cs := FiredOver(spec, bytecode, chain);
    forall i | 0 <= i < |cs|
      ensures Fits(cs[i], w)
      ensures forall l :: WritesTo(cs[i], l) ==> At(w', l) == At(Performed(cs[i], w), l)
      ensures cs[i].ProxyUpgrade? ==> Upgraded(cs[i], w, w')
    {
      var f := FromFiredTable(spec, bytecode, chain, cs[i]);
      DoneItem(Table(spec, bytecode, f), cs[i], w, w');
    }
  }

  lemma DoneItem(cs: seq<Change>, c: Change, w: World, w': World)
    requires DoneOnce(cs, w, w') && c in cs
    ensures Fits(c, w) && (forall l :: WritesTo(c, l) ==> At(w', l) == At(Performed(c, w), l))
    ensures c.ProxyUpgrade? ==> Upgraded(c, w, w')
  {
    hide WritesTo, At, Performed, Upgraded, Fits;
    var i :| 0 <= i < |cs| && cs[i] == c;
  }

  // At the block time of two seconds every fork is decided on its own: its table is run once if
  // the chain has a block in its window, and never otherwise.
  lemma CrossedForksFire(spec: ChainSpec, bytecode: Bytes, chain: seq<U64>)
    requires GapsAtLeast(chain, 2) && GapsAtMost(chain, 2)
    ensures forall f :: Firings(Activation(spec, f), chain) == if InWindow(Activation(spec, f), chain) then 1 else 0
    ensures multiset(ChainChanges(spec, bytecode, chain)) ==
            multiset(ChosenTables(spec.chainId, bytecode,
                                  InWindow(spec.canyon, chain), InWindow(spec.granite, chain),
                                  InWindow(spec.holocene, chain), InWindow(spec.isthmus, chain)))
  {
    hide ChosenTables, Firings, ChainChanges, InWindow;
    forall f ensures Firings(Activation(spec, f), chain) == if InWindow(Activation(spec, f), chain) then 1 else 0 {
      FiresOnceIff(Activation(spec, f), chain);
    }
    AllForks(f => Firings(Activation(spec, f), chain) == if InWindow(Activation(spec, f), chain) then 1 else 0);
    EachTableOnce(spec, bytecode, chain);
  }

  // ---------- Blocks that come too early ----------

  // With blocks at the fork's time and one second later, Holocene's table runs twice, on any chain
  // id, whatever the other forks do: the second run adds no condition of its own, and it replaces
  // every token's logic by the proxy's own code.
  lemma EarlyBlockLosesLogic(spec: ChainSpec, bytecode: Bytes, chain: seq<U64>, bodies: seq<World -> World>,
                             d: DbState)
    requires d.FaultFree() && |bodies| == |chain| && GapsAtLeast(chain, 1)
    requires TransactionsLeaveAlone(spec, bytecode, chain, bodies)
    requires spec.holocene.Timestamp? && spec.holocene.at >= 1 && BothBlockTimes(spec.holocene.at, chain)
    ensures var r := RunChain(spec, bytecode, chain, bodies, d);
            && (r.outcome.Done? <==>
                  && EachFits(Holocene.HoloceneTable(spec.chainId), d.world)
                  && forall f :: f != HoloceneFork ==>
                       RoundsFit(Table(spec, bytecode, f), Firings(Activation(spec, f), chain), d.world))
            && (r.outcome.Done? ==> forall a :: a in Holocene.TokenAddresses(spec.chainId) ==>
                  Logic(r.db.world, a) == Code(r.db.world, a) == Code(d.world, PROXY))
  {
    hide Table, RunChain, Losses, AllLeaveAlone, Firings, BothBlockTimes, EachFits, Logic, Code,
         Holocene.HoloceneTable, Holocene.TokenAddresses, DbState.FaultFree, SpliceAll, AddressBytes;
    var table, w' := Table(spec, bytecode, HoloceneFork), RunChain(spec, bytecode, chain, bodies, d).db.world;
    FiresTwiceIff(spec.holocene, chain);
    ChainOutcome(spec, bytecode, chain, bodies, d);
    HolocenePatchesNothing(spec, bytecode);
    assert Activation(spec, HoloceneFork) == spec.holocene;
    if RunChain(spec, bytecode, chain, bodies, d).outcome.Done? {
      LogicOverChain(spec, bytecode, chain, bodies, d, HoloceneFork);
      forall a | a in Holocene.TokenAddresses(spec.chainId)
        ensures Logic(w', a) == Code(w', a) == Code(d.world, PROXY)
      {
        var c := TokenItem(spec, bytecode, a);
        NothingSpliced(Code(d.world, PROXY), AddressBytes(c.token));
      }
    }
  }

  lemma HolocenePatchesNothing(spec: ChainSpec, bytecode: Bytes)
    ensures Table(spec, bytecode, HoloceneFork) == Holocene.HoloceneTable(spec.chainId)
    ensures forall c :: c in Holocene.HoloceneTable(spec.chainId) && c.ProxyUpgrade? ==> c.offsets == []
  {
    hide Holocene.TokenAddresses, Holocene.NamingPatches, Holocene.NamingWrites, ImplementationAddress;
  }

  lemma TokenItem(spec: ChainSpec, bytecode: Bytes, a: Address) returns (c: Change)
    requires a in Holocene.TokenAddresses(spec.chainId)
    ensures c in Table(spec, bytecode, HoloceneFork) && c.ProxyUpgrade? && c.contract == a && c.offsets == []
  {
    hide Holocene.TokenAddresses, Holocene.NamingPatches, Holocene.NamingWrites, ImplementationAddress;
    var tokens := Holocene.TokenAddresses(spec.chainId);
    var i :| 0 <= i < |tokens| && tokens[i] == a;
    c := Holocene.TokenUpgrades(tokens)[i];
    assert Holocene.HoloceneTable(spec.chainId)[i] == c;
  }

  // Such a chain: Holocene at time 10 on the chain with id 2521, blocks at 10 and 11 without
  // transactions, one token whose code is replaced by the proxy's.
  lemma TokenLosesLogic(bytecode: Bytes) returns (spec: ChainSpec, d: DbState, token: Address)
    ensures token in Holocene.TokenAddresses(spec.chainId) && d.FaultFree()
    ensures Code(d.world, token) == [2] && Code(d.world, PROXY) == [1]
    ensures var r := RunChain(spec, bytecode, [10, 11], [(w: World) => w, (w: World) => w], d);
            r.outcome.Done? && Logic(r.db.world, token) == [1]
  {
    hide RunChain, Logic, TransactionsLeaveAlone, EachFits;
    token := DEVNET_TOKENS_ADDRESSES[0];
    spec := ChainSpec(2521, Never, Never, Never, Timestamp(10), Never, Never);
    var accounts: map<Address, AccountInfo> :=
      map[token := AccountInfo(0, 0, 0, Some([2])), PROXY := AccountInfo(0, 0, 0, Some([1]))];
    d := DbState(World(accounts, map[], map[], (b: Bytes) => 0), {}, 0);
    var chain: seq<U64>, bodies := [10, 11], [(w: World) => w, (w: World) => w];
    assert chain[0] == 10 && chain[1] == 11;
    NothingTouched(spec, bytecode, chain, bodies);
    OnlyHolocene(spec, bytecode, chain, d.world);
    HoloceneFitsIff(2521, d.world);
    EarlyBlockLosesLogic(spec, bytecode, chain, bodies, d);
  }

  lemma NothingTouched(spec: ChainSpec, bytecode: Bytes, chain: seq<U64>, bodies: seq<World -> World>)
    requires forall i, w :: 0 <= i < |bodies| ==> bodies[i](w) == w
    ensures TransactionsLeaveAlone(spec, bytecode, chain, bodies)
  {
    hide AgreeOn, Table, Firings;
    forall f, i, w | 0 <= i < |bodies| ensures AgreeOn(Table(spec, bytecode, f), w, bodies[i](w)) {
      AgreeReflexive(Table(spec, bytecode, f), w);
    }
  }

  lemma OnlyHolocene(spec: ChainSpec, bytecode: Bytes, chain: seq<U64>, w: World)
    requires spec.canyon == spec.granite == spec.isthmus == Never
    ensures forall f :: f != HoloceneFork ==>
              RoundsFit(Table(spec, bytecode, f), Firings(Activation(spec, f), chain), w)
  {
    hide Table, Firings;
    GenesisForkNeverFires(chain);
  }
}
