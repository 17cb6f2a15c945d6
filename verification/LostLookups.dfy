/** Runs in which reads fail: what a run of independent items does, whatever reads fail, and the one
    trace a failing code lookup leaves, a code that is seen as empty. */
module LostLookups {
  import opened Primitives
  import opened ByteCodec
  import opened StateDb
  import opened Utils
  import opened Transitions
  import opened Simultaneity

  // The database reads of an item that gets through: its target, a lookup if the target's code is
  // not inline, and for an upgrade the implementation and the proxy.
  function ReadsOf(c: Change, w: World): nat {
    1 + (if ReadsCode(c) then CodeReads(Info(w, Target(c))) else 0) + if c.ProxyUpgrade? then 2 else 0
  }

  // The database before the run, advanced to where item i begins to read.
  function Start(cs: seq<Change>, i: nat, d: DbState): (r: DbState)
    requires i <= |cs|
    ensures r == d.(readCount := r.readCount)
  {
    if i == 0 then d else Start(cs, i - 1, d).Advance(ReadsOf(cs[i - 1], d.world))
  }

  // The second read of an item is the lookup of its code.
  predicate LookupLost(cs: seq<Change>, i: nat, d: DbState)
    requires i < |cs|
  {
    ReadsCode(cs[i]) && Info(d.world, Target(cs[i])).code.None? && Start(cs, i, d).readCount + 1 in d.faults
  }

  // The code item i works on.
  function Seen(cs: seq<Change>, i: nat, d: DbState): Bytes
    requires i < |cs|
  {
    if ReadsCode(cs[i]) && !LookupLost(cs, i, d) then Code(d.world, Target(cs[i])) else []
  }

  lemma SeenAtStart(cs: seq<Change>, i: nat, d: DbState)
    requires i < |cs|
    ensures Seen(cs, i, d) == CodeSeen(cs[i], Start(cs, i, d))
  {
  }

  // Item i gets through when started on the world before the run, at its own place among the reads.
  predicate RunsAlone(cs: seq<Change>, i: nat, d: DbState)
    requires i < |cs|
  {
    Apply(cs[i], Start(cs, i, d)).outcome.Done?
  }

  // Every account the item loads can be read.
  predicate AccountReadsSucceed(cs: seq<Change>, i: nat, d: DbState)
    requires i < |cs|
  {
    var target := Start(cs, i, d).readCount;
    var lookups := if ReadsCode(cs[i]) && Info(d.world, Target(cs[i])).code.None? then 1 else 0;
    && target !in d.faults
    && (cs[i].ProxyUpgrade? ==> target + lookups + 1 !in d.faults && target + lookups + 2 !in d.faults)
  }

  lemma ItemGetsThrough(c: Change, d: DbState)
    ensures var lookups := if ReadsCode(c) && Info(d.world, Target(c)).code.None? then 1 else 0;
            Apply(c, d).outcome.Done? <==>
            && d.readCount !in d.faults && InBounds(c, CodeSeen(c, d))
            && (c.ProxyUpgrade? ==>
                  d.readCount + lookups + 1 !in d.faults && d.readCount + lookups + 2 !in d.faults)
  {
    hide Effect, InBounds, CodeSeen;
  }

  // An item gets through exactly when the accounts it loads can be read and what it patches lies
  // within the code it has seen; a lookup by hash that fails does not stop it.
  lemma RunsAloneIff(cs: seq<Change>, i: nat, d: DbState)
    requires i < |cs|
    ensures RunsAlone(cs, i, d) <==> AccountReadsSucceed(cs, i, d) && InBounds(cs[i], Seen(cs, i, d))
  {
    SeenAtStart(cs, i, d);
    ItemGetsThrough(cs[i], Start(cs, i, d));
    hide Start, Apply, InBounds, Seen, CodeSeen;
  }

  // Which of the two ways an item stops: a slice out of range if only its target has been read, a
  // failed read otherwise.
  lemma WhereAnItemStops(c: Change, d: DbState)
    ensures Apply(c, d).outcome.OutOfBounds? <==> d.readCount !in d.faults && !InBounds(c, CodeSeen(c, d))
    ensures Apply(c, d).outcome.ReadFailed? <==> !RunsAlone([c], 0, d) && !Apply(c, d).outcome.OutOfBounds?
    ensures !Apply(c, d).outcome.Done? ==> Apply(c, d).db == d.(readCount := Apply(c, d).db.readCount)
  {
    hide Effect;
    assert Start([c], 0, d) == d;
  }

  // Every cell an item writes holds what that item makes of the original world with the code it
  // has seen, and no other cell has changed.
  ghost predicate SimultaneousAsSeen(cs: seq<Change>, d: DbState, w': World) {
    && SameLibrary(d.world, w')
    && (forall i :: 0 <= i < |cs| ==> InBounds(cs[i], Seen(cs, i, d)))
    && (forall i, l :: 0 <= i < |cs| && WritesTo(cs[i], l) ==>
          At(w', l) == CellAfter(cs[i], d.world, Seen(cs, i, d), l))
    && (forall l :: !WrittenBy(cs, l) ==> At(w', l) == At(d.world, l))
  }

  // Whatever reads fail, a run of independent items gets through exactly when each item does so
  // alone, and then all of them have acted at once.
  lemma {:induction false} RunIsSimultaneous(cs: seq<Change>, d: DbState)
    requires AllIndependent(cs)
    ensures RunChanges(cs, d).outcome.Done? <==> forall i :: 0 <= i < |cs| ==> RunsAlone(cs, i, d)
    ensures RunChanges(cs, d).outcome.Done? ==> SimultaneousAsSeen(cs, d, RunChanges(cs, d).db.world)
  {
    hide Apply, WritesTo, ReadsFrom, At, CellAfter, InBounds, Seen, Independent;
    if cs != [] {
      var c, rest, first := cs[0], cs[1..], Apply(cs[0], d);
      assert RunsAlone(cs, 0, d) <==> first.outcome.Done?;
      if first.outcome.Done? {
        var d1 := first.db;
        assert AllIndependent(rest) by {
          assert forall i :: 0 <= i < |rest| ==> rest[i] == cs[i + 1];
        }
        RunIsSimultaneous(rest, d1);
        forall i | 0 <= i < |rest|
          ensures RunsAlone(rest, i, d1) <==> RunsAlone(cs, i + 1, d)
          ensures Seen(rest, i, d1) == Seen(cs, i + 1, d)
        {
          LaterItem(cs, i, d);
        }
        AllRunAlone(cs, d, d1);
        if RunChanges(cs, d).outcome.Done? {
          FirstItemActs(cs, d);
          TogetherAsSeen(cs, d, d1, RunChanges(cs, d).db.world);
        }
      }
    }
  }

  lemma AllRunAlone(cs: seq<Change>, d: DbState, d1: DbState)
    requires cs != [] && RunsAlone(cs, 0, d)
    requires forall i :: 0 <= i < |cs| - 1 ==> (RunsAlone(cs[1..], i, d1) <==> RunsAlone(cs, i + 1, d))
    ensures (forall i :: 0 <= i < |cs| ==> RunsAlone(cs, i, d))
            <==> forall i :: 0 <= i < |cs| - 1 ==> RunsAlone(cs[1..], i, d1)
  {
    hide RunsAlone;
    if forall i :: 0 <= i < |cs| - 1 ==> RunsAlone(cs[1..], i, d1) {
      forall i | 0 <= i < |cs| ensures RunsAlone(cs, i, d) {
        if i > 0 {
          assert RunsAlone(cs[1..], i - 1, d1);
        }
      }
    }
  }

  // An item that gets through leaves the library as it was, advances the reads by its own, and
  // changes the cells it writes.
  lemma ItemActs(c: Change, d: DbState, l: Location)
    requires Apply(c, d).outcome.Done?
    ensures var d1 := Apply(c, d).db;
            && d1 == d.(world := d1.world, readCount := d.readCount + ReadsOf(c, d.world))
            && SameLibrary(d.world, d1.world) && InBounds(c, CodeSeen(c, d))
            && At(d1.world, l) == CellAfter(c, d.world, CodeSeen(c, d), l)
  {
    hide Committed, ChangeSet, CellAfter, Splice, SpliceAll;
    ApplyKeepsLibrary(c, d);
    EffectCells(c, d.world, CodeSeen(c, d), l);
  }

  lemma FirstItemActs(cs: seq<Change>, d: DbState)
    requires cs != [] && Apply(cs[0], d).outcome.Done?
    ensures var w1 := Apply(cs[0], d).db.world;
            && SameLibrary(d.world, w1) && InBounds(cs[0], Seen(cs, 0, d))
            && (forall l :: WritesTo(cs[0], l) ==> At(w1, l) == CellAfter(cs[0], d.world, Seen(cs, 0, d), l))
            && (forall l :: !WritesTo(cs[0], l) ==> At(w1, l) == At(d.world, l))
  {
    SeenAtStart(cs, 0, d);
    hide Apply, Seen, At, CellAfter, WritesTo, InBounds;
    var w1 := Apply(cs[0], d).db.world;
    ItemActs(cs[0], d, FundsAt(0));
    forall l ensures WritesTo(cs[0], l) ==> At(w1, l) == CellAfter(cs[0], d.world, Seen(cs, 0, d), l) {
      ItemActs(cs[0], d, l);
    }
    forall l | !WritesTo(cs[0], l) ensures At(w1, l) == At(d.world, l) {
      ApplyFrame(cs[0], d, l);
    }
  }

  // The inputs of an independent item are the same before and after another one.
  lemma SameStart(c: Change, q: Change, d: DbState)
    requires Independent(c, q) && Apply(c, d).outcome.Done?
    ensures var w1 := Apply(c, d).db.world;
            && SameLibrary(d.world, w1)
            && (ReadsCode(q) ==> At(w1, CodeAt(Target(q))) == At(d.world, CodeAt(Target(q))))
            && (q.ProxyUpgrade? ==> At(w1, CodeAt(q.proxy)) == At(d.world, CodeAt(q.proxy)))
  {
    hide Apply, At;
    ApplyKeepsLibrary(c, d);
    if ReadsCode(q) {
      assert ReadsFrom(q, CodeAt(Target(q)));
      ApplyFrame(c, d, CodeAt(Target(q)));
    }
    if q.ProxyUpgrade? {
      assert ReadsFrom(q, CodeAt(q.proxy));
      ApplyFrame(c, d, CodeAt(q.proxy));
    }
  }

  lemma {:induction false} ShiftedStart(cs: seq<Change>, i: nat, d: DbState)
    requires cs != [] && i < |cs| && AllIndependent(cs) && Apply(cs[0], d).outcome.Done?
    ensures Start(cs[1..], i, Apply(cs[0], d).db).readCount == Start(cs, i + 1, d).readCount
  {
    hide Apply, Independent;
    var d1 := Apply(cs[0], d).db;
    if i == 0 {
      ItemActs(cs[0], d, FundsAt(0));
      assert Start(cs, 1, d) == Start(cs, 0, d).Advance(ReadsOf(cs[0], d.world));
    } else {
      ShiftedStart(cs, i - 1, d);
      assert cs[1..][i - 1] == cs[i] && Independent(cs[0], cs[i]);
      SameStart(cs[0], cs[i], d);
    }
  }

  lemma LaterItem(cs: seq<Change>, i: nat, d: DbState)
    requires i + 1 < |cs| && AllIndependent(cs) && Apply(cs[0], d).outcome.Done?
    ensures var d1 := Apply(cs[0], d).db;
            && (RunsAlone(cs[1..], i, d1) <==> RunsAlone(cs, i + 1, d))
            && Seen(cs[1..], i, d1) == Seen(cs, i + 1, d)
            && (LookupLost(cs[1..], i, d1) <==> LookupLost(cs, i + 1, d))
  {
    hide Splice, SpliceAll, Effect, Independent;
    var d1, q := Apply(cs[0], d).db, cs[i + 1];
    assert Independent(cs[0], q) && cs[1..][i] == q;
    SameStart(cs[0], q, d);
    ShiftedStart(cs, i, d);
    ItemActs(cs[0], d, FundsAt(0));
    SameStep(q, Start(cs[1..], i, d1), Start(cs, i + 1, d));
  }

  // Whether an item gets through depends on the reads that fail and the codes it sees.
  lemma SameStep(q: Change, d: DbState, d': DbState)
    requires d.faults == d'.faults && d.readCount == d'.readCount && SameLibrary(d.world, d'.world)
    requires ReadsCode(q) ==> At(d.world, CodeAt(Target(q))) == At(d'.world, CodeAt(Target(q)))
    ensures Apply(q, d).outcome == Apply(q, d').outcome
  {
    hide Effect;
  }

  lemma SameCellAfter(q: Change, w: World, w': World, code: Bytes)
    requires SameLibrary(w, w') && InBounds(q, code)
    requires q.ProxyUpgrade? ==> At(w, CodeAt(q.proxy)) == At(w', CodeAt(q.proxy))
    ensures forall l :: WritesTo(q, l) ==> CellAfter(q, w, code, l) == CellAfter(q, w', code, l)
  {
    hide Splice, SpliceAll;
  }

  lemma TogetherAsSeen(cs: seq<Change>, d: DbState, d1: DbState, w': World)
    requires cs != [] && AllIndependent(cs) && Apply(cs[0], d).outcome.Done? && d1 == Apply(cs[0], d).db
    requires SimultaneousAsSeen(cs[1..], d1, w')
    requires SameLibrary(d.world, d1.world) && InBounds(cs[0], Seen(cs, 0, d))
    requires forall l :: WritesTo(cs[0], l) ==> At(d1.world, l) == CellAfter(cs[0], d.world, Seen(cs, 0, d), l)
    requires forall l :: !WritesTo(cs[0], l) ==> At(d1.world, l) == At(d.world, l)
    ensures SimultaneousAsSeen(cs, d, w')
  {
    hide Apply, WritesTo, ReadsFrom, At, CellAfter, InBounds, Seen, RunsAlone, LookupLost;
    var rest := cs[1..];
    assert forall j :: 0 <= j < |rest| ==> rest[j] == cs[j + 1];
    forall i | 0 <= i < |cs|
      ensures InBounds(cs[i], Seen(cs, i, d))
      ensures forall l :: WritesTo(cs[i], l) ==> At(w', l) == CellAfter(cs[i], d.world, Seen(cs, i, d), l)
    {
      if i == 0 {
        forall l | WritesTo(cs[0], l) ensures At(w', l) == At(d1.world, l) {
          assert !WrittenBy(rest, l);
        }
      } else {
        LaterItem(cs, i - 1, d);
        assert InBounds(rest[i - 1], Seen(rest, i - 1, d1));
        SameStart(cs[0], cs[i], d);
        SameCellAfter(cs[i], d1.world, d.world, Seen(cs, i, d));
      }
    }
    forall l | !WrittenBy(cs, l) ensures At(w', l) == At(d.world, l) {
      assert !WritesTo(cs[0], l) && !WrittenBy(rest, l);
    }
  }

  lemma NoWindowInNothing(offsets: seq<nat>)
    ensures WindowsInRange(offsets, 20, 0) <==> offsets == []
  {
    if offsets != [] {
      assert offsets[0] + 20 > 0;
    }
  }

  // An item that fits an empty code fits any: only items that patch nothing survive a lost lookup.
  lemma EmptyFits(c: Change, code: Bytes)
    requires InBounds(c, [])
    ensures InBounds(c, code) && (c.ProxyUpgrade? ==> c.offsets == [])
  {
    if c.ProxyUpgrade? {
      NoWindowInNothing(c.offsets);
    }
  }

  // So a run that gets through under any failing reads also fits without them.
  lemma SeenFits(cs: seq<Change>, d: DbState)
    requires forall i :: 0 <= i < |cs| ==> InBounds(cs[i], Seen(cs, i, d))
    ensures EachFits(cs, d.world)
    ensures forall i :: 0 <= i < |cs| && LookupLost(cs, i, d) && cs[i].ProxyUpgrade? ==> cs[i].offsets == []
  {
    hide WindowsInRange;
    forall i | 0 <= i < |cs|
      ensures Fits(cs[i], d.world) && (LookupLost(cs, i, d) && cs[i].ProxyUpgrade? ==> cs[i].offsets == [])
    {
      if LookupLost(cs, i, d) {
        EmptyFits(cs[i], Code(d.world, Target(cs[i])));
      }
    }
  }

  // With no lookup lost the code seen is the code there is.
  lemma AsSeenIsSimultaneous(cs: seq<Change>, d: DbState, w': World)
    requires SimultaneousAsSeen(cs, d, w') && forall i :: 0 <= i < |cs| ==> !LookupLost(cs, i, d)
    ensures Simultaneous(cs, d.world, w')
  {
    hide Performed, LookupLost, Code;
    SeenFits(cs, d);
    forall i, l | 0 <= i < |cs| && WritesTo(cs[i], l) ensures At(w', l) == At(Performed(cs[i], d.world), l) {
      assert Fits(cs[i], d.world);
      PerformedAsSeen(cs, i, d, l);
    }
  }

  lemma PerformedAsSeen(cs: seq<Change>, i: nat, d: DbState, l: Location)
    requires i < |cs| && !LookupLost(cs, i, d) && Fits(cs[i], d.world) && InBounds(cs[i], Seen(cs, i, d))
    ensures At(Performed(cs[i], d.world), l) == CellAfter(cs[i], d.world, Seen(cs, i, d), l)
  {
    hide Splice, SpliceAll, Effect, LookupLost;
    EffectCells(cs[i], d.world, Code(d.world, Target(cs[i])), l);
  }

  lemma FundsKeptAsSeen(cs: seq<Change>, d: DbState, w': World)
    requires SimultaneousAsSeen(cs, d, w')
    ensures forall a :: Info(w', a).nonce == Info(d.world, a).nonce && Info(w', a).balance == Info(d.world, a).balance
  {
    hide CellAfter, Seen, InBounds;
    forall a ensures Info(w', a).nonce == Info(d.world, a).nonce && Info(w', a).balance == Info(d.world, a).balance {
      assert !WrittenBy(cs, FundsAt(a));
      assert At(w', FundsAt(a)) == At(d.world, FundsAt(a));
    }
  }

  // ---------- The same run on a world with the lost codes emptied ----------

  function Emptied(w: World, lost: set<Address>): World {
    w.(accounts := w.accounts + map a | a in lost :: Info(w, a).(code := Some([])))
  }

  lemma EmptiedCells(w: World, lost: set<Address>)
    ensures SameLibrary(w, Emptied(w, lost))
    ensures forall a :: Code(Emptied(w, lost), a) == if a in lost then [] else Code(w, a)
    ensures forall l: Location :: !(l.CodeAt? && l.address in lost) ==> At(Emptied(w, lost), l) == At(w, l)
    ensures lost == {} ==> Emptied(w, lost) == w
  {
    if lost == {} {
      assert Emptied(w, lost).accounts == w.accounts;
    }
  }

  function Lost(cs: seq<Change>, d: DbState): set<Address> {
    set i | 0 <= i < |cs| && LookupLost(cs, i, d) :: Target(cs[i])
  }

  // No upgrade takes its contract for the proxy.
  predicate ProxiesElsewhere(cs: seq<Change>) {
    forall c :: c in cs && c.ProxyUpgrade? ==> c.proxy != c.contract
  }

  lemma OnlyOwnLoss(cs: seq<Change>, i: nat, d: DbState)
    requires i < |cs| && AllIndependent(cs) && ProxiesElsewhere(cs)
    ensures ReadsCode(cs[i]) ==> (Target(cs[i]) in Lost(cs, d) <==> LookupLost(cs, i, d))
    ensures cs[i].ProxyUpgrade? ==> cs[i].proxy !in Lost(cs, d)
  {
    hide Start, LookupLost;
    forall j | 0 <= j < |cs| && LookupLost(cs, j, d)
      ensures ReadsCode(cs[i]) && Target(cs[j]) == Target(cs[i]) ==> i == j
      ensures cs[i].ProxyUpgrade? ==> cs[i].proxy != Target(cs[j])
    {
      LostItemWrites(cs, j, d);
      assert cs[i] in cs;
      if i < j {
        assert Independent(cs[i], cs[j]);
      } else if j < i {
        assert Independent(cs[j], cs[i]);
      }
    }
  }

  lemma LostItemWrites(cs: seq<Change>, j: nat, d: DbState)
    requires j < |cs| && LookupLost(cs, j, d)
    ensures ReadsCode(cs[j]) && WritesTo(cs[j], CodeAt(Target(cs[j]))) && ReadsFrom(cs[j], CodeAt(Target(cs[j])))
  {
  }

  // Losing lookups is, cell by cell, running without failures on a world in which the codes looked
  // up are empty.
  lemma LostRun(cs: seq<Change>, d: DbState)
    requires AllIndependent(cs) && ProxiesElsewhere(cs) && RunChanges(cs, d).outcome.Done?
    ensures var w := Emptied(d.world, Lost(cs, d));
            && EachFits(cs, w) && AllFit(cs, w) && Same(RunChanges(cs, d).db.world, PerformedAll(cs, w))
  {
    hide RunChanges, PerformedAll, AllFit, Performed, RunsAlone, Lost, Emptied, At, Seen, LookupLost, Fits, InBounds,
         WritesTo, ReadsFrom, CellAfter, Independent, ProxiesElsewhere;
    var w, r := Emptied(d.world, Lost(cs, d)), RunChanges(cs, d).db.world;
    RunIsSimultaneous(cs, d);
    EmptiedCells(d.world, Lost(cs, d));
    forall i | 0 <= i < |cs|
      ensures Fits(cs[i], w)
      ensures forall l :: WritesTo(cs[i], l) ==>
                At(Performed(cs[i], w), l) == CellAfter(cs[i], d.world, Seen(cs, i, d), l)
    {
      LostItem(cs, i, d);
    }
    SequentialIsSimultaneous(cs, w);
    var w' := PerformedAll(cs, w);
    forall l ensures At(r, l) == At(w', l) {
      if WrittenBy(cs, l) {
        var i :| 0 <= i < |cs| && WritesTo(cs[i], l);
      } else if l.CodeAt? && l.address in Lost(cs, d) {
        LostIsWritten(cs, d, l.address);
        assert false;
      }
    }
  }

  lemma LostIsWritten(cs: seq<Change>, d: DbState, a: Address)
    requires a in Lost(cs, d)
    ensures WrittenBy(cs, CodeAt(a))
  {
    hide Start, LookupLost;
    var i :| 0 <= i < |cs| && LookupLost(cs, i, d) && Target(cs[i]) == a;
    LostItemWrites(cs, i, d);
  }

  lemma LostItem(cs: seq<Change>, i: nat, d: DbState)
    requires i < |cs| && AllIndependent(cs) && ProxiesElsewhere(cs) && InBounds(cs[i], Seen(cs, i, d))
    ensures var w := Emptied(d.world, Lost(cs, d));
            && Fits(cs[i], w)
            && forall l :: WritesTo(cs[i], l) ==>
                 At(Performed(cs[i], w), l) == CellAfter(cs[i], d.world, Seen(cs, i, d), l)
  {
    hide Lost, Emptied, Effect, Splice, SpliceAll, Start, AllIndependent, ProxiesElsewhere, UpgradeSlots;
    var w, c := Emptied(d.world, Lost(cs, d)), cs[i];
    EmptiedCells(d.world, Lost(cs, d));
    OnlyOwnLoss(cs, i, d);
    forall l | WritesTo(c, l) ensures At(Performed(c, w), l) == CellAfter(c, d.world, Seen(cs, i, d), l) {
      EffectCells(c, w, Code(w, Target(c)), l);
    }
  }

  // Without failing reads nothing is lost.
  lemma {:induction false} StartAdvances(cs: seq<Change>, i: nat, d: DbState)
    requires i <= |cs|
    ensures Start(cs, i, d).readCount >= d.readCount
  {
    if i > 0 {
      StartAdvances(cs, i - 1, d);
    }
  }

  lemma NothingLost(cs: seq<Change>, d: DbState)
    requires d.FaultFree()
    ensures forall i :: 0 <= i < |cs| ==> !LookupLost(cs, i, d)
    ensures Lost(cs, d) == {}
  {
    forall i | 0 <= i < |cs| ensures !LookupLost(cs, i, d) {
      StartAdvances(cs, i, d);
    }
  }
}
