/** Two lists of items that do not interfere with each other commute, whatever interference there
    is inside each list: a slot may be written twice, an account patched twice. */
module Commutation {
  import opened StateDb
  import opened Transitions
  import opened Simultaneity

  ghost predicate CrossIndependent(cs: seq<Change>, ds: seq<Change>) {
    forall c, d :: c in cs && d in ds ==> Independent(c, d)
  }

  // Either order of the lists fits or neither does, and both lead to the same world.
  ghost predicate Commute(cs: seq<Change>, ds: seq<Change>, w: World) {
    && (AllFit(cs + ds, w) <==> AllFit(ds + cs, w))
    && Same(PerformedAll(cs + ds, w), PerformedAll(ds + cs, w))
  }

  lemma IndependentSymmetric(c: Change, d: Change)
    requires Independent(c, d)
    ensures Independent(d, c)
  {
    hide WritesTo, ReadsFrom;
  }

  lemma SameTransitive(w: World, w': World, w'': World)
    requires Same(w, w') && Same(w', w'')
    ensures Same(w, w'')
  {
    hide At;
  }

  lemma SwapTwo(c: Change, d: Change, w: World)
    requires Independent(c, d)
    ensures Fits(d, Performed(c, w)) == Fits(d, w) && Fits(c, Performed(d, w)) == Fits(c, w)
    ensures Same(Performed(d, Performed(c, w)), Performed(c, Performed(d, w)))
  {
    IndependentSymmetric(c, d);
    UnaffectedBy(c, d, w);
    UnaffectedBy(d, c, w);
    var cw, dw := Performed(c, w), Performed(d, w);
    var cd, dc := Performed(d, cw), Performed(c, dw);
    hide Performed, WritesTo, ReadsFrom, Fits, At;
    PerformedKeepsLibrary(c, w);
    PerformedKeepsLibrary(d, w);
    PerformedKeepsLibrary(d, cw);
    PerformedKeepsLibrary(c, dw);
    forall l ensures At(cd, l) == At(dc, l) {
      SwappedCell(c, d, w, l);
    }
  }

  lemma UnfitChangesNothing(c: Change, w: World)
    ensures !Fits(c, w) ==> Performed(c, w) == w
  {
  }

  lemma SwappedCell(c: Change, d: Change, w: World, l: Location)
    requires Independent(c, d)
    ensures At(Performed(d, Performed(c, w)), l) == At(Performed(c, Performed(d, w)), l)
  {
    IndependentSymmetric(c, d);
    var cw, dw := Performed(c, w), Performed(d, w);
    UnfitChangesNothing(c, w);
    UnfitChangesNothing(d, w);
    UnfitChangesNothing(c, dw);
    UnfitChangesNothing(d, cw);
    hide Performed, ReadsFrom, Fits, At, WritesTo;
    UnaffectedBy(c, d, w);
    UnaffectedBy(d, c, w);
    if WritesTo(c, l) {
      assert !WritesTo(d, l);
      PerformedFrame(d, cw, l);
      PerformedFrame(d, w, l);
    } else if WritesTo(d, l) {
      PerformedFrame(c, dw, l);
      PerformedFrame(c, w, l);
    } else {
      PerformedFrame(c, w, l);
      PerformedFrame(d, w, l);
      PerformedFrame(d, cw, l);
      PerformedFrame(c, dw, l);
    }
  }

  // Worlds with the same cells fit the same lists and are taken to the same worlds.
  lemma {:induction false} PerformedCongruence(cs: seq<Change>, w: World, w': World)
    requires Same(w, w')
    ensures AllFit(cs, w) <==> AllFit(cs, w')
    ensures Same(PerformedAll(cs, w), PerformedAll(cs, w'))
  {
    hide Performed, WritesTo, ReadsFrom, Fits, At;
    if cs != [] {
      ItemCongruence(cs[0], w, w');
      PerformedCongruence(cs[1..], Performed(cs[0], w), Performed(cs[0], w'));
    }
  }

  lemma ItemCongruence(c: Change, w: World, w': World)
    requires Same(w, w')
    ensures Fits(c, w) == Fits(c, w') && Same(Performed(c, w), Performed(c, w'))
  {
    UnfitChangesNothing(c, w);
    UnfitChangesNothing(c, w');
    hide Performed, WritesTo, ReadsFrom, Fits, At;
    forall l ensures Alike(w, w', l) {
      SameIsAlike(w, w', l);
    }
    SameInputs(c, w, w');
    PerformedKeepsLibrary(c, w);
    PerformedKeepsLibrary(c, w');
    forall l ensures At(Performed(c, w), l) == At(Performed(c, w'), l) {
      if WritesTo(c, l) && Fits(c, w) {
        PerformedLocal(c, w, w', l);
      } else if !WritesTo(c, l) {
        PerformedFrame(c, w, l);
        PerformedFrame(c, w', l);
      }
    }
  }

  lemma {:induction false} MovePast(c: Change, ds: seq<Change>, w: World)
    requires forall d :: d in ds ==> Independent(c, d)
    ensures AllFit(ds, Performed(c, w)) <==> AllFit(ds, w)
    ensures Same(PerformedAll(ds, Performed(c, w)), Performed(c, PerformedAll(ds, w)))
    ensures Fits(c, PerformedAll(ds, w)) == Fits(c, w)
  {
    hide Performed, WritesTo, ReadsFrom, Fits, At, Independent, Same;
    if ds == [] {
      SameReflexive(Performed(c, w));
    } else {
      var d, rest := ds[0], ds[1..];
      assert d in ds;
      SwapTwo(c, d, w);
      PerformedCongruence(rest, Performed(d, Performed(c, w)), Performed(c, Performed(d, w)));
      MovePast(c, rest, Performed(d, w));
      SameTransitive(PerformedAll(ds, Performed(c, w)), PerformedAll(rest, Performed(c, Performed(d, w))),
                     Performed(c, PerformedAll(ds, w)));
    }
  }

  lemma SameReflexive(w: World)
    ensures Same(w, w)
  {
  }

  lemma {:induction false} MoveListPast(cs: seq<Change>, ds: seq<Change>, w: World)
    requires CrossIndependent(cs, ds)
    ensures AllFit(cs, w) && AllFit(ds, PerformedAll(cs, w)) <==> AllFit(ds, w) && AllFit(cs, PerformedAll(ds, w))
    ensures Same(PerformedAll(ds, PerformedAll(cs, w)), PerformedAll(cs, PerformedAll(ds, w)))
  {
    hide Performed, WritesTo, ReadsFrom, Fits, At, Independent, Same;
    if cs == [] {
      SameReflexive(PerformedAll(ds, w));
    } else {
      var c, rest := cs[0], cs[1..];
      assert c in cs;
      var cw, dw := Performed(c, w), PerformedAll(ds, w);
      MoveListPast(rest, ds, cw);
      MovePast(c, ds, w);
      PerformedCongruence(rest, PerformedAll(ds, cw), Performed(c, dw));
      SameTransitive(PerformedAll(ds, PerformedAll(cs, w)), PerformedAll(rest, PerformedAll(ds, cw)),
                     PerformedAll(cs, dw));
    }
  }

  // Lists that do not interfere with each other commute.
  lemma IndependentListsCommute(cs: seq<Change>, ds: seq<Change>, w: World)
    requires CrossIndependent(cs, ds)
    ensures Commute(cs, ds, w)
  {
    hide Performed, PerformedAll, AllFit, Same, CrossIndependent;
    PerformedConcat(cs, ds, w);
    PerformedConcat(ds, cs, w);
    MoveListPast(cs, ds, w);
  }
}
