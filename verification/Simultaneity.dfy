/** Items that do not interfere can be carried out one after the other, in any order, and the
    result is the one of carrying them all out at once on the original world. */
module Simultaneity {
  import opened ByteCodec
  import opened StateDb
  import opened Transitions

  // Neither item writes what the other reads or writes.
  ghost predicate Independent(p: Change, q: Change) {
    forall l :: (WritesTo(p, l) ==> !WritesTo(q, l) && !ReadsFrom(q, l))
             && (WritesTo(q, l) ==> !ReadsFrom(p, l))
  }

  ghost predicate AllIndependent(cs: seq<Change>) {
    forall i, j :: 0 <= i < j < |cs| ==> Independent(cs[i], cs[j])
  }

  ghost predicate EachFits(cs: seq<Change>, w: World) {
    forall i :: 0 <= i < |cs| ==> Fits(cs[i], w)
  }

  ghost predicate WrittenBy(cs: seq<Change>, l: Location) {
    exists i :: 0 <= i < |cs| && WritesTo(cs[i], l)
  }

  // Every cell an item writes holds what that item alone makes of the original world, and no
  // other cell has changed.
  ghost predicate Simultaneous(cs: seq<Change>, w: World, w': World) {
    && SameLibrary(w, w')
    && (forall i, l :: 0 <= i < |cs| && WritesTo(cs[i], l) ==> At(w', l) == At(Performed(cs[i], w), l))
    && (forall l :: !WrittenBy(cs, l) ==> At(w', l) == At(w, l))
  }

  lemma {:induction false} SequentialIsSimultaneous(cs: seq<Change>, w: World)
    requires AllIndependent(cs) && EachFits(cs, w)
    ensures AllFit(cs, w) && Simultaneous(cs, w, PerformedAll(cs, w))
  {
    hide Performed, WritesTo, ReadsFrom, Fits, At;
    if cs == [] {
    } else {
      var c, rest := cs[0], cs[1..];
      var w1 := Performed(c, w);
      var w' := PerformedAll(cs, w);
      PerformedKeepsLibrary(c, w);
      forall i | 0 <= i < |rest| ensures Fits(rest[i], w1) {
        assert rest[i] == cs[i + 1];
        UnaffectedBy(c, rest[i], w);
      }
      SequentialIsSimultaneous(rest, w1);
      forall i, l | 0 <= i < |cs| && WritesTo(cs[i], l) ensures At(w', l) == At(Performed(cs[i], w), l) {
        if i == 0 {
          assert forall j :: 0 <= j < |rest| ==> rest[j] == cs[j + 1];
          assert !WrittenBy(rest, l);
        } else {
          assert rest[i - 1] == cs[i];
          UnaffectedBy(c, cs[i], w);
        }
      }
      forall l | !WrittenBy(cs, l) ensures At(w', l) == At(w, l) {
        assert forall j :: 0 <= j < |rest| ==> rest[j] == cs[j + 1];
        assert !WrittenBy(rest, l);
        assert !WritesTo(cs[0], l);
        PerformedFrame(c, w, l);
      }
    }
  }

  // Independent items fit one after the other exactly when each fits the original world.
  lemma {:induction false} IndependentFit(cs: seq<Change>, w: World)
    requires AllIndependent(cs)
    ensures AllFit(cs, w) <==> EachFits(cs, w)
  {
    hide Performed, WritesTo, ReadsFrom, Fits;
    if cs != [] {
      var c, rest := cs[0], cs[1..];
      forall i | 0 <= i < |rest| ensures Fits(rest[i], Performed(c, w)) == Fits(cs[i + 1], w) {
        UnaffectedBy(c, rest[i], w);
      }
      IndependentFit(rest, Performed(c, w));
      assert forall i :: 0 < i < |cs| ==> cs[i] == rest[i - 1];
    }
  }

  lemma EachFitsConcat(cs: seq<Change>, ds: seq<Change>, w: World)
    ensures EachFits(cs + ds, w) <==> EachFits(cs, w) && EachFits(ds, w)
  {
    hide Fits;
    var all := cs + ds;
    assert forall i :: 0 <= i < |cs| ==> all[i] == cs[i];
    assert forall i :: 0 <= i < |ds| ==> all[|cs| + i] == ds[i];
    assert forall i :: |cs| <= i < |all| ==> all[i] == ds[i - |cs|];
    if EachFits(all, w) {
      forall i | 0 <= i < |ds| ensures Fits(ds[i], w) {
        assert Fits(all[|cs| + i], w);
      }
    }
  }

  // No item writes a nonce or a balance.
  lemma FundsKept(cs: seq<Change>, w: World, w': World)
    requires Simultaneous(cs, w, w')
    ensures forall a :: Info(w', a).nonce == Info(w, a).nonce && Info(w', a).balance == Info(w, a).balance
  {
    hide Performed;
    forall a ensures Info(w', a).nonce == Info(w, a).nonce && Info(w', a).balance == Info(w, a).balance {
      assert !WrittenBy(cs, FundsAt(a));
      assert At(w', FundsAt(a)) == At(w, FundsAt(a));
    }
  }

  lemma PerformedKeepsLibrary(c: Change, w: World)
    ensures SameLibrary(w, Performed(c, w))
  {
  }

  // However a run ends and whatever reads fail, it changes no cell that none of its items writes.
  lemma {:induction false} RunFrame(cs: seq<Change>, d: DbState, l: Location)
    requires !WrittenBy(cs, l)
    ensures At(RunChanges(cs, d).db.world, l) == At(d.world, l)
  {
    hide WritesTo, At;
    if cs != [] {
      assert !WritesTo(cs[0], l);
      ApplyFrame(cs[0], d, l);
      if Apply(cs[0], d).outcome.Done? {
        assert forall i :: 0 <= i < |cs[1..]| ==> cs[1..][i] == cs[i + 1];
        RunFrame(cs[1..], Apply(cs[0], d).db, l);
      }
    }
  }

  lemma {:induction false} RunKeepsLibrary(cs: seq<Change>, d: DbState)
    ensures SameLibrary(d.world, RunChanges(cs, d).db.world)
  {
    hide Apply;
    if cs != [] {
      ApplyKeepsLibrary(cs[0], d);
      if Apply(cs[0], d).outcome.Done? {
        RunKeepsLibrary(cs[1..], Apply(cs[0], d).db);
      }
    }
  }

  lemma ApplyKeepsLibrary(c: Change, d: DbState)
    ensures SameLibrary(d.world, Apply(c, d).db.world)
  {
    hide ChangeSet;
  }

  lemma ApplyFrame(c: Change, d: DbState, l: Location)
    requires !WritesTo(c, l)
    ensures SameLibrary(d.world, Apply(c, d).db.world) && At(Apply(c, d).db.world, l) == At(d.world, l)
  {
    hide Committed, ChangeSet, Splice, SpliceAll;
    if Apply(c, d).outcome.Done? {
      EffectCells(c, d.world, CodeSeen(c, d), l);
    }
  }

  // An independent item finds the same inputs after `c` as before it, and so writes the same.
  lemma UnaffectedBy(c: Change, q: Change, w: World)
    requires Independent(c, q)
    ensures Fits(q, Performed(c, w)) == Fits(q, w)
    ensures forall l :: WritesTo(q, l) && Fits(q, w) ==> At(Performed(q, Performed(c, w)), l) == At(Performed(q, w), l)
  {
    hide Performed, WritesTo, ReadsFrom, Fits, At;
    var w1 := Performed(c, w);
    PerformedKeepsLibrary(c, w);
    forall l | ReadsFrom(q, l) ensures Alike(w, w1, l) {
      PerformedFrame(c, w, l);
      SameIsAlike(w, w1, l);
    }
    SameInputs(q, w, w1);
    forall l | WritesTo(q, l) && Fits(q, w) ensures At(Performed(q, w1), l) == At(Performed(q, w), l) {
      PerformedLocal(q, w, w1, l);
    }
  }

  // Any order of the items leads to the same world.
  lemma OrderDoesNotMatter(cs: seq<Change>, permuted: seq<Change>, w: World)
    requires AllIndependent(cs) && EachFits(cs, w)
    requires multiset(cs) == multiset(permuted)
    ensures AllFit(cs, w) && AllFit(permuted, w)
    ensures Same(PerformedAll(cs, w), PerformedAll(permuted, w))
  {
    hide Performed, PerformedAll, AllFit, WritesTo, ReadsFrom, Fits, At;
    PermutedIndependent(cs, permuted);
    SameElements(cs, permuted);
    forall i | 0 <= i < |permuted| ensures Fits(permuted[i], w) {
      assert permuted[i] in cs;
    }
    SequentialIsSimultaneous(cs, w);
    SequentialIsSimultaneous(permuted, w);
    var a, b := PerformedAll(cs, w), PerformedAll(permuted, w);
    forall l ensures At(a, l) == At(b, l) {
      if WrittenBy(cs, l) {
        var i :| 0 <= i < |cs| && WritesTo(cs[i], l);
        assert cs[i] in permuted;
        var j :| 0 <= j < |permuted| && permuted[j] == cs[i];
      } else {
        forall j | 0 <= j < |permuted| ensures !WritesTo(permuted[j], l) {
          assert permuted[j] in cs;
        }
        assert !WrittenBy(permuted, l);
      }
    }
  }

  lemma SomethingWritten(c: Change)
    ensures !Independent(c, c)
  {
    match c
    case ProxyUpgrade(_, _, _, _, _, _, _) => assert WritesTo(c, CodeAt(c.contract));
    case SlotWrite(a, s, _) => assert WritesTo(c, SlotAt(a, s));
    case ForceDeploy(a, _, _) => assert WritesTo(c, CodeAt(a));
    case CodePatch(a, _, _) => assert WritesTo(c, CodeAt(a));
  }

  lemma {:induction false} CountAtLeastTwo<T>(s: seq<T>, i: nat, j: nat)
    requires i < j < |s| && s[i] == s[j]
    ensures multiset(s)[s[i]] >= 2
  {
    assert s == s[..j] + s[j..];
    assert s[i] in s[..j] && s[j] in s[j..];
    assert multiset(s) == multiset(s[..j]) + multiset(s[j..]);
  }

  lemma TwoOccurrences<T>(s: seq<T>, x: T) returns (i: nat, j: nat)
    requires multiset(s)[x] >= 2
    ensures i < j < |s| && s[i] == s[j] == x
  {
    assert x in multiset(s);
    i :| 0 <= i < |s| && s[i] == x;
    var others := s[..i] + s[i + 1..];
    assert s == s[..i] + [x] + s[i + 1..];
    assert multiset(s) == multiset(others) + multiset{x};
    assert x in multiset(others);
    var k :| 0 <= k < |others| && others[k] == x;
    if k < i {
      i, j := k, i;
    } else {
      j := k + 1;
    }
  }

  lemma NoRepeats(cs: seq<Change>, c: Change)
    requires AllIndependent(cs)
    ensures multiset(cs)[c] < 2
  {
    hide Independent;
    if multiset(cs)[c] >= 2 {
      var i, j := TwoOccurrences(cs, c);
      SomethingWritten(c);
    }
  }

  lemma PermutedIndependent(cs: seq<Change>, permuted: seq<Change>)
    requires AllIndependent(cs) && multiset(cs) == multiset(permuted)
    ensures AllIndependent(permuted)
  {
    hide WritesTo, ReadsFrom;
    SameElements(cs, permuted);
    forall i, j | 0 <= i < j < |permuted| ensures Independent(permuted[i], permuted[j]) {
      var p, q := permuted[i], permuted[j];
      if p == q {
        CountAtLeastTwo(permuted, i, j);
        NoRepeats(cs, p);
        assert false;
      } else {
        assert p in cs && q in cs;
        var i' :| 0 <= i' < |cs| && cs[i'] == p;
        var j' :| 0 <= j' < |cs| && cs[j'] == q;
        if i' < j' {
          assert Independent(cs[i'], cs[j']);
        } else {
          assert Independent(cs[j'], cs[i']);
        }
      }
    }
  }
}
