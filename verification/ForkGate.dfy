/** How often the gate lets a fork's migration run over a chain of block timestamps. The proxy
    step is not idempotent, so the answer matters. */
module ForkGate {
  import opened Primitives
  import opened Hardforks

  // The gate is open in a window of two seconds from the fork's time, and never for a fork that
  // is active from genesis.
  lemma GateWindow(at: U64, timestamp: U64)
    ensures AtTransition(Timestamp(at), timestamp) <==> 1 <= at <= timestamp < at + 2
  {
  }

  // The gate agrees with the real transition from the parent block for every fork exactly when
  // the parent is two seconds older (or as old as a chain can be).
  lemma GateAgreesWithParent(parent: U64, timestamp: U64)
    requires parent < timestamp
    ensures (forall fork: ForkActivation ::
               AtTransition(fork, timestamp) <==> Active(fork, timestamp) && !Active(fork, parent))
            <==> parent == SaturatingSub(timestamp, 2)
  {
    var assumed := SaturatingSub(timestamp, 2);
    if parent != assumed {
      var witness' := Timestamp(if parent < assumed then parent + 1 else parent);
      assert !(AtTransition(witness', timestamp) <==> Active(witness', timestamp) && !Active(witness', parent));
    }
  }

  // ---------- Chains ----------

  // The number of blocks in which the gate is open.
  function Firings(fork: ForkActivation, chain: seq<U64>): nat {
    if chain == [] then 0
    else Firings(fork, chain[..|chain| - 1]) + if AtTransition(fork, chain[|chain| - 1]) then 1 else 0
  }

  lemma {:induction false} FiringsConcat(fork: ForkActivation, chain: seq<U64>, more: seq<U64>)
    ensures Firings(fork, chain + more) == Firings(fork, chain) + Firings(fork, more)
  {
    hide AtTransition;
    if more == [] {
      assert chain + more == chain;
    } else {
      assert (chain + more)[..|chain + more| - 1] == chain + more[..|more| - 1];
      FiringsConcat(fork, chain, more[..|more| - 1]);
    }
  }

  predicate GapsAtLeast(chain: seq<U64>, gap: nat) {
    forall i :: 0 <= i < |chain| - 1 ==> chain[i] + gap <= chain[i + 1]
  }

  predicate GapsAtMost(chain: seq<U64>, gap: nat) {
    forall i :: 0 <= i < |chain| - 1 ==> chain[i + 1] <= chain[i] + gap
  }

  predicate Crosses(chain: seq<U64>, at: U64) {
    chain != [] && chain[0] < at <= chain[|chain| - 1]
  }

  function Occurs(x: int, chain: seq<U64>): nat {
    if exists i :: 0 <= i < |chain| && chain[i] == x then 1 else 0
  }

  lemma {:induction false} LastIsLargest(chain: seq<U64>, i: nat)
    requires GapsAtLeast(chain, 1) && i < |chain| - 1
    ensures chain[i] < chain[|chain| - 1]
    decreases |chain| - i
  {
    if i + 1 < |chain| - 1 {
      LastIsLargest(chain, i + 1);
    }
    assert chain[i] + 1 <= chain[i + 1];
  }

  // Over strictly increasing timestamps the gate opens once for a block at the fork's time and
  // once for a block one second later.
  lemma {:induction false} FiringsExactly(at: U64, chain: seq<U64>)
    requires GapsAtLeast(chain, 1) && at >= 1
    ensures Firings(Timestamp(at), chain) == Occurs(at, chain) + Occurs(at + 1, chain)
  {
    if chain != [] {
      var init, last := chain[..|chain| - 1], chain[|chain| - 1];
      FiringsExactly(at, init);
      GateWindow(at, last);
      forall x: int ensures Occurs(x, chain) == Occurs(x, init) + if x == last then 1 else 0 {
        OccursInit(x, chain);
      }
    }
  }

  lemma OccursInit(x: int, chain: seq<U64>)
    requires chain != [] && GapsAtLeast(chain, 1)
    ensures Occurs(x, chain) == Occurs(x, chain[..|chain| - 1]) + if x == chain[|chain| - 1] then 1 else 0
  {
    var init, last := chain[..|chain| - 1], chain[|chain| - 1];
    if x == last {
      assert chain[|chain| - 1] == x;
      forall i | 0 <= i < |init| ensures init[i] != x {
        LastIsLargest(chain, i);
      }
    } else if Occurs(x, chain) == 1 {
      var i :| 0 <= i < |chain| && chain[i] == x;
      assert init[i] == x;
    } else {
      forall i | 0 <= i < |init| ensures init[i] != x {
        assert chain[i] != x;
      }
    }
  }

  lemma GenesisForkNeverFires(chain: seq<U64>)
    ensures Firings(Timestamp(0), chain) == 0 && Firings(Never, chain) == 0
  {
    if chain != [] {
      GenesisForkNeverFires(chain[..|chain| - 1]);
    }
  }

  // At most twice when timestamps strictly increase, at most once when they are two apart.
  lemma FiringsAtMost(fork: ForkActivation, chain: seq<U64>)
    requires GapsAtLeast(chain, 1)
    ensures Firings(fork, chain) <= 2
    ensures GapsAtLeast(chain, 2) ==> Firings(fork, chain) <= 1
  {
    if fork.Timestamp? && fork.at >= 1 {
      FiringsExactly(fork.at, chain);
      if GapsAtLeast(chain, 2) && Occurs(fork.at, chain) == 1 && Occurs(fork.at + 1, chain) == 1 {
        var i :| 0 <= i < |chain| && chain[i] == fork.at;
        var j :| 0 <= j < |chain| && chain[j] == fork.at + 1;
        TwoApart(chain, i, j);
      }
    } else {
      GenesisForkNeverFires(chain);
    }
  }

  predicate BothBlockTimes(at: U64, chain: seq<U64>) {
    Occurs(at, chain) == 1 && Occurs(at + 1, chain) == 1
  }

  lemma FiresTwiceIff(fork: ForkActivation, chain: seq<U64>)
    requires GapsAtLeast(chain, 1)
    ensures Firings(fork, chain) <= 2
    ensures Firings(fork, chain) == 2 <==> fork.Timestamp? && fork.at >= 1 && BothBlockTimes(fork.at, chain)
  {
    FiringsAtMost(fork, chain);
    GenesisForkNeverFires(chain);
    if fork.Timestamp? && fork.at >= 1 {
      FiringsExactly(fork.at, chain);
    }
  }

  lemma {:induction false} TwoApart(chain: seq<U64>, i: nat, j: nat)
    requires GapsAtLeast(chain, 2) && i < |chain| && j < |chain|
    ensures i < j ==> chain[i] as int + 2 <= chain[j]
    ensures j < i ==> chain[j] as int + 2 <= chain[i]
    decreases i + j
  {
    if i < j - 1 {
      TwoApart(chain, i, j - 1);
    } else if j < i - 1 {
      TwoApart(chain, i - 1, j);
    }
    assert 0 < j ==> chain[j - 1 + 1] - chain[j - 1] >= 2;
    assert 0 < i ==> chain[i - 1 + 1] - chain[i - 1] >= 2;
  }

  // A chain with gaps of at most two cannot step over the window.
  lemma {:induction false} FiresAtLeastOnce(at: U64, chain: seq<U64>)
    requires GapsAtMost(chain, 2) && Crosses(chain, at)
    ensures Firings(Timestamp(at), chain) >= 1
  {
    var init, last := chain[..|chain| - 1], chain[|chain| - 1];
    assert |chain| >= 2;
    var k := |chain| - 2;
    assert chain[k + 1] <= chain[k] as int + 2;
    if chain[k] >= at {
      FiresAtLeastOnce(at, init);
    } else {
      GateWindow(at, last);
    }
  }

  // At the block time of two seconds every fork the chain crosses fires exactly once.
  lemma FiresExactlyOnce(at: U64, chain: seq<U64>)
    requires GapsAtLeast(chain, 2) && GapsAtMost(chain, 2) && Crosses(chain, at)
    ensures Firings(Timestamp(at), chain) == 1
  {
    FiresAtLeastOnce(at, chain);
    FiringsAtMost(Timestamp(at), chain);
  }

  // At that spacing, exactly which chains run a fork's migration: those with a block at or past the
  // fork's time, the first of them not already two seconds past it.
  predicate InWindow(fork: ForkActivation, chain: seq<U64>) {
    fork.Timestamp? && fork.at >= 1 && chain != [] && chain[0] < fork.at + 2 && fork.at <= chain[|chain| - 1]
  }

  lemma FiresOnceIff(fork: ForkActivation, chain: seq<U64>)
    requires GapsAtLeast(chain, 2) && GapsAtMost(chain, 2)
    ensures Firings(fork, chain) == if InWindow(fork, chain) then 1 else 0
  {
    FiringsAtMost(fork, chain);
    if fork == Never || fork == Timestamp(0) {
      GenesisForkNeverFires(chain);
    } else if InWindow(fork, chain) {
      if chain[0] >= fork.at {
        GateWindow(fork.at, chain[0]);
        FirstBlockFires(fork, chain);
      } else {
        FiresAtLeastOnce(fork.at, chain);
      }
    } else {
      OutsideWindow(fork, chain);
    }
  }

  lemma {:induction false} FirstBlockFires(fork: ForkActivation, chain: seq<U64>)
    requires chain != [] && AtTransition(fork, chain[0])
    ensures Firings(fork, chain) >= 1
  {
    if |chain| > 1 {
      FirstBlockFires(fork, chain[..|chain| - 1]);
    }
  }

  lemma {:induction false} OutsideWindow(fork: ForkActivation, chain: seq<U64>)
    requires GapsAtLeast(chain, 1) && !InWindow(fork, chain)
    ensures Firings(fork, chain) == 0
  {
    if chain != [] {
      var last := chain[|chain| - 1];
      if |chain| > 1 {
        LastIsLargest(chain, 0);
        LastIsLargest(chain, |chain| - 2);
      }
      OutsideWindow(fork, chain[..|chain| - 1]);
      assert !AtTransition(fork, last);
    }
  }

  // The bounds on the gaps are needed: a three-second gap can miss the fork, and one-second
  // blocks can run its migration twice.
  lemma GapsMatter()
    ensures Crosses([9, 12, 14], 10) && Firings(Timestamp(10), [9, 12, 14]) == 0
    ensures Crosses([9, 10, 11, 12], 10) && Firings(Timestamp(10), [9, 10, 11, 12]) == 2
  {
    var a: seq<U64> := [9, 12, 14];
    var b: seq<U64> := [9, 10, 11, 12];
    forall x ensures Occurs(x, a) == (if x == 9 || x == 12 || x == 14 then 1 else 0) {
      assert a[0] == 9 && a[1] == 12 && a[2] == 14;
    }
    forall x ensures Occurs(x, b) == (if 9 <= x <= 12 then 1 else 0) {
      assert b[0] == 9 && b[1] == 10 && b[2] == 11 && b[3] == 12;
    }
    FiringsExactly(10, a);
    FiringsExactly(10, b);
  }
}
