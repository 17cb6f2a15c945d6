/** Big-endian encodings, the derived implementation address, and byte splicing. */
module ByteCodec {
  import opened Primitives

  // ---------- Big-endian numbers ----------

  function Pow256(k: nat): (p: nat)
    ensures p > 0
  {
    if k == 0 then 1 else 256 * Pow256(k - 1)
  }

  function FromBigEndian(b: Bytes): nat {
    if b == [] then 0 else 256 * FromBigEndian(b[..|b| - 1]) + b[|b| - 1]
  }

  // The low k bytes of n, most significant first.
  function ToBigEndian(n: nat, k: nat): (b: Bytes)
    ensures |b| == k
  {
    if k == 0 then [] else ToBigEndian(n / 256, k - 1) + [n % 256]
  }

  lemma {:induction false} DecodeBound(b: Bytes)
    ensures FromBigEndian(b) < Pow256(|b|)
  {
    if b != [] {
      DecodeBound(b[..|b| - 1]);
    }
  }

  lemma {:induction false} EncodeDecode(b: Bytes)
    ensures ToBigEndian(FromBigEndian(b), |b|) == b
  {
    if b != [] {
      var init := b[..|b| - 1];
      EncodeDecode(init);
      assert FromBigEndian(b) / 256 == FromBigEndian(init);
      assert b == init + [b[|b| - 1]];
    }
  }

  lemma {:induction false} DecodeEncode(n: nat, k: nat)
    ensures FromBigEndian(ToBigEndian(n, k)) == n % Pow256(k)
  {
    if k != 0 {
      var b := ToBigEndian(n, k);
      assert b[..k - 1] == ToBigEndian(n / 256, k - 1);
      DecodeEncode(n / 256, k - 1);
      ModSplit(n, Pow256(k - 1));
    }
  }

  lemma ModSplit(n: nat, m: nat)
    requires m > 0
    ensures 256 * (n / 256 % m) + n % 256 == n % (256 * m)
  {
    var h, q, r := n / 256, n / 256 / m, n / 256 % m;
    assert h == m * q + r;
    assert n == 256 * m * q + (256 * r + n % 256) by {
      assert n == 256 * h + n % 256;
      assert 256 * (m * q) == 256 * m * q;
    }
    RemainderIsUnique(n, 256 * m, q, 256 * r + n % 256);
  }

  lemma RemainderIsUnique(n: nat, m: nat, q: nat, r: nat)
    requires 0 <= r < m && n == m * q + r
    ensures n % m == r
  {
    var q', r' := n / m, n % m;
    assert n == m * q' + r';
    assert m * (q - q') == r' - r by {
      assert m * (q - q') == m * q - m * q';
    }
    MultipleIsLarge(m, q - q');
  }

  lemma MultipleIsLarge(m: nat, t: int)
    ensures t >= 1 ==> m * t >= m
    ensures t <= -1 ==> m * t + m <= 0
  {
  }

  lemma {:induction false} DecodeConcat(a: Bytes, b: Bytes)
    ensures FromBigEndian(a + b) == FromBigEndian(a) * Pow256(|b|) + FromBigEndian(b)
  {
    if b == [] {
      assert a + b == a;
    } else {
      var init := b[..|b| - 1];
      assert (a + b)[..|a + b| - 1] == a + init;
      DecodeConcat(a, init);
      assert 256 * (FromBigEndian(a) * Pow256(|init|)) == FromBigEndian(a) * Pow256(|b|);
    }
  }

  // Encoding in fewer bytes keeps the low ones.
  lemma {:induction false} EncodeSuffix(n: nat, k: nat, j: nat)
    requires j <= k
    ensures ToBigEndian(n, k)[k - j..] == ToBigEndian(n, j)
  {
    if j != 0 {
      EncodeSuffix(n / 256, k - 1, j - 1);
    }
  }

  lemma Powers()
    ensures Pow256(3) == 0x1000000
    ensures Pow256(17) == TWO_136 && Pow256(20) == TWO_160
    ensures Pow256(32) == TWO_256
  {
    assert Pow256(8) == 0x1_00000000_00000000;
    assert Pow256(16) == 0x1_00000000_00000000_00000000_00000000;
    assert Pow256(24) == 0x1_00000000_00000000_00000000_00000000_00000000_00000000;
  }

  // ---------- Addresses and words ----------

  function AddressBytes(a: Address): (b: Bytes)
    ensures |b| == 20
  {
    ToBigEndian(a, 20)
  }

  function AddressFromBytes(b: Bytes): Address
    requires |b| == 20
  {
    DecodeBound(b);
    Powers();
    FromBigEndian(b)
  }

  // A byte string shorter than a word, padded on the left with zeros and read as a number.
  function LeftPaddedWord(b: Bytes): Word
    requires |b| <= 32
  {
    var padded: Bytes := seq(32 - |b|, i => 0) + b;
    DecodeBound(padded);
    Powers();
    FromBigEndian(padded)
  }

  function AddressWord(a: Address): Word {
    LeftPaddedWord(AddressBytes(a))
  }

  const IMPLEMENTATION_PREFIX: Bytes := [252, 192, 211]

  // The address with its first three bytes overwritten.
  function ImplementationAddress(a: Address): Address {
    AddressFromBytes(Splice(AddressBytes(a), 0, IMPLEMENTATION_PREFIX))
  }

  lemma AddressRoundTrip(a: Address)
    ensures AddressFromBytes(AddressBytes(a)) == a
  {
    DecodeEncode(a, 20);
    Powers();
  }

  lemma {:induction false} DecodeZeros(k: nat)
    ensures FromBigEndian(seq(k, i => 0)) == 0
  {
    if k != 0 {
      var zeros: Bytes := seq(k, i => 0);
      assert zeros[..k - 1] == seq(k - 1, i => 0);
      DecodeZeros(k - 1);
    }
  }

  // The word a proxy stores is the address itself: its low 160 bits decode back to it.
  lemma AddressWordDecodes(a: Address)
    ensures AddressWord(a) == a
    ensures AddressFromBytes(ToBigEndian(AddressWord(a), 32)[12..]) == a
  {
    AddressWordIsAddress(a);
    EncodeSuffix(a, 32, 20);
    AddressRoundTrip(a);
  }

  lemma AddressWordIsAddress(a: Address)
    ensures AddressWord(a) == a
  {
    var zeros: Bytes := seq(12, i => 0);
    var address := AddressBytes(a);
    DecodeConcat(zeros, address);
    DecodeZeros(12);
    AddressRoundTrip(a);
  }

  lemma ImplementationAddressArithmetic(a: Address)
    ensures ImplementationAddress(a) == 0xfcc0d3 * TWO_136 + a % TWO_136
  {
    var tail := AddressBytes(a)[3..];
    assert Splice(AddressBytes(a), 0, IMPLEMENTATION_PREFIX) == IMPLEMENTATION_PREFIX + tail;
    DecodeConcat(IMPLEMENTATION_PREFIX, tail);
    EncodeSuffix(a, 20, 17);
    DecodeEncode(a, 17);
    Powers();
    assert FromBigEndian(IMPLEMENTATION_PREFIX) == 0xfcc0d3 by {
      var two: Bytes, one: Bytes := [252, 192], [252];
      assert IMPLEMENTATION_PREFIX[..2] == two && two[..1] == one && one[..0] == [];
    }
  }

  // The derived address map is idempotent, fixes exactly the addresses that already carry the
  // prefix, and identifies two addresses exactly when their last 17 bytes agree.
  lemma ImplementationAddressLaws(a: Address, b: Address)
    ensures ImplementationAddress(ImplementationAddress(a)) == ImplementationAddress(a)
    ensures ImplementationAddress(a) == a <==> AddressBytes(a)[..3] == IMPLEMENTATION_PREFIX
    ensures ImplementationAddress(a) == ImplementationAddress(b) <==> AddressBytes(a)[3..] == AddressBytes(b)[3..]
  {
    ImplementationAddressArithmetic(a);
    ImplementationAddressArithmetic(b);
    ImplementationAddressArithmetic(ImplementationAddress(a));
    ImplementationAddressBytes(a);
    ImplementationAddressBytes(b);
    assert AddressBytes(a) == AddressBytes(a)[..3] + AddressBytes(a)[3..];
    AddressRoundTrip(a);
    AddressRoundTrip(ImplementationAddress(a));
  }

  lemma ImplementationAddressBytes(a: Address)
    ensures AddressBytes(ImplementationAddress(a)) == IMPLEMENTATION_PREFIX + AddressBytes(a)[3..]
  {
    var b := Splice(AddressBytes(a), 0, IMPLEMENTATION_PREFIX);
    EncodeDecode(b);
  }

  // ---------- Splicing ----------

  function Splice(code: Bytes, at: nat, patch: Bytes): (r: Bytes)
    requires at + |patch| <= |code|
    ensures |r| == |code|
  {
    code[..at] + patch + code[at + |patch|..]
  }

  lemma SpliceAt(code: Bytes, at: nat, patch: Bytes, k: nat)
    requires at + |patch| <= |code| && k < |code|
    ensures Splice(code, at, patch)[k] == if at <= k < at + |patch| then patch[k - at] else code[k]
  {
  }

  predicate WindowsInRange(offsets: seq<nat>, width: nat, length: nat) {
    forall i :: 0 <= i < |offsets| ==> offsets[i] + width <= length
  }

  // The patch copied in at every offset, first to last.
  function SpliceAll(code: Bytes, offsets: seq<nat>, patch: Bytes): (r: Bytes)
    requires WindowsInRange(offsets, |patch|, |code|)
    ensures |r| == |code|
  {
    if offsets == [] then code
    else Splice(SpliceAll(code, offsets[..|offsets| - 1], patch), offsets[|offsets| - 1], patch)
  }

  predicate Uncovered(offsets: seq<nat>, width: nat, k: nat) {
    forall i :: 0 <= i < |offsets| ==> !(offsets[i] <= k < offsets[i] + width)
  }

  // The last listed window that covers position k, if any does.
  function LastCover(offsets: seq<nat>, width: nat, k: nat): (o: Option<nat>)
    ensures o.Some? ==> o.value in offsets && o.value <= k < o.value + width
    ensures o.None? ==> Uncovered(offsets, width, k)
  {
    if offsets == [] then None
    else
      var last := offsets[|offsets| - 1];
      if last <= k < last + width then Some(last) else LastCover(offsets[..|offsets| - 1], width, k)
  }

  // Whatever the overlaps, each byte comes from the last window that covers it.
  lemma {:induction false} SpliceAllPointwise(code: Bytes, offsets: seq<nat>, patch: Bytes, k: nat)
    requires WindowsInRange(offsets, |patch|, |code|) && k < |code|
    ensures SpliceAll(code, offsets, patch)[k] ==
            match LastCover(offsets, |patch|, k) case None => code[k] case Some(o) => patch[k - o]
  {
    if offsets != [] {
      var init, last := offsets[..|offsets| - 1], offsets[|offsets| - 1];
      SpliceAllPointwise(code, init, patch, k);
      SpliceAt(SpliceAll(code, init, patch), last, patch, k);
    }
  }

  predicate WindowsDisjoint(offsets: seq<nat>, width: nat) {
    forall i, j :: 0 <= i < j < |offsets| ==>
      offsets[i] + width <= offsets[j] || offsets[j] + width <= offsets[i]
  }

  // With disjoint windows the loop is a simultaneous overlay: the patch in every window and the
  // original bytes elsewhere.
  lemma SpliceAllIsOverlay(code: Bytes, offsets: seq<nat>, patch: Bytes)
    requires WindowsInRange(offsets, |patch|, |code|) && WindowsDisjoint(offsets, |patch|)
    ensures |SpliceAll(code, offsets, patch)| == |code|
    ensures forall i :: 0 <= i < |offsets| ==>
              SpliceAll(code, offsets, patch)[offsets[i]..offsets[i] + |patch|] == patch
    ensures forall k :: 0 <= k < |code| && Uncovered(offsets, |patch|, k) ==>
              SpliceAll(code, offsets, patch)[k] == code[k]
  {
    var r := SpliceAll(code, offsets, patch);
    forall i | 0 <= i < |offsets|
      ensures r[offsets[i]..offsets[i] + |patch|] == patch
    {
      OverlayWindow(code, offsets, patch, i);
    }
    forall k | 0 <= k < |code| && Uncovered(offsets, |patch|, k) ensures r[k] == code[k] {
      SpliceAllPointwise(code, offsets, patch, k);
    }
  }

  lemma OverlayWindow(code: Bytes, offsets: seq<nat>, patch: Bytes, i: nat)
    requires WindowsInRange(offsets, |patch|, |code|) && WindowsDisjoint(offsets, |patch|)
    requires i < |offsets|
    ensures SpliceAll(code, offsets, patch)[offsets[i]..offsets[i] + |patch|] == patch
  {
    var o, r := offsets[i], SpliceAll(code, offsets, patch);
    assert o in offsets && o + |patch| <= |r|;
    hide WindowsInRange, WindowsDisjoint, SpliceAll, LastCover, Splice;
    forall k | o <= k < o + |patch| ensures r[k] == patch[k - o] {
      OverlayByte(code, offsets, patch, o, k);
    }
    SliceIs(r, o, patch);
  }

  lemma SliceIs(r: Bytes, o: nat, patch: Bytes)
    requires o + |patch| <= |r| && forall k :: o <= k < o + |patch| ==> r[k] == patch[k - o]
    ensures r[o..o + |patch|] == patch
  {
  }

  lemma OverlayByte(code: Bytes, offsets: seq<nat>, patch: Bytes, o: nat, k: nat)
    requires WindowsInRange(offsets, |patch|, |code|) && WindowsDisjoint(offsets, |patch|)
    requires o in offsets && o <= k < o + |patch|
    ensures k < |code| && SpliceAll(code, offsets, patch)[k] == patch[k - o]
  {
    hide SpliceAll, Splice;
    OneCover(offsets, |patch|, k, o);
    SpliceAllPointwise(code, offsets, patch, k);
  }

  // Disjoint windows cover a position at most once.
  lemma OneCover(offsets: seq<nat>, width: nat, k: nat, o: nat)
    requires WindowsDisjoint(offsets, width)
    requires o in offsets && o <= k < o + width
    ensures LastCover(offsets, width, k) == Some(o)
  {
    var c := LastCover(offsets, width, k);
    assert c.Some?;
    var i :| 0 <= i < |offsets| && offsets[i] == o;
    var j :| 0 <= j < |offsets| && offsets[j] == c.value;
    assert i == j by {
      assert !(offsets[i] + width <= offsets[j]) && !(offsets[j] + width <= offsets[i]);
    }
  }

  // The order in which disjoint windows are listed does not matter.
  lemma SpliceAllAnyOrder(code: Bytes, offsets: seq<nat>, permuted: seq<nat>, patch: Bytes)
    requires WindowsInRange(offsets, |patch|, |code|) && WindowsDisjoint(offsets, |patch|)
    requires multiset(offsets) == multiset(permuted)
    ensures WindowsInRange(permuted, |patch|, |code|)
    ensures SpliceAll(code, permuted, patch) == SpliceAll(code, offsets, patch)
  {
    SameElements(offsets, permuted);
    assert forall o :: o in offsets ==> o + |patch| <= |code|;
    assert forall i :: 0 <= i < |permuted| ==> permuted[i] in permuted;
    var r, r' := SpliceAll(code, offsets, patch), SpliceAll(code, permuted, patch);
    forall k | 0 <= k < |code| ensures r[k] == r'[k] {
      SpliceAllPointwise(code, offsets, patch, k);
      SpliceAllPointwise(code, permuted, patch, k);
      SameCover(offsets, permuted, |patch|, k);
    }
  }

  lemma SameCover(offsets: seq<nat>, permuted: seq<nat>, width: nat, k: nat)
    requires WindowsDisjoint(offsets, width) && multiset(offsets) == multiset(permuted)
    ensures LastCover(offsets, width, k) == LastCover(permuted, width, k)
  {
    SameElements(offsets, permuted);
    match LastCover(permuted, width, k) {
      case Some(o) => OneCover(offsets, width, k, o);
      case None =>
        assert forall o :: o in permuted ==> !(o <= k < o + width);
    }
  }

  lemma SameElements<T>(a: seq<T>, b: seq<T>)
    requires multiset(a) == multiset(b)
    ensures forall x :: x in a <==> x in b
  {
    assert forall x :: x in a <==> x in multiset(a);
    assert forall x :: x in b <==> x in multiset(b);
  }

  // Patching again changes nothing, for any in-range windows.
  lemma SpliceAllIdempotent(code: Bytes, offsets: seq<nat>, patch: Bytes)
    requires WindowsInRange(offsets, |patch|, |code|)
    ensures SpliceAll(SpliceAll(code, offsets, patch), offsets, patch) == SpliceAll(code, offsets, patch)
  {
    var r := SpliceAll(code, offsets, patch);
    forall k | 0 <= k < |code| ensures SpliceAll(r, offsets, patch)[k] == r[k] {
      SpliceAllPointwise(code, offsets, patch, k);
      SpliceAllPointwise(r, offsets, patch, k);
    }
  }

  // `copy_from_slice` into a window of a buffer.
  method CopyFromSlice(buffer: array<Byte>, at: nat, source: Bytes)
    requires at + |source| <= buffer.Length
    modifies buffer
    ensures buffer[..] == Splice(old(buffer[..]), at, source)
  {
    for i := 0 to |source|
      invariant forall k :: 0 <= k < buffer.Length ==>
                              buffer[k] == if at <= k < at + i then source[k - at] else old(buffer[k])
    {
      buffer[at + i] := source[i];
    }
  }
}
