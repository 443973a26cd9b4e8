/** `try_increase_info`: giving up one hash bit per info byte, eight bytes at a time. */
module Narrowing {
  import opened Words
  import opened RobinHood

  const LOW_BITS := 0x7f7f_7f7f_7f7f_7f7f

  /** The little-endian number that a run of bytes is loaded as. */
  function Load(bytes: seq<Byte>): (x: nat)
    ensures bytes == [] ==> x == 0
  {
    if bytes == [] then 0 else bytes[0] + 256 * Load(bytes[1..])
  }

  /** The n bytes a number is stored as. */
  function Store(x: nat, n: nat): (bytes: seq<Byte>)
    ensures |bytes| == n
  {
    if n == 0 then [] else [x % 256] + Store(x / 256, n - 1)
  }

  function Halves(bytes: seq<Byte>): (r: seq<Byte>)
    ensures |r| == |bytes|
    ensures forall i :: 0 <= i < |r| ==> r[i] == bytes[i] / 2
  {
    if bytes == [] then [] else [bytes[0] / 2] + Halves(bytes[1..])
  }

  /** n bytes of 0x7f. */
  function Mask(n: nat): nat {
    if n == 0 then 0 else 0x7f + 256 * Mask(n - 1)
  }

  /** The bitwise and splits at every bit position. */
  lemma {:induction false} AndSplits(low: nat, a: nat, mask: nat, b: nat, k: nat)
    requires low < Pow2(k) && mask < Pow2(k)
    ensures BitAnd(low + Pow2(k) * a, mask + Pow2(k) * b) == BitAnd(low, mask) + Pow2(k) * BitAnd(a, b)
  {
    hide BitAnd, Pow2;
    Pow2Halves(k);
    if k == 0 {
      assert low == 0 && mask == 0;
      BitAndStep(0, 0);
    } else {
      var p := Pow2(k - 1);
      AndSplits(low / 2, a, mask / 2, b, k - 1);
      HalfOf(low, a, p);
      HalfOf(mask, b, p);
      BitAndStep(low + Pow2(k) * a, mask + Pow2(k) * b);
      BitAndStep(low, mask);
      MulAssoc(2, p, BitAnd(a, b));
    }
  }

  lemma HalfOf(low: nat, a: nat, p: nat)
    ensures (low + 2 * p * a) / 2 == low / 2 + p * a
    ensures (low + 2 * p * a) % 2 == low % 2
  {
  }

  /** One byte of the masked shift: the bit that falls in from the byte above is cleared. */
  lemma MaskedByte(b: Byte, x: nat, mask: nat)
    ensures BitAnd((b + 256 * x) / 2, 0x7f + 256 * mask) == b / 2 + 256 * BitAnd(x / 2, mask)
  {
    hide BitAnd;
    var low := b / 2 + 128 * (x % 2);
    assert (b + 256 * x) / 2 == low + 256 * (x / 2);
    assert Pow2(8) == 256 && Pow2(7) == 128;
    AndSplits(low, x / 2, 0x7f, mask, 8);
    BitAndMask(low, 7);
  }

  /** The shift lets the low bit of each byte fall into the byte below; the mask clears it there. */
  lemma {:induction false} MaskedShift(bytes: seq<Byte>)
    ensures BitAnd(Load(bytes) / 2, Mask(|bytes|)) == Load(Halves(bytes))
  {
    if bytes == [] {
    } else {
      var rest := bytes[1..];
      MaskedShift(rest);
      assert Halves(bytes)[1..] == Halves(rest);
      MaskedByte(bytes[0], Load(rest), Mask(|rest|));
    }
  }

  lemma {:induction false} StoreLoad(bytes: seq<Byte>)
    ensures Store(Load(bytes), |bytes|) == bytes
  {
    if bytes == [] {
    } else {
      StoreLoad(bytes[1..]);
    }
  }

  /** The step of the narrowing loop halves each of its eight bytes. */
  lemma EightBytes(bytes: seq<Byte>)
    requires |bytes| == 8
    ensures Store(BitAnd(Load(bytes) / 2, LOW_BITS), 8) == Halves(bytes)
  {
    MaskedShift(bytes);
    StoreLoad(Halves(bytes));
    MaskOf8();
  }

  lemma MaskOf8()
    ensures Mask(8) == LOW_BITS
  {
  }

  // ----- the whole table -----

  /** The table after one narrowing: half the increment, one hash bit less. */
  ghost predicate Narrows<K, V>(t: Snap<K, V>, r: Snap<K, V>) {
    && Shape(t) && Shape(r) && t.inc > 2 && r.n == t.n && r.hash == t.hash && r.slots == t.slots
    && r.inc == t.inc / 2 && r.shift == t.shift + 1
    && forall i :: 0 <= i < Total(t) ==> r.info[i] == t.info[i] / 2
  }

  lemma WidthHalves(inc: nat, shift: nat)
    requires IsWidth(inc, shift) && inc > 2
    ensures IsWidth(inc / 2, shift + 1) && inc % 2 == 0 && inc / 2 <= 16
  {
  }

  lemma HashBitsHalve(h: nat, shift: nat)
    ensures HashBits(h, shift + 1) == HashBits(h, shift) / 2
  {
    var a, p := h % 32, Pow2(shift);
    var q := a / p / 2;
    assert a == a / p * p + a % p;
    assert a / p == 2 * q + a / p % 2;
    NestedDivision(a, p, q, a / p % 2, a % p);
  }

  lemma NestedDivision(a: int, p: int, q: int, b: int, r: int)
    requires p > 0 && 0 <= r < p && 0 <= b < 2 && a == (2 * q + b) * p + r
    ensures a / (2 * p) == q
  {
    assert (2 * q + b) * p == q * (2 * p) + b * p;
    DivMod(a, q, 2 * p, b * p + r);
  }

  /** Half of a key's info byte is what `keyToIdx` and `next` compute with the new settings. */
  lemma KeyInfoHalves<K, V>(t: Snap<K, V>, r: Snap<K, V>, k: K, j: int)
    requires Narrows(t, r)
    ensures KeyHome(r, k) == KeyHome(t, k) && KeyInfo(r, k, j) == KeyInfo(t, k, j) / 2
  {
    WidthHalves(t.inc, t.shift);
    HashBitsHalve(t.hash(k), t.shift);
    HalfInfo(j - KeyHome(t, k) + 1, t.inc / 2, HashBits(t.hash(k), t.shift));
  }

  lemma HalfInfo(d: int, inc: int, bits: int)
    ensures (d * (2 * inc) + bits) / 2 == d * inc + bits / 2
  {
  }

  lemma NarrowingHolds<K, V>(t: Snap<K, V>, r: Snap<K, V>, i: int)
    requires Inv(t) && Narrows(t, r)
    ensures Occupied(r, i) == Occupied(t, i)
    ensures Occupied(r, i) ==> r.slots[i].Some? && Holds(r, i, r.slots[i].value.key) && r.info[i] + r.inc <= 0xFF
  {
    hide Inv, KeyInfo, KeyHome, IsWidth;
    assert Shape(t) && Shape(r);
    WidthHalves(t.inc, t.shift);
    if Occupied(t, i) {
      At(t, i);
      KeyInfoHalves(t, r, t.slots[i].value.key, i);
    }
  }

  /** Narrowing keeps the contents and the invariant, and makes room in every byte again. */
  lemma NarrowingKeeps<K, V>(t: Snap<K, V>, r: Snap<K, V>, m: map<K, V>)
    requires Inv(t) && Models(t, m) && Narrows(t, r)
    ensures Inv(r) && Models(r, m) && Headroom(r)
  {
    forall i: int
      ensures Occupied(r, i) == Occupied(t, i)
      ensures Occupied(r, i) ==> r.slots[i].Some? && Holds(r, i, r.slots[i].value.key) && r.info[i] + r.inc <= 0xFF
    {
      NarrowingHolds(t, r, i);
    }
    forall i | Occupied(r, i) && r.info[i] >= 2 * r.inc
      ensures i > 0 && Occupied(r, i - 1) && r.info[i] <= r.info[i - 1] + r.inc
    {
      NarrowingOrder(t, r, i);
    }
    forall i, j | Occupied(r, i) && Occupied(r, j) && i != j
      ensures r.slots[i].value.key != r.slots[j].value.key
    {
      OccupiedFacts(t, i);
      OccupiedFacts(t, j);
    }
    forall k | k in m
      ensures exists i :: Holds(r, i, k)
    {
      var i :| Holds(t, i, k);
      assert Holds(r, i, k);
    }
  }

  lemma NarrowingOrder<K, V>(t: Snap<K, V>, r: Snap<K, V>, i: int)
    requires Inv(t) && Narrows(t, r) && Occupied(r, i) && r.info[i] >= 2 * r.inc
    ensures i > 0 && Occupied(r, i - 1) && r.info[i] <= r.info[i - 1] + r.inc
  {
    NarrowingHolds(t, r, i);
    NarrowingHolds(t, r, i - 1);
    WidthHalves(t.inc, t.shift);
    At(t, i);
  }
}
