/** The overflow that the source calls impossible: with a bad enough hash it happens while a rehash carries a key
    over. */
module Overflow {
  import opened Words
  import opened RobinHood
  import opened Crowding
  import opened HashTable

  /** Keys below 127 share home 0 in a table of any size; key 127 has the last home of up to 256. */
  function BadHash(k: nat): nat {
    if k == 127 then 255 * 32 else 0
  }

  /** Powers of two for which the homes matter here. */
  predicate IsTableSize(n: nat) {
    n in {8, 16, 32, 64, 128, 256, 512}
  }

  lemma BadHomes(n: nat, k: nat)
    requires IsTableSize(n)
    ensures Home(BadHash(k), n) == if k != 127 then 0 else if n == 512 then 255 else n - 1
  {
    hide BitAnd, Pow2;
    var e := SizeBits(n);
    BitAndMask(if k == 127 then 255 else 0, e);
  }

  lemma SizeBits(n: nat) returns (e: nat)
    requires IsTableSize(n)
    ensures n == Pow2(e)
  {
    assert Pow2(3) == 8 && Pow2(4) == 16 && Pow2(5) == 32 && Pow2(6) == 64 && Pow2(7) == 128 && Pow2(8) == 256 && Pow2(9) == 512;
    e := match n case 8 => 3 case 16 => 4 case 32 => 5 case 64 => 6 case 128 => 7 case 256 => 8 case _ => 9;
  }

  /** Key 127 and the first j of the others. */
  function FirstKeys(j: nat): (r: set<nat>)
    ensures 127 in r
  {
    if j == 0 then {127} else FirstKeys(j - 1) + {j - 1}
  }

  lemma {:induction false} FirstKeysSize(j: nat)
    requires j <= 127
    ensures |FirstKeys(j)| == j + 1 && forall k: nat :: k in FirstKeys(j) <==> k < j || k == 127
  {
    if j > 0 {
      FirstKeysSize(j - 1);
      assert j - 1 !in FirstKeys(j - 1);
    }
  }

  /** Up to 127 keys with two different homes are not crowded. */
  lemma NotYetCrowded(n: nat, j: nat)
    requires IsTableSize(n) && j <= 126
    ensures !Crowded(BadHash, n, FirstKeys(j))
  {
    hide FirstKeys, Home, BadHash;
    FirstKeysSize(j);
    var keys := FirstKeys(j);
    if lo, hi :| CrowdedAt(BadHash, n, keys, lo, hi) {
      var crowd := Between(BadHash, n, keys, lo, hi);
      SubsetSize(crowd, keys);
      assert j == 126 && |crowd| == |keys| && lo == hi;
      SameSize(crowd, keys);
      assert 0 in crowd && 127 in crowd;
      BadHomes(n, 0);
      BadHomes(n, 127);
    }
  }

  lemma SameSize<T>(a: set<T>, b: set<T>)
    requires a <= b && |a| == |b|
    ensures a == b
  {
    assert b == a + (b - a);
  }

  /** 127 keys at home 0 are. */
  lemma NowCrowded(n: nat, keys: set<nat>)
    requires IsTableSize(n) && forall k: nat :: k < 127 ==> k in keys
    ensures Crowded(BadHash, n, keys)
  {
    hide FirstKeys, Home, BadHash;
    FirstKeysSize(127);
    var crowd := Between(BadHash, n, keys, 0, 0);
    forall k | k in FirstKeys(127) - {127}
      ensures k in crowd
    {
      BadHomes(n, k);
    }
    SubsetSize(FirstKeys(127) - {127}, crowd);
    assert CrowdedAt(BadHash, n, keys, 0, 0);
  }

  /** The size of a table after so many insertions. */
  function SizeAfter(num: nat): (n: nat)
    requires num <= 128
    ensures num > 0 ==> IsTableSize(n) && n < 512
  {
    if num == 0 then 1
    else if num <= 6 then 8
    else if num <= 12 then 16
    else if num <= 25 then 32
    else if num <= 51 then 64
    else if num <= 102 then 128
    else 256
  }

  lemma SizeGrows(num: nat)
    requires num < 128
    ensures var n := SizeAfter(num); SizeAfter(num + 1) == if n == 1 then 8 else if num < CalcMax(n) then n else 2 * n
  {
  }

  /** Key 127 sits behind all others. */
  lemma LastIsBehind(t: Snap<nat, nat>, m: map<nat, nat>)
    requires Inv(t) && Models(t, m) && t.hash == BadHash && t.n == 256 && m.Keys == FirstKeys(127)
    ensures Shape(t) && forall k: nat :: k < 127 ==> k in ButLast(t, m.Keys)
  {
    hide Inv, Holds, FirstKeys, Home, BadHash;
    InvShape(t);
    FirstKeysSize(127);
    BadHomes(256, 127);
    var j :| Holds(t, j, 127);
    NearHome(t, 127, j);
    forall k: nat | k < 127
      ensures k in ButLast(t, m.Keys)
    {
      assert k in m;
      var i :| Holds(t, i, k);
      NearHome(t, k, i);
      BadHomes(256, k);
      assert SitsBefore(t, k, 127);
    }
  }

  // ----- the insertions -----

  function KeysAfter(num: nat): set<nat> {
    if num == 0 then {} else FirstKeys(num - 1)
  }

  /** The key inserted next. */
  function NextKey(num: nat): nat {
    if num == 0 then 127 else num - 1
  }

  ghost predicate Filled(t: Table<nat, nat>, num: nat)
    reads t, t.mInfo, t.mKeyVals
  {
    && t.Valid() && t.hash == BadHash && num <= 128
    && t.mMask + 1 == SizeAfter(num) && t.contents.Keys == KeysAfter(num)
    && (t.IsSpent() <==> num > 0 && Crowded(BadHash, t.mMask + 1, t.contents.Keys))
  }

  lemma StillGoesOn(t: Table<nat, nat>, num: nat)
    requires Filled(t, num) && num < 128
    ensures NextKey(num) !in t.contents && !t.WillGiveUp(t.contents.Keys) && t.SizeToInsert() == SizeAfter(num + 1)
  {
    hide Inv, Models, Headroom, FirstKeys, CalcMax, GivesUp, SizeFor, Crowded, Shape, SizeAfter, BadHash;
    var s, keys, max := t.Snapshot(), t.contents.Keys, t.mMaxNumElementsAllowed;
    SoundFacts(s, t.contents, t.mNumElements, max);
    SizeGrows(num);
    SizesDouble(num);
    if num > 0 {
      FirstKeysSize(num - 1);
      NotYetCrowded(s.n, num - 1);
      NotYetCrowded(2 * s.n, num - 1);
    }
    UncrowdedGoesOn(s, keys, max);
  }

  lemma SizesDouble(num: nat)
    requires num < 128
    ensures SizeAfter(0) == 1 && SizeAfter(128) == 256
    ensures num > 0 ==> IsTableSize(SizeAfter(num)) && IsTableSize(2 * SizeAfter(num)) && SizeAfter(num) > 1
  {
  }

  lemma KeysGrow(num: nat)
    ensures KeysAfter(num + 1) == KeysAfter(num) + {NextKey(num)}
  {
  }

  lemma StartsEmpty(t: Table<nat, nat>)
    requires t.Valid() && t.hash == BadHash && t.contents == map[] && !t.IsSpent() && t.mMask == 0
    ensures Filled(t, 0)
  {
    hide Sound, BadHash, Crowded;
  }

  lemma StaysFilled(t: Table<nat, nat>, num: nat)
    requires t.Valid() && t.hash == BadHash && num < 128
    requires t.mMask + 1 == SizeAfter(num + 1) && t.contents.Keys == KeysAfter(num + 1)
    requires t.IsSpent() <==> Crowded(BadHash, t.mMask + 1, t.contents.Keys)
    ensures Filled(t, num + 1)
  {
    hide Sound, BadHash, Crowded, KeysAfter, SizeAfter;
  }

  lemma FilledFacts(t: Table<nat, nat>, num: nat)
    requires Filled(t, num)
    ensures t.Valid() && t.hash == BadHash && t.contents.Keys == KeysAfter(num)
  {
    hide Sound, BadHash, Crowded, KeysAfter, SizeAfter;
  }

  lemma AtEnd(t: Table<nat, nat>)
    requires Filled(t, 128)
    ensures t.Valid() && t.mMask + 1 == 256 && t.mNumElements == 128 && t.IsSpent() && t.CannotRehash(512)
    ensures t.hash == BadHash && t.contents.Keys == FirstKeys(127)
  {
    hide Inv, Models, Headroom, FirstKeys, CalcMax, Crowded, Shape, BadHash, ButLast;
    SoundFacts(t.Snapshot(), t.contents, t.mNumElements, t.mMaxNumElementsAllowed);
    assert t.contents.Keys == FirstKeys(127);
    assert |t.contents| == |t.contents.Keys|;
    FirstKeysSize(127);
    NowCrowded(256, t.contents.Keys);
    LastIsBehind(t.Snapshot(), t.contents);
    NowCrowded(512, ButLast(t.Snapshot(), t.contents.Keys));
  }

  /** A table that 128 insertions produce: more than half full, and out of hash bits. */
  method Fill() returns (t: Table<nat, nat>)
    ensures fresh(t) && fresh(t.mInfo) && fresh(t.mKeyVals)
    ensures t.Valid() && t.mMask + 1 == 256 && t.mNumElements == 128 && t.IsSpent() && t.CannotRehash(512)
    ensures t.hash == BadHash && t.contents.Keys == FirstKeys(127)
  {
    hide *;
    t := new Table(BadHash);
    StartsEmpty(t);
    for num := 0 to 128
      invariant fresh(t) && fresh(t.mInfo) && fresh(t.mKeyVals) && Filled(t, num)
    {
      StillGoesOn(t, num);
      FilledFacts(t, num);
      KeysGrow(num);
      var idx, inserted, overflow := t.DoInsert(NextKey(num), 0);
      StaysFilled(t, num);
    }
    AtEnd(t);
  }

  /** The next insertion overflows, and not because the table is less than half full: the growing step throws
      inside the rehash, where `insert_move` finds the new table spent. */
  method ThrowsInRehash() returns (ok: bool, overflow: bool)
    ensures !ok && overflow
  {
    hide *;
    EnoughForDouble();
    FirstKeysSize(127);
    var t := Fill();
    GivesUpNow(t);
    var idx, inserted;
    idx, inserted, overflow := t.DoInsert(128, 0);
    var u := Fill();
    ok := u.RehashPowerOfTwo(2 * 256);
  }

  lemma GivesUpNow(t: Table<nat, nat>)
    requires t.Valid() && t.mMask + 1 == 256 && t.mNumElements == 128 && t.IsSpent() && t.CannotRehash(512)
    ensures t.WillGiveUp(t.contents.Keys)
  {
    hide Inv, Models, Headroom, Crowded, Shape, ButLast, GivesUp, CalcMax;
    var s, keys := t.Snapshot(), t.contents.Keys;
    SoundFacts(s, t.contents, t.mNumElements, t.mMaxNumElementsAllowed);
    assert |t.contents| == |keys|;
    FailureDecides(s, keys, t.mMaxNumElementsAllowed);
  }

  lemma EnoughForDouble()
    ensures 128 <= CalcMax(512) && 2 * 128 >= CalcMax(256) && PowerOfTwo(512)
  {
    assert Pow2(9) == 512;
  }
}
