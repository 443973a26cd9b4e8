/** When an insertion gives up: read off the hash and the keys, before the call. A table that is out of hash
    bits overflows exactly when too many keys share a stretch of homes. */
module Crowding {
  import opened Words
  import opened RobinHood

  // ----- too many keys for a stretch of homes -----

  ghost function Between<K>(hash: K -> nat, n: nat, keys: set<K>, lo: int, hi: int): (r: set<K>)
    requires n > 0
    ensures r <= keys
  {
    set k | k in keys && lo <= Home(hash(k), n) <= hi
  }

  /** At least 126 keys more than there are homes from lo to hi. */
  ghost predicate CrowdedAt<K>(hash: K -> nat, n: nat, keys: set<K>, lo: int, hi: int)
    requires n > 0
  {
    0 <= lo <= hi < n && |Between(hash, n, keys, lo, hi)| >= hi - lo + 127
  }

  ghost predicate Crowded<K>(hash: K -> nat, n: nat, keys: set<K>)
    requires n > 0
  {
    exists lo, hi :: CrowdedAt(hash, n, keys, lo, hi)
  }

  lemma CrowdedGrows<K>(hash: K -> nat, n: nat, keys: set<K>, more: set<K>)
    requires n > 0 && keys <= more && Crowded(hash, n, keys)
    ensures Crowded(hash, n, more)
  {
    var lo, hi :| CrowdedAt(hash, n, keys, lo, hi);
    SubsetSize(Between(hash, n, keys, lo, hi), Between(hash, n, more, lo, hi));
    assert CrowdedAt(hash, n, more, lo, hi);
  }

  lemma CrowdedNeedsMany<K>(hash: K -> nat, n: nat, keys: set<K>)
    requires n > 0 && Crowded(hash, n, keys)
    ensures |keys| >= 127
  {
    var lo, hi :| CrowdedAt(hash, n, keys, lo, hi);
    SubsetSize(Between(hash, n, keys, lo, hi), keys);
  }

  ghost predicate PowerOfTwo(n: nat) {
    exists e: nat :: n == Pow2(e)
  }

  lemma Doubles(n: nat)
    requires PowerOfTwo(n)
    ensures n > 0 && PowerOfTwo(2 * n) && PowerOfTwo(4 * n)
  {
    hide Pow2;
    var e: nat :| n == Pow2(e);
    assert 2 * n == Pow2(e + 1) && 4 * n == Pow2(e + 2) && n > 0 by {
      PowDoubles(e);
      PowDoubles(e + 1);
    }
  }

  lemma PowDoubles(e: nat)
    ensures Pow2(e + 1) == 2 * Pow2(e) && Pow2(e) > 0
  {
  }

  lemma FirstPowers()
    ensures PowerOfTwo(1) && PowerOfTwo(INITIAL_SIZE)
  {
    assert Pow2(0) == 1 && Pow2(3) == 8;
  }

  /** No set of that many of these keys is crowded in a table whose load factor allows it. */
  ghost predicate Calm<K>(hash: K -> nat, keys: set<K>, size: nat) {
    forall n: nat, s :: s <= keys ==> IsCalmFor(hash, n, s, size)
  }

  ghost predicate IsCalmFor<K>(hash: K -> nat, n: nat, s: set<K>, size: nat) {
    n > 0 && PowerOfTwo(n) && |s| <= size && |s| <= CalcMax(n) ==> !Crowded(hash, n, s)
  }

  /** With at most 126 keys at a time, any hash will do. */
  lemma FewAreCalm<K>(hash: K -> nat, keys: set<K>, size: nat)
    requires size <= 126
    ensures Calm(hash, keys, size)
  {
    hide Crowded, CalcMax, PowerOfTwo;
    forall n: nat, s | s <= keys
      ensures IsCalmFor(hash, n, s, size)
    {
      if n > 0 && |s| <= size && Crowded(hash, n, s) {
        CrowdedNeedsMany(hash, n, s);
      }
    }
  }

  lemma NoneAreCalm<K>(hash: K -> nat, size: nat)
    ensures Calm(hash, {}, size)
  {
    hide Crowded, CalcMax, PowerOfTwo;
    forall n: nat, s: set<K> | s <= {}
      ensures IsCalmFor(hash, n, s, size)
    {
      if n > 0 && Crowded(hash, n, s) {
        CrowdedNeedsMany(hash, n, s);
      }
    }
  }

  /** So will any number of keys that do not crowd a table of 256 or more positions. */
  lemma UncrowdedAreCalm<K>(hash: K -> nat, keys: set<K>, size: nat)
    requires forall n: nat :: n >= 256 && PowerOfTwo(n) ==> !Crowded(hash, n, keys)
    ensures Calm(hash, keys, size)
  {
    hide Crowded, PowerOfTwo;
    forall n: nat, s | s <= keys
      ensures IsCalmFor(hash, n, s, size)
    {
      if n > 0 && PowerOfTwo(n) && |s| <= CalcMax(n) && Crowded(hash, n, s) {
        CrowdedNeedsMany(hash, n, s);
        BigPowers(n);
        CrowdedGrows(hash, n, s, keys);
      }
    }
  }

  lemma BigPowers(n: nat)
    requires PowerOfTwo(n) && n >= 129
    ensures n >= 256
  {
    var e: nat :| n == Pow2(e);
    assert Pow2(7) == 128 && Pow2(8) == 256;
    if e < 8 {
      PowOrder(e, 7);
    } else {
      PowOrder(8, e);
    }
  }

  lemma {:induction false} PowOrder(a: nat, b: nat)
    requires a <= b
    ensures Pow2(a) <= Pow2(b)
    decreases b
  {
    hide Pow2;
    if a < b {
      PowOrder(a, b - 1);
      PowDoubles(b - 1);
    }
  }

  /** In particular keys whose homes all differ. */
  lemma SpreadKeysAreCalm<K>(hash: K -> nat, keys: set<K>, size: nat)
    requires forall n: nat :: n >= 256 && PowerOfTwo(n) ==> Spread(hash, n, keys)
    ensures Calm(hash, keys, size)
  {
    hide PowerOfTwo, Home, Spread;
    forall n: nat | n >= 256 && PowerOfTwo(n)
      ensures !Crowded(hash, n, keys)
    {
      if lo, hi :| CrowdedAt(hash, n, keys, lo, hi) {
        FewBetween(hash, n, keys, lo, hi);
      }
    }
    UncrowdedAreCalm(hash, keys, size);
  }

  ghost predicate Spread<K>(hash: K -> nat, n: nat, keys: set<K>)
    requires n > 0
  {
    forall a, b :: a in keys && b in keys && a != b ==> Home(hash(a), n) != Home(hash(b), n)
  }

  /** Each home takes one key at most. */
  lemma {:induction false} FewBetween<K>(hash: K -> nat, n: nat, keys: set<K>, lo: int, hi: int)
    requires n > 0 && Spread(hash, n, keys) && lo <= hi + 1
    ensures |Between(hash, n, keys, lo, hi)| <= hi - lo + 1
    decreases hi - lo
  {
    hide Home;
    var all := Between(hash, n, keys, lo, hi);
    if lo > hi {
      assert all == {};
    } else {
      FewBetween(hash, n, keys, lo, hi - 1);
      var rest := Between(hash, n, keys, lo, hi - 1);
      if k :| k in all && k !in rest {
        assert all == rest + {k};
      } else {
        assert all == rest;
      }
    }
  }

  lemma NotCrowded<K>(hash: K -> nat, n: nat, part: set<K>, keys: set<K>, size: nat)
    requires Calm(hash, keys, size) && n > 0 && PowerOfTwo(n) && part <= keys && |part| <= size && |part| <= CalcMax(n)
    ensures !Crowded(hash, n, part)
  {
    hide Crowded, PowerOfTwo;
    assert IsCalmFor(hash, n, part, size);
  }

  lemma CalmPart<K>(hash: K -> nat, keys: set<K>, part: set<K>, size: nat)
    requires part <= keys
    ensures Calm(hash, keys, size) ==> Calm(hash, part, size)
  {
    hide IsCalmFor;
  }

  // ----- homes and info bytes -----

  /** In a table of a power of two positions the home is the hash, without its 5 low bits, modulo the size. */
  lemma HomeIsRemainder(h: nat, n: nat)
    requires n > 0 && PowerOfTwo(n)
    ensures Home(h, n) == h / 32 % n
  {
    hide Pow2, BitAnd;
    var e: nat :| n == Pow2(e);
    BitAndMask(h / 32, e);
  }

  /** Two keys have the same info byte at a position exactly when they share the home and the low hash bits that
      the shift leaves. */
  lemma SameInfoExactly<K, V>(t: Snap<K, V>, a: K, b: K, j: int)
    requires t.n > 0 && IsWidth(t.inc, t.shift)
    ensures KeyInfo(t, a, j) == KeyInfo(t, b, j) <==>
              KeyHome(t, a) == KeyHome(t, b) && t.hash(a) % 32 / Pow2(t.shift) == t.hash(b) % 32 / Pow2(t.shift)
  {
    hide KeyHome, Pow2;
    KeyInfoStart(t, a);
    KeyInfoStart(t, b);
    SameInfo(KeyHome(t, a), KeyHome(t, b), HashBits(t.hash(a), t.shift), HashBits(t.hash(b), t.shift), t.inc, j);
  }

  lemma SameInfo(a: nat, b: nat, x: nat, y: nat, inc: nat, p: int)
    requires inc in {2, 4, 8, 16, 32} && x < inc && y < inc
    ensures InfoAt(a, x, inc, p) == InfoAt(b, y, inc, p) <==> a == b && x == y
  {
    if inc == 2 {
    } else if inc == 4 {
    } else if inc == 8 {
    } else if inc == 16 {
    }
  }

  // ----- crowding and headroom -----

  /** Some key of a crowded stretch sits 126 or more positions from home: its byte is at the limit. */
  lemma CrowdedIsTight<K, V>(t: Snap<K, V>, m: map<K, V>)
    requires Inv(t) && Models(t, m) && Crowded(t.hash, t.n, m.Keys)
    ensures t.inc == 2 && !Headroom(t)
  {
    hide Inv, Models, Holds, KeyInfo, KeyHome, Home, Occupied, Crowded, Between;
    InvShape(t);
    var lo: nat, hi: nat, crowd := CrowdOf(t, m);
    var near := KeysNear(t, lo, hi - lo + 126);
    if forall k :: k in crowd ==> k in near {
      SubsetSize(crowd, near);
      assert false;
    }
    var k :| k in crowd && k !in near;
    FarIsTight(t, m, lo, hi, k);
  }

  lemma CrowdOf<K, V>(t: Snap<K, V>, m: map<K, V>) returns (lo: nat, hi: nat, crowd: set<K>)
    requires t.n > 0 && Crowded(t.hash, t.n, m.Keys)
    ensures lo <= hi && |crowd| >= hi - lo + 127
    ensures forall k :: k in crowd ==> k in m && lo <= KeyHome(t, k) <= hi
  {
    var a, b :| CrowdedAt(t.hash, t.n, m.Keys, a, b);
    lo, hi, crowd := a, b, Between(t.hash, t.n, m.Keys, a, b);
  }

  lemma FarIsTight<K, V>(t: Snap<K, V>, m: map<K, V>, lo: nat, hi: nat, k: K)
    requires Inv(t) && Models(t, m) && k in m && lo <= KeyHome(t, k) <= hi && k !in KeysNear(t, lo, hi - lo + 126)
    ensures t.inc == 2 && !Headroom(t)
  {
    hide Inv, KeyInfo, KeyHome, KeysNear;
    InvShape(t);
    var i :| Holds(t, i, k);
    if i < hi + 126 {
      NearKeys(t, lo, hi - lo + 126, i);
      assert false;
    }
    At(t, i);
    InfoFar(t, k, i);
  }

  lemma InfoFar<K, V>(t: Snap<K, V>, k: K, i: int)
    requires t.n > 0 && IsWidth(t.inc, t.shift) && i >= KeyHome(t, k) + 126
    ensures KeyInfo(t, k, i) >= 254
    ensures t.inc > 2 ==> KeyInfo(t, k, i) > 0xFF
  {
    hide KeyHome, HashBits, Home;
  }

  /** At increment 2 a byte at the limit is 126 positions from home, and the run of occupied positions before it
      holds the crowd. */
  lemma TightIsCrowded<K, V>(t: Snap<K, V>, m: map<K, V>)
    requires Inv(t) && Models(t, m) && t.inc == 2 && !Headroom(t)
    ensures Crowded(t.hash, t.n, m.Keys)
  {
    hide Inv, Models, Holds, KeyInfo, KeyHome, Crowded;
    InvShape(t);
    var p: nat :| Occupied(t, p) && t.info[p] + t.inc > 0xFF;
    At(t, p);
    var h := KeyHome(t, t.slots[p].value.key);
    InfoNear(t, t.slots[p].value.key, p);
    var q := RunBack(t, p);
    KeysFromSize(t, q, p + 1, m);
    forall k | k in KeysFrom(t, q, p + 1)
      ensures k in m && q <= KeyHome(t, k) <= h
    {
      var i :| q <= i < p + 1 && t.slots[i].value.key == k;
    }
    RunIsCrowd(t, m, q, p, h);
  }

  lemma RunIsCrowd<K, V>(t: Snap<K, V>, m: map<K, V>, q: nat, p: nat, h: nat)
    requires t.n > 0 && q <= h < t.n && h <= p < |t.slots| && p - h >= 126 && forall i :: q <= i <= p ==> t.slots[i].Some?
    requires var keys := KeysFrom(t, q, p + 1); |keys| == p + 1 - q && forall k :: k in keys ==> k in m && q <= KeyHome(t, k) <= h
    ensures Crowded(t.hash, t.n, m.Keys)
  {
    hide Home, KeysFrom;
    SubsetSize(KeysFrom(t, q, p + 1), Between(t.hash, t.n, m.Keys, q, h));
    assert CrowdedAt(t.hash, t.n, m.Keys, q, h);
  }

  lemma InfoNear<K, V>(t: Snap<K, V>, k: K, i: int)
    requires t.n > 0 && IsWidth(t.inc, t.shift) && t.inc == 2 && KeyInfo(t, k, i) + t.inc > 0xFF
    ensures i - KeyHome(t, k) >= 126
  {
    hide KeyHome, Home;
    KeyInfoStart(t, k);
  }

  /** Back from an occupied position to the start of its run: nothing in between is free and homes do not
      decrease. */
  lemma {:induction false} RunBack<K, V>(t: Snap<K, V>, p: nat) returns (q: nat)
    requires Inv(t) && Occupied(t, p) && t.slots[p].Some?
    ensures q <= KeyHome(t, t.slots[p].value.key)
    ensures q <= p && forall i :: q <= i <= p ==> Occupied(t, i) && t.slots[i].Some? &&
                                                  q <= KeyHome(t, t.slots[i].value.key) <= KeyHome(t, t.slots[p].value.key)
    decreases p
  {
    hide Inv, KeyInfo, KeyHome;
    InvShape(t);
    At(t, p);
    StartsAtHome(t, t.slots[p].value.key, p);
    if t.info[p] >= 2 * t.inc {
      At(t, p - 1);
      q := RunBack(t, p - 1);
      HomesInOrder(t, t.slots[p - 1].value.key, t.slots[p].value.key, p);
    } else {
      q := p;
    }
  }

  lemma StartsAtHome<K, V>(t: Snap<K, V>, k: K, p: int)
    requires t.n > 0 && IsWidth(t.inc, t.shift) && KeyHome(t, k) <= p
    ensures KeyInfo(t, k, p) < 2 * t.inc ==> KeyHome(t, k) == p
  {
    KeyInfoPositive(t, k, p);
  }

  lemma HomesInOrder<K, V>(t: Snap<K, V>, a: K, b: K, p: int)
    requires t.n > 0 && IsWidth(t.inc, t.shift) && KeyInfo(t, b, p) <= KeyInfo(t, a, p - 1) + t.inc
    ensures KeyHome(t, a) <= KeyHome(t, b)
  {
    KeyInfoStart(t, a);
    KeyInfoStart(t, b);
    OrderedHomes(KeyHome(t, a), KeyHome(t, b), HashBits(t.hash(a), t.shift), HashBits(t.hash(b), t.shift), t.inc, p);
  }

  lemma OrderedHomes(a: nat, b: nat, x: nat, y: nat, inc: nat, p: int)
    requires inc in {2, 4, 8, 16, 32} && x < inc && InfoAt(b, y, inc, p) <= InfoAt(a, x, inc, p - 1) + inc
    ensures a <= b
  {
    if inc == 2 {
    } else if inc == 4 {
    } else if inc == 8 {
    } else if inc == 16 {
    }
  }

  /** The byte range is used up at the narrowest increment exactly when the keys are crowded. */
  lemma CrowdedExactly<K, V>(t: Snap<K, V>, m: map<K, V>)
    requires Inv(t) && Models(t, m)
    ensures t.inc == 2 && !Headroom(t) <==> Crowded(t.hash, t.n, m.Keys)
  {
    hide Inv, Models, Headroom, Crowded;
    InvShape(t);
    if Crowded(t.hash, t.n, m.Keys) {
      CrowdedIsTight(t, m);
    } else if t.inc == 2 && !Headroom(t) {
      TightIsCrowded(t, m);
    }
  }

  // ----- when an insertion gives up -----

  ghost predicate SitsBefore<K, V>(t: Snap<K, V>, a: K, b: K)
    requires Shape(t)
  {
    exists i, j :: i < j && Holds(t, i, a) && Holds(t, j, b)
  }

  /** All of the given keys but the one in the last position. */
  ghost function ButLast<K, V>(t: Snap<K, V>, keys: set<K>): (r: set<K>)
    requires Shape(t)
    ensures r <= keys
  {
    set k | k in keys && exists b :: b in keys && SitsBefore(t, k, b)
  }

  /** Growing to twice the size overflows: while the last key is still to be carried over, or because the table
      of that size is out of hash bits right away and must not or cannot grow once more. */
  ghost predicate GrowthFails<K, V>(t: Snap<K, V>, keys: set<K>)
    requires Shape(t)
  {
    || Crowded(t.hash, 2 * t.n, ButLast(t, keys))
    || (Crowded(t.hash, 2 * t.n, keys) && (2 * |keys| < CalcMax(2 * t.n) || Crowded(t.hash, 4 * t.n, keys)))
  }

  /** Inserting a new key into a table that holds the given keys overflows: there is no room without growing, no
      hash bit left to drop, and the table is less than half full or growing fails. */
  ghost predicate GivesUp<K, V>(t: Snap<K, V>, keys: set<K>, max: nat)
    requires Shape(t)
  {
    && t.n > 1 && |keys| >= max && (|keys| < CalcMax(t.n) ==> t.inc <= 2)
    && (2 * |keys| < CalcMax(t.n) || GrowthFails(t, keys))
  }

  /** The size at which such an insertion takes place. */
  ghost function SizeFor<K, V>(t: Snap<K, V>, keys: set<K>, max: nat): nat
    requires Shape(t)
  {
    if t.n == 1 then INITIAL_SIZE
    else if |keys| < CalcMax(t.n) && (max != 0 || t.inc > 2) then t.n
    else if !Crowded(t.hash, 2 * t.n, keys) then 2 * t.n
    else 4 * t.n
  }

  lemma CalcMaxDoubles(n: nat)
    requires n > 1
    ensures CalcMax(n) > 0 && 2 * CalcMax(n) <= CalcMax(2 * n) && CalcMax(2 * n) < CalcMax(4 * n)
  {
  }

  /** The table allows no insertion and has no hash bit left to drop. */
  predicate Spent<K, V>(t: Snap<K, V>, max: nat) {
    t.n > 1 && max == 0 && t.inc <= 2
  }

  /** The allowed count is 0 exactly when the headroom is gone, as long as nothing is removed. */
  ghost predicate Tight<K, V>(t: Snap<K, V>, max: nat)
    requires Shape(t)
  {
    (max == 0 <==> !Headroom(t)) && (max != 0 ==> max == CalcMax(t.n))
  }

  lemma TightIsSpent<K, V>(t: Snap<K, V>, m: map<K, V>, max: nat)
    requires Inv(t) && Models(t, m) && t.n > 1 && Tight(t, max)
    ensures Spent(t, max) <==> Crowded(t.hash, t.n, m.Keys)
    ensures t.inc <= 2 ==> t.inc == 2
  {
    hide Inv, Models, Headroom, Crowded;
    InvShape(t);
    CrowdedExactly(t, m);
  }

  /** With room for one more key nothing gives up and nothing grows. */
  lemma RoomDecides<K, V>(t: Snap<K, V>, keys: set<K>, max: nat)
    requires Shape(t) && |keys| < max && max in {0, CalcMax(t.n)}
    ensures !GivesUp(t, keys, max) && SizeFor(t, keys, max) == t.n
  {
    hide Crowded, Shape;
  }

  lemma FirstDecides<K, V>(t: Snap<K, V>, keys: set<K>, max: nat)
    requires Shape(t) && t.n == 1
    ensures !GivesUp(t, keys, max) && SizeFor(t, keys, max) == INITIAL_SIZE
  {
    hide Crowded, Shape;
  }

  lemma NarrowDecides<K, V>(t: Snap<K, V>, keys: set<K>, max: nat)
    requires Shape(t) && t.n > 1 && |keys| < CalcMax(t.n) && t.inc > 2
    ensures !GivesUp(t, keys, max) && SizeFor(t, keys, max) == t.n
  {
    hide Crowded, Shape;
  }

  lemma FailureDecides<K, V>(t: Snap<K, V>, keys: set<K>, max: nat)
    requires Shape(t) && t.n > 1 && |keys| >= max && (|keys| < CalcMax(t.n) ==> t.inc <= 2)
    requires 2 * |keys| < CalcMax(t.n) || Crowded(t.hash, 2 * t.n, ButLast(t, keys))
    ensures GivesUp(t, keys, max)
  {
    hide Crowded, Shape;
  }

  /** Growing to twice the size does not change whether the insertion gives up, nor where it ends. */
  lemma GrownDecides<K, V>(t: Snap<K, V>, m: map<K, V>, max: nat, r: Snap<K, V>, max': nat)
    requires Shape(t) && t.n > 1 && max <= |m| <= CalcMax(t.n) && (|m| < CalcMax(t.n) ==> t.inc <= 2 && max == 0)
    requires 2 * |m| >= CalcMax(t.n) && !Crowded(t.hash, 2 * t.n, ButLast(t, m.Keys))
    requires Inv(r) && Models(r, m) && r.n == 2 * t.n && r.hash == t.hash && Tight(r, max')
    ensures GivesUp(r, m.Keys, max') <==> GivesUp(t, m.Keys, max)
    ensures !GivesUp(t, m.Keys, max) ==> SizeFor(r, m.Keys, max') == SizeFor(t, m.Keys, max)
  {
    hide Inv, Models, Headroom, Crowded, CalcMax, Shape, ButLast;
    InvShape(r);
    CalcMaxDoubles(t.n);
    CalcMaxDoubles(r.n);
    TightIsSpent(r, m, max');
    assert |m| == |m.Keys|;
    if Crowded(t.hash, 4 * t.n, ButLast(r, m.Keys)) {
      CrowdedGrows(t.hash, 4 * t.n, ButLast(r, m.Keys), m.Keys);
    }
  }

  /** A table that is not spent does not give up when twice its size is not crowded. */
  lemma UncrowdedGoesOn<K, V>(t: Snap<K, V>, keys: set<K>, max: nat)
    requires Shape(t) && max in {0, CalcMax(t.n)} && !Spent(t, max)
    requires t.n > 1 ==> !Crowded(t.hash, 2 * t.n, keys)
    ensures !GivesUp(t, keys, max)
    ensures SizeFor(t, keys, max) == if t.n == 1 then INITIAL_SIZE else if |keys| < CalcMax(t.n) then t.n else 2 * t.n
  {
    hide Crowded, CalcMax, Shape;
    if t.n > 1 {
      CalcMaxDoubles(t.n);
      if Crowded(t.hash, 2 * t.n, ButLast(t, keys)) {
        CrowdedGrows(t.hash, 2 * t.n, ButLast(t, keys), keys);
      }
    }
  }

  /** A calm hash never gives up on a table that is not spent. */
  lemma CalmGoesOn<K, V>(t: Snap<K, V>, keys: set<K>, max: nat, all: set<K>, size: nat)
    requires Shape(t) && PowerOfTwo(t.n) && max in {0, CalcMax(t.n)} && !Spent(t, max)
    requires Calm(t.hash, all, size) && keys <= all && |keys| <= size && |keys| <= CalcMax(t.n)
    ensures !GivesUp(t, keys, max)
  {
    hide Crowded, CalcMax, Shape, GivesUp, SizeFor, Calm, PowerOfTwo;
    Doubles(t.n);
    if t.n > 1 {
      CalcMaxDoubles(t.n);
      NotCrowded(t.hash, 2 * t.n, keys, all, size);
    }
    UncrowdedGoesOn(t, keys, max);
  }

  /** Removal keeps the order of the other keys. */
  lemma RemovedSits<K, V>(t: Snap<K, V>, p: nat, e: nat, k: K, a: K, b: K)
    requires Inv(t) && IsRun(t, p, e) && Holds(t, p, k) && a != k && b != k
    requires (exists i :: Holds(t, i, a)) && exists i :: Holds(t, i, b)
    ensures Shape(Removed(t, p, e)) && (SitsBefore(Removed(t, p, e), a, b) <==> SitsBefore(t, a, b))
  {
    hide KeyInfo, KeyHome, Inv, IsRun, Removed, Holds;
    InvShape(t);
    RemovedKeeps(t, p, e);
    var r := Removed(t, p, e);
    InvShape(r);
    var i :| Holds(t, i, a);
    var j :| Holds(t, j, b);
    RemovedMoves(t, p, e, k, a, i);
    RemovedMoves(t, p, e, k, b, j);
    var i', j' := if p < i <= e then i - 1 else i, if p < j <= e then j - 1 else j;
    HeldOnce(t, p, i, k, a);
    HeldOnce(t, p, j, k, b);
    OrderAt(t, i, j, a, b);
    OrderAt(r, i', j', a, b);
  }

  lemma HeldOnce<K, V>(t: Snap<K, V>, i: int, j: int, a: K, b: K)
    requires Inv(t) && Holds(t, i, a) && Holds(t, j, b)
    ensures i == j <==> a == b
  {
  }

  lemma OrderAt<K, V>(t: Snap<K, V>, i: int, j: int, a: K, b: K)
    requires Inv(t) && Holds(t, i, a) && Holds(t, j, b)
    ensures SitsBefore(t, a, b) <==> i < j
  {
    hide Inv, Holds;
    InvShape(t);
    if SitsBefore(t, a, b) {
      var i', j' :| i' < j' && Holds(t, i', a) && Holds(t, j', b);
      HeldOnce(t, i, i', a, a);
      HeldOnce(t, j, j', b, b);
    }
  }

  /** So whether an insertion would give up after a removal can be told before it. */
  lemma RemovedDecides<K, V>(t: Snap<K, V>, m: map<K, V>, p: nat, e: nat, k: K, keys: set<K>, max: nat)
    requires Inv(t) && Models(t, m) && IsRun(t, p, e) && Holds(t, p, k) && keys <= m.Keys - {k}
    ensures Shape(Removed(t, p, e)) && (GivesUp(Removed(t, p, e), keys, max) <==> GivesUp(t, keys, max))
  {
    hide Inv, IsRun, Removed, Holds, Crowded, CalcMax, SitsBefore;
    InvShape(t);
    RemovedKeeps(t, p, e);
    RemovedSizes(t, p, e);
    var r := Removed(t, p, e);
    InvShape(r);
    forall a, b | a in keys && b in keys
      ensures SitsBefore(r, a, b) <==> SitsBefore(t, a, b)
    {
      RemovedSits(t, p, e, k, a, b);
    }
    assert ButLast(r, keys) == ButLast(t, keys);
  }
}
