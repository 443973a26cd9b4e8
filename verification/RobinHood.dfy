/** The representation of the Robin Hood table on plain values: one info byte and one slot per
    position, the order of probing, and what keeps them. The hash function is arbitrary. */
module RobinHood {
  import opened Words
  import opened Options

  datatype Entry<K, V> = Entry(key: K, val: V)

  // ----- sizes -----

  const MAX_LOAD_FACTOR := 80
  const INITIAL_SIZE := 8
  const INITIAL_INC := 32

  function CalcMax(n: nat): nat {
    n * MAX_LOAD_FACTOR / 100
  }

  function WithBuffer(n: nat): nat {
    n + if CalcMax(n) < 0xFF then CalcMax(n) else 0xFF
  }

  // ----- where a key wants to be -----

  /** `keyToIdx`: 5 low hash bits go, shifted, into the info byte; the rest is masked to a position. */
  function Home(h: nat, n: nat): (i: nat)
    requires n > 0
    ensures i < n
  {
    BitAnd(h / 32, n - 1)
  }

  function HashBits(h: nat, shift: nat): nat {
    DivBounds(h % 32, Pow2(shift));
    h % 32 / Pow2(shift)
  }

  /** The info byte of a key with the given home and hash bits, when it sits at position j. */
  function InfoAt(home: nat, bits: nat, inc: nat, j: int): int {
    (j - home + 1) * inc + bits
  }

  /** The five pairs of increment and hash shift that narrowing goes through. */
  predicate IsWidth(inc: nat, shift: nat) {
    (inc, shift) in {(32, 0), (16, 1), (8, 2), (4, 3), (2, 4)}
  }

  // ----- the table as a value -----

  datatype Snap<!K, V> = Snap(hash: K -> nat, n: nat, inc: nat, shift: nat, info: seq<nat>, slots: seq<Option<Entry<K, V>>>)

  function Total<K, V>(t: Snap<K, V>): nat {
    WithBuffer(t.n)
  }

  /** Shape: positions, then the sentinel byte (absent before the first allocation), then padding. */
  predicate Shape<K, V>(t: Snap<K, V>) {
    && t.n > 0 && IsWidth(t.inc, t.shift)
    && |t.slots| == Total(t) && |t.info| == Total(t) + 8
    && t.info[Total(t)] == (if t.n == 1 then 0 else 1)
    && forall i :: Total(t) < i < |t.info| ==> t.info[i] == 0
  }

  predicate Occupied<K, V>(t: Snap<K, V>, i: int)
    requires Shape(t)
  {
    0 <= i < Total(t) && t.info[i] != 0
  }

  function KeyHome<K, V>(t: Snap<K, V>, k: K): (i: nat)
    requires t.n > 0
    ensures i < t.n
  {
    Home(t.hash(k), t.n)
  }

  function KeyInfo<K, V>(t: Snap<K, V>, k: K, j: int): int
    requires t.n > 0
  {
    InfoAt(KeyHome(t, k), HashBits(t.hash(k), t.shift), t.inc, j)
  }

  /** Position i holds key k, at or after its home, with the info byte the key has there. */
  ghost predicate Holds<K, V>(t: Snap<K, V>, i: int, k: K)
    requires Shape(t)
  {
    && Occupied(t, i) && t.slots[i].Some? && t.slots[i].value.key == k
    && KeyHome(t, k) <= i && t.info[i] == KeyInfo(t, k, i)
  }

  /** The Robin Hood invariant. */
  ghost predicate Inv<K, V>(t: Snap<K, V>) {
    && Shape(t)
    && (forall i :: Occupied(t, i) ==> t.slots[i].Some? && Holds(t, i, t.slots[i].value.key) && t.info[i] <= 0xFF)
    && (forall i {:trigger Occupied(t, i)} :: Occupied(t, i) && t.info[i] >= 2 * t.inc ==>
                                                 i > 0 && t.info[i - 1] != 0 && t.info[i] <= t.info[i - 1] + t.inc)
    && (forall i, j :: Occupied(t, i) && Occupied(t, j) && i != j ==> t.slots[i].value.key != t.slots[j].value.key)
  }

  /** The bindings the table stands for. */
  ghost predicate Models<K, V>(t: Snap<K, V>, m: map<K, V>)
    requires Shape(t)
  {
    && (forall i :: Occupied(t, i) && t.slots[i].Some? ==>
                      t.slots[i].value.key in m && m[t.slots[i].value.key] == t.slots[i].value.val)
    && (forall k :: k in m ==> exists i :: Holds(t, i, k))
  }

  /** Every byte can still be incremented once without leaving the byte range. */
  ghost predicate Headroom<K, V>(t: Snap<K, V>)
    requires Shape(t)
  {
    forall i :: Occupied(t, i) ==> t.info[i] + t.inc <= 0xFF
  }

  lemma InvShape<K, V>(t: Snap<K, V>)
    requires Inv(t)
    ensures Shape(t) && 2 <= t.inc <= 32
  {
  }

  lemma KeyInfoNext<K, V>(t: Snap<K, V>, k: K, j: int)
    requires t.n > 0
    ensures KeyInfo(t, k, j + 1) == KeyInfo(t, k, j) + t.inc
  {
  }

  lemma KeyInfoStart<K, V>(t: Snap<K, V>, k: K)
    requires t.n > 0 && IsWidth(t.inc, t.shift)
    ensures KeyInfo(t, k, KeyHome(t, k)) == t.inc + HashBits(t.hash(k), t.shift)
    ensures 2 <= t.inc <= KeyInfo(t, k, KeyHome(t, k)) < 2 * t.inc
  {
  }

  lemma {:induction false} KeyInfoPositive<K, V>(t: Snap<K, V>, k: K, j: int)
    requires t.n > 0 && IsWidth(t.inc, t.shift) && j >= KeyHome(t, k)
    ensures KeyInfo(t, k, j) >= 2 && KeyInfo(t, k, j) >= (j - KeyHome(t, k) + 1) * 2
    ensures j > KeyHome(t, k) ==> KeyInfo(t, k, j) >= 2 * t.inc
    decreases j - KeyHome(t, k)
  {
    KeyInfoStart(t, k);
    if j > KeyHome(t, k) {
      KeyInfoPositive(t, k, j - 1);
      KeyInfoNext(t, k, j - 1);
    }
  }

  /** Going back from where a key sits to its home, no byte is below the key's probe info: the search
      never stops early. */
  lemma {:induction false} ProbeReaches<K, V>(t: Snap<K, V>, k: K, p: int, j: int)
    requires Inv(t) && Holds(t, p, k) && KeyHome(t, k) <= j <= p
    ensures Occupied(t, j) && t.info[j] >= KeyInfo(t, k, j)
    decreases p - j
  {
    if j < p {
      ProbeReaches(t, k, p, j + 1);
      KeyInfoNext(t, k, j);
      KeyInfoPositive(t, k, j + 1);
    }
  }

  /** A probe info above the byte at j means the key is not at j or after. */
  lemma NotBeyond<K, V>(t: Snap<K, V>, k: K, j: int)
    requires Inv(t) && KeyHome(t, k) <= j < |t.info| && KeyInfo(t, k, j) > t.info[j]
    ensures forall p :: j <= p ==> !Holds(t, p, k)
  {
    forall p | j <= p
      ensures !Holds(t, p, k)
    {
      if Holds(t, p, k) {
        ProbeReaches(t, k, p, j);
      }
    }
  }

  /** Bytes bound the distance from home. */
  lemma DistanceBound<K, V>(t: Snap<K, V>, i: int)
    requires Inv(t) && Occupied(t, i)
    ensures i < t.n + 127
  {
    var k := t.slots[i].value.key;
    KeyInfoPositive(t, k, i);
  }

  // ----- the table is never full -----

  lemma OccupiedFacts<K, V>(t: Snap<K, V>, i: int)
    requires Inv(t) && Occupied(t, i)
    ensures t.slots[i].Some? && Holds(t, i, t.slots[i].value.key) && t.info[i] <= 0xFF
    ensures forall j :: Occupied(t, j) && i != j && t.slots[j].Some? ==> t.slots[i].value.key != t.slots[j].value.key
  {
  }

  lemma ModelFacts<K, V>(t: Snap<K, V>, m: map<K, V>, i: int)
    requires Inv(t) && Models(t, m) && Occupied(t, i)
    ensures t.slots[i].Some? && t.slots[i].value.key in m && m[t.slots[i].value.key] == t.slots[i].value.val
  {
  }

  ghost function KeysFrom<K, V>(t: Snap<K, V>, lo: nat, hi: nat): set<K>
    requires lo <= hi <= |t.slots| && forall i :: lo <= i < hi ==> t.slots[i].Some?
    decreases hi - lo
  {
    if lo == hi then {} else KeysFrom(t, lo, hi - 1) + {t.slots[hi - 1].value.key}
  }

  lemma {:induction false} KeysFromSize<K, V>(t: Snap<K, V>, lo: nat, hi: nat, m: map<K, V>)
    requires Inv(t) && Models(t, m) && lo <= hi <= Total(t) == |t.slots|
    requires forall i :: lo <= i < hi ==> Occupied(t, i) && t.slots[i].Some?
    ensures |KeysFrom(t, lo, hi)| == hi - lo && KeysFrom(t, lo, hi) <= m.Keys
    ensures forall k :: k in KeysFrom(t, lo, hi) ==> exists i :: lo <= i < hi && t.slots[i].value.key == k
    decreases hi - lo
  {
    hide Inv, Models, Holds, Occupied;
    if lo < hi {
      KeysFromSize(t, lo, hi - 1, m);
      OccupiedFacts(t, hi - 1);
      ModelFacts(t, m, hi - 1);
      var front, k := KeysFrom(t, lo, hi - 1), t.slots[hi - 1].value.key;
      assert k !in front;
    }
  }

  lemma SubsetSize<K>(a: set<K>, b: set<K>)
    requires a <= b
    ensures |a| <= |b|
  {
    assert b == a + (b - a);
  }

  /** With fewer elements than allowed, some position of the overflow buffer is free: there are more
      buffer positions than elements, or more than any distance that fits in a byte. */
  lemma BufferHasRoom<K, V>(t: Snap<K, V>, m: map<K, V>)
    requires Inv(t) && Models(t, m) && |m| < CalcMax(t.n)
    ensures exists i :: t.n <= i < Total(t) && t.info[i] == 0
  {
    if forall i :: t.n <= i < Total(t) ==> t.info[i] != 0 {
      forall i | t.n <= i < Total(t)
        ensures Occupied(t, i) && t.slots[i].Some?
      {
        assert Occupied(t, i);
      }
      hide Inv, Models, Occupied;
      if CalcMax(t.n) < 0xFF {
        KeysFromSize(t, t.n, Total(t), m);
        SubsetSize(KeysFrom(t, t.n, Total(t)), m.Keys);
      } else {
        DistanceBound(t, t.n + 254);
      }
      assert false;
    }
  }

  // ----- a new key -----

  /** Where a key that is not in the table goes: it is ahead of everything before p and behind p;
      e is the first free position from there. */
  predicate IsSpot<K, V>(t: Snap<K, V>, k: K, p: int, e: int)
    requires Shape(t)
  {
    && KeyHome(t, k) <= p <= e < Total(t)
    && (forall j :: KeyHome(t, k) <= j < p ==> KeyInfo(t, k, j) <= t.info[j])
    && KeyInfo(t, k, p) > t.info[p]
    && (forall j :: p <= j < e ==> t.info[j] != 0) && t.info[e] == 0
  }

  /** `shiftUp`: positions p to e - 1 move up by one, each one step further from home. */
  function InfoUp(info: seq<nat>, inc: nat, p: nat, e: nat): (r: seq<nat>)
    requires p <= e < |info|
    ensures |r| == |info|
  {
    seq(|info|, j requires 0 <= j < |info| => if p < j <= e then info[j - 1] + inc else info[j])
  }

  function SlotsUp<T>(slots: seq<T>, p: nat, e: nat): (r: seq<T>)
    requires p <= e < |slots|
    ensures |r| == |slots|
  {
    seq(|slots|, j requires 0 <= j < |slots| => if p < j <= e then slots[j - 1] else slots[j])
  }

  function Inserted<K, V>(t: Snap<K, V>, k: K, v: V, p: nat, e: nat): (r: Snap<K, V>)
    requires Shape(t) && IsSpot(t, k, p, e)
    ensures Shape(r)
  {
    KeyInfoPositive(t, k, p);
    t.(info := InfoUp(t.info, t.inc, p, e)[p := KeyInfo(t, k, p)],
       slots := SlotsUp(t.slots, p, e)[p := Some(Entry(k, v))])
  }

  /** Which old position a position of the new table was at; p itself is new. */
  function Before(p: int, e: int, j: int): int {
    if p < j <= e then j - 1 else j
  }

  lemma InsertedAt<K, V>(t: Snap<K, V>, k: K, v: V, p: nat, e: nat, j: int)
    requires Shape(t) && IsSpot(t, k, p, e) && j != p && 0 <= j < |t.info|
    ensures var r := Inserted(t, k, v, p, e);
            var i := Before(p, e, j);
            && 0 <= i < |t.info| && Occupied(r, j) == Occupied(t, i)
            && r.info[j] == (if p < j <= e then t.info[i] + t.inc else t.info[i])
            && (Occupied(r, j) ==> r.slots[j] == t.slots[i])
  {
  }

  /** The byte of the new key fits when there was headroom, and does not break the order. */
  lemma SpotInfo<K, V>(t: Snap<K, V>, k: K, p: nat, e: nat)
    requires Inv(t) && IsSpot(t, k, p, e)
    ensures KeyInfo(t, k, p) >= t.inc
    ensures KeyInfo(t, k, p) >= 2 * t.inc ==> p > 0 && Occupied(t, p - 1) && KeyInfo(t, k, p) <= t.info[p - 1] + t.inc
    ensures Headroom(t) ==> KeyInfo(t, k, p) <= 0xFF
  {
    KeyInfoStart(t, k);
    KeyInfoPositive(t, k, p);
    if KeyHome(t, k) < p {
      KeyInfoPositive(t, k, p - 1);
      KeyInfoNext(t, k, p - 1);
      assert KeyInfo(t, k, p - 1) <= t.info[p - 1];
      assert Occupied(t, p - 1);
    }
  }

  /** Facts about one occupied position. */
  lemma At<K, V>(t: Snap<K, V>, i: int)
    requires Inv(t) && Occupied(t, i)
    ensures t.slots[i].Some? && t.inc <= t.info[i] == KeyInfo(t, t.slots[i].value.key, i) <= 0xFF
    ensures KeyHome(t, t.slots[i].value.key) <= i
    ensures t.info[i] >= 2 * t.inc ==> i > 0 && Occupied(t, i - 1) && t.info[i] <= t.info[i - 1] + t.inc
  {
    var k := t.slots[i].value.key;
    assert Holds(t, i, k);
    KeyInfoStart(t, k);
    KeyInfoPositive(t, k, i);
  }

  lemma SameKeyInfo<K, V>(t: Snap<K, V>, r: Snap<K, V>, k: K, j: int)
    requires t.n > 0 && t.n == r.n && t.hash == r.hash && t.inc == r.inc && t.shift == r.shift
    ensures KeyHome(r, k) == KeyHome(t, k) && KeyInfo(r, k, j) == KeyInfo(t, k, j)
  {
  }

  lemma InsertedHolds<K, V>(t: Snap<K, V>, k: K, v: V, p: nat, e: nat, j: int)
    requires Inv(t) && Headroom(t) && IsSpot(t, k, p, e)
    requires Occupied(Inserted(t, k, v, p, e), j)
    ensures var r := Inserted(t, k, v, p, e);
            r.slots[j].Some? && Holds(r, j, r.slots[j].value.key) && r.info[j] <= 0xFF
  {
    hide Inv, KeyInfo, KeyHome, IsWidth;
    InvShape(t);
    var r := Inserted(t, k, v, p, e);
    SpotInfo(t, k, p, e);
    if j == p {
      SameKeyInfo(t, r, k, p);
    } else {
      InsertedAt(t, k, v, p, e, j);
      var i := Before(p, e, j);
      At(t, i);
      var key := t.slots[i].value.key;
      SameKeyInfo(t, r, key, j);
      KeyInfoNext(t, key, i);
    }
  }

  lemma InsertedOrder<K, V>(t: Snap<K, V>, k: K, v: V, p: nat, e: nat, j: int)
    requires Inv(t) && IsSpot(t, k, p, e)
    requires var r := Inserted(t, k, v, p, e); Occupied(r, j) && r.info[j] >= 2 * r.inc
    ensures var r := Inserted(t, k, v, p, e);
            j > 0 && Occupied(r, j - 1) && r.info[j] <= r.info[j - 1] + r.inc
  {
    hide Inv, KeyInfo, KeyHome, IsWidth;
    InvShape(t);
    if j == p {
      SpotInfo(t, k, p, e);
      InsertedAt(t, k, v, p, e, j - 1);
    } else if j == p + 1 {
      SpotInfo(t, k, p, e);
      InsertedAt(t, k, v, p, e, j);
      At(t, Before(p, e, j));
    } else {
      InsertedOrderMoved(t, k, v, p, e, j);
    }
  }

  lemma InsertedOrderMoved<K, V>(t: Snap<K, V>, k: K, v: V, p: nat, e: nat, j: int)
    requires Inv(t) && IsSpot(t, k, p, e) && j != p && j != p + 1
    requires var r := Inserted(t, k, v, p, e); Occupied(r, j) && r.info[j] >= 2 * r.inc
    ensures var r := Inserted(t, k, v, p, e);
            j > 0 && Occupied(r, j - 1) && r.info[j] <= r.info[j - 1] + r.inc
  {
    hide Inv, KeyInfo, KeyHome, IsWidth;
    InvShape(t);
    assert 0 <= p <= e < Total(t) && t.info[e] == 0 && t.inc > 0;
    hide Inv, KeyInfo, KeyHome, Holds, IsSpot, Inserted, IsWidth;
    InsertedAt(t, k, v, p, e, j);
    var i := Before(p, e, j);
    At(t, i);
    if j > 0 {
      InsertedAt(t, k, v, p, e, j - 1);
      if Occupied(t, i - 1) { At(t, i - 1); }
    }
  }

  lemma InsertedKeeps<K, V>(t: Snap<K, V>, m: map<K, V>, k: K, v: V, p: nat, e: nat)
    requires Inv(t) && Headroom(t) && IsSpot(t, k, p, e)
    requires Models(t, m) && k !in m
    ensures Inv(Inserted(t, k, v, p, e))
  {
    hide KeyInfo, KeyHome, IsWidth;
    var r := Inserted(t, k, v, p, e);
    forall j | Occupied(r, j)
      ensures r.slots[j].Some? && Holds(r, j, r.slots[j].value.key) && r.info[j] <= 0xFF
    {
      InsertedHolds(t, k, v, p, e, j);
    }
    forall j | Occupied(r, j) && r.info[j] >= 2 * r.inc
      ensures j > 0 && Occupied(r, j - 1) && r.info[j] <= r.info[j - 1] + r.inc
    {
      InsertedOrder(t, k, v, p, e, j);
    }
    forall i, j | Occupied(r, i) && Occupied(r, j) && i != j
      ensures r.slots[i].value.key != r.slots[j].value.key
    {
      InsertedDistinct(t, m, k, v, p, e, i, j);
    }
  }

  lemma InsertedDistinct<K, V>(t: Snap<K, V>, m: map<K, V>, k: K, v: V, p: nat, e: nat, i: int, j: int)
    requires Inv(t) && IsSpot(t, k, p, e) && Models(t, m) && k !in m && i != j
    requires var r := Inserted(t, k, v, p, e); Occupied(r, i) && Occupied(r, j) && r.slots[i].Some? && r.slots[j].Some?
    ensures var r := Inserted(t, k, v, p, e); r.slots[i].value.key != r.slots[j].value.key
  {
    hide KeyInfo, KeyHome, IsWidth;
    if i != p {
      InsertedAt(t, k, v, p, e, i);
      ModelFacts(t, m, Before(p, e, i));
    }
    if j != p {
      InsertedAt(t, k, v, p, e, j);
      ModelFacts(t, m, Before(p, e, j));
      OccupiedFacts(t, Before(p, e, j));
    }
  }

  lemma InsertedModels<K, V>(t: Snap<K, V>, m: map<K, V>, k: K, v: V, p: nat, e: nat)
    requires Inv(t) && Headroom(t) && IsSpot(t, k, p, e)
    requires Models(t, m) && k !in m
    ensures Models(Inserted(t, k, v, p, e), m[k := v])
  {
    hide KeyInfo, KeyHome, IsWidth;
    var r := Inserted(t, k, v, p, e);
    forall j | Occupied(r, j) && r.slots[j].Some?
      ensures r.slots[j].value.key in m[k := v] && m[k := v][r.slots[j].value.key] == r.slots[j].value.val
    {
      InsertedBinding(t, m, k, v, p, e, j);
    }
    var grown := m[k := v];
    forall key | key in grown
      ensures exists j :: Holds(r, j, key)
    {
      InsertedFinds(t, m, k, v, p, e, key);
    }
  }

  lemma InsertedBinding<K, V>(t: Snap<K, V>, m: map<K, V>, k: K, v: V, p: nat, e: nat, j: int)
    requires Inv(t) && IsSpot(t, k, p, e) && Models(t, m) && k !in m
    requires var r := Inserted(t, k, v, p, e); Occupied(r, j) && r.slots[j].Some?
    ensures var r := Inserted(t, k, v, p, e);
            r.slots[j].value.key in m[k := v] && m[k := v][r.slots[j].value.key] == r.slots[j].value.val
  {
    hide KeyInfo, KeyHome, IsWidth;
    if j != p {
      InsertedAt(t, k, v, p, e, j);
      ModelFacts(t, m, Before(p, e, j));
    }
  }

  lemma InsertedNew<K, V>(t: Snap<K, V>, k: K, v: V, p: nat, e: nat)
    requires Inv(t) && Headroom(t) && IsSpot(t, k, p, e)
    ensures Holds(Inserted(t, k, v, p, e), p, k)
  {
  }

  lemma InsertedMoves<K, V>(t: Snap<K, V>, k: K, v: V, p: nat, e: nat, key: K, i: int)
    requires Inv(t) && Headroom(t) && IsSpot(t, k, p, e) && Holds(t, i, key)
    ensures Holds(Inserted(t, k, v, p, e), if p <= i < e then i + 1 else i, key)
  {
    hide Inv, KeyInfo, KeyHome, IsWidth;
    InvShape(t);
    var j := if p <= i < e then i + 1 else i;
    InsertedAt(t, k, v, p, e, j);
    InsertedHolds(t, k, v, p, e, j);
  }

  lemma InsertedFinds<K, V>(t: Snap<K, V>, m: map<K, V>, k: K, v: V, p: nat, e: nat, key: K)
    requires Inv(t) && Headroom(t) && IsSpot(t, k, p, e) && Models(t, m) && k !in m && key in m[k := v]
    ensures exists j :: Holds(Inserted(t, k, v, p, e), j, key)
  {
    assert key != k ==> exists i :: Holds(t, i, key);
    hide Inv, Models, Holds, IsSpot, Headroom, Inserted;
    if key == k {
      InsertedNew(t, k, v, p, e);
    } else {
      var i :| Holds(t, i, key);
      InsertedMoves(t, k, v, p, e, key, i);
    }
  }

  /** The table stays clear of the byte limit exactly when neither the new byte nor a moved one
      reaches it: the checks that set the allowed count to 0 otherwise. */
  lemma InsertedHeadroom<K, V>(t: Snap<K, V>, k: K, v: V, p: nat, e: nat)
    requires Inv(t) && Headroom(t) && IsSpot(t, k, p, e)
    ensures var r := Inserted(t, k, v, p, e);
            Headroom(r) <==> KeyInfo(t, k, p) + t.inc <= 0xFF && forall j :: p < j <= e ==> r.info[j] + t.inc <= 0xFF
  {
    var r := Inserted(t, k, v, p, e);
    SpotInfo(t, k, p, e);
    InsertedNew(t, k, v, p, e);
    forall j | Occupied(r, j) && j != p
      ensures p < j <= e || r.info[j] + t.inc <= 0xFF
    {
      InsertedByte(t, k, v, p, e, j);
    }
    forall j | p < j <= e
      ensures Occupied(r, j)
    {
      InsertedByte(t, k, v, p, e, j);
    }
    hide Inv, KeyInfo, KeyHome, IsSpot, Inserted;
  }

  lemma InsertedByte<K, V>(t: Snap<K, V>, k: K, v: V, p: nat, e: nat, j: int)
    requires Inv(t) && Headroom(t) && IsSpot(t, k, p, e) && j != p
    ensures var r := Inserted(t, k, v, p, e);
            && (p < j <= e ==> Occupied(r, j))
            && (Occupied(r, j) ==> p < j <= e || r.info[j] + t.inc <= 0xFF)
  {
  }

  // ----- a removed key -----

  /** p holds the key to remove; p + 1 to e are away from home and e + 1 is not. */
  predicate IsRun<K, V>(t: Snap<K, V>, p: int, e: int)
    requires Shape(t)
  {
    && Occupied(t, p) && p <= e < Total(t)
    && (forall j :: p < j <= e ==> t.info[j] >= 2 * t.inc) && t.info[e + 1] < 2 * t.inc
  }

  /** `shiftDown`: positions p + 1 to e move down by one, each one step closer to home; e is freed. */
  function InfoDown(info: seq<nat>, inc: nat, p: nat, e: nat): (r: seq<int>)
    requires p <= e < |info|
    ensures |r| == |info|
  {
    seq(|info|, j requires 0 <= j < |info| => if p <= j < e then info[j + 1] - inc else if j == e then 0 else info[j])
  }

  function SlotsDown<T>(slots: seq<Option<T>>, p: nat, e: nat): (r: seq<Option<T>>)
    requires p <= e < |slots|
    ensures |r| == |slots|
  {
    seq(|slots|, j requires 0 <= j < |slots| => if p <= j < e then slots[j + 1] else if j == e then None else slots[j])
  }

  function Removed<K, V>(t: Snap<K, V>, p: nat, e: nat): (r: Snap<K, V>)
    requires Shape(t) && IsRun(t, p, e)
    ensures Shape(r)
  {
    t.(info := InfoDown(t.info, t.inc, p, e), slots := SlotsDown(t.slots, p, e))
  }

  function After(p: int, e: int, j: int): int {
    if p <= j < e then j + 1 else j
  }

  lemma RemovedAt<K, V>(t: Snap<K, V>, p: nat, e: nat, j: int)
    requires Shape(t) && IsRun(t, p, e) && j != e && 0 <= j < |t.info|
    ensures var r := Removed(t, p, e);
            var i := After(p, e, j);
            && 0 <= i < |t.info| && i != p && Occupied(r, j) == Occupied(t, i)
            && r.info[j] == (if p <= j < e then t.info[i] - t.inc else t.info[i])
            && (Occupied(r, j) ==> r.slots[j] == t.slots[i])
  {
    if p <= j < e { assert t.info[j + 1] >= 2 * t.inc; }
  }

  lemma RemovedSizes<K, V>(t: Snap<K, V>, p: nat, e: nat)
    requires Shape(t) && IsRun(t, p, e)
    ensures var r := Removed(t, p, e); r.n == t.n && r.inc == t.inc && r.shift == t.shift && r.hash == t.hash
    ensures !Occupied(Removed(t, p, e), e)
  {
  }

  lemma RemovedHolds<K, V>(t: Snap<K, V>, p: nat, e: nat, j: int)
    requires Inv(t) && IsRun(t, p, e) && Occupied(Removed(t, p, e), j)
    ensures var r := Removed(t, p, e);
            r.slots[j].Some? && Holds(r, j, r.slots[j].value.key) && r.info[j] <= 0xFF
  {
    hide Inv, KeyInfo, KeyHome, IsWidth, Removed;
    InvShape(t);
    RemovedSizes(t, p, e);
    var r := Removed(t, p, e);
    RemovedAt(t, p, e, j);
    var i := After(p, e, j);
    At(t, i);
    var key := t.slots[i].value.key;
    SameKeyInfo(t, r, key, j);
    if i != j {
      KeyInfoNext(t, key, j);
      KeyInfoStart(t, key);
    }
  }

  lemma RemovedOrder<K, V>(t: Snap<K, V>, p: nat, e: nat, j: int)
    requires Inv(t) && IsRun(t, p, e)
    requires var r := Removed(t, p, e); Occupied(r, j) && r.info[j] >= 2 * r.inc
    ensures var r := Removed(t, p, e);
            j > 0 && Occupied(r, j - 1) && r.info[j] <= r.info[j - 1] + r.inc
  {
    hide Inv, KeyInfo, KeyHome, IsWidth;
    InvShape(t);
    RemovedAt(t, p, e, j);
    At(t, After(p, e, j));
    if p <= j < e { At(t, j); }
    RemovedAt(t, p, e, j - 1);
  }

  lemma RemovedKeeps<K, V>(t: Snap<K, V>, p: nat, e: nat)
    requires Inv(t) && IsRun(t, p, e)
    ensures Inv(Removed(t, p, e))
    ensures Headroom(t) ==> Headroom(Removed(t, p, e))
  {
    hide KeyInfo, KeyHome, IsWidth;
    var r := Removed(t, p, e);
    forall j | Occupied(r, j)
      ensures r.slots[j].Some? && Holds(r, j, r.slots[j].value.key) && r.info[j] <= 0xFF
      ensures Headroom(t) ==> r.info[j] + r.inc <= 0xFF
    {
      RemovedHolds(t, p, e, j);
      RemovedAt(t, p, e, j);
    }
    forall j | Occupied(r, j) && r.info[j] >= 2 * r.inc
      ensures j > 0 && Occupied(r, j - 1) && r.info[j] <= r.info[j - 1] + r.inc
    {
      RemovedOrder(t, p, e, j);
    }
    forall i, j | Occupied(r, i) && Occupied(r, j) && i != j
      ensures r.slots[i].value.key != r.slots[j].value.key
    {
      RemovedDistinct(t, p, e, i, j);
    }
    hide IsRun, Removed, Holds;
  }

  lemma RemovedDistinct<K, V>(t: Snap<K, V>, p: nat, e: nat, i: int, j: int)
    requires Inv(t) && IsRun(t, p, e) && i != j
    requires var r := Removed(t, p, e); Occupied(r, i) && Occupied(r, j) && r.slots[i].Some? && r.slots[j].Some?
    ensures var r := Removed(t, p, e); r.slots[i].value.key != r.slots[j].value.key
  {
    hide Inv, KeyInfo, KeyHome, Holds;
    InvShape(t);
    RemovedAt(t, p, e, i);
    RemovedAt(t, p, e, j);
    OccupiedFacts(t, After(p, e, i));
    OccupiedFacts(t, After(p, e, j));
  }

  lemma RemovedModels<K, V>(t: Snap<K, V>, m: map<K, V>, p: nat, e: nat, k: K)
    requires Inv(t) && IsRun(t, p, e) && Models(t, m) && Holds(t, p, k)
    ensures k in m && Models(Removed(t, p, e), m - {k})
  {
    hide KeyInfo, KeyHome, IsWidth;
    var r := Removed(t, p, e);
    ModelFacts(t, m, p);
    forall j | Occupied(r, j) && r.slots[j].Some?
      ensures r.slots[j].value.key in m - {k} && (m - {k})[r.slots[j].value.key] == r.slots[j].value.val
    {
      RemovedBinding(t, m, p, e, k, j);
    }
    forall key | key in m - {k}
      ensures exists j :: Holds(r, j, key)
    {
      var i :| Holds(t, i, key);
      RemovedMoves(t, p, e, k, key, i);
    }
    hide Inv, Holds, IsRun, Removed;
  }

  lemma RemovedBinding<K, V>(t: Snap<K, V>, m: map<K, V>, p: nat, e: nat, k: K, j: int)
    requires Inv(t) && IsRun(t, p, e) && Models(t, m) && Holds(t, p, k)
    requires var r := Removed(t, p, e); Occupied(r, j) && r.slots[j].Some?
    ensures var r := Removed(t, p, e);
            r.slots[j].value.key in m - {k} && (m - {k})[r.slots[j].value.key] == r.slots[j].value.val
  {
    hide Inv, KeyInfo, KeyHome, Models;
    InvShape(t);
    RemovedAt(t, p, e, j);
    ModelFacts(t, m, After(p, e, j));
    OccupiedFacts(t, After(p, e, j));
  }

  lemma RemovedMoves<K, V>(t: Snap<K, V>, p: nat, e: nat, k: K, key: K, i: int)
    requires Inv(t) && IsRun(t, p, e) && Holds(t, p, k) && Holds(t, i, key) && key != k
    ensures Holds(Removed(t, p, e), if p < i <= e then i - 1 else i, key)
  {
    hide Inv, KeyInfo, KeyHome, IsWidth;
    InvShape(t);
    var j := if p < i <= e then i - 1 else i;
    RemovedAt(t, p, e, j);
    RemovedHolds(t, p, e, j);
  }

  // ----- how bad a hash may be -----

  ghost function KeysNear<K, V>(t: Snap<K, V>, lo: nat, count: nat): (keys: set<K>)
    requires Inv(t)
    ensures |keys| <= count
  {
    if count == 0 then {}
    else if Occupied(t, lo + count - 1) then KeysNear(t, lo, count - 1) + {t.slots[lo + count - 1].value.key}
    else KeysNear(t, lo, count - 1)
  }

  lemma {:induction false} NearKeys<K, V>(t: Snap<K, V>, lo: nat, count: nat, i: nat)
    requires Inv(t) && lo <= i < lo + count && Occupied(t, i)
    ensures t.slots[i].Some? && t.slots[i].value.key in KeysNear(t, lo, count)
  {
    hide Inv, Holds, KeyInfo, KeyHome;
    InvShape(t);
    OccupiedFacts(t, i);
    if i < lo + count - 1 {
      NearKeys(t, lo, count - 1, i);
    }
  }

  /** At most 127 keys can share a home, whatever the size of the table: with a hash that sends more
      keys there, some insertion has to overflow. */
  lemma SharedHomeLimit<K, V>(t: Snap<K, V>, m: map<K, V>, keys: set<K>, home: nat)
    requires Inv(t) && Models(t, m) && keys <= m.Keys && forall k :: k in keys ==> KeyHome(t, k) == home
    ensures |keys| <= 127
  {
    forall k | k in keys
      ensures k in KeysNear(t, home, 127)
    {
      var i :| Holds(t, i, k);
      NearHome(t, k, i);
      NearKeys(t, home, 127, i);
    }
    SubsetSize(keys, KeysNear(t, home, 127));
  }

  lemma NearHome<K, V>(t: Snap<K, V>, k: K, i: int)
    requires Inv(t) && Holds(t, i, k)
    ensures Occupied(t, i) && KeyHome(t, k) <= i < KeyHome(t, k) + 127
  {
    OccupiedFacts(t, i);
    KeyInfoPositive(t, k, i);
  }
}
