/** The Robin Hood hash table as the source writes it: two arrays updated in place, proved against
    the representation on plain values. */
module HashTable {
  import opened Words
  import opened Options
  import opened RobinHood
  import opened Narrowing
  import opened Crowding

  /** Conversion to `uint8_t`. */
  function ToByte(x: int): Byte {
    x % 256
  }

  lemma ToByteFits(x: int)
    requires 0 <= x <= 0xFF
    ensures ToByte(x) == x
  {
  }

  /** The state of a table that holds exactly the bindings m: the count is theirs, and a table that
      still allows insertions has headroom in every byte. */
  ghost predicate Sound<K, V>(t: Snap<K, V>, m: map<K, V>, num: nat, max: nat) {
    && Inv(t) && Models(t, m)
    && num == |m| <= CalcMax(t.n)
    && (max == 0 || (max == CalcMax(t.n) && Headroom(t)))
  }

  lemma SoundFacts<K, V>(t: Snap<K, V>, m: map<K, V>, num: nat, max: nat)
    requires Sound(t, m, num, max)
    ensures Inv(t) && Models(t, m) && Shape(t) && IsWidth(t.inc, t.shift)
    ensures num == |m| <= CalcMax(t.n) && (max != 0 ==> max == CalcMax(t.n) && Headroom(t))
  {
  }

  // ----- what the probing loops conclude -----

  /** The probe for k has passed every position before j without finding it. */
  ghost predicate Passed<K, V>(t: Snap<K, V>, k: K, j: int)
    requires Shape(t)
  {
    KeyHome(t, k) <= j && forall i :: KeyHome(t, k) <= i < j ==> !Holds(t, i, k)
  }

  lemma PassedStart<K, V>(t: Snap<K, V>, k: K)
    requires Inv(t)
    ensures Passed(t, k, KeyHome(t, k)) && KeyHome(t, k) < Total(t) == |t.info| - 8
  {
  }

  lemma PassedNext<K, V>(t: Snap<K, V>, k: K, j: int)
    requires Inv(t) && Passed(t, k, j) && !Holds(t, j, k)
    ensures Passed(t, k, j + 1)
  {
  }

  lemma NotInTable<K, V>(t: Snap<K, V>, m: map<K, V>, k: K, j: int)
    requires Inv(t) && Models(t, m) && Passed(t, k, j) && j < |t.info| && KeyInfo(t, k, j) > t.info[j]
    ensures k !in m
  {
    NotBeyond(t, k, j);
  }

  lemma HoldsOccupied<K, V>(t: Snap<K, V>, i: int, k: K)
    requires Shape(t) && Holds(t, i, k)
    ensures Occupied(t, i)
  {
  }

  lemma InTable<K, V>(t: Snap<K, V>, m: map<K, V>, k: K, i: int)
    requires Inv(t) && Models(t, m) && Holds(t, i, k)
    ensures 0 <= i < |t.slots| && k in m && t.slots[i] == Some(Entry(k, m[k]))
  {
  }

  lemma FoundBeforeEnd<K, V>(t: Snap<K, V>, m: map<K, V>, k: K, i: int)
    requires Shape(t) && Holds(t, i, k) && k in m && |m| <= CalcMax(t.n)
    ensures t.n > 1 && i < WithBuffer(t.n)
  {
  }

  /** The sentinel and the padding are below every probe info, so every probing loop stops. */
  lemma ProbeStops<K, V>(t: Snap<K, V>, k: K, j: int)
    requires Inv(t) && Passed(t, k, j) && j < |t.info|
    ensures KeyInfo(t, k, j) >= 2
    ensures KeyInfo(t, k, j) <= t.info[j] ==> j < Total(t)
  {
    KeyInfoPositive(t, k, j);
  }

  // ----- what the shifting loops have done so far -----

  lemma SentinelIsLow<K, V>(t: Snap<K, V>, i: nat)
    requires Shape(t) && Occupied(t, i)
    ensures i < |t.slots| == |t.info| - 8 && 2 <= t.inc <= 32 && t.info[|t.slots|] <= 1
  {
  }

  lemma DownStart<K, V>(t: Snap<K, V>, p: nat)
    requires p < |t.slots| <= |t.info|
    ensures t.info == InfoDown(t.info, t.inc, p, p)[p := t.info[p]]
    ensures t.slots == SlotsDown(t.slots, p, p)[p := t.slots[p]]
  {
  }

  lemma DownAt<K, V>(t: Snap<K, V>, p: nat, i: nat)
    requires p <= i && i + 1 < |t.info|
    ensures InfoDown(t.info, t.inc, p, i)[i := t.info[i]][i + 1] == t.info[i + 1]
  {
  }

  lemma DownStep<K, V>(t: Snap<K, V>, p: nat, i: nat)
    requires p <= i && i + 1 < |t.slots| <= |t.info|
    ensures var a := InfoDown(t.info, t.inc, p, i)[i := t.info[i]];
            a[i + 1] == t.info[i + 1] && a[i := t.info[i + 1] - t.inc] == InfoDown(t.info, t.inc, p, i + 1)[i + 1 := t.info[i + 1]]
    ensures var b := SlotsDown(t.slots, p, i)[i := t.slots[i]];
            b[i + 1] == t.slots[i + 1] && b[i := t.slots[i + 1]] == SlotsDown(t.slots, p, i + 1)[i + 1 := t.slots[i + 1]]
  {
  }

  lemma DownEnd<K, V>(t: Snap<K, V>, p: nat, e: nat)
    requires Shape(t) && Occupied(t, p) && p <= e < |t.slots|
    requires (forall j :: p < j <= e ==> t.info[j] >= 2 * t.inc) && t.info[e + 1] < 2 * t.inc
    ensures IsRun(t, p, e)
    ensures Removed(t, p, e).info == InfoDown(t.info, t.inc, p, e)[e := t.info[e]][e := 0]
    ensures Removed(t, p, e).slots == SlotsDown(t.slots, p, e)[e := t.slots[e]][e := None]
    ensures Removed(t, p, e) == t.(info := Removed(t, p, e).info, slots := Removed(t, p, e).slots)
  {
  }

  lemma RemovedSound<K, V>(t: Snap<K, V>, m: map<K, V>, num: nat, max: nat, p: nat, e: nat, k: K)
    requires Sound(t, m, num, max) && IsRun(t, p, e) && Holds(t, p, k)
    ensures k in m && num > 0 && Sound(Removed(t, p, e), m - {k}, num - 1, max)
  {
    assert Inv(t) && Models(t, m);
    hide Inv, Models, Headroom, CalcMax, IsRun, Holds;
    RemovedKeeps(t, p, e);
    RemovedModels(t, m, p, e, k);
    MapMinus(m, k);
  }

  lemma MapMinus<K, V>(m: map<K, V>, k: K)
    requires k in m
    ensures |m - {k}| == |m| - 1
  {
  }

  lemma UpStart<K, V>(t: Snap<K, V>, e: nat)
    requires e < |t.slots| <= |t.info|
    ensures t.info == InfoUp(t.info, t.inc, e, e) && t.slots == SlotsUp(t.slots, e, e)
    ensures UpFits(t.info, t.inc, e, e)
  {
  }

  /** No byte that moves up from p to e - 1 comes too close to the byte range. */
  predicate UpFits(info: seq<nat>, inc: nat, p: nat, e: nat)
    requires p <= e <= |info|
  {
    forall j :: p <= j < e ==> info[j] + inc + inc <= 0xFF
  }

  lemma UpStep<K, V>(t: Snap<K, V>, i: nat, e: nat)
    requires 0 < i <= e < |t.slots| <= |t.info|
    ensures InfoUp(t.info, t.inc, i, e)[i - 1] == t.info[i - 1]
    ensures InfoUp(t.info, t.inc, i, e)[i := t.info[i - 1] + t.inc] == InfoUp(t.info, t.inc, i - 1, e)
    ensures UpFits(t.info, t.inc, i - 1, e) <==> UpFits(t.info, t.inc, i, e) && t.info[i - 1] + t.inc + t.inc <= 0xFF
    ensures SlotsUp(t.slots, i, e)[i - 1] == t.slots[i - 1]
    ensures SlotsUp(t.slots, i, e)[i := t.slots[i - 1]] == SlotsUp(t.slots, i - 1, e)
  {
  }

  /** The probe for k has come to j: no position before holds k or a lower byte. */
  ghost predicate Reached<K, V>(t: Snap<K, V>, k: K, j: int)
    requires Shape(t)
  {
    && KeyHome(t, k) <= j < |t.info|
    && forall i :: KeyHome(t, k) <= i < j ==> KeyInfo(t, k, i) <= t.info[i] && !Holds(t, i, k)
  }

  lemma ReachedStart<K, V>(t: Snap<K, V>, k: K)
    requires Inv(t)
    ensures Reached(t, k, KeyHome(t, k))
  {
  }

  lemma ReachedNext<K, V>(t: Snap<K, V>, k: K, j: int)
    requires Inv(t) && Reached(t, k, j) && KeyInfo(t, k, j) <= t.info[j] && !Holds(t, j, k)
    ensures j < Total(t) && Reached(t, k, j + 1)
    ensures KeyInfo(t, k, j) == t.info[j] ==> KeyInfo(t, k, j + 1) >= t.info[j + 1]
  {
    hide Inv, KeyHome, KeyInfo, IsWidth;
    InvShape(t);
    KeyInfoPositive(t, k, j);
    KeyInfoNext(t, k, j);
    if t.info[j + 1] >= 2 * t.inc {
      assert j + 1 < Total(t);
      At(t, j + 1);
    } else {
      AtLeastInc(t, k, j);
    }
  }

  lemma AtLeastInc<K, V>(t: Snap<K, V>, k: K, j: int)
    requires t.n > 0 && IsWidth(t.inc, t.shift) && KeyHome(t, k) <= j
    ensures KeyInfo(t, k, j) >= t.inc
  {
    hide KeyInfo, KeyHome;
    KeyInfoStart(t, k);
    KeyInfoPositive(t, k, j);
  }

  lemma LessIsNotHeld<K, V>(t: Snap<K, V>, k: K, j: int)
    requires Inv(t) && Reached(t, k, j) && KeyInfo(t, k, j) < t.info[j]
    ensures !Holds(t, j, k)
  {
  }

  lemma ReachedInRange<K, V>(t: Snap<K, V>, k: K, j: int)
    requires Shape(t) && Reached(t, k, j)
    ensures 0 <= j < |t.info|
  {
  }

  lemma ReachedPassed<K, V>(t: Snap<K, V>, k: K, j: int)
    requires Shape(t) && Reached(t, k, j)
    ensures Passed(t, k, j)
  {
  }

  lemma ReachedPlace<K, V>(t: Snap<K, V>, m: map<K, V>, k: K, j: int)
    requires Inv(t) && Models(t, m) && Reached(t, k, j) && KeyInfo(t, k, j) > t.info[j]
    ensures 0 <= j && IsPlace(t, k, j) && k !in m
  {
    hide Inv, Models, KeyInfo, KeyHome;
    InvShape(t);
    NotInTable(t, m, k, j);
  }

  /** The position is the first where the probe for k is ahead. */
  predicate IsPlace<K, V>(t: Snap<K, V>, k: K, p: nat)
    requires Shape(t)
  {
    && KeyHome(t, k) <= p < |t.info| && KeyInfo(t, k, p) > t.info[p]
    && forall j :: KeyHome(t, k) <= j < p ==> KeyInfo(t, k, j) <= t.info[j]
  }

  lemma PlaceHasRoom<K, V>(t: Snap<K, V>, m: map<K, V>, num: nat, max: nat, k: K, p: nat) returns (e: nat)
    requires Sound(t, m, num, max) && Shape(t) && num < CalcMax(t.n) && IsPlace(t, k, p)
    ensures p <= e < |t.slots| <= |t.info| && t.info[e] == 0
  {
    hide Inv, Models, KeyInfo, KeyHome, CalcMax, Headroom;
    BufferHasRoom(t, m);
    e :| t.n <= e < Total(t) && t.info[e] == 0;
    assert KeyHome(t, k) < t.n;
    if e < p {
      ByteBelow(t, k, e);
      assert false;
    }
  }

  lemma ByteBelow<K, V>(t: Snap<K, V>, k: K, j: int)
    requires Shape(t) && KeyHome(t, k) <= j < |t.info| && KeyInfo(t, k, j) <= t.info[j]
    ensures t.info[j] != 0
  {
    KeyInfoPositive(t, k, j);
  }

  lemma PlaceIsSpot<K, V>(t: Snap<K, V>, k: K, p: nat, e: nat)
    requires Inv(t) && Headroom(t) && IsPlace(t, k, p) && p <= e < |t.slots|
    requires (forall j :: p <= j < e ==> t.info[j] != 0) && t.info[e] == 0
    ensures IsSpot(t, k, p, e) && KeyInfo(t, k, p) <= 0xFF
    ensures forall j :: p <= j < e ==> t.info[j] + t.inc <= 0xFF
  {
    hide Inv, KeyInfo, KeyHome;
    InvShape(t);
    SpotInfo(t, k, p, e);
    forall j | p <= j < e
      ensures t.info[j] + t.inc <= 0xFF
    {
      assert Occupied(t, j);
    }
  }

  lemma InsertedSound<K, V>(t: Snap<K, V>, m: map<K, V>, num: nat, max: nat, k: K, v: V, p: nat, e: nat)
    requires Sound(t, m, num, max) && max != 0 && num < CalcMax(t.n) && k !in m
    requires Shape(t) && IsSpot(t, k, p, e)
    ensures var r, fits := Inserted(t, k, v, p, e), KeyInfo(t, k, p) + t.inc <= 0xFF && UpFits(t.info, t.inc, p, e);
            Sound(r, m[k := v], num + 1, if fits then max else 0) && Tight(r, if fits then max else 0)
  {
    hide Inv, Models, KeyInfo, KeyHome, CalcMax, Holds;
    InsertedKeeps(t, m, k, v, p, e);
    InsertedModels(t, m, k, v, p, e);
    FitsHeadroom(t, k, v, p, e);
  }

  lemma FitsHeadroom<K, V>(t: Snap<K, V>, k: K, v: V, p: nat, e: nat)
    requires Inv(t) && Headroom(t) && IsSpot(t, k, p, e)
    ensures Headroom(Inserted(t, k, v, p, e)) <==> KeyInfo(t, k, p) + t.inc <= 0xFF && UpFits(t.info, t.inc, p, e)
  {
    hide Inv, KeyInfo, KeyHome, Headroom;
    InvShape(t);
    InsertedHeadroom(t, k, v, p, e);
    var r := Inserted(t, k, v, p, e);
    assert forall j :: p < j <= e ==> r.info[j] == t.info[j - 1] + t.inc;
    assert (forall j :: p < j <= e ==> r.info[j] + t.inc <= 0xFF) ==> UpFits(t.info, t.inc, p, e) by {
      forall j | p <= j < e && (forall i :: p < i <= e ==> r.info[i] + t.inc <= 0xFF)
        ensures t.info[j] + t.inc + t.inc <= 0xFF
      {
        assert r.info[j + 1] == t.info[j] + t.inc;
      }
    }
  }

  /** A table that allows insertions is tight. */
  lemma SoundIsTight<K, V>(t: Snap<K, V>, m: map<K, V>, num: nat, max: nat)
    requires Sound(t, m, num, max) && max != 0
    ensures Shape(t) && Tight(t, max)
  {
  }

  lemma InsertedParts<K, V>(t: Snap<K, V>, k: K, v: V, p: nat, e: nat)
    requires Shape(t) && IsSpot(t, k, p, e)
    ensures Inserted(t, k, v, p, e).info == InfoUp(t.info, t.inc, p, e)[p := KeyInfo(t, k, p)]
    ensures Inserted(t, k, v, p, e).slots == SlotsUp(t.slots, p, e)[p := Some(Entry(k, v))]
    ensures Inserted(t, k, v, p, e) == t.(info := Inserted(t, k, v, p, e).info, slots := Inserted(t, k, v, p, e).slots)
  {
  }

  // ----- narrowing -----

  /** The bytes after the narrowing loop has come to i. */
  function HalvedTo(bytes: seq<Byte>, i: nat): (r: seq<Byte>)
    requires i <= |bytes|
    ensures |r| == |bytes|
    ensures forall j :: 0 <= j < |r| ==> r[j] == if j < i then bytes[j] / 2 else bytes[j]
  {
    Halves(bytes[..i]) + bytes[i..]
  }

  lemma HalvedStart(bytes: seq<Byte>)
    ensures HalvedTo(bytes, 0) == bytes
  {
  }

  lemma HalvedStep(bytes: seq<Byte>, i: nat)
    requires i + 8 <= |bytes|
    ensures var a := HalvedTo(bytes, i); Overlay(a, i, Halves(a[i..i + 8]), 8) == HalvedTo(bytes, i + 8)
  {
    hide HalvedTo, Halves, Overlay;
    var a, r := HalvedTo(bytes, i), HalvedTo(bytes, i + 8);
    var stored := Halves(a[i..i + 8]);
    forall j | 0 <= j < |bytes|
      ensures Overlay(a, i, stored, 8)[j] == r[j]
    {
      OverlayAt(a, i, stored, j);
      if i <= j < i + 8 {
        HalvesAt(a[i..i + 8], j - i);
      }
    }
  }

  lemma HalvesAt(bytes: seq<Byte>, j: nat)
    requires j < |bytes|
    ensures |Halves(bytes)| == |bytes| && Halves(bytes)[j] == bytes[j] / 2
  {
  }

  lemma OverlayAt(bytes: seq<Byte>, i: nat, stored: seq<Byte>, j: nat)
    requires i + 8 <= |bytes| && |stored| == 8 && j < |bytes|
    ensures Overlay(bytes, i, stored, 8)[j] == if i <= j < i + 8 then stored[j - i] else bytes[j]
  {
  }

  /** The bytes after the first j of eight new ones are stored from i. */
  function Overlay(bytes: seq<Byte>, i: nat, stored: seq<Byte>, j: nat): (r: seq<Byte>)
    requires i + 8 <= |bytes| && j <= |stored| == 8
    ensures |r| == |bytes|
  {
    bytes[..i] + stored[..j] + bytes[i + j..]
  }

  lemma OverlayStart(bytes: seq<Byte>, i: nat, stored: seq<Byte>)
    requires i + 8 <= |bytes| && |stored| == 8
    ensures Overlay(bytes, i, stored, 0) == bytes
  {
  }

  lemma OverlayStep(bytes: seq<Byte>, i: nat, stored: seq<Byte>, j: nat)
    requires i + 8 <= |bytes| && j < |stored| == 8
    ensures Overlay(bytes, i, stored, j)[i + j := stored[j]] == Overlay(bytes, i, stored, j + 1)
  {
  }

  lemma ShapeSizes<K, V>(t: Snap<K, V>)
    requires Shape(t)
    ensures |t.slots| == WithBuffer(t.n) && |t.info| == WithBuffer(t.n) + 8
  {
  }

  lemma NarrowedFrom<K, V>(t: Snap<K, V>, r: Snap<K, V>, bytes: seq<Byte>)
    requires Shape(t) && t.n > 1 && t.inc > 2 && bytes == t.info
    requires r.n == t.n && r.hash == t.hash && r.slots == t.slots && r.inc == t.inc / 2 && r.shift == t.shift + 1
    requires exists i :: Total(t) <= i <= |bytes| && r.info == HalvedTo(bytes, i)[Total(t) := 1]
    ensures Narrows(t, r)
  {
  }

  lemma NarrowedSound<K, V>(t: Snap<K, V>, r: Snap<K, V>, m: map<K, V>, num: nat, max: nat)
    requires Sound(t, m, num, max) && Narrows(t, r)
    ensures Sound(r, m, num, CalcMax(t.n))
  {
    hide Inv, Models, Headroom, CalcMax;
    NarrowingKeeps(t, r, m);
  }

  // ----- growing -----

  /** Every binding of a is one of b. */
  ghost predicate IsPart<K, V>(a: map<K, V>, b: map<K, V>) {
    forall k :: k in a ==> k in b && a[k] == b[k]
  }

  lemma CalcMaxPositive(n: nat, num: nat)
    requires num < CalcMax(n)
    ensures CalcMax(n) != 0
  {
  }

  lemma AbsentNotHeld<K, V>(t: Snap<K, V>, m: map<K, V>, k: K, j: int)
    requires Inv(t) && Models(t, m) && k !in m
    ensures !Holds(t, j, k)
  {
  }

  lemma EmptySound<K, V>(t: Snap<K, V>, max: nat)
    requires Shape(t) && (forall i :: 0 <= i < Total(t) ==> t.info[i] == 0) && max in {0, CalcMax(t.n)}
    ensures Sound(t, map[], 0, max)
  {
  }

  /** The bindings at the positions before i. */
  ghost function Collected<K, V>(t: Snap<K, V>, i: nat): map<K, V>
    requires Inv(t) && i <= Total(t)
  {
    if i == 0 then map[]
    else if Occupied(t, i - 1) then Collected(t, i - 1)[t.slots[i - 1].value.key := t.slots[i - 1].value.val]
    else Collected(t, i - 1)
  }

  lemma {:induction false} CollectedKeys<K, V>(t: Snap<K, V>, i: nat, k: K)
    requires Inv(t) && i <= Total(t)
    ensures k in Collected(t, i) <==> exists j :: j < i && Occupied(t, j) && t.slots[j].Some? && t.slots[j].value.key == k
  {
    hide Holds, KeyInfo, KeyHome;
    if i > 0 {
      CollectedKeys(t, i - 1, k);
    }
  }

  lemma {:induction false} CollectedValues<K, V>(t: Snap<K, V>, m: map<K, V>, i: nat, k: K)
    requires Inv(t) && Models(t, m) && i <= Total(t) && k in Collected(t, i)
    ensures k in m && Collected(t, i)[k] == m[k]
  {
    hide Inv, Models, Holds, KeyInfo, KeyHome;
    InvShape(t);
    if Occupied(t, i - 1) {
      ModelFacts(t, m, i - 1);
      if k != t.slots[i - 1].value.key { CollectedValues(t, m, i - 1, k); }
    } else {
      CollectedValues(t, m, i - 1, k);
    }
  }

  /** The next binding to carry over is a new one, so there is still one missing. */
  lemma CollectedNext<K, V>(t: Snap<K, V>, m: map<K, V>, i: nat)
    requires Inv(t) && Models(t, m) && i < Total(t) && Occupied(t, i)
    ensures t.slots[i].Some? && t.slots[i].value.key !in Collected(t, i) && |Collected(t, i)| < |m|
  {
    hide Inv, Models, Holds, KeyInfo, KeyHome, Collected;
    InvShape(t);
    OccupiedFacts(t, i);
    ModelFacts(t, m, i);
    var k := t.slots[i].value.key;
    CollectedKeys(t, i, k);
    var c := Collected(t, i);
    forall x | x in c.Keys
      ensures x in m.Keys - {k}
    {
      CollectedValues(t, m, i, x);
    }
    SubsetSize(c.Keys, m.Keys - {k});
  }

  lemma CollectedAll<K, V>(t: Snap<K, V>, m: map<K, V>)
    requires Inv(t) && Models(t, m)
    ensures Collected(t, Total(t)) == m
  {
    var c := Collected(t, Total(t));
    forall k | k in m
      ensures k in c
    {
      var i :| Holds(t, i, k);
      CollectedKeys(t, Total(t), k);
      assert Occupied(t, i);
    }
    hide Inv, Models, Holds, KeyInfo, KeyHome, Collected;
    forall k | k in c
      ensures k in m && c[k] == m[k]
    {
      CollectedValues(t, m, Total(t), k);
    }
  }

  lemma CollectedStart<K, V>(t: Snap<K, V>)
    requires Inv(t)
    ensures Collected(t, 0) == map[]
  {
  }

  lemma CollectedStep<K, V>(t: Snap<K, V>, m: map<K, V>, i: nat)
    requires Inv(t) && Models(t, m) && i < Total(t)
    ensures i < |t.slots| && i < |t.info|
    ensures t.info[i] == 0 ==> Collected(t, i + 1) == Collected(t, i)
    ensures t.info[i] != 0 ==> t.slots[i].Some? && t.slots[i].value.key !in Collected(t, i) && |Collected(t, i)| < |m|
    ensures t.info[i] != 0 ==> Collected(t, i + 1) == Collected(t, i)[t.slots[i].value.key := t.slots[i].value.val]
  {
    hide Inv, Models, Holds, KeyInfo, KeyHome, IsWidth;
    InvShape(t);
    if t.info[i] != 0 { CollectedNext(t, m, i); }
  }

  /** The bindings a rehash has carried over when it throws: those before the first position where the keys in
      front of it are crowded in the new table. */
  ghost predicate CarriedUntilCrowded<K, V>(t: Snap<K, V>, n: nat, m: map<K, V>) {
    Inv(t) && n > 0 && exists i :: 0 <= i < Total(t) && CrowdsFirst(t, n, i) && m == Collected(t, i)
  }

  ghost predicate CrowdsFirst<K, V>(t: Snap<K, V>, n: nat, i: nat)
    requires Inv(t) && n > 0 && i < Total(t)
  {
    && Occupied(t, i) && Crowded(t.hash, n, Collected(t, i).Keys)
    && forall j :: 0 <= j < i && Occupied(t, j) ==> !Crowded(t.hash, n, Collected(t, j).Keys)
  }

  lemma StopsAtCrowd<K, V>(t: Snap<K, V>, m: map<K, V>, i: nat, n: nat)
    requires Inv(t) && Models(t, m) && i < Total(t) && i < |t.info| && t.info[i] != 0 && n > 0
    requires Crowded(t.hash, n, Collected(t, i).Keys)
    requires forall j :: 0 <= j < i && t.info[j] != 0 ==> !Crowded(t.hash, n, Collected(t, j).Keys)
    ensures CarriedUntilCrowded(t, n, Collected(t, i))
  {
    hide Inv, Models, Collected, Crowded;
    InvShape(t);
    assert CrowdsFirst(t, n, i);
  }

  /** The keys before an occupied position are not the last. */
  lemma CrowdedInFront<K, V>(t: Snap<K, V>, m: map<K, V>, i: nat, n: nat)
    requires Inv(t) && Models(t, m) && i < Total(t) && i < |t.info| && t.info[i] != 0 && n > 0
    requires Crowded(t.hash, n, Collected(t, i).Keys)
    ensures Crowded(t.hash, n, ButLast(t, m.Keys))
  {
    hide Inv, Models, Holds, KeyInfo, KeyHome, Collected, Crowded;
    InvShape(t);
    OccupiedFacts(t, i);
    ModelFacts(t, m, i);
    var c := Collected(t, i);
    forall k | k in c.Keys
      ensures k in ButLast(t, m.Keys)
    {
      CollectedKeys(t, i, k);
      CollectedValues(t, m, i, k);
      var j :| 0 <= j < i && Occupied(t, j) && t.slots[j].Some? && t.slots[j].value.key == k;
      OccupiedFacts(t, j);
      assert SitsBefore(t, k, t.slots[i].value.key);
    }
    CrowdedGrows(t.hash, n, c.Keys, ButLast(t, m.Keys));
  }

  lemma {:induction false} LastOccupied<K, V>(t: Snap<K, V>, i: nat, p: nat) returns (j: nat)
    requires Shape(t) && i <= Total(t) && p < i && Occupied(t, p)
    ensures j < i && Occupied(t, j) && forall l :: j < l < i ==> !Occupied(t, l)
    decreases i
  {
    hide Shape;
    if Occupied(t, i - 1) {
      j := i - 1;
    } else {
      j := LastOccupied(t, i - 1, p);
    }
  }

  /** If no insertion of the rehash met a crowded table, all keys but the last are not crowded. */
  lemma NeverCrowded<K, V>(t: Snap<K, V>, m: map<K, V>, n: nat)
    requires Inv(t) && Models(t, m) && n > 0 && Shape(t)
    requires m == map[] || forall j :: 0 <= j < Total(t) && t.info[j] != 0 ==> !Crowded(t.hash, n, Collected(t, j).Keys)
    ensures !Crowded(t.hash, n, ButLast(t, m.Keys))
  {
    hide Inv, Models, Holds, KeyInfo, KeyHome, Collected, Crowded, Shape;
    var keys := ButLast(t, m.Keys);
    if Crowded(t.hash, n, keys) {
      CrowdedNeedsMany(t.hash, n, keys);
      var k :| k in keys;
      var p := HeldAt(t, m, k);
      var j := LastOccupied(t, Total(t), p);
      forall x | x in keys
        ensures x in Collected(t, j).Keys
      {
        BeforeLast(t, m, j, x);
      }
      CrowdedGrows(t.hash, n, keys, Collected(t, j).Keys);
    }
  }

  lemma HeldAt<K, V>(t: Snap<K, V>, m: map<K, V>, k: K) returns (p: nat)
    requires Inv(t) && Models(t, m) && k in m
    ensures Occupied(t, p) && p < Total(t)
  {
    var i :| Holds(t, i, k);
    p := i;
  }

  lemma BeforeLast<K, V>(t: Snap<K, V>, m: map<K, V>, j: nat, k: K)
    requires Inv(t) && Models(t, m) && j < Total(t) && k in ButLast(t, m.Keys)
    requires forall l :: j < l < Total(t) ==> !Occupied(t, l)
    ensures k in Collected(t, j)
  {
    hide Inv, KeyInfo, KeyHome, Collected;
    InvShape(t);
    var b :| b in m.Keys && SitsBefore(t, k, b);
    var x, y :| x < y && Holds(t, x, k) && Holds(t, y, b);
    CollectedKeys(t, j, k);
  }

  lemma CollectedIsPart<K, V>(t: Snap<K, V>, m: map<K, V>, i: nat)
    requires Inv(t) && Models(t, m) && i <= Total(t)
    ensures IsPart(Collected(t, i), m)
  {
    hide Inv, Models, Collected;
    var c := Collected(t, i);
    forall k | k in c
      ensures k in m && c[k] == m[k]
    {
      CollectedValues(t, m, i, k);
    }
  }

  // ----- the retry loop of an insertion ends -----

  /** How far a table with num elements is from being so large that growing it gives up. */
  function Deficit(n: nat, num: nat): nat {
    if 2 * num >= CalcMax(n) then 2 * num + 1 - CalcMax(n) else 0
  }

  /** One growing step, from (mask0, inc0) to (mask, inc) with num elements, gets closer to the end. */
  predicate Progress(mask0: nat, inc0: nat, mask: nat, inc: nat, num: nat) {
    || (mask0 == 0 && mask != 0)
    || (mask0 != 0 && mask == mask0 && inc < inc0)
    || (mask0 != 0 && mask != 0 && Deficit(mask + 1, num) < Deficit(mask0 + 1, num))
  }

  lemma ProgressFirst(inc0: nat, mask: nat, inc: nat, num: nat)
    requires mask != 0
    ensures Progress(0, inc0, mask, inc, num)
  {
  }

  lemma ProgressNarrow(mask: nat, inc: nat, num: nat)
    requires mask != 0 && inc > 2
    ensures Progress(mask, inc, mask, inc / 2, num)
  {
  }

  lemma CalcMaxGrows(n: nat, num: nat)
    requires n > 1 && num <= CalcMax(n)
    ensures num <= CalcMax(n * 2) && CalcMax(n) < CalcMax(n * 2)
  {
  }

  lemma ProgressGrow(mask: nat, inc0: nat, inc: nat, num: nat)
    requires mask != 0 && num * 2 >= CalcMax(mask + 1)
    ensures Progress(mask, inc0, (mask + 1) * 2 - 1, inc, num)
  {
  }

  lemma ProgressDecreases(mask0: nat, inc0: nat, mask: nat, inc: nat, num: nat)
    requires Progress(mask0, inc0, mask, inc, num)
    ensures mask0 == 0 ==> mask != 0
    ensures mask0 != 0 ==> mask != 0
    ensures mask0 != 0 && !(Deficit(mask + 1, num) < Deficit(mask0 + 1, num)) ==> mask == mask0 && inc < inc0
  {
  }

  lemma EmptyWhenSmall<K, V>(t: Snap<K, V>, m: map<K, V>, mask: nat)
    requires mask == 0 && t.n == mask + 1 && |m| <= CalcMax(t.n)
    ensures m == map[]
  {
  }

  lemma SmallAllowsNone<K, V>(t: Snap<K, V>, max: nat)
    requires Shape(t) && 0 < max <= CalcMax(t.n)
    ensures t.n > 1
  {
  }

  lemma FirstRoom<K, V>(t: Snap<K, V>, m: map<K, V>, max: nat)
    requires Shape(t) && m == map[] && t.n == INITIAL_SIZE && max == CalcMax(t.n)
    ensures !GivesUp(t, m.Keys, max) && SizeFor(t, m.Keys, max) == INITIAL_SIZE
  {
    assert |m.Keys| == 0;
  }

  lemma IsPartSelf<K, V>(m: map<K, V>)
    ensures IsPart(m, m)
  {
  }

  lemma AssignedSound<K, V>(t: Snap<K, V>, m: map<K, V>, num: nat, max: nat, i: nat, k: K, v: V)
    requires Sound(t, m, num, max) && Shape(t) && Holds(t, i, k) && k in m
    ensures Sound(t.(slots := t.slots[i := Some(Entry(k, v))]), m[k := v], num, max)
  {
    hide Inv, CalcMax;
    var r := t.(slots := t.slots[i := Some(Entry(k, v))]);
    assert |m[k := v]| == |m| by { assert m[k := v].Keys == m.Keys; }
    AssignedInv(t, i, k, v);
    AssignedModels(t, m, i, k, v);
  }

  lemma AssignedInv<K, V>(t: Snap<K, V>, i: nat, k: K, v: V)
    requires Inv(t) && Holds(t, i, k)
    ensures Inv(t.(slots := t.slots[i := Some(Entry(k, v))]))
  {
    hide KeyHome, KeyInfo;
    var r := t.(slots := t.slots[i := Some(Entry(k, v))]);
    forall j | Occupied(r, j)
      ensures r.slots[j].Some? && Holds(r, j, r.slots[j].value.key) && r.info[j] <= 0xFF
    {
      OccupiedFacts(t, j);
      SameKeyInfo(t, r, r.slots[j].value.key, j);
    }
    forall j | Occupied(r, j) && r.info[j] >= 2 * r.inc
      ensures j > 0 && r.info[j - 1] != 0 && r.info[j] <= r.info[j - 1] + r.inc
    {
      At(t, j);
    }
    forall j, l | Occupied(r, j) && Occupied(r, l) && j != l
      ensures r.slots[j].value.key != r.slots[l].value.key
    {
      OccupiedFacts(t, j);
      OccupiedFacts(t, l);
    }
  }

  lemma AssignedModels<K, V>(t: Snap<K, V>, m: map<K, V>, i: nat, k: K, v: V)
    requires Inv(t) && Models(t, m) && Holds(t, i, k) && k in m
    ensures Shape(t) && Models(t.(slots := t.slots[i := Some(Entry(k, v))]), m[k := v])
  {
    hide Inv, KeyHome, KeyInfo;
    InvShape(t);
    var r := t.(slots := t.slots[i := Some(Entry(k, v))]);
    forall j | Occupied(r, j) && r.slots[j].Some?
      ensures r.slots[j].value.key in m[k := v] && m[k := v][r.slots[j].value.key] == r.slots[j].value.val
    {
      ModelFacts(t, m, j);
      OccupiedFacts(t, i);
    }
    var grown := m[k := v];
    forall key | key in grown
      ensures exists j :: Holds(r, j, key)
    {
      var j :| Holds(t, j, key);
      SameKeyInfo(t, r, key, j);
      assert Holds(r, j, key);
    }
  }

  lemma NonEmptyIsAllocated<K, V>(t: Snap<K, V>, m: map<K, V>)
    requires t.n > 0 && 0 < |m| <= CalcMax(t.n)
    ensures t.n > 1
  {
  }

  lemma NewSound<K, V>(t: Snap<K, V>, max: nat)
    requires t.n > 1 && t.inc == INITIAL_INC && t.shift == 0 && max in {0, CalcMax(t.n)}
    requires |t.slots| == WithBuffer(t.n) && |t.info| == WithBuffer(t.n) + 8
    requires forall i :: 0 <= i < |t.info| ==> t.info[i] == if i == WithBuffer(t.n) then 1 else 0
    ensures Sound(t, map[], 0, max)
  {
  }

  lemma SizesAre(n: nat)
    ensures CalcMax(n) == n * 80 / 100 && WithBuffer(n) == n + if n * 80 / 100 < 255 then n * 80 / 100 else 255
  {
  }

  lemma SmallIsEmpty<K, V>(t: Snap<K, V>, m: map<K, V>)
    requires t.n > 0 && |m| <= CalcMax(t.n) && WithBuffer(t.n) <= 1
    ensures m == map[]
  {
  }

  class Table<!K(==), V> {
    const hash: K -> nat
    var mInfo: array<Byte>
    var mKeyVals: array<Option<Entry<K, V>>>
    var mNumElements: nat
    var mMask: nat
    var mMaxNumElementsAllowed: nat
    var mInfoInc: nat
    var mInfoHashShift: nat
    ghost var contents: map<K, V>

    ghost function Snapshot(): Snap<K, V>
      reads this, mInfo, mKeyVals
    {
      Snap(hash, mMask + 1, mInfoInc, mInfoHashShift, mInfo[..], mKeyVals[..])
    }

    ghost function Repr(): set<object>
      reads this
    {
      {this, mInfo, mKeyVals}
    }

    ghost predicate Valid()
      reads this, mInfo, mKeyVals
    {
      Sound(Snapshot(), contents, mNumElements, mMaxNumElementsAllowed) && PowerOfTwo(mMask + 1)
    }

    // ----- when an insertion gives up -----

    ghost predicate IsTight()
      reads this, mInfo, mKeyVals
    {
      Shape(Snapshot()) && Tight(Snapshot(), mMaxNumElementsAllowed)
    }

    ghost predicate IsSpent()
      reads this
    {
      mMask != 0 && mMaxNumElementsAllowed == 0 && mInfoInc <= 2
    }

    /** Inserting a new key would overflow if the table held just these keys. */
    ghost predicate WillGiveUp(keys: set<K>)
      reads this, mInfo, mKeyVals
    {
      Shape(Snapshot()) && GivesUp(Snapshot(), keys, mMaxNumElementsAllowed)
    }

    /** Carrying the keys over to a table of the given size would overflow. */
    ghost predicate CannotRehash(n: nat)
      requires n > 0
      reads this, mInfo, mKeyVals
    {
      Shape(Snapshot()) && Crowded(hash, n, ButLast(Snapshot(), contents.Keys))
    }

    ghost function SizeToInsert(): nat
      reads this, mInfo, mKeyVals
    {
      if Shape(Snapshot()) then SizeFor(Snapshot(), contents.Keys, mMaxNumElementsAllowed) else 0
    }

    // ----- probing -----

    method KeyToIdx(key: K) returns (idx: nat, info: nat)
      requires IsWidth(mInfoInc, mInfoHashShift)
      ensures idx == KeyHome(Snapshot(), key) && info == KeyInfo(Snapshot(), key, idx)
    {
      var h := hash(key);
      info := mInfoInc + HashBits(h, mInfoHashShift);
      idx := BitAnd(h / 32, mMask);
      KeyInfoStart(Snapshot(), key);
    }

    method Next(info: nat, idx: nat, ghost key: K) returns (info': nat, idx': nat)
      requires info == KeyInfo(Snapshot(), key, idx)
      ensures idx' == idx + 1 && info' == KeyInfo(Snapshot(), key, idx') == info + mInfoInc
    {
      idx' := idx + 1;
      info' := info + mInfoInc;
      KeyInfoNext(Snapshot(), key, idx);
    }

    /** Does the slot hold the key? Asked only when the info byte matches. */
    method Matches(info: nat, idx: nat, key: K) returns (b: bool)
      requires Inv(Snapshot()) && Passed(Snapshot(), key, idx) && idx < mInfo.Length && info == KeyInfo(Snapshot(), key, idx)
      ensures b <==> Holds(Snapshot(), idx, key)
      ensures b ==> info == mInfo[idx]
    {
      hide Inv, KeyInfo, KeyHome, IsWidth;
      ghost var t := Snapshot();
      InvShape(t);
      KeyInfoPositive(t, key, idx);
      assert t.info[idx] == mInfo[idx];
      b := false;
      if info == mInfo[idx] {
        assert Occupied(t, idx);
        OccupiedFacts(t, idx);
        assert t.slots[idx] == mKeyVals[idx];
        b := mKeyVals[idx].value.key == key;
      }
    }

    /** The iterator past the last position; position 0 while nothing is allocated. */
    function End(): nat
      reads this
    {
      if mMask == 0 then 0 else WithBuffer(mMask + 1)
    }

    method FindIdx(key: K) returns (idx: nat)
      requires Valid()
      ensures Shape(Snapshot()) && (key in contents <==> idx != End())
      ensures key !in contents ==> idx == if mMask == 0 then 0 else mKeyVals.Length
      ensures key in contents ==> Holds(Snapshot(), idx, key)
      ensures key in contents ==> idx < mKeyVals.Length && mKeyVals[idx] == Some(Entry(key, contents[key]))
    {
      hide PowerOfTwo, Sound, Inv, Models, Holds, Shape, Occupied, KeyInfo, KeyHome, Passed, IsWidth, Total;
      ghost var t := Snapshot();
      SoundFacts(t, contents, mNumElements, mMaxNumElementsAllowed);
      var info;
      idx, info := KeyToIdx(key);
      PassedStart(t, key);
      var more := true;
      while more
        invariant Passed(t, key, idx) && idx < |t.info| && info == KeyInfo(t, key, idx)
        invariant more ==> idx < Total(t)
        invariant !more ==> info > t.info[idx]
        decreases if more then Total(t) - idx else -1
      {
        var found := Matches(info, idx, key);
        if found {
          InTable(t, contents, key, idx);
          FoundBeforeEnd(t, contents, key, idx);
          return;
        }
        PassedNext(t, key, idx);
        info, idx := Next(info, idx, key);
        found := Matches(info, idx, key);
        if found {
          InTable(t, contents, key, idx);
          FoundBeforeEnd(t, contents, key, idx);
          return;
        }
        PassedNext(t, key, idx);
        info, idx := Next(info, idx, key);
        more := info <= mInfo[idx];
        ProbeStops(t, key, idx);
      }
      NotInTable(t, contents, key, idx);
      ShapeSizes(t);
      idx := End();
    }

    // ----- removing -----

    method ShiftDown(idx: nat) returns (ghost e: nat)
      requires Shape(Snapshot()) && Occupied(Snapshot(), idx)
      modifies mInfo, mKeyVals
      ensures IsRun(old(Snapshot()), idx, e) && Snapshot() == Removed(old(Snapshot()), idx, e)
    {
      hide PowerOfTwo, Shape, Occupied, IsRun, Removed, InfoDown, SlotsDown, Total;
      ghost var t := Snapshot();
      SentinelIsLow(t, idx);
      DownStart(t, idx);
      var i := idx;
      while mInfo[i + 1] >= 2 * mInfoInc
        invariant idx <= i < |t.slots|
        invariant forall j :: idx < j <= i ==> t.info[j] >= 2 * t.inc
        invariant mInfo[..] == InfoDown(t.info, t.inc, idx, i)[i := t.info[i]]
        invariant mKeyVals[..] == SlotsDown(t.slots, idx, i)[i := t.slots[i]]
        decreases |t.slots| - i
      {
        DownAt(t, idx, i);
        DownStep(t, idx, i);
        mInfo[i] := ToByte(mInfo[i + 1] - mInfoInc);
        mKeyVals[i] := mKeyVals[i + 1];
        i := i + 1;
      }
      DownAt(t, idx, i);
      mInfo[i] := 0;
      mKeyVals[i] := None;
      DownEnd(t, idx, i);
      e := i;
    }

    method Erase(key: K) returns (count: nat)
      requires Valid()
      modifies this, mInfo, mKeyVals
      ensures Valid() && contents == old(contents) - {key}
      ensures count == if key in old(contents) then 1 else 0
      ensures mInfo == old(mInfo) && mKeyVals == old(mKeyVals)
      ensures IsSpent() <==> old(IsSpent())
      ensures forall keys :: keys <= contents.Keys ==> (WillGiveUp(keys) <==> old(WillGiveUp(keys)))
    {
      hide PowerOfTwo, GivesUp, Sound, Inv, Models, Holds, Shape, Occupied, KeyInfo, KeyHome, Passed, IsWidth, Total;
      ghost var t := Snapshot();
      SoundFacts(t, contents, mNumElements, mMaxNumElementsAllowed);
      var idx: nat, info: nat := KeyToIdx(key);
      PassedStart(t, key);
      var more, found := true, false;
      while more
        invariant Passed(t, key, idx) && idx < |t.info| && info == KeyInfo(t, key, idx)
        invariant more ==> idx < Total(t)
        invariant !more ==> info > t.info[idx]
        decreases if more then Total(t) - idx else -1
        modifies {}
      {
        found := Matches(info, idx, key);
        if found {
          break;
        }
        PassedNext(t, key, idx);
        info, idx := Next(info, idx, key);
        more := info <= mInfo[idx];
        ProbeStops(t, key, idx);
      }
      if found {
        RemoveAt(idx, key);
        return 1;
      }
      NotInTable(t, contents, key, idx);
      assert contents == contents - {key};
      return 0;
    }

    /** `shiftDown` and the decrement beside it. */
    method RemoveAt(idx: nat, ghost key: K)
      requires Valid() && Shape(Snapshot()) && Holds(Snapshot(), idx, key)
      modifies this, mInfo, mKeyVals
      ensures Valid() && key in old(contents) && contents == old(contents) - {key}
      ensures mInfo == old(mInfo) && mKeyVals == old(mKeyVals)
      ensures IsSpent() <==> old(IsSpent())
      ensures forall keys :: keys <= contents.Keys ==> (WillGiveUp(keys) <==> old(WillGiveUp(keys)))
    {
      hide PowerOfTwo, Sound, Holds, Shape, Occupied, IsRun, Removed, KeyInfo, KeyHome, GivesUp, Inv, Models;
      ghost var t := Snapshot();
      SoundFacts(t, contents, mNumElements, mMaxNumElementsAllowed);
      HoldsOccupied(t, idx, key);
      ghost var e := ShiftDown(idx);
      forall keys | keys <= contents.Keys - {key}
        ensures Shape(Snapshot())
        ensures GivesUp(Snapshot(), keys, mMaxNumElementsAllowed) <==> GivesUp(t, keys, mMaxNumElementsAllowed)
      {
        RemovedDecides(t, contents, idx, e, key, keys, mMaxNumElementsAllowed);
      }
      RemovedSound(t, contents, mNumElements, mMaxNumElementsAllowed, idx, e, key);
      ghost var r := Snapshot();
      mNumElements := mNumElements - 1;
      contents := contents - {key};
      assert Snapshot() == r;
    }

    // ----- inserting -----

    method ShiftUp(startIdx: nat, insertionIdx: nat)
      requires insertionIdx < startIdx < mKeyVals.Length <= mInfo.Length
      requires forall j :: insertionIdx <= j < startIdx ==> mInfo[j] as int + mInfoInc <= 0xFF
      modifies this`mMaxNumElementsAllowed, mInfo, mKeyVals
      ensures mInfo[..] == InfoUp(old(mInfo[..]), mInfoInc, insertionIdx, startIdx)
      ensures mKeyVals[..] == SlotsUp(old(mKeyVals[..]), insertionIdx, startIdx)
      ensures mMaxNumElementsAllowed ==
              if UpFits(old(mInfo[..]), mInfoInc, insertionIdx, startIdx) then old(mMaxNumElementsAllowed) else 0
    {
      hide *;
      ghost var t := Snap(hash, 1, mInfoInc, 0, mInfo[..], mKeyVals[..]);
      ghost var max := mMaxNumElementsAllowed;
      UpStart(t, startIdx);
      UpStep(t, startIdx, startIdx);
      var idx := startIdx;
      mKeyVals[idx] := mKeyVals[idx - 1];
      idx := idx - 1;
      while idx != insertionIdx
        invariant insertionIdx <= idx < startIdx
        invariant mKeyVals[..] == SlotsUp(t.slots, idx, startIdx)
        invariant mInfo[..] == t.info && mMaxNumElementsAllowed == max
      {
        UpStep(t, idx, startIdx);
        mKeyVals[idx] := mKeyVals[idx - 1];
        idx := idx - 1;
      }
      ShiftInfoUp(startIdx, insertionIdx);
    }

    /** The second loop of `shiftUp`. */
    method ShiftInfoUp(startIdx: nat, insertionIdx: nat)
      requires insertionIdx < startIdx < mKeyVals.Length <= mInfo.Length
      requires forall j :: insertionIdx <= j < startIdx ==> mInfo[j] as int + mInfoInc <= 0xFF
      modifies this`mMaxNumElementsAllowed, mInfo
      ensures mInfo[..] == InfoUp(old(mInfo[..]), mInfoInc, insertionIdx, startIdx)
      ensures mMaxNumElementsAllowed ==
              if UpFits(old(mInfo[..]), mInfoInc, insertionIdx, startIdx) then old(mMaxNumElementsAllowed) else 0
    {
      hide *;
      ghost var t := Snap(hash, 1, mInfoInc, 0, mInfo[..], mKeyVals[..]);
      ghost var max := mMaxNumElementsAllowed;
      UpStart(t, startIdx);
      var idx := startIdx;
      while idx != insertionIdx
        invariant insertionIdx <= idx <= startIdx
        invariant mInfo[..] == InfoUp(t.info, t.inc, idx, startIdx)
        invariant mMaxNumElementsAllowed == if UpFits(t.info, t.inc, idx, startIdx) then max else 0
      {
        UpStep(t, idx, startIdx);
        ToByteFits(t.info[idx - 1] + t.inc);
        mInfo[idx] := ToByte(mInfo[idx - 1] + mInfoInc);
        if mInfo[idx] + mInfoInc > 0xFF {
          mMaxNumElementsAllowed := 0;
        }
        idx := idx - 1;
      }
    }

    method FindEmpty(from: nat, ghost room: nat) returns (idx: nat)
      requires from <= room < mInfo.Length && mInfo[room] == 0
      ensures from <= idx <= room && mInfo[idx] == 0
      ensures forall j :: from <= j < idx ==> mInfo[j] != 0
    {
      idx := from;
      while mInfo[idx] != 0
        invariant from <= idx <= room
        invariant forall j :: from <= j < idx ==> mInfo[j] != 0
        decreases room - idx
      {
        idx := idx + 1;
      }
    }

    method PutAt(insertionIdx: nat, idx: nat, insertionInfo: nat, e: Entry<K, V>)
      requires insertionIdx <= idx < mKeyVals.Length <= mInfo.Length && insertionInfo <= 0xFF
      requires forall j :: insertionIdx <= j < idx ==> mInfo[j] as int + mInfoInc <= 0xFF
      modifies this`mMaxNumElementsAllowed, mInfo, mKeyVals
      ensures mInfo[..] == InfoUp(old(mInfo[..]), mInfoInc, insertionIdx, idx)[insertionIdx := insertionInfo]
      ensures mKeyVals[..] == SlotsUp(old(mKeyVals[..]), insertionIdx, idx)[insertionIdx := Some(e)]
      ensures mMaxNumElementsAllowed ==
              if UpFits(old(mInfo[..]), mInfoInc, insertionIdx, idx) then old(mMaxNumElementsAllowed) else 0
    {
      hide *;
      UpStart(Snap(hash, 1, mInfoInc, 0, mInfo[..], mKeyVals[..]), idx);
      if idx != insertionIdx {
        ShiftUp(idx, insertionIdx);
      }
      mKeyVals[insertionIdx] := Some(e);
      ToByteFits(insertionInfo);
      mInfo[insertionIdx] := ToByte(insertionInfo);
    }

    /** The common end of `doInsert`, `doCreateByKey` and `insert_move`: make room at the position and
        put the entry there. */
    method Place(insertionIdx: nat, insertionInfo: nat, key: K, val: V)
      requires Valid() && Shape(Snapshot()) && key !in contents
      requires mMaxNumElementsAllowed != 0 && mNumElements < CalcMax(mMask + 1)
      requires IsPlace(Snapshot(), key, insertionIdx) && insertionInfo == KeyInfo(Snapshot(), key, insertionIdx)
      modifies this, mInfo, mKeyVals
      ensures Valid() && contents == old(contents)[key := val]
      ensures mInfo == old(mInfo) && mKeyVals == old(mKeyVals)
      ensures mMask == old(mMask) && mInfoInc == old(mInfoInc) && mNumElements == old(mNumElements) + 1
      ensures insertionIdx < mKeyVals.Length && mKeyVals[insertionIdx] == Some(Entry(key, val))
      ensures IsTight()
    {
      hide PowerOfTwo, Sound, Shape, IsPlace, IsSpot, KeyInfo, KeyHome, CalcMax, Inserted, InfoUp, SlotsUp, UpFits,
        Inv, Models, Headroom;
      ghost var t, max := Snapshot(), mMaxNumElementsAllowed;
      SoundFacts(t, contents, mNumElements, max);
      ghost var room := PlaceHasRoom(t, contents, mNumElements, max, key, insertionIdx);
      if insertionInfo + mInfoInc > 0xFF {
        mMaxNumElementsAllowed := 0;
      }
      var idx := FindEmpty(insertionIdx, room);
      PlaceIsSpot(t, key, insertionIdx, idx);
      PutAt(insertionIdx, idx, insertionInfo, Entry(key, val));
      mNumElements := mNumElements + 1;
      InsertedSound(t, contents, mNumElements - 1, max, key, val, insertionIdx, idx);
      InsertedParts(t, key, val, insertionIdx, idx);
      contents := contents[key := val];
    }

    method NextWhileLess(info: nat, idx: nat, ghost key: K) returns (info': nat, idx': nat)
      requires Inv(Snapshot()) && Reached(Snapshot(), key, idx) && info == KeyInfo(Snapshot(), key, idx)
      ensures Reached(Snapshot(), key, idx') && info' == KeyInfo(Snapshot(), key, idx')
      ensures idx' < mInfo.Length && info' >= mInfo[idx']
    {
      hide PowerOfTwo, Inv, Reached, KeyInfo, KeyHome, Holds, Shape;
      ghost var t := Snapshot();
      InvShape(t);
      info', idx' := info, idx;
      ReachedInRange(t, key, idx);
      while info' < mInfo[idx']
        invariant idx' < |t.info| && Reached(t, key, idx') && info' == KeyInfo(t, key, idx')
        decreases |t.info| - idx'
      {
        LessIsNotHeld(t, key, idx');
        ReachedNext(t, key, idx');
        info', idx' := Next(info', idx', key);
        ReachedInRange(t, key, idx');
      }
    }

    /** The first half of a round of `doInsert`: find the key, or the place for it. */
    method FindPlace(key: K) returns (info: nat, idx: nat, found: bool)
      requires Valid()
      ensures Shape(Snapshot())
      ensures found ==> idx < mKeyVals.Length && key in contents && mKeyVals[idx] == Some(Entry(key, contents[key]))
      ensures !found ==> key !in contents && IsPlace(Snapshot(), key, idx) && info == KeyInfo(Snapshot(), key, idx)
    {
      hide PowerOfTwo, Sound, Inv, Models, Reached, KeyInfo, KeyHome, Holds, IsPlace, Shape, IsWidth, Passed;
      ghost var t := Snapshot();
      SoundFacts(t, contents, mNumElements, mMaxNumElementsAllowed);
      idx, info := KeyToIdx(key);
      ReachedStart(t, key);
      info, idx := NextWhileLess(info, idx, key);
      while info == mInfo[idx]
        invariant idx < |t.info| && Reached(t, key, idx) && info == KeyInfo(t, key, idx) && info >= t.info[idx]
        decreases |t.info| - idx
      {
        ReachedPassed(t, key, idx);
        found := Matches(info, idx, key);
        if found {
          InTable(t, contents, key, idx);
          return;
        }
        ReachedNext(t, key, idx);
        info, idx := Next(info, idx, key);
        ReachedInRange(t, key, idx);
      }
      found := false;
      ReachedPlace(t, contents, key, idx);
    }

    // ----- growing -----

    /** The 64-bit step of the narrowing loop on the eight bytes from i. */
    method HalveEight(i: nat)
      requires i + 8 <= mInfo.Length
      modifies mInfo
      ensures mInfo[..] == Overlay(old(mInfo[..]), i, Halves(old(mInfo[..])[i..i + 8]), 8)
    {
      hide PowerOfTwo, Load, Store, BitAnd, Halves, Overlay;
      ghost var bytes := mInfo[..];
      OverlayStart(bytes, i, mInfo[i..i + 8]);
      EightBytes(bytes[i..i + 8]);
      var val := Load(mInfo[i..i + 8]);
      val := BitAnd(val / 2, LOW_BITS);
      var stored := Store(val, 8);
      OverlayStart(bytes, i, stored);
      for j := 0 to 8
        invariant mInfo[..] == Overlay(bytes, i, stored, j)
      {
        OverlayStep(bytes, i, stored, j);
        mInfo[i + j] := stored[j];
      }
    }

    method TryIncreaseInfo() returns (b: bool)
      requires Valid() && mMask != 0
      modifies this, mInfo
      ensures b <==> old(mInfoInc) > 2
      ensures Valid() && contents == old(contents)
      ensures mInfo == old(mInfo) && mKeyVals == old(mKeyVals) && mMask == old(mMask) && mNumElements == old(mNumElements)
      ensures b ==> mInfoInc == old(mInfoInc) / 2 && mMaxNumElementsAllowed == CalcMax(mMask + 1) && IsTight()
      ensures !b ==> Snapshot() == old(Snapshot()) && mMaxNumElementsAllowed == old(mMaxNumElementsAllowed)
    {
      hide PowerOfTwo, Sound, Inv, Models, Shape, Narrows, Headroom, HalvedTo, Halves, CalcMax, WithBuffer;
      if mInfoInc <= 2 {
        return false;
      }
      ghost var t, max := Snapshot(), mMaxNumElementsAllowed;
      SoundFacts(t, contents, mNumElements, max);
      var numElementsWithBuffer := WithBuffer(mMask + 1);
      ShapeSizes(t);
      ghost var bytes := mInfo[..];
      HalveAll(numElementsWithBuffer);
      mInfoInc := mInfoInc / 2;
      mInfoHashShift := mInfoHashShift + 1;
      mMaxNumElementsAllowed := CalcMax(mMask + 1);
      NarrowedFrom(t, Snapshot(), bytes);
      NarrowedSound(t, Snapshot(), contents, mNumElements, max);
      CalcMaxDoubles(mMask + 1);
      SoundIsTight(Snapshot(), contents, mNumElements, mMaxNumElementsAllowed);
      return true;
    }

    /** The narrowing loop and the repair of the sentinel. */
    method HalveAll(numElementsWithBuffer: nat)
      requires mInfo.Length == numElementsWithBuffer + 8
      modifies mInfo
      ensures exists i :: numElementsWithBuffer <= i <= mInfo.Length &&
                          mInfo[..] == HalvedTo(old(mInfo[..]), i)[numElementsWithBuffer := 1]
    {
      hide PowerOfTwo, HalvedTo, Halves, Overlay;
      ghost var bytes := mInfo[..];
      HalvedStart(bytes);
      var i := 0;
      while i < numElementsWithBuffer
        invariant 0 <= i <= mInfo.Length && mInfo[..] == HalvedTo(bytes, i)
      {
        HalvedStep(bytes, i);
        HalveEight(i);
        i := i + 8;
      }
      mInfo[numElementsWithBuffer] := 1;
    }

    constructor (hash: K -> nat)
      ensures Valid() && contents == map[] && fresh(mInfo) && fresh(mKeyVals) && this.hash == hash
      ensures !IsSpent() && mMask == 0
    {
      this.hash := hash;
      mInfo := new Byte[WithBuffer(1) + 8](_ => 0);
      mKeyVals := new Option<Entry<K, V>>[WithBuffer(1)](_ => None);
      mNumElements, mMask, mMaxNumElementsAllowed := 0, 0, 0;
      mInfoInc, mInfoHashShift := INITIAL_INC, 0;
      contents := map[];
      new;
      EmptySound(Snapshot(), 0);
      FirstPowers();
    }

    method InitData(maxElements: nat)
      requires maxElements > 1 && PowerOfTwo(maxElements)
      modifies this
      ensures Valid() && contents == map[] && fresh(mInfo) && fresh(mKeyVals)
      ensures mMask == maxElements - 1 && mMaxNumElementsAllowed == CalcMax(maxElements) && mNumElements == 0
      ensures mMaxNumElementsAllowed == maxElements * 80 / 100 && mInfoInc == 32 && mInfoHashShift == 0
      ensures mKeyVals.Length == maxElements + if mMaxNumElementsAllowed < 255 then mMaxNumElementsAllowed else 255
      ensures mInfo.Length == mKeyVals.Length + 8
      ensures IsTight()
    {
      hide PowerOfTwo, Sound, Inv, Models, Shape, CalcMax, WithBuffer;
      mNumElements := 0;
      mMask := maxElements - 1;
      mMaxNumElementsAllowed := CalcMax(maxElements);
      var numElementsWithBuffer := WithBuffer(maxElements);
      mInfo := new Byte[numElementsWithBuffer + 8](_ => 0);
      mKeyVals := new Option<Entry<K, V>>[numElementsWithBuffer](_ => None);
      mInfo[numElementsWithBuffer] := 1;
      mInfoInc := INITIAL_INC;
      mInfoHashShift := 0;
      contents := map[];
      NewSound(Snapshot(), mMaxNumElementsAllowed);
      SizesAre(maxElements);
      CalcMaxDoubles(maxElements);
      SoundIsTight(Snapshot(), contents, 0, mMaxNumElementsAllowed);
    }

    /** Inserts a binding known to be new, unless the table is spent. */
    method InsertMove(key: K, val: V) returns (ok: bool)
      requires Valid() && mMask != 0 && key !in contents && mNumElements < CalcMax(mMask + 1)
      modifies this, mInfo, mKeyVals
      ensures Valid() && mInfo == old(mInfo) && mKeyVals == old(mKeyVals) && mMask == old(mMask)
      ensures contents == if ok then old(contents)[key := val] else old(contents)
      ensures ok <==> old(mMaxNumElementsAllowed) != 0 || old(mInfoInc) > 2
      ensures if ok then IsTight() else Snapshot() == old(Snapshot()) && mMaxNumElementsAllowed == 0
    {
      hide PowerOfTwo, Sound, Inv, Models, Reached, KeyInfo, KeyHome, Holds, IsPlace, Shape, IsWidth, Headroom, CalcMax;
      if mMaxNumElementsAllowed == 0 {
        ok := TryIncreaseInfo();
        if !ok {
          return;
        }
        CalcMaxPositive(mMask + 1, mNumElements);
      }
      var info, idx := SkipForward(key);
      Place(idx, info, key, val);
      ok := true;
    }

    /** The probing loop of `insert_move`: it need not look at the keys. */
    method SkipForward(key: K) returns (info: nat, idx: nat)
      requires Valid() && key !in contents
      ensures Shape(Snapshot()) && IsPlace(Snapshot(), key, idx) && info == KeyInfo(Snapshot(), key, idx)
    {
      hide PowerOfTwo, Sound, Inv, Models, Reached, KeyInfo, KeyHome, Holds, IsPlace, Shape, IsWidth, Passed;
      ghost var t := Snapshot();
      SoundFacts(t, contents, mNumElements, mMaxNumElementsAllowed);
      idx, info := KeyToIdx(key);
      ReachedStart(t, key);
      ReachedInRange(t, key, idx);
      while info <= mInfo[idx]
        invariant idx < |t.info| && Reached(t, key, idx) && info == KeyInfo(t, key, idx)
        decreases |t.info| - idx
      {
        AbsentNotHeld(t, contents, key, idx);
        ReachedNext(t, key, idx);
        info, idx := Next(info, idx, key);
        ReachedInRange(t, key, idx);
      }
      ReachedPlace(t, contents, key, idx);
    }

    /** Carries every binding over to a table of the given size. When an insertion overflows, the
        bindings carried over so far remain. */
    method RehashPowerOfTwo(numBuckets: nat) returns (ok: bool)
      requires Valid() && numBuckets > 1 && PowerOfTwo(numBuckets) && mNumElements <= CalcMax(numBuckets)
      modifies this
      ensures Valid() && fresh(mInfo) && fresh(mKeyVals) && mMask == numBuckets - 1
      ensures ok <==> !old(CannotRehash(numBuckets))
      ensures ok ==> contents == old(contents) && mNumElements == old(mNumElements) && IsTight()
      ensures !ok ==> mMaxNumElementsAllowed == 0 && mInfoInc <= 2 && IsPart(contents, old(contents))
      ensures !ok ==> CarriedUntilCrowded(old(Snapshot()), numBuckets, contents)
    {
      hide PowerOfTwo, CarriedUntilCrowded, Tight, Crowded, ButLast, Sound, Inv, Models, Shape, CalcMax, WithBuffer,
        Collected, Occupied, KeyInfo, KeyHome, Holds, IsPart;
      ghost var t, m := Snapshot(), contents;
      SoundFacts(t, contents, mNumElements, mMaxNumElementsAllowed);
      ShapeSizes(t);
      var oldKeyVals, oldInfo, oldMaxElementsWithBuffer := mKeyVals, mInfo, WithBuffer(mMask + 1);
      InitData(numBuckets);
      if oldMaxElementsWithBuffer > 1 {
        CollectedStart(t);
        for i := 0 to oldMaxElementsWithBuffer
          invariant Valid() && fresh(mInfo) && fresh(mKeyVals) && mMask == numBuckets - 1
          invariant contents == Collected(t, i) && IsTight()
          invariant forall j :: 0 <= j < i && t.info[j] != 0 ==> !Crowded(hash, numBuckets, Collected(t, j).Keys)
        {
          CollectedStep(t, m, i);
          if oldInfo[i] != 0 {
            SoundFacts(Snapshot(), contents, mNumElements, mMaxNumElementsAllowed);
            TightIsSpent(Snapshot(), contents, mMaxNumElementsAllowed);
            ok := InsertMove(oldKeyVals[i].value.key, oldKeyVals[i].value.val);
            if !ok {
              CollectedIsPart(t, m, i);
              CrowdedInFront(t, m, i, numBuckets);
              StopsAtCrowd(t, m, i, numBuckets);
              return;
            }
          }
        }
        CollectedAll(t, m);
      } else {
        SmallIsEmpty(t, m);
      }
      NeverCrowded(t, m, numBuckets);
      SoundFacts(Snapshot(), contents, mNumElements, mMaxNumElementsAllowed);
      ok := true;
    }

    /** Makes room for one more element: the first allocation, one bit less of hash, or twice the size.
        It gives up when the table is less than half full and out of hash bits. */
    method IncreaseSize() returns (ok: bool)
      requires Valid() && mNumElements >= mMaxNumElementsAllowed
      modifies this, mInfo
      ensures Valid() && (mInfo == old(mInfo) || fresh(mInfo)) && (mKeyVals == old(mKeyVals) || fresh(mKeyVals))
      ensures ok ==> contents == old(contents) && mNumElements == old(mNumElements)
      ensures ok ==> Progress(old(mMask), old(mInfoInc), mMask, mInfoInc, mNumElements)
      ensures ok <==> old(|| mMask == 0 || (mNumElements < CalcMax(mMask + 1) && mInfoInc > 2)
                          || (2 * mNumElements >= CalcMax(mMask + 1) && !CannotRehash(2 * (mMask + 1))))
      ensures if ok then WillGiveUp(contents.Keys) <==> old(WillGiveUp(contents.Keys)) else old(WillGiveUp(contents.Keys))
      ensures ok && !WillGiveUp(contents.Keys) ==> SizeToInsert() == old(SizeToInsert())
      ensures !ok ==> mMaxNumElementsAllowed == 0 && mInfoInc <= 2 && IsPart(contents, old(contents))
    {
      hide PowerOfTwo, Tight, Crowded, ButLast, GivesUp, SizeFor, Sound, Inv, Models, Shape, CalcMax, IsPart, Progress, Headroom;
      ghost var mask, inc, num, m := mMask, mInfoInc, mNumElements, contents;
      ghost var t, max := Snapshot(), mMaxNumElementsAllowed;
      assert |m| == |m.Keys|;
      SoundFacts(t, m, num, max);
      IsPartSelf(m);
      if mMask == 0 {
        EmptyWhenSmall(Snapshot(), contents, mMask);
        FirstDecides(t, m.Keys, max);
        FirstPowers();
        InitData(INITIAL_SIZE);
        ProgressFirst(inc, mMask, mInfoInc, num);
        FirstRoom(Snapshot(), contents, mMaxNumElementsAllowed);
        return true;
      }
      var maxNumElementsAllowed := CalcMax(mMask + 1);
      if mNumElements < maxNumElementsAllowed {
        ok := TryIncreaseInfo();
        if ok {
          ProgressNarrow(mask, inc, num);
          NarrowDecides(t, m.Keys, max);
          SoundFacts(Snapshot(), contents, mNumElements, mMaxNumElementsAllowed);
          RoomDecides(Snapshot(), contents.Keys, mMaxNumElementsAllowed);
          return;
        }
      }
      if mNumElements * 2 < CalcMax(mMask + 1) {
        FailureDecides(t, m.Keys, max);
        return false;
      }
      CalcMaxGrows(mMask + 1, mNumElements);
      Doubles(mMask + 1);
      ok := RehashPowerOfTwo((mMask + 1) * 2);
      ProgressGrow(mask, inc, mInfoInc, num);
      if ok {
        SoundFacts(Snapshot(), contents, mNumElements, mMaxNumElementsAllowed);
        GrownDecides(t, m, max, Snapshot(), mMaxNumElementsAllowed);
      } else {
        FailureDecides(t, m.Keys, max);
      }
    }

    /** `doInsert` (and `operator[]`): adds the binding, or finds the one that is there. */
    method DoInsert(key: K, val: V) returns (idx: nat, inserted: bool, overflow: bool)
      requires Valid()
      modifies this, mInfo, mKeyVals
      ensures Valid() && (mInfo == old(mInfo) || fresh(mInfo)) && (mKeyVals == old(mKeyVals) || fresh(mKeyVals))
      ensures overflow ==> key !in old(contents) && IsPart(contents, old(contents))
      ensures overflow ==> mMaxNumElementsAllowed == 0 && mInfoInc <= 2
      ensures overflow <==> key !in old(contents) && old(WillGiveUp(contents.Keys))
      ensures key in old(contents) ==> Snapshot() == old(Snapshot()) && mMaxNumElementsAllowed == old(mMaxNumElementsAllowed)
      ensures inserted ==> mMask + 1 == old(SizeToInsert())
      ensures inserted ==> (IsSpent() <==> Crowded(hash, mMask + 1, contents.Keys))
      ensures !overflow ==> (inserted <==> key !in old(contents))
      ensures !overflow ==> contents == if inserted then old(contents)[key := val] else old(contents)
      ensures !overflow ==> idx < mKeyVals.Length && mKeyVals[idx] == Some(Entry(key, contents[key]))
    {
      hide PowerOfTwo, Sound, Inv, Models, Shape, CalcMax, IsPart, Progress, Headroom, IsPlace, KeyInfo, KeyHome, Deficit,
        Crowded, GivesUp, SizeFor, Tight;
      while true
        invariant Valid() && contents == old(contents)
        invariant key in contents ==> Snapshot() == old(Snapshot()) && mMaxNumElementsAllowed == old(mMaxNumElementsAllowed)
        invariant WillGiveUp(contents.Keys) <==> old(WillGiveUp(contents.Keys))
        invariant !WillGiveUp(contents.Keys) ==> SizeToInsert() == old(SizeToInsert())
        invariant (mInfo == old(mInfo) || fresh(mInfo)) && (mKeyVals == old(mKeyVals) || fresh(mKeyVals))
        decreases if mMask == 0 then 1 else 0, Deficit(mMask + 1, mNumElements), mInfoInc
      {
        var info, found;
        info, idx, found := FindPlace(key);
        if found {
          return idx, false, false;
        }
        if mNumElements >= mMaxNumElementsAllowed {
          ghost var mask, inc := mMask, mInfoInc;
          var ok := IncreaseSize();
          if !ok {
            return 0, false, true;
          }
          ProgressDecreases(mask, inc, mMask, mInfoInc, mNumElements);
        } else {
          SoundFacts(Snapshot(), contents, mNumElements, mMaxNumElementsAllowed);
          assert |contents| == |contents.Keys|;
          RoomDecides(Snapshot(), contents.Keys, mMaxNumElementsAllowed);
          SmallAllowsNone(Snapshot(), mMaxNumElementsAllowed);
          Place(idx, info, key, val);
          SoundFacts(Snapshot(), contents, mNumElements, mMaxNumElementsAllowed);
          TightIsSpent(Snapshot(), contents, mMaxNumElementsAllowed);
          return idx, true, false;
        }
      }
    }

    /** Assignment through the iterator that `find` returned. */
    method Assign(idx: nat, key: K, val: V)
      requires Valid() && key in contents && Shape(Snapshot()) && Holds(Snapshot(), idx, key)
      modifies this, mKeyVals
      ensures Valid() && contents == old(contents)[key := val]
      ensures mInfo == old(mInfo) && mKeyVals == old(mKeyVals) && (IsSpent() <==> old(IsSpent()))
    {
      hide PowerOfTwo, Sound, Shape, Holds, Inv, Models, KeyInfo, KeyHome;
      ghost var t := Snapshot();
      SoundFacts(t, contents, mNumElements, mMaxNumElementsAllowed);
      InTable(t, contents, key, idx);
      mKeyVals[idx] := Some(Entry(key, val));
      contents := contents[key := val];
      AssignedSound(t, old(contents), mNumElements, mMaxNumElementsAllowed, idx, key, val);
    }

    method Clear()
      requires Valid()
      modifies this, mInfo, mKeyVals
      ensures Valid() && contents == map[]
      ensures mInfo == old(mInfo) && mKeyVals == old(mKeyVals)
      ensures IsSpent() ==> old(IsSpent()) && old(contents) == map[]
    {
      hide PowerOfTwo, Sound, Inv, Models, Shape, CalcMax, WithBuffer;
      SoundFacts(Snapshot(), contents, mNumElements, mMaxNumElementsAllowed);
      ShapeSizes(Snapshot());
      if mNumElements == 0 {
        assert contents == map[];
        return;
      }
      NonEmptyIsAllocated(Snapshot(), contents);
      mNumElements := 0;
      var numElementsWithBuffer := WithBuffer(mMask + 1);
      for idx := 0 to numElementsWithBuffer
        modifies mKeyVals
        invariant mInfo.Length == numElementsWithBuffer + 8 && mKeyVals.Length == numElementsWithBuffer
      {
        if mInfo[idx] != 0 {
          mKeyVals[idx] := None;
        }
      }
      for i := 0 to numElementsWithBuffer + 8
        modifies mInfo
        invariant mInfo.Length == numElementsWithBuffer + 8
        invariant forall j :: 0 <= j < i ==> mInfo[j] == 0
      {
        mInfo[i] := 0;
      }
      mInfo[numElementsWithBuffer] := 1;
      mInfoInc := INITIAL_INC;
      mInfoHashShift := 0;
      contents := map[];
      NewSound(Snapshot(), mMaxNumElementsAllowed);
    }
  }
}
