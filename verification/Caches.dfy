/** The LRU cache as the source writes it: a list whose nodes the Robin Hood table points to. */
module Caches {
  import opened Options
  import opened RobinHood
  import opened HashTable
  import opened Crowding
  import opened Lru

  /** A node of the list; its address is what an iterator is. */
  class Cell<K, V> {
    const key: K
    var val: V

    constructor (key: K, val: V)
      ensures this.key == key && this.val == val
    {
      this.key := key;
      this.val := val;
    }
  }

  ghost function KeysOf<K, V>(cells: seq<Cell<K, V>>): (keys: seq<K>)
    ensures |keys| == |cells|
  {
    seq(|cells|, i requires 0 <= i < |cells| => cells[i].key)
  }

  /** The links lead from each key to its own cell and to nothing else. */
  ghost predicate Indexed<K, V>(links: map<K, Cell<K, V>>, cells: seq<Cell<K, V>>) {
    && (forall i :: 0 <= i < |cells| ==> cells[i].key in links && links[cells[i].key] == cells[i])
    && (forall k :: k in links ==> links[k] in cells && links[k].key == k)
  }

  lemma KeyIn<K, V>(links: map<K, Cell<K, V>>, cells: seq<Cell<K, V>>, k: K)
    requires Indexed(links, cells)
    ensures k in links <==> k in KeysOf(cells)
  {
    if k in links {
      var i :| 0 <= i < |cells| && cells[i] == links[k];
      assert KeysOf(cells)[i] == k;
    }
  }

  lemma FirstKey<K, V>(cells: seq<Cell<K, V>>)
    requires Distinct(KeysOf(cells)) && cells != []
    ensures KeysOf(cells) == [cells[0].key] + KeysOf(cells[1..]) && Distinct(KeysOf(cells[1..]))
    ensures cells[0].key !in KeysOf(cells[1..]) && cells[0] !in cells[1..]
  {
    var keys, rest := KeysOf(cells), cells[1..];
    assert Distinct(keys[1..]);
    assert keys[1..] == KeysOf(rest);
    assert keys[0] !in keys[1..];
    if cells[0] in rest {
      KeyOfCell(rest, cells[0]);
    }
  }

  lemma KeyOfCell<K, V>(cells: seq<Cell<K, V>>, c: Cell<K, V>)
    requires c in cells
    ensures c.key in KeysOf(cells)
  {
    var i :| 0 <= i < |cells| && cells[i] == c;
    assert KeysOf(cells)[i] == c.key;
  }

  lemma KeysCons<K, V>(c: Cell<K, V>, cells: seq<Cell<K, V>>)
    ensures KeysOf([c] + cells) == [c.key] + KeysOf(cells)
  {
  }

  lemma {:induction false} KeysWithout<K, V>(cells: seq<Cell<K, V>>, c: Cell<K, V>)
    requires Distinct(KeysOf(cells)) && c in cells
    ensures KeysOf(Without(cells, c)) == Without(KeysOf(cells), c.key)
  {
    hide KeysOf, Distinct;
    FirstKey(cells);
    var first, rest := cells[0], cells[1..];
    if first == c {
      assert Without(cells, c) == rest;
      assert ([first.key] + KeysOf(rest))[1..] == KeysOf(rest);
    } else {
      KeyOfCell(rest, c);
      KeysWithout(rest, c);
      KeysCons(first, Without(rest, c));
      assert ([first.key] + KeysOf(rest))[1..] == KeysOf(rest);
    }
  }

  /** A hit moves the cell to the front. */
  lemma HitCells<K, V>(links: map<K, Cell<K, V>>, cells: seq<Cell<K, V>>, max: nat, k: K)
    requires Indexed(links, cells) && k in links && Distinct(KeysOf(cells)) && max >= 1
    ensures var r := [links[k]] + Without(cells, links[k]);
            && KeysOf(r) == Touch(KeysOf(cells), max, k) && |r| == |cells|
            && Indexed(links[k := links[k]], r)
  {
    KeyIn(links, cells, k);
    var c := links[k];
    KeysWithout(cells, c);
    WithoutSize(KeysOf(cells), k);
    var r := [c] + Without(cells, c);
    assert KeysOf(r) == [k] + KeysOf(Without(cells, c));
    assert links[k := c] == links;
    forall x
      ensures x in r <==> x in cells
    {
      WithoutKeys(cells, c, x);
    }
    forall i | 0 <= i < |r|
      ensures r[i].key in links && links[r[i].key] == r[i]
    {
      assert r[i] in cells;
    }
  }

  lemma WithoutPart<T>(s: seq<T>, x: T)
    ensures forall c :: c in Without(s, x) ==> c in s
  {
  }

  lemma LinkFacts<K, V>(links: map<K, Cell<K, V>>, cells: seq<Cell<K, V>>, k: K)
    requires Indexed(links, cells) && k in links
    ensures links[k] in cells && links[k].key == k
  {
  }

  lemma {:induction false} WithoutSize<K>(s: seq<K>, k: K)
    requires Distinct(s) && k in s
    ensures |Without(s, k)| == |s| - 1
  {
    if s[0] == k {
      assert k !in s[1..];
    } else {
      WithoutSize(s[1..], k);
    }
  }

  /** Dropping the oldest cell and its link. */
  lemma DropCells<K, V>(links: map<K, Cell<K, V>>, cells: seq<Cell<K, V>>)
    requires Indexed(links, cells) && Distinct(KeysOf(cells)) && cells != []
    ensures Indexed(links - {cells[|cells| - 1].key}, cells[..|cells| - 1])
    ensures KeysOf(cells[..|cells| - 1]) == KeysOf(cells)[..|cells| - 1]
  {
    var n := |cells| - 1;
    forall i | 0 <= i < n
      ensures cells[i].key != cells[n].key
    {
      assert KeysOf(cells)[i] != KeysOf(cells)[n];
    }
  }

  /** A new cell in front. */
  lemma NewCell<K, V>(links: map<K, Cell<K, V>>, cells: seq<Cell<K, V>>, c: Cell<K, V>)
    requires Indexed(links, cells) && c.key !in links
    ensures Indexed(links[c.key := c], [c] + cells) && KeysOf([c] + cells) == [c.key] + KeysOf(cells)
  {
  }

  // ----- when the table gives up -----

  function SetOf<K>(s: seq<K>): set<K> {
    set k | k in s
  }

  lemma {:induction false} SetOfSize<K>(s: seq<K>)
    ensures |SetOf(s)| <= |s|
  {
    if s != [] {
      SetOfSize(s[1..]);
      assert SetOf(s) == SetOf(s[1..]) + {s[0]};
    }
  }

  /** The keys of the links are as many as fit, of those asked for. */
  lemma LinkedKeys<K, V>(links: map<K, Cell<K, V>>, cells: seq<Cell<K, V>>, history: seq<K>, max: nat)
    requires max >= 1 && Indexed(links, cells) && KeysOf(cells) == CacheKeys(history, max)
    ensures links.Keys <= SetOf(history) && |links.Keys| <= |cells| <= max
  {
    hide Indexed, CacheKeys, KeysOf;
    var keys := KeysOf(cells);
    forall k | k in links.Keys
      ensures k in SetOf(keys) && k in SetOf(history)
    {
      KeyIn(links, cells, k);
      CachedWasUsed(history, max, k);
    }
    SetOfSize(keys);
    RobinHood.SubsetSize(links.Keys, SetOf(keys));
    CacheDistinct(history, max);
  }

  lemma CachedWasUsed<K>(history: seq<K>, max: nat, k: K)
    requires max >= 1 && k in CacheKeys(history, max)
    ensures k in history
  {
    hide CacheKeys, Mru;
    CacheIsMostRecent(history, max);
    MruKeys(history, k);
  }

  lemma NothingUsed<K, V>(links: map<K, Cell<K, V>>, cells: seq<Cell<K, V>>, history: seq<K>, max: nat)
    requires max >= 1 && Indexed(links, cells) && KeysOf(cells) == CacheKeys(history, max)
    ensures history != [] ==> links != map[]
  {
    hide Touch;
    if history != [] {
      assert cells[0].key in links;
    }
  }

  lemma PartOfPart<K, V>(a: map<K, V>, b: map<K, V>, c: map<K, V>)
    requires IsPart(a, b) && IsPart(b, c)
    ensures a.Keys <= b.Keys && IsPart(a, c)
  {
  }

  lemma PartHasNot<K, V>(a: map<K, V>, b: map<K, V>, k: K)
    requires IsPart(a, b) && k !in b
    ensures k !in a
  {
  }

  lemma TouchMissing<K>(keys: seq<K>, max: nat, k: K)
    requires max >= 1 && k !in keys
    ensures Touch(keys, max, k) == [k] + if |keys| < max then keys else keys[..|keys| - 1]
  {
  }

  lemma LoadAllows<K, V>(links: Table<K, Cell<K, V>>)
    requires links.Valid()
    ensures |links.contents.Keys| <= RobinHood.CalcMax(links.mMask + 1) && PowerOfTwo(links.mMask + 1)
  {
    hide Inv, Models, Headroom, PowerOfTwo;
    assert |links.contents| == |links.contents.Keys|;
  }

  /** With a calm hash a cache whose table is not spent has it go on. */
  lemma CalmLinksGoOn<K, V>(links: Table<K, Cell<K, V>>, keys: set<K>, all: set<K>, size: nat)
    requires links.Valid() && !links.IsSpent() && keys <= links.contents.Keys
    requires Calm(links.hash, all, size) && keys <= all && |keys| <= size
    ensures !links.WillGiveUp(keys)
  {
    hide Inv, Models, Headroom, GivesUp, Calm, CalcMax, Shape, PowerOfTwo;
    SoundFacts(links.Snapshot(), links.contents, links.mNumElements, links.mMaxNumElementsAllowed);
    RobinHood.SubsetSize(keys, links.contents.Keys);
    assert |links.contents| == |links.contents.Keys|;
    CalmGoesOn(links.Snapshot(), keys, links.mMaxNumElementsAllowed, all, size);
  }

  class LRUCache<!K(==), V> {
    const maxSize: nat
    var entries: seq<Cell<K, V>>
    const links: Table<K, Cell<K, V>>
    var curSize: nat
    ghost var history: seq<K>

    /** The keys are those of the most recent accesses since the last flush, the links lead to their
        own nodes, and the three sizes agree. */
    ghost predicate Valid()
      reads this, links, links.mInfo, links.mKeyVals
    {
      && maxSize >= 1 && links.Valid()
      && KeysOf(entries) == CacheKeys(history, maxSize)
      && Indexed(links.contents, entries)
      && curSize == |entries|
      && (Calm(links.hash, SetOf(history), maxSize) ==> !links.IsSpent())
    }

    /** The keys that stay when a new one comes in. */
    ghost function KeptKeys(): (r: set<K>)
      reads this, links
      ensures r <= links.contents.Keys
    {
      if |entries| == 0 || |entries| < maxSize then links.contents.Keys
      else links.contents.Keys - {entries[|entries| - 1].key}
    }

    /** An access to the key would make the table overflow. */
    ghost predicate WillGiveUp(key: K)
      reads this, links, links.mInfo, links.mKeyVals
    {
      key !in KeysOf(entries) && links.WillGiveUp(KeptKeys())
    }

    /** With a hash that is calm on the keys asked for, no access overflows. */
    lemma CalmGoesOn(key: K)
      requires Valid() && Calm(links.hash, SetOf(history + [key]), maxSize)
      ensures !WillGiveUp(key)
    {
      hide Inv, Models, Headroom, GivesUp, Calm, CalcMax, Shape, Indexed, CacheKeys, KeysOf, Sound;
      var all := SetOf(history + [key]);
      CalmPart(links.hash, all, SetOf(history), maxSize);
      LinkedKeys(links.contents, entries, history, maxSize);
      RobinHood.SubsetSize(KeptKeys(), links.contents.Keys);
      CalmLinksGoOn(links, KeptKeys(), all, maxSize);
    }

    constructor (size: nat, hash: K -> nat)
      requires size >= 1
      ensures Valid() && entries == [] && history == [] && maxSize == size
      ensures fresh(links) && fresh(links.mInfo) && fresh(links.mKeyVals) && links.hash == hash
    {
      maxSize, curSize, entries, history := size, 0, [], [];
      links := new Table(hash);
      new;
    }

    /** Whether the next access to the key hits. */
    method Contains(key: K) returns (b: bool)
      requires Valid()
      ensures b <==> key in KeysOf(entries)
    {
      hide Indexed, KeysOf, CacheKeys, Sound, Inv, Models, Holds, Shape;
      KeyIn(links.contents, entries, key);
      var idx := links.FindIdx(key);
      b := idx != links.End();
    }

    /** Drops the least recently used entry. */
    method PopBack()
      requires links.Valid() && entries != [] && Indexed(links.contents, entries) && Distinct(KeysOf(entries))
      modifies this`entries, links, links.mInfo, links.mKeyVals
      ensures links.Valid() && entries == old(entries)[..|old(entries)| - 1]
      ensures links.contents == old(links.contents) - {old(entries)[|old(entries)| - 1].key}
      ensures links.IsSpent() <==> old(links.IsSpent())
      ensures links.WillGiveUp(links.contents.Keys) <==>
              old(links.WillGiveUp(links.contents.Keys - {entries[|entries| - 1].key}))
      ensures links.mInfo == old(links.mInfo) && links.mKeyVals == old(links.mKeyVals)
    {
      hide *;
      var count := links.Erase(entries[|entries| - 1].key);
      entries := entries[..|entries| - 1];
    }

    /** `insert`: `ok` is false when the table gave up. */
    method Insert(key: K, val: V) returns (cell: Cell<K, V>, isNew: bool, ok: bool)
      requires Valid()
      modifies this, links, links.mInfo, links.mKeyVals
      ensures isNew <==> key !in old(KeysOf(entries))
      ensures entries == [cell] + if !isNew then Without(old(entries), cell)
                                  else if |old(entries)| < maxSize then old(entries)
                                  else old(entries[..|entries| - 1])
      ensures isNew ==> fresh(cell) && cell.key == key && cell.val == val
      ensures !isNew ==> cell in old(entries) && cell.key == key && ok
      ensures forall c :: c in entries ==> c in old(entries) || fresh(c)
      ensures ok ==> Valid() && history == old(history) + [key]
      ensures links.mInfo == old(links.mInfo) || fresh(links.mInfo)
      ensures links.mKeyVals == old(links.mKeyVals) || fresh(links.mKeyVals)
      ensures !ok ==> links.mMaxNumElementsAllowed == 0 && links.mInfoInc <= 2
      ensures ok <==> !old(WillGiveUp(key))
      ensures links.Valid() && (!ok ==> links.contents.Keys <= old(KeptKeys()) && IsPart(links.contents, old(links.contents)))
    {
      hide Indexed, KeysOf, CacheKeys, Distinct, Touch, Sound, Without, Inv, Models, Holds, Shape,
        Calm, Crowded, GivesUp, PowerOfTwo;
      CacheDistinct(history, maxSize);
      CacheNext(history, maxSize, key);
      KeyIn(links.contents, entries, key);
      var idx := links.FindIdx(key);
      isNew := idx == links.End();
      ghost var cells := entries;
      if isNew {
        cell, ok := Miss(key, val);
      } else {
        cell := Hit(key, idx);
        ok := true;
        WithoutPart(cells, cell);
      }
      history := history + [key];
      if ok {
        CalmPart(links.hash, SetOf(history), SetOf(old(history)), maxSize);
        if isNew && Calm(links.hash, SetOf(history), maxSize) {
          LinkedKeys(links.contents, entries, history, maxSize);
          LoadAllows(links);
          NotCrowded(links.hash, links.mMask + 1, links.contents.Keys, SetOf(history), maxSize);
        }
      }
    }

    method Hit(key: K, idx: nat) returns (cell: Cell<K, V>)
      requires maxSize >= 1 && links.Valid() && Indexed(links.contents, entries) && Distinct(KeysOf(entries))
      requires key in links.contents && Shape(links.Snapshot()) && Holds(links.Snapshot(), idx, key)
      requires idx < links.mKeyVals.Length && links.mKeyVals[idx] == Some(Entry(key, links.contents[key]))
      modifies this`entries, links, links.mKeyVals
      ensures links.Valid() && Indexed(links.contents, entries)
      ensures links.mInfo == old(links.mInfo) && links.mKeyVals == old(links.mKeyVals)
      ensures cell == old(links.contents[key]) && cell in old(entries) && cell.key == key
      ensures entries == [cell] + Without(old(entries), cell) && |entries| == |old(entries)|
      ensures KeysOf(entries) == Touch(old(KeysOf(entries)), maxSize, key)
      ensures links.IsSpent() <==> old(links.IsSpent())
    {
      hide Indexed, KeysOf, Distinct, Touch, Sound, Without, Inv, Models, Holds, Shape;
      HitCells(links.contents, entries, maxSize, key);
      LinkFacts(links.contents, entries, key);
      cell := links.mKeyVals[idx].value.val;
      entries := [cell] + Without(entries, cell);
      links.Assign(idx, key, entries[0]);
    }

    method Miss(key: K, val: V) returns (cell: Cell<K, V>, ok: bool)
      requires maxSize >= 1 && links.Valid() && Indexed(links.contents, entries) && Distinct(KeysOf(entries))
      requires key !in links.contents && curSize == |entries| <= maxSize
      modifies this`entries, this`curSize, links, links.mInfo, links.mKeyVals
      ensures links.Valid() && fresh(cell) && cell.key == key && cell.val == val
      ensures links.mInfo == old(links.mInfo) || fresh(links.mInfo)
      ensures links.mKeyVals == old(links.mKeyVals) || fresh(links.mKeyVals)
      ensures entries == [cell] + if |old(entries)| < maxSize then old(entries) else old(entries[..|entries| - 1])
      ensures KeysOf(entries) == Touch(old(KeysOf(entries)), maxSize, key)
      ensures curSize == |entries|
      ensures ok ==> Indexed(links.contents, entries)
      ensures !ok ==> links.mMaxNumElementsAllowed == 0 && links.mInfoInc <= 2
      ensures ok <==> !old(links.WillGiveUp(KeptKeys()))
      ensures !ok ==> links.contents.Keys <= old(KeptKeys()) && IsPart(links.contents, old(links.contents))
      ensures ok ==> (links.IsSpent() <==> Crowded(links.hash, links.mMask + 1, links.contents.Keys))
    {
      hide *;
      ghost var before := entries;
      KeyIn(links.contents, entries, key);
      MakeRoom();
      ghost var kept := links.contents;
      PartHasNot(kept, old(links.contents), key);
      cell := new Cell(key, val);
      NewCell(links.contents, entries, cell);
      TouchMissing(KeysOf(before), maxSize, key);
      entries := [cell] + entries;
      var idx, inserted, overflow := links.DoInsert(key, cell);
      ok := !overflow;
      if overflow {
        PartOfPart(links.contents, kept, old(links.contents));
      }
    }

    /** Drops the oldest entry when the cache is full. */
    method MakeRoom()
      requires maxSize >= 1 && links.Valid() && Indexed(links.contents, entries) && Distinct(KeysOf(entries))
      requires curSize == |entries| <= maxSize
      modifies this`entries, this`curSize, links, links.mInfo, links.mKeyVals
      ensures links.Valid() && Indexed(links.contents, entries) && curSize == |entries| + 1
      ensures links.mInfo == old(links.mInfo) && links.mKeyVals == old(links.mKeyVals)
      ensures entries == if |old(entries)| < maxSize then old(entries) else old(entries[..|entries| - 1])
      ensures KeysOf(entries) == if |old(entries)| < maxSize then old(KeysOf(entries)) else old(KeysOf(entries)[..|entries| - 1])
      ensures links.contents.Keys == old(KeptKeys()) && IsPart(links.contents, old(links.contents))
      ensures links.WillGiveUp(links.contents.Keys) <==> old(links.WillGiveUp(KeptKeys()))
    {
      hide Indexed, KeysOf, Distinct, Sound, Without, Inv, Models, Holds, Shape, GivesUp, Crowded;
      if curSize < maxSize {
        curSize := curSize + 1;
      } else {
        DropCells(links.contents, entries);
        PopBack();
      }
    }

    method Clear()
      requires Valid()
      modifies this, links, links.mInfo, links.mKeyVals
      ensures Valid() && entries == [] && history == []
      ensures links.mInfo == old(links.mInfo) && links.mKeyVals == old(links.mKeyVals)
    {
      hide Calm, Sound;
      NoneAreCalm(links.hash, maxSize);
      NothingToClear();
      entries := [];
      links.Clear();
      curSize := 0;
      history := [];
    }

    lemma NothingToClear()
      requires Valid()
      ensures links.contents == map[] ==> history == []
    {
      hide Sound, Indexed, CacheKeys, KeysOf, Calm;
      NothingUsed(links.contents, entries, history, maxSize);
    }
  }
}
