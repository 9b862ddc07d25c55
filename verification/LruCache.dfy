/** The cache.c of shadowsocks-libev: a hash table whose list of elements is kept in the order of their last use. */
module LruCache {
  import opened Octets
  import opened Sequences
  import opened Wrappers
  import opened HashTable
  import opened Recency

  function Items(list: seq<Entry>): (r: seq<Item>)
    reads list`ts
    ensures |r| == |list|
  {
    if list == [] then []
    else
      var e := list[|list| - 1];
      Items(list[..|list| - 1]) + [Item(e.key, e.data, e.ts)]
  }

  lemma {:induction false} ItemsAt(list: seq<Entry>, k: nat)
    requires k < |list|
    ensures Items(list)[k] == Item(list[k].key, list[k].data, list[k].ts)
  {
    if k < |list| - 1 {
      ItemsAt(list[..|list| - 1], k);
    }
  }

  lemma {:induction false} ItemsRemove(list: seq<Entry>, i: nat)
    requires i < |list|
    ensures Items(Remove(list, i)) == Remove(Items(list), i)
  {
    var r := Remove(list, i);
    hide Items;
    forall k | 0 <= k < |r| ensures Items(r)[k] == Remove(Items(list), i)[k] {
      ItemsAt(r, k);
      ItemsAt(list, if k < i then k else k + 1);
    }
  }

  lemma {:induction false} RemoveInside(list: seq<Entry>, i: nat)
    requires i < |list|
    ensures forall j :: 0 <= j < |Remove(list, i)| ==> Remove(list, i)[j] in list
  {
    var r := Remove(list, i);
    forall j | 0 <= j < |r| ensures r[j] in list {
      assert r[j] == list[if j < i then j else j + 1];
    }
  }

  lemma {:induction false} ItemsAppend(list: seq<Entry>, e: Entry)
    ensures Items(list + [e]) == Items(list) + [Item(e.key, e.data, e.ts)]
  {
    assert (list + [e])[..|list|] == list;
  }

  lemma {:induction false} TableFacts(t: Table)
    requires t.Valid()
    ensures Distinct(t.order) && t.head == At(t.order, 0) && (t.head != null ==> t.numItems == |t.order|)
    ensures forall k {:trigger t.order[k].next} :: 0 <= k < |t.order| ==> t.order[k].next == At(t.order, k + 1)
  {
  }

  /** An index with the key is where a lookup finds it, if keys are distinct. */
  lemma {:induction false} PlaceUnique(list: seq<Item>, key: seq<Octet>, i: nat)
    requires i < |list| && list[i].key == key && DistinctKeys(list)
    ensures Place(list, key) == i
  {
  }

  class Cache {
    const maxEntries: nat
    const entries: Table

    ghost predicate Valid() reads entries, entries.order {
      entries.Valid()
    }

    /** The entries, the one that was used last at the end. */
    ghost function Contents(): seq<Item> reads entries, entries.order {
      Items(entries.order)
    }

    constructor (capacity: nat, hash: seq<Octet> -> nat)
      ensures Valid() && Contents() == [] && maxEntries == capacity && fresh(entries) && entries.order == []
    {
      maxEntries := capacity;
      entries := new Table(hash);
    }

    method Insert(key: seq<Octet>, data: int, now: int)
      requires Valid()
      modifies entries, entries.order
      ensures Valid() && Contents() == Inserted(old(Contents()), Item(key, data, now), maxEntries)
      ensures forall j :: 0 <= j < |entries.order| ==> entries.order[j] in old(entries.order) || fresh(entries.order[j])
    {
      hide Table.Valid, Items;
      var entry := new Entry(key, data, now);
      ItemsAppend(entries.order, entry);
      entries.Add(entry);
      TableFacts(entries);
      if entries.head != null && entries.numItems >= maxEntries {
        ItemsRemove(entries.order, 0);
        entries.Delete(entries.head, 0);
      }
    }

    /** Moves an entry that was found to the end of the list. */
    method Touch(e: Entry, now: int, ghost i: nat)
      requires Valid() && i < |entries.order| && entries.order[i] == e
      modifies entries, entries.order
      ensures Valid() && Contents() == Touched(old(Contents()), i, now)
      ensures forall j :: 0 <= j < |entries.order| ==> entries.order[j] in old(entries.order)
    {
      hide Table.Valid, Items, Remove;
      ghost var rest := Remove(entries.order, i);
      TableFacts(entries);
      ItemsAt(entries.order, i);
      ItemsRemove(entries.order, i);
      RemoveElements(entries.order, i);
      RemoveInside(entries.order, i);
      assert e !in Elements(rest);
      entries.Delete(e, i);
      assert Items(rest) == old(Items(rest));
      SetTime(e, now, rest);
      ItemsAppend(rest, e);
      entries.Add(e);
    }

    /** The time of an element is no business of the table. */
    method SetTime(e: Entry, now: int, ghost rest: seq<Entry>)
      requires Valid() && entries.order == rest && e !in rest
      modifies e`ts
      ensures Valid() && entries.order == rest && e.ts == now && Items(rest) == old(Items(rest))
    {
      e.ts := now;
    }

    /** found says at which index; it is the only one if keys are distinct. */
    method Lookup(key: seq<Octet>, now: int) returns (r: Option<int>, ghost found: nat)
      requires Valid()
      modifies entries, entries.order
      ensures Valid() && (r.Some? <==> Has(old(Contents()), key))
      ensures r.Some? ==> found < |old(Contents())| && old(Contents())[found].key == key
      ensures r.Some? ==> r.value == old(Contents())[found].data && Contents() == Touched(old(Contents()), found, now)
      ensures r.None? ==> Contents() == old(Contents())
      ensures forall j :: 0 <= j < |entries.order| ==> entries.order[j] in old(entries.order)
    {
      var e;
      e, found := FindEntry(key);
      if e == null {
        return None, 0;
      }
      ItemsAt(entries.order, found);
      Touch(e, now, found);
      r := Some(e.data);
    }

    method FindEntry(key: seq<Octet>) returns (e: Entry?, ghost found: nat)
      requires Valid()
      ensures e != null <==> Has(Contents(), key)
      ensures e != null ==> found < |Contents()| && entries.order[found] == e && Contents()[found].key == key
    {
      hide Table.Valid, Items;
      found := 0;
      e := entries.Find(key);
      if e == null {
        forall k | 0 <= k < |entries.order| ensures Contents()[k].key != key {
          ItemsAt(entries.order, k);
        }
      } else {
        found :| 0 <= found < |entries.order| && entries.order[found] == e;
        ItemsAt(entries.order, found);
      }
    }

    method KeyExist(key: seq<Octet>, now: int) returns (r: bool, ghost found: nat)
      requires Valid()
      modifies entries, entries.order
      ensures Valid() && (r <==> Has(old(Contents()), key))
      ensures r ==> found < |old(Contents())| && old(Contents())[found].key == key
      ensures Contents() == if r then Touched(old(Contents()), found, now) else old(Contents())
      ensures forall j :: 0 <= j < |entries.order| ==> entries.order[j] in old(entries.order)
    {
      var e;
      e, found := FindEntry(key);
      if e == null {
        return false, 0;
      }
      Touch(e, now, found);
      r := true;
    }

    method RemoveKey(key: seq<Octet>) returns (ghost found: nat)
      requires Valid()
      modifies entries, entries.order
      ensures Valid()
      ensures Has(old(Contents()), key) ==>
                && found < |old(Contents())| && old(Contents())[found].key == key
                && Contents() == Remove(old(Contents()), found)
      ensures !Has(old(Contents()), key) ==> Contents() == old(Contents())
      ensures forall j :: 0 <= j < |entries.order| ==> entries.order[j] in old(entries.order)
    {
      hide Table.Valid, Items;
      var e;
      e, found := FindEntry(key);
      if e != null {
        ItemsRemove(entries.order, found);
        entries.Delete(e, found);
      }
    }

    /** Walks the list with the next entry remembered, since the current one may be deleted. */
    method Clear(now: int, age: int)
      requires Valid()
      modifies entries, entries.order
      ensures Valid() && Contents() == Cleared(old(Contents()), now, age)
      ensures forall j :: 0 <= j < |entries.order| ==> entries.order[j] in old(entries.order)
    {
      hide Table.Valid, Items, Cleared, ClearedTo, Distinct, Linked;
      ghost var members, before := entries.order, Contents();
      var entry := First();
      ghost var k: nat := 0;
      var tmp := After(entry, 0);
      ClearStart(Contents(), now, age);
      while entry != null
        invariant Valid() && k <= |entries.order|
        invariant forall j :: 0 <= j < |entries.order| ==> entries.order[j] in members
        invariant entry == At(entries.order, k) && tmp == At(entries.order, k + 1)
        invariant ClearedTo(Contents(), k, before, now, age)
        decreases |entries.order| - k
      {
        k := ClearEntry(entry, k, now, age, members, before);
        entry := tmp;
        tmp := After(tmp, k);
      }
      ClearEnd(Contents(), k, before, now, age);
    }

    method First() returns (r: Entry?)
      requires Valid()
      ensures r == At(entries.order, 0)
    {
      return entries.head;
    }

    /** The entry after the k-th, which is e. */
    method After(e: Entry?, ghost k: nat) returns (r: Entry?)
      requires Valid() && e == At(entries.order, k)
      ensures r == At(entries.order, k + 1)
    {
      return if e != null then e.next else null;
    }

    method ClearEntry(e: Entry, ghost k: nat, now: int, age: int, ghost members: seq<Entry>, ghost before: seq<Item>)
      returns (ghost k': nat)
      requires Valid() && k < |entries.order| && entries.order[k] == e && ClearedTo(Contents(), k, before, now, age)
      requires forall j :: 0 <= j < |entries.order| ==> entries.order[j] in members
      modifies entries, members
      ensures Valid() && ClearedTo(Contents(), k', before, now, age)
      ensures forall j :: 0 <= j < |entries.order| ==> entries.order[j] in members
      ensures k' <= |entries.order| && |entries.order| - k' == |old(entries.order)| - k - 1
      ensures At(entries.order, k') == At(old(entries.order), k + 1)
      ensures At(entries.order, k' + 1) == At(old(entries.order), k + 2)
    {
      hide Table.Valid, Items, Cleared, ClearedTo, Remove;
      k' := k;
      ItemsAt(entries.order, k);
      if now - e.ts > age {
        ClearOld(Contents(), k, before, now, age);
        RemoveAt(entries.order, k, k);
        RemoveAt(entries.order, k, k + 1);
        DeleteEntry(e, k);
      } else {
        ClearYoung(Contents(), k, before, now, age);
        k' := k + 1;
      }
    }

    method DeleteEntry(e: Entry, ghost k: nat)
      requires Valid() && k < |entries.order| && entries.order[k] == e
      modifies entries, entries.order`prev, entries.order`next, entries.order`hhPrev, entries.order`hhNext
      ensures Valid() && Contents() == Remove(old(Contents()), k) && entries.order == Remove(old(entries.order), k)
      ensures |entries.order| == |old(entries.order)| - 1
      ensures forall j :: 0 <= j < |entries.order| ==> entries.order[j] in old(entries.order)
    {
      hide Table.Valid, Items;
      RemoveInside(entries.order, k);
      ItemsRemove(entries.order, k);
      entries.Delete(e, k);
    }
  }

  /** One operation on a cache that has each key once. */
  method Perform(c: Cache, op: Op)
    requires c.Valid() && DistinctKeys(c.Contents())
    modifies c.entries, c.entries.order
    ensures c.Valid() && c.Contents() == Apply(old(c.Contents()), op, c.maxEntries)
    ensures forall j :: 0 <= j < |c.entries.order| ==>
              c.entries.order[j] in old(c.entries.order) || fresh(c.entries.order[j])
  {
    hide Table.Valid, Items, Touched, Remove, DistinctKeys;
    ghost var list := c.Contents();
    match op {
      case OpInsert(now, key, data) =>
        c.Insert(key, data, now);
      case OpLookup(now, key) =>
        var _, found := c.Lookup(key, now);
        SamePlace(list, key, found);
      case OpRemove(_, key) =>
        ghost var found := c.RemoveKey(key);
        SamePlace(list, key, found);
      case OpClear(now, age) =>
        c.Clear(now, age);
    }
  }

  lemma {:induction false} SamePlace(list: seq<Item>, key: seq<Octet>, found: nat)
    requires DistinctKeys(list)
    ensures found < |list| && list[found].key == key ==> Place(list, key) == found
  {
    if found < |list| && list[found].key == key {
      PlaceUnique(list, key, found);
    }
  }

  /** A new cache on which operations are performed is, after each of them, the list that RunAll describes. */
  method PerformAll(capacity: nat, hash: seq<Octet> -> nat, ops: seq<Op>) returns (c: Cache)
    requires Legal(ops, capacity)
    ensures c.Valid() && c.maxEntries == capacity && c.Contents() == RunAll(ops, capacity)
    ensures |c.Contents()| <= Room(capacity) && ByAge(c.Contents()) && DistinctKeys(c.Contents())
  {
    hide Table.Valid, Items, Legal, RunAll, Apply, DistinctKeys, ByAge;
    c := new Cache(capacity, hash);
    NothingRun(ops, capacity);
    for i := 0 to |ops|
      invariant c.Valid() && c.maxEntries == capacity && c.Contents() == RunAll(ops[..i], capacity)
      invariant Legal(ops[..i], capacity) && fresh(c.entries)
      invariant forall j :: 0 <= j < |c.entries.order| ==> fresh(c.entries.order[j])
    {
      RunKeeps(ops[..i], capacity);
      RunNext(ops, i, capacity);
      Perform(c, ops[i]);
    }
    assert ops[..|ops|] == ops;
    RunKeeps(ops, capacity);
  }

  lemma {:induction false} NothingRun(ops: seq<Op>, capacity: nat)
    ensures RunAll(ops[..0], capacity) == [] && Legal(ops[..0], capacity)
  {
  }

  lemma {:induction false} RunNext(ops: seq<Op>, i: nat, capacity: nat)
    requires i < |ops| && Legal(ops, capacity)
    ensures RunAll(ops[..i + 1], capacity) == Apply(RunAll(ops[..i], capacity), ops[i], capacity)
    ensures Legal(ops[..i + 1], capacity)
  {
    assert ops[..i + 1][..i] == ops[..i];
    LegalPrefix(ops, i + 1, capacity);
  }

  lemma {:induction false} LegalPrefix(ops: seq<Op>, n: nat, capacity: nat)
    requires n <= |ops| && Legal(ops, capacity)
    ensures Legal(ops[..n], capacity)
  {
    if n < |ops| {
      LegalPrefix(ops[..|ops| - 1], n, capacity);
      assert ops[..|ops| - 1][..n] == ops[..n];
    } else {
      assert ops[..n] == ops;
    }
  }

  /** The first k entries of the list are to stay, and the others are still to be looked at. */
  ghost predicate ClearedTo(list: seq<Item>, k: nat, before: seq<Item>, now: int, age: int) {
    k <= |list| && Cleared(before, now, age) == list[..k] + Cleared(list[k..], now, age)
  }

  lemma {:induction false} ClearStart(list: seq<Item>, now: int, age: int)
    ensures ClearedTo(list, 0, list, now, age)
  {
    assert list[0..] == list;
    assert list[..0] + Cleared(list, now, age) == Cleared(list, now, age);
  }

  lemma {:induction false} ClearOld(list: seq<Item>, k: nat, before: seq<Item>, now: int, age: int)
    requires ClearedTo(list, k, before, now, age) && k < |list| && now - list[k].ts > age
    ensures ClearedTo(Remove(list, k), k, before, now, age)
  {
    assert Remove(list, k)[..k] == list[..k] && Remove(list, k)[k..] == list[k + 1..] == list[k..][1..];
  }

  lemma {:induction false} ClearYoung(list: seq<Item>, k: nat, before: seq<Item>, now: int, age: int)
    requires ClearedTo(list, k, before, now, age) && k < |list| && now - list[k].ts <= age
    ensures ClearedTo(list, k + 1, before, now, age)
  {
    assert list[k + 1..] == list[k..][1..];
    assert list[..k + 1] + Cleared(list[k + 1..], now, age)
        == list[..k] + ([list[k]] + Cleared(list[k + 1..], now, age));
  }

  lemma {:induction false} ClearEnd(list: seq<Item>, k: nat, before: seq<Item>, now: int, age: int)
    requires ClearedTo(list, k, before, now, age) && k == |list|
    ensures list == Cleared(before, now, age)
  {
    assert list[k..] == [] && list[..k] == list;
  }
}
