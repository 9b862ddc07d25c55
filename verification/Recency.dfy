/** Lists of cache entries in the order of their last use, and what the cache operations do to them. */
module Recency {
  import opened Octets
  import opened Sequences

  datatype Item = Item(key: seq<Octet>, data: int, ts: int)

  /** The place of the first entry with the key, or the length of the list. */
  function Place(list: seq<Item>, key: seq<Octet>): (i: nat)
    ensures i <= |list| && (i < |list| ==> list[i].key == key)
    ensures forall k :: 0 <= k < i ==> list[k].key != key
  {
    if list == [] || list[0].key == key then 0 else 1 + Place(list[1..], key)
  }

  predicate Has(list: seq<Item>, key: seq<Octet>) {
    Place(list, key) < |list|
  }

  predicate DistinctKeys(list: seq<Item>) {
    forall i, j :: 0 <= i < j < |list| ==> list[i].key != list[j].key
  }

  /** Oldest first. */
  predicate ByAge(list: seq<Item>) {
    forall i, j :: 0 <= i <= j < |list| ==> list[i].ts <= list[j].ts
  }

  predicate NotAfter(list: seq<Item>, now: int) {
    forall i :: 0 <= i < |list| ==> list[i].ts <= now
  }

  // ----- the operations

  function Inserted(list: seq<Item>, x: Item, maxEntries: nat): seq<Item> {
    var longer := list + [x];
    if |longer| >= maxEntries then longer[1..] else longer
  }

  /** How many entries a cache can keep. */
  function Room(maxEntries: nat): nat {
    if maxEntries == 0 then 0 else maxEntries - 1
  }

  /** The entry at i moves to the end with the new time. */
  function Touched(list: seq<Item>, i: nat, now: int): (r: seq<Item>)
    requires i < |list|
    ensures |r| == |list|
  {
    Remove(list, i) + [list[i].(ts := now)]
  }

  /** All entries older than age go. */
  function Cleared(list: seq<Item>, now: int, age: int): seq<Item> {
    if list == [] then []
    else if now - list[0].ts > age then Cleared(list[1..], now, age)
    else [list[0]] + Cleared(list[1..], now, age)
  }

  // ----- what they keep

  lemma {:induction false} InsertKeeps(list: seq<Item>, x: Item, maxEntries: nat)
    requires ByAge(list) && NotAfter(list, x.ts) && DistinctKeys(list) && !Has(list, x.key)
    ensures var r := Inserted(list, x, maxEntries);
            && ByAge(r) && NotAfter(r, x.ts) && DistinctKeys(r)
            && (|list| <= Room(maxEntries) ==> |r| <= Room(maxEntries))
  {
    var longer := list + [x];
    assert forall k :: 0 <= k < |list| ==> longer[k] == list[k];
    assert Place(list, x.key) == |list|;
  }

  /**
   An insertion into a full cache drops one entry, which was last used no later than any that stays; otherwise it
   drops none. The others keep their order.
   */
  lemma {:induction false} InsertEvictsOldest(list: seq<Item>, x: Item, maxEntries: nat)
    requires ByAge(list) && NotAfter(list, x.ts)
    ensures var all, r := list + [x], Inserted(list, x, maxEntries);
            var dropped := |all| - |r|;
            && dropped == (if |all| >= maxEntries then 1 else 0) && all[dropped..] == r
            && forall i, j :: 0 <= i < dropped && 0 <= j < |r| ==> all[i].ts <= r[j].ts
  {
    var all, r := list + [x], Inserted(list, x, maxEntries);
    var dropped := |all| - |r|;
    forall i, j | 0 <= i < dropped && 0 <= j < |r| ensures all[i].ts <= r[j].ts {
      assert r[j] == all[dropped + j];
      assert dropped + j < |list| ==> list[i].ts <= list[dropped + j].ts;
    }
  }

  /**
   A cache that has room for one entry drops what is inserted at once: the new entry is kept exactly if
   maxEntries is more than one or another entry is there to go.
   */
  lemma {:induction false} InsertKept(list: seq<Item>, x: Item, maxEntries: nat)
    ensures var r := Inserted(list, x, maxEntries);
            (r != [] && r[|r| - 1] == x) <==> (maxEntries > 1 || list != [])
  {
  }

  lemma {:induction false} RemoveKeeps(list: seq<Item>, i: nat)
    requires i < |list|
    ensures ByAge(list) ==> ByAge(Remove(list, i))
    ensures DistinctKeys(list) ==> DistinctKeys(Remove(list, i))
    ensures forall now :: NotAfter(list, now) ==> NotAfter(Remove(list, i), now)
  {
    var r := Remove(list, i);
    assert forall k :: 0 <= k < |r| ==> r[k] == list[if k < i then k else k + 1];
  }

  lemma {:induction false} TouchKeeps(list: seq<Item>, i: nat, now: int)
    requires i < |list| && ByAge(list) && NotAfter(list, now) && DistinctKeys(list)
    ensures var r := Touched(list, i, now); ByAge(r) && NotAfter(r, now) && DistinctKeys(r)
    ensures var r := Touched(list, i, now); Has(r, list[i].key) && Place(r, list[i].key) == |r| - 1
    ensures var r := Touched(list, i, now);
            && r[|r| - 1] == Item(list[i].key, list[i].data, now)
            && forall k :: 0 <= k < |r| - 1 ==> r[k] == list[if k < i then k else k + 1]
  {
    RemoveKeeps(list, i);
    var r, t := Remove(list, i), Touched(list, i, now);
    assert forall k :: 0 <= k < |r| ==> r[k] == list[if k < i then k else k + 1];
    assert forall k :: 0 <= k < |r| ==> t[k] == r[k] && t[k].key != list[i].key;
    assert t[|r|].key == list[i].key;
  }

  /** Where the entries older than the age end. */
  function Old(list: seq<Item>, now: int, age: int): (n: nat)
    ensures n <= |list|
  {
    if list == [] || now - list[0].ts <= age then 0 else 1 + Old(list[1..], now, age)
  }

  /** Clearing by age drops a prefix of the list: all its old entries and no others. */
  lemma {:induction false} ClearedIsSuffix(list: seq<Item>, now: int, age: int)
    requires ByAge(list)
    ensures var n := Old(list, now, age);
            && Cleared(list, now, age) == list[n..]
            && (forall k :: 0 <= k < n ==> now - list[k].ts > age)
            && (forall k :: n <= k < |list| ==> now - list[k].ts <= age)
  {
    if list != [] {
      ClearedIsSuffix(list[1..], now, age);
      assert forall k :: 0 < k < |list| ==> list[k] == list[1..][k - 1];
      if now - list[0].ts <= age {
        assert Old(list[1..], now, age) == 0;
        assert [list[0]] + list[1..] == list;
      }
    }
  }

  // ----- whole runs

  /** The operations on a cache; now is the clock at the call. */
  datatype Op = OpInsert(now: int, key: seq<Octet>, data: int) | OpLookup(now: int, key: seq<Octet>)
    | OpRemove(now: int, key: seq<Octet>) | OpClear(now: int, age: int)

  function Apply(list: seq<Item>, op: Op, maxEntries: nat): seq<Item> {
    match op
    case OpInsert(now, key, data) => Inserted(list, Item(key, data, now), maxEntries)
    case OpLookup(now, key) => if Has(list, key) then Touched(list, Place(list, key), now) else list
    case OpRemove(_, key) => if Has(list, key) then Remove(list, Place(list, key)) else list
    case OpClear(now, age) => Cleared(list, now, age)
  }

  /** An empty cache after the operations. */
  function RunAll(ops: seq<Op>, maxEntries: nat): seq<Item> {
    if ops == [] then [] else Apply(RunAll(ops[..|ops| - 1], maxEntries), ops[|ops| - 1], maxEntries)
  }

  /** The clock does not go back, and keys are inserted only when they are not in the cache. */
  predicate Legal(ops: seq<Op>, maxEntries: nat) {
    ops == [] ||
    var n := |ops| - 1;
    && Legal(ops[..n], maxEntries)
    && (n > 0 ==> ops[n - 1].now <= ops[n].now)
    && (ops[n].OpInsert? ==> !Has(RunAll(ops[..n], maxEntries), ops[n].key))
  }

  /** After every run the cache is below its limit, has each key once, and is in the order of last use. */
  lemma {:induction false} RunKeeps(ops: seq<Op>, maxEntries: nat)
    requires Legal(ops, maxEntries)
    ensures var r := RunAll(ops, maxEntries);
            && |r| <= Room(maxEntries) && ByAge(r) && DistinctKeys(r)
            && (if ops == [] then r == [] else NotAfter(r, ops[|ops| - 1].now))
  {
    if ops != [] {
      var n := |ops| - 1;
      RunKeeps(ops[..n], maxEntries);
      var list := RunAll(ops[..n], maxEntries);
      assert NotAfter(list, ops[n].now);
      ApplyKeeps(list, ops[n], maxEntries);
    }
  }

  lemma {:induction false} ApplyKeeps(list: seq<Item>, op: Op, maxEntries: nat)
    requires |list| <= Room(maxEntries) && ByAge(list) && DistinctKeys(list) && NotAfter(list, op.now)
    requires op.OpInsert? ==> !Has(list, op.key)
    ensures var r := Apply(list, op, maxEntries);
            |r| <= Room(maxEntries) && ByAge(r) && DistinctKeys(r) && NotAfter(r, op.now)
  {
    match op
    case OpInsert(now, key, data) => InsertKeeps(list, Item(key, data, now), maxEntries);
    case OpLookup(now, key) =>
      if Has(list, key) {
        TouchKeeps(list, Place(list, key), now);
      }
    case OpRemove(now, key) =>
      if Has(list, key) {
        RemoveKeeps(list, Place(list, key));
        hide Remove;
      }
    case OpClear(now, age) => ClearedIsSuffix(list, now, age);
  }

  // ----- bigger caches hold more

  /** A use of the cache: a lookup, and an insertion if that fails. */
  function Used(list: seq<Item>, key: seq<Octet>, data: int, now: int, maxEntries: nat): seq<Item> {
    var i := Place(list, key);
    if i < |list| then Touched(list, i, now) else Inserted(list, Item(key, data, now), maxEntries)
  }

  datatype Use = Use(key: seq<Octet>, data: int, now: int)

  /** An empty cache after a run of uses. */
  function UsedAll(uses: seq<Use>, maxEntries: nat): seq<Item> {
    if uses == [] then []
    else
      var u := uses[|uses| - 1];
      Used(UsedAll(uses[..|uses| - 1], maxEntries), u.key, u.data, u.now, maxEntries)
  }

  function Keys(list: seq<Item>): (r: seq<seq<Octet>>)
    ensures |r| == |list|
  {
    seq(|list|, k requires 0 <= k < |list| => list[k].key)
  }

  function Last<T>(list: seq<T>, n: nat): seq<T> {
    if |list| <= n then list else list[|list| - n..]
  }

  /**
   After any run of uses, a cache holds the most recently used keys of a bigger cache, in the same order:
   as many as it has room for.
   */
  lemma {:induction false} BiggerHoldsMore(uses: seq<Use>, small: nat, big: nat)
    requires small <= big
    ensures Keys(UsedAll(uses, small)) == Last(Keys(UsedAll(uses, big)), Room(small))
    ensures DistinctKeys(UsedAll(uses, big)) && |UsedAll(uses, big)| <= Room(big)
  {
    if uses != [] {
      var n := |uses| - 1;
      var u := uses[n];
      BiggerHoldsMore(uses[..n], small, big);
      UseStep(UsedAll(uses[..n], small), UsedAll(uses[..n], big), u, small, big);
    }
  }

  lemma {:induction false} UseStep(s: seq<Item>, b: seq<Item>, u: Use, small: nat, big: nat)
    requires small <= big && Keys(s) == Last(Keys(b), Room(small)) && DistinctKeys(b) && |b| <= Room(big)
    ensures Keys(Used(s, u.key, u.data, u.now, small))
         == Last(Keys(Used(b, u.key, u.data, u.now, big)), Room(small))
    ensures DistinctKeys(Used(b, u.key, u.data, u.now, big)) && |Used(b, u.key, u.data, u.now, big)| <= Room(big)
  {
    var x, y := Keys(s), Keys(b);
    SuffixDistinct(s, b, Room(small));
    UsedKeys(s, u, small);
    UsedKeys(b, u, big);
    UsedDistinct(b, u, big);
    LastLast(Drop(y, u.key) + [u.key], Room(small), Room(big));
    if small > 1 {
      DropLast(y, u.key, small - 1);
      LastAppend(Drop(x, u.key), u.key, small - 1);
      LastAppend(Drop(y, u.key), u.key, small - 1);
    }
  }

  /** The list of keys without one of them. */
  function Drop(keys: seq<seq<Octet>>, key: seq<Octet>): seq<seq<Octet>> {
    if keys == [] then []
    else if keys[0] == key then keys[1..]
    else [keys[0]] + Drop(keys[1..], key)
  }

  lemma {:induction false} DropAt(list: seq<Item>, key: seq<Octet>)
    ensures var i := Place(list, key);
            Drop(Keys(list), key) == if i < |list| then Remove(Keys(list), i) else Keys(list)
  {
    hide Drop, Remove;
    DropFirst(Keys(list), key, Place(list, key));
  }

  /** Drop removes the key where it comes first. */
  lemma {:induction false} DropFirst(keys: seq<seq<Octet>>, key: seq<Octet>, i: nat)
    requires i <= |keys| && (i < |keys| ==> keys[i] == key) && forall k :: 0 <= k < i ==> keys[k] != key
    ensures Drop(keys, key) == if i < |keys| then Remove(keys, i) else keys
  {
    if 0 < i {
      DropFirst(keys[1..], key, i - 1);
      RemoveLater(keys, i);
    }
  }

  lemma {:induction false} RemoveLater<T>(list: seq<T>, i: nat)
    requires 0 < i <= |list|
    ensures i < |list| ==> Remove(list, i) == [list[0]] + Remove(list[1..], i - 1)
    ensures list == [list[0]] + list[1..]
  {
  }

  /** In terms of keys, a use moves or adds the key at the end, and the end of the list is kept. */
  lemma {:induction false} UsedKeys(list: seq<Item>, u: Use, maxEntries: nat)
    requires |list| <= Room(maxEntries)
    ensures Keys(Used(list, u.key, u.data, u.now, maxEntries))
        == Last(Drop(Keys(list), u.key) + [u.key], Room(maxEntries))
  {
    hide Drop, Remove, Keys, Touched, Inserted;
    DropAt(list, u.key);
    var i := Place(list, u.key);
    if i < |list| {
      TouchedKeys(list, i, u.now);
    } else {
      InsertedKeys(list, Item(u.key, u.data, u.now), maxEntries);
    }
  }

  lemma {:induction false} TouchedKeys(list: seq<Item>, i: nat, now: int)
    requires i < |list|
    ensures Keys(Touched(list, i, now)) == Remove(Keys(list), i) + [list[i].key]
  {
  }

  lemma {:induction false} InsertedKeys(list: seq<Item>, x: Item, maxEntries: nat)
    requires |list| <= Room(maxEntries)
    ensures Keys(Inserted(list, x, maxEntries)) == Last(Keys(list) + [x.key], Room(maxEntries))
  {
    assert Keys(list + [x]) == Keys(list) + [x.key];
  }

  lemma {:induction false} UsedDistinct(list: seq<Item>, u: Use, maxEntries: nat)
    requires |list| <= Room(maxEntries) && DistinctKeys(list)
    ensures DistinctKeys(Used(list, u.key, u.data, u.now, maxEntries))
    ensures |Used(list, u.key, u.data, u.now, maxEntries)| <= Room(maxEntries)
  {
    var i := Place(list, u.key);
    if i < |list| {
      RemoveKeeps(list, i);
      var r := Remove(list, i);
      assert forall k :: 0 <= k < |r| ==> r[k] == list[if k < i then k else k + 1];
    }
  }

  lemma {:induction false} SuffixDistinct(s: seq<Item>, b: seq<Item>, n: nat)
    requires Keys(s) == Last(Keys(b), n)
    ensures |s| <= n
  {
    assert |Keys(s)| == |s|;
  }

  lemma {:induction false} LastLast<T>(x: seq<T>, n: nat, m: nat)
    requires n <= m
    ensures Last(Last(x, m), n) == Last(x, n)
  {
  }

  lemma {:induction false} LastAppend<T>(x: seq<T>, e: T, n: nat)
    requires n > 0
    ensures Last(x + [e], n) == Last(x, n - 1) + [e]
  {
  }

  /** Only the position of the key in the kept end of the list matters. */
  lemma {:induction false} DropLast(keys: seq<seq<Octet>>, key: seq<Octet>, n: nat)
    requires n > 0 && forall i, j :: 0 <= i < j < |keys| ==> keys[i] != keys[j]
    ensures Last(Drop(Last(keys, n), key), n - 1) == Last(Drop(keys, key), n - 1)
  {
    if |keys| > n {
      var rest := keys[1..];
      LastTail(keys[0], rest, n);
      assert keys == [keys[0]] + rest;
      DropLast(rest, key, n);
      DropLength(rest, key);
      hide Last;
      if keys[0] == key {
        DropAbsent(rest, key);
      } else {
        LastTail(keys[0], Drop(rest, key), n - 1);
      }
    }
  }

  lemma {:induction false} LastTail<T>(x: T, list: seq<T>, n: nat)
    requires n <= |list|
    ensures Last([x] + list, n) == Last(list, n)
  {
  }

  lemma {:induction false} DropLength(keys: seq<seq<Octet>>, key: seq<Octet>)
    ensures |keys| - 1 <= |Drop(keys, key)| <= |keys|
  {
    if keys != [] {
      DropLength(keys[1..], key);
    }
  }

  lemma {:induction false} DropAbsent(keys: seq<seq<Octet>>, key: seq<Octet>)
    requires forall k :: 0 <= k < |keys| ==> keys[k] != key
    ensures Drop(keys, key) == keys
  {
    if keys != [] {
      DropAbsent(keys[1..], key);
    }
  }
}
