/**
 The intrusive hash table: every element is in a list of all elements in the order they were added, and in
 the chain of its bucket. When a chain gets too long the number of buckets doubles.
 */
module HashTable {
  import opened Octets
  import opened Sequences
  import opened PowersOfTwo

  const HASH_INITIAL_NUM_BUCKETS: nat := 32
  const HASH_INITIAL_NUM_BUCKETS_LOG2: nat := 5
  const HASH_BKT_CAPACITY_THRESH: nat := 10

  /** An element with its hash handle. */
  class Entry {
    const key: seq<Octet>
    const data: int
    var ts: int
    var hashv: nat
    var prev: Entry?
    var next: Entry?
    var hhPrev: Entry?
    var hhNext: Entry?

    constructor (key: seq<Octet>, data: int, ts: int)
      ensures this.key == key && this.data == data && this.ts == ts
    {
      this.key, this.data, this.ts := key, data, ts;
      hashv, prev, next, hhPrev, hhNext := 0, null, null, null, null;
    }
  }

  datatype Bucket = Bucket(hhHead: Entry?, count: nat, expandMult: nat)

  const EMPTY_BUCKET: Bucket := Bucket(null, 0, 0)

  // ----- lists of elements

  /** The k-th element, and NULL outside of the list. */
  function At(list: seq<Entry>, k: int): Entry? {
    if 0 <= k < |list| then list[k] else null
  }

  predicate Distinct(list: seq<Entry>) {
    forall i, j :: 0 <= i < j < |list| ==> list[i] != list[j]
  }

  function Elements(list: seq<Entry>): set<Entry> {
    set e | e in list
  }

  lemma {:induction false} RemoveElements(list: seq<Entry>, i: nat)
    requires i < |list| && Distinct(list)
    ensures Distinct(Remove(list, i)) && Elements(Remove(list, i)) == Elements(list) - {list[i]}
  {
    var r := Remove(list, i);
    assert forall k :: 0 <= k < |r| ==> r[k] == list[if k < i then k else k + 1];
    forall e ensures e in r <==> e in list && e != list[i] {
      if e in list && e != list[i] {
        var k :| 0 <= k < |list| && list[k] == e;
        assert r[if k < i then k else k - 1] == e;
      }
    }
  }

  /** The list runs through its elements both ways. */
  ghost predicate Linked(list: seq<Entry>)
    reads list`prev, list`next
  {
    && (forall k {:trigger list[k].prev} :: 0 <= k < |list| ==> list[k].prev == At(list, k - 1))
    && (forall k {:trigger list[k].next} :: 0 <= k < |list| ==> list[k].next == At(list, k + 1))
  }

  /** So does the chain of a bucket. */
  ghost predicate Chained(chain: seq<Entry>)
    reads chain`hhPrev, chain`hhNext
  {
    && (forall k {:trigger chain[k].hhPrev} :: 0 <= k < |chain| ==> chain[k].hhPrev == At(chain, k - 1))
    && (forall k {:trigger chain[k].hhNext} :: 0 <= k < |chain| ==> chain[k].hhNext == At(chain, k + 1))
  }

  /** Taking the i-th element out of a list, once its neighbours are linked to each other. */
  lemma {:induction false} LinkedRemove(list: seq<Entry>, i: nat)
    requires i < |list|
    requires forall k {:trigger list[k].next} ::
      0 <= k < |list| ==> list[k].next == At(list, if k == i - 1 then i + 1 else k + 1)
    requires forall k {:trigger list[k].prev} ::
      0 <= k < |list| ==> list[k].prev == At(list, if k == i + 1 then i - 1 else k - 1)
    ensures Linked(Remove(list, i))
  {
    var r := Remove(list, i);
    forall k | 0 <= k < |r| ensures r[k].prev == At(r, k - 1) && r[k].next == At(r, k + 1) {
      RemoveAt(list, i, k - 1);
      RemoveAt(list, i, k);
      RemoveAt(list, i, k + 1);
    }
  }

  lemma {:induction false} ChainedRemove(list: seq<Entry>, i: nat)
    requires i < |list|
    requires forall k {:trigger list[k].hhNext} ::
      0 <= k < |list| ==> list[k].hhNext == At(list, if k == i - 1 then i + 1 else k + 1)
    requires forall k {:trigger list[k].hhPrev} ::
      0 <= k < |list| ==> list[k].hhPrev == At(list, if k == i + 1 then i - 1 else k - 1)
    ensures Chained(Remove(list, i))
  {
    var r := Remove(list, i);
    forall k | 0 <= k < |r| ensures r[k].hhPrev == At(r, k - 1) && r[k].hhNext == At(r, k + 1) {
      RemoveAt(list, i, k - 1);
      RemoveAt(list, i, k);
      RemoveAt(list, i, k + 1);
    }
  }

  lemma {:induction false} RemoveLength(list: seq<Entry>, i: nat)
    requires i < |list|
    ensures |Remove(list, i)| == |list| - 1
  {
  }

  lemma {:induction false} RemoveAt(list: seq<Entry>, i: nat, k: int)
    requires i < |list|
    ensures At(Remove(list, i), k) == At(list, if k < i then k else k + 1)
  {
  }

  // ----- buckets

  /** The bucket's chain has these elements. */
  ghost predicate ChainOk(chain: seq<Entry>, bucket: Bucket)
    reads chain`hhPrev, chain`hhNext
  {
    Distinct(chain) && Chained(chain) && bucket.hhHead == At(chain, 0) && bucket.count == |chain|
  }

  /** The chains have exactly the elements of s, each in the chain of its hash value. */
  ghost predicate Placed(chains: seq<seq<Entry>>, s: set<Entry>)
    reads s`hashv
  {
    && |chains| > 0
    && (forall b, k :: 0 <= b < |chains| && 0 <= k < |chains[b]| ==>
          chains[b][k] in s && chains[b][k].hashv % |chains| == b)
    && (forall e :: e in s ==> e in chains[e.hashv % |chains|])
  }

  ghost predicate BucketsOk(chains: seq<seq<Entry>>, buckets: seq<Bucket>, s: set<Entry>)
    reads s`hhPrev, s`hhNext, s`hashv
  {
    && |chains| == |buckets| && Placed(chains, s)
    && forall b :: 0 <= b < |chains| ==> ChainOk(chains[b], buckets[b])
  }

  lemma {:induction false} ChainsDisjoint(chains: seq<seq<Entry>>, s: set<Entry>, b: int, c: int)
    requires Placed(chains, s) && 0 <= b < |chains| && 0 <= c < |chains| && b != c
    ensures Elements(chains[b]) !! Elements(chains[c])
  {
  }

  lemma {:induction false} PlacedInside(chains: seq<seq<Entry>>, s: set<Entry>)
    requires Placed(chains, s)
    ensures forall b :: 0 <= b < |chains| ==> Elements(chains[b]) <= s
  {
  }

  lemma {:induction false} NotPlaced(chains: seq<seq<Entry>>, s: set<Entry>, e: Entry)
    requires Placed(chains, s) && e !in s
    ensures forall b :: 0 <= b < |chains| ==> e !in chains[b]
  {
  }

  lemma {:induction false} PlacedAdd(chains: seq<seq<Entry>>, s: set<Entry>, e: Entry)
    requires Placed(chains, s) && e !in s
    ensures var b := e.hashv % |chains|; Placed(chains[b := [e] + chains[b]], s + {e})
  {
    var b := e.hashv % |chains|;
    var t := chains[b := [e] + chains[b]];
    forall c, k | 0 <= c < |t| && 0 <= k < |t[c]|
      ensures t[c][k] in s + {e} && t[c][k].hashv % |t| == c
    {
      assert c == b && k > 0 ==> t[c][k] == chains[b][k - 1];
    }
    forall x | x in s + {e} ensures x in t[x.hashv % |t|] {
      if x != e {
        assert x in chains[x.hashv % |chains|];
      }
    }
  }

  lemma {:induction false} PlacedRemove(chains: seq<seq<Entry>>, s: set<Entry>, b: nat, i: nat)
    requires Placed(chains, s) && b < |chains| && i < |chains[b]| && Distinct(chains[b])
    ensures Placed(chains[b := Remove(chains[b], i)], s - {chains[b][i]})
  {
    var e := chains[b][i];
    var r := Remove(chains[b], i);
    var t := chains[b := r];
    RemoveElements(chains[b], i);
    forall c, k | 0 <= c < |t| && 0 <= k < |t[c]|
      ensures t[c][k] in s - {e} && t[c][k].hashv % |t| == c
    {
      if c == b {
        assert r[k] in Elements(r);
        var j :| 0 <= j < |chains[b]| && chains[b][j] == r[k];
      } else {
        assert e.hashv % |chains| == b;
      }
    }
    forall x | x in s - {e} ensures x in t[x.hashv % |t|] {
      assert x in chains[x.hashv % |chains|];
      assert x in chains[b] ==> x in Elements(r);
    }
  }

  // ----- changing one chain

  /** Puts an element at the front of a chain. */
  method LinkFront(e: Entry, bucket: Bucket, ghost chain: seq<Entry>) returns (r: Bucket)
    requires ChainOk(chain, bucket) && e !in chain
    modifies e`hhPrev, e`hhNext, chain`hhPrev
    ensures ChainOk([e] + chain, r) && r.count == bucket.count + 1 && r.expandMult == bucket.expandMult
  {
    e.hhNext := bucket.hhHead;
    e.hhPrev := null;
    if bucket.hhHead != null {
      bucket.hhHead.hhPrev := e;
    }
    r := Bucket(e, bucket.count + 1, bucket.expandMult);
    ghost var longer := [e] + chain;
    forall k | 0 <= k < |longer|
      ensures longer[k].hhPrev == At(longer, k - 1) && longer[k].hhNext == At(longer, k + 1)
    {
      if k > 0 {
        assert longer[k] == chain[k - 1];
        assert k > 1 ==> chain[k - 1] != chain[0];
      }
    }
  }

  /** Takes the i-th element out of a chain. */
  method Unlink(e: Entry, bucket: Bucket, ghost chain: seq<Entry>, ghost i: nat) returns (r: Bucket)
    requires ChainOk(chain, bucket) && i < |chain| && chain[i] == e
    modifies chain`hhPrev, chain`hhNext
    ensures ChainOk(Remove(chain, i), r)
  {
    var head := bucket.hhHead;
    assert head == e <==> i == 0;
    if head == e {
      head := e.hhNext;
    }
    UnlinkHandle(e, chain, i);
    r := Bucket(head, bucket.count - 1, bucket.expandMult);
    RemoveElements(chain, i);
    ChainedRemove(chain, i);
    RemoveAt(chain, i, 0);
  }

  method UnlinkHandle(e: Entry, ghost chain: seq<Entry>, ghost i: nat)
    requires Distinct(chain) && Chained(chain) && i < |chain| && chain[i] == e
    modifies chain`hhPrev, chain`hhNext
    ensures forall k {:trigger chain[k].hhNext} ::
      0 <= k < |chain| ==> chain[k].hhNext == At(chain, if k == i - 1 then i + 1 else k + 1)
    ensures forall k {:trigger chain[k].hhPrev} ::
      0 <= k < |chain| ==> chain[k].hhPrev == At(chain, if k == i + 1 then i - 1 else k - 1)
  {
    if e.hhPrev != null {
      e.hhPrev.hhNext := e.hhNext;
    }
    if e.hhNext != null {
      e.hhNext.hhPrev := e.hhPrev;
    }
  }

  lemma {:induction false} BucketCount(chains: seq<seq<Entry>>, buckets: seq<Bucket>, s: set<Entry>)
    requires BucketsOk(chains, buckets, s)
    ensures |chains| == |buckets| > 0
  {
  }

  lemma {:induction false} ChainIsOk(chains: seq<seq<Entry>>, buckets: seq<Bucket>, s: set<Entry>, b: nat)
    requires BucketsOk(chains, buckets, s) && b < |buckets|
    ensures ChainOk(chains[b], buckets[b]) && Distinct(chains[b])
  {
  }

  /** Adds an element to the chain of bucket bkt, which is that of its hash value. */
  method AddToChain(e: Entry, bkt: nat, buckets: seq<Bucket>, ghost chains: seq<seq<Entry>>, ghost s: set<Entry>)
    returns (buckets': seq<Bucket>, ghost chains': seq<seq<Entry>>)
    requires BucketsOk(chains, buckets, s) && e !in s && |buckets| > 0 && bkt == e.hashv % |buckets|
    modifies e`hhPrev, e`hhNext, s`hhPrev
    ensures BucketsOk(chains', buckets', s + {e}) && |buckets'| == |buckets|
    ensures forall b :: 0 <= b < |buckets| && b != bkt ==> buckets'[b] == buckets[b]
    ensures buckets'[bkt].count == buckets[bkt].count + 1 && buckets'[bkt].expandMult == buckets[bkt].expandMult
    ensures bkt < |chains| && chains' == chains[bkt := [e] + chains[bkt]]
  {
    hide Placed, ChainOk;
    PlacedAdd(chains, s, e);
    PlacedInside(chains, s);
    NotPlaced(chains, s, e);
    forall c | 0 <= c < |chains| && c != bkt ensures Elements(chains[bkt]) !! Elements(chains[c]) {
      ChainsDisjoint(chains, s, bkt, c);
    }
    chains' := chains[bkt := [e] + chains[bkt]];
    var b := LinkFront(e, buckets[bkt], chains[bkt]);
    assert Placed(chains', s + {e});
    forall c | 0 <= c < |chains| && c != bkt ensures ChainOk(chains[c], buckets[c]) {
      assert old(ChainOk(chains[c], buckets[c]));
      assert Elements(chains[bkt]) !! Elements(chains[c]);
      forall k | 0 <= k < |chains[c]| ensures chains[c][k].hhPrev == old(chains[c][k].hhPrev) {
        assert chains[c][k] in Elements(chains[c]);
      }
    }
    buckets' := buckets[bkt := b];
  }

  // ----- doubling

  /** How many elements are beyond the ideal length of their chains. */
  function Excess(buckets: seq<Bucket>, ideal: nat): nat {
    if buckets == [] then 0
    else
      var n := |buckets| - 1;
      Excess(buckets[..n], ideal) + if buckets[n].count > ideal then buckets[n].count - ideal else 0
  }

  lemma {:induction false} ExcessUpdate(buckets: seq<Bucket>, b: nat, x: Bucket, ideal: nat)
    requires b < |buckets| && x.count == buckets[b].count + 1
    ensures Excess(buckets[b := x], ideal) == Excess(buckets, ideal) + if x.count > ideal then 1 else 0
  {
    var n := |buckets| - 1;
    if b == n {
      assert buckets[b := x][..n] == buckets[..n];
    } else {
      assert buckets[b := x][..n] == buckets[..n][b := x];
      ExcessUpdate(buckets[..n], b, x, ideal);
    }
  }

  lemma {:induction false} ExcessEmpty(n: nat, ideal: nat)
    ensures Excess(seq(n, _ => EMPTY_BUCKET), ideal) == 0
  {
    if n > 0 {
      ExcessEmpty(n - 1, ideal);
      assert seq(n, _ => EMPTY_BUCKET)[..n - 1] == seq(n - 1, _ => EMPTY_BUCKET);
    }
  }

  /** Longer chains may grow by a multiple of the threshold before the next doubling. */
  predicate MultipliersOk(buckets: seq<Bucket>, ideal: nat)
    requires ideal > 0
  {
    forall b :: 0 <= b < |buckets| ==>
      buckets[b].expandMult == if buckets[b].count > ideal then buckets[b].count / ideal else 0
  }

  lemma {:induction false} DoublePow2(k: nat)
    ensures Pow2(k + 1) == 2 * Pow2(k)
  {
  }

  lemma {:induction false} CeilingPositive(c: nat, x: nat, p: nat)
    requires IsCeiling(c, x, p) && x > 0
    ensures c > 0
  {
  }

  /** The elements of the chains before bucket i, and the first k of chain i. */
  ghost predicate Moved(chains: seq<seq<Entry>>, s: set<Entry>, i: nat, k: nat, done: set<Entry>)
    requires |chains| > 0 && (i < |chains| ==> k <= |chains[i]|)
    reads s`hashv
  {
    && done <= s
    && forall e :: e in s ==>
         (e in done <==> e.hashv % |chains| < i || (e.hashv % |chains| == i < |chains| && e in chains[i][..k]))
  }

  /** Those that are still to be moved. */
  lemma {:induction false} NotMoved(chains: seq<seq<Entry>>, s: set<Entry>, i: nat, k: nat, done: set<Entry>)
    requires Placed(chains, s) && i < |chains| && k <= |chains[i]| && Distinct(chains[i])
        && Moved(chains, s, i, k, done)
    ensures forall j :: k <= j < |chains[i]| ==> chains[i][j] in s && chains[i][j] !in done
    ensures forall b, j :: i < b < |chains| && 0 <= j < |chains[b]| ==>
              chains[b][j] in s && chains[b][j] !in done && chains[b][j] !in chains[i]
  {
  }

  lemma {:induction false} MovedNext(chains: seq<seq<Entry>>, s: set<Entry>, i: nat, k: nat, done: set<Entry>)
    requires Placed(chains, s) && i < |chains| && k < |chains[i]| && Moved(chains, s, i, k, done)
    ensures Moved(chains, s, i, k + 1, done + {chains[i][k]})
  {
    assert chains[i][..k + 1] == chains[i][..k] + [chains[i][k]];
  }

  lemma {:induction false} MovedChain(chains: seq<seq<Entry>>, s: set<Entry>, i: nat, done: set<Entry>)
    requires Placed(chains, s) && i < |chains| && Moved(chains, s, i, |chains[i]|, done)
    ensures Moved(chains, s, i + 1, 0, done)
  {
    assert chains[i][..|chains[i]|] == chains[i];
    forall e | e in s ensures e in done <==> e.hashv % |chains| < i + 1 {
      assert e in chains[e.hashv % |chains|];
    }
  }

  lemma {:induction false} MovedAll(chains: seq<seq<Entry>>, s: set<Entry>, done: set<Entry>)
    requires |chains| > 0 && Moved(chains, s, |chains|, 0, done)
    ensures done == s
  {
  }

  /** The new buckets: they hold the elements moved so far, and the count of those beyond the ideal is right. */
  ghost predicate NewOk(chains: seq<seq<Entry>>, buckets: seq<Bucket>, done: set<Entry>, ideal: nat, nonideal: nat)
    requires ideal > 0
    reads done`hhPrev, done`hhNext, done`hashv
  {
    BucketsOk(chains, buckets, done) && nonideal == Excess(buckets, ideal) && MultipliersOk(buckets, ideal)
  }

  /** Moves one element to its new bucket. */
  method MoveOne(e: Entry, bkt: nat, newBuckets0: seq<Bucket>, ghost newChains0: seq<seq<Entry>>,
                 ghost done: set<Entry>, ideal: nat, nonideal0: nat)
    returns (newBuckets: seq<Bucket>, ghost newChains: seq<seq<Entry>>, nonideal: nat)
    requires ideal > 0 && NewOk(newChains0, newBuckets0, done, ideal, nonideal0) && e !in done
    requires |newBuckets0| > 0 && bkt == e.hashv % |newBuckets0|
    modifies e`hhPrev, e`hhNext, done`hhPrev
    ensures NewOk(newChains, newBuckets, done + {e}, ideal, nonideal) && |newBuckets| == |newBuckets0|
  {
    hide BucketsOk, Excess, MultipliersOk;
    newBuckets, newChains := AddToChain(e, bkt, newBuckets0, newChains0, done);
    nonideal := nonideal0;
    var b := newBuckets[bkt];
    ghost var mult := if b.count > ideal then b.count / ideal else 0;
    ExcessUpdate(newBuckets0, bkt, b.(expandMult := mult), ideal);
    MultipliersUpdate(newBuckets0, bkt, b.(expandMult := mult), ideal);
    if b.count > ideal {
      nonideal := nonideal + 1;
      ghost var before := newBuckets;
      newBuckets := newBuckets[bkt := b.(expandMult := b.count / ideal)];
      MultiplierIrrelevant(newChains, before, newBuckets, done + {e});
      assert newBuckets == newBuckets0[bkt := b.(expandMult := mult)];
    } else {
      MultiplierZero(newBuckets0, bkt, ideal);
      assert newBuckets == newBuckets0[bkt := b.(expandMult := mult)];
    }
  }

  lemma {:induction false} MultipliersUpdate(buckets: seq<Bucket>, b: nat, x: Bucket, ideal: nat)
    requires ideal > 0 && b < |buckets| && MultipliersOk(buckets, ideal)
    requires x.expandMult == if x.count > ideal then x.count / ideal else 0
    ensures MultipliersOk(buckets[b := x], ideal)
  {
  }

  lemma {:induction false} MultiplierZero(buckets: seq<Bucket>, b: nat, ideal: nat)
    requires ideal > 0 && b < |buckets| && MultipliersOk(buckets, ideal)
    ensures buckets[b].count <= ideal ==> buckets[b].expandMult == 0
  {
  }

  lemma {:induction false} MultiplierIrrelevant(
    chains: seq<seq<Entry>>, xs: seq<Bucket>, ys: seq<Bucket>, s: set<Entry>)
    requires BucketsOk(chains, xs, s) && |xs| == |ys|
    requires forall b :: 0 <= b < |xs| ==> xs[b].hhHead == ys[b].hhHead && xs[b].count == ys[b].count
    ensures BucketsOk(chains, ys, s)
  {
    hide Placed, Chained;
  }

  /** The rest of a chain can still be followed. */
  ghost predicate Ahead(chain: seq<Entry>, k: nat)
    reads chain`hhNext
  {
    forall j {:trigger chain[j].hhNext} :: k <= j < |chain| ==> chain[j].hhNext == At(chain, j + 1)
  }

  /** The chains after chain i are as before. */
  ghost predicate Later(chains: seq<seq<Entry>>, buckets: seq<Bucket>, s: set<Entry>, i: int)
    requires |chains| == |buckets| && Placed(chains, s)
    reads s`hhPrev, s`hhNext, s`hashv
  {
    forall b :: 0 <= b < |chains| && i < b ==> ChainOk(chains[b], buckets[b])
  }

  lemma {:induction false} StillDistinct(list: seq<Entry>, k: nat)
    requires Distinct(list) && k < |list|
    ensures forall j :: k < j < |list| ==> list[j] != list[k]
  {
  }

  predicate Apart(list: seq<Entry>, s: set<Entry>) {
    forall k :: 0 <= k < |list| ==> list[k] !in s
  }

  /** Moves one element; chains that are apart from those moved so far are not touched. */
  method MoveAway(buckets: seq<Bucket>, ghost chains: seq<seq<Entry>>, ghost s: set<Entry>, i: nat, e: Entry,
                  bkt: nat, newBuckets0: seq<Bucket>, ghost newChains0: seq<seq<Entry>>,
                  ghost done: set<Entry>, ideal: nat, nonideal0: nat)
    returns (newBuckets: seq<Bucket>, ghost newChains: seq<seq<Entry>>, nonideal: nat)
    requires |chains| == |buckets| && Placed(chains, s) && Later(chains, buckets, s, i)
    requires ideal > 0 && NewOk(newChains0, newBuckets0, done, ideal, nonideal0) && e !in done
    requires |newBuckets0| > 0 && bkt == e.hashv % |newBuckets0|
    requires forall b :: i < b < |chains| ==> Apart(chains[b], done + {e})
    modifies e`hhPrev, e`hhNext, done`hhPrev
    ensures Later(chains, buckets, s, i)
    ensures NewOk(newChains, newBuckets, done + {e}, ideal, nonideal) && |newBuckets| == |newBuckets0|
  {
    hide Placed, ChainOk, NewOk;
    newBuckets, newChains, nonideal := MoveOne(e, bkt, newBuckets0, newChains0, done, ideal, nonideal0);
    forall b | i < b < |chains| ensures ChainOk(chains[b], buckets[b]) {
      assert old(ChainOk(chains[b], buckets[b])) && Apart(chains[b], done + {e});
      forall j | 0 <= j < |chains[b]| ensures chains[b][j].hhPrev == old(chains[b][j].hhPrev) {
        assert chains[b][j] !in done + {e};
      }
    }
  }

  lemma {:induction false} LaterApart(chains: seq<seq<Entry>>, s: set<Entry>, i: nat, k: nat, done: set<Entry>)
    requires Placed(chains, s) && i < |chains| && k < |chains[i]| && Distinct(chains[i]) && Moved(chains, s, i, k, done)
    ensures chains[i][k] in s && chains[i][k] !in done && done <= s
    ensures forall b :: i < b < |chains| ==> Apart(chains[b], done + {chains[i][k]})
  {
    NotMoved(chains, s, i, k, done);
    hide Placed, Distinct;
  }

  /** Moves the k-th element of chain i; the ones behind it and the later chains are not touched. */
  method MoveNext(buckets: seq<Bucket>, ghost chains: seq<seq<Entry>>, ghost s: set<Entry>, i: nat, ghost k: nat,
                  e: Entry, ghost l: nat, newBuckets0: seq<Bucket>, ghost newChains0: seq<seq<Entry>>,
                  ghost done: set<Entry>, ideal: nat, nonideal0: nat)
    returns (newBuckets: seq<Bucket>, ghost newChains: seq<seq<Entry>>, nonideal: nat)
    requires |chains| == |buckets| && Placed(chains, s) && i < |chains| && 2 * |buckets| == Pow2(l)
    requires k < |chains[i]| && e == chains[i][k] && Distinct(chains[i]) && Ahead(chains[i], k)
    requires Moved(chains, s, i, k, done) && Later(chains, buckets, s, i)
    requires ideal > 0 && NewOk(newChains0, newBuckets0, done, ideal, nonideal0) && |newBuckets0| == 2 * |buckets|
    modifies s`hhPrev, s`hhNext
    ensures Ahead(chains[i], k + 1) && Moved(chains, s, i, k + 1, done + {e}) && Later(chains, buckets, s, i)
    ensures NewOk(newChains, newBuckets, done + {e}, ideal, nonideal) && |newBuckets| == 2 * |buckets|
  {
    hide Placed, ChainOk, Moved, NewOk, Later, Pow2, And, Distinct, Apart, At;
    LaterApart(chains, s, i, k, done);
    StillDistinct(chains[i], k);
    MovedNext(chains, s, i, k, done);
    MaskIsRemainder(e.hashv, l);
    var bkt := And(e.hashv, |buckets| * 2 - 1);
    newBuckets, newChains, nonideal :=
      MoveAway(buckets, chains, s, i, e, bkt, newBuckets0, newChains0, done, ideal, nonideal0);
  }

  /** Moves the elements of chain i, front to back. */
  method MoveChain(buckets: seq<Bucket>, ghost chains: seq<seq<Entry>>, ghost s: set<Entry>, i: nat, ghost l: nat,
                   newBuckets0: seq<Bucket>, ghost newChains0: seq<seq<Entry>>, ghost done0: set<Entry>,
                   ideal: nat, nonideal0: nat)
    returns (newBuckets: seq<Bucket>, ghost newChains: seq<seq<Entry>>, ghost done: set<Entry>, nonideal: nat)
    requires |chains| == |buckets| && Placed(chains, s) && i < |chains| && 2 * |buckets| == Pow2(l)
    requires Moved(chains, s, i, 0, done0) && Later(chains, buckets, s, i - 1)
    requires ideal > 0 && NewOk(newChains0, newBuckets0, done0, ideal, nonideal0) && |newBuckets0| == 2 * |buckets|
    modifies s`hhPrev, s`hhNext
    ensures Moved(chains, s, i + 1, 0, done) && Later(chains, buckets, s, i)
    ensures NewOk(newChains, newBuckets, done, ideal, nonideal) && |newBuckets| == 2 * |buckets|
  {
    newBuckets, newChains, done, nonideal := newBuckets0, newChains0, done0, nonideal0;
    ghost var chain, k := chains[i], 0;
    assert ChainOk(chain, buckets[i]);
    assert Ahead(chain, 0) && Distinct(chain) && Later(chains, buckets, s, i);
    hide Placed, ChainOk, Moved, NewOk, Pow2, Later, Distinct;
    var thh := buckets[i].hhHead;
    while thh != null
      invariant 0 <= k <= |chain| && thh == At(chain, k) && Ahead(chain, k)
      invariant Moved(chains, s, i, k, done) && Later(chains, buckets, s, i)
      invariant NewOk(newChains, newBuckets, done, ideal, nonideal) && |newBuckets| == 2 * |buckets|
      decreases |chain| - k
    {
      var next := thh.hhNext;
      newBuckets, newChains, nonideal :=
        MoveNext(buckets, chains, s, i, k, thh, l, newBuckets, newChains, done, ideal, nonideal);
      done := done + {thh};
      thh := next;
      k := k + 1;
    }
    MovedChain(chains, s, i, done);
  }

  lemma {:induction false} BucketFacts(chains: seq<seq<Entry>>, buckets: seq<Bucket>, s: set<Entry>)
    requires BucketsOk(chains, buckets, s)
    ensures |chains| == |buckets| && Placed(chains, s) && Later(chains, buckets, s, -1)
  {
  }

  /** Moves all elements of s into twice as many new buckets. */
  method Redistribute(
    buckets: seq<Bucket>, ghost chains: seq<seq<Entry>>, ghost s: set<Entry>, ideal: nat, ghost l: nat)
    returns (newBuckets: seq<Bucket>, ghost newChains: seq<seq<Entry>>, nonideal: nat)
    requires BucketsOk(chains, buckets, s) && ideal > 0 && 2 * |buckets| == Pow2(l)
    modifies s`hhPrev, s`hhNext
    ensures BucketsOk(newChains, newBuckets, s) && |newBuckets| == 2 * |buckets|
    ensures nonideal == Excess(newBuckets, ideal) && MultipliersOk(newBuckets, ideal)
  {
    hide Placed, ChainOk, Excess, MultipliersOk, Moved, Pow2, BucketsOk, Later;
    BucketFacts(chains, buckets, s);
    ghost var done: set<Entry> := {};
    newBuckets := seq(2 * |buckets|, _ => EMPTY_BUCKET);
    newChains := seq(2 * |buckets|, _ => []);
    nonideal := 0;
    var i := 0;
    EmptyBuckets(|buckets|, ideal);
    MovedNone(chains, s);
    while i < |buckets|
      invariant 0 <= i <= |buckets| && |newBuckets| == 2 * |buckets|
      invariant Moved(chains, s, i, 0, done) && Later(chains, buckets, s, i - 1)
      invariant NewOk(newChains, newBuckets, done, ideal, nonideal)
    {
      newBuckets, newChains, done, nonideal :=
        MoveChain(buckets, chains, s, i, l, newBuckets, newChains, done, ideal, nonideal);
      i := i + 1;
    }
    assert i == |chains|;
    MovedAll(chains, s, done);
  }

  lemma {:induction false} EmptyBuckets(n: nat, ideal: nat)
    requires ideal > 0 && n > 0
    ensures BucketsOk(seq(2 * n, _ => []), seq(2 * n, _ => EMPTY_BUCKET), {})
    ensures Excess(seq(2 * n, _ => EMPTY_BUCKET), ideal) == 0
    ensures MultipliersOk(seq(2 * n, _ => EMPTY_BUCKET), ideal)
  {
    ExcessEmpty(2 * n, ideal);
  }

  lemma {:induction false} MovedNone(chains: seq<seq<Entry>>, s: set<Entry>)
    requires |chains| > 0
    ensures Moved(chains, s, 0, 0, {})
  {
  }

  class Table {
    const hash: seq<Octet> -> nat
    var head: Entry?
    var tail: Entry?
    var numItems: nat
    var numBuckets: nat
    var log2NumBuckets: nat
    var buckets: seq<Bucket>
    var idealChainMaxlen: nat
    var nonidealItems: nat
    var ineffExpands: nat
    var noexpand: bool
    ghost var order: seq<Entry>
    ghost var chains: seq<seq<Entry>>

    ghost predicate ListOk() reads `head, `tail, `order, order`prev, order`next {
      && Distinct(order) && Linked(order) && head == At(order, 0)
      && (order != [] ==> tail == order[|order| - 1])
    }

    ghost predicate TableOk() reads `buckets, `numBuckets, `log2NumBuckets, `numItems, `order {
      |buckets| == numBuckets == Pow2(log2NumBuckets) && numItems == |order|
    }

    ghost predicate Hashed(s: set<Entry>) reads s`hashv {
      forall e :: e in s ==> e.hashv == hash(e.key)
    }

    lemma {:induction false} HashedAdd(s: set<Entry>, e: Entry)
      requires e.hashv == hash(e.key) && forall x :: x in s ==> x.hashv == hash(x.key)
      ensures Hashed(s + {e})
    {
    }

    lemma {:induction false} HashedPart(s: set<Entry>, t: set<Entry>)
      requires Hashed(s) && t <= s
      ensures Hashed(t)
    {
    }

    /** Remove elements there is no table. */
    ghost predicate Valid() reads this, order {
      && ListOk() && Hashed(Elements(order))
      && (head != null ==> TableOk() && BucketsOk(chains, buckets, Elements(order)))
    }

    constructor (hash: seq<Octet> -> nat)
      ensures Valid() && order == [] && this.hash == hash
    {
      this.hash := hash;
      head, tail, order, chains, buckets := null, null, [], [], [];
      numItems, numBuckets, log2NumBuckets := 0, 0, 0;
      idealChainMaxlen, nonidealItems, ineffExpands, noexpand := 0, 0, 0, false;
    }

    // ----- the list of all elements

    method AppendList(e: Entry)
      requires head != null && ListOk() && e !in order
      modifies this`tail, this`order, e`prev, e`next, order`next
      ensures ListOk() && order == old(order) + [e]
    {
      e.next := null;
      e.prev := tail;
      tail.next := e;
      tail := e;
      order := order + [e];
    }

    /** Unlinks the i-th element; there are others. */
    method RemoveFromList(e: Entry, ghost i: nat)
      requires ListOk() && i < |order| && order[i] == e && |order| > 1
      modifies this`head, this`tail, this`order, order`prev, order`next
      ensures ListOk() && order == Remove(old(order), i) && head != null
    {
      hide Distinct, Linked, Remove;
      ListEnds(i);
      RemoveLength(order, i);
      if e == tail {
        tail := e.prev;
      }
      if e.prev == null {
        head := e.next;
      }
      UnlinkElement(e, order, i);
      RemoveElements(order, i);
      LinkedRemove(order, i);
      RemoveAt(order, i, 0);
      RemoveAt(order, i, |order| - 2);
      order := Remove(order, i);
    }

    lemma {:induction false} ListEnds(i: nat)
      requires ListOk() && i < |order| && |order| > 1
      ensures Distinct(order) && Linked(order)
      ensures order[i] == tail <==> i == |order| - 1
      ensures order[i].prev == At(order, i - 1) && order[i].next == At(order, i + 1) && head == At(order, 0)
    {
    }

    static method UnlinkElement(e: Entry, ghost list: seq<Entry>, ghost i: nat)
      requires Distinct(list) && Linked(list) && i < |list| && list[i] == e
      modifies list`prev, list`next
      ensures forall k {:trigger list[k].next} ::
      0 <= k < |list| ==> list[k].next == At(list, if k == i - 1 then i + 1 else k + 1)
      ensures forall k {:trigger list[k].prev} ::
      0 <= k < |list| ==> list[k].prev == At(list, if k == i + 1 then i - 1 else k - 1)
    {
      if e.prev != null {
        e.prev.next := e.next;
      }
      if e.next != null {
        e.next.prev := e.prev;
      }
    }

    // ----- the chains

    /** One more element is too much for the bucket: it gets ten times as long as its multiplier plus one says. */
    ghost predicate TooLong(e: Entry) reads this, e {
      !noexpand && 0 < numBuckets && e.hashv % numBuckets < |buckets| &&
      var b := buckets[e.hashv % numBuckets];
      b.count + 1 >= 10 * (b.expandMult + 1)
    }

    /** The chains with e at the front of its own */
    ghost function PutFirst(e: Entry): seq<seq<Entry>> reads this, e {
      if 0 < numBuckets == |chains| then
        var k := e.hashv % numBuckets;
        chains[k := [e] + chains[k]]
      else chains
    }

    /** Adds an element to the chain of its bucket, and doubles the buckets if that gets too long. */
    method AddToBkt(e: Entry, ghost s: set<Entry>)
      requires TableOk() && BucketsOk(chains, buckets, s) && e !in s && |order| > 0
      modifies this`buckets, this`chains, this`numBuckets, this`log2NumBuckets
      modifies this`idealChainMaxlen, this`nonidealItems, this`ineffExpands, this`noexpand
      modifies e`hhPrev, e`hhNext, s`hhPrev, s`hhNext
      ensures TableOk() && BucketsOk(chains, buckets, s + {e})
      ensures if old(TooLong(e)) then
                && numBuckets == 2 * old(numBuckets) && IsCeiling(idealChainMaxlen, numItems, numBuckets)
                && ineffExpands == (if nonidealItems > numItems / 2 then old(ineffExpands) + 1 else 0)
                && noexpand == (ineffExpands > 1)
              else
                && numBuckets == old(numBuckets) && noexpand == old(noexpand)
                && |old(chains)| == numBuckets && chains == old(PutFirst(e))
    {
      hide BucketsOk, Pow2, And, IsCeiling;
      BucketCount(chains, buckets, s);
      MaskIsRemainder(e.hashv, log2NumBuckets);
      var bkt := And(e.hashv, numBuckets - 1);
      buckets, chains := AddToChain(e, bkt, buckets, chains, s);
      if buckets[bkt].count >= (buckets[bkt].expandMult + 1) * HASH_BKT_CAPACITY_THRESH && !noexpand {
        ExpandBuckets(s + {e});
      }
    }

    /** Doubles the number of buckets and moves every element to its new bucket. */
    method ExpandBuckets(ghost s: set<Entry>)
      requires TableOk() && BucketsOk(chains, buckets, s) && |order| > 0
      modifies this`buckets, this`chains, this`numBuckets, this`log2NumBuckets
      modifies this`idealChainMaxlen, this`nonidealItems, this`ineffExpands, this`noexpand
      modifies s`hhPrev, s`hhNext
      ensures TableOk() && BucketsOk(chains, buckets, s) && numBuckets == 2 * old(numBuckets)
      ensures idealChainMaxlen > 0 && IsCeiling(idealChainMaxlen, numItems, numBuckets)
      ensures nonidealItems == Excess(buckets, idealChainMaxlen) && MultipliersOk(buckets, idealChainMaxlen)
      ensures ineffExpands == (if nonidealItems > numItems / 2 then old(ineffExpands) + 1 else 0)
      ensures noexpand == (old(noexpand) || ineffExpands > 1)
    {
      hide BucketsOk, Pow2, And, ShiftRight, Excess, MultipliersOk, IsCeiling;
      ShiftAndMaskRoundUp(numItems, log2NumBuckets + 1);
      assert Pow2(log2NumBuckets + 1) == 2 * numBuckets by {
        DoublePow2(log2NumBuckets);
      }
      idealChainMaxlen :=
        ShiftRight(numItems, log2NumBuckets + 1) + if And(numItems, numBuckets * 2 - 1) != 0 then 1 else 0;
      CeilingPositive(idealChainMaxlen, numItems, 2 * numBuckets);
      BucketCount(chains, buckets, s);
      buckets, chains, nonidealItems :=
        Redistribute(buckets, chains, s, idealChainMaxlen, log2NumBuckets + 1);
      numBuckets := numBuckets * 2;
      log2NumBuckets := log2NumBuckets + 1;
      ineffExpands := if nonidealItems > numItems / 2 then ineffExpands + 1 else 0;
      if ineffExpands > 1 {
        noexpand := true;
      }
    }

    /** Removes the i-th element of a chain. */
    method DelInBkt(e: Entry, bkt: nat, ghost i: nat, ghost s: set<Entry>)
      requires BucketsOk(chains, buckets, s) && bkt < |buckets| && i < |chains[bkt]| && chains[bkt][i] == e
      modifies this`buckets, this`chains, s`hhPrev, s`hhNext
      ensures BucketsOk(chains, buckets, s - {e}) && |buckets| == old(|buckets|)
    {
      hide Placed, ChainOk, Distinct, Remove;
      ChainIsOk(chains, buckets, s, bkt);
      PlacedRemove(chains, s, bkt, i);
      PlacedInside(chains, s);
      forall c | 0 <= c < |chains| && c != bkt ensures Elements(chains[bkt]) !! Elements(chains[c]) {
        ChainsDisjoint(chains, s, bkt, c);
      }
      var b := Unlink(e, buckets[bkt], chains[bkt], i);
      forall c | 0 <= c < |chains| && c != bkt ensures ChainOk(chains[c], buckets[c]) {
        assert old(ChainOk(chains[c], buckets[c]));
        forall k | 0 <= k < |chains[c]|
          ensures chains[c][k].hhPrev == old(chains[c][k].hhPrev) && chains[c][k].hhNext == old(chains[c][k].hhNext)
        {
          assert chains[c][k] in Elements(chains[c]);
        }
      }
      buckets := buckets[bkt := b];
      chains := chains[bkt := Remove(chains[bkt], i)];
    }

    // ----- the operations

    /** Finds an element with the key. */
    method Find(key: seq<Octet>) returns (r: Entry?)
      requires Valid()
      ensures r != null ==> r in order && r.key == key
      ensures r == null ==> forall k :: 0 <= k < |order| ==> order[k].key != key
    {
      if head == null {
        return null;
      }
      var hashv := hash(key);
      MaskIsRemainder(hashv, log2NumBuckets);
      var bkt := And(hashv, numBuckets - 1);
      assert |chains| == |buckets| == numBuckets;
      ghost var chain, k := chains[bkt], 0;
      assert ChainOk(chain, buckets[bkt]);
      hide And, Pow2, ChainOk, Distinct, Linked;
      r := buckets[bkt].hhHead;
      while r != null
        invariant 0 <= k <= |chain| && r == At(chain, k)
        invariant forall j :: 0 <= j < k ==> chain[j].key != key
        decreases |chain| - k
      {
        if r.hashv == hashv && |r.key| == |key| {
          if r.key == key {
            assert chain[k] in Elements(order);
            return;
          }
        }
        ChainNext(chain, buckets[bkt], k);
        r := r.hhNext;
        k := k + 1;
      }
      NotInChain(key, bkt);
    }

    lemma {:induction false} NotInChain(key: seq<Octet>, bkt: nat)
      requires Valid() && head != null && bkt < |chains| && bkt == hash(key) % |chains|
      requires forall j :: 0 <= j < |chains[bkt]| ==> chains[bkt][j].key != key
      ensures forall k :: 0 <= k < |order| ==> order[k].key != key
    {
      forall k | 0 <= k < |order| ensures order[k].key != key {
        var e := order[k];
        assert e in Elements(order);
        assert e in chains[e.hashv % |chains|];
      }
    }

    /** Adds an element at the end. */
    method Add(e: Entry)
      requires Valid() && e !in order
      modifies this, e`hashv, e`prev, e`next, e`hhPrev, e`hhNext, order`next, order`hhPrev, order`hhNext
      ensures Valid() && order == old(order) + [e]
    {
      if head == null {
        AddFirst(e);
      } else {
        AddMore(e);
      }
    }

    method AddFirst(e: Entry)
      requires Valid() && head == null
      modifies this, e`hashv, e`prev, e`next, e`hhPrev, e`hhNext
      ensures Valid() && order == [e]
    {
      hide BucketsOk, Pow2;
      e.hashv := hash(e.key);
      e.next := null;
      e.prev := null;
      head := e;
      order := [];
      MakeTable();
      assert Elements(order) == {} + {e};
      AddHandle(e, {});
    }

    method AddMore(e: Entry)
      requires Valid() && e !in order && head != null
      modifies this, e`hashv, e`prev, e`next, e`hhPrev, e`hhNext, order`next, order`hhPrev, order`hhNext
      ensures Valid() && order == old(order) + [e]
    {
      ghost var s := Elements(order);
      assert e !in s && TableOk() && |order| > 0 && forall x :: x in s ==> x.hashv == hash(x.key);
      hide BucketsOk, Pow2, ListOk, Hashed;
      e.hashv := hash(e.key);
      HashedAdd(s, e);
      AppendList(e);
      assert Elements(order) == s + {e};
      AddHandle(e, s);
    }

    /** Counts an element that is in the list already and adds it to its chain. */
    method AddHandle(e: Entry, ghost s: set<Entry>)
      requires ListOk() && Hashed(s + {e}) && e !in s && Elements(order) == s + {e} && head != null
      requires |buckets| == numBuckets == Pow2(log2NumBuckets) && numItems + 1 == |order|
      requires BucketsOk(chains, buckets, s)
      modifies `numItems, `buckets, `chains, `numBuckets, `log2NumBuckets
      modifies `idealChainMaxlen, `nonidealItems, `ineffExpands, `noexpand
      modifies e`hhPrev, e`hhNext, s`hhPrev, s`hhNext
      ensures Valid()
    {
      hide BucketsOk, Pow2, ListOk, Hashed;
      numItems := numItems + 1;
      AddToBkt(e, s);
    }

    /** An empty table around the head. */
    method MakeTable()
      requires head != null && order == [] && head.prev == null && head.next == null
      modifies this
      ensures head == old(head) && order == [head] && ListOk()
      ensures |buckets| == numBuckets == Pow2(log2NumBuckets) && numItems == 0 && BucketsOk(chains, buckets, {})
    {
      hide BucketsOk, Excess, MultipliersOk;
      assert Pow2(5) == 32;
      EmptyBuckets(16, 1);
      tail := head;
      order := [head];
      numItems := 0;
      numBuckets := HASH_INITIAL_NUM_BUCKETS;
      log2NumBuckets := HASH_INITIAL_NUM_BUCKETS_LOG2;
      buckets := seq(HASH_INITIAL_NUM_BUCKETS, _ => EMPTY_BUCKET);
      chains := seq(HASH_INITIAL_NUM_BUCKETS, _ => []);
      idealChainMaxlen, nonidealItems, ineffExpands, noexpand := 0, 0, 0, false;
    }

    /** Removes the i-th element. */
    method Delete(e: Entry, ghost i: nat)
      requires Valid() && i < |order| && order[i] == e
      modifies this, order`prev, order`next, order`hhPrev, order`hhNext
      ensures Valid() && order == Remove(old(order), i)
    {
      LastOne(e, i);
      if e.prev == null && e.next == null {
        head := null;
        order := [];
      } else {
        DeleteOne(e, i);
      }
    }

    lemma {:induction false} LastOne(e: Entry, i: nat)
      requires ListOk() && i < |order| && order[i] == e
      ensures e.prev == null && e.next == null <==> |order| == 1
    {
    }

    method DeleteOne(e: Entry, ghost i: nat)
      requires Valid() && i < |order| && order[i] == e && |order| > 1
      modifies this, order`prev, order`next, order`hhPrev, order`hhNext
      ensures Valid() && order == Remove(old(order), i)
    {
      ghost var s := Elements(order);
      assert TableOk() && BucketsOk(chains, buckets, s) && Distinct(order);
      assert e in s && e.hashv % |chains| < |chains| == |buckets| && e in chains[e.hashv % |chains|];
      hide BucketsOk, Pow2, ListOk, Hashed;
      RemoveElements(order, i);
      HashedPart(s, s - {e});
      RemoveFromList(e, i);
      DeleteHandle(e, s);
    }

    /** Takes an element that is no longer in the list out of its chain. */
    method DeleteHandle(e: Entry, ghost s: set<Entry>)
      requires ListOk() && Hashed(s - {e}) && e in s && Elements(order) == s - {e} && head != null
      requires |buckets| == numBuckets == Pow2(log2NumBuckets) && numItems == |order| + 1
      requires BucketsOk(chains, buckets, s)
      requires e.hashv % |buckets| < |chains| && e in chains[e.hashv % |buckets|]
      modifies `numItems, `buckets, `chains, s`hhPrev, s`hhNext
      ensures Valid()
    {
      hide BucketsOk, Pow2, ListOk, Hashed, And;
      MaskIsRemainder(e.hashv, log2NumBuckets);
      var bkt := And(e.hashv, numBuckets - 1);
      ghost var j :| 0 <= j < |chains[bkt]| && chains[bkt][j] == e;
      DelInBkt(e, bkt, j, s);
      numItems := numItems - 1;
    }
  }

  lemma {:induction false} ChainNext(chain: seq<Entry>, bucket: Bucket, k: nat)
    requires ChainOk(chain, bucket) && k < |chain|
    ensures chain[k].hhNext == At(chain, k + 1)
  {
  }

  // ----- counts

  function TotalCount(buckets: seq<Bucket>): nat {
    if buckets == [] then 0 else TotalCount(buckets[..|buckets| - 1]) + buckets[|buckets| - 1].count
  }

  lemma {:induction false} ElementsCount(list: seq<Entry>)
    requires Distinct(list)
    ensures |Elements(list)| == |list|
  {
    if list != [] {
      var n := |list| - 1;
      ElementsCount(list[..n]);
      assert Elements(list) == Elements(list[..n]) + {list[n]};
    }
  }

  ghost function InFirst(s: set<Entry>, n: nat, b: nat): set<Entry>
    requires n > 0
    reads s`hashv
  {
    set e | e in s && e.hashv % n < b
  }

  lemma {:induction false} CountPrefix(chains: seq<seq<Entry>>, buckets: seq<Bucket>, s: set<Entry>, b: nat)
    requires BucketsOk(chains, buckets, s) && b <= |buckets|
    ensures TotalCount(buckets[..b]) == |InFirst(s, |buckets|, b)|
  {
    if b > 0 {
      CountPrefix(chains, buckets, s, b - 1);
      assert buckets[..b][..b - 1] == buckets[..b - 1];
      ChainCount(chains, buckets, s, b - 1);
      InNext(chains, s, b - 1);
      hide InFirst, Placed, Elements;
    }
  }

  lemma {:induction false} ChainCount(chains: seq<seq<Entry>>, buckets: seq<Bucket>, s: set<Entry>, b: nat)
    requires BucketsOk(chains, buckets, s) && b < |buckets|
    ensures |Elements(chains[b])| == buckets[b].count
  {
    assert ChainOk(chains[b], buckets[b]);
    ElementsCount(chains[b]);
  }

  lemma {:induction false} InNext(chains: seq<seq<Entry>>, s: set<Entry>, b: nat)
    requires Placed(chains, s) && b < |chains|
    ensures InFirst(s, |chains|, b + 1) == InFirst(s, |chains|, b) + Elements(chains[b])
    ensures InFirst(s, |chains|, b) !! Elements(chains[b])
  {
    forall e ensures e in InFirst(s, |chains|, b + 1) <==> e in InFirst(s, |chains|, b) + Elements(chains[b]) {
      assert e in s ==> e in chains[e.hashv % |chains|];
    }
  }

  /** The bucket counts add up to the number of elements in the list. */
  lemma {:induction false} CountsAddUp(t: Table)
    requires t.Valid() && t.head != null
    ensures TotalCount(t.buckets) == t.numItems == |t.order|
  {
    var s := Elements(t.order);
    CountPrefix(t.chains, t.buckets, s, |t.buckets|);
    ElementsCount(t.order);
    assert t.buckets[..|t.buckets|] == t.buckets;
    assert InFirst(s, |t.buckets|, |t.buckets|) == s;
  }
}
