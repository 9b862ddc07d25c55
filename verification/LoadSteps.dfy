/**
 Loading records one after the other, as steps of a cache. Nothing makes a file keep the format's guarantee: a record
 may refer to a later one, repeat another, or have two equal children. The steps say for which files the cache is
 kept intact.
 */
module LoadSteps {
  import opened NodeGraph
  import opened CacheState
  import opened FileFormat
  import opened SavedOrder

  /** A cache, and the node ids of the records so far */
  datatype Loading = Loading(s: State, ids: seq<NodeId>)

  /** The node id of a pointer; that of a record to come is the empty entry of the table, which is id 0. */
  function IdFor(ids: seq<NodeId>, ser: int): NodeId {
    if ser >= 0 then Terminal(ser)
    else if -1 - ser < |ids| then ids[-1 - ser]
    else Nonterminal(0)
  }

  function NextKey(l: Loading, rec: Rec): Key {
    Key(rec.variable, IdFor(l.ids, rec.low), IdFor(l.ids, rec.high))
  }

  predicate Intact(l: Loading, rec: Rec) {
    Safe(l.s, NextKey(l, rec))
  }

  datatype Step = Damage | Next(l: Loading)

  /** One record */
  ghost function LoadOne(l: Loading, rec: Rec): (r: Step)
    requires Valid(l.s) && Settled(l.s)
    ensures r.Next? ==> Valid(r.l.s) && Settled(r.l.s) && |r.l.ids| == |l.ids| + 1
  {
    if Intact(l, rec) then
      MadeOk(l.s, NextKey(l, rec));
      var made := Made(l.s, NextKey(l, rec));
      Next(Loading(made.0, l.ids + [made.1]))
    else Damage
  }

  lemma {:induction false} OneStep(l: Loading, rec: Rec)
    requires Valid(l.s) && Settled(l.s)
    ensures var key := Key(rec.variable, IdFor(l.ids, rec.low), IdFor(l.ids, rec.high));
            LoadOne(l, rec)
            == if Safe(l.s, key) then Next(Loading(Made(l.s, key).0, l.ids + [Made(l.s, key).1])) else Damage
  {
  }

  /** All records; damage cannot be repaired. */
  ghost function LoadAll(s: State, rs: seq<Rec>): (r: Step)
    requires Valid(s) && Settled(s)
    ensures r.Next? ==> Valid(r.l.s) && Settled(r.l.s) && |r.l.ids| == |rs|
  {
    if rs == [] then Next(Loading(s, []))
    else
      match LoadAll(s, rs[..|rs| - 1])
      case Damage => Damage
      case Next(l) => LoadOne(l, rs[|rs| - 1])
  }

  lemma {:induction false} LoadAllNext(s: State, rs: seq<Rec>, i: nat)
    requires Valid(s) && Settled(s) && i < |rs|
    ensures LoadAll(s, rs[..i + 1])
         == match LoadAll(s, rs[..i])
            case Damage => Damage
            case Next(l) => LoadOne(l, rs[i])
  {
    assert rs[..i + 1][..i] == rs[..i];
  }

  lemma {:induction false} DamageStays(s: State, rs: seq<Rec>, i: nat)
    requires Valid(s) && Settled(s) && i <= |rs| && LoadAll(s, rs[..i]) == Damage
    ensures LoadAll(s, rs) == Damage
    decreases |rs| - i
  {
    if i < |rs| {
      LoadAllNext(s, rs, i);
      DamageStays(s, rs, i + 1);
    } else {
      assert rs[..i] == rs;
    }
  }

  // ----- files that keep the guarantee

  /** Each record has become the node with its own number, with a reference count of one. */
  ghost predicate AsWritten(l: Loading, rs: seq<Rec>)
    requires FormatOk(rs)
  {
    && l.s.graph == GraphOf(rs) && l.s.free == [] && |l.s.nodes| == |rs|
    && (forall k :: 0 <= k < |rs| ==> l.s.nodes[k].refcount == 1)
    && l.ids == seq(|rs|, k requires 0 <= k < |rs| => Nonterminal(k))
  }

  /** A file that keeps the format's guarantee is loaded into an empty cache without damage. */
  lemma {:induction false} FormatLoads(s: State, rs: seq<Rec>)
    requires Valid(s) && Settled(s) && s.graph == [] && s.free == [] && FormatOk(rs)
    ensures LoadAll(s, rs).Next? && AsWritten(LoadAll(s, rs).l, rs)
  {
    if rs != [] {
      var n := |rs| - 1;
      FormatPrefix(rs, n);
      FormatLoads(s, rs[..n]);
      assert rs[..n + 1] == rs;
      NextAsWritten(LoadAll(s, rs[..n]).l, rs);
    }
  }

  lemma {:induction false} NextAsWritten(l: Loading, rs: seq<Rec>)
    requires rs != [] && FormatOk(rs) && FormatOk(rs[..|rs| - 1]) && Valid(l.s) && Settled(l.s)
    requires AsWritten(l, rs[..|rs| - 1])
    ensures var r := LoadOne(l, rs[|rs| - 1]); r.Next? && AsWritten(r.l, rs)
  {
    hide NodesOk, FreeOk, TableOk, GraphOk, Settled, FormatOk, KeyOk, KeyOf, Fill, NextIndex, GraphOf;
    var n := |rs| - 1;
    var rec := rs[n];
    FormatPrefix(rs, n);
    assert rs[..n + 1] == rs;
    NextKeyOk(rs, n);
    NextKeyOf(l, rs);
    NotInTable(l.s, KeyOf(rec));
    FillAtEnd(l.s, KeyOf(rec));
    assert LoadOne(l, rec) == Next(Loading(Fill(l.s, KeyOf(rec)), l.ids + [Nonterminal(n)]));
  }

  lemma {:induction false} NextKeyOf(l: Loading, rs: seq<Rec>)
    requires rs != [] && FormatOk(rs) && FormatOk(rs[..|rs| - 1]) && AsWritten(l, rs[..|rs| - 1])
    ensures NextKey(l, rs[|rs| - 1]) == KeyOf(rs[|rs| - 1])
    ensures KeyOf(rs[|rs| - 1]).low != KeyOf(rs[|rs| - 1]).high
  {
    hide FormatOk;
    RefsBefore(rs, |rs| - 1);
  }

  lemma {:induction false} RefsBefore(rs: seq<Rec>, i: nat)
    requires FormatOk(rs) && i < |rs|
    ensures rs[i].low < 0 ==> -1 - rs[i].low < i
    ensures rs[i].high < 0 ==> -1 - rs[i].high < i
    ensures rs[i].low != rs[i].high
  {
    assert RefOk(rs, i, rs[i].low) && RefOk(rs, i, rs[i].high);
  }

  // ----- files that do not

  /** The first record of all the examples: a test of variable 1 with terminals. */
  const LEAF: Rec := Rec(1, 0, 1)

  lemma {:induction false} LeafLoads(s: State) returns (l: Loading)
    requires Valid(s) && Settled(s) && s.graph == [] && s.free == []
    ensures LoadAll(s, [LEAF]) == Next(l) && Valid(l.s) && Settled(l.s) && l.ids == [Nonterminal(0)]
    ensures l.s.graph == [Live(Key(1, Terminal(0), Terminal(1)))] && l.s.free == []
    ensures |l.s.nodes| == 1 && l.s.nodes[0].refcount == 1
  {
    FormatLoads(s, [LEAF]);
    l := LoadAll(s, [LEAF]).l;
  }

  /** One more record after those that have been loaded */
  lemma {:induction false} LoadedThen(s: State, rs: seq<Rec>, l: Loading, rec: Rec)
    requires Valid(s) && Settled(s) && LoadAll(s, rs) == Next(l)
    ensures Valid(l.s) && Settled(l.s)
    ensures LoadAll(s, rs + [rec])
         == if Intact(l, rec)
            then Next(Loading(Made(l.s, NextKey(l, rec)).0, l.ids + [Made(l.s, NextKey(l, rec)).1])) else Damage
  {
    LoadAllNext(s, rs + [rec], |rs|);
    assert (rs + [rec])[..|rs|] == rs && (rs + [rec])[..|rs| + 1] == rs + [rec];
  }

  lemma {:induction false} InTable(s: State, i: nat)
    requires Valid(s) && i < |s.graph| && s.graph[i].Live?
    ensures s.graph[i].key in s.table && s.table[s.graph[i].key] == Nonterminal(i)
  {
  }

  /** A record with two equal children releases the child, although it is the node that the record stands for. */
  lemma {:induction false} RedundantDamages(s: State)
    requires Valid(s) && Settled(s) && s.graph == [] && s.free == []
    ensures LoadAll(s, [LEAF] + [Rec(0, -1, -1)]) == Damage
  {
    hide LoadAll, Valid, Settled, Made;
    var l := LeafLoads(s);
    LoadedThen(s, [LEAF], l, Rec(0, -1, -1));
    assert NextKey(l, Rec(0, -1, -1)) == Key(0, Nonterminal(0), Nonterminal(0));
  }

  /** A node above the first one */
  const ABOVE: Rec := Rec(0, 0, -1)

  lemma {:induction false} AboveLoads(s: State) returns (l: Loading)
    requires Valid(s) && Settled(s) && s.graph == [] && s.free == []
    ensures LoadAll(s, [LEAF, ABOVE]) == Next(l) && Valid(l.s) && Settled(l.s)
    ensures l.ids == [Nonterminal(0), Nonterminal(1)] && |l.s.nodes| == 2 && l.s.nodes[0].refcount == 1
    ensures |l.s.graph| == 2 && l.s.graph[1] == Live(Key(0, Terminal(0), Nonterminal(0)))
  {
    hide LoadAll, Valid, Settled;
    FormatLoads(s, [LEAF, ABOVE]);
    l := LoadAll(s, [LEAF, ABOVE]).l;
    assert l.s.graph[1] == GraphOf([LEAF, ABOVE])[1];
  }

  /** A record that repeats another releases its child, although the first one still has it. */
  lemma {:induction false} RepeatedDamages(s: State)
    requires Valid(s) && Settled(s) && s.graph == [] && s.free == []
    ensures LoadAll(s, [LEAF, ABOVE] + [ABOVE]) == Damage
  {
    hide LoadAll, Valid, Settled, Made;
    var l := AboveLoads(s);
    LoadedThen(s, [LEAF, ABOVE], l, ABOVE);
    InTable(l.s, 1);
    assert NextKey(l, ABOVE) == l.s.graph[1].key;
  }

  /** A record with a later variable above an earlier one breaks the order. */
  lemma {:induction false} UnorderedDamages(s: State)
    requires Valid(s) && Settled(s) && s.graph == [] && s.free == []
    ensures LoadAll(s, [LEAF] + [Rec(1, 0, -1)]) == Damage
  {
    hide LoadAll, Settled, Made, NodesOk, FreeOk, GraphOk;
    var l := LeafLoads(s);
    LoadedThen(s, [LEAF], l, Rec(1, 0, -1));
    assert NextKey(l, Rec(1, 0, -1)) == Key(1, Terminal(0), Nonterminal(0));
  }

  /** But repeating a record without nonterminal children does no harm, and gives the same node. */
  lemma {:induction false} RepeatedLeafLoads(s: State)
    requires Valid(s) && Settled(s) && s.graph == [] && s.free == []
    ensures var r := LoadAll(s, [LEAF] + [LEAF]);
            && r.Next? && r.l.ids == [Nonterminal(0), Nonterminal(0)]
            && r.l.s.graph == [Live(Key(1, Terminal(0), Terminal(1)))]
  {
    hide LoadAll, Valid, Settled;
    var l := LeafLoads(s);
    LoadedThen(s, [LEAF], l, LEAF);
    InTable(l.s, 0);
    assert NextKey(l, LEAF) == l.s.graph[0].key;
  }
}
