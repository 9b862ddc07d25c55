/**
 The tree of a text and the spans of its values: which value each span becomes, and how spans that enclose each other
 become parents and children.
 */
module JsonOutline {
  import opened Octets
  import opened Wrappers
  import opened JsonSteps
  import opened JsonNumbers
  import opened JsonGrammar
  import opened JsonTree

  // ----- where values begin

  /** The first characters of the value at i and of all values in it, in the order of the text */
  function ValueStarts(text: seq<Octet>, i: nat): (r: seq<nat>)
    ensures forall k :: 0 <= k < |r| ==> i <= r[k] < |text|
    decreases |text| - i, 0
  {
    if i >= |text| then []
    else if text[i] == 0x7b then [i] + MemberStarts(text, i + 1, Opened)
    else if text[i] == 0x5b then [i] + ElementStarts(text, i + 1, Opened)
    else [i]
  }

  function ItemStarts(text: seq<Octet>, i: nat): (r: seq<nat>)
    ensures forall k :: 0 <= k < |r| ==> i <= r[k] < |text|
    decreases |text| - i, 1
  {
    if i < |text| && IsWhitespace(text[i]) then ItemStarts(text, i + 1) else ValueStarts(text, i)
  }

  function ElementStarts(text: seq<Octet>, i: nat, place: Place): (r: seq<nat>)
    ensures forall k :: 0 <= k < |r| ==> i <= r[k] < |text|
    decreases |text| - i, 1
  {
    if i >= |text| || text[i] == 0x5d then []
    else if IsWhitespace(text[i]) then ElementStarts(text, i + 1, place)
    else if place == AfterItem then ElementStarts(text, i + 1, AfterComma)
    else
      match ValueEnd(PARSER, text, i)
      case None => []
      case Some(j) => ValueStarts(text, i) + ElementStarts(text, j, AfterItem)
  }

  function MemberStarts(text: seq<Octet>, i: nat, place: Place): (r: seq<nat>)
    ensures forall k :: 0 <= k < |r| ==> i <= r[k] < |text|
    decreases |text| - i, 1
  {
    if i >= |text| || text[i] == 0x7d then []
    else if IsWhitespace(text[i]) then MemberStarts(text, i + 1, place)
    else if place == AfterItem then MemberStarts(text, i + 1, AfterComma)
    else
      match QuotedEnd(PARSER, text, i + 1)
      case None => []
      case Some(j) => PairStarts(text, j)
  }

  function PairStarts(text: seq<Octet>, i: nat): (r: seq<nat>)
    ensures forall k :: 0 <= k < |r| ==> i <= r[k] < |text|
    decreases |text| - i, 1
  {
    if i >= |text| then []
    else if IsWhitespace(text[i]) then PairStarts(text, i + 1)
    else
      match ItemEnd(PARSER, text, i + 1)
      case None => []
      case Some(j) => ItemStarts(text, i + 1) + MemberStarts(text, j, AfterItem)
  }

  // ----- spans and values

  /** Where the span that begins at i ends */
  function EndOf(text: seq<Octet>, i: nat): nat {
    match ValueEnd(PARSER, text, i)
    case None => i
    case Some(j) => j
  }

  /** A value of the tree and the span that it comes from: everything about the value but its parent */
  ghost predicate Reads(text: seq<Octet>, i: nat, v: Value) {
    && i < |text| && ValueEnd(PARSER, text, i).Some?
    && (v.kind == Object <==> text[i] == 0x7b) && (v.kind == Array <==> text[i] == 0x5b)
    && (v.kind == String <==> text[i] == QUOTE) && (v.kind == Boolean <==> text[i] in {0x74, 0x66})
    && (v.kind == Null <==> text[i] == 0x6e)
    && (v.kind == Double ==> HasFraction(text[i..EndOf(text, i)]))
    && (v.kind == Integer ==> !HasFraction(text[i..EndOf(text, i)]))
    && v.length == (if v.kind == String then QuotedBytes(text, i + 1) else |v.slots|)
    && (v.kind in {Object, Array} || v.slots == [])
    && (v.kind == Object ==> Tiled(v))
  }

  /** The keys of an object take the memory for them, one after the other. */
  ghost predicate Tiled(v: Value) {
    && |v.names| == |v.slots| && (v.names != [] ==> v.names[0].offset == 0)
    && forall k :: 0 <= k < |v.names| ==> TileAt(v.names, k, v.keyBytes)
  }

  /** Values are numbered from n on, in the order of their spans, and those that are in no other of them are below a. */
  ghost predicate Laid(text: seq<Octet>, i: nat, j: nat, starts: seq<nat>, nodes: seq<Value>, a: int, n: nat) {
    && |starts| == |nodes| && a < n
    && forall k :: 0 <= k < |nodes| ==>
         Reads(text, starts[k], nodes[k]) && i <= starts[k] && EndOf(text, starts[k]) <= j
         && LaidAt(text, starts, nodes, a, n, k)
  }

  /**
   The parent of value k is the last one before it whose span has not ended before that of k begins, and has the span
   of k in it.
   */
  ghost predicate LaidAt(text: seq<Octet>, starts: seq<nat>, nodes: seq<Value>, a: int, n: nat, k: nat)
    requires k < |nodes| == |starts|
  {
    var q := nodes[k].parent;
    && (q == a || (n <= q < n + k && starts[q - n] < starts[k] && EndOf(text, starts[k]) <= EndOf(text, starts[q - n])))
    && forall m :: 0 <= m < k && n + m > q ==> EndOf(text, starts[m]) <= starts[k]
  }

  /** kids are the values below a, in order. */
  ghost predicate Kids(kids: seq<int>, nodes: seq<Value>, a: int, n: nat) {
    && (forall x, y :: 0 <= x < y < |kids| ==> kids[x] < kids[y])
    && (forall c :: c in kids <==> n <= c < n + |nodes| && nodes[c - n].parent == a)
  }

  /** The slots of every value are its children. */
  ghost predicate KidsOfAll(nodes: seq<Value>, n: nat) {
    forall k :: 0 <= k < |nodes| ==> Kids(nodes[k].slots, nodes, n + k, n)
  }

  /** All of it, for the values below a */
  ghost predicate Outline(
    text: seq<Octet>, i: nat, j: nat, starts: seq<nat>, kids: seq<int>, nodes: seq<Value>, a: int, n: nat)
  {
    Laid(text, i, j, starts, nodes, a, n) && KidsOfAll(nodes, n) && Kids(kids, nodes, a, n)
  }

  // ----- one value after the other

  lemma {:induction false} LaidThen(
    text: seq<Octet>, i: nat, m: nat, j: nat, starts: seq<nat>, nodes: seq<Value>,
    starts': seq<nat>, nodes': seq<Value>, a: int, n: nat)
    requires Laid(text, i, m, starts, nodes, a, n) && Laid(text, m, j, starts', nodes', a, n + |nodes|) && i <= m <= j
    ensures Laid(text, i, j, starts + starts', nodes + nodes', a, n)
  {
    hide Reads, EndOf, LaidAt;
    var ss, ns := starts + starts', nodes + nodes';
    forall k | 0 <= k < |ns|
      ensures Reads(text, ss[k], ns[k]) && i <= ss[k] && EndOf(text, ss[k]) <= j && LaidAt(text, ss, ns, a, n, k)
    {
      if k < |nodes| {
        LaidEarlier(text, starts, nodes, starts', nodes', a, n, k);
      } else {
        assert ss[k] == starts'[k - |nodes|] && ns[k] == nodes'[k - |nodes|];
        LaidLater(text, i, m, j, starts, nodes, starts', nodes', a, n, k - |nodes|);
      }
    }
  }

  lemma {:induction false} LaidEarlier(
    text: seq<Octet>, starts: seq<nat>, nodes: seq<Value>, starts': seq<nat>, nodes': seq<Value>,
    a: int, n: nat, k: nat)
    requires |starts| == |nodes| && |starts'| == |nodes'| && k < |nodes| && LaidAt(text, starts, nodes, a, n, k)
    ensures LaidAt(text, starts + starts', nodes + nodes', a, n, k)
  {
    hide EndOf;
    var ss := starts + starts';
    forall l | 0 <= l < k && n + l > nodes[k].parent ensures EndOf(text, ss[l]) <= ss[k] {
      assert ss[l] == starts[l];
    }
  }

  lemma {:induction false} LaidLater(
    text: seq<Octet>, i: nat, m: nat, j: nat, starts: seq<nat>, nodes: seq<Value>,
    starts': seq<nat>, nodes': seq<Value>, a: int, n: nat, k: nat)
    requires Laid(text, i, m, starts, nodes, a, n) && Laid(text, m, j, starts', nodes', a, n + |nodes|)
    requires k < |nodes'|
    ensures LaidAt(text, starts + starts', nodes + nodes', a, n, |nodes| + k)
  {
    hide Reads, EndOf;
    LaterAt(text, m, starts, nodes, starts', nodes', a, n, k);
  }

  lemma {:induction false} LaterAt(
    text: seq<Octet>, m: nat, starts: seq<nat>, nodes: seq<Value>, starts': seq<nat>, nodes': seq<Value>,
    a: int, n: nat, k: nat)
    requires |starts| == |nodes| && |starts'| == |nodes'| && k < |nodes'| && a < n && m <= starts'[k]
    requires forall l :: 0 <= l < |starts| ==> EndOf(text, starts[l]) <= m
    requires LaidAt(text, starts', nodes', a, n + |nodes|, k)
    ensures LaidAt(text, starts + starts', nodes + nodes', a, n, |nodes| + k)
  {
    hide EndOf;
    var ss, q := starts + starts', nodes'[k].parent;
    assert ss[|nodes| + k] == starts'[k] && (nodes + nodes')[|nodes| + k] == nodes'[k];
    forall l | 0 <= l < |nodes| + k && n + l > q ensures EndOf(text, ss[l]) <= ss[|nodes| + k] {
      if l >= |nodes| {
        assert ss[l] == starts'[l - |nodes|];
      }
    }
    if q != a {
      assert ss[q - n] == starts'[q - (n + |nodes|)];
    }
  }

  lemma {:induction false} ParentsWithin(
    text: seq<Octet>, i: nat, j: nat, starts: seq<nat>, nodes: seq<Value>, a: int, n: nat, k: nat)
    requires Laid(text, i, j, starts, nodes, a, n) && k < |nodes|
    ensures a < n && (nodes[k].parent == a || n <= nodes[k].parent < n + k)
  {
    assert LaidAt(text, starts, nodes, a, n, k);
  }

  lemma {:induction false} KidsThen(
    kids: seq<int>, nodes: seq<Value>, kids': seq<int>, nodes': seq<Value>, a: int, n: nat)
    requires Kids(kids, nodes, a, n) && Kids(kids', nodes', a, n + |nodes|)
    ensures Kids(kids + kids', nodes + nodes', a, n)
  {
    var ks, ns := kids + kids', nodes + nodes';
    forall x, y | 0 <= x < y < |ks| ensures ks[x] < ks[y] {
      assert x < |kids| ==> kids[x] in kids;
      assert y >= |kids| ==> kids'[y - |kids|] in kids';
    }
    forall c ensures c in ks <==> n <= c < n + |ns| && ns[c - n].parent == a {
      assert c in ks <==> c in kids || c in kids';
      if n + |nodes| <= c < n + |ns| {
        assert ns[c - n] == nodes'[c - (n + |nodes|)];
      }
    }
  }

  lemma {:induction false} KidsOfAllThen(
    text: seq<Octet>, i: nat, m: nat, j: nat, starts: seq<nat>, nodes: seq<Value>,
    starts': seq<nat>, nodes': seq<Value>, a: int, n: nat)
    requires Laid(text, i, m, starts, nodes, a, n) && Laid(text, m, j, starts', nodes', a, n + |nodes|)
    requires KidsOfAll(nodes, n) && KidsOfAll(nodes', n + |nodes|)
    ensures KidsOfAll(nodes + nodes', n)
  {
    hide Laid, Kids;
    var ns := nodes + nodes';
    forall k | 0 <= k < |ns| ensures Kids(ns[k].slots, ns, n + k, n) {
      if k < |nodes| {
        EarlierKids(text, i, m, j, starts, nodes, starts', nodes', a, n, k);
      } else {
        LaterKids(text, i, m, j, starts, nodes, starts', nodes', a, n, k - |nodes|);
      }
    }
  }

  lemma {:induction false} EarlierKids(
    text: seq<Octet>, i: nat, m: nat, j: nat, starts: seq<nat>, nodes: seq<Value>,
    starts': seq<nat>, nodes': seq<Value>, a: int, n: nat, k: nat)
    requires Laid(text, i, m, starts, nodes, a, n) && Laid(text, m, j, starts', nodes', a, n + |nodes|)
    requires k < |nodes| && Kids(nodes[k].slots, nodes, n + k, n)
    ensures Kids(nodes[k].slots, nodes + nodes', n + k, n)
  {
    hide Laid;
    ParentsWithin(text, i, m, starts, nodes, a, n, k);
    forall c | 0 <= c < |nodes'| ensures nodes'[c].parent != n + k {
      ParentsWithin(text, m, j, starts', nodes', a, n + |nodes|, c);
    }
    NoKids(nodes', n + k, n + |nodes|);
    hide Kids;
    KidsThen(nodes[k].slots, nodes, [], nodes', n + k, n);
    assert nodes[k].slots + [] == nodes[k].slots;
  }

  lemma {:induction false} LaterKids(
    text: seq<Octet>, i: nat, m: nat, j: nat, starts: seq<nat>, nodes: seq<Value>,
    starts': seq<nat>, nodes': seq<Value>, a: int, n: nat, k: nat)
    requires Laid(text, i, m, starts, nodes, a, n) && Laid(text, m, j, starts', nodes', a, n + |nodes|)
    requires k < |nodes'| && Kids(nodes'[k].slots, nodes', n + |nodes| + k, n + |nodes|)
    ensures Kids(nodes'[k].slots, nodes + nodes', n + |nodes| + k, n)
  {
    hide Laid;
    forall c | 0 <= c < |nodes| ensures nodes[c].parent != n + |nodes| + k {
      ParentsWithin(text, i, m, starts, nodes, a, n, c);
    }
    NoKids(nodes, n + |nodes| + k, n);
    hide Kids;
    KidsThen([], nodes, nodes'[k].slots, nodes', n + |nodes| + k, n);
    assert [] + nodes'[k].slots == nodes'[k].slots;
  }

  lemma {:induction false} NoKids(nodes: seq<Value>, a: int, n: nat)
    requires forall c :: 0 <= c < |nodes| ==> nodes[c].parent != a
    ensures Kids([], nodes, a, n)
  {
  }

  lemma {:induction false} OutlineThen(
    text: seq<Octet>, i: nat, m: nat, j: nat, starts: seq<nat>, kids: seq<int>, nodes: seq<Value>,
    starts': seq<nat>, kids': seq<int>, nodes': seq<Value>, a: int, n: nat)
    requires Outline(text, i, m, starts, kids, nodes, a, n) && i <= m <= j
    requires Outline(text, m, j, starts', kids', nodes', a, n + |nodes|)
    ensures Outline(text, i, j, starts + starts', kids + kids', nodes + nodes', a, n)
  {
    LaidThen(text, i, m, j, starts, nodes, starts', nodes', a, n);
    KidsOfAllThen(text, i, m, j, starts, nodes, starts', nodes', a, n);
    KidsThen(kids, nodes, kids', nodes', a, n);
  }

  // ----- a value around others

  lemma {:induction false} LaidAround(
    text: seq<Octet>, i: nat, h: nat, starts: seq<nat>, v: Value, nodes: seq<Value>, n: nat)
    requires Reads(text, i, v) && Laid(text, h, EndOf(text, i), starts, nodes, n, n + 1) && i < h && v.parent < n
    ensures Laid(text, i, EndOf(text, i), [i] + starts, [v] + nodes, v.parent, n)
  {
    hide Reads, EndOf, LaidAt;
    var ss, ns := [i] + starts, [v] + nodes;
    assert LaidAt(text, ss, ns, v.parent, n, 0) by {
      AloneAt(text, ss, ns, v.parent, n);
    }
    forall k | 0 <= k < |ns|
      ensures Reads(text, ss[k], ns[k]) && i <= ss[k] && EndOf(text, ss[k]) <= EndOf(text, i)
      ensures LaidAt(text, ss, ns, v.parent, n, k)
    {
      if k > 0 {
        assert LaidAt(text, starts, nodes, n, n + 1, k - 1);
        assert Reads(text, starts[k - 1], nodes[k - 1]);
        AroundAt(text, i, starts, v, nodes, n, k - 1);
      }
    }
  }

  lemma {:induction false} AloneAt(text: seq<Octet>, starts: seq<nat>, nodes: seq<Value>, a: int, n: nat)
    requires |starts| == |nodes| && nodes != [] && nodes[0].parent == a
    ensures LaidAt(text, starts, nodes, a, n, 0)
  {
  }

  lemma {:induction false} AroundAt(
    text: seq<Octet>, i: nat, starts: seq<nat>, v: Value, nodes: seq<Value>, n: nat, k: nat)
    requires |starts| == |nodes| && k < |nodes| && LaidAt(text, starts, nodes, n, n + 1, k)
    requires i < starts[k] && EndOf(text, starts[k]) <= EndOf(text, i) && v.parent < n
    ensures LaidAt(text, [i] + starts, [v] + nodes, v.parent, n, k + 1)
  {
    hide EndOf;
    var ss, ns := [i] + starts, [v] + nodes;
    forall m | 0 <= m < k + 1 && n + m > ns[k + 1].parent ensures EndOf(text, ss[m]) <= ss[k + 1] {
      assert ss[m] == starts[m - 1];
    }
    if nodes[k].parent != n {
      assert ss[nodes[k].parent - n] == starts[nodes[k].parent - (n + 1)];
    }
  }

  lemma {:induction false} KidsAround(
    text: seq<Octet>, h: nat, j: nat, starts: seq<nat>, v: Value, nodes: seq<Value>, n: nat)
    requires Laid(text, h, j, starts, nodes, n, n + 1) && KidsOfAll(nodes, n + 1) && Kids(v.slots, nodes, n, n + 1)
    requires v.parent < n
    ensures KidsOfAll([v] + nodes, n) && Kids([n], [v] + nodes, v.parent, n)
  {
    hide Laid;
    var ns := [v] + nodes;
    forall c | 0 <= c < |nodes| ensures n <= nodes[c].parent < n + 1 + c {
      ParentsWithin(text, h, j, starts, nodes, n, n + 1, c);
    }
    forall k | 0 <= k < |ns| ensures Kids(ns[k].slots, ns, n + k, n) {
      var slots := ns[k].slots;
      assert Kids(slots, nodes, n + k, n + 1) by {
        if k > 0 {
          assert Kids(nodes[k - 1].slots, nodes, (n + 1) + (k - 1), n + 1);
        }
      }
      NoKids([v], n + k, n);
      KidsThen([], [v], slots, nodes, n + k, n);
      assert [] + slots == slots;
    }
    NoKids(nodes, v.parent, n + 1);
    assert Kids([n], [v], v.parent, n);
    KidsThen([n], [v], [], nodes, v.parent, n);
    assert [n] + [] == [n];
  }

  lemma {:induction false} OutlineAround(
    text: seq<Octet>, i: nat, h: nat, starts: seq<nat>, v: Value, nodes: seq<Value>, n: nat)
    requires Reads(text, i, v) && Outline(text, h, EndOf(text, i), starts, v.slots, nodes, n, n + 1)
    requires i < h && v.parent < n
    ensures Outline(text, i, EndOf(text, i), [i] + starts, [n], [v] + nodes, v.parent, n)
  {
    LaidAround(text, i, h, starts, v, nodes, n);
    KidsAround(text, h, EndOf(text, i), starts, v, nodes, n);
  }

  /** A value without others in it */
  lemma {:induction false} OutlineAlone(text: seq<Octet>, i: nat, v: Value, n: nat)
    requires Reads(text, i, v) && v.slots == [] && v.parent < n
    ensures Outline(text, i, EndOf(text, i), [i], [n], [v], v.parent, n)
  {
    hide Reads;
    assert LaidAt(text, [i], [v], v.parent, n, 0);
  }

  // ----- whole texts

  lemma {:induction false} ValueOutline(text: seq<Octet>, i: nat, p: int, n: nat)
    requires ValueEnd(PARSER, text, i).Some? && p < n
    ensures Outline(text, i, EndOf(text, i), ValueStarts(text, i), [n], ValueNodes(text, i, p, n), p, n)
    decreases |text| - i, 0
  {
    hide Outline;
    var b := text[i];
    var nodes := ValueNodes(text, i, p, n);
    ValueReads(text, i, p, n);
    if b == 0x7b {
      MembersOutline(text, i + 1, Opened, n, n + 1);
      OutlineAround(text, i, i + 1, MemberStarts(text, i + 1, Opened), nodes[0], nodes[1..], n);
      assert nodes == [nodes[0]] + nodes[1..];
    } else if b == 0x5b {
      ElementsOutline(text, i + 1, Opened, n, n + 1);
      OutlineAround(text, i, i + 1, ElementStarts(text, i + 1, Opened), nodes[0], nodes[1..], n);
      assert nodes == [nodes[0]] + nodes[1..];
    } else {
      OutlineAlone(text, i, nodes[0], n);
    }
  }

  /** The first of the values is that of the span. */
  lemma {:induction false} ValueReads(text: seq<Octet>, i: nat, p: int, n: nat)
    requires ValueEnd(PARSER, text, i).Some?
    ensures var nodes := ValueNodes(text, i, p, n); nodes != [] && nodes[0].parent == p && Reads(text, i, nodes[0])
  {
    if text[i] == 0x7b {
      var keys := Members(text, i + 1, Opened, n, n + 1).keys;
      PlacesTile(keys, 0, KeyTotal(keys));
    }
    hide MembersEnd, ElementsEnd, QuotedEnd, Members, Elements, HasFraction, IsRfcNumber, LacksDigits, Spells;
  }

  lemma {:induction false} ItemOutline(text: seq<Octet>, i: nat, p: int, n: nat)
    requires ItemEnd(PARSER, text, i).Some? && p < n
    ensures Outline(text, i, ItemEnd(PARSER, text, i).value, ItemStarts(text, i), [n], ItemNodes(text, i, p, n), p, n)
    decreases |text| - i, 1
  {
    hide Outline;
    if i < |text| && IsWhitespace(text[i]) {
      ItemOutline(text, i + 1, p, n);
      var j := ItemEnd(PARSER, text, i).value;
      OutlineEarlier(text, i, i + 1, j, ItemStarts(text, i), [n], ItemNodes(text, i, p, n), p, n);
    } else {
      ValueOutline(text, i, p, n);
    }
  }

  lemma {:induction false} OutlineEarlier(
    text: seq<Octet>, i: nat, h: nat, j: nat, starts: seq<nat>, kids: seq<int>, nodes: seq<Value>, a: int, n: nat)
    requires Outline(text, h, j, starts, kids, nodes, a, n) && i <= h
    ensures Outline(text, i, j, starts, kids, nodes, a, n)
    ensures forall l :: j <= l ==> Outline(text, i, l, starts, kids, nodes, a, n)
  {
    hide Reads, LaidAt;
  }

  lemma {:induction false} OutlineNone(text: seq<Octet>, i: nat, j: nat, a: int, n: nat)
    requires a < n
    ensures Outline(text, i, j, [], [], [], a, n)
  {
  }

  lemma {:induction false} ElementsOutline(text: seq<Octet>, i: nat, place: Place, a: nat, n: nat)
    requires ElementsEnd(PARSER, text, i, place).Some? && a < n
    ensures var part, j := Elements(text, i, place, a, n), ElementsEnd(PARSER, text, i, place).value;
            Outline(text, i, j, ElementStarts(text, i, place), part.kids, part.nodes, a, n)
    decreases |text| - i, 1
  {
    hide Outline;
    var b, j := text[i], ElementsEnd(PARSER, text, i, place).value;
    var part := Elements(text, i, place, a, n);
    if b == 0x5d {
      OutlineNone(text, i, j, a, n);
    } else if IsWhitespace(b) || place == AfterItem {
      ElementsOutline(text, i + 1, if IsWhitespace(b) then place else AfterComma, a, n);
      OutlineEarlier(text, i, i + 1, j, ElementStarts(text, i, place), part.kids, part.nodes, a, n);
    } else {
      var m := ValueEnd(PARSER, text, i).value;
      var nodes := ValueNodes(text, i, a, n);
      var more := Elements(text, m, AfterItem, a, n + |nodes|);
      ValueOutline(text, i, a, n);
      ElementsOutline(text, m, AfterItem, a, n + |nodes|);
      OutlineThen(text, i, m, j, ValueStarts(text, i), [n], nodes, ElementStarts(text, m, AfterItem), more.kids,
                  more.nodes, a, n);
    }
  }

  lemma {:induction false} MembersOutline(text: seq<Octet>, i: nat, place: Place, a: nat, n: nat)
    requires MembersEnd(PARSER, text, i, place).Some? && a < n
    ensures var part, j := Members(text, i, place, a, n), MembersEnd(PARSER, text, i, place).value;
            Outline(text, i, j, MemberStarts(text, i, place), part.kids, part.nodes, a, n)
    decreases |text| - i, 1
  {
    hide Outline;
    var b, j := text[i], MembersEnd(PARSER, text, i, place).value;
    var part := Members(text, i, place, a, n);
    if b == 0x7d {
      OutlineNone(text, i, j, a, n);
    } else if IsWhitespace(b) || place == AfterItem {
      MembersOutline(text, i + 1, if IsWhitespace(b) then place else AfterComma, a, n);
      OutlineEarlier(text, i, i + 1, j, MemberStarts(text, i, place), part.kids, part.nodes, a, n);
    } else {
      var m := QuotedEnd(PARSER, text, i + 1).value;
      PairOutline(text, m, QuotedBytes(text, i + 1), a, n);
      OutlineEarlier(text, i, m, j, MemberStarts(text, i, place), part.kids, part.nodes, a, n);
    }
  }

  lemma {:induction false} PairOutline(text: seq<Octet>, i: nat, key: nat, a: nat, n: nat)
    requires PairEnd(PARSER, text, i).Some? && a < n
    ensures var part := Pair(text, i, key, a, n);
            Outline(text, i, PairEnd(PARSER, text, i).value, PairStarts(text, i), part.kids, part.nodes, a, n)
    decreases |text| - i, 1
  {
    hide Outline;
    var j := PairEnd(PARSER, text, i).value;
    var part := Pair(text, i, key, a, n);
    if IsWhitespace(text[i]) {
      PairOutline(text, i + 1, key, a, n);
    } else {
      var m := ItemEnd(PARSER, text, i + 1).value;
      var nodes := ItemNodes(text, i + 1, a, n);
      var more := Members(text, m, AfterItem, a, n + |nodes|);
      ItemOutline(text, i + 1, a, n);
      MembersOutline(text, m, AfterItem, a, n + |nodes|);
      OutlineThen(text, i + 1, m, j, ItemStarts(text, i + 1), [n], nodes, MemberStarts(text, m, AfterItem), more.kids,
                  more.nodes, a, n);
    }
    OutlineEarlier(text, i, i + 1, j, PairStarts(text, i), part.kids, part.nodes, a, n);
  }

  /**
   The tree of a text has one value for each span of a value, in the order of the text. The first character says of
   what kind it is.
   */
  lemma {:induction false} TreeKinds(text: seq<Octet>, k: nat)
    requires IsText(PARSER, text) && k < |Tree(text)|
    ensures |ItemStarts(text, 0)| == |Tree(text)|
    ensures var i, v := ItemStarts(text, 0)[k], Tree(text)[k];
            && (v.kind == Object <==> text[i] == '{' as int)
            && (v.kind == Array <==> text[i] == '[' as int)
            && (v.kind == String <==> text[i] == '"' as int)
            && (v.kind == Boolean <==> text[i] == 't' as int || text[i] == 'f' as int)
            && (v.kind == Null <==> text[i] == 'n' as int)
            && (v.kind == Double <==>
                  && (text[i] == '-' as int || '0' as int <= text[i] <= '9' as int)
                  && exists m :: i <= m < EndOf(text, i)
                       && (text[m] == '.' as int || text[m] == 'e' as int || text[m] == 'E' as int))
  {
    ItemOutline(text, 0, NONE, 0);
    var i, v := ItemStarts(text, 0)[k], Tree(text)[k];
    hide Tree, ItemStarts, Kids, KidsOfAll, LaidAt;
    assert Reads(text, i, v);
    FirstCharacter(text, i);
    FractionAt(text, i, EndOf(text, i));
    hide ValueEnd, HasFraction;
  }

  lemma {:induction false} FirstCharacter(text: seq<Octet>, i: nat)
    requires ValueEnd(PARSER, text, i).Some?
    ensures i < |text| && EndOf(text, i) <= |text|
    ensures text[i] in {0x7b, 0x5b, QUOTE, 0x74, 0x66, 0x6e} || IsDigit(text[i]) || text[i] == MINUS
  {
    hide MembersEnd, ElementsEnd, QuotedEnd, NumberEnd;
  }

  lemma {:induction false} FractionAt(text: seq<Octet>, i: nat, j: nat)
    requires i <= j <= |text|
    ensures HasFraction(text[i..j]) <==>
            exists m :: i <= m < j && (text[m] == POINT || text[m] == 0x65 || text[m] == 0x45)
  {
    if HasFraction(text[i..j]) {
      var k :| 0 <= k < j - i && (text[i..j][k] == POINT || IsE(text[i..j][k]));
      assert text[i + k] == text[i..j][k];
    }
    if m :| i <= m < j && (text[m] == POINT || text[m] == 0x65 || text[m] == 0x45) {
      assert text[i..j][m - i] == text[m];
    }
  }

  /**
   The parent of a value is that of the innermost span around its own, and the slots of an array or object are the
   values inside of its span that are in no other, in the order of the text; the length is their number.
   */
  lemma {:induction false} TreeParents(text: seq<Octet>, k: nat)
    requires IsText(PARSER, text) && k < |Tree(text)|
    ensures |ItemStarts(text, 0)| == |Tree(text)|
    ensures var starts, v := ItemStarts(text, 0), Tree(text)[k];
            && (k == 0 <==> v.parent == NONE)
            && (k > 0 ==>
                  && 0 <= v.parent < k && starts[v.parent] < starts[k]
                  && EndOf(text, starts[k]) <= EndOf(text, starts[v.parent])
                  && forall m :: v.parent < m < k ==> EndOf(text, starts[m]) <= starts[k])
    ensures var v := Tree(text)[k];
            && (forall c :: c in v.slots <==> 0 <= c < |Tree(text)| && Tree(text)[c].parent == k)
            && (forall x, y :: 0 <= x < y < |v.slots| ==> v.slots[x] < v.slots[y])
            && (v.kind == Array || v.kind == Object ==> v.length == |v.slots|)
  {
    ItemOutline(text, 0, NONE, 0);
    var starts, nodes := ItemStarts(text, 0), Tree(text);
    hide Tree, ItemStarts, EndOf;
    assert Kids([0], nodes, NONE, 0) && Kids(nodes[k].slots, nodes, k, 0);
    assert LaidAt(text, starts, nodes, NONE, 0, k) && Reads(text, starts[k], nodes[k]);
    assert nodes[k].parent == NONE <==> k in [0];
  }

  /** The keys of an object lie one after the other behind its entries, each with a NUL. */
  lemma {:induction false} TreeKeys(text: seq<Octet>, k: nat, m: nat)
    requires IsText(PARSER, text) && k < |Tree(text)| && Tree(text)[k].kind == Object && m < Tree(text)[k].length
    ensures var v := Tree(text)[k];
            && |v.names| == v.length && v.names[0].offset == 0
            && v.names[m].offset + v.names[m].length + 1
               == if m + 1 < v.length then v.names[m + 1].offset else v.keyBytes
  {
    ItemOutline(text, 0, NONE, 0);
    hide Tree, ItemStarts, EndOf, LaidAt, Kids, KidsOfAll;
    var v := Tree(text)[k];
    assert Reads(text, ItemStarts(text, 0)[k], v);
    assert TileAt(v.names, m, v.keyBytes);
  }

  // ----- the lengths of strings

  /** Without escapes it is the number of characters. */
  lemma {:induction false} PlainString(text: seq<Octet>, i: nat, j: nat)
    requires i <= j < |text| && text[j] == QUOTE
    requires forall k :: i <= k < j ==> text[k] != 0 && text[k] != QUOTE && text[k] != BACKSLASH
    ensures QuotedEnd(PARSER, text, i) == Some(j + 1) && QuotedBytes(text, i) == j - i
    decreases j - i
  {
    if i < j {
      PlainString(text, i + 1, j);
    }
  }

  /** An escape is one byte, and \u escapes as many as their code point takes in UTF-8, two for a pair being one. */
  lemma {:induction false} EscapeSizes(text: seq<Octet>, i: nat)
    requires EscapeEnd(PARSER, text, i).Some?
    ensures text[i] != 'u' as int ==> EscapeBytes(text, i) == 1 && EscapeEnd(PARSER, text, i) == Some(i + 1)
    ensures text[i] == 'u' as int ==>
              var c := Hex4(text, i + 1).value;
              && (c <= 0x7F ==> EscapeBytes(text, i) == 1) && (0x80 <= c <= 0x7FF ==> EscapeBytes(text, i) == 2)
              && (0x800 <= c <= 0xD7FF || 0xE000 <= c <= 0xFFFF ==> EscapeBytes(text, i) == 3)
              && (0xD800 <= c <= 0xDFFF ==> EscapeBytes(text, i) == 4 && EscapeEnd(PARSER, text, i) == Some(i + 11))
  {
    hide Hex4;
  }
}
