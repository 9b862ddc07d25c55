/** The tree that the grammar reads from a text, as the values of a parser: one for each value of the text, in order. */
module JsonTree {
  import opened Octets
  import opened Wrappers
  import opened JsonSteps
  import opened JsonNumbers
  import opened JsonGrammar

  // ----- strings

  /** The bytes that an escape stands for, with the character after the backslash at i: those of UTF-8. */
  function EscapeBytes(text: seq<Octet>, i: nat): nat {
    if At(text, i) != 0x75 || Hex4(text, i + 1).BadHex? then 1
    else
      var c := Hex4(text, i + 1).value;
      if 0xD800 <= c < 0xE000 then 4 else if c < 0x80 then 1 else if c < 0x800 then 2 else 3
  }

  /** The bytes of a string that goes on at i, up to its closing quote */
  function QuotedBytes(text: seq<Octet>, i: nat): nat
    decreases |text| - i
  {
    var b := At(text, i);
    if b == 0 || b == QUOTE then 0
    else if b == BACKSLASH then
      match EscapeEnd(PARSER, text, i + 1)
      case None => 0
      case Some(j) => EscapeBytes(text, i + 1) + QuotedBytes(text, j)
    else 1 + QuotedBytes(text, i + 1)
  }

  // ----- numbers

  /** A point or an exponent makes a number a Double. */
  predicate HasFraction(w: seq<Octet>) {
    exists k :: 0 <= k < |w| && (w[k] == POINT || IsE(w[k]))
  }

  // ----- objects

  /** The places of keys with these lengths, each with a NUL, from here on */
  function Places(lengths: seq<nat>, offset: nat): (names: seq<Name>)
    ensures |names| == |lengths|
  {
    if lengths == [] then []
    else [Name(offset, lengths[0])] + Places(lengths[1..], offset + lengths[0] + 1)
  }

  /** The memory that they take */
  function KeyTotal(lengths: seq<nat>): nat {
    if lengths == [] then 0 else lengths[0] + 1 + KeyTotal(lengths[1..])
  }

  /** Where key k ends, with its NUL, the next one begins; the last one ends at end. */
  predicate TileAt(names: seq<Name>, k: nat, end: nat)
    requires k < |names|
  {
    names[k].offset + names[k].length + 1 == if k + 1 < |names| then names[k + 1].offset else end
  }

  /** The keys take all the memory behind the entries, one after the other. */
  lemma {:induction false} PlacesTile(lengths: seq<nat>, offset: nat, end: nat)
    requires end == offset + KeyTotal(lengths)
    ensures var names := Places(lengths, offset);
            && (forall k :: 0 <= k < |names| ==> names[k].length == lengths[k] && TileAt(names, k, end))
            && (names != [] ==> names[0].offset == offset)
  {
    if lengths != [] {
      var next := offset + lengths[0] + 1;
      PlacesTile(lengths[1..], next, end);
      var names, rest := Places(lengths, offset), Places(lengths[1..], next);
      assert names == [Name(offset, lengths[0])] + rest;
      hide Places;
      forall k | 0 <= k < |names| ensures names[k].length == lengths[k] && TileAt(names, k, end) {
        if k > 0 {
          assert TileAt(rest, k - 1, end);
        }
      }
    }
  }

  // ----- values

  /** The children of an array or object from some place on, the lengths of their keys, and all values below. */
  datatype Part = Part(kids: seq<int>, keys: seq<nat>, nodes: seq<Value>)

  const NO_PART: Part := Part([], [], [])

  /** One child, which is the first of nodes, and the others */
  function Child(n: nat, keys: seq<nat>, nodes: seq<Value>, more: Part): Part {
    Part([n] + more.kids, keys + more.keys, nodes + more.nodes)
  }

  /** The value that begins at i, as value number n below value p, and all those below it */
  function ValueNodes(text: seq<Octet>, i: nat, p: int, n: nat): seq<Value>
    decreases |text| - i, 0
  {
    if i >= |text| then []
    else
      var b := text[i];
      if b == 0x7b then
        var m := Members(text, i + 1, Opened, n, n + 1);
        [Value(p, Object, |m.kids|, KeyTotal(m.keys), m.kids, Places(m.keys, 0))] + m.nodes
      else if b == 0x5b then
        var e := Elements(text, i + 1, Opened, n, n + 1);
        [Value(p, Array, |e.kids|, 0, e.kids, [])] + e.nodes
      else if b == QUOTE then [Value(p, String, QuotedBytes(text, i + 1), 0, [], [])]
      else if b == 0x74 || b == 0x66 then [Value(p, Boolean, 0, 0, [], [])]
      else if b == 0x6e then [Value(p, Null, 0, 0, [], [])]
      else
        var kind := if HasFraction(text[i..SkipNumber(text, i)]) then Double else Integer;
        [Value(p, kind, 0, 0, [], [])]
  }

  function ItemNodes(text: seq<Octet>, i: nat, p: int, n: nat): seq<Value>
    decreases |text| - i, 1
  {
    if i < |text| && IsWhitespace(text[i]) then ItemNodes(text, i + 1, p, n) else ValueNodes(text, i, p, n)
  }

  /** The rest of array a, whose next value has number n */
  function Elements(text: seq<Octet>, i: nat, place: Place, a: nat, n: nat): (r: Part)
    ensures r.keys == []
    decreases |text| - i, 1
  {
    if i >= |text| then NO_PART
    else if IsWhitespace(text[i]) then Elements(text, i + 1, place, a, n)
    else if text[i] == 0x5d then NO_PART
    else if place == AfterItem then Elements(text, i + 1, AfterComma, a, n)
    else
      match ValueEnd(PARSER, text, i)
      case None => NO_PART
      case Some(j) =>
        var nodes := ValueNodes(text, i, a, n);
        Child(n, [], nodes, Elements(text, j, AfterItem, a, n + |nodes|))
  }

  /** The rest of object a */
  function Members(text: seq<Octet>, i: nat, place: Place, a: nat, n: nat): (r: Part)
    ensures |r.keys| == |r.kids|
    decreases |text| - i, 1
  {
    if i >= |text| then NO_PART
    else if IsWhitespace(text[i]) then Members(text, i + 1, place, a, n)
    else if text[i] == 0x7d then NO_PART
    else if place == AfterItem then Members(text, i + 1, AfterComma, a, n)
    else
      match QuotedEnd(PARSER, text, i + 1)
      case None => NO_PART
      case Some(j) => Pair(text, j, QuotedBytes(text, i + 1), a, n)
  }

  /** The rest of object a, from the end of a key with this length on */
  function Pair(text: seq<Octet>, i: nat, key: nat, a: nat, n: nat): (r: Part)
    ensures |r.keys| == |r.kids|
    decreases |text| - i, 1
  {
    if i >= |text| then NO_PART
    else if IsWhitespace(text[i]) then Pair(text, i + 1, key, a, n)
    else
      match ItemEnd(PARSER, text, i + 1)
      case None => NO_PART
      case Some(j) =>
        var nodes := ItemNodes(text, i + 1, a, n);
        Child(n, [key], nodes, Members(text, j, AfterItem, a, n + |nodes|))
  }

  /** The tree of a text */
  function Tree(text: seq<Octet>): seq<Value> {
    ItemNodes(text, 0, NONE, 0)
  }
}
