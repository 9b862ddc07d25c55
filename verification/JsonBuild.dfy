/** Either pass over an accepted text makes the values of the tree that the grammar reads from it. */
module JsonBuild {
  import opened Octets
  import opened Wrappers
  import opened JsonSteps
  import opened JsonFirstPass
  import opened JsonNumbers
  import opened JsonGrammar
  import opened JsonTree

  import JsonLanguage
  import JsonMemory

  // ----- values on the way

  /** A value as the first pass leaves it */
  function Bare(node: Value): Value {
    node.(slots := [], names := [])
  }

  /** A value of the tree, as the pass leaves it */
  function As(pass: Pass, node: Value): Value {
    if pass.First? then Bare(node) else node
  }

  /** It has one more child. */
  function Kidded(pass: Pass, v: Value, n: int): Value {
    var slots := if pass.Second? && v.length < |v.slots| then v.slots[v.length := n] else v.slots;
    v.(length := v.length + 1, slots := slots)
  }

  /** It has one more key. */
  function Keyed(pass: Pass, v: Value, key: nat): Value {
    var names := if pass.Second? && v.length < |v.names| then v.names[v.length := Name(v.keyBytes, key)] else v.names;
    v.(keyBytes := v.keyBytes + key + 1, names := names)
  }

  /** It has these children, with keys if it is an object. */
  function Took(pass: Pass, v: Value, kids: seq<int>, keys: seq<nat>): Value
    decreases |kids|
  {
    if kids == [] then v
    else
      var w := if keys == [] then v else Keyed(pass, v, keys[0]);
      Took(pass, Kidded(pass, w, kids[0]), kids[1..], if keys == [] then [] else keys[1..])
  }

  // ----- states

  predicate Runs(pass: Pass, text: seq<Octet>, s: State) {
    Run(pass, text, s).Accept?
  }

  /** The pass goes on from t as from s. */
  predicate Same(pass: Pass, text: seq<Octet>, s: State, t: State) {
    Run(pass, text, t) == Run(pass, text, s) && Last(pass, text, t) == Last(pass, text, s)
  }

  lemma {:induction false} Step(pass: Pass, text: seq<Octet>, s: State) returns (t: State)
    requires Runs(pass, text, s) && (s.flags.done ==> s.flags.inString)
    ensures Turn(pass, text, s) == Go(t) && Same(pass, text, s, t)
  {
    NotAtEnd(pass, text, s);
    hide Turn, Measure;
    t := Turn(pass, text, s).s;
  }

  lemma {:induction false} NotAtEnd(pass: Pass, text: seq<Octet>, s: State)
    ensures Turn(pass, text, s).Accept? ==> s.flags.done && !s.flags.inString && At(text, s.ptr) == 0
    ensures Turn(pass, text, s).Accept? ==> Turn(pass, text, s) == Accept(s.values)
  {
    hide Spells, CutOff, SkipNumber, NumberTurn, ReadUnicode, Fits, NewValue, Next;
    NoAccept(pass);
  }

  lemma {:induction false} NoAccept(pass: Pass)
    ensures forall s, ptr :: !Next(pass, s, ptr).Accept?
    ensures forall s, kind :: !NewValue(pass, s, kind).Accept?
  {
  }

  /** a is an array or object with a parent before it. */
  predicate Container(s: State, a: int) {
    0 <= a < s.alloc && a < |s.values| && IsContainer(s.values[a].kind)
    && (s.values[a].parent == NONE || 0 <= s.values[a].parent < a)
  }

  /** The first s.alloc values are there, in the first pass without any others. */
  predicate Sized(pass: Pass, s: State) {
    s.alloc <= |s.values| && (pass.First? ==> s.alloc == |s.values|)
  }

  predicate Placed(pass: Pass, s: State, p: int) {
    Sized(pass, s) && s.top == p && (p == NONE || Container(s, p))
  }

  /** The second pass finds the values as the first one has left them. */
  predicate Expects(pass: Pass, s: State, nodes: seq<Value>) {
    pass.Second? ==>
      && s.alloc + |nodes| <= |s.values|
      && forall k :: 0 <= k < |nodes| ==> s.values[s.alloc + k] == Bare(nodes[k])
  }

  /** Between s and t the nodes have been made, and of the others only a and q are different. */
  predicate Built(pass: Pass, s: State, t: State, a: int, q: int, nodes: seq<Value>) {
    && t.alloc == s.alloc + |nodes|
    && |t.values| == (if pass.First? then t.alloc else |s.values|)
    && s.alloc <= |s.values| && t.alloc <= |t.values|
    && (forall i :: 0 <= i < s.alloc && i != a && i != q ==> t.values[i] == s.values[i])
    && (forall i :: s.alloc <= i < t.alloc ==> t.values[i] == As(pass, nodes[i - s.alloc]))
    && (forall i :: t.alloc <= i < |t.values| ==> t.values[i] == s.values[i])
  }

  /** A value below p is complete, and what follows it begins at j. */
  predicate Finished(t: State, p: int, j: nat) {
    && t.ptr == j && !t.flags.inString && !t.flags.escaped && t.flags.needComma && !t.flags.needColon
    && if p == NONE then t.flags.done
       else
         && !t.flags.done && t.top == p && 0 <= p < |t.values|
         && t.flags.seekValue == (t.values[p].kind == Array)
  }

  /** p has the child n, and room for it if that is needed. */
  predicate GotChild(pass: Pass, s: State, t: State, p: int, n: int) {
    p != NONE ==>
      && 0 <= p < |s.values| && p < |t.values| && t.values[p] == Kidded(pass, s.values[p], n)
      && (pass.Second? ==> s.values[p].length < |s.values[p].slots|)
  }

  // ----- the parts of a turn

  /** The top value is complete. */
  lemma {:induction false} NextDoes(pass: Pass, s: State, ptr: nat, p: int) returns (t: State)
    requires InRange(s, s.top) && s.values[s.top].parent == p && (p == NONE || 0 <= p < s.top)
    requires !s.flags.inString && !s.flags.escaped && !s.flags.needColon && !s.flags.done && !s.flags.seekValue
    requires Next(pass, s, ptr).Go?
    ensures Next(pass, s, ptr) == Go(t) && Finished(t, p, ptr) && GotChild(pass, s, t, p, s.top)
    ensures t.alloc == s.alloc && |t.values| == |s.values|
    ensures forall i :: 0 <= i < |s.values| && i != p ==> t.values[i] == s.values[i]
  {
    t := Next(pass, s, ptr).s;
  }

  /** A value as it is created */
  function Created(pass: Pass, s: State, kind: Kind): Value
    requires Sized(pass, s) && (pass.Second? ==> s.alloc < |s.values|)
  {
    if pass.First? then Value(s.top, kind, 0, 0, [], []) else Allocated(s.values[s.alloc])
  }

  lemma {:induction false} CreateDoes(pass: Pass, s: State, kind: Kind) returns (t: State)
    requires Sized(pass, s) && NewValue(pass, s, kind).Go?
    ensures NewValue(pass, s, kind) == Go(t) && Sized(pass, t) && (pass.Second? ==> s.alloc < |s.values|)
    ensures t == s.(values := t.values, top := s.alloc, alloc := s.alloc + 1)
    ensures |t.values| == (if pass.First? then t.alloc else |s.values|)
    ensures t.values[s.alloc] == Created(pass, s, kind)
    ensures forall i :: 0 <= i < |t.values| && i != s.alloc ==> i < |s.values| && t.values[i] == s.values[i]
  {
    hide Allocated, Refused;
    t := NewValue(pass, s, kind).s;
  }

  // ----- strings

  /** s further on in its string, with n more bytes */
  predicate Further(s: State, t: State, n: nat) {
    t == s.(ptr := t.ptr, stringLength := s.stringLength + n)
  }

  /** From the inside of a string to its closing quote. */
  lemma {:induction false} QuotedBuilds(pass: Pass, text: seq<Octet>, s: State) returns (t: State)
    requires Runs(pass, text, s) && s.flags.inString && !s.flags.escaped && QuotedEnd(PARSER, text, s.ptr).Some?
    ensures Same(pass, text, s, t) && Further(s, t, QuotedBytes(text, s.ptr))
    ensures QuotedEnd(PARSER, text, s.ptr) == Some(t.ptr + 1) && At(text, t.ptr) == QUOTE
    decreases |text| - s.ptr
  {
    hide Turn, Run, Last, EscapeEnd, EscapeBytes;
    t := s;
    var b := At(text, s.ptr);
    if b == BACKSLASH {
      var e := EscapeBuilds(pass, text, s);
      t := QuotedBuilds(pass, text, e);
    } else if b != QUOTE {
      var u := Step(pass, text, s);
      CharDoes(pass, text, s);
      t := QuotedBuilds(pass, text, u);
    }
  }

  lemma {:induction false} CharDoes(pass: Pass, text: seq<Octet>, s: State)
    requires s.flags.inString && Turn(pass, text, s).Go?
    ensures At(text, s.ptr) != 0
    ensures !s.flags.escaped && At(text, s.ptr) == BACKSLASH ==>
              Turn(pass, text, s).s == s.(flags := s.flags.(escaped := true), ptr := s.ptr + 1)
    ensures !s.flags.escaped && At(text, s.ptr) != BACKSLASH && At(text, s.ptr) != QUOTE ==>
              Turn(pass, text, s).s == s.(ptr := s.ptr + 1, stringLength := s.stringLength + 1)
  {
    hide Fits, ReadUnicode, StringEnd;
  }

  lemma {:induction false} EscapeBuilds(pass: Pass, text: seq<Octet>, s: State) returns (t: State)
    requires Runs(pass, text, s) && s.flags.inString && !s.flags.escaped && At(text, s.ptr) == BACKSLASH
    requires EscapeEnd(PARSER, text, s.ptr + 1).Some?
    ensures Same(pass, text, s, t) && Further(s, t, EscapeBytes(text, s.ptr + 1))
    ensures EscapeEnd(PARSER, text, s.ptr + 1) == Some(t.ptr)
  {
    var e := Step(pass, text, s);
    CharDoes(pass, text, s);
    t := Step(pass, text, e);
    EscapedDoes(pass, text, e);
  }

  lemma {:induction false} EscapedDoes(pass: Pass, text: seq<Octet>, s: State)
    requires s.flags.inString && s.flags.escaped && Turn(pass, text, s).Go? && EscapeEnd(PARSER, text, s.ptr).Some?
    ensures var t := Turn(pass, text, s).s;
            && t == s.(flags := s.flags.(escaped := false), ptr := t.ptr,
                       stringLength := s.stringLength + EscapeBytes(text, s.ptr))
            && EscapeEnd(PARSER, text, s.ptr) == Some(t.ptr)
  {
    hide Fits, Hex4;
    HexBelow(text, s.ptr + 1);
  }

  lemma {:induction false} HexBelow(text: seq<Octet>, i: nat)
    ensures Hex4(text, i).Hex? ==> Hex4(text, i).value < 0x10000
  {
    if Hex4(text, i).Hex? {
      assert forall k :: i <= k < i + 4 ==> HexValue(At(text, k)) < 16;
    }
  }

  /** A string as a value, with its opening quote at the pointer */
  lemma {:induction false} StringBuilds(pass: Pass, text: seq<Octet>, s: State, p: int) returns (t: State)
    requires Runs(pass, text, s) && AtValue(s) && Placed(pass, s, p) && At(text, s.ptr) == QUOTE && !s.flags.escaped
    requires QuotedEnd(PARSER, text, s.ptr + 1).Some?
    requires Expects(pass, s, [Value(p, String, QuotedBytes(text, s.ptr + 1), 0, [], [])])
    ensures Same(pass, text, s, t)
    ensures Finished(t, p, QuotedEnd(PARSER, text, s.ptr + 1).value) && GotChild(pass, s, t, p, s.alloc)
    ensures Built(pass, s, t, p, p, [Value(p, String, QuotedBytes(text, s.ptr + 1), 0, [], [])])
  {
    hide Turn, Run, Last, QuotedEnd, QuotedBytes;
    var u := StringStarts(pass, text, s);
    if pass.Second? {
      ExpectsFirst(pass, s, [Value(p, String, QuotedBytes(text, s.ptr + 1), 0, [], [])]);
    }
    var v := QuotedBuilds(pass, text, u);
    t := Step(pass, text, v);
    StringCloses(pass, text, v, p);
  }

  lemma {:induction false} ExpectsFirst(pass: Pass, s: State, nodes: seq<Value>)
    requires pass.Second? && Expects(pass, s, nodes) && nodes != []
    ensures s.alloc < |s.values| && s.values[s.alloc] == Bare(nodes[0])
  {
    assert s.values[s.alloc + 0] == Bare(nodes[0]);
  }

  lemma {:induction false} StringStarts(pass: Pass, text: seq<Octet>, s: State) returns (t: State)
    requires Runs(pass, text, s) && AtValue(s) && Sized(pass, s) && At(text, s.ptr) == QUOTE
    ensures Same(pass, text, s, t) && Sized(pass, t) && (pass.Second? ==> s.alloc < |s.values|)
    ensures t == s.(ptr := s.ptr + 1, stringLength := 0, top := s.alloc, alloc := s.alloc + 1, values := t.values,
                    flags := s.flags.(seekValue := false, inString := true))
    ensures |t.values| == (if pass.First? then t.alloc else |s.values|)
    ensures t.values[s.alloc]
         == if pass.First? then Value(s.top, String, 0, 0, [], []) else Allocated(s.values[s.alloc])
    ensures forall i :: 0 <= i < |t.values| && i != s.alloc ==> i < |s.values| && t.values[i] == s.values[i]
  {
    t := Step(pass, text, s);
    var u := s.(flags := s.flags.(seekValue := false, inString := true), stringLength := 0);
    assert Turn(pass, text, s) == Advance(NewValue(pass, u, String), s.ptr + 1);
    hide Turn, NewValue, Allocated;
    var w := CreateDoes(pass, u, String);
  }

  lemma {:induction false} StringCloses(pass: Pass, text: seq<Octet>, s: State, p: int)
    requires s.flags.inString && !s.flags.escaped && At(text, s.ptr) == QUOTE && Turn(pass, text, s).Go?
    requires InRange(s, s.top) && s.values[s.top].kind == String && s.values[s.top].parent == p
    requires (p == NONE || 0 <= p < s.top) && !s.flags.needColon && !s.flags.done && !s.flags.seekValue
    ensures var t := Turn(pass, text, s).s;
            && Finished(t, p, s.ptr + 1) && GotChild(pass, s, t, p, s.top)
            && t.alloc == s.alloc && |t.values| == |s.values|
            && t.values[s.top] == s.values[s.top].(length := s.stringLength)
            && forall i :: 0 <= i < |s.values| && i != p && i != s.top ==> t.values[i] == s.values[i]
  {
    var v := s.values[s.top];
    var u := s.(flags := s.flags.(inString := false), values := s.values[s.top := v.(length := s.stringLength)]);
    assert Turn(pass, text, s) == Next(pass, u, s.ptr + 1) by {
      hide Next, Fits;
    }
    hide Next, Turn;
    var t := NextDoes(pass, u, s.ptr + 1, p);
  }

  // ----- values without children

  /** A value that is created and complete in one turn */
  lemma {:induction false} AtOnce(pass: Pass, text: seq<Octet>, s: State, p: int, kind: Kind, ptr: nat, node: Value)
    returns (t: State)
    requires Runs(pass, text, s) && AtValue(s) && !s.flags.escaped && Placed(pass, s, p) && Expects(pass, s, [node])
    requires !IsContainer(kind) && kind != String
    requires node == Value(p, if pass.First? then kind else node.kind, 0, 0, [], [])
    requires !IsContainer(node.kind) && node.kind != String
    requires var o := NewValue(pass, s.(flags := s.flags.(seekValue := false)), kind);
             Turn(pass, text, s) == if o.Go? then Next(pass, o.s, ptr) else o
    ensures Same(pass, text, s, t) && Finished(t, p, ptr) && GotChild(pass, s, t, p, s.alloc)
    ensures Built(pass, s, t, p, p, [node])
  {
    t := Step(pass, text, s);
    hide Turn, Run, Last, NewValue, Next;
    if pass.Second? {
      ExpectsFirst(pass, s, [node]);
    }
    var u := CreateDoes(pass, s.(flags := s.flags.(seekValue := false)), kind);
    var v := NextDoes(pass, u, ptr, p);
  }

  lemma {:induction false} LiteralBuilds(
    pass: Pass, text: seq<Octet>, s: State, p: int, kind: Kind, word: seq<Octet>) returns (t: State)
    requires Runs(pass, text, s) && AtValue(s) && !s.flags.escaped && Placed(pass, s, p)
    requires kind in {Boolean, Null} && Expects(pass, s, [Value(p, kind, 0, 0, [], [])])
    requires Turn(pass, text, s) == Literal(pass, text, s.(flags := s.flags.(seekValue := false)), kind, word)
    requires WordEnd(text, s.ptr + 1, word).Some?
    ensures Same(pass, text, s, t) && Finished(t, p, WordEnd(text, s.ptr + 1, word).value)
    ensures GotChild(pass, s, t, p, s.alloc) && Built(pass, s, t, p, p, [Value(p, kind, 0, 0, [], [])])
  {
    hide Turn, NewValue, Next, Built, Finished, GotChild, Runs, Same;
    t := AtOnce(pass, text, s, p, kind, s.ptr + |word| + 1, Value(p, kind, 0, 0, [], []));
  }

  // ----- numbers

  function NumberKind(kind: Kind, w: seq<Octet>): Kind {
    if kind == Double || HasFraction(w) then Double else Integer
  }

  lemma {:induction false} FractionHead(w: seq<Octet>)
    requires w != []
    ensures HasFraction(w) <==> w[0] == POINT || IsE(w[0]) || HasFraction(w[1..])
  {
    if HasFraction(w) {
      var k :| 0 <= k < |w| && (w[k] == POINT || IsE(w[k]));
      assert k > 0 ==> w[1..][k - 1] == w[k];
    }
    if HasFraction(w[1..]) {
      var k :| 0 <= k < |w[1..]| && (w[1..][k] == POINT || IsE(w[1..][k]));
      assert w[k + 1] == w[1..][k];
    }
  }

  /** One character of a number */
  lemma {:induction false} KindStep(b: Octet, w: seq<Octet>, n: Num, kind: Kind)
    requires w != [] && w[0] == b && IsNumber(kind) && Follows(w, n, kind)
    ensures NumberTurn(b, n, kind).More?
    ensures var m := NumberTurn(b, n, kind);
            IsNumber(m.kind) && Follows(w[1..], m.num, m.kind) && NumberKind(m.kind, w[1..]) == NumberKind(kind, w)
  {
    FractionHead(w);
    hide HasFraction;
  }

  /** The first pass follows a number to its end. */
  lemma {:induction false} DigitsBuild(text: seq<Octet>, s: State, p: int) returns (t: State)
    requires Runs(First, text, s) && InNumber(s) && s.ptr <= |text| && s.values[s.top].parent == p
    requires (p == NONE || 0 <= p < s.top) && !s.flags.escaped && !s.flags.needColon
    requires Follows(JsonLanguage.NumberRest(text, s.ptr), s.num, s.values[s.top].kind)
    ensures Same(First, text, s, t) && Finished(t, p, SkipNumber(text, s.ptr)) && GotChild(First, s, t, p, s.top)
    ensures t.alloc == s.alloc && |t.values| == |s.values|
    ensures t.values[s.top] == s.values[s.top].(
              kind := NumberKind(s.values[s.top].kind, JsonLanguage.NumberRest(text, s.ptr)))
    ensures forall i :: 0 <= i < |s.values| && i != p && i != s.top ==> t.values[i] == s.values[i]
    decreases |text| - s.ptr
  {
    var b, v, w := At(text, s.ptr), s.values[s.top], JsonLanguage.NumberRest(text, s.ptr);
    JsonLanguage.RestHead(text, s.ptr);
    var u := Step(First, text, s);
    assert Turn(First, text, s) == DigitsTurn(First, text, s);
    hide Turn, HasFraction, Run, Last, NumberTurn;
    if w == [] {
      EmptyFollows(b, s.num, v.kind);
      t := NextDoes(First, s, s.ptr, p);
    } else {
      KindStep(b, w, s.num, v.kind);
      hide Next;
      t := DigitsBuild(text, u, p);
    }
  }

  lemma {:induction false} EmptyFollows(b: Octet, n: Num, kind: Kind)
    requires Follows([], n, kind) && NumberTurn(b, n, kind) == NumberTurn(0, n, kind) && IsNumber(kind)
    ensures NumberTurn(b, n, kind).Ended? && NumberKind(kind, []) == kind
  {
  }

  lemma {:induction false} NumberBuilds(pass: Pass, text: seq<Octet>, s: State, p: int) returns (t: State)
    requires Runs(pass, text, s) && AtValue(s) && !s.flags.escaped && Placed(pass, s, p) && s.ptr < |text|
    requires JsonLanguage.BeginsNumber(text[s.ptr]) && NumberEnd(PARSER, text, s.ptr).Some?
    requires Expects(pass, s, [Value(p, NumberKind(Integer, JsonLanguage.NumberRest(text, s.ptr)), 0, 0, [], [])])
    ensures Same(pass, text, s, t) && Finished(t, p, NumberEnd(PARSER, text, s.ptr).value)
    ensures GotChild(pass, s, t, p, s.alloc)
    ensures Built(pass, s, t, p, p, [Value(p, NumberKind(Integer, JsonLanguage.NumberRest(text, s.ptr)), 0, 0, [], [])])
  {
    var node := Value(p, NumberKind(Integer, JsonLanguage.NumberRest(text, s.ptr)), 0, 0, [], []);
    if pass.First? {
      t := FirstNumber(text, s, p);
    } else {
      NumberTurnSkips(pass, text, s);
      hide Turn, NewValue, Next, Built, Finished, GotChild, Runs, Same, HasFraction;
      t := AtOnce(pass, text, s, p, Integer, SkipNumber(text, s.ptr), node);
    }
  }

  lemma {:induction false} NumberTurnSkips(pass: Pass, text: seq<Octet>, s: State)
    requires pass.Second? && AtValue(s) && JsonLanguage.BeginsNumber(At(text, s.ptr))
    ensures var o := NewValue(pass, s.(flags := s.flags.(seekValue := false)), Integer);
            Turn(pass, text, s) == if o.Go? then Next(pass, o.s, SkipNumber(text, s.ptr)) else o
  {
    hide NewValue, Next;
  }

  lemma {:induction false} FirstNumber(text: seq<Octet>, s: State, p: int) returns (t: State)
    requires Runs(First, text, s) && AtValue(s) && !s.flags.escaped && Placed(First, s, p) && s.ptr < |text|
    requires JsonLanguage.BeginsNumber(text[s.ptr]) && NumberEnd(PARSER, text, s.ptr).Some?
    ensures Same(First, text, s, t) && Finished(t, p, NumberEnd(PARSER, text, s.ptr).value)
    ensures GotChild(First, s, t, p, s.alloc)
    ensures var kind := NumberKind(Integer, JsonLanguage.NumberRest(text, s.ptr));
            Built(First, s, t, p, p, [Value(p, kind, 0, 0, [], [])])
  {
    hide Run, Last, NewValue, HasFraction, Follows, IsUnsigned, IsExponent, SkipNumber;
    var i, b := s.ptr, text[s.ptr];
    var u := Step(First, text, s);
    var num := Num(0, b == MINUS, false, false, false);
    var c := s.(flags := s.flags.(seekValue := false), num := num);
    var w := CreateDoes(First, c, Integer);
    NumberTurnStarts(text, s, w);
    hide Turn;
    JsonLanguage.NumberAgrees(text, i, num);
    JsonLanguage.RestHead(text, i);
    FractionHead(JsonLanguage.NumberRest(text, i));
    t := DigitsBuild(text, u, p);
  }

  lemma {:induction false} NumberTurnStarts(text: seq<Octet>, s: State, w: State)
    requires AtValue(s) && JsonLanguage.BeginsNumber(At(text, s.ptr))
    requires var num := Num(0, At(text, s.ptr) == MINUS, false, false, false);
             NewValue(First, s.(flags := s.flags.(seekValue := false), num := num), Integer) == Go(w)
    ensures Turn(First, text, s) == Go(w.(ptr := if At(text, s.ptr) == MINUS then s.ptr + 1 else s.ptr))
  {
    hide NewValue;
  }

  // ----- values with children

  /** The children of a have been made, and a has them. */
  predicate Grew(pass: Pass, s: State, t: State, a: int, q: int, part: Part) {
    && Built(pass, s, t, a, q, part.nodes) && 0 <= a < s.alloc
    && t.values[a] == Took(pass, s.values[a], part.kids, part.keys)
    && (pass.Second? ==> s.values[a].length + |part.kids| <= |s.values[a].slots|)
  }

  /** Array or object a is open. */
  predicate Open(pass: Pass, s: State, a: int) {
    && Sized(pass, s) && s.top == a && Container(s, a) && !s.flags.escaped
    && (pass.Second? ==> s.values[a].length <= |s.values[a].slots|)
  }

  lemma {:induction false} BlankDoes(pass: Pass, text: seq<Octet>, s: State) returns (t: State)
    requires Runs(pass, text, s) && !s.flags.inString && !s.flags.done && IsWhitespace(At(text, s.ptr))
    requires !s.flags.seekValue ==> InRange(s, s.top) && s.values[s.top].kind == Object
    ensures Same(pass, text, s, t) && t == s.(ptr := s.ptr + 1)
  {
    t := Step(pass, text, s);
    hide Run, Last;
  }

  lemma {:induction false} CommaDoes(pass: Pass, text: seq<Octet>, s: State) returns (t: State)
    requires Runs(pass, text, s) && !s.flags.inString && !s.flags.done && s.flags.needComma && At(text, s.ptr) == COMMA
    requires !s.flags.seekValue ==> InRange(s, s.top) && s.values[s.top].kind == Object
    ensures Same(pass, text, s, t) && t == s.(flags := s.flags.(needComma := false), ptr := s.ptr + 1)
  {
    t := Step(pass, text, s);
    hide Run, Last;
  }

  /** The closing bracket or brace */
  lemma {:induction false} CloseDoes(pass: Pass, text: seq<Octet>, s: State, a: int) returns (t: State)
    requires Runs(pass, text, s) && Open(pass, s, a) && !s.flags.inString && !s.flags.done && !s.flags.needColon
    requires if s.values[a].kind == Array then s.flags.seekValue && At(text, s.ptr) == 0x5d
             else !s.flags.seekValue && At(text, s.ptr) == 0x7d
    ensures Same(pass, text, s, t) && Finished(t, s.values[a].parent, s.ptr + 1)
    ensures GotChild(pass, s, t, s.values[a].parent, a) && Grew(pass, s, t, a, s.values[a].parent, NO_PART)
  {
    t := Step(pass, text, s);
    var u := s.(flags := s.flags.(needComma := false, seekValue := false));
    assert Turn(pass, text, s) == Next(pass, u, s.ptr + 1);
    hide Turn, Next, Run, Last;
    var v := NextDoes(pass, u, s.ptr + 1, s.values[a].parent);
  }

  lemma {:induction false} OpenDoes(pass: Pass, text: seq<Octet>, s: State, p: int) returns (t: State)
    requires Runs(pass, text, s) && AtValue(s) && !s.flags.escaped && Placed(pass, s, p)
    requires At(text, s.ptr) in {0x5b, 0x7b}
    ensures Same(pass, text, s, t) && Sized(pass, t) && (pass.Second? ==> s.alloc < |s.values|)
    ensures t == s.(ptr := s.ptr + 1, top := s.alloc, alloc := s.alloc + 1, values := t.values,
                    flags := s.flags.(seekValue := At(text, s.ptr) == 0x5b))
    ensures |t.values| == (if pass.First? then t.alloc else |s.values|)
    ensures t.values[s.alloc] == Created(pass, s, if At(text, s.ptr) == 0x5b then Array else Object)
    ensures forall i :: 0 <= i < |t.values| && i != s.alloc ==> i < |s.values| && t.values[i] == s.values[i]
  {
    t := Step(pass, text, s);
    var isArray := At(text, s.ptr) == 0x5b;
    var u := s.(flags := s.flags.(seekValue := isArray));
    assert Turn(pass, text, s) == Advance(NewValue(pass, u, if isArray then Array else Object), s.ptr + 1);
    hide Turn, NewValue, Allocated, Run, Last;
    var w := CreateDoes(pass, u, if isArray then Array else Object);
  }

  // ----- one part after the other

  /** What has been built first is not touched by what is built then. */
  lemma {:induction false} BuiltThen(
    pass: Pass, s: State, u: State, t: State, a: int, q: int, first: seq<Value>, more: seq<Value>)
    requires Built(pass, s, u, a, a, first) && Built(pass, u, t, a, q, more) && a < s.alloc && q < s.alloc
    requires pass.First? ==> |s.values| == s.alloc
    ensures Built(pass, s, t, a, q, first + more)
  {
    hide As;
    forall i | s.alloc <= i < t.alloc ensures t.values[i] == As(pass, (first + more)[i - s.alloc]) {
      if i < u.alloc {
        assert (first + more)[i - s.alloc] == first[i - s.alloc];
      } else {
        assert (first + more)[i - s.alloc] == more[i - u.alloc];
      }
    }
  }

  /** What is expected after the first nodes is there after them. */
  lemma {:induction false} ExpectsMore(pass: Pass, s: State, u: State, a: int, first: seq<Value>, more: seq<Value>)
    requires Expects(pass, s, first + more) && Built(pass, s, u, a, a, first)
    ensures Expects(pass, s, first) && Expects(pass, u, more)
  {
    if pass.Second? {
      forall k | 0 <= k < |first| ensures s.values[s.alloc + k] == Bare(first[k]) {
        assert (first + more)[k] == first[k];
      }
      forall k | 0 <= k < |more| ensures u.values[u.alloc + k] == Bare(more[k]) {
        assert s.values[s.alloc + (|first| + k)] == Bare((first + more)[|first| + k]);
      }
    }
  }

  lemma {:induction false} ExpectsFront(pass: Pass, s: State, first: seq<Value>, more: seq<Value>)
    requires Expects(pass, s, first + more)
    ensures Expects(pass, s, first)
  {
    if pass.Second? {
      forall k | 0 <= k < |first| ensures s.values[s.alloc + k] == Bare(first[k]) {
        assert (first + more)[k] == first[k];
      }
    }
  }

  /** One child, and then the others */
  lemma {:induction false} GrewThen(
    pass: Pass, s: State, u: State, t: State, a: int, q: int, first: seq<Value>, more: Part)
    requires Open(pass, s, a) && q < a && Built(pass, s, u, a, a, first) && Grew(pass, u, t, a, q, more)
    requires u.values[a] == Kidded(pass, s.values[a], s.alloc)
    requires pass.Second? ==> s.values[a].length < |s.values[a].slots|
    ensures Built(pass, s, t, a, q, first + more.nodes)
    ensures t.values[a] == Took(pass, Kidded(pass, s.values[a], s.alloc), more.kids, more.keys)
    ensures pass.Second? ==> s.values[a].length + 1 + |more.kids| <= |s.values[a].slots|
  {
    BuiltThen(pass, s, u, t, a, q, first, more.nodes);
    hide Built, Took;
  }

  lemma {:induction false} TookOne(pass: Pass, v: Value, n: int, more: Part)
    requires more.keys == []
    ensures Took(pass, v, [n] + more.kids, [] + more.keys) == Took(pass, Kidded(pass, v, n), more.kids, [])
  {
    assert ([n] + more.kids)[1..] == more.kids;
  }

  // ----- from the creation of a container to its end

  /** An array or object without children yet */
  function Started(pass: Pass, node: Value): Value {
    if pass.First? then Value(node.parent, node.kind, 0, 0, [], []) else Allocated(Bare(node))
  }

  lemma {:induction false} Opens(pass: Pass, s: State, u: State, p: int, node: Value, more: seq<Value>)
    requires Placed(pass, s, p) && Sized(pass, u) && u.top == s.alloc && u.alloc == s.alloc + 1 && !u.flags.escaped
    requires |u.values| == (if pass.First? then u.alloc else |s.values|)
    requires Expects(pass, s, [node] + more) && IsContainer(node.kind) && node.parent == p
    requires (pass.Second? ==> s.alloc < |s.values|) && u.values[s.alloc] == Created(pass, s, node.kind)
    requires forall i :: 0 <= i < |u.values| && i != s.alloc ==> i < |s.values| && u.values[i] == s.values[i]
    ensures Open(pass, u, s.alloc) && u.values[s.alloc] == Started(pass, node) && Expects(pass, u, more)
  {
    if pass.Second? {
      ExpectsFirst(pass, s, [node] + more);
      forall k | 0 <= k < |more| ensures u.values[u.alloc + k] == Bare(more[k]) {
        assert s.values[s.alloc + (k + 1)] == Bare(([node] + more)[k + 1]);
      }
    }
  }

  lemma {:induction false} TookFirst(v: Value, kids: seq<int>, keys: seq<nat>)
    requires keys == [] || |keys| == |kids|
    ensures Took(First, v, kids, keys) == v.(length := v.length + |kids|, keyBytes := v.keyBytes + KeyTotal(keys))
    decreases |kids|
  {
    if kids != [] {
      var w := if keys == [] then v else Keyed(First, v, keys[0]);
      TookFirst(Kidded(First, w, kids[0]), kids[1..], if keys == [] then [] else keys[1..]);
    }
  }

  lemma {:induction false} TookArray(pass: Pass, v: Value, kids: seq<int>)
    requires pass.Second? && v.length + |kids| == |v.slots|
    ensures Took(pass, v, kids, []) == v.(length := v.length + |kids|, slots := v.slots[..v.length] + kids)
    decreases |kids|
  {
    if kids == [] {
      assert v.slots[..v.length] + kids == v.slots;
    } else {
      var x := Kidded(pass, v, kids[0]);
      TookArray(pass, x, kids[1..]);
      SlotNext(v.slots, v.length, kids);
      hide Took;
    }
  }

  /** Filling the next slot, and then those after it */
  lemma {:induction false} SlotNext<T>(slots: seq<T>, n: nat, more: seq<T>)
    requires more != [] && n < |slots|
    ensures slots[n := more[0]][..n + 1] + more[1..] == slots[..n] + more
  {
  }

  lemma {:induction false} TookObject(pass: Pass, v: Value, kids: seq<int>, keys: seq<nat>)
    requires pass.Second? && v.length + |kids| == |v.slots| == |v.names| && |keys| == |kids|
    ensures Took(pass, v, kids, keys)
         == v.(length := v.length + |kids|, keyBytes := v.keyBytes + KeyTotal(keys),
               slots := v.slots[..v.length] + kids, names := v.names[..v.length] + Places(keys, v.keyBytes))
    decreases |kids|
  {
    if kids == [] {
      assert v.slots[..v.length] + kids == v.slots && v.names[..v.length] + Places(keys, v.keyBytes) == v.names;
    } else {
      var w := Keyed(pass, v, keys[0]);
      var x := Kidded(pass, w, kids[0]);
      assert Took(pass, v, kids, keys) == Took(pass, x, kids[1..], keys[1..]);
      TookObject(pass, x, kids[1..], keys[1..]);
      SlotNext(v.slots, v.length, kids);
      SlotNext(v.names, v.length, Places(keys, v.keyBytes));
      assert Places(keys, v.keyBytes)[1..] == Places(keys[1..], x.keyBytes);
      hide Took;
    }
  }

  /** The node of an array or object with these children */
  function NodeOf(p: int, kind: Kind, part: Part): Value {
    Value(p, kind, |part.kids|, KeyTotal(part.keys), part.kids, Places(part.keys, 0))
  }

  lemma {:induction false} TookAll(pass: Pass, p: int, kind: Kind, part: Part)
    requires IsContainer(kind) && (if kind == Array then part.keys == [] else |part.keys| == |part.kids|)
    requires pass.Second? ==> |part.kids| <= |Started(pass, NodeOf(p, kind, part)).slots|
    ensures Took(pass, Started(pass, NodeOf(p, kind, part)), part.kids, part.keys) == As(pass, NodeOf(p, kind, part))
  {
    var node := NodeOf(p, kind, part);
    var v := Started(pass, node);
    hide Took;
    if pass.First? {
      TookFirst(v, part.kids, part.keys);
    } else {
      JsonMemory.SlotCountExact(Bare(node));
      assert v.slots[..0] + part.kids == part.kids;
      if kind == Array {
        TookArray(pass, v, part.kids);
      } else {
        TookObject(pass, v, part.kids, part.keys);
        assert v.names[..0] + Places(part.keys, 0) == Places(part.keys, 0);
      }
    }
  }

  lemma {:induction false} Closes(pass: Pass, s: State, u: State, t: State, p: int, kind: Kind, part: Part)
    requires Placed(pass, s, p) && u.alloc == s.alloc + 1 && IsContainer(kind)
    requires |u.values| == (if pass.First? then u.alloc else |s.values|)
    requires (if kind == Array then part.keys == [] else |part.keys| == |part.kids|)
    requires u.alloc <= |u.values| && u.values[s.alloc] == Started(pass, NodeOf(p, kind, part))
    requires forall i :: 0 <= i < |u.values| && i != s.alloc ==> i < |s.values| && u.values[i] == s.values[i]
    requires Grew(pass, u, t, s.alloc, p, part) && GotChild(pass, u, t, p, s.alloc)
    ensures GotChild(pass, s, t, p, s.alloc) && Built(pass, s, t, p, p, [NodeOf(p, kind, part)] + part.nodes)
  {
    var node := NodeOf(p, kind, part);
    TookAll(pass, p, kind, part);
    hide Took, As, NodeOf, Started;
    forall i | s.alloc <= i < t.alloc ensures t.values[i] == As(pass, ([node] + part.nodes)[i - s.alloc]) {
      if i > s.alloc {
        assert ([node] + part.nodes)[i - s.alloc] == part.nodes[i - u.alloc];
      }
    }
  }

  // ----- keys

  /** The key of a member has been read. */
  predicate KeyRead(pass: Pass, s: State, t: State, a: int, key: nat) {
    && Open(pass, t, a) && t.alloc == s.alloc && |t.values| == |s.values| && JsonLanguage.AtColon(t)
    && 0 <= a < |s.values| && t.values[a] == Keyed(pass, s.values[a], key)
    && (pass.Second? ==> s.values[a].length < |s.values[a].names|)
    && (forall i :: 0 <= i < |s.values| && i != a ==> t.values[i] == s.values[i])
  }

  lemma {:induction false} KeyBuilds(pass: Pass, text: seq<Octet>, s: State, a: int) returns (t: State)
    requires Runs(pass, text, s) && Open(pass, s, a) && JsonLanguage.AtMembers(s, Opened) && At(text, s.ptr) == QUOTE
    requires QuotedEnd(PARSER, text, s.ptr + 1).Some?
    ensures Same(pass, text, s, t) && KeyRead(pass, s, t, a, QuotedBytes(text, s.ptr + 1))
    ensures t.ptr == QuotedEnd(PARSER, text, s.ptr + 1).value
  {
    hide Run, Last, QuotedEnd, QuotedBytes;
    var u := Step(pass, text, s);
    assert u == s.(flags := s.flags.(inString := true), stringLength := 0, ptr := s.ptr + 1);
    hide Turn;
    var v := QuotedBuilds(pass, text, u);
    t := Step(pass, text, v);
    KeyCloses(pass, text, v, a);
  }

  lemma {:induction false} KeyCloses(pass: Pass, text: seq<Octet>, s: State, a: int)
    requires Open(pass, s, a) && s.values[a].kind == Object && s.flags.inString && !s.flags.needComma && !s.flags.done
    requires !s.flags.needColon && At(text, s.ptr) == QUOTE && Turn(pass, text, s).Go?
    ensures var t := Turn(pass, text, s).s; t.ptr == s.ptr + 1 && KeyRead(pass, s, t, a, s.stringLength)
  {
    hide Fits;
  }

  // ----- from the grammar

  /** The values of a value */
  function NodesAt(text: seq<Octet>, s: State, p: int): seq<Value> {
    ValueNodes(text, s.ptr, p, s.alloc)
  }

  lemma {:induction false} ValueBuilds(pass: Pass, text: seq<Octet>, s: State, p: int) returns (t: State)
    requires Runs(pass, text, s) && AtValue(s) && !s.flags.escaped && Placed(pass, s, p)
    requires ValueEnd(PARSER, text, s.ptr).Some? && Expects(pass, s, NodesAt(text, s, p))
    ensures Same(pass, text, s, t) && Finished(t, p, ValueEnd(PARSER, text, s.ptr).value)
    ensures GotChild(pass, s, t, p, s.alloc) && Built(pass, s, t, p, p, NodesAt(text, s, p))
    decreases |text| - s.ptr, 1
  {
    var b := At(text, s.ptr);
    if b == 0x7b {
      t := ObjectBuilds(pass, text, s, p);
    } else if b == 0x5b {
      t := ArrayBuilds(pass, text, s, p);
    } else if b == QUOTE {
      t := StringBuilds(pass, text, s, p);
    } else if b == 0x74 {
      t := LiteralBuilds(pass, text, s, p, Boolean, TRUE_REST);
    } else if b == 0x66 {
      t := LiteralBuilds(pass, text, s, p, Boolean, FALSE_REST);
    } else if b == 0x6e {
      t := LiteralBuilds(pass, text, s, p, Null, NULL_REST);
    } else {
      t := NumberBuilds(pass, text, s, p);
    }
  }

  lemma {:induction false} ArrayBuilds(pass: Pass, text: seq<Octet>, s: State, p: int) returns (t: State)
    requires Runs(pass, text, s) && AtValue(s) && !s.flags.escaped && Placed(pass, s, p) && At(text, s.ptr) == 0x5b
    requires ValueEnd(PARSER, text, s.ptr).Some? && Expects(pass, s, NodesAt(text, s, p))
    ensures Same(pass, text, s, t) && Finished(t, p, ValueEnd(PARSER, text, s.ptr).value)
    ensures GotChild(pass, s, t, p, s.alloc) && Built(pass, s, t, p, p, NodesAt(text, s, p))
    decreases |text| - s.ptr, 0
  {
    var u := OpenDoes(pass, text, s, p);
    var part := Elements(text, u.ptr, Opened, s.alloc, u.alloc);
    assert NodesAt(text, s, p) == [NodeOf(p, Array, part)] + part.nodes;
    hide Turn, Run, Last, NodeOf, Started, Created, Built, Grew, Took;
    Opens(pass, s, u, p, NodeOf(p, Array, part), part.nodes);
    t := ElementsBuild(pass, text, u, Opened, s.alloc);
    Closes(pass, s, u, t, p, Array, part);
  }

  lemma {:induction false} ObjectBuilds(pass: Pass, text: seq<Octet>, s: State, p: int) returns (t: State)
    requires Runs(pass, text, s) && AtValue(s) && !s.flags.escaped && Placed(pass, s, p) && At(text, s.ptr) == 0x7b
    requires ValueEnd(PARSER, text, s.ptr).Some? && Expects(pass, s, NodesAt(text, s, p))
    ensures Same(pass, text, s, t) && Finished(t, p, ValueEnd(PARSER, text, s.ptr).value)
    ensures GotChild(pass, s, t, p, s.alloc) && Built(pass, s, t, p, p, NodesAt(text, s, p))
    decreases |text| - s.ptr, 0
  {
    var u := OpenDoes(pass, text, s, p);
    var part := Members(text, u.ptr, Opened, s.alloc, u.alloc);
    assert NodesAt(text, s, p) == [NodeOf(p, Object, part)] + part.nodes;
    hide Turn, Run, Last, NodeOf, Started, Created, Built, Grew, Took;
    Opens(pass, s, u, p, NodeOf(p, Object, part), part.nodes);
    t := MembersBuild(pass, text, u, Opened, s.alloc);
    Closes(pass, s, u, t, p, Object, part);
  }

  lemma {:induction false} ItemBuilds(pass: Pass, text: seq<Octet>, s: State, p: int) returns (t: State)
    requires Runs(pass, text, s) && AtValue(s) && !s.flags.escaped && Placed(pass, s, p)
    requires ItemEnd(PARSER, text, s.ptr).Some? && Expects(pass, s, ItemNodes(text, s.ptr, p, s.alloc))
    ensures Same(pass, text, s, t) && Finished(t, p, ItemEnd(PARSER, text, s.ptr).value)
    ensures GotChild(pass, s, t, p, s.alloc) && Built(pass, s, t, p, p, ItemNodes(text, s.ptr, p, s.alloc))
    decreases |text| - s.ptr, 2
  {
    hide Run, Last, Turn, Built, GotChild;
    if IsWhitespace(At(text, s.ptr)) {
      var u := BlankDoes(pass, text, s);
      t := ItemBuilds(pass, text, u, p);
      BuiltFrom(pass, s, u, t, p, ItemNodes(text, s.ptr, p, s.alloc));
    } else {
      t := ValueBuilds(pass, text, s, p);
    }
  }

  lemma {:induction false} ElementsBuild(pass: Pass, text: seq<Octet>, s: State, place: Place, a: int)
    returns (t: State)
    requires Runs(pass, text, s) && Open(pass, s, a) && JsonLanguage.AtElements(s, place)
    requires ElementsEnd(PARSER, text, s.ptr, place).Some?
    requires Expects(pass, s, Elements(text, s.ptr, place, a, s.alloc).nodes)
    ensures Same(pass, text, s, t) && Finished(t, s.values[a].parent, ElementsEnd(PARSER, text, s.ptr, place).value)
    ensures GotChild(pass, s, t, s.values[a].parent, a)
    ensures Grew(pass, s, t, a, s.values[a].parent, Elements(text, s.ptr, place, a, s.alloc))
    decreases |text| - s.ptr, 3
  {
    var b := At(text, s.ptr);
    hide Run, Last, Turn, Took, Built;
    if IsWhitespace(b) {
      var u := BlankDoes(pass, text, s);
      t := ElementsBuild(pass, text, u, place, a);
      SameValues(pass, s, u, t, a, Elements(text, s.ptr, place, a, s.alloc));
    } else if b == 0x5d {
      t := CloseDoes(pass, text, s, a);
    } else if place == AfterItem {
      var u := CommaDoes(pass, text, s);
      t := ElementsBuild(pass, text, u, AfterComma, a);
      SameValues(pass, s, u, t, a, Elements(text, s.ptr, place, a, s.alloc));
    } else {
      t := ElementBuilds(pass, text, s, place, a);
    }
  }

  lemma {:induction false} ElementBuilds(pass: Pass, text: seq<Octet>, s: State, place: Place, a: int)
    returns (t: State)
    requires Runs(pass, text, s) && Open(pass, s, a) && JsonLanguage.AtElements(s, place) && place != AfterItem
    requires ElementsEnd(PARSER, text, s.ptr, place).Some?
    requires !IsWhitespace(At(text, s.ptr)) && At(text, s.ptr) != 0x5d
    requires Expects(pass, s, Elements(text, s.ptr, place, a, s.alloc).nodes)
    ensures Same(pass, text, s, t) && Finished(t, s.values[a].parent, ElementsEnd(PARSER, text, s.ptr, place).value)
    ensures GotChild(pass, s, t, s.values[a].parent, a)
    ensures Grew(pass, s, t, a, s.values[a].parent, Elements(text, s.ptr, place, a, s.alloc))
    decreases |text| - s.ptr, 2
  {
    hide Run, Last, Turn, Took, Built, Expects, GotChild, ElementsEnd, ValueEnd, Elements, NodesAt;
    ElementPart(text, s, place, a);
    var nodes := NodesAt(text, s, a);
    var more := Elements(text, ValueEnd(PARSER, text, s.ptr).value, AfterItem, a, s.alloc + |nodes|);
    ExpectsFront(pass, s, nodes, more.nodes);
    var u := ValueBuilds(pass, text, s, a);
    AfterChild(pass, s, u, a, nodes, more.nodes);
    t := ElementsBuild(pass, text, u, AfterItem, a);
    FromElement(pass, s, u, t, a, nodes, more);
  }

  /** The first element, and the others */
  lemma {:induction false} ElementPart(text: seq<Octet>, s: State, place: Place, a: nat)
    requires ElementsEnd(PARSER, text, s.ptr, place).Some? && place != AfterItem
    requires !IsWhitespace(At(text, s.ptr)) && At(text, s.ptr) != 0x5d
    ensures ValueEnd(PARSER, text, s.ptr).Some?
    ensures var nodes, j := NodesAt(text, s, a), ValueEnd(PARSER, text, s.ptr).value;
            && ElementsEnd(PARSER, text, s.ptr, place) == ElementsEnd(PARSER, text, j, AfterItem)
            && Elements(text, s.ptr, place, a, s.alloc)
               == Child(s.alloc, [], nodes, Elements(text, j, AfterItem, a, s.alloc + |nodes|))
  {
  }

  lemma {:induction false} FromElement(
    pass: Pass, s: State, u: State, t: State, a: int, nodes: seq<Value>, more: Part)
    requires Open(pass, s, a) && Built(pass, s, u, a, a, nodes) && GotChild(pass, s, u, a, s.alloc)
    requires Grew(pass, u, t, a, s.values[a].parent, more) && more.keys == []
    requires s.values[a].parent != NONE ==> u.values[s.values[a].parent] == s.values[s.values[a].parent]
    requires GotChild(pass, u, t, s.values[a].parent, a)
    ensures Grew(pass, s, t, a, s.values[a].parent, Child(s.alloc, [], nodes, more))
    ensures GotChild(pass, s, t, s.values[a].parent, a)
  {
    hide Took, Built;
    GrewThen(pass, s, u, t, a, s.values[a].parent, nodes, more);
    TookOne(pass, s.values[a], s.alloc, more);
  }

  /** s and u have the same values. */
  lemma {:induction false} BuiltFrom(pass: Pass, s: State, u: State, t: State, p: int, nodes: seq<Value>)
    requires u.values == s.values && u.alloc == s.alloc
    requires Built(pass, u, t, p, p, nodes) && GotChild(pass, u, t, p, u.alloc)
    ensures Built(pass, s, t, p, p, nodes) && GotChild(pass, s, t, p, s.alloc)
  {
  }

  lemma {:induction false} SameValues(pass: Pass, s: State, u: State, t: State, a: int, part: Part)
    requires u.values == s.values && u.alloc == s.alloc && 0 <= a < |s.values|
    requires Grew(pass, u, t, a, s.values[a].parent, part) && GotChild(pass, u, t, s.values[a].parent, a)
    ensures Grew(pass, s, t, a, s.values[a].parent, part) && GotChild(pass, s, t, s.values[a].parent, a)
  {
    hide Took;
  }

  lemma {:induction false} SameByKey(pass: Pass, s: State, u: State, t: State, a: int, key: nat, part: Part)
    requires u.values == s.values && u.alloc == s.alloc && 0 <= a < |s.values|
    requires GrewByKey(pass, u, t, a, s.values[a].parent, key, part) && GotChild(pass, u, t, s.values[a].parent, a)
    ensures GrewByKey(pass, s, t, a, s.values[a].parent, key, part) && GotChild(pass, s, t, s.values[a].parent, a)
  {
    hide Took;
  }

  /** Between two children */
  lemma {:induction false} AfterChild(pass: Pass, s: State, u: State, a: int, first: seq<Value>, more: seq<Value>)
    requires Open(pass, s, a) && Built(pass, s, u, a, a, first) && GotChild(pass, s, u, a, s.alloc)
    requires Expects(pass, s, first + more) && u.top == a && !u.flags.escaped
    ensures Open(pass, u, a) && Expects(pass, u, more) && u.values[a].kind == s.values[a].kind
    ensures u.values[a].parent == s.values[a].parent && u.alloc == s.alloc + |first|
    ensures s.values[a].parent != NONE ==> u.values[s.values[a].parent] == s.values[s.values[a].parent]
  {
    ExpectsMore(pass, s, u, a, first, more);
  }

  lemma {:induction false} MembersBuild(pass: Pass, text: seq<Octet>, s: State, place: Place, a: int) returns (t: State)
    requires Runs(pass, text, s) && Open(pass, s, a) && JsonLanguage.AtMembers(s, place)
    requires MembersEnd(PARSER, text, s.ptr, place).Some?
    requires Expects(pass, s, Members(text, s.ptr, place, a, s.alloc).nodes)
    ensures Same(pass, text, s, t) && Finished(t, s.values[a].parent, MembersEnd(PARSER, text, s.ptr, place).value)
    ensures GotChild(pass, s, t, s.values[a].parent, a)
    ensures Grew(pass, s, t, a, s.values[a].parent, Members(text, s.ptr, place, a, s.alloc))
    decreases |text| - s.ptr, 3
  {
    var b := At(text, s.ptr);
    hide Run, Last, Turn, Took, Built;
    if IsWhitespace(b) {
      var u := BlankDoes(pass, text, s);
      t := MembersBuild(pass, text, u, place, a);
      SameValues(pass, s, u, t, a, Members(text, s.ptr, place, a, s.alloc));
    } else if b == 0x7d {
      t := CloseDoes(pass, text, s, a);
    } else if place == AfterItem {
      var u := CommaDoes(pass, text, s);
      t := MembersBuild(pass, text, u, AfterComma, a);
      SameValues(pass, s, u, t, a, Members(text, s.ptr, place, a, s.alloc));
    } else {
      t := MemberBuilds(pass, text, s, place, a);
    }
  }

  lemma {:induction false} MemberBuilds(pass: Pass, text: seq<Octet>, s: State, place: Place, a: int) returns (t: State)
    requires Runs(pass, text, s) && Open(pass, s, a) && JsonLanguage.AtMembers(s, place) && place != AfterItem
    requires MembersEnd(PARSER, text, s.ptr, place).Some? && At(text, s.ptr) == QUOTE
    requires Expects(pass, s, Members(text, s.ptr, place, a, s.alloc).nodes)
    ensures Same(pass, text, s, t) && Finished(t, s.values[a].parent, MembersEnd(PARSER, text, s.ptr, place).value)
    ensures GotChild(pass, s, t, s.values[a].parent, a)
    ensures Grew(pass, s, t, a, s.values[a].parent, Members(text, s.ptr, place, a, s.alloc))
    decreases |text| - s.ptr, 2
  {
    hide Run, Last, Turn, Took;
    var u := KeyBuilds(pass, text, s, a);
    var key := QuotedBytes(text, s.ptr + 1);
    t := PairBuilds(pass, text, u, a, key);
    hide PairEnd, MembersEnd, QuotedEnd;
    FromKey(pass, s, u, t, a, key, Pair(text, u.ptr, key, a, u.alloc));
  }

  /** What is built from the end of a key on, which has been counted already */
  predicate GrewByKey(pass: Pass, u: State, t: State, a: int, q: int, key: nat, part: Part) {
    && Built(pass, u, t, a, q, part.nodes) && 0 <= a < u.alloc
    && part.kids != [] && part.keys != [] && part.keys[0] == key
    && t.values[a] == Took(pass, Kidded(pass, u.values[a], part.kids[0]), part.kids[1..], part.keys[1..])
    && (pass.Second? ==> u.values[a].length + |part.kids| <= |u.values[a].slots|)
  }

  lemma {:induction false} FromKey(pass: Pass, s: State, u: State, t: State, a: int, key: nat, part: Part)
    requires Open(pass, s, a) && KeyRead(pass, s, u, a, key) && GrewByKey(pass, u, t, a, s.values[a].parent, key, part)
    requires GotChild(pass, u, t, s.values[a].parent, a)
    ensures Grew(pass, s, t, a, s.values[a].parent, part) && GotChild(pass, s, t, s.values[a].parent, a)
  {
  }

  lemma {:induction false} ColonDoes(pass: Pass, text: seq<Octet>, s: State) returns (t: State)
    requires Runs(pass, text, s) && JsonLanguage.AtColon(s) && At(text, s.ptr) == COLON
    ensures Same(pass, text, s, t) && t == s.(flags := s.flags.(needColon := false), ptr := s.ptr + 1)
  {
    t := Step(pass, text, s);
    hide Run, Last;
  }

  lemma {:induction false} PairBuilds(pass: Pass, text: seq<Octet>, s: State, a: int, key: nat) returns (t: State)
    requires Runs(pass, text, s) && Open(pass, s, a) && JsonLanguage.AtColon(s)
    requires PairEnd(PARSER, text, s.ptr).Some?
    requires Expects(pass, s, Pair(text, s.ptr, key, a, s.alloc).nodes)
    ensures Same(pass, text, s, t) && Finished(t, s.values[a].parent, PairEnd(PARSER, text, s.ptr).value)
    ensures GotChild(pass, s, t, s.values[a].parent, a)
    ensures GrewByKey(pass, s, t, a, s.values[a].parent, key, Pair(text, s.ptr, key, a, s.alloc))
    decreases |text| - s.ptr, 5
  {
    hide Run, Last, Turn, Took, Built;
    if IsWhitespace(At(text, s.ptr)) {
      var u := BlankDoes(pass, text, s);
      t := PairBuilds(pass, text, u, a, key);
      SameByKey(pass, s, u, t, a, key, Pair(text, s.ptr, key, a, s.alloc));
    } else {
      var c := ColonDoes(pass, text, s);
      t := ColonBuilds(pass, text, c, a, key);
      ColonPart(text, s, a, key);
      SameByKey(pass, s, c, t, a, key, Pair(text, s.ptr, key, a, s.alloc));
    }
  }

  lemma {:induction false} ColonPart(text: seq<Octet>, s: State, a: int, key: nat)
    requires PairEnd(PARSER, text, s.ptr).Some? && At(text, s.ptr) == COLON && s.ptr < |text| && a >= 0
    ensures var nodes := ItemNodes(text, s.ptr + 1, a, s.alloc);
            var more := Members(text, ItemEnd(PARSER, text, s.ptr + 1).value, AfterItem, a, s.alloc + |nodes|);
            Pair(text, s.ptr, key, a, s.alloc) == Child(s.alloc, [key], nodes, more)
  {
  }

  /** The value of a member, and the rest of the object */
  lemma {:induction false} ColonBuilds(pass: Pass, text: seq<Octet>, s: State, a: int, key: nat) returns (t: State)
    requires Runs(pass, text, s) && Open(pass, s, a) && AtValue(s) && JsonLanguage.InObject(s)
    requires ItemEnd(PARSER, text, s.ptr).Some?
    requires MembersEnd(PARSER, text, ItemEnd(PARSER, text, s.ptr).value, AfterItem).Some?
    requires var nodes := ItemNodes(text, s.ptr, a, s.alloc);
             var more := Members(text, ItemEnd(PARSER, text, s.ptr).value, AfterItem, a, s.alloc + |nodes|);
             Expects(pass, s, nodes + more.nodes)
    ensures Same(pass, text, s, t)
    ensures Finished(t, s.values[a].parent,
                     MembersEnd(PARSER, text, ItemEnd(PARSER, text, s.ptr).value, AfterItem).value)
    ensures GotChild(pass, s, t, s.values[a].parent, a)
    ensures var nodes := ItemNodes(text, s.ptr, a, s.alloc);
            var more := Members(text, ItemEnd(PARSER, text, s.ptr).value, AfterItem, a, s.alloc + |nodes|);
            GrewByKey(pass, s, t, a, s.values[a].parent, key, Child(s.alloc, [key], nodes, more))
    decreases |text| - s.ptr, 4
  {
    hide Run, Last, Turn, Took, Built, Expects;
    var nodes := ItemNodes(text, s.ptr, a, s.alloc);
    var more := Members(text, ItemEnd(PARSER, text, s.ptr).value, AfterItem, a, s.alloc + |nodes|);
    ExpectsFront(pass, s, nodes, more.nodes);
    var u := ItemBuilds(pass, text, s, a);
    AfterChild(pass, s, u, a, nodes, more.nodes);
    t := MembersBuild(pass, text, u, AfterItem, a);
    hide Run, Last, Turn, Took, Built, MembersEnd, ItemEnd, Members, ItemNodes;
    GrewThen(pass, s, u, t, a, s.values[a].parent, nodes, more);
    assert ([s.alloc] + more.kids)[1..] == more.kids && ([key] + more.keys)[1..] == more.keys;
  }

  // ----- whole texts

  /** At the end */
  lemma {:induction false} DoneRuns(pass: Pass, text: seq<Octet>, s: State)
    requires Runs(pass, text, s) && s.flags.done && !s.flags.inString
    ensures Run(pass, text, s) == Accept(s.values)
    ensures Last(pass, text, s).values == s.values && Last(pass, text, s).alloc == s.alloc
    decreases Measure(text, s)
  {
    NotAtEnd(pass, text, s);
    if Turn(pass, text, s).Go? {
      assert Turn(pass, text, s) == Go(s.(ptr := s.ptr + 1));
      hide Turn;
      DoneRuns(pass, text, s.(ptr := s.ptr + 1));
    }
  }

  /** What a pass over the values of a tree starts with */
  predicate Begins(pass: Pass, text: seq<Octet>) {
    pass.Second? ==>
      |pass.measured| == |Tree(text)| && forall k :: 0 <= k < |Tree(text)| ==> pass.measured[k] == Bare(Tree(text)[k])
  }

  /** The values of the tree */
  predicate IsTreeOf(pass: Pass, text: seq<Octet>, values: seq<Value>) {
    |values| == |Tree(text)| && forall k :: 0 <= k < |Tree(text)| ==> values[k] == As(pass, Tree(text)[k])
  }

  /**
   If a pass accepts a text, its values are those of the tree that the grammar reads from it: the first pass without
   memory for children and keys, the second complete. It has gone through all of them.
   */
  lemma {:induction false} PassBuilds(pass: Pass, text: seq<Octet>)
    requires Runs(pass, text, Start(pass)) && Begins(pass, text) && IsText(PARSER, text)
    ensures IsTreeOf(pass, text, Run(pass, text, Start(pass)).values)
    ensures Last(pass, text, Start(pass)).alloc == |Tree(text)|
  {
    var s := Start(pass);
    hide Run, Last, Turn, As;
    var t := ItemBuilds(pass, text, s, NONE);
    DoneRuns(pass, text, t);
  }
}
