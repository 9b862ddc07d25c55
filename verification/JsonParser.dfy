/**
 The JSON parser as the loop that it is: flags, a pointer, and values that are updated in place. The source does
 not check the bounds of the memory it fills. Here a write outside of them ends the pass with a signal of its own,
 and the two passes prove when that happens.
 */
module JsonParser {
  import opened Octets
  import opened JsonSteps
  import opened JsonFirstPass
  import opened JsonMemory
  import opened JsonTwoPasses
  import opened JsonFree

  import JsonBuild
  import JsonGrammar
  import JsonLanguage
  import JsonTree

  /** How a turn ends: with the next one, with the end of the pass, or with an error. */
  datatype Signal = Continue | Accepted | Failed | ReadPastEnd | WroteOutside

  // ----- what is requested from the allocator

  /** The memory for children, keys and characters of the first n values; what is empty has none. */
  function Requested(measured: seq<Value>, n: nat): seq<Block>
    requires n <= |measured|
  {
    if n == 0 then []
    else
      var v := measured[n - 1];
      var some := match v.kind
        case Array => v.length > 0
        case Object => v.length > 0
        case String => true
        case _ => false;
      Requested(measured, n - 1) + if some then [Data(n - 1)] else []
  }

  /** The values, without anything that belongs to them, in the order in which they are created */
  function Nodes(n: nat): (blocks: seq<Block>)
    ensures |blocks| == n
  {
    seq(n, i requires 0 <= i < n => Node(i))
  }

  /** Values come after their parents, and those to come in the second pass are as the first has left them. */
  predicate Tidy(pass: Pass, values: seq<Value>, top: int, alloc: nat) {
    && -1 <= top < alloc <= |values|
    && (forall i :: 0 <= i < |values| ==> -1 <= values[i].parent < i)
    && match pass
       case First => alloc == |values|
       case Second(measured) =>
         |measured| == |values| && forall i :: alloc <= i < |values| ==> values[i] == measured[i]
  }

  /** An array or object above the top gets another child, and is the top then. */
  lemma {:induction false} TidyUp(pass: Pass, values: seq<Value>, top: int, alloc: nat)
    requires Tidy(pass, values, top, alloc) && 0 <= top
    ensures top < |values| && -1 <= values[top].parent < top
    ensures var p := values[top].parent;
            p >= 0 ==> forall v: Value :: v.parent == values[p].parent ==> Tidy(pass, values[p := v], p, alloc)
  {
  }

  class Parser {
    const text: seq<Octet>
    var firstPass: bool
    var ptr: nat
    var needComma: bool
    var seekValue: bool
    var escaped: bool
    var inString: bool
    var needColon: bool
    var done: bool
    var num: Num
    var stringLength: nat
    var top: int
    var alloc: nat
    var values: seq<Value>

    /** Which pass it is; the second one knows the sizes that it has requested. */
    var pass: Pass

    /** All the memory that has been allocated, in order */
    ghost var blocks: seq<Block>

    function S(): State reads this {
      State(ptr, Flags(needComma, seekValue, escaped, inString, needColon, done), num, stringLength, top, alloc, values)
    }

    /** The outcome of a part of a turn is what the signal and the fields say. */
    ghost predicate Did(o: Outcome, r: Signal) reads this {
      match o
      case Go(t) => r == Continue && S() == t
      case Accept(v) => r == Accepted && values == v
      case Fail => r == Failed
      case PastEnd => r == ReadPastEnd
      case Overrun => r == WroteOutside
      case Stuck => false
    }

    ghost predicate Sound(o: Outcome) {
      o != Stuck
    }

    ghost predicate PassOk() reads this {
      && firstPass == pass.First? && Tidy(pass, values, top, alloc)
      && blocks == if pass.First? then Nodes(alloc) else Nodes(|pass.measured|) + Requested(pass.measured, alloc)
    }

    constructor (text: seq<Octet>)
      ensures this.text == text && S() == Start(First) && PassOk() && pass == First
    {
      this.text := text;
      firstPass, pass := true, First;
      ptr, stringLength, top, alloc, values := 0, 0, NONE, 0, [];
      needComma, seekValue, escaped, inString, needColon, done := false, true, false, false, false, false;
      num := NO_NUM;
      blocks := [];
    }

    // ----- values

    method AddValue(kind: Kind) returns (r: Signal)
      requires PassOk() && Sound(NewValue(pass, S(), kind))
      modifies `values, `top, `alloc, `blocks
      ensures Did(NewValue(pass, old(S()), kind), r) && PassOk()
    {
      hide Refused, EntryCount;
      if firstPass {
        blocks := blocks + [Node(|values|)];
        values := values + [Value(top, kind, 0, 0, [], [])];
        top := |values| - 1;
        alloc := |values|;
        return Continue;
      }
      r := NextValue();
    }

    /** In the second pass: the memory of the next value */
    method NextValue() returns (r: Signal)
      requires PassOk() && pass.Second? && alloc < |values|
      modifies `values, `top, `alloc, `blocks
      ensures Did(NewValue(pass, old(S()), Null), r) && PassOk()
    {
      hide Refused, EntryCount, Allocated;
      var value := values[alloc];
      if Refused(value) {
        return Failed;
      }
      match value.kind {
        case Array =>
          if value.length != 0 {
            blocks := blocks + [Data(alloc)];
          }
        case Object =>
          if value.length != 0 {
            blocks := blocks + [Data(alloc)];
          }
        case String =>
          blocks := blocks + [Data(alloc)];
        case _ =>
      }
      top := alloc;
      alloc := alloc + 1;
      values := values[top := Allocated(value)];
      AllocatedParent(value);
      return Continue;
    }

    method FinishValue(next: nat) returns (r: Signal)
      requires PassOk() && Sound(Next(pass, S(), next))
      modifies this
      ensures Did(Next(pass, old(S()), next), r) && pass == old(pass) && PassOk()
    {
      hide Requested, Nodes, Tidy;
      TidyUp(pass, values, top, alloc);
      var p := values[top].parent;
      if p == NONE {
        ptr := next;
        needComma, done := true, true;
        return Continue;
      }
      var parent := values[p];
      if !firstPass && parent.length >= |parent.slots| {
        return WroteOutside;
      }
      if parent.length + 1 > UINT_MAX {
        return Failed;
      }
      needComma := true;
      if parent.kind == Array {
        seekValue := true;
      }
      if !firstPass {
        parent := parent.(slots := parent.slots[parent.length := top]);
      }
      values := values[p := parent.(length := parent.length + 1)];
      top := p;
      ptr := next;
      return Continue;
    }

    // ----- strings

    method InString() returns (r: Signal)
      requires PassOk() && Sound(StringTurn(pass, text, S()))
      modifies this
      ensures Did(StringTurn(pass, text, old(S())), r) && pass == old(pass) && PassOk()
    {
      hide Next, ReadUnicode, Fits;
      var b := At(text, ptr);
      if b == 0 {
        return Failed;
      }
      if stringLength > UINT_MAX {
        return Failed;
      }
      if escaped {
        escaped := false;
        if b == 0x75 {
          var u := ReadUnicode(text, ptr);
          if u.BadUnicode? {
            return Failed;
          }
          if !firstPass && !Fits(pass.measured, S(), u.bytes) {
            return WroteOutside;
          }
          stringLength := stringLength + u.bytes;
          ptr := u.last + 1;
        } else {
          r := AddByte();
          return;
        }
        return Continue;
      }
      if b == BACKSLASH {
        escaped := true;
        ptr := ptr + 1;
        return Continue;
      }
      if b == QUOTE {
        if !firstPass && !Fits(pass.measured, S(), 1) {
          return WroteOutside;
        }
        inString := false;
        r := EndString();
        return;
      }
      r := AddByte();
    }

    method AddByte() returns (r: Signal)
      requires PassOk()
      modifies `stringLength, `ptr
      ensures Did(StringAdd(pass, old(S()), 1, old(ptr)), r) && PassOk()
    {
      hide Fits;
      if !firstPass && !Fits(pass.measured, S(), 1) {
        return WroteOutside;
      }
      stringLength := stringLength + 1;
      ptr := ptr + 1;
      return Continue;
    }

    method EndString() returns (r: Signal)
      requires PassOk() && InRange(S(), top) && Sound(StringEnd(pass, S()))
      modifies this
      ensures Did(StringEnd(pass, old(S())), r) && pass == old(pass) && PassOk()
    {
      hide Next;
      var v := values[top];
      if v.kind == String {
        values := values[top := v.(length := stringLength)];
        r := FinishValue(ptr + 1);
        return;
      }
      if !firstPass && v.length >= |v.names| {
        return WroteOutside;
      }
      if !firstPass {
        v := v.(names := v.names[v.length := Name(v.keyBytes, stringLength)]);
      }
      values := values[top := v.(keyBytes := v.keyBytes + stringLength + 1)];
      seekValue, needColon := true, true;
      ptr := ptr + 1;
      return Continue;
    }

    // ----- between values

    method AddLiteral(kind: Kind, word: seq<Octet>) returns (r: Signal)
      requires PassOk() && Sound(Literal(pass, text, S(), kind, word))
      modifies this
      ensures Did(Literal(pass, text, old(S()), kind, word), r) && pass == old(pass) && PassOk()
    {
      hide NewValue, Next;
      if ptr + 1 + |word| <= |text| && text[ptr + 1..ptr + 1 + |word|] == word {
        r := AddValue(kind);
        if r == Continue {
          r := FinishValue(ptr + |word| + 1);
        }
      } else if CutOff(text, ptr + 1, word) {
        r := ReadPastEnd;
      } else {
        r := Failed;
      }
    }

    method AddNumber() returns (r: Signal)
      requires PassOk() && !seekValue && (IsDigit(At(text, ptr)) || At(text, ptr) == 0x2d)
      requires Sound(StartNumber(pass, text, S()))
      modifies this
      ensures Did(StartNumber(pass, text, old(S())), r) && pass == old(pass) && PassOk()
    {
      hide NewValue, Next, Tidy, Requested, Nodes;
      var b := At(text, ptr);
      if !firstPass {
        r := AddValue(Integer);
        if r != Continue {
          return;
        }
        var next := ptr;
        while next < |text| && IsNumberChar(text[next])
          invariant SkipNumber(text, next) == SkipNumber(text, ptr)
          decreases |text| - next
        {
          next := next + 1;
        }
        r := FinishValue(next);
        return;
      }
      num := Num(0, b == 0x2d, false, false, false);
      r := AddValue(Integer);
      if r == Continue && b == 0x2d {
        ptr := ptr + 1;
      }
    }

    /** Creates a value and moves past its first character. */
    method OpenValue(kind: Kind) returns (r: Signal)
      requires PassOk() && Sound(Advance(NewValue(pass, S(), kind), ptr + 1))
      modifies this
      ensures Did(Advance(NewValue(pass, old(S()), kind), old(ptr) + 1), r) && pass == old(pass) && PassOk()
    {
      hide NewValue;
      r := AddValue(kind);
      if r == Continue {
        ptr := ptr + 1;
      }
    }

    method BeginValue() returns (r: Signal)
      requires PassOk() && Sound(StartValue(pass, text, S()))
      modifies this
      ensures Did(StartValue(pass, text, old(S())), r) && pass == old(pass) && PassOk()
    {
      hide NewValue, Next, Literal, StartNumber, Advance;
      var b := At(text, ptr);
      seekValue := false;
      if b == 0x7b {
        r := OpenValue(Object);
      } else if b == 0x5b {
        seekValue := true;
        r := OpenValue(Array);
      } else if b == QUOTE {
        inString := true;
        stringLength := 0;
        r := OpenValue(String);
      } else if b == 0x74 {
        r := AddLiteral(Boolean, TRUE_REST);
      } else if b == 0x66 {
        r := AddLiteral(Boolean, FALSE_REST);
      } else if b == 0x6e {
        r := AddLiteral(Null, NULL_REST);
      } else if IsDigit(b) || b == 0x2d {
        r := AddNumber();
      } else {
        r := Failed;
      }
    }

    method SeekValue() returns (r: Signal)
      requires PassOk() && Sound(SeekTurn(pass, text, S()))
      modifies this
      ensures Did(SeekTurn(pass, text, old(S())), r) && pass == old(pass) && PassOk()
    {
      hide Next, StartValue;
      var b := At(text, ptr);
      if IsWhitespace(b) {
      } else if b == 0x5d {
        if !(0 <= top < |values| && values[top].kind == Array) {
          return Failed;
        }
        needComma, seekValue := false, false;
        r := FinishValue(ptr + 1);
        return;
      } else if needComma {
        if b != COMMA {
          return Failed;
        }
        needComma := false;
      } else if needColon {
        if b != COLON {
          return Failed;
        }
        needColon := false;
      } else {
        r := BeginValue();
        return;
      }
      ptr := ptr + 1;
      return Continue;
    }

    method InObject() returns (r: Signal)
      requires PassOk() && Sound(ObjectTurn(pass, text, S()))
      modifies this
      ensures Did(ObjectTurn(pass, text, old(S())), r) && pass == old(pass) && PassOk()
    {
      hide Next;
      var b := At(text, ptr);
      if IsWhitespace(b) {
      } else if b == QUOTE {
        if needComma {
          return Failed;
        }
        inString := true;
        stringLength := 0;
      } else if b == 0x7d {
        needComma := false;
        r := FinishValue(ptr + 1);
        return;
      } else if b == COMMA && needComma {
        needComma := false;
      } else {
        return Failed;
      }
      ptr := ptr + 1;
      return Continue;
    }

    method InDigits() returns (r: Signal)
      requires PassOk() && InRange(S(), top) && Sound(DigitsTurn(pass, text, S()))
      modifies this
      ensures Did(DigitsTurn(pass, text, old(S())), r) && pass == old(pass) && PassOk()
    {
      hide Next;
      var v := values[top];
      match NumberTurn(At(text, ptr), num, v.kind) {
        case Wrong => r := Failed;
        case More(n, kind) =>
          num := n;
          values := values[top := v.(kind := kind)];
          ptr := ptr + 1;
          r := Continue;
        case Ended => r := FinishValue(ptr);
      }
    }

    // ----- the loop

    method OneTurn() returns (r: Signal)
      requires PassOk() && Sound(Turn(pass, text, S()))
      modifies this
      ensures Did(Turn(pass, text, old(S())), r) && pass == old(pass) && PassOk()
      ensures r == Accepted ==> S() == old(S())
    {
      JsonBuild.NotAtEnd(pass, text, S());
      hide StringTurn, SeekTurn, ObjectTurn, DigitsTurn;
      var b := At(text, ptr);
      if inString {
        r := InString();
      } else if done {
        if b == 0 {
          return Accepted;
        }
        if !IsWhitespace(b) {
          return Failed;
        }
        ptr := ptr + 1;
        r := Continue;
      } else if seekValue {
        r := SeekValue();
      } else if values[top].kind == Object {
        r := InObject();
      } else if IsNumber(values[top].kind) {
        r := InDigits();
      } else {
        ptr := ptr + 1;
        r := Continue;
      }
    }

    /** One pass over the text. */
    method RunPass() returns (r: Signal)
      requires PassOk() && Sound(Run(pass, text, S()))
      modifies this
      ensures r != Continue && Did(Run(pass, text, old(S())), r) && pass == old(pass) && PassOk()
      ensures r == Accepted ==> S() == Last(pass, text, old(S()))
    {
      hide Turn, Measure, Tidy;
      ghost var o, last := Run(pass, text, S()), Last(pass, text, S());
      NeverGo(pass, text, S());
      r := Continue;
      while r == Continue
        invariant PassOk() && pass == old(pass)
        invariant r == Continue ==> Run(pass, text, S()) == o && Last(pass, text, S()) == last
        invariant r != Continue ==> Did(o, r) && (r == Accepted ==> S() == last)
        decreases r == Continue, Measure(text, S())
      {
        r := OneTurn();
      }
    }

    method ClearFlags()
      modifies `needComma, `seekValue, `escaped, `inString, `needColon, `done
      ensures needComma == escaped == inString == needColon == done == false && seekValue
    {
      needComma, seekValue, escaped, inString, needColon, done := false, true, false, false, false, false;
    }

    /** Starts again at the beginning of the text, with the values of the first pass. */
    method Rewind()
      requires firstPass && PassOk()
      modifies this
      ensures pass == Second(old(values)) && PassOk() && S() == Start(pass) && blocks == old(blocks)
    {
      hide Run, Turn, Did, Sound, IsTree, Completes, Nodes;
      NoRequests(values);
      ClearFlags();
      firstPass, pass := false, Second(values);
      ptr, stringLength, top, alloc, num := 0, 0, NONE, 0, NO_NUM;
    }
  }

  lemma {:induction false} AllocatedParent(v: Value)
    ensures Allocated(v).parent == v.parent
  {
  }

  lemma {:induction false} NoRequests(measured: seq<Value>)
    ensures Nodes(|measured|) + Requested(measured, 0) == Nodes(|measured|)
  {
  }

  lemma {:induction false} NeverGo(pass: Pass, text: seq<Octet>, s: State)
    ensures !Run(pass, text, s).Go?
    decreases Measure(text, s)
  {
    hide Turn, Measure;
    var o := Turn(pass, text, s);
    if o.Go? && Measure(text, o.s) < Measure(text, s) {
      NeverGo(pass, text, o.s);
    }
  }

  /** The text without a UTF-8 byte order mark */
  function SkipBom(json: seq<Octet>): seq<Octet> {
    if |json| >= 3 && json[..3] == [0xEF, 0xBB, 0xBF] then json[3..] else json
  }

  /** What the first pass makes of a text. */
  function Measured(json: seq<Octet>): Outcome {
    Run(First, SkipBom(json), Start(First))
  }

  /** What the second pass makes of it. */
  function SecondRun(json: seq<Octet>, measured: seq<Value>): Outcome {
    Run(Second(measured), SkipBom(json), Start(Second(measured)))
  }

  /** The values are those of the second pass: the tree of the text. */
  ghost predicate Parsed(json: seq<Octet>, measured: seq<Value>, values: seq<Value>) {
    && SecondRun(json, measured) == Accept(values) && Completes(Accept(values), measured)
    && JsonGrammar.IsText(JsonGrammar.PARSER, SkipBom(json)) && values == JsonTree.Tree(SkipBom(json))
  }

  /** The second pass succeeds exactly if its objects are not too big. */
  ghost predicate SecondEnds(json: seq<Octet>, measured: seq<Value>, r: Signal, values: seq<Value>) {
    && r in {Accepted, Failed, WroteOutside}
    && (r == Accepted <==> AllSmall(measured)) && (r == Accepted ==> Parsed(json, measured, values))
    && (r == WroteOutside <==> Overruns(measured)) && (r == Failed <==> Refuses(measured))
  }

  /**
   Parses a text. If the first pass accepts and no object has more than 89478485 members, the second one builds the
   tree that the grammar reads from the text; an object with more is overrun, or refused memory. Otherwise the first
   pass fails, and the values that it has created are released, or it has read the byte after the text. Of a tree all
   the memory is allocated that its values need.
   */
  method Parse(json: seq<Octet>) returns (r: Signal, values: seq<Value>, freed: seq<Block>, ghost blocks: seq<Block>)
    ensures match Measured(json)
            case Accept(measured) => SecondEnds(json, measured, r, values) && freed == []
            case Fail => r == Failed && freed == Nodes(|values|) == blocks
            case PastEnd => r == ReadPastEnd && freed == []
            case _ => false
    ensures r == Accepted ==> blocks == Nodes(|values|) + Requested(Measured(json).values, |values|)
  {
    var text := json;
    if |json| >= 3 && json[..3] == [0xEF, 0xBB, 0xBF] {
      text := json[3..];
    }
    hide Turn, Measure, Run, Last, Completes, AllSmall, Overruns, Refuses, Requested, Nodes, Tidy, SecondEnds;
    var p := new Parser(text);
    StartOk(text);
    FirstPassEnds(text, Start(First));
    r := p.RunPass();
    freed := [];
    if r == Accepted {
      r := SecondPass(p, json);
    } else if r == Failed {
      freed := FreeNodes(|p.values|);
    }
    values, blocks := p.values, p.blocks;
  }

  /** In the second pass all the values are those of the tree, and all have been gone through. */
  lemma {:induction false} BothBuild(text: seq<Octet>, measured: seq<Value>, values: seq<Value>)
    requires Run(First, text, Start(First)) == Accept(measured)
    requires Run(Second(measured), text, Start(Second(measured))) == Accept(values)
    ensures JsonGrammar.IsText(JsonGrammar.PARSER, text) && values == JsonTree.Tree(text)
    ensures Last(Second(measured), text, Start(Second(measured))).alloc == |measured| == |values|
  {
    hide Run, Last, JsonTree.Tree, JsonGrammar.IsText;
    JsonLanguage.AcceptedTexts(text);
    JsonBuild.PassBuilds(First, text);
    JsonBuild.PassBuilds(Second(measured), text);
  }

  /** Releases the values in the order in which they were created. */
  method FreeNodes(n: nat) returns (freed: seq<Block>)
    ensures freed == Nodes(n)
  {
    freed := [];
    var alloc := 0;
    while alloc < n
      invariant alloc <= n && freed == Nodes(alloc)
    {
      freed := freed + [Node(alloc)];
      alloc := alloc + 1;
    }
  }

  lemma {:induction false} SecondOutcome(text: seq<Octet>, measured: seq<Value>)
    requires Run(First, text, Start(First)) == Accept(measured)
    ensures var o := Run(Second(measured), text, Start(Second(measured)));
            && (o.Accept? || o == Overrun || o == Fail)
            && (o.Accept? <==> AllSmall(measured)) && (o.Accept? ==> Completes(o, measured))
            && (o == Overrun <==> Overruns(measured)) && (o == Fail <==> Refuses(measured))
  {
    hide Run, AllSmall, Overruns, Refuses, Filled, IsTree;
    TwoPassesAgree(text);
    OneOfThree(measured);
  }

  method SecondPass(p: Parser, ghost json: seq<Octet>) returns (r: Signal)
    requires p.PassOk() && p.pass == First && p.text == SkipBom(json) && Measured(json) == Accept(p.values)
    modifies p
    ensures SecondEnds(json, old(p.values), r, p.values)
    ensures r == Accepted ==>
              |p.values| == |old(p.values)| && p.blocks == Nodes(|p.values|) + Requested(old(p.values), |p.values|)
  {
    hide Run, Last, JsonTree.Tree, JsonGrammar.IsText, Requested, Nodes, Completes, AllSmall, Overruns, Refuses, Tidy;
    ghost var measured := p.values;
    SecondOutcome(p.text, measured);
    p.Rewind();
    NeverGo(p.pass, p.text, Start(p.pass));
    r := p.RunPass();
    if r == Accepted {
      BothBuild(p.text, measured, p.values);
    }
  }

  // ----- everything is released

  /** Exactly the blocks that have been allocated are released, each once. */
  ghost predicate Balanced(taken: seq<Block>, freed: seq<Block>) {
    && (forall b :: b in taken <==> b in freed)
    && (forall j, k :: 0 <= j < k < |taken| ==> taken[j] != taken[k])
    && (forall j, k :: 0 <= j < k < |freed| ==> freed[j] != freed[k])
  }

  lemma {:induction false} RequestedBlocks(measured: seq<Value>, n: nat)
    requires n <= |measured|
    ensures forall b :: b in Requested(measured, n) <==>
              && b.Data? && 0 <= b.i < n
              && match measured[b.i].kind
                 case String => true
                 case Array => measured[b.i].length > 0
                 case Object => measured[b.i].length > 0
                 case _ => false
    ensures var r := Requested(measured, n); forall j, k :: 0 <= j < k < |r| ==> r[j] != r[k]
  {
    if n > 0 {
      RequestedBlocks(measured, n - 1);
      assert forall b :: b in Requested(measured, n - 1) ==> b.i < n - 1;
    }
  }

  lemma {:induction false} NodesBlocks(n: nat)
    ensures forall b :: b in Nodes(n) <==> b.Node? && 0 <= b.i < n
    ensures forall j, k :: 0 <= j < k < n ==> Nodes(n)[j] != Nodes(n)[k]
  {
    forall b ensures b in Nodes(n) <==> b.Node? && 0 <= b.i < n {
      if b.Node? && 0 <= b.i < n {
        assert Nodes(n)[b.i] == b;
      }
    }
  }

  lemma {:induction false} AllBalanced(measured: seq<Value>, tree: seq<Value>, blocks: seq<Block>, freed: seq<Block>)
    requires Filled(measured, tree) && AllFreedOnce(tree, freed)
    requires blocks == Nodes(|tree|) + Requested(measured, |tree|)
    ensures Balanced(blocks, freed)
  {
    hide Before, Requested, Nodes, IsTree;
    RequestedBlocks(measured, |tree|);
    NodesBlocks(|tree|);
    forall x | 0 <= x < |tree| ensures tree[x].kind == measured[x].kind && tree[x].length == measured[x].length {
      assert JsonTwoPasses.Twin(measured[x], measured[x], tree[x]);
    }
    hide Filled;
    forall b ensures b in blocks <==> b in freed {
      assert b in blocks <==> b in Nodes(|tree|) || b in Requested(measured, |tree|);
    }
  }

  /** Every tree that the parser builds is released completely, and so is what a failing first pass has created. */
  method ParseThenFree(json: seq<Octet>)
    returns (r: Signal, tree: seq<Value>, freed: seq<Block>, ghost blocks: seq<Block>)
    ensures match Measured(json)
            case Accept(measured) =>
              && SecondEnds(json, measured, r, tree)
              && (r == Accepted ==> AllFreedOnce(tree, freed) && Balanced(blocks, freed))
              && (r != Accepted ==> freed == [])
            case Fail => r == Failed && Balanced(blocks, freed)
            case PastEnd => r == ReadPastEnd && freed == []
            case _ => false
  {
    hide AllFreedOnce, SecondRun, Measured, AllSmall, Overruns, Refuses, Balanced, Requested, Nodes, Filled, IsTree,
         JsonTree.Tree, JsonGrammar.IsText;
    r, tree, freed, blocks := Parse(json);
    if r == Accepted {
      var heap := new Value[|tree|](i requires 0 <= i < |tree| => tree[i]);
      assert heap[..] == tree;
      ghost var log;
      freed, log := FreeValue(heap);
      AllBalanced(Measured(json).values, tree, blocks, freed);
    } else if Measured(json).Fail? {
      NodesBalanced(|tree|);
    }
  }

  lemma {:induction false} NodesBalanced(n: nat)
    ensures Balanced(Nodes(n), Nodes(n))
  {
  }
}
