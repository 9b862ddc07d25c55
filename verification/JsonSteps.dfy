/**
 The two passes of the JSON parser, turn by turn. The first pass builds the values with their lengths; the
 second allocates memory by those lengths and fills it. Only lengths, positions and the shape of the tree
 are modelled.
 */
module JsonSteps {
  import opened Octets

  /** All ones, less the 8 that may be added before the next check */
  const UINT_MAX: nat := 0xFFFF_FFFF - 8

  datatype Kind = Object | Array | Integer | Double | String | Boolean | Null

  /** A key: where it begins behind the entries of its object, and its length without the NUL */
  datatype Name = Name(offset: nat, length: nat)

  /**
   A value, known by its place in the order of allocation. In an object keyBytes is the number of bytes that
   its keys take so far: the first pass counts them, the second moves object_mem past them. slots and names
   are the memory that the second pass allocates for children and for the places of their keys.
   */
  datatype Value = Value(parent: int, kind: Kind, length: nat, keyBytes: nat, slots: seq<int>, names: seq<Name>)

  const NO_NAME: Name := Name(0, 0)

  /** No value, as a parent or as the top */
  const NONE: int := -1

  datatype Flags = Flags(
    needComma: bool, seekValue: bool, escaped: bool, inString: bool, needColon: bool, done: bool)

  datatype Num = Num(digits: nat, negative: bool, zero: bool, e: bool, gotSign: bool)

  datatype State = State(
    ptr: nat, flags: Flags, num: Num, stringLength: nat, top: int, alloc: nat, values: seq<Value>)

  /** The second pass has the values as the first one left them. */
  datatype Pass = First | Second(measured: seq<Value>)

  /**
   Overrun is a write outside of the memory that is set aside for it, PastEnd a read of the byte after the text,
   and Stuck a turn without progress, or in a state that has no meaning.
   */
  datatype Outcome = Go(s: State) | Accept(values: seq<Value>) | Fail | Overrun | PastEnd | Stuck

  /** The byte at the pointer, and NUL at the end of the text. */
  function At(text: seq<Octet>, i: nat): Octet {
    if i < |text| then text[i] else 0
  }

  predicate IsWhitespace(b: Octet) { b == 0x0a || b == 0x20 || b == 0x09 || b == 0x0d }

  predicate IsDigit(b: Octet) { 0x30 <= b <= 0x39 }

  /** What the second pass takes for a part of a number: digits, + - e E and . */
  predicate IsNumberChar(b: Octet) {
    IsDigit(b) || b == 0x2b || b == 0x2d || b == 0x65 || b == 0x45 || b == 0x2e
  }

  const COMMA: Octet := 0x2c
  const COLON: Octet := 0x3a
  const QUOTE: Octet := 0x22
  const BACKSLASH: Octet := 0x5c

  // ----- values

  predicate InRange(s: State, i: int) { 0 <= i < |s.values| }

  /** The size of an entry of an object, with pointers of eight bytes */
  const ENTRY_SIZE: nat := 24

  /** The bytes for the entries of an object: their number is kept in an int. */
  function ValuesSize(length: nat): int {
    Signed32(ENTRY_SIZE * length % TWO_TO_THE_32)
  }

  /** How many whole entries fit there. */
  function EntryCount(length: nat): nat {
    if ValuesSize(length) <= 0 then 0 else ValuesSize(length) / ENTRY_SIZE
  }

  /** The memory of an object has no size: as an unsigned number it is close to all ones, and is not available. */
  predicate Refused(v: Value) {
    v.kind == Object && v.length > 0 && ValuesSize(v.length) + v.keyBytes < 0
  }

  /** The slots for children that a value is given. */
  function SlotCount(v: Value): nat {
    if v.kind == Object then EntryCount(v.length) else v.length
  }

  /** Starts a value below the top one. */
  function NewValue(pass: Pass, s: State, kind: Kind): Outcome {
    match pass
    case First =>
      Go(s.(values := s.values + [Value(s.top, kind, 0, 0, [], [])], top := |s.values|, alloc := |s.values| + 1))
    case Second(_) =>
      if s.alloc >= |s.values| then Stuck
      else if Refused(s.values[s.alloc]) then Fail
      else Go(s.(values := s.values[s.alloc := Allocated(s.values[s.alloc])], top := s.alloc, alloc := s.alloc + 1))
  }

  /** Memory of the measured size, and the length reset. */
  function Allocated(v: Value): Value {
    match v.kind
    case Array => v.(length := 0, slots := seq(v.length, _ => NONE))
    case Object =>
      var n := EntryCount(v.length);
      v.(length := 0, keyBytes := 0, slots := seq(n, _ => NONE), names := seq(n, _ => NO_NAME))
    case String => v.(length := 0)
    case _ => v
  }

  /** A value is complete: it becomes a child of its parent, which is the top again. */
  function Next(pass: Pass, s: State, ptr: nat): Outcome {
    if !InRange(s, s.top) then Stuck
    else
      var p := s.values[s.top].parent;
      if p == NONE then Go(s.(ptr := ptr, flags := s.flags.(needComma := true, done := true)))
      else if !InRange(s, p) then Stuck
      else
        var parent := s.values[p];
        var seek := s.flags.seekValue || parent.kind == Array;
        if pass.Second? && parent.length >= |parent.slots| then Overrun
        else if parent.length + 1 > UINT_MAX then Fail
        else
          var slots := if pass.Second? then parent.slots[parent.length := s.top] else parent.slots;
          Go(s.(ptr := ptr, flags := s.flags.(needComma := true, seekValue := seek), top := p,
                values := s.values[p := parent.(length := parent.length + 1, slots := slots)]))
  }

  // ----- strings

  function HexValue(c: Octet): Octet {
    if IsDigit(c) then c - 0x30
    else if 0x41 <= c <= 0x46 then c - 0x41 + 10
    else if 0x61 <= c <= 0x66 then c - 0x61 + 10
    else 0xFF
  }

  datatype Hex = BadHex | Hex(value: nat)

  /** Four hexadecimal digits at i. */
  function Hex4(text: seq<Octet>, i: nat): Hex {
    if exists k :: i <= k < i + 4 && HexValue(At(text, k)) == 0xFF then BadHex
    else
      Hex(0x1000 * HexValue(At(text, i)) + 0x100 * HexValue(At(text, i + 1))
          + 0x10 * HexValue(At(text, i + 2)) + HexValue(At(text, i + 3)))
  }

  /** How many bytes a code point takes in UTF-8 */
  function Utf8Length(c: nat): (n: nat)
    ensures 1 <= n <= 4
  {
    if c <= 0x7F then 1 else if c <= 0x7FF then 2 else if c <= 0xFFFF then 3 else 4
  }

  datatype Unicode = BadUnicode | Unicode(last: nat, bytes: nat)

  /**
   A \u escape, with the u at i: its last character, and the bytes it stands for. A surrogate needs a
   second escape.
   */
  function ReadUnicode(text: seq<Octet>, i: nat): (u: Unicode)
    ensures u.Unicode? ==> i < u.last < |text|
  {
    if i + 4 >= |text| || Hex4(text, i + 1).BadHex? then BadUnicode
    else
      var c := Hex4(text, i + 1).value;
      if 0xD800 <= c <= 0xDFFF then
        if i + 10 >= |text| || text[i + 5] != BACKSLASH || text[i + 6] != 0x75 || Hex4(text, i + 7).BadHex? then
          BadUnicode
        else Unicode(i + 10, 4)
      else Unicode(i + 4, Utf8Length(c))
  }

  /** The memory for the keys of an object; there is none without children. */
  function KeyRoom(v: Value): nat {
    if v.length == 0 then 0 else v.keyBytes
  }

  /**
   Whether n more bytes fit the string that is being read. Keys are behind the entries, or, if the size of those
   has become negative, before the memory of the object.
   */
  predicate Fits(measured: seq<Value>, s: State, n: nat) {
    && InRange(s, s.top) && s.top < |measured|
    && match s.values[s.top].kind
       case String => s.stringLength + n <= measured[s.top].length + 1
       case Object =>
         && ValuesSize(measured[s.top].length) >= 0
         && s.values[s.top].keyBytes + s.stringLength + n <= KeyRoom(measured[s.top])
       case _ => false
  }

  function StringAdd(pass: Pass, s: State, n: nat, last: nat): Outcome {
    if pass.Second? && !Fits(pass.measured, s, n) then Overrun
    else Go(s.(stringLength := s.stringLength + n, ptr := last + 1))
  }

  function StringTurn(pass: Pass, text: seq<Octet>, s: State): Outcome {
    var b := At(text, s.ptr);
    if b == 0 then Fail
    else if s.stringLength > UINT_MAX then Fail
    else if s.flags.escaped then
      var t := s.(flags := s.flags.(escaped := false));
      if b == 0x75 then
        match ReadUnicode(text, s.ptr)
        case BadUnicode => Fail
        case Unicode(last, n) => StringAdd(pass, t, n, last)
      else StringAdd(pass, t, 1, s.ptr)
    else if b == BACKSLASH then Go(s.(flags := s.flags.(escaped := true), ptr := s.ptr + 1))
    else if b == QUOTE then
      if pass.Second? && !Fits(pass.measured, s, 1) then Overrun
      else if !InRange(s, s.top) then Stuck
      else StringEnd(pass, s.(flags := s.flags.(inString := false)))
    else StringAdd(pass, s, 1, s.ptr)
  }

  function StringEnd(pass: Pass, s: State): Outcome
    requires InRange(s, s.top)
  {
    var v := s.values[s.top];
    match v.kind
    case String => Next(pass, s.(values := s.values[s.top := v.(length := s.stringLength)]), s.ptr + 1)
    case Object =>
      if pass.Second? && v.length >= |v.names| then Overrun
      else
        var names := if pass.Second? then v.names[v.length := Name(v.keyBytes, s.stringLength)] else v.names;
        Go(s.(values := s.values[s.top := v.(keyBytes := v.keyBytes + s.stringLength + 1, names := names)],
              flags := s.flags.(seekValue := true, needColon := true), ptr := s.ptr + 1))
    case _ => Stuck
  }

  // ----- between values

  function Then(o: Outcome, pass: Pass, last: nat): Outcome {
    if o.Go? then Next(pass, o.s, last + 1) else o
  }

  predicate Spells(text: seq<Octet>, i: nat, word: seq<Octet>) {
    i + |word| <= |text| && text[i..i + |word|] == word
  }

  /** "rue", "alse" and "ull" */
  const TRUE_REST: seq<Octet> := [0x72, 0x75, 0x65]
  const FALSE_REST: seq<Octet> := [0x61, 0x6c, 0x73, 0x65]
  const NULL_REST: seq<Octet> := [0x75, 0x6c, 0x6c]

  /** All that is left of the text, from i on, is the word without its last letter. */
  predicate CutOff(text: seq<Octet>, i: nat, word: seq<Octet>) {
    word != [] && i + |word| == |text| + 1 && text[i..] == word[..|word| - 1]
  }

  /**
   The rest of true, false or null. The check of the length is one too weak: it lets the last letter be read
   from the byte after the text.
   */
  function Literal(pass: Pass, text: seq<Octet>, s: State, kind: Kind, word: seq<Octet>): Outcome {
    if Spells(text, s.ptr + 1, word) then Then(NewValue(pass, s, kind), pass, s.ptr + |word|)
    else if CutOff(text, s.ptr + 1, word) then PastEnd
    else Fail
  }

  function SkipNumber(text: seq<Octet>, i: nat): (j: nat)
    ensures i <= j && (i <= |text| ==> j <= |text|)
    decreases |text| - i
  {
    if i < |text| && IsNumberChar(text[i]) then SkipNumber(text, i + 1) else i
  }

  /** The second pass skips a number at once; the first begins to follow its grammar. */
  function StartNumber(pass: Pass, text: seq<Octet>, s: State): Outcome {
    match pass
    case Second(_) =>
      var o := NewValue(pass, s, Integer);
      if o.Go? then Next(pass, o.s, SkipNumber(text, s.ptr)) else o
    case First =>
      var negative := At(text, s.ptr) == 0x2d;
      var num := Num(0, negative, false, false, false);
      Advance(NewValue(pass, s.(num := num), Integer), if negative then s.ptr + 1 else s.ptr)
  }

  /** The first character of a value. */
  function StartValue(pass: Pass, text: seq<Octet>, s0: State): Outcome {
    var b := At(text, s0.ptr);
    var s := s0.(flags := s0.flags.(seekValue := false));
    if b == 0x7b then Advance(NewValue(pass, s, Object), s.ptr + 1)
    else if b == 0x5b then Advance(NewValue(pass, s.(flags := s.flags.(seekValue := true)), Array), s.ptr + 1)
    else if b == QUOTE then
      Advance(NewValue(pass, s.(flags := s.flags.(inString := true), stringLength := 0), String), s.ptr + 1)
    else if b == 0x74 then Literal(pass, text, s, Boolean, TRUE_REST)
    else if b == 0x66 then Literal(pass, text, s, Boolean, FALSE_REST)
    else if b == 0x6e then Literal(pass, text, s, Null, NULL_REST)
    else if IsDigit(b) || b == 0x2d then StartNumber(pass, text, s)
    else Fail
  }

  function Advance(o: Outcome, ptr: nat): Outcome {
    if o.Go? then Go(o.s.(ptr := ptr)) else o
  }

  function SeekTurn(pass: Pass, text: seq<Octet>, s: State): Outcome {
    var b := At(text, s.ptr);
    if IsWhitespace(b) then Go(s.(ptr := s.ptr + 1))
    else if b == 0x5d then
      if InRange(s, s.top) && s.values[s.top].kind == Array then
        Next(pass, s.(flags := s.flags.(needComma := false, seekValue := false)), s.ptr + 1)
      else Fail
    else if s.flags.needComma then
      if b == COMMA then Go(s.(flags := s.flags.(needComma := false), ptr := s.ptr + 1)) else Fail
    else if s.flags.needColon then
      if b == COLON then Go(s.(flags := s.flags.(needColon := false), ptr := s.ptr + 1)) else Fail
    else StartValue(pass, text, s)
  }

  function ObjectTurn(pass: Pass, text: seq<Octet>, s: State): Outcome {
    var b := At(text, s.ptr);
    if IsWhitespace(b) then Go(s.(ptr := s.ptr + 1))
    else if b == QUOTE then
      if s.flags.needComma then Fail
      else Go(s.(flags := s.flags.(inString := true), stringLength := 0, ptr := s.ptr + 1))
    else if b == 0x7d then Next(pass, s.(flags := s.flags.(needComma := false)), s.ptr + 1)
    else if b == COMMA && s.flags.needComma then
      Go(s.(flags := s.flags.(needComma := false), ptr := s.ptr + 1))
    else Fail
  }

  // ----- numbers in the first pass

  /** One character in a number: it goes on, is wrong, or ended before the character. */
  datatype NumTurn = More(num: Num, kind: Kind) | Wrong | Ended

  function NumberTurn(b: Octet, n: Num, kind: Kind): NumTurn {
    if IsDigit(b) then
      if n.e then More(n.(digits := n.digits + 1, gotSign := true), kind)
      else if kind == Integer then
        if n.zero then Wrong
        else More(n.(digits := n.digits + 1, zero := n.digits == 0 && b == 0x30), kind)
      else More(n.(digits := n.digits + 1), kind)
    else if (b == 0x2b || b == 0x2d) && n.e && !n.gotSign then More(n.(gotSign := true), kind)
    else if b == 0x2e && kind == Integer then
      if n.digits == 0 then Wrong else More(n.(digits := 0), Double)
    else if !n.e then
      if kind == Double && n.digits == 0 then Wrong
      else if b == 0x65 || b == 0x45 then More(n.(e := true, digits := 0, zero := false), Double)
      else Ended
    else if n.digits == 0 then Wrong
    else Ended
  }

  function DigitsTurn(pass: Pass, text: seq<Octet>, s: State): Outcome
    requires InRange(s, s.top)
  {
    var v := s.values[s.top];
    match NumberTurn(At(text, s.ptr), s.num, v.kind)
    case Wrong => Fail
    case More(num, kind) =>
      Go(s.(num := num, values := s.values[s.top := v.(kind := kind)], ptr := s.ptr + 1))
    case Ended => Next(pass, s, s.ptr)
  }

  // ----- one turn of the loop

  predicate IsNumber(k: Kind) { k == Integer || k == Double }

  function Turn(pass: Pass, text: seq<Octet>, s: State): Outcome {
    var b := At(text, s.ptr);
    if s.flags.inString then StringTurn(pass, text, s)
    else if s.flags.done then
      if b == 0 then Accept(s.values)
      else if IsWhitespace(b) then Go(s.(ptr := s.ptr + 1)) else Fail
    else if s.flags.seekValue then SeekTurn(pass, text, s)
    else if !InRange(s, s.top) then Stuck
    else if s.values[s.top].kind == Object then ObjectTurn(pass, text, s)
    else if IsNumber(s.values[s.top].kind) then DigitsTurn(pass, text, s)
    else Go(s.(ptr := s.ptr + 1))
  }

  const NO_FLAGS: Flags := Flags(false, false, false, false, false, false)
  const NO_NUM: Num := Num(0, false, false, false, false)

  /** The state before a pass. */
  function Start(pass: Pass): State {
    State(0, NO_FLAGS.(seekValue := true), NO_NUM, 0, NONE, 0, if pass.First? then [] else pass.measured)
  }

  // ----- whole passes

  /** A value may start at this turn. */
  predicate AtValue(s: State) {
    !s.flags.inString && !s.flags.done && s.flags.seekValue && !s.flags.needComma && !s.flags.needColon
  }

  predicate InNumber(s: State) {
    && !s.flags.inString && !s.flags.done && !s.flags.seekValue
    && InRange(s, s.top) && IsNumber(s.values[s.top].kind)
  }

  /** No character of the number has been read yet. */
  predicate FreshNumber(s: State) {
    InNumber(s) && s.values[s.top].kind == Integer && s.num == NO_NUM
  }

  /**
   How far a pass is from its end. Two turns leave the pointer where it is: the one that starts a number and
   the one that ends it.
   */
  function Measure(text: seq<Octet>, s: State): nat {
    var rest := if s.ptr <= |text| then |text| - s.ptr else 0;
    4 * rest + if FreshNumber(s) then 1 else if InNumber(s) then 3 else 2
  }

  function Run(pass: Pass, text: seq<Octet>, s: State): Outcome
    decreases Measure(text, s)
  {
    match Turn(pass, text, s)
    case Go(t) => if Measure(text, t) < Measure(text, s) then Run(pass, text, t) else Stuck
    case o => o
  }

  /** The state in which a pass ends */
  function Last(pass: Pass, text: seq<Octet>, s: State): State
    decreases Measure(text, s)
  {
    match Turn(pass, text, s)
    case Go(t) => if Measure(text, t) < Measure(text, s) then Last(pass, text, t) else s
    case _ => s
  }
}
