/** The first pass accepts exactly the texts of the parser's grammar. */
module JsonLanguage {
  import opened Octets
  import opened Wrappers
  import opened JsonSteps
  import opened JsonFirstPass
  import opened JsonNumbers
  import opened JsonGrammar

  import JsonTwoPasses

  // ----- no length gets too long

  predicate LengthsTo(values: seq<Value>, n: int) {
    forall i :: 0 <= i < |values| && IsContainer(values[i].kind) ==> values[i].length <= n
  }

  /** No length gets beyond its type: the text is not as long, or it is accepted. */
  predicate Bounded(text: seq<Octet>, s: State) {
    |text| <= UINT_MAX || Run(First, text, s).Accept?
  }

  /** A state of the first pass: what is counted has been read. */
  predicate Good(text: seq<Octet>, s: State) {
    && Ok(text, s) && Bounded(text, s)
    && (s.flags.inString ==> s.stringLength <= s.ptr)
    && LengthsTo(s.values, if InNumber(s) && !FreshNumber(s) then s.ptr - 1 else s.ptr)
  }

  /** The pass goes on from t as it does from s. */
  predicate Goes(text: seq<Octet>, s: State, t: State) {
    Good(text, t) && Run(First, text, t) == Run(First, text, s)
  }

  lemma {:induction false} Stepped(text: seq<Octet>, s: State, t: State)
    requires Good(text, s) && Turn(First, text, s) == Go(t)
    requires t.flags.inString ==> t.stringLength <= t.ptr
    requires LengthsTo(t.values, if InNumber(t) && !FreshNumber(t) then t.ptr - 1 else t.ptr)
    ensures Goes(text, s, t)
  {
    TurnOk(text, s);
    hide Ok, Turn, Measure, InNumber, LengthsTo;
  }

  lemma {:induction false} Halts(text: seq<Octet>, s: State)
    requires !Turn(First, text, s).Go? && !Turn(First, text, s).Accept?
    ensures !Run(First, text, s).Accept?
  {
    hide Turn;
  }

  // ----- after a value

  /** The values up to p are there with their kinds. */
  predicate SameTo(v: seq<Value>, w: seq<Value>, p: int) {
    && p < |v| && p < |w|
    && forall i :: 0 <= i <= p ==> v[i].kind == w[i].kind && v[i].parent == w[i].parent
  }

  /** A value below p is complete, and what follows it begins at j. */
  predicate Resumed(values: seq<Value>, p: int, t: State, j: nat) {
    && t.ptr == j && !t.flags.inString && t.flags.needComma && !t.flags.needColon
    && if p == NONE then t.flags.done
       else
         && !t.flags.done && t.top == p && 0 <= p && SameTo(values, t.values, p)
         && t.flags.seekValue == (values[p].kind == Array)
  }

  /** What a rule of the grammar says about the pass from s on, which gets to t. */
  predicate Leads(text: seq<Octet>, s: State, p: int, r: Option<nat>, t: State) {
    match r
    case None => !Run(First, text, s).Accept?
    case Some(j) => Goes(text, s, t) && Resumed(s.values, p, t, j)
  }

  /** A turn at s completes the value at the top of u. */
  lemma {:induction false} NextRuns(text: seq<Octet>, s: State, u: State, ptr: nat) returns (t: State)
    requires Good(text, s) && Turn(First, text, s) == Next(First, u, ptr)
    requires Closing(u) && !u.flags.needColon && ptr <= |text| && LengthsTo(u.values, ptr - 1)
    ensures Turn(First, text, s) == Go(t) && Goes(text, s, t) && !InNumber(t)
    ensures Resumed(u.values, u.values[u.top].parent, t, ptr)
  {
    NotFail(text, s);
    hide Turn, Run, Ok;
    NextOk(text, u, ptr);
    assert ParentOk(u.values, u.top);
    t := Next(First, u, ptr).s;
    Stepped(text, s, t);
  }

  lemma {:induction false} NotFail(text: seq<Octet>, s: State)
    requires Bounded(text, s)
    ensures |text| <= UINT_MAX || Turn(First, text, s) != Fail
  {
    hide Turn;
  }

  lemma {:induction false} NotLong(text: seq<Octet>, s: State)
    requires Good(text, s) && s.flags.inString
    ensures At(text, s.ptr) != 0 ==> s.stringLength <= UINT_MAX
  {
    NotFail(text, s);
  }

  /** s leads where t leads, if the values up to p are the same. */
  lemma {:induction false} LeadsFrom(text: seq<Octet>, s: State, s': State, p: int, r: Option<nat>, t: State)
    requires Goes(text, s, s') && Leads(text, s', p, r, t)
    requires p == NONE || (0 <= p && SameTo(s.values, s'.values, p))
    ensures Leads(text, s, p, r, t)
  {
    hide Good, Run;
  }

  // ----- white space

  lemma {:induction false} Blank(text: seq<Octet>, s: State) returns (t: State)
    requires Good(text, s) && !s.flags.inString && !InNumber(s) && IsWhitespace(At(text, s.ptr))
    ensures t == s.(ptr := s.ptr + 1) && s.ptr < |text| && Goes(text, s, t)
  {
    t := s.(ptr := s.ptr + 1);
    assert Turn(First, text, s) == Go(t);
    hide Turn;
    Stepped(text, s, t);
  }

  /** After the value of the text only white space may follow. */
  lemma {:induction false} DoneRuns(text: seq<Octet>, s: State)
    requires Good(text, s) && s.flags.done && !s.flags.inString
    ensures Run(First, text, s).Accept? <==> IsTrail(PARSER, text, s.ptr)
    decreases |text| - s.ptr
  {
    hide Good;
    if At(text, s.ptr) != 0 && IsWhitespace(At(text, s.ptr)) {
      var t := Blank(text, s);
      DoneRuns(text, t);
    } else if s.ptr < |text| && At(text, s.ptr) != 0 {
      Halts(text, s);
    }
  }

  // ----- strings

  /** The same place, further on in the string. */
  predicate InSameString(s: State, t: State) {
    t == s.(ptr := t.ptr, stringLength := t.stringLength)
  }

  /** From the inside of a string to its closing quote. */
  lemma {:induction false} QuotedRuns(text: seq<Octet>, s: State) returns (t: State)
    requires Good(text, s) && s.flags.inString && !s.flags.escaped
    ensures match QuotedEnd(PARSER, text, s.ptr)
            case None => !Run(First, text, s).Accept?
            case Some(j) => Goes(text, s, t) && InSameString(s, t) && t.ptr + 1 == j && At(text, t.ptr) == QUOTE
    decreases |text| - s.ptr
  {
    t := s;
    var b := At(text, s.ptr);
    NotLong(text, s);
    if b == 0 {
      assert Turn(First, text, s) == Fail;
      Halts(text, s);
    } else if b == BACKSLASH {
      var e := EscapeRuns(text, s);
      if EscapeEnd(PARSER, text, s.ptr + 1).Some? {
        t := QuotedRuns(text, e);
      }
    } else if b != QUOTE {
      var u := s.(stringLength := s.stringLength + 1, ptr := s.ptr + 1);
      assert Turn(First, text, s) == Go(u);
      Stepped(text, s, u);
      t := QuotedRuns(text, u);
    }
  }

  lemma {:induction false} EscapeRuns(text: seq<Octet>, s: State) returns (t: State)
    requires Good(text, s) && s.flags.inString && !s.flags.escaped && At(text, s.ptr) == BACKSLASH
    ensures match EscapeEnd(PARSER, text, s.ptr + 1)
            case None => !Run(First, text, s).Accept?
            case Some(j) => Goes(text, s, t) && InSameString(s, t) && t.ptr == j
  {
    NotLong(text, s);
    var e := s.(flags := s.flags.(escaped := true), ptr := s.ptr + 1);
    assert Turn(First, text, s) == Go(e);
    Stepped(text, s, e);
    t := s;
    if EscapeEnd(PARSER, text, e.ptr).Some? {
      t := EscapedTurn(text, e);
      Stepped(text, e, t);
    } else {
      EscapeFails(text, e);
      Halts(text, e);
    }
  }

  lemma {:induction false} EscapedTurn(text: seq<Octet>, s: State) returns (t: State)
    requires Good(text, s) && s.flags.inString && s.flags.escaped && EscapeEnd(PARSER, text, s.ptr).Some?
    ensures Turn(First, text, s) == Go(t)
    ensures t == s.(flags := s.flags.(escaped := false), stringLength := t.stringLength, ptr := t.ptr)
    ensures EscapeEnd(PARSER, text, s.ptr) == Some(t.ptr) && t.stringLength <= t.ptr
  {
    NotLong(text, s);
    hide Hex4, Ok, LengthsTo;
    t := Turn(First, text, s).s;
  }

  lemma {:induction false} EscapeFails(text: seq<Octet>, s: State)
    requires Good(text, s) && s.flags.inString && s.flags.escaped && EscapeEnd(PARSER, text, s.ptr).None?
    ensures Turn(First, text, s) == Fail
  {
    hide Hex4, Ok, LengthsTo;
  }

  // ----- values without children

  /** The closing quote of a string that is a value */
  lemma {:induction false} ClosingQuote(text: seq<Octet>, s: State) returns (t: State)
    requires Good(text, s) && s.flags.inString && !s.flags.escaped && At(text, s.ptr) == QUOTE && !s.flags.needColon
    requires s.values[s.top].kind == String
    ensures Goes(text, s, t) && Resumed(s.values, s.values[s.top].parent, t, s.ptr + 1)
  {
    var v := s.values[s.top];
    var u := s.(flags := s.flags.(inString := false), values := s.values[s.top := v.(length := s.stringLength)]);
    assert ParentOk(s.values, s.top);
    TreeUpdate(s.values, s.top, u.values[s.top]);
    NotLong(text, s);
    assert Turn(First, text, s) == Next(First, u, s.ptr + 1) by {
      hide Next;
    }
    hide Next, Turn, Run;
    t := NextRuns(text, s, u, s.ptr + 1);
  }

  /** A string as a value, with its opening quote at the pointer */
  lemma {:induction false} StringRuns(text: seq<Octet>, s: State) returns (t: State)
    requires Good(text, s) && AtValue(s) && At(text, s.ptr) == QUOTE
    ensures Leads(text, s, s.top, QuotedEnd(PARSER, text, s.ptr + 1), t)
  {
    var u := StringStarts(text, s);
    t := QuotedRuns(text, u);
    if QuotedEnd(PARSER, text, s.ptr + 1).Some? {
      t := ClosingQuote(text, t);
      hide Good, Run;
    }
  }

  /** A value has been started at the turn: it is the top, below p. */
  predicate Below(s: State, t: State, kind: Kind) {
    && t.top == |s.values| && t.values == s.values + [Value(s.top, kind, 0, 0, [], [])]
    && !t.flags.needComma && !t.flags.needColon && !t.flags.done && !t.flags.escaped
  }

  lemma {:induction false} StringStarts(text: seq<Octet>, s: State) returns (t: State)
    requires Good(text, s) && AtValue(s) && At(text, s.ptr) == QUOTE
    ensures Goes(text, s, t) && Below(s, t, String) && t.ptr == s.ptr + 1 && t.flags.inString
  {
    t := Turn(First, text, s).s;
    hide Ok;
    Stepped(text, s, t);
  }

  /** The rest of true, false or null */
  lemma {:induction false} LiteralRuns(text: seq<Octet>, s: State, kind: Kind, word: seq<Octet>) returns (t: State)
    requires Good(text, s) && AtValue(s) && s.ptr < |text| && !IsContainer(kind) && word != []
    requires Turn(First, text, s) == Literal(First, text, s.(flags := s.flags.(seekValue := false)), kind, word)
    ensures Leads(text, s, s.top, WordEnd(text, s.ptr + 1, word), t)
  {
    hide Turn, TreeOk, Run;
    t := s;
    if Spells(text, s.ptr + 1, word) {
      var u := NewValue(First, s.(flags := s.flags.(seekValue := false)), kind).s;
      NewOk(s.(flags := s.flags.(seekValue := false)), kind);
      t := NextRuns(text, s, u, s.ptr + 1 + |word|);
    } else {
      Halts(text, s);
    }
  }

  // ----- numbers

  /** In a number the pass follows its grammar, and goes on behind all the characters that a number may have. */
  lemma {:induction false} DigitsRun(text: seq<Octet>, s: State) returns (t: State)
    requires Good(text, s) && InNumber(s) && !s.flags.needColon
    ensures Leads(text, s, s.values[s.top].parent, if Follows(NumberRest(text, s.ptr), s.num, s.values[s.top].kind) then
                    Some(SkipNumber(text, s.ptr)) else None, t)
    decreases |text| - s.ptr
  {
    var b, v, w := At(text, s.ptr), s.values[s.top], NumberRest(text, s.ptr);
    RestHead(text, s.ptr);
    t := s;
    match NumberTurn(b, s.num, v.kind)
    case Wrong =>
      Halts(text, s);
    case More(num, kind) =>
      var u := s.(num := num, values := s.values[s.top := v.(kind := kind)], ptr := s.ptr + 1);
      DigitStep(text, s, u);
      t := DigitsRun(text, u);
      assert ParentOk(s.values, s.top);
      LeadsFrom(text, s, u, v.parent, if Follows(w, s.num, v.kind) then Some(SkipNumber(text, s.ptr)) else None, t);
    case Ended =>
      t := NextRuns(text, s, s, s.ptr);
      if w != [] {
        JsonTwoPasses.NumberCharFails(text, t);
        Halts(text, t);
      }
  }

  /** What is left of a number at i */
  function NumberRest(text: seq<Octet>, i: nat): seq<Octet>
    requires i <= |text|
  {
    text[i..SkipNumber(text, i)]
  }

  lemma {:induction false} RestHead(text: seq<Octet>, i: nat)
    requires i <= |text|
    ensures var w := NumberRest(text, i);
            if IsNumberChar(At(text, i)) then
              && i < |text| && w != [] && w[0] == text[i] && w[1..] == NumberRest(text, i + 1)
              && SkipNumber(text, i) == SkipNumber(text, i + 1)
            else
              w == [] && SkipNumber(text, i) == i
              && forall n, kind :: NumberTurn(At(text, i), n, kind) == NumberTurn(0, n, kind)
  {
  }

  lemma {:induction false} DigitStep(text: seq<Octet>, s: State, u: State)
    requires Good(text, s) && InNumber(s) && Turn(First, text, s) == Go(u) && u.ptr == s.ptr + 1
    requires NumberTurn(At(text, s.ptr), s.num, s.values[s.top].kind).More?
    ensures Goes(text, s, u) && InNumber(u) && u.top == s.top && u.flags == s.flags
  {
    TurnOk(text, s);
    hide Ok;
    Stepped(text, s, u);
  }

  predicate BeginsNumber(b: Octet) { IsDigit(b) || b == MINUS }

  lemma {:induction false} NumberStarts(text: seq<Octet>, s: State) returns (t: State)
    requires Good(text, s) && AtValue(s) && BeginsNumber(At(text, s.ptr))
    ensures Goes(text, s, t) && Below(s, t, Integer) && InNumber(t)
    ensures t.num == Num(0, At(text, s.ptr) == MINUS, false, false, false)
    ensures t.ptr == if At(text, s.ptr) == MINUS then s.ptr + 1 else s.ptr
  {
    t := Turn(First, text, s).s;
    hide Ok;
    Stepped(text, s, t);
  }

  /** A number as a value */
  lemma {:induction false} NumberRuns(text: seq<Octet>, s: State) returns (t: State)
    requires Good(text, s) && AtValue(s) && BeginsNumber(At(text, s.ptr))
    ensures Leads(text, s, s.top, NumberEnd(PARSER, text, s.ptr), t)
  {
    var u := NumberStarts(text, s);
    t := DigitsRun(text, u);
    NumberAgrees(text, s.ptr, u.num);
    hide Good, Follows, IsUnsigned, IsExponent;
    LeadsFrom(text, s, u, s.top, NumberEnd(PARSER, text, s.ptr), t);
  }

  lemma {:induction false} NumberAgrees(text: seq<Octet>, i: nat, num: Num)
    requires i < |text| && BeginsNumber(text[i]) && num == Num(0, text[i] == MINUS, false, false, false)
    ensures var j := if text[i] == MINUS then i + 1 else i;
            NumberEnd(PARSER, text, i)
            == if Follows(NumberRest(text, j), num, Integer) then Some(SkipNumber(text, j)) else None
  {
    RestHead(text, i);
    var w := NumberRest(text, i);
    if text[i] == MINUS {
      FollowsUnsigned(w[1..], num);
    } else {
      FollowsUnsigned(w, num);
    }
    hide Follows, IsFraction, SkipNumber;
  }

  // ----- values with children

  lemma {:induction false} ContainerStarts(text: seq<Octet>, s: State) returns (t: State)
    requires Good(text, s) && AtValue(s) && At(text, s.ptr) in {0x5b, 0x7b}
    ensures Goes(text, s, t) && Below(s, t, if At(text, s.ptr) == 0x5b then Array else Object) && t.ptr == s.ptr + 1
    ensures !t.flags.inString && t.flags.seekValue == (At(text, s.ptr) == 0x5b)
  {
    t := Turn(First, text, s).s;
    hide Ok;
    Stepped(text, s, t);
  }

  /** Nothing that begins a value */
  lemma {:induction false} NoValue(text: seq<Octet>, s: State)
    requires Good(text, s) && AtValue(s) && ValueEnd(PARSER, text, s.ptr).None?
    requires At(text, s.ptr) !in {0x5b, 0x7b, QUOTE, 0x74, 0x66, 0x6e} && !BeginsNumber(At(text, s.ptr))
    requires !IsWhitespace(At(text, s.ptr)) && (At(text, s.ptr) == 0x5d ==> !InArray(s))
    ensures !Run(First, text, s).Accept?
  {
    assert Turn(First, text, s) == Fail;
    Halts(text, s);
  }

  /** In a part of an array, or of an object */
  predicate InArray(s: State) {
    InRange(s, s.top) && s.values[s.top].kind == Array
  }

  predicate InObject(s: State) {
    InRange(s, s.top) && s.values[s.top].kind == Object
  }

  lemma {:induction false} ValueRuns(text: seq<Octet>, s: State) returns (t: State)
    requires Good(text, s) && AtValue(s) && !IsWhitespace(At(text, s.ptr)) && (At(text, s.ptr) == 0x5d ==> !InArray(s))
    ensures Leads(text, s, s.top, ValueEnd(PARSER, text, s.ptr), t)
    decreases |text| - s.ptr, 0
  {
    var b := At(text, s.ptr);
    t := s;
    if b == 0x7b || b == 0x5b {
      var u := ContainerStarts(text, s);
      hide Good, Run;
      if b == 0x7b {
        t := MembersRun(text, u, Opened);
      } else {
        t := ElementsRun(text, u, Opened);
      }
      LeadsFrom(text, s, u, s.top, ValueEnd(PARSER, text, s.ptr), t);
    } else if b == QUOTE {
      t := StringRuns(text, s);
    } else if b == 0x74 {
      t := LiteralRuns(text, s, Boolean, TRUE_REST);
    } else if b == 0x66 {
      t := LiteralRuns(text, s, Boolean, FALSE_REST);
    } else if b == 0x6e {
      t := LiteralRuns(text, s, Null, NULL_REST);
    } else if BeginsNumber(b) {
      t := NumberRuns(text, s);
    } else {
      NoValue(text, s);
    }
  }

  lemma {:induction false} ItemRuns(text: seq<Octet>, s: State) returns (t: State)
    requires Good(text, s) && AtValue(s) && !InArray(s)
    ensures Leads(text, s, s.top, ItemEnd(PARSER, text, s.ptr), t)
    decreases |text| - s.ptr, 2
  {
    hide Run;
    if IsWhitespace(At(text, s.ptr)) {
      var u := Blank(text, s);
      t := ItemRuns(text, u);
    } else {
      t := ValueRuns(text, s);
    }
  }

  // ----- arrays

  predicate AtElements(s: State, place: Place) {
    && !s.flags.inString && !s.flags.done && s.flags.seekValue && !s.flags.needColon && InArray(s)
    && s.flags.needComma == (place == AfterItem)
  }

  lemma {:induction false} ElementsRun(text: seq<Octet>, s: State, place: Place) returns (t: State)
    requires Good(text, s) && AtElements(s, place)
    ensures Leads(text, s, s.values[s.top].parent, ElementsEnd(PARSER, text, s.ptr, place), t)
    decreases |text| - s.ptr, 2
  {
    var b := At(text, s.ptr);
    t := s;
    if IsWhitespace(b) {
      var u := Blank(text, s);
      t := ElementsRun(text, u, place);
    } else if b == 0x5d {
      t := ArrayEnds(text, s);
    } else if place == AfterItem && b == COMMA {
      var u := CommaTurn(text, s);
      t := ElementsRun(text, u, AfterComma);
    } else if place == AfterItem {
      assert Turn(First, text, s) == Fail;
      Halts(text, s);
    } else {
      t := ElementRuns(text, s, place);
    }
  }

  lemma {:induction false} ElementRuns(text: seq<Octet>, s: State, place: Place) returns (t: State)
    requires Good(text, s) && AtElements(s, place) && place != AfterItem
    requires !IsWhitespace(At(text, s.ptr)) && At(text, s.ptr) != 0x5d
    ensures Leads(text, s, s.values[s.top].parent, ElementsEnd(PARSER, text, s.ptr, place), t)
    decreases |text| - s.ptr, 1
  {
    t := ValueRuns(text, s);
    if ValueEnd(PARSER, text, s.ptr).Some? {
      var u := t;
      t := ElementsRun(text, u, AfterItem);
      assert ParentOk(s.values, s.top);
      LeadsFrom(text, s, u, s.values[s.top].parent, ElementsEnd(PARSER, text, s.ptr, place), t);
    }
  }

  lemma {:induction false} ArrayEnds(text: seq<Octet>, s: State) returns (t: State)
    requires Good(text, s) && !s.flags.inString && !s.flags.done && s.flags.seekValue && !s.flags.needColon
    requires InArray(s) && At(text, s.ptr) == 0x5d
    ensures Goes(text, s, t) && Resumed(s.values, s.values[s.top].parent, t, s.ptr + 1)
  {
    var u := s.(flags := s.flags.(needComma := false, seekValue := false));
    t := NextRuns(text, s, u, s.ptr + 1);
  }

  /** A comma after an item */
  lemma {:induction false} CommaTurn(text: seq<Octet>, s: State) returns (t: State)
    requires Good(text, s) && !s.flags.inString && !s.flags.done && s.flags.needComma && At(text, s.ptr) == COMMA
    requires if s.flags.seekValue then InArray(s) else InObject(s)
    ensures t == s.(flags := s.flags.(needComma := false), ptr := s.ptr + 1) && s.ptr < |text| && Goes(text, s, t)
  {
    t := s.(flags := s.flags.(needComma := false), ptr := s.ptr + 1);
    hide Ok;
    Stepped(text, s, t);
  }

  // ----- objects

  predicate AtMembers(s: State, place: Place) {
    && !s.flags.inString && !s.flags.done && !s.flags.seekValue && !s.flags.needColon && InObject(s)
    && s.flags.needComma == (place == AfterItem)
  }

  /** Behind a key */
  predicate AtColon(s: State) {
    && !s.flags.inString && !s.flags.done && s.flags.seekValue && s.flags.needColon && !s.flags.needComma && InObject(s)
  }

  lemma {:induction false} MembersRun(text: seq<Octet>, s: State, place: Place) returns (t: State)
    requires Good(text, s) && AtMembers(s, place)
    ensures Leads(text, s, s.values[s.top].parent, MembersEnd(PARSER, text, s.ptr, place), t)
    decreases |text| - s.ptr, 2
  {
    var b := At(text, s.ptr);
    t := s;
    if IsWhitespace(b) {
      var u := Blank(text, s);
      t := MembersRun(text, u, place);
    } else if b == 0x7d {
      t := ObjectEnds(text, s);
    } else if place == AfterItem && b == COMMA {
      var u := CommaTurn(text, s);
      t := MembersRun(text, u, AfterComma);
    } else if place != AfterItem && b == QUOTE {
      t := MemberRuns(text, s, place);
    } else {
      assert Turn(First, text, s) == Fail;
      Halts(text, s);
    }
  }

  lemma {:induction false} MemberRuns(text: seq<Octet>, s: State, place: Place) returns (t: State)
    requires Good(text, s) && AtMembers(s, place) && place != AfterItem && At(text, s.ptr) == QUOTE
    ensures Leads(text, s, s.values[s.top].parent, MembersEnd(PARSER, text, s.ptr, place), t)
    decreases |text| - s.ptr, 0
  {
    t := s;
    var u := KeyRuns(text, s);
    if QuotedEnd(PARSER, text, s.ptr + 1).Some? {
      t := PairRuns(text, u);
      assert ParentOk(s.values, s.top);
      LeadsFrom(text, s, u, s.values[s.top].parent, MembersEnd(PARSER, text, s.ptr, place), t);
    }
  }

  lemma {:induction false} ObjectEnds(text: seq<Octet>, s: State) returns (t: State)
    requires Good(text, s) && !s.flags.inString && !s.flags.done && !s.flags.seekValue && !s.flags.needColon
    requires InObject(s) && At(text, s.ptr) == 0x7d
    ensures Goes(text, s, t) && Resumed(s.values, s.values[s.top].parent, t, s.ptr + 1)
  {
    var u := s.(flags := s.flags.(needComma := false));
    t := NextRuns(text, s, u, s.ptr + 1);
  }

  /** A key, with its opening quote at the pointer */
  lemma {:induction false} KeyRuns(text: seq<Octet>, s: State) returns (t: State)
    requires Good(text, s) && AtMembers(s, Opened) && At(text, s.ptr) == QUOTE
    ensures match QuotedEnd(PARSER, text, s.ptr + 1)
            case None => !Run(First, text, s).Accept?
            case Some(j) =>
              Goes(text, s, t) && AtColon(t) && t.ptr == j && t.top == s.top && SameTo(s.values, t.values, s.top)
  {
    var u := s.(flags := s.flags.(inString := true), stringLength := 0, ptr := s.ptr + 1);
    Stepped(text, s, u) by {
      hide Ok;
    }
    t := QuotedRuns(text, u);
    if QuotedEnd(PARSER, text, u.ptr).Some? {
      t := KeyEnds(text, t);
    }
  }

  lemma {:induction false} KeyEnds(text: seq<Octet>, s: State) returns (t: State)
    requires Good(text, s) && s.flags.inString && !s.flags.escaped && !s.flags.needComma && InObject(s)
    requires At(text, s.ptr) == QUOTE
    ensures Goes(text, s, t) && AtColon(t) && t.ptr == s.ptr + 1 && t.top == s.top && SameTo(s.values, t.values, s.top)
  {
    t := Turn(First, text, s).s;
    hide TreeOk;
    Stepped(text, s, t);
  }

  lemma {:induction false} ColonTurn(text: seq<Octet>, s: State) returns (t: State)
    requires Good(text, s) && AtColon(s) && At(text, s.ptr) == COLON
    ensures t == s.(flags := s.flags.(needColon := false), ptr := s.ptr + 1) && s.ptr < |text| && Goes(text, s, t)
  {
    t := s.(flags := s.flags.(needColon := false), ptr := s.ptr + 1);
    hide Ok;
    Stepped(text, s, t);
  }

  lemma {:induction false} PairRuns(text: seq<Octet>, s: State) returns (t: State)
    requires Good(text, s) && AtColon(s)
    ensures Leads(text, s, s.values[s.top].parent, PairEnd(PARSER, text, s.ptr), t)
    decreases |text| - s.ptr, 2
  {
    var b, p := At(text, s.ptr), s.values[s.top].parent;
    t := s;
    if IsWhitespace(b) {
      var u := Blank(text, s);
      t := PairRuns(text, u);
    } else if b == COLON {
      var c := ColonTurn(text, s);
      var u := ItemRuns(text, c);
      if ItemEnd(PARSER, text, c.ptr).Some? {
        t := MembersRun(text, u, AfterItem);
        assert ParentOk(s.values, s.top);
        LeadsFrom(text, s, u, p, PairEnd(PARSER, text, s.ptr), t);
      }
    } else {
      assert Turn(First, text, s) == Fail;
      Halts(text, s);
    }
  }

  // ----- texts

  /**
   The first pass accepts exactly the texts of the grammar with all the parser's deviations. Longer ones than the
   limit may be refused besides.
   */
  lemma {:induction false} AcceptedTexts(text: seq<Octet>)
    ensures Run(First, text, Start(First)).Accept? ==> IsText(PARSER, text)
    ensures |text| <= UINT_MAX && IsText(PARSER, text) ==> Run(First, text, Start(First)).Accept?
  {
    var s := Start(First);
    StartOk(text);
    if Bounded(text, s) {
      var t := ItemRuns(text, s);
      if ItemEnd(PARSER, text, 0).Some? {
        DoneRuns(text, t);
      }
    }
  }
}
