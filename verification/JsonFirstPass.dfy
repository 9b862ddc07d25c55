/** The first pass by itself: what its states look like, and that it ends. */
module JsonFirstPass {
  import opened Octets
  import opened JsonSteps

  predicate IsContainer(k: Kind) { k == Array || k == Object }

  /** Values come after their parents, parents are arrays or objects, and no memory for children is there yet. */
  predicate TreeOk(values: seq<Value>) {
    forall i :: 0 <= i < |values| ==> ParentOk(values, i)
  }

  predicate ParentOk(values: seq<Value>, i: int)
    requires 0 <= i < |values|
  {
    var p := values[i].parent;
    && (p == NONE || (0 <= p < i && IsContainer(values[p].kind)))
    && values[i].slots == [] && values[i].names == []
  }

  /** What the flags say about the top value. */
  predicate FlagsOk(text: seq<Octet>, s: State) {
    var f := s.flags;
    && (f.inString ==>
          && !f.seekValue && !f.done && InRange(s, s.top)
          && (s.values[s.top].kind == Object || (s.values[s.top].kind == String && s.values[s.top].length == 0)))
    && (f.done ==> InRange(s, s.top) && s.values[s.top].parent == NONE && !f.seekValue)
    && (f.seekValue ==> s.top == NONE || (InRange(s, s.top) && IsContainer(s.values[s.top].kind)))
    && (!f.inString && !f.done && !f.seekValue ==>
          InRange(s, s.top) && (s.values[s.top].kind == Object || IsNumber(s.values[s.top].kind)))
    && (f.escaped ==> f.inString)
    && (FreshNumber(s) ==> IsDigit(At(text, s.ptr)))
  }

  /** The states of the first pass. */
  predicate Ok(text: seq<Octet>, s: State) {
    && s.ptr <= |text| && TreeOk(s.values) && FlagsOk(text, s)
    && (s.top == NONE || InRange(s, s.top)) && (s.top == NONE ==> s.values == []) && s.alloc == |s.values|
  }

  lemma {:induction false} StartOk(text: seq<Octet>)
    ensures Ok(text, Start(First))
  {
  }

  /** The next state is one again, and closer to the end. */
  predicate Progress(text: seq<Octet>, s: State, o: Outcome) {
    match o
    case Go(t) => Ok(text, t) && Measure(text, t) < Measure(text, s)
    case Overrun => false
    case Stuck => false
    case _ => true
  }

  // ----- the parts of a turn

  /** Between a value's last character and the Next. */
  predicate Closing(s: State) {
    && TreeOk(s.values) && InRange(s, s.top) && s.alloc == |s.values|
    && !s.flags.inString && !s.flags.escaped && !s.flags.done && !s.flags.seekValue
  }

  lemma {:induction false} NextOk(text: seq<Octet>, s: State, ptr: nat)
    requires Closing(s) && ptr <= |text|
    ensures match Next(First, s, ptr)
            case Go(t) => Ok(text, t) && !InNumber(t) && t.ptr == ptr
            case Fail => true
            case _ => false
  {
    var p := s.values[s.top].parent;
    assert ParentOk(s.values, s.top);
    if p != NONE {
      var o := Next(First, s, ptr);
      if o.Go? {
        forall i | 0 <= i < |o.s.values| ensures ParentOk(o.s.values, i) {
          assert ParentOk(s.values, i);
        }
      }
    }
  }

  /** A value may start here. */
  predicate Opening(s: State) {
    && TreeOk(s.values) && s.alloc == |s.values| && !s.flags.done && !s.flags.escaped
    && (s.top == NONE || (InRange(s, s.top) && IsContainer(s.values[s.top].kind)))
  }

  lemma {:induction false} NewOk(s: State, kind: Kind)
    requires Opening(s)
    ensures var o := NewValue(First, s, kind);
            && o.Go? && TreeOk(o.s.values) && o.s.alloc == |o.s.values| && o.s.flags == s.flags && o.s.ptr == s.ptr
            && InRange(o.s, o.s.top) && o.s.values[o.s.top] == Value(s.top, kind, 0, 0, [], [])
            && o.s.num == s.num && o.s.values == s.values + [o.s.values[o.s.top]] && o.s.top == |s.values|
  {
    var t := NewValue(First, s, kind).s;
    forall i | 0 <= i < |t.values| ensures ParentOk(t.values, i) {
      if i < |s.values| {
        assert ParentOk(s.values, i);
      }
    }
  }

  lemma {:induction false} StringOk(text: seq<Octet>, s: State)
    requires Ok(text, s) && s.flags.inString
    ensures Progress(text, s, StringTurn(First, text, s))
  {
    var b := At(text, s.ptr);
    if b != 0 && s.stringLength <= UINT_MAX && !s.flags.escaped && b == QUOTE {
      var u := s.(flags := s.flags.(inString := false));
      var v := u.values[u.top];
      assert ParentOk(u.values, u.top);
      if v.kind == String {
        var w := u.(values := u.values[u.top := v.(length := u.stringLength)]);
        TreeUpdate(u.values, u.top, w.values[u.top]);
        NextOk(text, w, u.ptr + 1);
      } else {
        TreeUpdate(u.values, u.top, v.(keyBytes := v.keyBytes + u.stringLength + 1));
      }
    }
  }

  /** The lengths of values do not matter for the tree. */
  lemma {:induction false} TreeUpdate(values: seq<Value>, i: nat, v: Value)
    requires TreeOk(values) && i < |values| && v.parent == values[i].parent && v.slots == [] && v.names == []
    requires IsContainer(v.kind) == IsContainer(values[i].kind)
    ensures TreeOk(values[i := v])
  {
    var t := values[i := v];
    forall j | 0 <= j < |t| ensures ParentOk(t, j) {
      assert ParentOk(values, j);
    }
  }

  lemma {:induction false} StartValueOk(text: seq<Octet>, s: State)
    requires Ok(text, s) && s.flags.seekValue
    requires !IsWhitespace(At(text, s.ptr))
    ensures Progress(text, s, StartValue(First, text, s))
  {
    var b := At(text, s.ptr);
    var u := s.(flags := s.flags.(seekValue := false));
    hide TreeOk, Next, Literal;
    NewOk(u, Object);
    NewOk(s, Array);
    NewOk(u.(flags := u.flags.(inString := true), stringLength := 0), String);
    NewOk(u.(num := Num(0, b == 0x2d, false, false, false)), Integer);
    if b == 0x74 {
      LiteralOk(text, u, Boolean, TRUE_REST);
    } else if b == 0x66 {
      LiteralOk(text, u, Boolean, FALSE_REST);
    } else if b == 0x6e {
      LiteralOk(text, u, Null, NULL_REST);
    }
  }

  lemma {:induction false} LiteralOk(text: seq<Octet>, u: State, kind: Kind, word: seq<Octet>)
    requires Opening(u) && !u.flags.inString && !u.flags.seekValue && u.ptr < |text| && word != []
    ensures match Literal(First, text, u, kind, word)
            case Go(t) => Ok(text, t) && !InNumber(t) && t.ptr == u.ptr + |word| + 1
            case Fail => true
            case PastEnd => true
            case _ => false
  {
    NewOk(u, kind);
    if Spells(text, u.ptr + 1, word) {
      NextOk(text, NewValue(First, u, kind).s, u.ptr + |word| + 1);
    }
  }

  lemma {:induction false} SeekOk(text: seq<Octet>, s: State)
    requires Ok(text, s) && s.flags.seekValue
    ensures Progress(text, s, SeekTurn(First, text, s))
  {
    var b := At(text, s.ptr);
    if b == 0x5d {
      if InRange(s, s.top) && s.values[s.top].kind == Array {
        NextOk(text, s.(flags := s.flags.(needComma := false, seekValue := false)), s.ptr + 1);
      }
    } else if !IsWhitespace(b) && !s.flags.needComma && !s.flags.needColon {
      StartValueOk(text, s);
    }
    hide TreeOk, Next, StartValue;
  }

  lemma {:induction false} ObjectOk(text: seq<Octet>, s: State)
    requires Ok(text, s) && !s.flags.inString && !s.flags.done && !s.flags.seekValue && s.values[s.top].kind == Object
    ensures Progress(text, s, ObjectTurn(First, text, s))
  {
    if At(text, s.ptr) == 0x7d {
      NextOk(text, s.(flags := s.flags.(needComma := false)), s.ptr + 1);
    }
    hide TreeOk, Next;
  }

  lemma {:induction false} DigitsOk(text: seq<Octet>, s: State)
    requires Ok(text, s) && InNumber(s)
    ensures Progress(text, s, DigitsTurn(First, text, s))
  {
    var v := s.values[s.top];
    assert ParentOk(s.values, s.top);
    match NumberTurn(At(text, s.ptr), s.num, v.kind)
    case More(num, kind) => TreeUpdate(s.values, s.top, v.(kind := kind));
    case Ended => NextOk(text, s, s.ptr);
    case Wrong =>
  }

  /** Every turn of the first pass stays in bounds and makes progress. */
  lemma {:induction false} TurnOk(text: seq<Octet>, s: State)
    requires Ok(text, s)
    ensures Progress(text, s, Turn(First, text, s))
  {
    hide TreeOk, StringTurn, SeekTurn, ObjectTurn, DigitsTurn;
    if s.flags.inString {
      StringOk(text, s);
    } else if s.flags.done {
    } else if s.flags.seekValue {
      SeekOk(text, s);
    } else if s.values[s.top].kind == Object {
      ObjectOk(text, s);
    } else {
      DigitsOk(text, s);
    }
  }

  /** The first pass comes to an end on every text; it never goes beyond its own values. */
  lemma {:induction false} FirstPassEnds(text: seq<Octet>, s: State)
    requires Ok(text, s)
    ensures var o := Run(First, text, s); o.Accept? || o.Fail? || o.PastEnd?
    decreases Measure(text, s)
  {
    TurnOk(text, s);
    TurnEnds(text, s);
    hide Ok, Turn, Measure;
    if Turn(First, text, s).Go? {
      FirstPassEnds(text, Turn(First, text, s).s);
    }
  }

  lemma {:induction false} TurnEnds(text: seq<Octet>, s: State)
    requires Ok(text, s)
    ensures Turn(First, text, s) != Overrun && Turn(First, text, s) != Stuck
  {
    TurnOk(text, s);
    hide Ok, Turn, Measure;
  }
}
