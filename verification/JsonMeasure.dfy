/** How the states of an accepting first pass stay below the lengths it measures in the end. */
module JsonMeasure {
  import opened Octets
  import opened JsonSteps
  import opened JsonFirstPass

  predicate SameKind(a: Kind, b: Kind) {
    a == b || (IsNumber(a) && IsNumber(b))
  }

  /** A value during the first pass, and at its end. */
  predicate Grows(v: Value, f: Value) {
    && v.parent == f.parent && SameKind(v.kind, f.kind)
    && v.slots == f.slots == [] && v.names == f.names == []
    && v.length <= f.length && v.keyBytes <= f.keyBytes
    && (!IsContainer(f.kind) && f.kind != String ==> f.length == v.length)
    && (f.kind != Object ==> f.keyBytes == v.keyBytes)
  }

  /** All the proper ancestors of value i still have room for a child. */
  predicate PathOpen(measured: seq<Value>, values: seq<Value>, i: int)
    decreases i
  {
    0 <= i < |values| <= |measured| &&
    var p := values[i].parent;
    p == NONE || (0 <= p < i && values[p].length < measured[p].length && PathOpen(measured, values, p))
  }

  predicate Core(measured: seq<Value>, values: seq<Value>, top: int) {
    && |values| <= |measured|
    && (forall i :: 0 <= i < |values| ==> Grows(values[i], measured[i]))
    && (top != NONE ==> PathOpen(measured, values, top))
  }

  /** What is promised by the state of a string or of a key. */
  predicate Promised(measured: seq<Value>, s: State) {
    InRange(s, s.top) && s.top < |measured| ==>
      var v, f := s.values[s.top], measured[s.top];
      && (s.flags.inString && v.kind == String ==> s.stringLength <= f.length)
      && (s.flags.inString && v.kind == Object ==>
            v.keyBytes + s.stringLength + 1 <= f.keyBytes && v.length < f.length)
      && (s.flags.seekValue && v.kind == Object ==> v.length < f.length)
  }

  predicate Below(measured: seq<Value>, s: State) {
    Core(measured, s.values, s.top) && Promised(measured, s)
  }

  // ----- from a state back to the one before

  lemma {:induction false} PathFrame(measured: seq<Value>, v: seq<Value>, w: seq<Value>, i: int)
    requires PathOpen(measured, w, i) && i < |v| <= |measured|
    requires forall j :: 0 <= j <= i ==> v[j].parent == w[j].parent
    requires forall j :: 0 <= j < i ==> v[j].length == w[j].length
    ensures PathOpen(measured, v, i)
    decreases i
  {
    if v[i].parent != NONE {
      PathFrame(measured, v, w, v[i].parent);
    }
  }

  /** The same top, and lengths that do not get smaller. */
  lemma {:induction false} CoreBack(measured: seq<Value>, v: seq<Value>, w: seq<Value>, top: int)
    requires Core(measured, w, top) && |v| == |w| && -1 <= top < |v|
    requires forall j :: 0 <= j < |v| ==> Grows(v[j], measured[j])
    requires forall j :: 0 <= j < |v| && j != top ==> v[j].length == w[j].length
    ensures Core(measured, v, top)
  {
    if top != NONE {
      assert forall j :: 0 <= j < |v| ==> Grows(w[j], measured[j]);
      PathFrame(measured, v, w, top);
    }
  }

  lemma {:induction false} NextBack(text: seq<Octet>, measured: seq<Value>, s: State, ptr: nat)
    requires Closing(s) && Next(First, s, ptr).Go?
        && Core(measured, Next(First, s, ptr).s.values, Next(First, s, ptr).s.top)
    ensures Core(measured, s.values, s.top)
    ensures var p := s.values[s.top].parent; p != NONE ==> s.values[p].length < measured[p].length
  {
    var t := Next(First, s, ptr).s;
    var p := s.values[s.top].parent;
    assert ParentOk(s.values, s.top);
    assert forall j :: 0 <= j < |t.values| ==> Grows(t.values[j], measured[j]);
    if p != NONE {
      forall j | 0 <= j < |s.values| ensures Grows(s.values[j], measured[j]) {
        assert Grows(t.values[j], measured[j]);
      }
      PathFrame(measured, s.values, t.values, p);
    }
  }

  lemma {:induction false} NewBack(measured: seq<Value>, s: State, kind: Kind)
    requires Opening(s)
    requires var t := NewValue(First, s, kind).s; Core(measured, t.values, t.top)
    ensures Core(measured, s.values, s.top)
    ensures s.top != NONE ==> s.values[s.top].length < measured[s.top].length
  {
    var t := NewValue(First, s, kind).s;
    forall j | 0 <= j < |s.values| ensures Grows(s.values[j], measured[j]) {
      assert t.values[j] == s.values[j] && Grows(t.values[j], measured[j]);
    }
    if s.top != NONE {
      PathFrame(measured, s.values, t.values, s.top);
    }
  }

  lemma {:induction false} StringBack(text: seq<Octet>, measured: seq<Value>, s: State)
    requires Ok(text, s) && s.flags.inString
    requires StringTurn(First, text, s).Go? && Below(measured, StringTurn(First, text, s).s)
    ensures Below(measured, s)
  {
    hide Grows, PathOpen, TreeOk, ReadUnicode, Utf8Length, Next;
    if At(text, s.ptr) == QUOTE && !s.flags.escaped {
      StringEndBack(text, measured, s);
    }
  }

  lemma {:induction false} StringEndBack(text: seq<Octet>, measured: seq<Value>, s: State)
    requires Ok(text, s) && s.flags.inString && At(text, s.ptr) == QUOTE && !s.flags.escaped
    requires StringTurn(First, text, s).Go? && Below(measured, StringTurn(First, text, s).s)
    ensures Below(measured, s)
  {
    hide PathOpen, Next, TreeOk;
    var t := StringTurn(First, text, s).s;
    var u := s.(flags := s.flags.(inString := false));
    var v := u.values[u.top];
    assert ParentOk(u.values, u.top) by {
      AllParents(u.values, u.top);
    }
    if v.kind == String {
      var w := u.(values := u.values[u.top := v.(length := u.stringLength)]);
      TreeUpdate(u.values, u.top, w.values[u.top]);
      NextBack(text, measured, w, u.ptr + 1);
      assert Grows(w.values[u.top], measured[u.top]);
      OneBack(measured, s.values, w.values, s.top);
    } else {
      assert Grows(t.values[u.top], measured[u.top]);
      OneBack(measured, s.values, t.values, s.top);
    }
  }

  lemma {:induction false} AllParents(values: seq<Value>, i: nat)
    requires TreeOk(values) && i < |values|
    ensures ParentOk(values, i)
  {
  }

  /** Only the top value is different, and not beyond its measure. */
  lemma {:induction false} OneBack(measured: seq<Value>, v: seq<Value>, w: seq<Value>, top: int)
    requires Core(measured, w, top) && 0 <= top < |v| && w == v[top := w[top]] && Grows(v[top], measured[top])
    ensures Core(measured, v, top)
  {
    forall j | 0 <= j < |v| ensures Grows(v[j], measured[j]) {
      assert Grows(w[j], measured[j]);
    }
    hide Grows;
    CoreBack(measured, v, w, top);
  }

  lemma {:induction false} StartBack(text: seq<Octet>, measured: seq<Value>, s: State)
    requires Ok(text, s) && s.flags.seekValue && !IsWhitespace(At(text, s.ptr))
    requires StartValue(First, text, s).Go? && Below(measured, StartValue(First, text, s).s)
    ensures Below(measured, s)
  {
    var b := At(text, s.ptr);
    var u := s.(flags := s.flags.(seekValue := false));
    hide TreeOk, Grows, PathOpen, Literal;
    if b == 0x7b {
      NewBack(measured, u, Object);
    } else if b == 0x5b {
      NewBack(measured, s, Array);
    } else if b == QUOTE {
      NewBack(measured, u.(flags := u.flags.(inString := true), stringLength := 0), String);
    } else if b == 0x74 {
      LiteralBack(text, measured, u, Boolean, TRUE_REST);
    } else if b == 0x66 {
      LiteralBack(text, measured, u, Boolean, FALSE_REST);
    } else if b == 0x6e {
      LiteralBack(text, measured, u, Null, NULL_REST);
    } else {
      NewBack(measured, u.(num := Num(0, b == 0x2d, false, false, false)), Integer);
    }
  }

  lemma {:induction false} LiteralBack(text: seq<Octet>, measured: seq<Value>, u: State, kind: Kind, word: seq<Octet>)
    requires Opening(u) && !u.flags.inString && !u.flags.seekValue
    requires var o := Literal(First, text, u, kind, word); o.Go? && Core(measured, o.s.values, o.s.top)
    ensures Core(measured, u.values, u.top)
    ensures u.top != NONE ==> u.values[u.top].length < measured[u.top].length
  {
    NewOk(u, kind);
    NextBack(text, measured, NewValue(First, u, kind).s, u.ptr + |word| + 1);
    NewBack(measured, u, kind);
  }

  lemma {:induction false} SeekBack(text: seq<Octet>, measured: seq<Value>, s: State)
    requires Ok(text, s) && s.flags.seekValue
    requires SeekTurn(First, text, s).Go? && Below(measured, SeekTurn(First, text, s).s)
    ensures Below(measured, s)
  {
    var b := At(text, s.ptr);
    hide TreeOk, Grows, PathOpen, StartValue, Next;
    if IsWhitespace(b) {
    } else if b == 0x5d {
      NextBack(text, measured, s.(flags := s.flags.(needComma := false, seekValue := false)), s.ptr + 1);
    } else if s.flags.needComma || s.flags.needColon {
    } else {
      StartBack(text, measured, s);
    }
  }

  lemma {:induction false} ObjectBack(text: seq<Octet>, measured: seq<Value>, s: State)
    requires Ok(text, s) && !s.flags.inString && !s.flags.done && !s.flags.seekValue && s.values[s.top].kind == Object
    requires ObjectTurn(First, text, s).Go? && Below(measured, ObjectTurn(First, text, s).s)
    ensures Below(measured, s)
  {
    hide TreeOk, Grows, PathOpen, Next;
    if At(text, s.ptr) == 0x7d {
      NextBack(text, measured, s.(flags := s.flags.(needComma := false)), s.ptr + 1);
    }
  }

  lemma {:induction false} DigitsBack(text: seq<Octet>, measured: seq<Value>, s: State)
    requires Ok(text, s) && InNumber(s)
    requires DigitsTurn(First, text, s).Go? && Below(measured, DigitsTurn(First, text, s).s)
    ensures Below(measured, s)
  {
    var v := s.values[s.top];
    match NumberTurn(At(text, s.ptr), s.num, v.kind)
    case More(num, kind) =>
      var w := s.values[s.top := v.(kind := kind)];
      assert Grows(w[s.top], measured[s.top]);
      OneBack(measured, s.values, w, s.top);
    case Ended => NextBack(text, measured, s, s.ptr);
    case Wrong =>
  }

  lemma {:induction false} TurnBack(text: seq<Octet>, measured: seq<Value>, s: State)
    requires Ok(text, s) && Turn(First, text, s).Go? && Below(measured, Turn(First, text, s).s)
    ensures Below(measured, s)
  {
    hide TreeOk, StringTurn, SeekTurn, ObjectTurn, DigitsTurn, Core;
    if s.flags.inString {
      StringBack(text, measured, s);
    } else if s.flags.done {
    } else if s.flags.seekValue {
      SeekBack(text, measured, s);
    } else if s.values[s.top].kind == Object {
      ObjectBack(text, measured, s);
    } else {
      DigitsBack(text, measured, s);
    }
  }

  /** Every state of an accepting first pass stays below the lengths at its end. */
  lemma {:induction false} AcceptedBelow(text: seq<Octet>, s: State, measured: seq<Value>)
    requires Ok(text, s) && Run(First, text, s) == Accept(measured)
    ensures Below(measured, s)
    decreases Measure(text, s)
  {
    TurnOk(text, s);
    if Turn(First, text, s).Go? {
      hide Ok, Turn, Measure, Below;
      AcceptedBelow(text, Turn(First, text, s).s, measured);
      TurnBack(text, measured, s);
    } else {
      AtTheEnd(text, s);
    }
  }

  lemma {:induction false} AcceptsWhenDone(text: seq<Octet>, s: State)
    requires Turn(First, text, s).Accept?
    ensures s.flags.done && !s.flags.inString && At(text, s.ptr) == 0
  {
    hide Spells, CutOff, Hex4, SkipNumber, NumberTurn;
  }

  lemma {:induction false} AtTheEnd(text: seq<Octet>, s: State)
    requires Ok(text, s) && Turn(First, text, s) == Accept(s.values)
    ensures Below(s.values, s)
  {
    AcceptsWhenDone(text, s);
    forall i | 0 <= i < |s.values| ensures Grows(s.values[i], s.values[i]) {
      assert ParentOk(s.values, i);
    }
  }
}
