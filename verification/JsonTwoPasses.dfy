/**
 The two passes of the JSON parser together. When the first accepts, the second fills exactly the memory that was
 measured, although it skips numbers by another rule; unless an object has so many members that its memory is too small.
 */
module JsonTwoPasses {
  import opened Octets
  import opened JsonSteps
  import opened JsonFirstPass
  import opened JsonMeasure
  import opened JsonMemory

  /** The measured value f, and the value at the same time in the first pass and in the second. */
  predicate Twin(f: Value, v: Value, w: Value) {
    && w.parent == v.parent == f.parent && w.kind == f.kind && SameKind(v.kind, f.kind)
    && w.length == v.length && w.keyBytes == v.keyBytes
    && (IsContainer(f.kind) ==> |w.slots| == SlotCount(f))
    && (f.kind == Object ==> |w.names| == SlotCount(f))
  }

  /** A state of the first pass, and the one of the second pass at the same place of the text. */
  predicate Match(measured: seq<Value>, s: State, t: State) {
    && t.ptr == s.ptr && t.flags == s.flags && t.top == s.top
    && t.alloc == |s.values| <= |measured| == |t.values|
    && (s.flags.inString ==> t.stringLength == s.stringLength)
    && (forall i :: 0 <= i < |s.values| ==> Twin(measured[i], s.values[i], t.values[i]))
    && (forall i :: |s.values| <= i < |measured| ==> t.values[i] == measured[i])
  }

  // ----- the shape of the tree

  /** c is the top value or one of its ancestors. */
  predicate OnPath(values: seq<Value>, top: int, c: int)
    decreases top
  {
    0 <= top < |values| && (c == top || (values[top].parent < top && OnPath(values, values[top].parent, c)))
  }

  /** c is the k-th child of its parent. */
  predicate ChildAt(values: seq<Value>, c: int, k: int) {
    0 <= c < |values| &&
    var p := values[c].parent;
    && 0 <= p < c && IsContainer(values[p].kind)
    && 0 <= k < values[p].length <= |values[p].slots| && values[p].slots[k] == c
  }

  ghost predicate Listed(values: seq<Value>, c: int) {
    exists k :: ChildAt(values, c, k)
  }

  /** No child is there twice. */
  predicate Injective(v: Value) {
    v.length <= |v.slots| && forall k, l :: 0 <= k < l < v.length ==> v.slots[k] != v.slots[l]
  }

  predicate SlotOk(values: seq<Value>, top: int, alloc: nat, i: int, k: int) {
    0 <= i < alloc <= |values| && 0 <= k < values[i].length <= |values[i].slots| &&
    var c := values[i].slots[k];
    i < c < alloc && values[c].parent == i && !OnPath(values, top, c)
  }

  /** In the second pass, each complete value is in one slot of its parent; the others are on the path to the top. */
  ghost predicate Shape(values: seq<Value>, top: int, alloc: nat) {
    && alloc <= |values| && top < alloc
    && (forall i, k :: 0 <= i < alloc && IsContainer(values[i].kind) && 0 <= k < values[i].length ==>
          SlotOk(values, top, alloc, i, k))
    && (forall i :: 0 <= i < alloc && IsContainer(values[i].kind) ==> Injective(values[i]))
    && (forall c :: 0 <= c < alloc ==> OnPath(values, top, c) || Listed(values, c))
    && (top == NONE ==> alloc == 0)
  }

  ghost predicate ShapeOf(t: State) {
    Shape(t.values, t.top, t.alloc)
  }

  lemma {:induction false} PathSame(v: seq<Value>, w: seq<Value>, top: int, c: int)
    requires |v| == |w| && forall i :: 0 <= i <= top && i < |v| ==> v[i].parent == w[i].parent
    ensures OnPath(v, top, c) == OnPath(w, top, c)
    decreases top
  {
    if 0 <= top < |v| && v[top].parent < top {
      PathSame(v, w, v[top].parent, c);
    }
  }

  lemma {:induction false} PathBelow(v: seq<Value>, top: int, c: int)
    requires OnPath(v, top, c)
    ensures 0 <= c <= top
    decreases top
  {
    if c != top {
      PathBelow(v, v[top].parent, c);
    }
  }

  /** Shape depends on parents, slots and the lengths of arrays and objects only. */
  lemma {:induction false} ShapeSame(t: State, u: State)
    requires Shape(t.values, t.top, t.alloc) && u.top == t.top && u.alloc == t.alloc && |u.values| == |t.values|
    requires forall i :: 0 <= i < |t.values| ==> SameShape(t.values[i], u.values[i])
    ensures Shape(u.values, u.top, u.alloc)
  {
    forall c ensures OnPath(u.values, u.top, c) == OnPath(t.values, t.top, c) {
      PathSame(t.values, u.values, t.top, c);
    }
    forall i, k | 0 <= i < u.alloc && IsContainer(u.values[i].kind) && 0 <= k < u.values[i].length
      ensures SlotOk(u.values, u.top, u.alloc, i, k)
    {
      assert SameShape(t.values[i], u.values[i]) && SlotOk(t.values, t.top, t.alloc, i, k);
      assert SameShape(t.values[t.values[i].slots[k]], u.values[t.values[i].slots[k]]);
    }
    forall c | 0 <= c < u.alloc ensures OnPath(u.values, u.top, c) || Listed(u.values, c) {
      if !OnPath(t.values, t.top, c) {
        var k :| ChildAt(t.values, c, k);
        assert SameShape(t.values[c], u.values[c]);
        assert SameShape(t.values[t.values[c].parent], u.values[t.values[c].parent]);
        assert ChildAt(u.values, c, k);
      }
    }
  }

  predicate SameShape(v: Value, w: Value) {
    w.parent == v.parent && w.kind == v.kind && w.slots == v.slots && (IsContainer(v.kind) ==> w.length == v.length)
  }

  lemma {:induction false} ShapeNew(measured: seq<Value>, t: State, kind: Kind)
    requires Shape(t.values, t.top, t.alloc) && NewValue(Second(measured), t, kind).Go?
        && t.values[t.alloc].parent == t.top
    ensures ShapeOf(NewValue(Second(measured), t, kind).s)
  {
    var u := NewValue(Second(measured), t, kind).s;
    forall c ensures OnPath(u.values, u.top, c) <==> c == u.top || OnPath(t.values, t.top, c) {
      PathSame(t.values, u.values, t.top, c);
    }
    forall i, k | 0 <= i < u.alloc && IsContainer(u.values[i].kind) && 0 <= k < u.values[i].length
      ensures SlotOk(u.values, u.top, u.alloc, i, k)
    {
      assert SlotOk(t.values, t.top, t.alloc, i, k);
    }
    forall c | 0 <= c < u.alloc ensures OnPath(u.values, u.top, c) || Listed(u.values, c) {
      if c < t.alloc && !OnPath(t.values, t.top, c) {
        var k :| ChildAt(t.values, c, k);
        assert ChildAt(u.values, c, k);
      }
    }
  }

  lemma {:induction false} ShapeNext(measured: seq<Value>, t: State, ptr: nat)
    requires Shape(t.values, t.top, t.alloc) && Next(Second(measured), t, ptr).Go? && InRange(t, t.top)
    requires var p := t.values[t.top].parent; p == NONE || (0 <= p < t.top && IsContainer(t.values[p].kind))
    ensures ShapeOf(Next(Second(measured), t, ptr).s)
  {
    var u := Next(Second(measured), t, ptr).s;
    var p := t.values[t.top].parent;
    if p == NONE {
      ShapeSame(t, u);
    } else {
      forall c ensures OnPath(t.values, t.top, c) <==> c == t.top || OnPath(u.values, u.top, c) {
        PathSame(t.values, u.values, p, c);
      }
      assert !OnPath(u.values, u.top, t.top) by {
        if OnPath(u.values, u.top, t.top) {
          PathBelow(u.values, u.top, t.top);
        }
      }
      forall k | 0 <= k < t.values[p].length ensures t.values[p].slots[k] != t.top {
        assert SlotOk(t.values, t.top, t.alloc, p, k);
      }
      forall i, k | 0 <= i < u.alloc && IsContainer(u.values[i].kind) && 0 <= k < u.values[i].length
        ensures SlotOk(u.values, u.top, u.alloc, i, k)
      {
        assert (i == p && k == t.values[p].length) || SlotOk(t.values, t.top, t.alloc, i, k);
      }
      forall c | 0 <= c < u.alloc ensures OnPath(u.values, u.top, c) || Listed(u.values, c) {
        if c == t.top {
          assert ChildAt(u.values, c, t.values[p].length);
        } else if !OnPath(t.values, t.top, c) {
          var k :| ChildAt(t.values, c, k);
          assert ChildAt(u.values, c, k);
        }
      }
    }
  }

  // ----- room

  /** All the proper ancestors of value i have a slot for the child that is under way. */
  predicate PathRoomy(measured: seq<Value>, values: seq<Value>, i: int)
    decreases i
  {
    0 <= i < |values| <= |measured| &&
    var p := values[i].parent;
    p == NONE || (0 <= p < i && values[p].length < SlotCount(measured[p]) && PathRoomy(measured, values, p))
  }

  /** Nothing has been refused, and where a value is due there is a slot for it. */
  predicate Roomy(measured: seq<Value>, s: State) {
    && |s.values| <= |measured|
    && (forall i :: 0 <= i < |s.values| ==> !Refused(measured[i]))
    && (s.top != NONE ==> PathRoomy(measured, s.values, s.top))
    && (s.flags.seekValue ==> TopRoomy(measured, s))
  }

  /** If the top is an object, it has a slot for one more child. */
  predicate TopRoomy(measured: seq<Value>, s: State) {
    InRange(s, s.top) && s.top < |measured| && measured[s.top].kind == Object ==>
      s.values[s.top].length < SlotCount(measured[s.top])
  }

  lemma {:induction false} RoomySame(measured: seq<Value>, v: seq<Value>, w: seq<Value>, i: int)
    requires PathRoomy(measured, v, i) && |v| <= |w| <= |measured|
    requires forall j :: 0 <= j <= i ==> v[j].parent == w[j].parent
    requires forall j :: 0 <= j < i && IsContainer(v[j].kind) ==> v[j].length == w[j].length
    requires forall j :: 0 <= j <= i && v[j].parent != NONE ==> 0 <= v[j].parent < j && IsContainer(v[v[j].parent].kind)
    ensures PathRoomy(measured, w, i)
    decreases i
  {
    if v[i].parent != NONE {
      RoomySame(measured, v, w, v[i].parent);
    }
  }

  /** The states of the passes match, the tree so far is well formed, and there is room. */
  ghost predicate Sim(measured: seq<Value>, s: State, t: State) {
    Match(measured, s, t) && Shape(t.values, t.top, t.alloc) && Roomy(measured, s)
  }

  lemma {:induction false} SimStart(measured: seq<Value>)
    ensures Sim(measured, Start(First), Start(Second(measured)))
  {
  }

  // ----- the parts of a turn

  lemma {:induction false} SimNext(measured: seq<Value>, s: State, t: State, ptr: nat)
    requires Closing(s) && Sim(measured, s, t) && Next(First, s, ptr).Go?
    requires Core(measured, Next(First, s, ptr).s.values, Next(First, s, ptr).s.top)
    ensures Next(Second(measured), t, ptr).Go? && Sim(measured, Next(First, s, ptr).s, Next(Second(measured), t, ptr).s)
  {
    var u := Next(First, s, ptr).s;
    var p := s.values[s.top].parent;
    assert ParentOk(s.values, s.top);
    assert Twin(measured[s.top], s.values[s.top], t.values[s.top]);
    if p != NONE {
      assert Twin(measured[p], s.values[p], t.values[p]) && Grows(u.values[p], measured[p]);
      RoomyNext(measured, s, ptr);
    }
    hide Shape, PathRoomy;
    ShapeNext(measured, t, ptr);
  }

  lemma {:induction false} RoomyNext(measured: seq<Value>, s: State, ptr: nat)
    requires Closing(s) && Roomy(measured, s) && Next(First, s, ptr).Go? && s.values[s.top].parent != NONE
    requires Core(measured, Next(First, s, ptr).s.values, Next(First, s, ptr).s.top)
    ensures Roomy(measured, Next(First, s, ptr).s)
    ensures var p := s.values[s.top].parent; 0 <= p < s.top && s.values[p].length < SlotCount(measured[p])
  {
    assert ParentOk(s.values, s.top);
    var u := Next(First, s, ptr).s;
    forall j | 0 <= j <= u.top && s.values[j].parent != NONE
      ensures 0 <= s.values[j].parent < j && IsContainer(s.values[s.values[j].parent].kind)
    {
      assert ParentOk(s.values, j);
    }
    RoomySame(measured, s.values, u.values, u.top);
  }

  lemma {:induction false} SimNew(measured: seq<Value>, s: State, t: State, kind: Kind)
    requires Opening(s) && (s.flags.seekValue ==> kind == Array) && Sim(measured, s, t) && TopRoomy(measured, s)
    requires var u := NewValue(First, s, kind).s; Core(measured, u.values, u.top)
    ensures |s.values| < |measured| && measured[|s.values|].parent == s.top
    ensures if kind == Object && Refused(measured[|s.values|]) then NewValue(Second(measured), t, kind) == Fail
            else
              && NewValue(Second(measured), t, kind).Go?
              && Sim(measured, NewValue(First, s, kind).s, NewValue(Second(measured), t, kind).s)
  {
    var u := NewValue(First, s, kind).s;
    hide Shape, PathRoomy;
    assert Grows(u.values[u.top], measured[u.top]);
    assert forall i :: 0 <= i < |s.values| ==> u.values[i] == s.values[i];
    if !Refused(measured[u.top]) {
      ShapeNew(measured, t, kind);
      RoomyNew(measured, s, kind);
    }
  }

  lemma {:induction false} RoomyNew(measured: seq<Value>, s: State, kind: Kind)
    requires Opening(s) && (s.flags.seekValue ==> kind == Array) && Roomy(measured, s) && TopRoomy(measured, s)
    requires var u := NewValue(First, s, kind).s; Core(measured, u.values, u.top) && !Refused(measured[u.top])
    ensures Roomy(measured, NewValue(First, s, kind).s)
  {
    var u := NewValue(First, s, kind).s;
    assert forall i :: 0 <= i < |s.values| ==> u.values[i] == s.values[i];
    if s.top != NONE {
      assert Grows(u.values[s.top], measured[s.top]);
      forall j | 0 <= j <= s.top && s.values[j].parent != NONE
        ensures 0 <= s.values[j].parent < j && IsContainer(s.values[s.values[j].parent].kind)
      {
        assert ParentOk(s.values, j);
      }
      RoomySame(measured, s.values, u.values, s.top);
    }
  }

  /** A key is being read for which the object has no entry. */
  predicate KeyBlocked(measured: seq<Value>, s: State) {
    && s.flags.inString && InRange(s, s.top) && s.top < |measured| && s.values[s.top].kind == Object
    && s.values[s.top].length >= SlotCount(measured[s.top])
  }

  lemma {:induction false} SimString(text: seq<Octet>, measured: seq<Value>, s: State, t: State)
    requires Ok(text, s) && s.flags.inString && Sim(measured, s, t) && Below(measured, s)
    requires StringTurn(First, text, s).Go? && Below(measured, StringTurn(First, text, s).s)
    ensures var o := StringTurn(Second(measured), text, t);
            || (o.Go? && Sim(measured, StringTurn(First, text, s).s, o.s))
            || (KeyBlocked(measured, s) && o == Overrun)
  {
    hide Grows, ReadUnicode, Utf8Length, Shape, PathRoomy, ValuesSize, EntryCount, TreeOk, Next;
    var f, v, w := measured[s.top], s.values[s.top], t.values[s.top];
    assert Twin(f, v, w);
    SlotCountExact(f);
    if At(text, s.ptr) == QUOTE && !s.flags.escaped {
      if v.kind == String {
        SimStringEnd(text, measured, s, t);
      } else {
        SimKeyEnd(text, measured, s, t);
      }
    } else if StringTurn(Second(measured), text, t).Go? {
      var u := StringTurn(First, text, s).s;
      assert u.values == s.values && u.top == s.top;
      ShapeSame(t, StringTurn(Second(measured), text, t).s);
    }
  }

  lemma {:induction false} SimStringEnd(text: seq<Octet>, measured: seq<Value>, s: State, t: State)
    requires Ok(text, s) && s.flags.inString && Sim(measured, s, t) && Below(measured, s)
    requires At(text, s.ptr) == QUOTE && !s.flags.escaped && s.values[s.top].kind == String
    requires StringTurn(First, text, s).Go? && Below(measured, StringTurn(First, text, s).s)
    ensures StringTurn(Second(measured), text, t).Go?
    ensures Sim(measured, StringTurn(First, text, s).s, StringTurn(Second(measured), text, t).s)
  {
    hide Shape, Grows, PathOpen, PathRoomy, ValuesSize, EntryCount, Next;
    var v, w := s.values[s.top], t.values[s.top];
    assert Twin(measured[s.top], v, w) && ParentOk(s.values, s.top);
    var f := s.flags.(inString := false);
    var s2 := s.(flags := f, values := s.values[s.top := v.(length := s.stringLength)]);
    var t2 := t.(flags := f, values := t.values[s.top := w.(length := t.stringLength)]);
    TreeUpdate(s.values, s.top, s2.values[s.top]);
    ShapeSame(t, t2);
    RoomyTop(measured, s, s2.values);
    assert Sim(measured, s2, t2);
    SimNext(measured, s2, t2, s.ptr + 1);
  }

  lemma {:induction false} SimKeyEnd(text: seq<Octet>, measured: seq<Value>, s: State, t: State)
    requires Ok(text, s) && s.flags.inString && Sim(measured, s, t) && Below(measured, s)
    requires At(text, s.ptr) == QUOTE && !s.flags.escaped && s.values[s.top].kind == Object
    requires StringTurn(First, text, s).Go? && Below(measured, StringTurn(First, text, s).s)
    ensures var o := StringTurn(Second(measured), text, t);
            || (o.Go? && Sim(measured, StringTurn(First, text, s).s, o.s))
            || (KeyBlocked(measured, s) && o == Overrun)
  {
    hide Shape, Grows, PathOpen, PathRoomy, ValuesSize, EntryCount, TreeOk;
    assert Twin(measured[s.top], s.values[s.top], t.values[s.top]);
    SlotCountExact(measured[s.top]);
    if StringTurn(Second(measured), text, t).Go? {
      RoomyTop(measured, s, StringTurn(First, text, s).s.values);
      ShapeSame(t, StringTurn(Second(measured), text, t).s);
    }
  }

  /** Only the top value is different, and as long as before if it is an array or an object. */
  lemma {:induction false} RoomyTop(measured: seq<Value>, s: State, w: seq<Value>)
    requires TreeOk(s.values) && InRange(s, s.top) && PathRoomy(measured, s.values, s.top)
    requires |w| == |s.values| && w == s.values[s.top := w[s.top]] && w[s.top].parent == s.values[s.top].parent
    ensures PathRoomy(measured, w, s.top)
  {
    forall j | 0 <= j <= s.top && s.values[j].parent != NONE
      ensures 0 <= s.values[j].parent < j && IsContainer(s.values[s.values[j].parent].kind)
    {
      assert ParentOk(s.values, j);
    }
    RoomySame(measured, s.values, w, s.top);
  }

  lemma {:induction false} SimObject(text: seq<Octet>, measured: seq<Value>, s: State, t: State)
    requires Ok(text, s) && !s.flags.inString && !s.flags.done && !s.flags.seekValue && s.values[s.top].kind == Object
    requires Sim(measured, s, t) && ObjectTurn(First, text, s).Go? && Below(measured, ObjectTurn(First, text, s).s)
    ensures ObjectTurn(Second(measured), text, t).Go?
    ensures Sim(measured, ObjectTurn(First, text, s).s, ObjectTurn(Second(measured), text, t).s)
  {
    hide Grows, PathOpen, Next, Twin, Shape;
    if At(text, s.ptr) == 0x7d {
      SimNext(measured, s.(flags := s.flags.(needComma := false)),
          t.(flags := t.flags.(needComma := false)), s.ptr + 1);
    }
  }

  /** The next value is an object that is refused memory. */
  predicate NextRefused(measured: seq<Value>, s: State) {
    && |s.values| < |measured| && Refused(measured[|s.values|])
    && measured[|s.values|].parent == s.top && s.flags.seekValue
  }

  lemma {:induction false} SimFlags(measured: seq<Value>, s: State, t: State, f: Flags, n: nat)
    requires Sim(measured, s, t) && (f.seekValue ==> s.flags.seekValue)
    ensures Sim(measured, s.(flags := f, stringLength := n), t.(flags := f, stringLength := n))
    ensures !f.inString ==> Sim(measured, s.(flags := f), t.(flags := f))
  {
  }

  /** Creating a value, and moving past its first character. */
  lemma {:induction false} SimOpen(measured: seq<Value>, s: State, t: State, kind: Kind)
    requires Opening(s) && (s.flags.seekValue ==> kind == Array) && Sim(measured, s, t) && TopRoomy(measured, s)
    requires var u := Advance(NewValue(First, s, kind), s.ptr + 1).s; Core(measured, u.values, u.top)
    ensures var o := Advance(NewValue(Second(measured), t, kind), t.ptr + 1);
            || (o.Go? && Sim(measured, Advance(NewValue(First, s, kind), s.ptr + 1).s, o.s))
            || (Refused(measured[|s.values|]) && measured[|s.values|].parent == s.top && o == Fail)
    ensures |s.values| < |measured|
  {
    SimNew(measured, s, t, kind);
    var u, o := NewValue(First, s, kind).s, NewValue(Second(measured), t, kind);
    assert t.ptr == s.ptr;
    hide NewValue, TreeOk, Core, Refused;
    if o.Go? {
      SimMoved(measured, u, o.s, s.ptr + 1);
    }
  }

  lemma {:induction false} SimMoved(measured: seq<Value>, s: State, t: State, ptr: nat)
    requires Sim(measured, s, t)
    ensures Sim(measured, s.(ptr := ptr), t.(ptr := ptr))
  {
  }

  lemma {:induction false} SimFacts(measured: seq<Value>, s: State, t: State)
    requires Sim(measured, s, t)
    ensures t.ptr == s.ptr && t.flags == s.flags && (s.flags.seekValue ==> TopRoomy(measured, s))
  {
  }

  /** A first character that does not begin a number. */
  lemma {:induction false} SimStartValue(text: seq<Octet>, measured: seq<Value>, s: State, t: State)
    requires Ok(text, s) && s.flags.seekValue && Sim(measured, s, t)
    requires !IsWhitespace(At(text, s.ptr)) && !IsDigit(At(text, s.ptr)) && At(text, s.ptr) != 0x2d
    requires StartValue(First, text, s).Go? && Below(measured, StartValue(First, text, s).s)
    ensures var o := StartValue(Second(measured), text, t);
            || (o.Go? && Sim(measured, StartValue(First, text, s).s, o.s))
            || (NextRefused(measured, s) && o == Fail)
  {
    hide TreeOk, Core, Literal, NewValue, Advance, Sim, Refused, SlotCount;
    var b := At(text, s.ptr);
    var f := s.flags.(seekValue := false);
    SimFacts(measured, s, t);
    SimFlags(measured, s, t, f, 0);
    if b == 0x7b {
      SimOpen(measured, s.(flags := f), t.(flags := f), Object);
    } else if b == 0x5b {
      var g := f.(seekValue := true);
      SimFlags(measured, s, t, g, 0);
      SimOpen(measured, s.(flags := g), t.(flags := g), Array);
    } else if b == QUOTE {
      var g := f.(inString := true);
      SimFlags(measured, s, t, g, 0);
      SimOpen(measured, s.(flags := g, stringLength := 0), t.(flags := g, stringLength := 0), String);
    } else if b == 0x74 {
      SimLiteral(text, measured, s.(flags := f), t.(flags := f), Boolean, TRUE_REST);
    } else if b == 0x66 {
      SimLiteral(text, measured, s.(flags := f), t.(flags := f), Boolean, FALSE_REST);
    } else {
      SimLiteral(text, measured, s.(flags := f), t.(flags := f), Null, NULL_REST);
    }
  }

  lemma {:induction false} SimLiteral(
    text: seq<Octet>, measured: seq<Value>, s: State, t: State, kind: Kind, word: seq<Octet>)
    requires Opening(s) && !s.flags.inString && !s.flags.seekValue && Sim(measured, s, t) && TopRoomy(measured, s)
    requires kind != Object
    requires var o := Literal(First, text, s, kind, word); o.Go? && Core(measured, o.s.values, o.s.top)
    ensures Literal(Second(measured), text, t, kind, word).Go?
    ensures Sim(measured, Literal(First, text, s, kind, word).s, Literal(Second(measured), text, t, kind, word).s)
  {
    hide Sim, TreeOk, Core, Refused, SlotCount, Next, NewValue, Spells, CutOff;
    SimFacts(measured, s, t);
    LiteralCreated(text, measured, s, kind, word);
    SimNew(measured, s, t, kind);
    SimNext(measured, NewValue(First, s, kind).s, NewValue(Second(measured), t, kind).s, s.ptr + |word| + 1);
  }

  lemma {:induction false} LiteralCreated(
    text: seq<Octet>, measured: seq<Value>, s: State, kind: Kind, word: seq<Octet>)
    requires Opening(s) && !s.flags.inString && !s.flags.seekValue
    requires var o := Literal(First, text, s, kind, word); o.Go? && Core(measured, o.s.values, o.s.top)
    ensures Spells(text, s.ptr + 1, word) && NewValue(First, s, kind).Go? && Closing(NewValue(First, s, kind).s)
    ensures var u := NewValue(First, s, kind).s; Core(measured, u.values, u.top)
    ensures Literal(First, text, s, kind, word) == Next(First, NewValue(First, s, kind).s, s.ptr + |word| + 1)
  {
    NewOk(s, kind);
    NextBack(text, measured, NewValue(First, s, kind).s, s.ptr + |word| + 1);
  }

  lemma {:induction false} SimSeek(text: seq<Octet>, measured: seq<Value>, s: State, t: State)
    requires Ok(text, s) && s.flags.seekValue && Sim(measured, s, t) && !StartsNumber(text, s)
    requires SeekTurn(First, text, s).Go? && Below(measured, SeekTurn(First, text, s).s)
    ensures var o := SeekTurn(Second(measured), text, t);
            || (o.Go? && Sim(measured, SeekTurn(First, text, s).s, o.s))
            || (NextRefused(measured, s) && o == Fail)
  {
    var b := At(text, s.ptr);
    hide Grows, PathOpen, StartValue, Next;
    if IsWhitespace(b) {
    } else if b == 0x5d {
      assert Twin(measured[s.top], s.values[s.top], t.values[s.top]);
      var f := s.flags.(needComma := false, seekValue := false);
      SimNext(measured, s.(flags := f), t.(flags := f), s.ptr + 1);
    } else if s.flags.needComma || s.flags.needColon {
    } else {
      SimStartValue(text, measured, s, t);
    }
  }

  // ----- numbers

  /** The turn sees the first character of a number. */
  predicate StartsNumber(text: seq<Octet>, s: State) {
    && s.flags.seekValue && !s.flags.inString && !s.flags.done && !s.flags.needComma && !s.flags.needColon
    && (IsDigit(At(text, s.ptr)) || At(text, s.ptr) == 0x2d)
  }

  /** After a number, a part of another number is always an error. */
  lemma {:induction false} NumberCharFails(text: seq<Octet>, s: State)
    requires Ok(text, s) && !InNumber(s) && !s.flags.inString && s.flags.needComma
    ensures IsNumberChar(At(text, s.ptr)) ==> Turn(First, text, s) == Fail
  {
    hide StartValue, Next;
  }

  lemma {:induction false} NoNumberNext(text: seq<Octet>, s: State)
    requires Ok(text, s) && !InNumber(s) && !s.flags.inString && s.flags.needComma && Run(First, text, s).Accept?
    ensures !IsNumberChar(At(text, s.ptr))
  {
    NumberCharFails(text, s);
    hide Ok, Turn, InNumber, Measure;
  }

  /** u is s at the end of the number that s is in. */
  predicate NumberEnd(text: seq<Octet>, s: State, u: State) {
    && u.flags == s.flags && u.top == s.top && |u.values| == |s.values| && InRange(s, s.top)
    && IsNumber(u.values[u.top].kind) && u.values == s.values[s.top := s.values[s.top].(kind := u.values[u.top].kind)]
    && u.ptr == SkipNumber(text, s.ptr)
  }

  /** What follows the number, in the first pass. */
  predicate Resumes(text: seq<Octet>, s: State, u: State) {
    Closing(u) && u.ptr <= |text| && Next(First, u, u.ptr).Go? &&
    var t := Next(First, u, u.ptr).s;
    && Ok(text, t) && !InNumber(t) && Measure(text, t) < Measure(text, s)
    && Run(First, text, t) == Run(First, text, s)
  }

  /**
   The first pass follows the grammar of numbers, the second skips everything that may occur in a number.
   When the first pass accepts in the end, both stop at the same place.
   */
  lemma {:induction false} NumberRun(text: seq<Octet>, s: State) returns (u: State)
    requires Ok(text, s) && InNumber(s) && !s.flags.needComma && !s.flags.needColon && Run(First, text, s).Accept?
    ensures NumberEnd(text, s, u) && Resumes(text, s, u)
    decreases Measure(text, s)
  {
    var v := s.values[s.top];
    match NumberTurn(At(text, s.ptr), s.num, v.kind)
    case More(_, _) =>
      NumberGoesOn(text, s);
      var t := Turn(First, text, s).s;
      u := NumberRun(text, t);
      hide Measure, Run, Turn, Ok, InNumber, Next, Closing;
    case Ended =>
      u := s;
      NumberStops(text, s);
    case Wrong =>
  }

  lemma {:induction false} NumberGoesOn(text: seq<Octet>, s: State)
    requires Ok(text, s) && InNumber(s) && Run(First, text, s).Accept?
    requires NumberTurn(At(text, s.ptr), s.num, s.values[s.top].kind).More?
    ensures Turn(First, text, s).Go?
    ensures var t := Turn(First, text, s).s;
            && Ok(text, t) && InNumber(t) && t.flags == s.flags && t.top == s.top && |t.values| == |s.values|
            && t.values == s.values[s.top := s.values[s.top].(kind := t.values[t.top].kind)]
            && Measure(text, t) < Measure(text, s) && Run(First, text, t) == Run(First, text, s)
            && SkipNumber(text, t.ptr) == SkipNumber(text, s.ptr)
  {
    TurnOk(text, s);
    hide Measure, TreeOk;
  }

  lemma {:induction false} NumberStops(text: seq<Octet>, s: State)
    requires Ok(text, s) && InNumber(s) && !s.flags.needComma && !s.flags.needColon && Run(First, text, s).Accept?
    requires NumberTurn(At(text, s.ptr), s.num, s.values[s.top].kind).Ended?
    ensures NumberEnd(text, s, s) && Resumes(text, s, s)
  {
    TurnOk(text, s);
    assert Turn(First, text, s) == Next(First, s, s.ptr);
    hide Measure, TreeOk;
    assert s.values == s.values[s.top := s.values[s.top].(kind := s.values[s.top].kind)];
    NextOk(text, s, s.ptr);
    NextFlags(s, s.ptr);
    NoNumberNext(text, Next(First, s, s.ptr).s);
  }

  lemma {:induction false} NextFlags(s: State, ptr: nat)
    requires Next(First, s, ptr).Go?
    ensures var t := Next(First, s, ptr).s; t.flags.needComma && t.flags.inString == s.flags.inString && t.ptr == ptr
  {
  }

  /** The first character of a number: one turn of the second pass does what many turns of the first do. */
  lemma {:induction false} SimNumber(
    text: seq<Octet>, measured: seq<Value>, s: State, t: State) returns (u: State, w: State)
    requires Ok(text, s) && Sim(measured, s, t) && StartsNumber(text, s) && Run(First, text, s) == Accept(measured)
    ensures Closing(u) && u.ptr <= |text| && Next(First, u, u.ptr).Go? && Turn(Second(measured), text, t).Go?
    ensures NewValue(Second(measured), t.(flags := t.flags.(seekValue := false)), Integer) == Go(w)
    ensures Turn(Second(measured), text, t) == Next(Second(measured), w, u.ptr)
    ensures Sim(measured, Next(First, u, u.ptr).s, Turn(Second(measured), text, t).s)
    ensures Ok(text, Next(First, u, u.ptr).s) && !InNumber(Next(First, u, u.ptr).s)
    ensures Measure(text, Next(First, u, u.ptr).s) < Measure(text, s)
    ensures Run(First, text, Next(First, u, u.ptr).s) == Accept(measured)
  {
    hide Turn, Next, Run, Measure, Ok, InNumber, Closing, Sim, StartsNumber, NewValue, AtNumber, Core, Promised;
    var n := FirstNumber(text, s, measured);
    u := NumberRun(text, n);
    AcceptedBelow(text, Next(First, u, u.ptr).s, measured);
    w := SecondNumber(text, measured, s, t);
    SimNumberEnd(measured, NewValue(First, AtNumber(text, s), Integer).s, u, w);
  }

  /** The state in which the first pass creates the value of a number. */
  function AtNumber(text: seq<Octet>, s: State): State {
    s.(flags := s.flags.(seekValue := false), num := Num(0, At(text, s.ptr) == 0x2d, false, false, false))
  }

  /** The first pass begins to follow the number. */
  lemma {:induction false} FirstNumber(text: seq<Octet>, s: State, measured: seq<Value>) returns (n: State)
    requires Ok(text, s) && StartsNumber(text, s) && Run(First, text, s) == Accept(measured)
    ensures Opening(AtNumber(text, s)) && NewValue(First, AtNumber(text, s), Integer).Go?
    ensures n == NewValue(First, AtNumber(text, s), Integer).s.(ptr := n.ptr)
    ensures Ok(text, n) && InNumber(n) && !n.flags.needComma && !n.flags.needColon
    ensures IsNumber(n.values[n.top].kind) && SkipNumber(text, n.ptr) == SkipNumber(text, s.ptr)
    ensures Run(First, text, n) == Accept(measured) && Measure(text, n) < Measure(text, s)
    ensures Core(measured, n.values, n.top)
  {
    hide TreeOk, Grows;
    TurnOk(text, s);
    NewOk(AtNumber(text, s), Integer);
    n := Turn(First, text, s).s;
    AcceptedBelow(text, n, measured);
  }

  /** The second pass skips it in one turn. */
  lemma {:induction false} SecondNumber(text: seq<Octet>, measured: seq<Value>, s: State, t: State) returns (w: State)
    requires Opening(AtNumber(text, s)) && Sim(measured, s, t) && StartsNumber(text, s)
    requires var n := NewValue(First, AtNumber(text, s), Integer).s; Core(measured, n.values, n.top)
    ensures NewValue(Second(measured), t.(flags := t.flags.(seekValue := false)), Integer) == Go(w)
    ensures Turn(Second(measured), text, t) == Next(Second(measured), w, SkipNumber(text, s.ptr))
    ensures Sim(measured, NewValue(First, AtNumber(text, s), Integer).s, w)
  {
    hide NewValue, Next, Opening, Core, Shape, Twin;
    var t' := t.(flags := t.flags.(seekValue := false));
    SimNew(measured, AtNumber(text, s), t', Integer);
    w := NewValue(Second(measured), t', Integer).s;
  }

  lemma {:induction false} SimNumberEnd(measured: seq<Value>, n: State, u: State, w: State)
    requires Sim(measured, n, w) && Closing(u) && Next(First, u, u.ptr).Go?
    requires Core(measured, Next(First, u, u.ptr).s.values, Next(First, u, u.ptr).s.top)
    requires u.flags == n.flags && u.top == n.top && |u.values| == |n.values| && InRange(n, n.top)
    requires IsNumber(u.values[u.top].kind) && IsNumber(n.values[n.top].kind)
    requires u.values == n.values[n.top := n.values[n.top].(kind := u.values[u.top].kind)]
    ensures Next(Second(measured), w, u.ptr).Go?
    ensures Sim(measured, Next(First, u, u.ptr).s, Next(Second(measured), w, u.ptr).s)
  {
    var w' := w.(ptr := u.ptr);
    assert Twin(measured[n.top], n.values[n.top], w.values[n.top]);
    assert ParentOk(u.values, u.top);
    TreeUpdate(u.values, u.top, n.values[n.top]);
    assert n.values == u.values[u.top := n.values[n.top]];
    RoomyTop(measured, n, u.values);
    assert Sim(measured, u, w');
    hide Next, Twin;
    SimNext(measured, u, w', u.ptr);
    SamePointer(Second(measured), w, u.ptr);
  }

  lemma {:induction false} SamePointer(pass: Pass, s: State, ptr: nat)
    ensures Next(pass, s.(ptr := ptr), ptr) == Next(pass, s, ptr)
  {
  }

  /** A turn that does not begin a number is the same in both passes, if there is memory. */
  lemma {:induction false} SimTurn(text: seq<Octet>, measured: seq<Value>, s: State, t: State)
    requires Ok(text, s) && !InNumber(s) && Sim(measured, s, t) && !StartsNumber(text, s)
    requires Turn(First, text, s).Go? && Below(measured, s) && Below(measured, Turn(First, text, s).s)
    ensures !InNumber(Turn(First, text, s).s)
    ensures var o := Turn(Second(measured), text, t);
            || (o.Go? && Sim(measured, Turn(First, text, s).s, o.s))
            || (KeyBlocked(measured, s) && o == Overrun)
            || (NextRefused(measured, s) && o == Fail)
  {
    NoNumber(text, s);
    hide StringTurn, SeekTurn, ObjectTurn, DigitsTurn, Grows, Core, TreeOk;
    if s.flags.inString {
      SimString(text, measured, s, t);
    } else if s.flags.done {
    } else if s.flags.seekValue {
      SimSeek(text, measured, s, t);
    } else {
      assert Twin(measured[s.top], s.values[s.top], t.values[s.top]);
      SimObject(text, measured, s, t);
    }
  }

  lemma {:induction false} NoNumber(text: seq<Octet>, s: State)
    requires Ok(text, s) && !InNumber(s) && !StartsNumber(text, s) && Turn(First, text, s).Go?
    ensures !InNumber(Turn(First, text, s).s)
  {
    hide Spells, CutOff, Hex4, ReadUnicode, Utf8Length;
    assert s.top != NONE ==> ParentOk(s.values, s.top);
  }

  lemma {:induction false} SimMeasure(text: seq<Octet>, measured: seq<Value>, s: State, t: State)
    requires Sim(measured, s, t) && !InNumber(s) && (s.top == NONE || InRange(s, s.top))
    ensures Measure(text, t) == Measure(text, s)
  {
    if InRange(s, s.top) {
      assert Twin(measured[s.top], s.values[s.top], t.values[s.top]);
    }
  }

  // ----- whole passes

  /**
   A complete tree: value 0 is the root, and every other value is in one slot of its parent, which
   comes before it.
   */
  ghost predicate IsTree(values: seq<Value>) {
    && |values| > 0 && values[0].parent == NONE
    && (forall i :: 0 <= i < |values| && IsContainer(values[i].kind) ==>
          values[i].length == |values[i].slots| && Injective(values[i]))
    && (forall i, k :: 0 <= i < |values| && IsContainer(values[i].kind) && 0 <= k < |values[i].slots| ==>
          IsChild(values, i, values[i].slots[k]))
    && (forall c :: 0 < c < |values| ==> Listed(values, c))
  }

  predicate IsChild(values: seq<Value>, i: int, c: int) {
    0 <= i < c < |values| && values[c].parent == i
  }

  /** The second pass has filled what the first has measured. */
  predicate Filled(measured: seq<Value>, values: seq<Value>) {
    && |values| == |measured|
    && forall i :: 0 <= i < |values| ==> Twin(measured[i], measured[i], values[i])
  }

  /** The second pass accepts, and its values are these. */
  ghost predicate Completes(o: Outcome, measured: seq<Value>) {
    o.Accept? && Filled(measured, o.values) && IsTree(o.values)
  }

  /** How the second pass ends: it is complete, or a key or an object has no memory. */
  ghost predicate Ends(o: Outcome, measured: seq<Value>) {
    match o
    case Accept(_) => Completes(o, measured) && AllSmall(measured)
    case Overrun => Overruns(measured)
    case Fail => Refuses(measured)
    case _ => false
  }

  lemma {:induction false} Simulate(text: seq<Octet>, measured: seq<Value>, s: State, t: State)
    requires Ok(text, s) && !InNumber(s) && Sim(measured, s, t) && Run(First, text, s) == Accept(measured)
    ensures Ends(Run(Second(measured), text, t), measured)
    decreases Measure(text, s)
  {
    TurnOk(text, s);
    SimMeasure(text, measured, s, t);
    if Turn(First, text, s).Accept? {
      AcceptsWhenDone(text, s);
      SimEnd(text, measured, s, t);
    } else if StartsNumber(text, s) {
      var u, w := SimNumber(text, measured, s, t);
      var s', t' := Next(First, u, u.ptr).s, Turn(Second(measured), text, t).s;
      hide Turn, Next, Sim, Measure, Ends, NewValue, StartsNumber;
      SimStep(text, measured, s, t, s', t');
    } else {
      AcceptedBelow(text, s, measured);
      AcceptedBelow(text, Turn(First, text, s).s, measured);
      SimTurn(text, measured, s, t);
      hide Turn, Next, Sim, Measure, Ends, StartsNumber, KeyBlocked, NextRefused;
      var o := Turn(Second(measured), text, t);
      if o.Go? && Sim(measured, Turn(First, text, s).s, o.s) {
        SimStep(text, measured, s, t, Turn(First, text, s).s, o.s);
      } else if o == Overrun {
        BlockedOverruns(text, measured, s, t);
      } else {
        RefusedFirst(text, measured, s, t);
      }
    }
  }

  lemma {:induction false} SimStep(text: seq<Octet>, measured: seq<Value>, s: State, t: State, s': State, t': State)
    requires Ok(text, s') && !InNumber(s') && Sim(measured, s', t') && Run(First, text, s') == Accept(measured)
    requires Measure(text, t) == Measure(text, s) && Measure(text, s') < Measure(text, s)
    requires Turn(Second(measured), text, t) == Go(t')
    ensures Ends(Run(Second(measured), text, t), measured)
    decreases Measure(text, s), 0
  {
    hide Turn, Measure, Ends, Twin, Shape;
    SimMeasure(text, measured, s', t');
    Simulate(text, measured, s', t');
  }

  // ----- when memory is missing

  /** The children of value i that are complete. */
  function SlotSet(v: Value): set<int> {
    set k | 0 <= k < v.length && k < |v.slots| :: v.slots[k]
  }

  lemma {:induction false} SlotSetSize(v: Value)
    requires Injective(v)
    ensures |SlotSet(v)| == v.length
    decreases v.length
  {
    if v.length == 0 {
      assert SlotSet(v) == {};
    } else {
      var w := v.(length := v.length - 1);
      SlotSetSize(w);
      assert SlotSet(v) == SlotSet(w) + {v.slots[w.length]};
      assert v.slots[w.length] !in SlotSet(w);
    }
  }

  /** In the first pass, the next value that is created after a key is the one that belongs to it. */
  lemma {:induction false} NextKid(text: seq<Octet>, measured: seq<Value>, s: State)
    requires Ok(text, s) && Run(First, text, s) == Accept(measured)
    requires InRange(s, s.top) && s.values[s.top].kind == Object && (s.flags.inString || s.flags.seekValue)
    ensures |s.values| < |measured| && measured[|s.values|].parent == s.top
    decreases Measure(text, s)
  {
    TurnOk(text, s);
    KeyTurn(text, s);
    var t := Turn(First, text, s).s;
    AcceptedBelow(text, t, measured);
    hide Turn, Ok, Measure;
    if |t.values| == |s.values| {
      NextKid(text, measured, t);
    } else {
      assert Grows(t.values[|s.values|], measured[|s.values|]);
    }
  }

  lemma {:induction false} KeyTurn(text: seq<Octet>, s: State)
    requires Ok(text, s) && Turn(First, text, s) != Fail && Turn(First, text, s) != PastEnd
    requires InRange(s, s.top) && s.values[s.top].kind == Object && (s.flags.inString || s.flags.seekValue)
    ensures Turn(First, text, s).Go?
    ensures var t := Turn(First, text, s).s;
            if |t.values| == |s.values| then
              t.top == s.top && t.values[t.top].kind == Object && (t.flags.inString || t.flags.seekValue)
            else |t.values| > |s.values| && t.values[|s.values|].parent == s.top
  {
    TurnOk(text, s);
    hide TreeOk, ReadUnicode, Utf8Length, Spells, CutOff;
  }

  lemma {:induction false} SubsetSize(a: set<int>, b: set<int>)
    requires a <= b
    ensures |a| <= |b|
  {
    assert |b - a| >= 0 && b == a + (b - a);
  }

  /** The first entry without memory is reached now, and nothing has been refused before. */
  lemma {:induction false} BlockedOverruns(text: seq<Octet>, measured: seq<Value>, s: State, t: State)
    requires Ok(text, s) && Sim(measured, s, t) && Below(measured, s) && KeyBlocked(measured, s)
    requires Run(First, text, s) == Accept(measured)
    ensures Overruns(measured)
  {
    var a, n := s.top, |s.values|;
    var v := t.values[a];
    NextKid(text, measured, s);
    assert Twin(measured[a], s.values[a], v) && Grows(s.values[a], measured[a]);
    assert Overfull(measured[a]);
    hide Ok, Run, Refused, SlotCount;
    SlotSetSize(v);
    forall b | 0 <= b < |measured| && Refused(measured[b]) ensures |Kids(measured, a, b)| > SlotCount(measured[a]) {
      assert b >= n;
      forall c | c in SlotSet(v) ensures c in Kids(measured, a, b) && c != n {
        var k :| 0 <= k < v.length && k < |v.slots| && v.slots[k] == c;
        assert SlotOk(t.values, t.top, t.alloc, a, k);
        assert Twin(measured[c], s.values[c], t.values[c]);
      }
      SubsetSize(SlotSet(v) + {n}, Kids(measured, a, b));
    }
    assert ReachedFirst(measured, a);
  }

  // ----- the children of a value, and the path

  lemma {:induction false} OnePathKid(values: seq<Value>, top: int, c: int, d: int)
    requires 0 <= c < |values| && 0 <= d < |values| && values[c].parent == values[d].parent
    requires OnPath(values, top, c) && OnPath(values, top, d)
    requires values[c].parent < c && values[d].parent < d
    ensures c == d
    decreases top
  {
    if c == top && d != top {
      PathBelow(values, values[top].parent, d);
    } else if d == top && c != top {
      PathBelow(values, values[top].parent, c);
    } else if c != top {
      OnePathKid(values, values[top].parent, c, d);
    }
  }

  lemma {:induction false} PathKidRoomy(measured: seq<Value>, values: seq<Value>, top: int, c: int)
    requires PathRoomy(measured, values, top) && OnPath(values, top, c) && 0 <= c < |values| && values[c].parent != NONE
    ensures var a := values[c].parent; 0 <= a < c && values[a].length < SlotCount(measured[a])
    decreases top
  {
    if c != top {
      PathKidRoomy(measured, values, values[top].parent, c);
    }
  }

  /** A child is in a slot, or on the path. */
  lemma {:induction false} KidPlaces(measured: seq<Value>, s: State, t: State, a: int, c: int)
    requires Sim(measured, s, t) && 0 <= a < |s.values| && 0 <= c < |s.values| && measured[c].parent == a
    ensures Injective(t.values[a]) || !IsContainer(t.values[a].kind)
    ensures OnPath(t.values, t.top, c) || c in SlotSet(t.values[a])
  {
    hide PathRoomy, Refused, SlotCount;
    assert Twin(measured[c], s.values[c], t.values[c]);
    if !OnPath(t.values, t.top, c) {
      var k :| ChildAt(t.values, c, k);
      assert t.values[a].slots[k] == c;
    }
  }

  lemma {:induction false} LengthFits(measured: seq<Value>, s: State, t: State, a: int)
    requires Sim(measured, s, t) && 0 <= a < |s.values| && measured[a].kind == Object
    ensures a < |t.values| && Injective(t.values[a])
    ensures t.values[a].length == s.values[a].length <= SlotCount(measured[a])
  {
    hide PathRoomy, Refused, SlotCount;
    assert Twin(measured[a], s.values[a], t.values[a]);
  }

  /** When the next value is created, no object on the way has been overrun. */
  lemma {:induction false} KidsFit(measured: seq<Value>, s: State, t: State, a: int)
    requires TreeOk(s.values) && Sim(measured, s, t) && NextRefused(measured, s)
    requires 0 <= a < |s.values| && measured[a].kind == Object
    ensures |Kids(measured, a, |s.values|)| <= SlotCount(measured[a])
  {
    hide TreeOk, Refused, SlotCount, Sim, Injective, SlotSet, OnPath;
    LengthFits(measured, s, t, a);
    TopFits(measured, s, t);
    var n, v := |s.values|, t.values[a];
    SlotSetSize(v);
    var kids := Kids(measured, a, n);
    forall c | c in kids && c < n ensures OnPath(t.values, t.top, c) || c in SlotSet(v) {
      KidPlaces(measured, s, t, a, c);
    }
    if c :| c in kids && c < n && OnPath(t.values, t.top, c) {
      PathKid(measured, s, t, a, c);
      SubsetSize(kids, SlotSet(v) + {c});
    } else {
      SubsetSize(kids, SlotSet(v) + if s.top == a then {n} else {});
    }
  }

  lemma {:induction false} TopFits(measured: seq<Value>, s: State, t: State)
    requires Sim(measured, s, t) && NextRefused(measured, s)
    ensures TopRoomy(measured, s) && |s.values| <= |t.values|
  {
  }

  /** The child of a on the path is the only one that is not in a slot yet. */
  lemma {:induction false} PathKid(measured: seq<Value>, s: State, t: State, a: int, c: int)
    requires TreeOk(s.values) && Sim(measured, s, t) && NextRefused(measured, s)
    requires 0 <= a < |s.values| && c in Kids(measured, a, |s.values|) && c < |s.values| && OnPath(t.values, t.top, c)
    ensures forall d :: d in Kids(measured, a, |s.values|) && OnPath(t.values, t.top, d) ==> d == c
    ensures s.top != a && s.values[a].length < SlotCount(measured[a])
    ensures |s.values| !in Kids(measured, a, |s.values|)
  {
    hide Refused, SlotCount;
    PathBelow(t.values, t.top, c);
    assert Twin(measured[c], s.values[c], t.values[c]) && ParentOk(s.values, c);
    forall i | 0 <= i <= t.top && i < |s.values| ensures s.values[i].parent == t.values[i].parent {
      assert Twin(measured[i], s.values[i], t.values[i]);
    }
    PathPrefix(s.values, t.values, t.top, c);
    PathKidRoomy(measured, s.values, s.top, c);
    forall d | d in Kids(measured, a, |s.values|) && OnPath(t.values, t.top, d) ensures d == c {
      PathBelow(t.values, t.top, d);
      assert Twin(measured[d], s.values[d], t.values[d]) && ParentOk(s.values, d);
      OnePathKid(t.values, t.top, c, d);
    }
  }

  lemma {:induction false} PathPrefix(v: seq<Value>, w: seq<Value>, top: int, c: int)
    requires |v| <= |w| && top < |v| && forall i :: 0 <= i <= top ==> v[i].parent == w[i].parent
    ensures OnPath(v, top, c) == OnPath(w, top, c)
    decreases top
  {
    if 0 <= top && v[top].parent < top {
      PathPrefix(v, w, v[top].parent, c);
    }
  }

  /** The measured values are a tree as well. */
  lemma {:induction false} AcceptedTree(text: seq<Octet>, s: State, measured: seq<Value>)
    requires Ok(text, s) && Run(First, text, s) == Accept(measured)
    ensures TreeOk(measured)
    decreases Measure(text, s)
  {
    TurnOk(text, s);
    if Turn(First, text, s).Go? {
      hide Ok, Turn, Measure;
      AcceptedTree(text, Turn(First, text, s).s, measured);
    } else {
      AtTheEnd(text, s);
    }
  }

  /** The next object is refused memory, and no other has been overrun before. */
  lemma {:induction false} RefusedFirst(text: seq<Octet>, measured: seq<Value>, s: State, t: State)
    requires Ok(text, s) && Sim(measured, s, t) && NextRefused(measured, s) && Run(First, text, s) == Accept(measured)
    ensures Refuses(measured)
  {
    AcceptedTree(text, s, measured);
    hide Run, Sim, Refused, SlotCount;
    var n := |s.values|;
    forall c | 0 <= c < |measured| ensures measured[c].parent < c {
      assert ParentOk(measured, c);
    }
    forall a | 0 <= a < |measured| && Overfull(measured[a]) ensures !ReachedFirst(measured, a) {
      if a < n {
        OverfullObject(measured[a]);
        KidsFit(measured, s, t, a);
      } else {
        assert Kids(measured, a, n) == {};
      }
    }
  }

  lemma {:induction false} OverfullObject(v: Value)
    requires Overfull(v)
    ensures v.kind == Object
  {
  }

  lemma {:induction false} SimEnd(text: seq<Octet>, measured: seq<Value>, s: State, t: State)
    requires Ok(text, s) && Sim(measured, s, t) && measured == s.values
    requires s.flags.done && !s.flags.inString && At(text, s.ptr) == 0
    ensures Ends(Run(Second(measured), text, t), measured)
  {
    var values := t.values;
    hide PathRoomy, Refused;
    forall i | 0 <= i < |measured| ensures SlotCount(measured[i]) == measured[i].length && Small(measured[i]) {
      SlotCountExact(measured[i]);
      assert Twin(measured[i], s.values[i], values[i]);
    }
    assert Twin(measured[s.top], s.values[s.top], values[s.top]);
    forall c | 0 <= c < |values| ensures c == s.top || Listed(values, c) {
      assert !OnPath(values, NONE, c);
    }
    assert ParentOk(s.values, 0) && Twin(measured[0], s.values[0], values[0]);
    assert !Listed(values, 0);
    assert s.top == 0;
    forall i | 0 <= i < |values| && IsContainer(values[i].kind) ensures values[i].length == |values[i].slots| {
      assert Twin(measured[i], s.values[i], values[i]);
    }
    forall i, k | 0 <= i < |values| && IsContainer(values[i].kind) && 0 <= k < |values[i].slots|
      ensures IsChild(values, i, values[i].slots[k])
    {
      assert SlotOk(values, t.top, t.alloc, i, k);
    }
  }

  /**
   Whenever the first pass accepts a text, the second one accepts it too if no object has more than 89478485
   members: it ends with the same lengths of strings, arrays, objects and keys, with every slot filled, and with a
   well-formed tree. Otherwise it writes outside of the memory that it has set aside, or is refused memory,
   according to which comes first.
   */
  lemma {:induction false} TwoPassesAgree(text: seq<Octet>)
    requires Run(First, text, Start(First)).Accept?
    ensures var measured := Run(First, text, Start(First)).values;
            var o := Run(Second(measured), text, Start(Second(measured)));
            && (Completes(o, measured) <==> AllSmall(measured))
            && (o == Overrun <==> Overruns(measured))
            && (o == Fail <==> Refuses(measured))
  {
    var measured := Run(First, text, Start(First)).values;
    StartOk(text);
    SimStart(measured);
    Simulate(text, measured, Start(First), Start(Second(measured)));
    OneOfThree(measured);
  }
}
