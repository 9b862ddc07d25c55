/**
 Texts on which the second pass of the JSON parser has too little memory: one object with many members, all with
 an empty key and the value 0.
 */
module JsonLongObject {
  import opened Octets
  import opened JsonSteps
  import opened JsonFirstPass
  import opened JsonMemory
  import opened JsonTwoPasses

  /** {"":0,"":0,...} with n members */
  function LongText(n: nat): (text: seq<Octet>)
    requires n > 0
    ensures |text| == 5 * n + 1
  {
    seq(5 * n + 1, i requires 0 <= i < 5 * n + 1 => LongByte(n, i))
  }

  function LongByte(n: nat, i: nat): Octet
    requires n > 0
  {
    if i == 0 then 0x7b
    else if i == 5 * n then 0x7d
    else match (i - 1) % 5
         case 0 => QUOTE
         case 1 => QUOTE
         case 2 => COLON
         case 3 => 0x30
         case _ => COMMA
  }

  /** The object with k members so far, and its members. */
  predicate LongValues(values: seq<Value>, k: nat) {
    && |values| == k + 1 && values[0] == Value(NONE, Object, k, k, [], [])
    && forall i :: 1 <= i <= k ==> values[i] == Value(0, Integer, 0, 0, [], [])
  }

  /** The first pass is in the object, at its k-th member or the comma or brace before. */
  predicate InObject(s: State, k: nat, ptr: nat, f: Flags) {
    s.ptr == ptr && s.top == 0 && LongValues(s.values, k) && s.flags == f
  }

  lemma {:induction false} RunStep(text: seq<Octet>, s: State, t: State)
    requires Ok(text, s) && Turn(First, text, s) == Go(t)
    ensures Ok(text, t) && Run(First, text, t) == Run(First, text, s)
  {
    TurnOk(text, s);
    hide Ok, Turn, Measure;
  }

  /** The bytes of member k */
  lemma {:induction false} MemberBytes(n: nat, k: nat)
    requires k < n
    ensures var t := LongText(n);
            && t[5 * k + 1] == t[5 * k + 2] == QUOTE && t[5 * k + 3] == COLON && t[5 * k + 4] == 0x30
            && t[5 * k + 5] == if k + 1 == n then 0x7d else COMMA
  {
  }

  const KEY: Flags := NO_FLAGS.(inString := true)
  const AFTER_KEY: Flags := NO_FLAGS.(seekValue := true, needColon := true)

  /** From the quote before the key to the colon. */
  lemma {:induction false} ReadKey(n: nat, k: nat, s: State) returns (t: State)
    requires k < n && Ok(LongText(n), s) && InObject(s, k, 5 * k + 1, NO_FLAGS)
    ensures Ok(LongText(n), t) && Run(First, LongText(n), t) == Run(First, LongText(n), s)
    ensures t == s.(ptr := 5 * k + 4, flags := NO_FLAGS.(seekValue := true), stringLength := 0,
                    values := s.values[0 := s.values[0].(keyBytes := k + 1)])
  {
    var text := LongText(n);
    MemberBytes(n, k);
    hide LongText, Ok, Run;
    var a := s.(flags := KEY, stringLength := 0, ptr := s.ptr + 1);
    RunStep(text, s, a);
    var b := a.(flags := AFTER_KEY, ptr := a.ptr + 1, values := a.values[0 := a.values[0].(keyBytes := k + 1)]);
    RunStep(text, a, b);
    t := b.(flags := NO_FLAGS.(seekValue := true), ptr := b.ptr + 1);
    RunStep(text, b, t);
  }

  /** From the 0 to the comma or brace. */
  lemma {:induction false} ReadZero(n: nat, k: nat, s: State) returns (t: State)
    requires k < n <= UINT_MAX && Ok(LongText(n), s) && s.ptr == 5 * k + 4 && s.top == 0
    requires s.flags == NO_FLAGS.(seekValue := true) && |s.values| == k + 1 && s.values[0].kind == Object
    requires s.values[0].length == k
    ensures Ok(LongText(n), t) && Run(First, LongText(n), t) == Run(First, LongText(n), s)
    ensures t.ptr == 5 * k + 5 && t.top == 0 && t.flags == NO_FLAGS.(needComma := true)
    ensures t.values == s.values[0 := s.values[0].(length := k + 1)] + [Value(0, Integer, 0, 0, [], [])]
  {
    var text := LongText(n);
    MemberBytes(n, k);
    hide LongText, Ok, Run;
    var zero := Value(0, Integer, 0, 0, [], []);
    var a := s.(flags := NO_FLAGS, num := NO_NUM, values := s.values + [zero], top := k + 1, alloc := k + 2);
    assert Turn(First, text, s) == StartNumber(First, text, s.(flags := NO_FLAGS));
    assert Turn(First, text, s) == Go(a);
    RunStep(text, s, a);
    var b := a.(num := Num(1, false, true, false, false), ptr := a.ptr + 1);
    assert a.values[k + 1 := zero] == a.values;
    RunStep(text, a, b);
    assert NumberTurn(text[b.ptr], b.num, Integer) == Ended;
    t := b.(flags := NO_FLAGS.(needComma := true), top := 0,
            values := b.values[0 := b.values[0].(length := k + 1)]);
    RunStep(text, b, t);
    assert t.values == s.values[0 := s.values[0].(length := k + 1)] + [zero];
  }

  /** The first pass reads the members from the k-th on, and accepts. */
  lemma {:induction false} ReadMembers(n: nat, k: nat, s: State) returns (values: seq<Value>)
    requires k < n <= UINT_MAX && Ok(LongText(n), s) && InObject(s, k, 5 * k + 1, NO_FLAGS)
    ensures Run(First, LongText(n), s) == Accept(values) && LongValues(values, n)
    decreases n - k
  {
    var text := LongText(n);
    MemberBytes(n, k);
    var a := ReadKey(n, k, s);
    var b := ReadZero(n, k, a);
    hide LongText, Ok, Run;
    if k + 1 < n {
      var c := b.(flags := NO_FLAGS, ptr := b.ptr + 1);
      RunStep(text, b, c);
      values := ReadMembers(n, k + 1, c);
    } else {
      var c := b.(flags := NO_FLAGS.(needComma := true, done := true), ptr := b.ptr + 1);
      RunStep(text, b, c);
      values := c.values;
      RunEnd(text, c);
    }
  }

  lemma {:induction false} RunEnd(text: seq<Octet>, s: State)
    requires s.flags.done && !s.flags.inString && s.ptr == |text|
    ensures Run(First, text, s) == Accept(s.values)
  {
  }

  lemma {:induction false} LongAccepted(n: nat) returns (values: seq<Value>)
    requires 0 < n <= UINT_MAX
    ensures Run(First, LongText(n), Start(First)) == Accept(values) && LongValues(values, n)
  {
    var text, s := LongText(n), Start(First);
    StartOk(text);
    var t := s.(flags := NO_FLAGS, values := [Value(NONE, Object, 0, 0, [], [])], top := 0, alloc := 1, ptr := 1);
    assert text[0] == 0x7b;
    RunStep(text, s, t);
    values := ReadMembers(n, 0, t);
  }

  /**
   An object like that is parsed if it has at most 89478485 members. Otherwise it is refused memory if the size of
   its entries and keys is negative, and overrun if it is not.
   */
  lemma {:induction false} LongObject(n: nat)
    requires 0 < n <= UINT_MAX
    ensures Run(First, LongText(n), Start(First)).Accept?
    ensures var measured := Run(First, LongText(n), Start(First)).values;
            var o := Run(Second(measured), LongText(n), Start(Second(measured)));
            if n <= MAX_MEMBERS then o.Accept?
            else if ValuesSize(n) + n < 0 then o == Fail
            else o == Overrun
  {
    var values := LongAccepted(n);
    TwoPassesAgree(LongText(n));
    SlotCountExact(values[0]);
    hide Run;
    if n > MAX_MEMBERS {
      assert !Small(values[0]);
      OneOfThree(values);
      if ValuesSize(n) + n < 0 {
        assert forall a :: 0 <= a < |values| ==> !Overfull(values[a]);
      } else {
        assert Overfull(values[0]) && ReachedFirst(values, 0);
      }
    }
  }

  /** The first numbers of members that are refused memory and that are overrun, and one whose size is cut to 8. */
  lemma {:induction false} TooLongObjects()
    ensures MAX_MEMBERS + 1 == 89478486 && ValuesSize(89478486) + 89478486 < 0
    ensures ValuesSize(171798691) + 171798691 < 0 <= ValuesSize(171798692) + 171798692
    ensures ValuesSize(178956971) == 8
  {
  }
}
