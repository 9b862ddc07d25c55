/**
 The numbers that the JSON parser accepts: those of section 6 of RFC 8259, and those that lack the digits
 between the minus sign and the end or the exponent.
 */
module JsonNumbers {
  import opened Octets
  import opened JsonSteps
  import opened JsonFirstPass

  // ----- the grammar

  const MINUS: Octet := 0x2d
  const PLUS: Octet := 0x2b
  const POINT: Octet := 0x2e

  predicate IsE(b: Octet) { b == 0x65 || b == 0x45 }

  /** What follows the digits at the front of w */
  function DropDigits(w: seq<Octet>): (r: seq<Octet>)
    ensures |r| <= |w|
  {
    if w != [] && IsDigit(w[0]) then DropDigits(w[1..]) else w
  }

  /** One digit or more */
  predicate IsDigits(w: seq<Octet>) {
    w != [] && DropDigits(w) == []
  }

  /** Nothing, or e or E, an optional sign, and digits */
  predicate IsExponent(w: seq<Octet>) {
    w == [] || (IsE(w[0]) && IsDigits(if |w| > 1 && (w[1] == PLUS || w[1] == MINUS) then w[2..] else w[1..]))
  }

  /** An optional fraction, which needs a digit, and an optional exponent */
  predicate IsFraction(w: seq<Octet>) {
    if w != [] && w[0] == POINT then |w| > 1 && IsDigit(w[1]) && IsExponent(DropDigits(w[1..]))
    else IsExponent(w)
  }

  /** An integer without a superfluous zero, and what may follow it */
  predicate IsUnsigned(w: seq<Octet>) {
    w != [] && IsDigit(w[0]) && IsFraction(if w[0] == 0x30 then w[1..] else DropDigits(w))
  }

  /** The number of RFC 8259 */
  predicate IsRfcNumber(w: seq<Octet>) {
    IsUnsigned(if w != [] && w[0] == MINUS then w[1..] else w)
  }

  /** A minus sign without digits, and an optional exponent */
  predicate LacksDigits(w: seq<Octet>) {
    w != [] && w[0] == MINUS && IsExponent(w[1..])
  }

  // ----- following it

  /** The first pass follows w, and the number may end after it. */
  predicate Follows(w: seq<Octet>, num: Num, kind: Kind) {
    match NumberTurn(if w == [] then 0 else w[0], num, kind)
    case More(n, k) => w != [] && Follows(w[1..], n, k)
    case Ended => w == []
    case Wrong => false
  }

  lemma {:induction false} FollowsExponent(w: seq<Octet>, num: Num)
    requires num.e && (num.digits > 0 ==> num.gotSign)
    ensures Follows(w, num, Double) <==>
            if num.digits > 0 then DropDigits(w) == []
            else if num.gotSign then IsDigits(w)
            else IsDigits(if w != [] && (w[0] == PLUS || w[0] == MINUS) then w[1..] else w)
    decreases |w|
  {
    if w != [] {
      if IsDigit(w[0]) {
        FollowsExponent(w[1..], num.(digits := num.digits + 1, gotSign := true));
      } else if (w[0] == PLUS || w[0] == MINUS) && !num.gotSign {
        FollowsExponent(w[1..], num.(gotSign := true));
      }
    }
  }

  /** Where an exponent may begin. */
  lemma {:induction false} FollowsE(w: seq<Octet>, num: Num, kind: Kind)
    requires !num.e && !num.gotSign && IsNumber(kind) && (kind == Double ==> num.digits > 0)
    requires w == [] || (!IsDigit(w[0]) && (kind == Integer ==> w[0] != POINT))
    ensures Follows(w, num, kind) <==> IsExponent(w)
  {
    if w != [] && IsE(w[0]) {
      FollowsExponent(w[1..], num.(e := true, digits := 0, zero := false));
      assert w[1..] != [] ==> w[1..][1..] == w[2..];
    }
  }

  lemma {:induction false} FollowsFraction(w: seq<Octet>, num: Num)
    requires !num.e && !num.gotSign
    ensures Follows(w, num, Double) <==>
            (num.digits > 0 || (w != [] && IsDigit(w[0]))) && IsExponent(DropDigits(w))
    decreases |w|
  {
    if w != [] && IsDigit(w[0]) {
      FollowsFraction(w[1..], num.(digits := num.digits + 1));
    } else if num.digits > 0 {
      FollowsE(w, num, Double);
    }
  }

  /** After at least one digit of the integer. */
  lemma {:induction false} FollowsInteger(w: seq<Octet>, num: Num)
    requires !num.e && !num.gotSign && num.digits > 0
    ensures Follows(w, num, Integer) <==>
            IsFraction(if num.zero then w else DropDigits(w))
    decreases |w|
  {
    if w != [] && IsDigit(w[0]) {
      if !num.zero {
        FollowsInteger(w[1..], num.(digits := num.digits + 1, zero := false));
      }
    } else if w != [] && w[0] == POINT {
      FollowsFraction(w[1..], num.(digits := 0));
      assert |w| > 1 ==> w[1..][0] == w[1];
    } else {
      FollowsE(w, num, Integer);
    }
  }

  /** Before the first digit. */
  lemma {:induction false} FollowsUnsigned(w: seq<Octet>, num: Num)
    requires !num.e && !num.gotSign && num.digits == 0 && !num.zero
    ensures Follows(w, num, Integer) <==> IsUnsigned(w) || IsExponent(w)
  {
    if w != [] && IsDigit(w[0]) {
      FollowsInteger(w[1..], num.(digits := 1, zero := w[0] == 0x30));
    } else if w == [] || w[0] != POINT {
      FollowsE(w, num, Integer);
    }
  }

  // ----- texts

  predicate NumberChars(text: seq<Octet>) {
    text != [] && forall i :: 0 <= i < |text| ==> IsNumberChar(text[i])
  }

  /** The only value is a number, and has been read up to the pointer. */
  predicate OnlyNumber(text: seq<Octet>, s: State) {
    && Ok(text, s) && InNumber(s) && |s.values| == 1 && s.values[0].parent == NONE
  }

  lemma {:induction false} FollowedTo(text: seq<Octet>, s: State)
    requires NumberChars(text) && OnlyNumber(text, s)
    ensures Run(First, text, s).Accept? <==> Follows(text[s.ptr..], s.num, s.values[0].kind)
    decreases |text| - s.ptr
  {
    TurnOk(text, s);
    var w, kind := text[s.ptr..], s.values[0].kind;
    assert At(text, s.ptr) == if w == [] then 0 else w[0];
    match NumberTurn(At(text, s.ptr), s.num, kind)
    case More(num, k) =>
      var t := Turn(First, text, s).s;
      assert t.num == num && t.values[0].kind == k && t.ptr == s.ptr + 1;
      FollowedTo(text, t);
      assert text[t.ptr..] == w[1..];
    case Wrong =>
    case Ended =>
      NumberEnds(text, s);
  }

  /** After the number the text is over, or another character makes it fail. */
  lemma {:induction false} NumberEnds(text: seq<Octet>, s: State)
    requires NumberChars(text) && OnlyNumber(text, s)
    requires NumberTurn(At(text, s.ptr), s.num, s.values[0].kind).Ended?
    ensures Run(First, text, s).Accept? <==> s.ptr == |text|
  {
    TurnOk(text, s);
    var t := Turn(First, text, s).s;
    assert t.flags.done && !t.flags.inString && t.ptr == s.ptr;
    assert Run(First, text, s) == Run(First, text, t);
    assert t.ptr < |text| ==> IsNumberChar(text[t.ptr]);
    assert !Turn(First, text, t).Go?;
  }

  /** A text of number characters is accepted exactly if it is a number of the grammar, or lacks the digits. */
  lemma {:induction false} AcceptedNumbers(text: seq<Octet>)
    requires NumberChars(text)
    ensures Run(First, text, Start(First)).Accept? <==> IsRfcNumber(text) || LacksDigits(text)
  {
    var s := Start(First);
    StartOk(text);
    TurnOk(text, s);
    assert IsNumberChar(text[0]);
    if IsDigit(text[0]) || text[0] == MINUS {
      var t := Turn(First, text, s).s;
      assert OnlyNumber(text, t) && t.num == Num(0, text[0] == MINUS, false, false, false);
      FollowedTo(text, t);
      FollowsUnsigned(text[t.ptr..], t.num);
    }
  }

  /** For instance, a minus sign alone is an accepted text, though no number. */
  lemma {:induction false} LoneMinusAccepted()
    ensures Run(First, [MINUS], Start(First)).Accept? && !IsRfcNumber([MINUS])
  {
    AcceptedNumbers([MINUS]);
  }
}
