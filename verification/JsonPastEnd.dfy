/**
 Reading the byte after the text: the check of the length before the rest of true, false and null is one too weak.
 */
module JsonPastEnd {
  import opened Octets
  import opened JsonSteps

  /** A value may start at this turn, and what is left of the text is true, false or null without the last letter. */
  predicate AtCutLiteral(text: seq<Octet>, s: State) {
    AtValue(s) && EndsInCutLiteral(text, s.ptr)
  }

  predicate EndsInCutLiteral(text: seq<Octet>, i: nat) {
    || (At(text, i) == 0x74 && CutOff(text, i + 1, TRUE_REST))
    || (At(text, i) == 0x66 && CutOff(text, i + 1, FALSE_REST))
    || (At(text, i) == 0x6e && CutOff(text, i + 1, NULL_REST))
  }

  /** The pass gets to a turn like that. */
  predicate MeetsCutLiteral(pass: Pass, text: seq<Octet>, s: State)
    decreases Measure(text, s)
  {
    AtCutLiteral(text, s) ||
    var o := Turn(pass, text, s);
    o.Go? && Measure(text, o.s) < Measure(text, s) && MeetsCutLiteral(pass, text, o.s)
  }

  lemma {:induction false} TurnPastEnd(pass: Pass, text: seq<Octet>, s: State)
    ensures Turn(pass, text, s) == PastEnd <==> AtCutLiteral(text, s)
  {
    hide NewValue, Next, ReadUnicode, NumberTurn, CutOff, Spells, StringEnd, Utf8Length, StartValue;
    NextInside(pass, text, s);
    NewInside(pass, s);
    ValuePastEnd(pass, text, s);
  }

  lemma {:induction false} ValuePastEnd(pass: Pass, text: seq<Octet>, s: State)
    ensures StartValue(pass, text, s) == PastEnd <==> EndsInCutLiteral(text, s.ptr)
  {
    hide NewValue, Next, CutOff, Spells;
    NextInside(pass, text, s);
    NewInside(pass, s);
    CutNotSpelled(text, s.ptr + 1, TRUE_REST);
    CutNotSpelled(text, s.ptr + 1, FALSE_REST);
    CutNotSpelled(text, s.ptr + 1, NULL_REST);
  }

  lemma {:induction false} CutNotSpelled(text: seq<Octet>, i: nat, word: seq<Octet>)
    ensures CutOff(text, i, word) ==> !Spells(text, i, word)
  {
  }

  lemma {:induction false} NextInside(pass: Pass, text: seq<Octet>, s: State)
    ensures forall t, ptr :: Next(pass, t, ptr) != PastEnd
    ensures forall t: State | InRange(t, t.top) :: StringEnd(pass, t) != PastEnd
  {
  }

  lemma {:induction false} NewInside(pass: Pass, s: State)
    ensures forall t, kind :: NewValue(pass, t, kind) != PastEnd
  {
  }

  /**
   Either pass reads the byte after the text exactly if it gets to a literal that is cut off at the
   end of the text.
   */
  lemma {:induction false} ReadsPastEnd(pass: Pass, text: seq<Octet>, s: State)
    ensures Run(pass, text, s) == PastEnd <==> MeetsCutLiteral(pass, text, s)
    decreases Measure(text, s)
  {
    TurnPastEnd(pass, text, s);
    hide Turn, AtCutLiteral, Measure;
    if Turn(pass, text, s).Go? && Measure(text, Turn(pass, text, s).s) < Measure(text, s) {
      ReadsPastEnd(pass, text, Turn(pass, text, s).s);
    }
  }

  /** So a text that does not end in "tru", "fals" or "nul" is safe. */
  lemma {:induction false} OnlyCutLiterals(pass: Pass, text: seq<Octet>, s: State)
    requires !(exists i :: 0 <= i < |text| && EndsInCutLiteral(text, i))
    ensures Run(pass, text, s) != PastEnd
    decreases Measure(text, s)
  {
    TurnPastEnd(pass, text, s);
    CutInside(text, s.ptr);
    hide Turn, Measure, EndsInCutLiteral;
    if Turn(pass, text, s).Go? && Measure(text, Turn(pass, text, s).s) < Measure(text, s) {
      OnlyCutLiterals(pass, text, Turn(pass, text, s).s);
    }
  }

  lemma {:induction false} CutInside(text: seq<Octet>, i: nat)
    ensures EndsInCutLiteral(text, i) ==> i < |text|
  {
  }

  /** The shortest such texts. */
  lemma {:induction false} CutLiteralRead()
    ensures Run(First, [0x74, 0x72, 0x75], Start(First)) == PastEnd
    ensures Run(First, [0x66, 0x61, 0x6c, 0x73], Start(First)) == PastEnd
    ensures Run(First, [0x6e, 0x75, 0x6c], Start(First)) == PastEnd
  {
    assert AtCutLiteral([0x74, 0x72, 0x75], Start(First));
    assert AtCutLiteral([0x66, 0x61, 0x6c, 0x73], Start(First));
    assert AtCutLiteral([0x6e, 0x75, 0x6c], Start(First));
    TurnPastEnd(First, [0x74, 0x72, 0x75], Start(First));
    TurnPastEnd(First, [0x66, 0x61, 0x6c, 0x73], Start(First));
    TurnPastEnd(First, [0x6e, 0x75, 0x6c], Start(First));
  }

  // ----- by the text before the literal

  /** The pass over the text comes to its end where a value may start. */
  predicate EndsAtValue(pass: Pass, text: seq<Octet>, s: State)
    decreases Measure(text, s)
  {
    if s.ptr >= |text| then s.ptr == |text| && AtValue(s)
    else
      var o := Turn(pass, text, s);
      o.Go? && Measure(text, o.s) < Measure(text, s) && EndsAtValue(pass, text, o.s)
  }

  /** w is not the rest of a number. */
  predicate Follows(w: seq<Octet>) {
    w != [] && !IsNumberChar(w[0])
  }

  lemma {:induction false} SkipPrefix(t: seq<Octet>, w: seq<Octet>, i: nat)
    requires i <= |t| && Follows(w)
    ensures SkipNumber(t + w, i) == SkipNumber(t, i)
    decreases |t| - i
  {
    if i < |t| {
      SkipPrefix(t, w, i + 1);
    }
  }

  lemma {:induction false} UnicodePrefix(t: seq<Octet>, w: seq<Octet>, i: nat)
    ensures ReadUnicode(t, i).Unicode? ==> ReadUnicode(t + w, i) == ReadUnicode(t, i)
    ensures ReadUnicode(t + w, i).Unicode? && ReadUnicode(t + w, i).last < |t| ==>
              ReadUnicode(t, i) == ReadUnicode(t + w, i)
  {
    hide Utf8Length, Hex4;
    if i + 4 < |t| {
      HexPrefix(t, w, i + 1);
      if i + 10 < |t| {
        HexPrefix(t, w, i + 7);
      }
    }
  }

  lemma {:induction false} HexPrefix(t: seq<Octet>, w: seq<Octet>, i: nat)
    requires i + 4 <= |t|
    ensures Hex4(t + w, i) == Hex4(t, i)
  {
    assert forall k :: i <= k < i + 4 ==> At(t + w, k) == At(t, k);
  }

  lemma {:induction false} SpellsPrefix(t: seq<Octet>, w: seq<Octet>, i: nat, word: seq<Octet>)
    ensures Spells(t, i, word) ==> Spells(t + w, i, word)
    ensures Spells(t + w, i, word) && i + |word| <= |t| ==> Spells(t, i, word)
  {
    if i + |word| <= |t| {
      assert (t + w)[i..i + |word|] == t[i..i + |word|];
    }
  }

  /** What follows a text does not change the turns that stay in it. */
  predicate SameGo(t: seq<Octet>, short: Outcome, long: Outcome) {
    && (short.Go? ==> long == short)
    && (long.Go? && long.s.ptr <= |t| ==> short == long)
  }

  lemma {:induction false} NextPointer(pass: Pass, s: State, ptr: nat)
    ensures Next(pass, s, ptr).Go? ==> Next(pass, s, ptr).s.ptr == ptr
  {
  }

  lemma {:induction false} LiteralPointer(pass: Pass, text: seq<Octet>, s: State, kind: Kind, word: seq<Octet>)
    ensures var o := Literal(pass, text, s, kind, word); o.Go? ==> s.ptr < o.s.ptr <= |text|
  {
    hide NewValue, Next;
    var o := NewValue(pass, s, kind);
    if o.Go? {
      NextPointer(pass, o.s, s.ptr + |word| + 1);
    }
  }

  lemma {:induction false} ValuePointer(pass: Pass, text: seq<Octet>, s: State)
    ensures var o := StartValue(pass, text, s); o.Go? ==> s.ptr <= o.s.ptr && (s.ptr < |text| ==> o.s.ptr <= |text|)
  {
    hide NewValue, Next, Literal;
    var u := s.(flags := s.flags.(seekValue := false));
    LiteralPointer(pass, text, u, Boolean, TRUE_REST);
    LiteralPointer(pass, text, u, Boolean, FALSE_REST);
    LiteralPointer(pass, text, u, Null, NULL_REST);
    var o := NewValue(pass, u, Integer);
    if o.Go? {
      NextPointer(pass, o.s, SkipNumber(text, s.ptr));
    }
  }

  /** A turn does not leave the text, and does not go back. */
  lemma {:induction false} TurnPointer(pass: Pass, text: seq<Octet>, s: State)
    ensures var o := Turn(pass, text, s); o.Go? ==> s.ptr <= o.s.ptr && (s.ptr < |text| ==> o.s.ptr <= |text|)
  {
    hide NewValue, Next, StartValue, NumberTurn, ReadUnicode, Fits;
    ValuePointer(pass, text, s);
    forall u: State, ptr ensures Next(pass, u, ptr).Go? ==> Next(pass, u, ptr).s.ptr == ptr {
      NextPointer(pass, u, ptr);
    }
  }

  lemma {:induction false} LiteralPrefix(
    pass: Pass, t: seq<Octet>, w: seq<Octet>, s: State, kind: Kind, word: seq<Octet>)
    ensures SameGo(t, Literal(pass, t, s, kind, word), Literal(pass, t + w, s, kind, word))
  {
    hide NewValue, Next, Spells, CutOff;
    SpellsPrefix(t, w, s.ptr + 1, word);
    var o := NewValue(pass, s, kind);
    if o.Go? {
      NextPointer(pass, o.s, s.ptr + |word| + 1);
    }
  }

  lemma {:induction false} ValuePrefix(pass: Pass, t: seq<Octet>, w: seq<Octet>, s: State)
    requires s.ptr < |t| && Follows(w)
    ensures SameGo(t, StartValue(pass, t, s), StartValue(pass, t + w, s))
  {
    hide NewValue, Next, Literal;
    var u := s.(flags := s.flags.(seekValue := false));
    LiteralPrefix(pass, t, w, u, Boolean, TRUE_REST);
    LiteralPrefix(pass, t, w, u, Boolean, FALSE_REST);
    LiteralPrefix(pass, t, w, u, Null, NULL_REST);
    SkipPrefix(t, w, s.ptr);
  }

  lemma {:induction false} TurnPrefix(pass: Pass, t: seq<Octet>, w: seq<Octet>, s: State)
    requires s.ptr < |t| && Follows(w)
    ensures SameGo(t, Turn(pass, t, s), Turn(pass, t + w, s))
  {
    hide NewValue, Next, StartValue, StringEnd, NumberTurn, ReadUnicode, Fits;
    assert At(t + w, s.ptr) == At(t, s.ptr);
    ValuePrefix(pass, t, w, s);
    UnicodePrefix(t, w, s.ptr);
  }

  lemma {:induction false} MeasurePrefix(t: seq<Octet>, w: seq<Octet>, s: State)
    requires s.ptr <= |t|
    ensures Measure(t + w, s) == Measure(t, s) + 4 * |w|
  {
  }

  /** Getting to the end of the shorter text is getting there in the longer one. */
  lemma {:induction false} EndsMeets(pass: Pass, t: seq<Octet>, w: seq<Octet>, s: State)
    requires Follows(w) && EndsInCutLiteral(t + w, |t|) && EndsAtValue(pass, t, s)
    ensures MeetsCutLiteral(pass, t + w, s)
    decreases Measure(t, s)
  {
    if s.ptr < |t| {
      TurnPrefix(pass, t, w, s);
      TurnPointer(pass, t, s);
      var u := Turn(pass, t, s).s;
      MeasurePrefix(t, w, s);
      MeasurePrefix(t, w, u);
      hide Turn, Measure, EndsInCutLiteral;
      EndsMeets(pass, t, w, u);
    }
  }

  /** At the letter of a literal, no turn stays in place and leaves a value to come. */
  lemma {:induction false} LetterMoves(pass: Pass, text: seq<Octet>, s: State)
    requires EndsInCutLiteral(text, s.ptr) && !AtCutLiteral(text, s) && Turn(pass, text, s).Go?
    ensures var u := Turn(pass, text, s).s; u.ptr > s.ptr || !AtValue(u)
  {
    hide NewValue, Fits, ReadUnicode, Spells, CutOff;
    forall u: State, ptr ensures Next(pass, u, ptr).Go? ==> Next(pass, u, ptr).s.ptr == ptr {
      NextPointer(pass, u, ptr);
    }
    forall u: State ensures Next(pass, u, s.ptr).Go? ==> !AtValue(Next(pass, u, s.ptr).s) {
    }
    hide Next;
  }

  lemma {:induction false} NothingBehind(pass: Pass, text: seq<Octet>, s: State)
    requires s.ptr >= |text|
    ensures !MeetsCutLiteral(pass, text, s)
    decreases Measure(text, s)
  {
    CutInside(text, s.ptr);
    TurnPointer(pass, text, s);
    var o := Turn(pass, text, s);
    hide Turn, Measure, EndsInCutLiteral;
    if o.Go? && Measure(text, o.s) < Measure(text, s) {
      NothingBehind(pass, text, o.s);
    }
  }

  /** Where the literal is that is met. */
  lemma {:induction false} MeetsEnds(pass: Pass, text: seq<Octet>, s: State) returns (i: nat)
    requires MeetsCutLiteral(pass, text, s) && s.ptr <= |text|
    ensures s.ptr <= i < |text| && EndsInCutLiteral(text, i) && EndsAtValue(pass, text[..i], s)
    decreases Measure(text, s)
  {
    hide Turn, Measure, EndsInCutLiteral;
    CutInside(text, s.ptr);
    if AtCutLiteral(text, s) {
      i := s.ptr;
    } else {
      var u := Turn(pass, text, s).s;
      TurnPointer(pass, text, s);
      if u.ptr > |text| {
        NothingBehind(pass, text, u);
      }
      i := MeetsEnds(pass, text, u);
      EndsBack(pass, text, s, i);
    }
  }

  lemma {:induction false} EndsBack(pass: Pass, text: seq<Octet>, s: State, i: nat)
    requires Turn(pass, text, s).Go? && !AtCutLiteral(text, s) && s.ptr <= i < |text| && EndsInCutLiteral(text, i)
    requires var u := Turn(pass, text, s).s;
             Measure(text, u) < Measure(text, s) && s.ptr <= u.ptr <= i && EndsAtValue(pass, text[..i], u)
    ensures EndsAtValue(pass, text[..i], s)
  {
    var t, w, u := text[..i], text[i..], Turn(pass, text, s).s;
    assert text == t + w;
    CutFollows(text, i);
    if s.ptr < i {
      TurnPrefix(pass, t, w, s);
      MeasurePrefix(t, w, s);
      MeasurePrefix(t, w, u);
      hide Turn, Measure, EndsInCutLiteral, AtCutLiteral;
    } else {
      LetterMoves(pass, text, s);
    }
  }

  lemma {:induction false} CutFollows(text: seq<Octet>, i: nat)
    requires EndsInCutLiteral(text, i)
    ensures i < |text| && Follows(text[i..])
  {
  }

  /**
   Either pass reads the byte after the text exactly if the text ends in a literal without its last letter, and the
   pass over the text before that literal comes to its end where a value may start.
   */
  lemma {:induction false} PastEndByText(pass: Pass, text: seq<Octet>, s: State)
    requires s.ptr <= |text|
    ensures Run(pass, text, s) == PastEnd
       <==> exists i :: s.ptr <= i < |text| && EndsInCutLiteral(text, i) && EndsAtValue(pass, text[..i], s)
  {
    ReadsPastEnd(pass, text, s);
    if MeetsCutLiteral(pass, text, s) {
      var i := MeetsEnds(pass, text, s);
    }
    if i :| s.ptr <= i < |text| && EndsInCutLiteral(text, i) && EndsAtValue(pass, text[..i], s) {
      CutFollows(text, i);
      assert text == text[..i] + text[i..];
      EndsMeets(pass, text[..i], text[i..], s);
    }
  }
}
