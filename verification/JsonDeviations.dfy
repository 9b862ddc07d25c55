/** How the texts that the parser accepts and the texts of RFC 8259 overlap. */
module JsonDeviations {
  import opened Octets
  import opened Wrappers
  import opened JsonSteps
  import opened JsonFirstPass
  import opened JsonNumbers
  import opened JsonGrammar

  import JsonLanguage

  /** What both grammars allow */
  function Meet(g: Grammar, h: Grammar): Grammar {
    Grammar(
      g.trailingCommas && h.trailingCommas, g.anyEscapes && h.anyEscapes, g.controls && h.controls,
      g.loneMinus && h.loneMinus, g.nulEnds && h.nulEnds, g.loneSurrogates && h.loneSurrogates)
  }

  /** RFC 8259 without lone surrogates, which is what the parser does not add anything to */
  const STRICT: Grammar := Grammar(false, false, false, false, false, false)

  /** A rule of the meet applies where both apply, and then all three end at the same place. */
  predicate Meets(g: Option<nat>, h: Option<nat>, m: Option<nat>) {
    && (m.Some? <==> g.Some? && h.Some?)
    && (m.Some? ==> g == h == m)
  }

  /** Where surrogates may be alone, the two escapes of a pair are read one after the other. */
  lemma {:induction false} PairSkipped(g: Grammar, text: seq<Octet>, i: nat)
    requires g.loneSurrogates && At(text, i) == BACKSLASH && At(text, i + 1) == 0x75 && UnicodeEnd(g, text, i + 1).Some?
    ensures QuotedEnd(g, text, i) == QuotedEnd(g, text, i + 6)
  {
    hide Hex4;
  }

  lemma {:induction false} QuotedMeets(g: Grammar, h: Grammar, text: seq<Octet>, i: nat)
    ensures Meets(QuotedEnd(g, text, i), QuotedEnd(h, text, i), QuotedEnd(Meet(g, h), text, i))
    decreases |text| - i
  {
    var b := At(text, i);
    if b == BACKSLASH {
      if At(text, i + 1) == 0x75 {
        UnicodeMeets(g, h, text, i);
      } else if i + 1 < |text| {
        QuotedMeets(g, h, text, i + 2);
      }
    } else if b != 0 && b != QUOTE {
      QuotedMeets(g, h, text, i + 1);
    }
  }

  lemma {:induction false} UnicodeMeets(g: Grammar, h: Grammar, text: seq<Octet>, i: nat)
    requires At(text, i) == BACKSLASH && At(text, i + 1) == 0x75
    ensures Meets(QuotedEnd(g, text, i), QuotedEnd(h, text, i), QuotedEnd(Meet(g, h), text, i))
    decreases |text| - i, 0
  {
    hide Hex4;
    var m := Meet(g, h);
    if UnicodeEnd(m, text, i + 1).Some? {
      var j := UnicodeEnd(m, text, i + 1).value;
      QuotedMeets(g, h, text, j);
      Aligned(g, m, text, i);
      Aligned(h, m, text, i);
    }
  }

  /** A grammar that allows more reads on where the stricter one does. */
  lemma {:induction false} Aligned(g: Grammar, m: Grammar, text: seq<Octet>, i: nat)
    requires m.loneSurrogates ==> g.loneSurrogates
    requires At(text, i) == BACKSLASH && At(text, i + 1) == 0x75 && UnicodeEnd(m, text, i + 1).Some?
    ensures QuotedEnd(g, text, i) == QuotedEnd(g, text, UnicodeEnd(m, text, i + 1).value)
  {
    hide Hex4;
    if UnicodeEnd(g, text, i + 1) != UnicodeEnd(m, text, i + 1) {
      assert UnicodeEnd(g, text, i + 7).Some?;
      PairSkipped(g, text, i + 6);
    }
  }

  lemma {:induction false} ValueMeets(g: Grammar, h: Grammar, text: seq<Octet>, i: nat)
    ensures Meets(ValueEnd(g, text, i), ValueEnd(h, text, i), ValueEnd(Meet(g, h), text, i))
    decreases |text| - i, 0
  {
    if i < |text| {
      if text[i] == 0x7b {
        MembersMeet(g, h, text, i + 1, Opened);
      } else if text[i] == 0x5b {
        ElementsMeet(g, h, text, i + 1, Opened);
      } else if text[i] == QUOTE {
        QuotedMeets(g, h, text, i + 1);
      }
    }
  }

  lemma {:induction false} ItemMeets(g: Grammar, h: Grammar, text: seq<Octet>, i: nat)
    ensures Meets(ItemEnd(g, text, i), ItemEnd(h, text, i), ItemEnd(Meet(g, h), text, i))
    decreases |text| - i, 1
  {
    if i < |text| && IsWhitespace(text[i]) {
      ItemMeets(g, h, text, i + 1);
    } else {
      ValueMeets(g, h, text, i);
    }
  }

  lemma {:induction false} ElementsMeet(g: Grammar, h: Grammar, text: seq<Octet>, i: nat, place: Place)
    ensures Meets(
      ElementsEnd(g, text, i, place), ElementsEnd(h, text, i, place), ElementsEnd(Meet(g, h), text, i, place))
    decreases |text| - i, 1
  {
    if i < |text| {
      if IsWhitespace(text[i]) {
        ElementsMeet(g, h, text, i + 1, place);
      } else if place == AfterItem {
        ElementsMeet(g, h, text, i + 1, AfterComma);
      } else {
        var m := Meet(g, h);
        ValueMeets(g, h, text, i);
        if ValueEnd(m, text, i).Some? {
          ElementsMeet(g, h, text, ValueEnd(m, text, i).value, AfterItem);
        }
      }
    }
  }

  lemma {:induction false} MembersMeet(g: Grammar, h: Grammar, text: seq<Octet>, i: nat, place: Place)
    ensures Meets(
      MembersEnd(g, text, i, place), MembersEnd(h, text, i, place), MembersEnd(Meet(g, h), text, i, place))
    decreases |text| - i, 1
  {
    if i < |text| {
      if IsWhitespace(text[i]) {
        MembersMeet(g, h, text, i + 1, place);
      } else if place == AfterItem {
        MembersMeet(g, h, text, i + 1, AfterComma);
      } else if text[i] == QUOTE {
        KeyMeets(g, h, text, i, place);
      }
    }
  }

  lemma {:induction false} KeyMeets(g: Grammar, h: Grammar, text: seq<Octet>, i: nat, place: Place)
    requires i < |text| && text[i] == QUOTE && place != AfterItem
    ensures Meets(
      MembersEnd(g, text, i, place), MembersEnd(h, text, i, place), MembersEnd(Meet(g, h), text, i, place))
    decreases |text| - i, 0
  {
    var m := Meet(g, h);
    QuotedMeets(g, h, text, i + 1);
    if QuotedEnd(m, text, i + 1).Some? {
      PairMeets(g, h, text, QuotedEnd(m, text, i + 1).value);
    }
  }

  lemma {:induction false} PairMeets(g: Grammar, h: Grammar, text: seq<Octet>, i: nat)
    ensures Meets(PairEnd(g, text, i), PairEnd(h, text, i), PairEnd(Meet(g, h), text, i))
    decreases |text| - i, 1
  {
    if i < |text| {
      if IsWhitespace(text[i]) {
        PairMeets(g, h, text, i + 1);
      } else if text[i] == COLON {
        var m := Meet(g, h);
        ItemMeets(g, h, text, i + 1);
        if ItemEnd(m, text, i + 1).Some? {
          MembersMeet(g, h, text, ItemEnd(m, text, i + 1).value, AfterItem);
        }
      }
    }
  }

  lemma {:induction false} TrailMeets(g: Grammar, h: Grammar, text: seq<Octet>, i: nat)
    ensures IsTrail(Meet(g, h), text, i) <==> IsTrail(g, text, i) && IsTrail(h, text, i)
    decreases |text| - i
  {
    if i < |text| && IsWhitespace(text[i]) {
      TrailMeets(g, h, text, i + 1);
    }
  }

  /** The texts of both grammars are those of the grammar with the switches that both have. */
  lemma {:induction false} TextsMeet(g: Grammar, h: Grammar, text: seq<Octet>)
    ensures IsText(Meet(g, h), text) <==> IsText(g, text) && IsText(h, text)
  {
    ItemMeets(g, h, text, 0);
    if ItemEnd(Meet(g, h), text, 0).Some? {
      TrailMeets(g, h, text, ItemEnd(Meet(g, h), text, 0).value);
    }
  }

  /**
   An accepted text of RFC 8259 has a second escape after each escape of a surrogate, and a text like that is accepted
   if it is not too long for the parser.
   */
  lemma {:induction false} AcceptedRfcTexts(text: seq<Octet>)
    ensures Run(First, text, Start(First)).Accept? && IsText(RFC, text) ==> IsText(STRICT, text)
    ensures IsText(STRICT, text) ==> IsText(RFC, text)
    ensures IsText(STRICT, text) && |text| <= UINT_MAX ==> Run(First, text, Start(First)).Accept?
  {
    JsonLanguage.AcceptedTexts(text);
    TextsMeet(PARSER, RFC, text);
    assert Meet(PARSER, RFC) == STRICT;
  }

  // ----- each deviation occurs

  /** A text of the parser that is none of RFC 8259. */
  predicate IsExtra(text: seq<Octet>) {
    |text| <= UINT_MAX && Run(First, text, Start(First)).Accept? && !IsText(RFC, text)
  }

  /** [1,] */
  const TRAILING_COMMA: seq<Octet> := [0x5b, 0x31, COMMA, 0x5d]
  /** "\x" */
  const UNKNOWN_ESCAPE: seq<Octet> := [QUOTE, BACKSLASH, 0x78, QUOTE]
  /** A string of one control character */
  const RAW_CONTROL: seq<Octet> := [QUOTE, 0x01, QUOTE]
  /** 1, a NUL and an x */
  const BEHIND_NUL: seq<Octet> := [0x31, 0, 0x78]
  /** "\uD800" */
  const LONE_SURROGATE: seq<Octet> := [QUOTE, BACKSLASH, 0x75, 0x44, 0x38, 0x30, 0x30, QUOTE]

  /** The number 1 */
  lemma {:induction false} OneNumber(g: Grammar, text: seq<Octet>, i: nat)
    requires i < |text| && text[i] == 0x31 && !IsNumberChar(At(text, i + 1))
    ensures NumberEnd(g, text, i) == Some(i + 1)
  {
    assert SkipNumber(text, i + 1) == i + 1;
    var w := text[i..i + 1];
    assert DropDigits(w[1..]) == [];
  }

  /** A text that begins with its value */
  lemma {:induction false} Whole(g: Grammar, text: seq<Octet>)
    requires text != [] && !IsWhitespace(text[0])
    ensures IsText(g, text) <==> ValueEnd(g, text, 0).Some? && IsTrail(g, text, ValueEnd(g, text, 0).value)
  {
  }

  lemma {:induction false} TrailingComma()
    ensures IsText(PARSER, TRAILING_COMMA) && !IsText(RFC, TRAILING_COMMA)
  {
    var t := TRAILING_COMMA;
    OneNumber(PARSER, t, 1);
    OneNumber(RFC, t, 1);
    assert ElementsEnd(PARSER, t, 3, AfterComma) == Some(4) && ElementsEnd(RFC, t, 3, AfterComma) == None;
    assert ElementsEnd(PARSER, t, 2, AfterItem) == Some(4) && ElementsEnd(RFC, t, 2, AfterItem) == None;
    assert ElementsEnd(PARSER, t, 1, Opened) == Some(4) && ElementsEnd(RFC, t, 1, Opened) == None;
    Whole(PARSER, t);
    Whole(RFC, t);
  }

  lemma {:induction false} UnknownEscape()
    ensures IsText(PARSER, UNKNOWN_ESCAPE) && !IsText(RFC, UNKNOWN_ESCAPE)
  {
    var t := UNKNOWN_ESCAPE;
    assert QuotedEnd(PARSER, t, 3) == Some(4);
    assert QuotedEnd(PARSER, t, 1) == Some(4) && QuotedEnd(RFC, t, 1) == None;
    Whole(PARSER, t);
    Whole(RFC, t);
  }

  lemma {:induction false} RawControl()
    ensures IsText(PARSER, RAW_CONTROL) && !IsText(RFC, RAW_CONTROL)
  {
    var t := RAW_CONTROL;
    assert QuotedEnd(PARSER, t, 2) == Some(3);
    assert QuotedEnd(PARSER, t, 1) == Some(3) && QuotedEnd(RFC, t, 1) == None;
    Whole(PARSER, t);
    Whole(RFC, t);
  }

  lemma {:induction false} LoneMinus()
    ensures IsText(PARSER, [MINUS]) && !IsText(RFC, [MINUS])
  {
    assert SkipNumber([MINUS], 1) == 1;
    assert [MINUS][0..1] == [MINUS];
    assert LacksDigits([MINUS]) && !IsRfcNumber([MINUS]);
    Whole(PARSER, [MINUS]);
    Whole(RFC, [MINUS]);
  }

  lemma {:induction false} BehindNul()
    ensures IsText(PARSER, BEHIND_NUL) && !IsText(RFC, BEHIND_NUL)
  {
    OneNumber(PARSER, BEHIND_NUL, 0);
    OneNumber(RFC, BEHIND_NUL, 0);
    Whole(PARSER, BEHIND_NUL);
    Whole(RFC, BEHIND_NUL);
  }

  lemma {:induction false} ExtraTexts()
    ensures IsExtra(TRAILING_COMMA) && IsExtra(UNKNOWN_ESCAPE) && IsExtra(RAW_CONTROL)
    ensures IsExtra([MINUS]) && IsExtra(BEHIND_NUL)
  {
    hide Run, IsText;
    TrailingComma();
    UnknownEscape();
    RawControl();
    LoneMinus();
    BehindNul();
    JsonLanguage.AcceptedTexts(TRAILING_COMMA);
    JsonLanguage.AcceptedTexts(UNKNOWN_ESCAPE);
    JsonLanguage.AcceptedTexts(RAW_CONTROL);
    JsonLanguage.AcceptedTexts([MINUS]);
    JsonLanguage.AcceptedTexts(BEHIND_NUL);
  }

  /** And the other way round. */
  lemma {:induction false} LoneSurrogateRefused()
    ensures !Run(First, LONE_SURROGATE, Start(First)).Accept? && IsText(RFC, LONE_SURROGATE)
  {
    hide Run;
    var t := LONE_SURROGATE;
    assert Hex4(t, 3) == Hex(0xD800);
    assert QuotedEnd(RFC, t, 7) == Some(8);
    assert QuotedEnd(RFC, t, 1) == Some(8) && QuotedEnd(PARSER, t, 1) == None;
    Whole(PARSER, t);
    Whole(RFC, t);
    JsonLanguage.AcceptedTexts(t);
  }
}
