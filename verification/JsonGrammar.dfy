/**
 The texts of RFC 8259, and those that the parser accepts, as one grammar: a recursive descent with a switch for each
 point in which they differ.
 */
module JsonGrammar {
  import opened Octets
  import opened Wrappers
  import opened JsonSteps
  import opened JsonNumbers

  /**
   What is allowed besides the texts that both have: a comma before a closing bracket or brace, any character after a
   backslash, control characters in strings, a minus sign without digits, anything after a NUL, and a surrogate
   without a second one.
   */
  datatype Grammar = Grammar(
    trailingCommas: bool, anyEscapes: bool, controls: bool, loneMinus: bool, nulEnds: bool, loneSurrogates: bool)

  const RFC: Grammar := Grammar(false, false, false, false, false, true)
  const PARSER: Grammar := Grammar(true, true, true, true, true, false)

  // ----- strings

  /** " \ / b f n r t */
  predicate IsEscape(b: Octet) {
    b in {QUOTE, BACKSLASH, 0x2f, 0x62, 0x66, 0x6e, 0x72, 0x74}
  }

  /** A \u escape, with the u at i */
  function UnicodeEnd(g: Grammar, text: seq<Octet>, i: nat): (r: Option<nat>)
    ensures r.Some? ==> i < r.value <= |text|
  {
    if i + 4 >= |text| || Hex4(text, i + 1).BadHex? then None
    else if 0xD800 <= Hex4(text, i + 1).value <= 0xDFFF && !g.loneSurrogates then
      if i + 10 >= |text| || text[i + 5] != BACKSLASH || text[i + 6] != 0x75 || Hex4(text, i + 7).BadHex? then None
      else Some(i + 11)
    else Some(i + 5)
  }

  function EscapeEnd(g: Grammar, text: seq<Octet>, i: nat): (r: Option<nat>)
    ensures r.Some? ==> i < r.value <= |text|
  {
    var b := At(text, i);
    if b == 0 then None
    else if b == 0x75 then UnicodeEnd(g, text, i)
    else if IsEscape(b) || g.anyEscapes then Some(i + 1)
    else None
  }

  /** Behind the closing quote of a string that goes on at i */
  function QuotedEnd(g: Grammar, text: seq<Octet>, i: nat): (r: Option<nat>)
    ensures r.Some? ==> i < r.value <= |text|
    decreases |text| - i
  {
    var b := At(text, i);
    if b == 0 then None
    else if b == QUOTE then Some(i + 1)
    else if b == BACKSLASH then
      match EscapeEnd(g, text, i + 1)
      case None => None
      case Some(j) => QuotedEnd(g, text, j)
    else if b < 0x20 && !g.controls then None
    else QuotedEnd(g, text, i + 1)
  }

  // ----- values

  function NumberEnd(g: Grammar, text: seq<Octet>, i: nat): (r: Option<nat>)
    requires i <= |text|
    ensures r.Some? ==> i < r.value <= |text|
  {
    var j := SkipNumber(text, i);
    var w := text[i..j];
    if IsRfcNumber(w) || (g.loneMinus && LacksDigits(w)) then Some(j) else None
  }

  function WordEnd(text: seq<Octet>, i: nat, word: seq<Octet>): (r: Option<nat>)
    ensures r.Some? ==> i <= r.value <= |text|
  {
    if Spells(text, i, word) then Some(i + |word|) else None
  }

  /** A value that begins at i */
  function ValueEnd(g: Grammar, text: seq<Octet>, i: nat): (r: Option<nat>)
    ensures r.Some? ==> i < r.value <= |text|
    decreases |text| - i, 0
  {
    if i >= |text| then None
    else
      var b := text[i];
      if b == 0x7b then MembersEnd(g, text, i + 1, Opened)
      else if b == 0x5b then ElementsEnd(g, text, i + 1, Opened)
      else if b == QUOTE then QuotedEnd(g, text, i + 1)
      else if b == 0x74 then WordEnd(text, i + 1, TRUE_REST)
      else if b == 0x66 then WordEnd(text, i + 1, FALSE_REST)
      else if b == 0x6e then WordEnd(text, i + 1, NULL_REST)
      else if IsDigit(b) || b == MINUS then NumberEnd(g, text, i)
      else None
  }

  /** A value after white space */
  function ItemEnd(g: Grammar, text: seq<Octet>, i: nat): (r: Option<nat>)
    ensures r.Some? ==> i < r.value <= |text|
    decreases |text| - i, 1
  {
    if i < |text| && IsWhitespace(text[i]) then ItemEnd(g, text, i + 1) else ValueEnd(g, text, i)
  }

  /** Behind the opening bracket or brace, an item, or a comma */
  datatype Place = Opened | AfterItem | AfterComma

  /** The rest of an array */
  function ElementsEnd(g: Grammar, text: seq<Octet>, i: nat, place: Place): (r: Option<nat>)
    ensures r.Some? ==> i < r.value <= |text|
    decreases |text| - i, 1
  {
    if i >= |text| then None
    else
      var b := text[i];
      if IsWhitespace(b) then ElementsEnd(g, text, i + 1, place)
      else if b == 0x5d then
        if place == AfterComma && !g.trailingCommas then None else Some(i + 1)
      else if place == AfterItem then
        if b == COMMA then ElementsEnd(g, text, i + 1, AfterComma) else None
      else
        match ValueEnd(g, text, i)
        case None => None
        case Some(j) => ElementsEnd(g, text, j, AfterItem)
  }

  /** The rest of an object */
  function MembersEnd(g: Grammar, text: seq<Octet>, i: nat, place: Place): (r: Option<nat>)
    ensures r.Some? ==> i < r.value <= |text|
    decreases |text| - i, 1
  {
    if i >= |text| then None
    else
      var b := text[i];
      if IsWhitespace(b) then MembersEnd(g, text, i + 1, place)
      else if b == 0x7d then
        if place == AfterComma && !g.trailingCommas then None else Some(i + 1)
      else if place == AfterItem then
        if b == COMMA then MembersEnd(g, text, i + 1, AfterComma) else None
      else if b == QUOTE then
        match QuotedEnd(g, text, i + 1)
        case None => None
        case Some(j) => PairEnd(g, text, j)
      else None
  }

  /** The rest of an object, from the end of a key on */
  function PairEnd(g: Grammar, text: seq<Octet>, i: nat): (r: Option<nat>)
    ensures r.Some? ==> i < r.value <= |text|
    decreases |text| - i, 1
  {
    if i >= |text| then None
    else if IsWhitespace(text[i]) then PairEnd(g, text, i + 1)
    else if text[i] == COLON then
      match ItemEnd(g, text, i + 1)
      case None => None
      case Some(j) => MembersEnd(g, text, j, AfterItem)
    else None
  }

  // ----- texts

  /** White space up to the end */
  predicate IsTrail(g: Grammar, text: seq<Octet>, i: nat)
    decreases |text| - i
  {
    || i >= |text|
    || (g.nulEnds && text[i] == 0)
    || (IsWhitespace(text[i]) && IsTrail(g, text, i + 1))
  }

  predicate IsText(g: Grammar, text: seq<Octet>) {
    match ItemEnd(g, text, 0)
    case None => false
    case Some(j) => IsTrail(g, text, j)
  }
}
