/**
 The duplicate-key scanner (write-intent-binding.ts, `hasDuplicateJsonKeys`) over UTF-16 code
 units. Main result: on every well-formed JSON text (section 4 of RFC 8259), with any white space
 and any escapes, it answers true exactly when some object, at some depth, has two members whose
 decoded names are equal.
 */
module JsonKeys {
  import opened Prelude

  /** UTF-16 code units. */
  type Code = int
  type Codes = seq<int>

  const QUOTE: Code := 34
  const BACKSLASH: Code := 92
  const COMMA: Code := 44
  const COLON: Code := 58
  const OPEN_ARRAY: Code := 91
  const CLOSE_ARRAY: Code := 93
  const OPEN_OBJECT: Code := 123
  const CLOSE_OBJECT: Code := 125
  const LETTER_U: Code := 117

  predicate Punctuation(c: Code) {
    c in {COMMA, COLON, OPEN_ARRAY, CLOSE_ARRAY, OPEN_OBJECT, CLOSE_OBJECT}
  }

  // ---------------------------------------------------------------- the token pattern

  datatype Token = Punct(c: Code) | Quoted(raw: Codes)

  /** The closing quote of a literal, looking from `i`: any character may follow a backslash. */
  function ClosingQuote(text: Codes, i: nat): (end: Option<nat>)
    ensures end.Some? ==> i <= end.value < |text| && text[end.value] == QUOTE
    decreases |text| - i
  {
    if i >= |text| then None
    else if text[i] == QUOTE then Some(i)
    else if text[i] != BACKSLASH then ClosingQuote(text, i + 1)
    else if i + 1 < |text| then ClosingQuote(text, i + 2)
    else None
  }

  /** Every match of the pattern, left to right; what matches nothing is skipped. */
  function Tokens(text: Codes): seq<Token>
    decreases |text|
  {
    if text == [] then []
    else if text[0] == QUOTE then
      match ClosingQuote(text, 1)
      case Some(end) => [Quoted(text[..end + 1])] + Tokens(text[end + 1..])
      case None => Tokens(text[1..])
    else if Punctuation(text[0]) then [Punct(text[0])] + Tokens(text[1..])
    else Tokens(text[1..])
  }

  // ---------------------------------------------------------------- decoding one literal

  function HexDigit(c: Code): Option<int> {
    if 48 <= c <= 57 then Some(c - 48)
    else if 97 <= c <= 102 then Some(c - 87)
    else if 65 <= c <= 70 then Some(c - 55)
    else None
  }

  /** The character a one-letter escape stands for (section 7 of RFC 8259). */
  function Escape(c: Code): Option<Code> {
    if c == QUOTE || c == BACKSLASH || c == 47 then Some(c)
    else if c == 98 then Some(8)
    else if c == 102 then Some(12)
    else if c == 110 then Some(10)
    else if c == 114 then Some(13)
    else if c == 116 then Some(9)
    else None
  }

  function FourHex(a: Code, b: Code, c: Code, d: Code): Option<Code> {
    if HexDigit(a).Some? && HexDigit(b).Some? && HexDigit(c).Some? && HexDigit(d).Some?
    then Some(4096 * HexDigit(a).value + 256 * HexDigit(b).value + 16 * HexDigit(c).value + HexDigit(d).value)
    else None
  }

  /** What follows the opening quote: the characters up to the closing one, which must be the end. */
  function DecodeRest(s: Codes): Option<Codes>
    decreases |s|
  {
    if s == [] || s[0] < 32 then None
    else if s[0] == QUOTE then if |s| == 1 then Some([]) else None
    else if s[0] != BACKSLASH then Prefixed(Some(s[0]), DecodeRest(s[1..]))
    else if |s| >= 6 && s[1] == LETTER_U then Prefixed(FourHex(s[2], s[3], s[4], s[5]), DecodeRest(s[6..]))
    else if |s| >= 2 then Prefixed(Escape(s[1]), DecodeRest(s[2..]))
    else None
  }

  function Prefixed(c: Option<Code>, rest: Option<Codes>): Option<Codes> {
    if c.Some? && rest.Some? then Some([c.value] + rest.value) else None
  }

  /** JSON.parse on a string token; None when it throws. */
  function Decode(raw: Codes): Option<Codes> {
    if raw != [] && raw[0] == QUOTE then DecodeRest(raw[1..]) else None
  }

  // ---------------------------------------------------------------- the scan

  type Stack = seq<set<Codes>>

  function WithName(stack: Stack, name: Codes): Stack {
    if stack == [] then [] else stack[..|stack| - 1] + [stack[|stack| - 1] + {name}]
  }

  function Popped(stack: Stack): Stack {
    if stack == [] then [] else stack[..|stack| - 1]
  }

  /** The name a token stands for: a decodable literal with a colon right after it. */
  function NameAt(tokens: seq<Token>): Option<Codes> {
    if |tokens| >= 2 && tokens[0].Quoted? && tokens[1] == Punct(COLON) then Decode(tokens[0].raw) else None
  }

  function Scan(tokens: seq<Token>, stack: Stack): bool
    decreases |tokens|
  {
    if tokens == [] then false
    else if tokens[0] == Punct(OPEN_OBJECT) then Scan(tokens[1..], stack + [{}])
    else if tokens[0] == Punct(CLOSE_OBJECT) then Scan(tokens[1..], Popped(stack))
    else
      match NameAt(tokens)
      case None => Scan(tokens[1..], stack)
      case Some(name) =>
        (stack != [] && name in stack[|stack| - 1]) || Scan(tokens[1..], WithName(stack, name))
  }

  method HasDuplicateJsonKeys(text: Codes) returns (found: bool)
    ensures found == Scan(Tokens(text), [])
  {
    var stack: Stack := [];
    var tokens := Tokens(text);
    for i := 0 to |tokens|
      invariant Scan(tokens, []) == Scan(tokens[i..], stack)
    {
      var token := tokens[i];
      assert tokens[i..][1..] == tokens[i + 1..];
      if token == Punct(OPEN_OBJECT) {
        stack := stack + [{}];
      } else if token == Punct(CLOSE_OBJECT) {
        stack := if stack == [] then [] else stack[..|stack| - 1];
      } else if token.Quoted? && i + 1 < |tokens| && tokens[i + 1] == Punct(COLON) {
        var key := Decode(token.raw);
        if key.Some? && stack != [] {
          var top := |stack| - 1;
          if key.value in stack[top] {
            return true;
          }
          stack := stack[..top] + [stack[top] + {key.value}];
        }
      }
    }
    found := false;
  }

  // ---------------------------------------------------------------- well-formed texts

  /** One character of a literal as it is written. */
  datatype Unit = Plain(c: Code) | Escaped(letter: Code) | Hex(a: Code, b: Code, c: Code, d: Code)

  /** A value as it is written; `before`, `after` and the other gaps are white space. */
  datatype Value =
    | Word(chars: Codes)
    | Text(units: seq<Unit>)
    | EmptyArray(gap: Codes)
    | Array(items: Items)
    | EmptyObject(gap: Codes)
    | Object(members: Members)

  datatype Items =
    | LastItem(before: Codes, value: Value, after: Codes)
    | Item(before: Codes, value: Value, after: Codes, rest: Items)

  datatype Members =
    | LastMember(before: Codes, name: seq<Unit>, gap: Codes, gap2: Codes, value: Value, after: Codes)
    | Member(before: Codes, name: seq<Unit>, gap: Codes, gap2: Codes, value: Value, after: Codes, rest: Members)

  /** White space, numbers and literal names hold no quote and no punctuation. */
  predicate Neutral(s: Codes) {
    forall i :: 0 <= i < |s| ==> s[i] !in {34, 44, 58, 91, 93, 123, 125}
  }

  /** The hexadecimal digit `c` has that value, in either case. */
  predicate HexIs(c: Code, value: int) {
    || (0 <= value < 10 && c == '0' as int + value)
    || (10 <= value < 16 && c in {'a' as int + value - 10, 'A' as int + value - 10})
  }

  predicate IsHex(c: Code) {
    '0' as int <= c <= '9' as int || 'a' as int <= c <= 'f' as int || 'A' as int <= c <= 'F' as int
  }

  /** The one-letter escapes: quote, backslash, slash, b, f, n, r and t. */
  predicate EscapeIs(letter: Code, c: Code) {
    (letter, c) in {(34, 34), (92, 92), (47, 47), (98, 8), (102, 12), (110, 10), (114, 13), (116, 9)}
  }

  predicate WellUnit(u: Unit) {
    match u
    case Plain(c) => c >= 32 && c != QUOTE && c != BACKSLASH
    case Escaped(letter) => letter in {34, 92, 47, 98, 102, 110, 114, 116}
    case Hex(a, b, c, d) => IsHex(a) && IsHex(b) && IsHex(c) && IsHex(d)
  }

  /** What the unit stands for. */
  ghost predicate Means(u: Unit, code: Code) {
    match u
    case Plain(c) => code == c
    case Escaped(letter) => EscapeIs(letter, code)
    case Hex(a, b, c, d) => exists w, x, y, z ::
      HexIs(a, w) && HexIs(b, x) && HexIs(c, y) && HexIs(d, z) && code == 4096 * w + 256 * x + 16 * y + z
  }

  // The decoder knows exactly the sixteen digits and the eight letters.
  lemma DigitsAreExact(c: Code)
    ensures HexDigit(c).Some? <==> IsHex(c)
    ensures forall value :: HexDigit(c) == Some(value) <==> HexIs(c, value)
  {
  }

  lemma EscapesAreExact(letter: Code)
    ensures forall c :: Escape(letter) == Some(c) <==> EscapeIs(letter, c)
    ensures Escape(letter).Some? <==> letter in {34, 92, 47, 98, 102, 110, 114, 116}
  {
  }

  predicate WellUnits(units: seq<Unit>) {
    forall i :: 0 <= i < |units| ==> WellUnit(units[i])
  }

  predicate WellValue(v: Value) {
    match v
    case Word(chars) => Neutral(chars)
    case Text(units) => WellUnits(units)
    case EmptyArray(gap) => Neutral(gap)
    case Array(items) => WellItems(items)
    case EmptyObject(gap) => Neutral(gap)
    case Object(members) => WellMembers(members)
  }

  predicate WellItems(items: Items) {
    && Neutral(items.before) && Neutral(items.after) && WellValue(items.value)
    && (items.Item? ==> WellItems(items.rest))
  }

  predicate WellMembers(ms: Members) {
    && Neutral(ms.before) && WellUnits(ms.name) && Neutral(ms.gap) && Neutral(ms.gap2) && Neutral(ms.after)
    && WellValue(ms.value) && (ms.Member? ==> WellMembers(ms.rest))
  }

  function WriteUnit(u: Unit): Codes {
    match u
    case Plain(c) => [c]
    case Escaped(letter) => [BACKSLASH, letter]
    case Hex(a, b, c, d) => [BACKSLASH, LETTER_U, a, b, c, d]
  }

  function WriteUnits(units: seq<Unit>): Codes {
    if units == [] then [] else WriteUnit(units[0]) + WriteUnits(units[1..])
  }

  function WriteText(units: seq<Unit>): Codes {
    [QUOTE] + WriteUnits(units) + [QUOTE]
  }

  function Write(v: Value): Codes {
    match v
    case Word(chars) => chars
    case Text(units) => WriteText(units)
    case EmptyArray(gap) => [OPEN_ARRAY] + gap + [CLOSE_ARRAY]
    case Array(items) => [OPEN_ARRAY] + WriteItems(items) + [CLOSE_ARRAY]
    case EmptyObject(gap) => [OPEN_OBJECT] + gap + [CLOSE_OBJECT]
    case Object(members) => [OPEN_OBJECT] + WriteMembers(members) + [CLOSE_OBJECT]
  }

  function WriteItems(items: Items): Codes {
    items.before + Write(items.value) + items.after
    + if items.Item? then [COMMA] + WriteItems(items.rest) else []
  }

  function WriteMembers(ms: Members): Codes {
    ms.before + WriteText(ms.name) + ms.gap + [COLON] + ms.gap2 + Write(ms.value) + ms.after
    + if ms.Member? then [COMMA] + WriteMembers(ms.rest) else []
  }

  // ---------------------------------------------------------------- what duplicate means

  function MeaningOf(u: Unit): (code: Code)
    requires WellUnit(u)
    ensures Means(u, code)
  {
    match u
    case Plain(c) => c
    case Escaped(letter) => Escape(letter).value
    case Hex(a, b, c, d) =>
      assert HexIs(a, HexDigit(a).value) && HexIs(b, HexDigit(b).value);
      assert HexIs(c, HexDigit(c).value) && HexIs(d, HexDigit(d).value);
      FourHex(a, b, c, d).value
  }

  /** The characters a written literal stands for. */
  function Meaning(units: seq<Unit>): Codes
    requires WellUnits(units)
  {
    if units == [] then [] else [MeaningOf(units[0])] + Meaning(units[1..])
  }

  function Names(ms: Members): seq<Codes>
    requires WellMembers(ms)
  {
    [Meaning(ms.name)] + if ms.Member? then Names(ms.rest) else []
  }

  predicate Repeats(names: seq<Codes>) {
    exists i, j :: 0 <= i < j < |names| && names[i] == names[j]
  }

  /** Some object in `v`, at any depth, has two members of the same name. */
  predicate HasDuplicate(v: Value)
    requires WellValue(v)
  {
    match v
    case Array(items) => DuplicateInItems(items)
    case Object(members) => Repeats(Names(members)) || DuplicateInValues(members)
    case _ => false
  }

  predicate DuplicateInItems(items: Items)
    requires WellItems(items)
  {
    HasDuplicate(items.value) || (items.Item? && DuplicateInItems(items.rest))
  }

  predicate DuplicateInValues(ms: Members)
    requires WellMembers(ms)
  {
    HasDuplicate(ms.value) || (ms.Member? && DuplicateInValues(ms.rest))
  }

  // ---------------------------------------------------------------- tokens of a written text

  function TokensOf(v: Value): seq<Token> {
    match v
    case Word(_) => []
    case Text(units) => [Quoted(WriteText(units))]
    case EmptyArray(_) => [Punct(OPEN_ARRAY), Punct(CLOSE_ARRAY)]
    case Array(items) => [Punct(OPEN_ARRAY)] + TokensOfItems(items) + [Punct(CLOSE_ARRAY)]
    case EmptyObject(_) => [Punct(OPEN_OBJECT), Punct(CLOSE_OBJECT)]
    case Object(members) => [Punct(OPEN_OBJECT)] + TokensOfMembers(members) + [Punct(CLOSE_OBJECT)]
  }

  function TokensOfItems(items: Items): seq<Token> {
    TokensOf(items.value) + if items.Item? then [Punct(COMMA)] + TokensOfItems(items.rest) else []
  }

  function TokensOfMembers(ms: Members): seq<Token> {
    [Quoted(WriteText(ms.name)), Punct(COLON)] + TokensOf(ms.value)
    + if ms.Member? then [Punct(COMMA)] + TokensOfMembers(ms.rest) else []
  }

  lemma {:induction false} SkipNeutral(s: Codes, rest: Codes)
    requires Neutral(s)
    ensures Tokens(s + rest) == Tokens(rest)
    decreases |s|
  {
    if s == [] {
      assert s + rest == rest;
    } else {
      var whole := s + rest;
      assert whole[0] == s[0] && whole[1..] == s[1..] + rest;
      SkipNeutral(s[1..], rest);
    }
  }

  lemma TakePunct(c: Code, rest: Codes)
    requires Punctuation(c)
    ensures Tokens([c] + rest) == [Punct(c)] + Tokens(rest)
  {
    assert ([c] + rest)[1..] == rest;
  }

  // The pattern steps over one written character, plain or escaped, as a whole.
  lemma UnitIsSkipped(front: Codes, u: Unit, rest: Codes)
    requires WellUnit(u) && rest != []
    ensures ClosingQuote(front + WriteUnit(u) + rest, |front|) == ClosingQuote(front + WriteUnit(u) + rest, |front| + |WriteUnit(u)|)
  {
    var text, i := front + WriteUnit(u) + rest, |front|;
    assert forall j :: 0 <= j < |WriteUnit(u)| ==> text[i + j] == WriteUnit(u)[j];
    if u.Hex? {
      assert text[i + 2] == u.a && text[i + 3] == u.b && text[i + 4] == u.c && text[i + 5] == u.d;
      assert ClosingQuote(text, i) == ClosingQuote(text, i + 2);
      assert ClosingQuote(text, i + 2) == ClosingQuote(text, i + 3);
      assert ClosingQuote(text, i + 3) == ClosingQuote(text, i + 4);
      assert ClosingQuote(text, i + 4) == ClosingQuote(text, i + 5);
    } else if u.Escaped? {
      assert text[i] == BACKSLASH;
    }
  }

  // The closing quote of a written literal is the one that was written.
  lemma {:induction false} QuoteIsFound(front: Codes, units: seq<Unit>, rest: Codes)
    requires WellUnits(units) && rest != [] && rest[0] == QUOTE
    ensures ClosingQuote(front + (WriteUnits(units) + rest), |front|) == Some(|front| + |WriteUnits(units)|)
    decreases |units|
  {
    var text := front + (WriteUnits(units) + rest);
    if units == [] {
      assert text[|front|] == rest[0];
    } else {
      hide ClosingQuote, WriteUnit, WellUnit;
      var first, others := WriteUnit(units[0]), WriteUnits(units[1..]);
      assert WellUnit(units[0]);
      assert text == front + first + (others + rest);
      QuoteIsFound(front + first, units[1..], rest);
      UnitIsSkipped(front, units[0], others + rest);
    }
  }

  lemma TakeText(units: seq<Unit>, rest: Codes)
    requires WellUnits(units)
    ensures Tokens(WriteText(units) + rest) == [Quoted(WriteText(units))] + Tokens(rest)
  {
    hide ClosingQuote;
    var raw, whole, end := WriteText(units), WriteText(units) + rest, 1 + |WriteUnits(units)|;
    assert whole == [QUOTE] + (WriteUnits(units) + ([QUOTE] + rest));
    QuoteIsFound([QUOTE], units, [QUOTE] + rest);
    assert whole[..end + 1] == raw && whole[end + 1..] == rest;
  }

  // Reading back a written value yields its tokens, whatever comes after it.
  lemma {:induction false} TokensOfValue(v: Value, rest: Codes)
    requires WellValue(v)
    ensures Tokens(Write(v) + rest) == TokensOf(v) + Tokens(rest)
    decreases v, 1
  {
    match v
    case Word(chars) =>
      SkipNeutral(chars, rest);
    case Text(units) =>
      TakeText(units, rest);
    case EmptyArray(gap) =>
      SkipNeutral(gap, [CLOSE_ARRAY] + rest);
      BracketedTokens(OPEN_ARRAY, gap, [], CLOSE_ARRAY, rest);
    case EmptyObject(gap) =>
      SkipNeutral(gap, [CLOSE_OBJECT] + rest);
      BracketedTokens(OPEN_OBJECT, gap, [], CLOSE_OBJECT, rest);
    case Array(items) =>
      TokensOfEveryItem(items, [CLOSE_ARRAY] + rest);
      BracketedTokens(OPEN_ARRAY, WriteItems(items), TokensOfItems(items), CLOSE_ARRAY, rest);
    case Object(members) =>
      TokensOfEveryMember(members, [CLOSE_OBJECT] + rest);
      BracketedTokens(OPEN_OBJECT, WriteMembers(members), TokensOfMembers(members), CLOSE_OBJECT, rest);
  }

  lemma BracketedTokens(open: Code, inside: Codes, tokens: seq<Token>, close: Code, rest: Codes)
    requires Punctuation(open) && Punctuation(close)
    requires Tokens(inside + ([close] + rest)) == tokens + Tokens([close] + rest)
    ensures Tokens([open] + inside + [close] + rest) == [Punct(open)] + tokens + [Punct(close)] + Tokens(rest)
  {
    hide Tokens;
    TakePunct(open, inside + ([close] + rest));
    TakePunct(close, rest);
    assert [open] + inside + [close] + rest == [open] + (inside + ([close] + rest));
  }

  // One value between its gaps, followed by the rest of the list.
  lemma PaddedTokens(before: Codes, written: Codes, tokens: seq<Token>, after: Codes, rest: Codes)
    requires Neutral(before) && Neutral(after)
    requires Tokens(written + (after + rest)) == tokens + Tokens(after + rest)
    ensures Tokens(before + written + after + rest) == tokens + Tokens(rest)
  {
    hide Tokens, Neutral;
    SkipNeutral(before, written + (after + rest));
    SkipNeutral(after, rest);
    assert before + written + after + rest == before + (written + (after + rest));
  }

  lemma {:induction false} TokensOfEveryItem(items: Items, rest: Codes)
    requires WellItems(items)
    ensures Tokens(WriteItems(items) + rest) == TokensOfItems(items) + Tokens(rest)
    decreases items, 0
  {
    hide Tokens, TokensOf, Write, Neutral, WellValue, Punctuation;
    var written := items.before + Write(items.value) + items.after;
    if items.Item? {
      var others := [COMMA] + WriteItems(items.rest) + rest;
      TokensOfValue(items.value, items.after + others);
      PaddedTokens(items.before, Write(items.value), TokensOf(items.value), items.after, others);
      TokensOfEveryItem(items.rest, rest);
      TakePunct(COMMA, WriteItems(items.rest) + rest);
      assert others == [COMMA] + (WriteItems(items.rest) + rest);
      assert WriteItems(items) + rest == written + others;
    } else {
      TokensOfValue(items.value, items.after + rest);
      PaddedTokens(items.before, Write(items.value), TokensOf(items.value), items.after, rest);
      assert WriteItems(items) + rest == written + rest;
    }
  }

  lemma Regrouped(head: Codes, a: Codes, b: Codes, c: Codes, others: Codes, rest: Codes)
    ensures head + a + b + c + others + rest == head + (a + b + c + (others + rest))
  {
    var value := a + b + c;
    assert head + a + b + c == head + value;
    assert head + value + others + rest == head + (value + (others + rest));
  }

  // The written members, cut after the colon of the first one.
  lemma MembersCut(ms: Members, rest: Codes, tail: Codes)
    requires tail == if ms.Member? then [COMMA] + WriteMembers(ms.rest) + rest else rest
    ensures WriteMembers(ms) + rest
         == ms.before + WriteText(ms.name) + ms.gap + [COLON] + (ms.gap2 + Write(ms.value) + ms.after + tail)
  {
    hide WriteText, Write;
    var others := if ms.Member? then [COMMA] + WriteMembers(ms.rest) else [];
    assert tail == others + rest;
    Regrouped(ms.before + WriteText(ms.name) + ms.gap + [COLON], ms.gap2, Write(ms.value), ms.after, others, rest);
  }

  lemma {:induction false} TokensOfEveryMember(ms: Members, rest: Codes)
    requires WellMembers(ms)
    ensures Tokens(WriteMembers(ms) + rest) == TokensOfMembers(ms) + Tokens(rest)
    decreases ms, 0
  {
    hide Tokens, TokensOf, Write, Neutral, WellValue, WellUnits, WriteText, WriteMembers;
    var tail := if ms.Member? then [COMMA] + WriteMembers(ms.rest) + rest else rest;
    var value := ms.gap2 + Write(ms.value) + ms.after + tail;
    TokensOfValue(ms.value, ms.after + tail);
    PaddedTokens(ms.gap2, Write(ms.value), TokensOf(ms.value), ms.after, tail);
    if ms.Member? {
      TokensOfEveryMember(ms.rest, rest);
      TakePunct(COMMA, WriteMembers(ms.rest) + rest);
      assert tail == [COMMA] + (WriteMembers(ms.rest) + rest);
    }
    NameTokens(ms.before, ms.name, ms.gap, value);
    MembersCut(ms, rest, tail);
  }

  lemma NameTokens(before: Codes, name: seq<Unit>, gap: Codes, rest: Codes)
    requires Neutral(before) && WellUnits(name) && Neutral(gap)
    ensures Tokens(before + WriteText(name) + gap + [COLON] + rest)
         == [Quoted(WriteText(name)), Punct(COLON)] + Tokens(rest)
  {
    hide Tokens, Neutral, WellUnits, WriteText;
    var colon := [COLON] + rest;
    TakeText(name, gap + colon);
    PaddedTokens(before, WriteText(name), [Quoted(WriteText(name))], gap, colon);
    TakePunct(COLON, rest);
    assert before + WriteText(name) + gap + [COLON] + rest == before + WriteText(name) + gap + colon;
  }

  // ---------------------------------------------------------------- decoding what was written

  lemma DecodesUnit(u: Unit, others: Codes)
    requires WellUnit(u)
    ensures DecodeRest(WriteUnit(u) + others) == Prefixed(Some(MeaningOf(u)), DecodeRest(others))
  {
    var first := WriteUnit(u);
    var s := first + others;
    assert s[|first|..] == others && forall j :: 0 <= j < |first| ==> s[j] == first[j];
    match u
    case Plain(c) =>
    case Escaped(letter) =>
      EscapesAreExact(letter);
    case Hex(a, b, c, d) =>
      DigitsAreExact(a);
      DigitsAreExact(b);
      DigitsAreExact(c);
      DigitsAreExact(d);
      hide HexDigit;
  }

  lemma {:induction false} DecodesRest(units: seq<Unit>)
    requires WellUnits(units)
    ensures DecodeRest(WriteUnits(units) + [QUOTE]) == Some(Meaning(units))
    decreases |units|
  {
    if units != [] {
      var others := WriteUnits(units[1..]) + [QUOTE];
      DecodesRest(units[1..]);
      DecodesUnit(units[0], others);
      assert WriteUnits(units) + [QUOTE] == WriteUnit(units[0]) + others;
      hide DecodeRest, WriteUnit, MeaningOf;
    }
  }

  // Decoding undoes writing, escapes included.
  lemma DecodeUndoesWrite(units: seq<Unit>)
    requires WellUnits(units)
    ensures Decode(WriteText(units)) == Some(Meaning(units))
  {
    DecodesRest(units);
    assert WriteText(units)[1..] == WriteUnits(units) + [QUOTE];
  }

  // ---------------------------------------------------------------- scanning the tokens

  /** What the scan sees inside one object whose names so far are `seen`. */
  predicate Clashes(ms: Members, seen: set<Codes>)
    requires WellMembers(ms)
  {
    || Meaning(ms.name) in seen
    || HasDuplicate(ms.value)
    || (ms.Member? && Clashes(ms.rest, seen + {Meaning(ms.name)}))
  }

  predicate Meets(names: seq<Codes>, seen: set<Codes>) {
    exists i :: 0 <= i < |names| && names[i] in seen
  }

  lemma MeetsOneMore(name: Codes, others: seq<Codes>, seen: set<Codes>)
    ensures Meets([name] + others, seen) <==> name in seen || Meets(others, seen)
    ensures Meets(others, seen + {name}) <==> Meets(others, seen) || name in others
  {
    var names := [name] + others;
    assert names[0] == name && forall i :: 0 <= i < |others| ==> names[i + 1] == others[i];
    assert forall i :: 0 < i < |names| ==> names[i] == others[i - 1];
  }

  lemma RepeatsOneMore(name: Codes, others: seq<Codes>)
    ensures Repeats([name] + others) <==> name in others || Repeats(others)
  {
    var names := [name] + others;
    assert names[0] == name && forall i :: 0 <= i < |others| ==> names[i + 1] == others[i];
    assert forall i :: 0 < i < |names| ==> names[i] == others[i - 1];
    if i, j :| 0 <= i < j < |others| && others[i] == others[j] {
      assert names[i + 1] == names[j + 1];
    }
  }

  lemma {:induction false} ClashesMeans(ms: Members, seen: set<Codes>)
    requires WellMembers(ms)
    ensures Clashes(ms, seen) <==> Meets(Names(ms), seen) || Repeats(Names(ms)) || DuplicateInValues(ms)
    decreases ms
  {
    hide Meets, Repeats, HasDuplicate, Meaning;
    var name := Meaning(ms.name);
    var others := if ms.Member? then Names(ms.rest) else [];
    assert Names(ms) == [name] + others;
    MeetsOneMore(name, others, seen);
    RepeatsOneMore(name, others);
    if ms.Member? {
      ClashesMeans(ms.rest, seen + {name});
    } else {
      NothingMeets(seen);
    }
  }

  lemma NothingMeets(seen: set<Codes>)
    ensures !Meets([], seen) && !Repeats([])
  {
  }

  predicate NoColon(rest: seq<Token>) {
    rest == [] || rest[0] != Punct(COLON)
  }

  lemma StepOver(c: Code, rest: seq<Token>, stack: Stack)
    requires c != OPEN_OBJECT && c != CLOSE_OBJECT
    ensures Scan([Punct(c)] + rest, stack) == Scan(rest, stack)
  {
    assert ([Punct(c)] + rest)[1..] == rest;
  }

  // The scan of a value reports its duplicates and then goes on as if the value were not there.
  lemma {:induction false} ScanValue(v: Value, rest: seq<Token>, stack: Stack)
    requires WellValue(v) && NoColon(rest)
    ensures Scan(TokensOf(v) + rest, stack) <==> HasDuplicate(v) || Scan(rest, stack)
    decreases v, 1
  {
    hide Scan, DuplicateInItems, DuplicateInValues, Repeats, Names, TokensOfItems, TokensOfMembers, WellItems, WellMembers;
    match v
    case Word(_) =>
      assert TokensOf(v) + rest == rest;
    case Text(units) =>
      ScanText(WriteText(units), rest, stack);
    case EmptyArray(_) =>
      var none: seq<Token> := [];
      assert none + ([Punct(CLOSE_ARRAY)] + rest) == [Punct(CLOSE_ARRAY)] + rest;
      ScanArray(none, rest, stack, false);
      assert [Punct(OPEN_ARRAY)] + none + [Punct(CLOSE_ARRAY)] == TokensOf(v);
    case EmptyObject(_) =>
      var closing := [Punct(CLOSE_OBJECT)] + rest;
      OpenAndClose(closing, rest, stack, {});
      assert TokensOf(v) + rest == [Punct(OPEN_OBJECT)] + closing;
    case Array(items) =>
      ScanItems(items, [Punct(CLOSE_ARRAY)] + rest, stack);
      ScanArray(TokensOfItems(items), rest, stack, DuplicateInItems(items));
    case Object(members) =>
      ScanMembers(members, rest, stack, {});
      ClashesMeans(members, {});
      ScanObject(TokensOfMembers(members), rest, stack);
  }

  lemma ScanText(raw: Codes, rest: seq<Token>, stack: Stack)
    requires NoColon(rest)
    ensures Scan([Quoted(raw)] + rest, stack) == Scan(rest, stack)
  {
    assert ([Quoted(raw)] + rest)[1..] == rest;
  }

  lemma ScanArray(inside: seq<Token>, rest: seq<Token>, stack: Stack, clash: bool)
    requires Scan(inside + ([Punct(CLOSE_ARRAY)] + rest), stack) <==> clash || Scan([Punct(CLOSE_ARRAY)] + rest, stack)
    ensures Scan([Punct(OPEN_ARRAY)] + inside + [Punct(CLOSE_ARRAY)] + rest, stack) <==> clash || Scan(rest, stack)
  {
    hide Scan;
    var closing := [Punct(CLOSE_ARRAY)] + rest;
    StepOver(OPEN_ARRAY, inside + closing, stack);
    StepOver(CLOSE_ARRAY, rest, stack);
    assert [Punct(OPEN_ARRAY)] + inside + [Punct(CLOSE_ARRAY)] + rest == [Punct(OPEN_ARRAY)] + (inside + closing);
  }

  lemma ScanObject(inside: seq<Token>, rest: seq<Token>, stack: Stack)
    ensures Scan([Punct(OPEN_OBJECT)] + inside + [Punct(CLOSE_OBJECT)] + rest, stack)
         == Scan(inside + ([Punct(CLOSE_OBJECT)] + rest), stack + [{}])
  {
    var closing := inside + ([Punct(CLOSE_OBJECT)] + rest);
    assert [Punct(OPEN_OBJECT)] + inside + [Punct(CLOSE_OBJECT)] + rest == [Punct(OPEN_OBJECT)] + closing;
    assert ([Punct(OPEN_OBJECT)] + closing)[1..] == closing;
  }

  lemma OpenAndClose(closing: seq<Token>, rest: seq<Token>, stack: Stack, seen: set<Codes>)
    requires closing == [Punct(CLOSE_OBJECT)] + rest
    ensures Scan(closing, stack + [seen]) == Scan(rest, stack)
    ensures Scan([Punct(OPEN_OBJECT)] + closing, stack) == Scan(rest, stack)
  {
    assert closing[1..] == rest && ([Punct(OPEN_OBJECT)] + closing)[1..] == closing;
    assert Popped(stack + [seen]) == stack && Popped(stack + [{}]) == stack;
  }

  lemma {:induction false} ScanItems(items: Items, rest: seq<Token>, stack: Stack)
    requires WellItems(items) && NoColon(rest)
    ensures Scan(TokensOfItems(items) + rest, stack) <==> DuplicateInItems(items) || Scan(rest, stack)
    decreases items, 0
  {
    hide Scan, TokensOf, HasDuplicate, WellValue;
    if items.Item? {
      var others := TokensOfItems(items.rest) + rest;
      ScanItems(items.rest, rest, stack);
      StepOver(COMMA, others, stack);
      ScanValue(items.value, [Punct(COMMA)] + others, stack);
      assert TokensOfItems(items) + rest == TokensOf(items.value) + ([Punct(COMMA)] + others);
    } else {
      ScanValue(items.value, rest, stack);
      assert TokensOfItems(items) + rest == TokensOf(items.value) + rest;
    }
  }

  // Inside one object, up to and including its closing brace.
  lemma {:induction false} ScanMembers(ms: Members, rest: seq<Token>, stack: Stack, seen: set<Codes>)
    requires WellMembers(ms)
    ensures Scan(TokensOfMembers(ms) + ([Punct(CLOSE_OBJECT)] + rest), stack + [seen])
            <==> Clashes(ms, seen) || Scan(rest, stack)
    decreases ms, 0
  {
    hide Scan, TokensOf, HasDuplicate, WellValue, WellUnits, Meaning, WriteText;
    var name := Meaning(ms.name);
    var closing := [Punct(CLOSE_OBJECT)] + rest;
    var inner := stack + [seen + {name}];
    var tail := if ms.Member? then [Punct(COMMA)] + (TokensOfMembers(ms.rest) + closing) else closing;
    if ms.Member? {
      ScanMembers(ms.rest, rest, stack, seen + {name});
      StepOver(COMMA, TokensOfMembers(ms.rest) + closing, inner);
    } else {
      OpenAndClose(closing, rest, stack, seen + {name});
    }
    ScanValue(ms.value, tail, inner);
    ScanName(ms.name, TokensOf(ms.value) + tail, stack, seen);
    assert TokensOfMembers(ms) + closing
        == [Quoted(WriteText(ms.name)), Punct(COLON)] + (TokensOf(ms.value) + tail);
  }

  lemma ScanName(units: seq<Unit>, rest: seq<Token>, stack: Stack, seen: set<Codes>)
    requires WellUnits(units)
    ensures Scan([Quoted(WriteText(units)), Punct(COLON)] + rest, stack + [seen])
            <==> Meaning(units) in seen || Scan(rest, stack + [seen + {Meaning(units)}])
  {
    DecodeUndoesWrite(units);
    var tokens := [Quoted(WriteText(units)), Punct(COLON)] + rest;
    assert tokens[1..] == [Punct(COLON)] + rest;
    assert WithName(stack + [seen], Meaning(units)) == stack + [seen + {Meaning(units)}];
    StepOver(COLON, rest, stack + [seen + {Meaning(units)}]);
  }

  // ---------------------------------------------------------------- the theorem

  // For every well-formed text: the scanner answers true exactly when a name is repeated.
  lemma DuplicatesAreFound(before: Codes, v: Value, after: Codes)
    requires Neutral(before) && WellValue(v) && Neutral(after)
    ensures Scan(Tokens(before + Write(v) + after), []) <==> HasDuplicate(v)
  {
    TokensOfValue(v, after + []);
    PaddedTokens(before, Write(v), TokensOf(v), after, []);
    assert before + Write(v) + after + [] == before + Write(v) + after;
    assert TokensOf(v) + Tokens([]) == TokensOf(v) + [];
    ScanValue(v, [], []);
  }
}
