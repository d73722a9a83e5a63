/**
 What the forms of a template token stand for (conformance/src/telegram.rs),
 each said of the text itself: the six forms of a variable, octets in
 hexadecimal, wildcards, and tokens one after the other.
 */
module TelegramForms {
  import opened Wrappers
  import opened Text
  import opened Octets
  import opened Telegram
  import Frame

  /** A name none of the operators occurs in. */
  predicate PlainName(name: string) {
    forall k :: 0 <= k < |name| ==> name[k] != '.' && name[k] != '+' && name[k] != '-'
  }

  // ---------------------------------------------------------------------
  // Values
  // ---------------------------------------------------------------------

  /** One octet moved by an offset modulo 256. */
  predicate OctetMoved(octet: bv8, offset: int, moved: Option<seq<bv8>>) {
    moved.Some? && |moved.value| == 1 && moved.value[0] as int == (octet as int + offset) % 256
  }

  /** Two octets, high one first, moved as one number modulo 65536. */
  predicate WordMoved(high: bv8, low: bv8, offset: int, moved: Option<seq<bv8>>) {
    && moved.Some? && |moved.value| == 2
    && moved.value[0] as int * 256 + moved.value[1] as int == (high as int * 256 + low as int + offset) % 65536
  }

  /** A variable moved by an offset in its own width; no other width than one or two octets can be moved. */
  predicate ValueMoved(octets: seq<bv8>, offset: int, moved: Option<seq<bv8>>) {
    if |octets| == 1 then OctetMoved(octets[0], offset, moved)
    else if |octets| == 2 then WordMoved(octets[0], octets[1], offset, moved)
    else moved == None
  }

  lemma OctetMoves(octet: bv8, offset: int)
    ensures OctetMoved(octet, offset, Some([Octet(octet as int + offset)]))
  {
    OctetAsInt(octet as int + offset);
  }

  lemma WordMoves(octets: seq<bv8>, offset: int, moved: seq<bv8>)
    requires |octets| == |moved| == 2 && BigEndian(moved) == (BigEndian(octets) + offset) % 0x1_0000
    ensures WordMoved(octets[0], octets[1], offset, Some(moved))
  {
    TwoOctetsValue(moved);
    TwoSum(octets, offset);
  }

  lemma OffsetIs(name: string, offset: int, vars: Variables)
    ensures if name in vars then ValueMoved(AsBytes(vars[name]), offset, OffsetValue(name, offset, vars))
            else OffsetValue(name, offset, vars) == None
  {
    if name in vars && |AsBytes(vars[name])| == 1 {
      OctetMoves(AsBytes(vars[name])[0], offset);
    } else if name in vars && |AsBytes(vars[name])| == 2 {
      TwoOctetsMove(name, offset, vars);
      WordMoves(AsBytes(vars[name]), offset, OffsetValue(name, offset, vars).value);
    }
  }

  lemma IndexedIs(name: string, digits: string, i: nat, offset: int, vars: Variables)
    requires Reads(digits, i)
    ensures if name in vars && i < |AsBytes(vars[name])| && i <= 0xFFFF_FFFF_FFFF_FFFF
            then OctetMoved(AsBytes(vars[name])[i], offset, IndexedOctet(name, digits, offset, vars))
            else IndexedOctet(name, digits, offset, vars) == None
  {
    NumbersParse(digits, i, USIZE_MAX);
    if name in vars && i < |AsBytes(vars[name])| {
      OctetMoves(AsBytes(vars[name])[i], offset);
    }
  }

  // ---------------------------------------------------------------------
  // Texts
  // ---------------------------------------------------------------------

  lemma DigitsAreNoOperators(digits: string, n: nat)
    requires Reads(digits, n)
    ensures forall k :: 0 <= k < |digits| ==> digits[k] !in "." && digits[k] !in "+" && digits[k] !in "-"
                                              && digits[k] !in "+-"
  {
  }

  /** Where the parser finds the operator of a name and digits. */
  lemma OperatorFound(name: string, op: char, digits: string, n: nat)
    requires PlainName(name) && Reads(digits, n) && (op == '+' || op == '-')
    ensures var expr := name + [op] + digits;
            && Find(expr, ".") == None && Find(expr, [op]) == Some(|name|)
            && (op == '-' ==> Find(expr, "+") == None)
            && expr[..|name|] == name && expr[|name| + 1..] == digits
  {
    var expr := name + [op] + digits;
    DigitsAreNoOperators(digits, n);
    FindNothing(expr, ".");
    FindBehind(name, op, digits, [op]);
    if op == '-' {
      FindNothing(expr, "+");
    }
  }

  lemma PlusParses(name: string, digits: string, n: nat, vars: Variables)
    requires PlainName(name) && Reads(digits, n)
    ensures ParseVariableExpr(name + "+" + digits, vars)
            == if n <= 0x7FFF_FFFF then OffsetValue(name, n, vars) else None
  {
    OperatorFound(name, '+', digits, n);
    NumbersParse(digits, n, I32_MAX);
  }

  lemma MinusParses(name: string, digits: string, n: nat, vars: Variables)
    requires PlainName(name) && Reads(digits, n)
    ensures ParseVariableExpr(name + "-" + digits, vars)
            == if n <= 0x7FFF_FFFF then OffsetValue(name, -(n as int), vars) else None
  {
    OperatorFound(name, '-', digits, n);
    NumbersParse(digits, n, I32_MAX);
  }

  lemma DotParses(name: string, index: string, vars: Variables)
    requires PlainName(name)
    ensures ParseVariableExpr(name + "." + index, vars) == ParseIndexed(name, index, vars)
  {
    var expr := name + "." + index;
    FindBehind(name, '.', index, ".");
    assert expr[..|name|] == name && expr[|name| + 1..] == index;
  }

  lemma IndexParses(name: string, digits: string, i: nat, vars: Variables)
    requires Reads(digits, i)
    ensures ParseIndexed(name, digits, vars) == IndexedOctet(name, digits, 0, vars)
  {
    DigitsAreNoOperators(digits, i);
    FindNothing(digits, "+-");
  }

  lemma MovedIndexParses(name: string, index: string, i: nat, op: char, digits: string, n: nat, vars: Variables)
    requires Reads(index, i) && Reads(digits, n) && (op == '+' || op == '-')
    ensures ParseIndexed(name, index + [op] + digits, vars)
            == if n <= 0x7FFF then IndexedOctet(name, index, if op == '+' then n else -(n as int), vars) else None
  {
    var text := index + [op] + digits;
    DigitsAreNoOperators(index, i);
    FindBehind(index, op, digits, "+-");
    assert text[..|index|] == index && text[|index| + 1..] == digits && text[|index|] == op;
    NumbersParse(digits, n, I16_MAX);
  }

  // ---------------------------------------------------------------------
  // The six forms
  // ---------------------------------------------------------------------

  /** A name alone stands for the octets of its variable: an address high octet first. */
  lemma NameStandsFor(name: string, vars: Variables, high: bv8, low: bv8, data: seq<bv8>)
    requires PlainName(name)
    ensures name !in vars ==> ParseVariableExpr(name, vars) == None
    ensures name in vars && vars[name] in {IndividualAddr(high, low), GroupAddr(high, low)} ==>
              ParseVariableExpr(name, vars) == Some([high, low])
    ensures name in vars && vars[name] == Bytes(data) ==> ParseVariableExpr(name, vars) == Some(data)
  {
    FindNothing(name, ".");
    FindNothing(name, "+");
    FindNothing(name, "-");
  }

  /** `NAME+n` moves the value of a variable of one or two octets up, in its own width; it stands for
      nothing if the variable has another width or the number is no `i32`. */
  lemma PlusForm(name: string, digits: string, n: nat, vars: Variables)
    requires PlainName(name) && Reads(digits, n)
    ensures if name in vars && n <= 0x7FFF_FFFF
            then ValueMoved(AsBytes(vars[name]), n, ParseVariableExpr(name + "+" + digits, vars))
            else ParseVariableExpr(name + "+" + digits, vars) == None
  {
    PlusParses(name, digits, n, vars);
    OffsetIs(name, n, vars);
  }

  /** `NAME-n` moves it down. */
  lemma MinusForm(name: string, digits: string, n: nat, vars: Variables)
    requires PlainName(name) && Reads(digits, n)
    ensures if name in vars && n <= 0x7FFF_FFFF
            then ValueMoved(AsBytes(vars[name]), -(n as int), ParseVariableExpr(name + "-" + digits, vars))
            else ParseVariableExpr(name + "-" + digits, vars) == None
  {
    MinusParses(name, digits, n, vars);
    OffsetIs(name, -(n as int), vars);
  }

  /** `NAME.i` is octet `i` of the variable, and nothing if it has no such octet. */
  lemma IndexForm(name: string, index: string, i: nat, vars: Variables)
    requires PlainName(name) && Reads(index, i)
    ensures ParseVariableExpr(name + "." + index, vars)
            == if name in vars && i < |AsBytes(vars[name])| && i <= 0xFFFF_FFFF_FFFF_FFFF
               then Some([AsBytes(vars[name])[i]]) else None
  {
    DotParses(name, index, vars);
    IndexParses(name, index, i, vars);
    IndexedIs(name, index, i, 0, vars);
    if name in vars && i < |AsBytes(vars[name])| && i <= 0xFFFF_FFFF_FFFF_FFFF {
      UnmovedOctet(AsBytes(vars[name])[i], IndexedOctet(name, index, 0, vars).value);
    }
  }

  /** `NAME.i+n` and `NAME.i-n` are that octet moved up and down modulo 256, if the number is an `i16`. */
  lemma MovedIndexForms(name: string, index: string, i: nat, op: char, digits: string, n: nat, vars: Variables)
    requires PlainName(name) && Reads(index, i) && Reads(digits, n)
    requires op == '+' || op == '-'
    ensures var moved := ParseVariableExpr(name + "." + (index + [op] + digits), vars);
            if name in vars && i < |AsBytes(vars[name])| && i <= 0xFFFF_FFFF_FFFF_FFFF && n <= 0x7FFF
            then OctetMoved(AsBytes(vars[name])[i], if op == '+' then n else -(n as int), moved)
            else moved == None
  {
    DotParses(name, index + [op] + digits, vars);
    MovedIndexParses(name, index, i, op, digits, n, vars);
    IndexedIs(name, index, i, if op == '+' then n else -(n as int), vars);
  }

  lemma BelowModulo(x: int, y: int)
    requires 0 <= x < 256 && y == (x + 0) % 256
    ensures x == y
  {
  }

  lemma UnmovedOctet(octet: bv8, moved: seq<bv8>)
    requires |moved| == 1 && moved[0] as int == (octet as int + 0) % 256
    ensures moved == [octet]
  {
    OctetBound(octet);
    BelowModulo(octet as int, moved[0] as int);
    SameIntSameOctet(moved[0], octet);
  }

  // ---------------------------------------------------------------------
  // Tokens and templates
  // ---------------------------------------------------------------------

  lemma OctetOf(n: nat)
    requires n < 256
    ensures Octet(n) as int == n
  {
    OctetAsInt(n);
  }

  lemma HexOctet(token: string, n: nat, vars: Variables)
    requires token != "" && token[0] != '#' && token != "??" && !(|token| == 2 && '?' in token)
    requires ParseUnsigned(token, 16, 255) == Some(n)
    ensures TokenOctets(token, vars) == Some([Octet(n)])
    ensures TokenPattern(token, vars) == Some(Pattern([Octet(n)], [0xFF]))
  {
    assert ParseOctet(token) == Some(Octet(n));
  }

  /** Two hexadecimal digits are one octet, compared in full, and so is one digit. */
  lemma LiteralTokens(high: char, low: char, h: nat, l: nat, vars: Variables)
    requires DigitValue(high, 16) == Some(h) && DigitValue(low, 16) == Some(l)
    ensures TokenOctets([high, low], vars) == Some([Octet(16 * h + l)]) && Octet(16 * h + l) as int == 16 * h + l
    ensures TokenPattern([high, low], vars) == Some(Pattern([Octet(16 * h + l)], [0xFF]))
    ensures TokenOctets([low], vars) == Some([Octet(l)]) && Octet(l) as int == l
    ensures TokenPattern([low], vars) == Some(Pattern([Octet(l)], [0xFF]))
  {
    TwoHexDigits(high, low, h, l);
    OneDigit(low);
    DigitBounds(high, h);
    DigitBounds(low, l);
    OctetOf(16 * h + l);
    OctetOf(l);
    HexOctet([high, low], 16 * h + l, vars);
    HexOctet([low], l, vars);
  }

  /** Two question marks are a zero octet of a telegram that no matcher looks at; one question
      mark beside a digit is no octet of a telegram. */
  lemma WildTokens(digit: char, d: nat, vars: Variables)
    requires DigitValue(digit, 16) == Some(d)
    ensures TokenOctets("??", vars) == Some([0]) && TokenPattern("??", vars) == Some(Pattern([0], [0]))
    ensures TokenOctets(['?', digit], vars) == None && TokenOctets([digit, '?'], vars) == None
  {
    DigitBounds(digit, d);
    assert '?' in ['?', digit] && '?' in [digit, '?'] && '?' in "??";
    NoDigitQuestion(['?', digit]);
    NoDigitQuestion([digit, '?']);
    assert ['?', digit] != "??" by { assert ['?', digit][1] != '?'; }
    assert [digit, '?'] != "??" by { assert [digit, '?'][0] != '?'; }
  }

  lemma DigitBounds(c: char, v: nat)
    requires DigitValue(c, 16) == Some(v)
    ensures v < 16 && c != '#' && c != '?' && c != '+'
  {
  }

  /** Behind a question mark a digit is the low half of the octet, before one the high half;
      only that half is compared. */
  lemma NibbleTokens(digit: char, d: nat, vars: Variables)
    requires DigitValue(digit, 16) == Some(d)
    ensures TokenPattern(['?', digit], vars) == Some(Pattern([Octet(d)], [0x0F]))
    ensures TokenPattern([digit, '?'], vars) == Some(Pattern([Octet(d) << 4], [0xF0]))
    ensures ParseUnsigned([digit], 16, 255) == Some(d)
  {
    DigitBounds(digit, d);
    OneDigit(digit);
    assert ['?', digit][1..] == [digit] && [digit, '?'][..1] == [digit];
    assert '?' in ['?', digit] && '?' in [digit, '?'];
  }

  /** So an octet meets such a pattern exactly when that half of it is the digit. */
  lemma NibbleMeans(d: nat, octet: bv8)
    requires d < 16
    ensures octet & 0x0F == Octet(d) & 0x0F <==> octet & 0x0F == Octet(d)
    ensures octet & 0xF0 == (Octet(d) << 4) & 0xF0 <==> octet >> 4 == Octet(d)
    ensures Octet(d) as int == d
  {
    DigitMasks(octet, d);
    OctetOf(d);
  }

  /** A variable in a template contributes its octets, and a matcher compares all of each. */
  lemma VariableTokens(expr: string, vars: Variables)
    ensures TokenOctets("#" + expr, vars) == ParseVariableExpr(expr, vars)
    ensures var bytes := ParseVariableExpr(expr, vars);
            TokenPattern("#" + expr, vars)
            == if bytes.Some? then Some(Pattern(bytes.value, seq(|bytes.value|, i => 0xFF))) else None
  {
    assert ("#" + expr)[1..] == expr;
  }

  /** Two patterns side by side. */
  function Beside(a: Option<Pattern>, b: Option<Pattern>): Option<Pattern> {
    if a.Some? && b.Some? then Some(Pattern(a.value.expected + b.value.expected, a.value.masks + b.value.masks))
    else None
  }

  lemma BesidesAssociate(a: Option<Pattern>, b: Option<Pattern>, c: Option<Pattern>)
    ensures Beside(Beside(a, b), c) == Beside(a, Beside(b, c))
  {
    if a.Some? && b.Some? && c.Some? {
      var x, y, z := a.value, b.value, c.value;
      assert x.expected + y.expected + z.expected == x.expected + (y.expected + z.expected);
      assert x.masks + y.masks + z.masks == x.masks + (y.masks + z.masks);
    }
  }

  lemma EmptyBeside(a: Option<seq<bv8>>, p: Option<Pattern>)
    ensures Joined(Some([]), a) == a && Beside(p, Some(Pattern([], []))) == p
    ensures Beside(Some(Pattern([], [])), p) == p
  {
    if a.Some? {
      assert [] + a.value == a.value;
    }
    if p.Some? {
      assert p.value.expected + [] == p.value.expected == [] + p.value.expected;
      assert p.value.masks + [] == p.value.masks == [] + p.value.masks;
    }
  }

  lemma {:induction false} PatternsConcat(a: seq<string>, b: seq<string>, vars: Variables)
    ensures TokensPattern(a + b, vars) == Beside(TokensPattern(a, vars), TokensPattern(b, vars))
  {
    if b == [] {
      assert a + b == a;
      EmptyBeside(None, TokensPattern(a, vars));
    } else {
      var init, last := DropLast(b), Last(b);
      assert DropLast(a + b) == a + init && Last(a + b) == last;
      PatternsConcat(a, init, vars);
      BesidesAssociate(TokensPattern(a, vars), TokensPattern(init, vars), TokenPattern(last, vars));
    }
  }

  /** A template split anywhere at white space gives the octets of its two halves in their order, and
      the halves of a matcher stand side by side; an unreadable half spoils the whole. */
  lemma TemplateConcat(a: string, space: char, b: string, vars: Variables)
    requires IsSpace(space)
    ensures var before, after := TelegramOctets(a, vars), TelegramOctets(b, vars);
            TelegramOctets(a + [space] + b, vars)
            == if before.Some? && after.Some? then Some(before.value + after.value) else None
    ensures var before, after := TokensPattern(SplitWhitespace(a), vars), TokensPattern(SplitWhitespace(b), vars);
            TokensPattern(SplitWhitespace(a + [space] + b), vars)
            == if before.Some? && after.Some?
               then Some(Pattern(before.value.expected + after.value.expected, before.value.masks + after.value.masks))
               else None
  {
    SplitAtSpace(a, space, b);
    Frame.OctetsConcat(SplitWhitespace(a), SplitWhitespace(b), vars);
    PatternsConcat(SplitWhitespace(a), SplitWhitespace(b), vars);
  }

  /** A template of one token is that token, and an empty one is empty. */
  lemma SingleToken(token: string, vars: Variables)
    requires IsWord(token)
    ensures TelegramOctets(token, vars) == TokenOctets(token, vars) && TelegramOctets("", vars) == Some([])
    ensures TokensPattern(SplitWhitespace(token), vars) == TokenPattern(token, vars)
  {
    WordAlone(token);
    assert DropLast([token]) == [] && TokensOctets([], vars) == Some([]);
    assert TokensPattern([], vars) == Some(Pattern([], []));
    EmptyBeside(TokenOctets(token, vars), TokenPattern(token, vars));
  }
}
