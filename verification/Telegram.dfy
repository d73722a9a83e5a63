/** Telegram templates and their two parsers (conformance/src/telegram.rs). */
module Telegram {
  import opened Wrappers
  import opened Text
  import opened Octets

  datatype TestVariable =
    | IndividualAddr(high: bv8, low: bv8)
    | GroupAddr(high: bv8, low: bv8)
    | Bytes(data: seq<bv8>)

  type Variables = map<string, TestVariable>

  function AsBytes(v: TestVariable): seq<bv8> {
    match v
    case IndividualAddr(high, low) => [high, low]
    case GroupAddr(high, low) => [high, low]
    case Bytes(data) => data
  }

  const I16_MAX: nat := 0x7FFF
  const I32_MAX: nat := 0x7FFF_FFFF
  const USIZE_MAX: nat := 0xFFFF_FFFF_FFFF_FFFF

  // ---------------------------------------------------------------------
  // Variable expressions
  // ---------------------------------------------------------------------

  /** One octet of a variable, moved by an offset modulo 256. */
  function IndexedOctet(name: string, index: string, offset: int, vars: Variables): Option<seq<bv8>> {
    match ParseUnsigned(index, 10, USIZE_MAX)
    case None => None
    case Some(i) =>
      if name in vars && i < |AsBytes(vars[name])| then Some([Octet(AsBytes(vars[name])[i] as int + offset)])
      else None
  }

  /** A one- or two-octet variable moved by an offset, in its own width. */
  function OffsetValue(name: string, offset: int, vars: Variables): Option<seq<bv8>> {
    if name !in vars then None
    else
      var bytes := AsBytes(vars[name]);
      if |bytes| == 2 then
        var value := (bytes[0] as int * 256 + bytes[1] as int + offset) % 0x1_0000;
        Some([Octet(value / 256), Octet(value)])
      else if |bytes| == 1 then Some([Octet(bytes[0] as int + offset)])
      else None
  }

  function ParseIndexed(name: string, index: string, vars: Variables): Option<seq<bv8>> {
    match Find(index, "+-")
    case None => IndexedOctet(name, index, 0, vars)
    case Some(op) =>
      FindFirst(index, "+-");
      match ParseSigned(index[op + 1..], I16_MAX)
      case None => None
      case Some(n) => IndexedOctet(name, index[..op], if index[op] == '-' then -n else n, vars)
  }

  function ParseVariableExpr(expr: string, vars: Variables): Option<seq<bv8>> {
    FindFirst(expr, ".");
    FindFirst(expr, "+");
    FindFirst(expr, "-");
    match Find(expr, ".")
    case Some(dot) => ParseIndexed(expr[..dot], expr[dot + 1..], vars)
    case None =>
      match Find(expr, "+")
      case Some(plus) =>
        (match ParseSigned(expr[plus + 1..], I32_MAX)
         case None => None
         case Some(n) => OffsetValue(expr[..plus], n, vars))
      case None =>
        match Find(expr, "-")
        case Some(minus) =>
          (match ParseSigned(expr[minus + 1..], I32_MAX)
           case None => None
           case Some(n) => OffsetValue(expr[..minus], -n, vars))
        case None => if expr in vars then Some(AsBytes(vars[expr])) else None
  }

  lemma ShiftedEqual(x: int, offset: int)
    ensures (x + offset) % 256 == (x + 0) % 256 <==> offset % 256 == 0
  {
  }

  lemma SinglesEqual(a: bv8, b: bv8)
    ensures [a] == [b] <==> a == b
  {
    assert [a] == [b] ==> [a][0] == [b][0];
  }

  lemma MovedEqual(octet: int, offset: int, moved: Option<seq<bv8>>, still: Option<seq<bv8>>)
    requires moved == Some([Octet(octet + offset)]) && still == Some([Octet(octet + 0)])
    ensures moved == still <==> offset % 256 == 0
  {
    OctetsEqual(octet + offset, octet + 0);
    ShiftedEqual(octet, offset);
    SinglesEqual(Octet(octet + offset), Octet(octet + 0));
  }

  /** An indexed octet moved by an offset is the real one only if the offset is a multiple
      of 256: a template that moves it by less gets an octet that provably differs. */
  lemma MovedOctetDiffers(name: string, index: string, offset: int, vars: Variables)
    requires name in vars && IndexedOctet(name, index, offset, vars).Some?
    ensures IndexedOctet(name, index, 0, vars).Some?
    ensures IndexedOctet(name, index, offset, vars) == IndexedOctet(name, index, 0, vars) <==> offset % 256 == 0
  {
    var octet := AsBytes(vars[name])[ParseUnsigned(index, 10, USIZE_MAX).value] as int;
    MovedEqual(octet, offset, IndexedOctet(name, index, offset, vars), IndexedOctet(name, index, 0, vars));
  }

  /** The value of a variable, most significant octet first. */
  function BigEndian(bytes: seq<bv8>): nat {
    if bytes == [] then 0 else BigEndian(DropLast(bytes)) * 256 + (Last(bytes) as nat)
  }

  lemma BigEndianTwo(high: bv8, low: bv8)
    ensures BigEndian([high, low]) == high as nat * 256 + low as nat
  {
    assert DropLast([high, low]) == [high];
    BigEndianOne(high);
  }

  lemma BigEndianOne(octet: bv8)
    ensures BigEndian([octet]) == octet as nat
  {
    assert DropLast([octet]) == [];
  }

  lemma SplitNumber(value: nat)
    requires value < 0x1_0000
    ensures value / 256 % 256 * 256 + value % 256 == value
  {
  }

  lemma SplitValue(value: nat)
    requires value < 0x1_0000
    ensures BigEndian([Octet(value / 256), Octet(value)]) == value
  {
    BigEndianTwo(Octet(value / 256), Octet(value));
    OctetAsInt(value / 256);
    OctetAsInt(value);
    SplitNumber(value);
  }

  /** 256 to the power of the number of octets a width can have here. */
  function Modulus(width: nat): nat {
    if width == 1 then 256 else 0x1_0000
  }

  lemma TwoOctetsValue(a: seq<bv8>)
    requires |a| == 2
    ensures BigEndian(a) == a[0] as nat * 256 + a[1] as nat && a[1] as nat < 256
  {
    assert a == [a[0], a[1]];
    BigEndianTwo(a[0], a[1]);
    OctetBound(a[1]);
  }

  lemma SameModulo(a: int, b: int)
    requires a == b
    ensures a % 0x1_0000 == b % 0x1_0000
  {
  }

  lemma TwoSum(bytes: seq<bv8>, offset: int)
    requires |bytes| == 2
    ensures (bytes[0] as int * 256 + bytes[1] as int + offset) % 0x1_0000 == (BigEndian(bytes) + offset) % 0x1_0000
  {
    TwoOctetsValue(bytes);
    SameModulo(bytes[0] as int * 256 + bytes[1] as int + offset, BigEndian(bytes) + offset);
  }

  lemma TwoMove(bytes: seq<bv8>, offset: int, moved: seq<bv8>)
    requires |bytes| == 2
    requires var value := (bytes[0] as int * 256 + bytes[1] as int + offset) % 0x1_0000;
             moved == [Octet(value / 256), Octet(value)]
    ensures |moved| == 2 && BigEndian(moved) == (BigEndian(bytes) + offset) % 0x1_0000
  {
    TwoSum(bytes, offset);
    SplitValue((bytes[0] as int * 256 + bytes[1] as int + offset) % 0x1_0000);
  }

  lemma OneOctetValue(a: seq<bv8>)
    requires |a| == 1
    ensures BigEndian(a) == a[0] as nat
  {
    assert a == [a[0]];
    BigEndianOne(a[0]);
  }

  lemma LowOctetValue(x: int)
    ensures BigEndian([Octet(x)]) == x % 256
  {
    BigEndianOne(Octet(x));
    OctetAsInt(x);
  }

  lemma OneSum(bytes: seq<bv8>, offset: int)
    requires |bytes| == 1
    ensures (bytes[0] as int + offset) % 256 == (BigEndian(bytes) + offset) % 256
  {
    OneOctetValue(bytes);
  }

  lemma OneMoves(bytes: seq<bv8>, offset: int, moved: seq<bv8>)
    requires |bytes| == 1 && moved == [Octet(bytes[0] as int + offset)]
    ensures |moved| == 1 && BigEndian(moved) == (BigEndian(bytes) + offset) % 256
  {
    OneSum(bytes, offset);
    LowOctetValue(bytes[0] as int + offset);
  }

  lemma TwoOctetsMove(name: string, offset: int, vars: Variables)
    requires name in vars && |AsBytes(vars[name])| == 2
    ensures var moved := OffsetValue(name, offset, vars);
            && moved.Some? && |moved.value| == 2
            && BigEndian(moved.value) == (BigEndian(AsBytes(vars[name])) + offset) % 0x1_0000
  {
    TwoMove(AsBytes(vars[name]), offset, OffsetValue(name, offset, vars).value);
  }

  lemma OneOctetMoves(name: string, offset: int, vars: Variables)
    requires name in vars && |AsBytes(vars[name])| == 1
    ensures var moved := OffsetValue(name, offset, vars);
            && moved.Some? && |moved.value| == 1
            && BigEndian(moved.value) == (BigEndian(AsBytes(vars[name])) + offset) % 256
  {
    OneMoves(AsBytes(vars[name]), offset, OffsetValue(name, offset, vars).value);
  }

  /** A variable keeps its width under an offset, and its value moves modulo that width. */
  lemma OffsetMovesValue(name: string, offset: int, vars: Variables)
    requires name in vars && OffsetValue(name, offset, vars).Some?
    ensures var bytes, moved := AsBytes(vars[name]), OffsetValue(name, offset, vars).value;
            && (|bytes| == 1 || |bytes| == 2) && |moved| == |bytes|
            && BigEndian(moved) == (BigEndian(bytes) + offset) % Modulus(|bytes|)
  {
    if |AsBytes(vars[name])| == 2 {
      TwoOctetsMove(name, offset, vars);
    } else {
      OneOctetMoves(name, offset, vars);
    }
  }

  lemma TwoDigits(a: nat, b: nat, c: nat, d: nat)
    requires b < 256 && d < 256 && a * 256 + b == c * 256 + d
    ensures a == c && b == d
  {
  }

  lemma TwoDetermine(a: seq<bv8>, b: seq<bv8>)
    requires |a| == |b| == 2 && BigEndian(a) == BigEndian(b)
    ensures a[0] as nat == b[0] as nat && a[1] as nat == b[1] as nat
  {
    TwoOctetsValue(a);
    TwoOctetsValue(b);
    TwoDigits(a[0] as nat, a[1] as nat, b[0] as nat, b[1] as nat);
  }

  lemma OneDetermines(a: seq<bv8>, b: seq<bv8>)
    requires |a| == |b| == 1 && BigEndian(a) == BigEndian(b)
    ensures a[0] as nat == b[0] as nat
  {
    OneOctetValue(a);
    OneOctetValue(b);
  }

  lemma ValueDetermines(a: seq<bv8>, b: seq<bv8>)
    requires |a| == |b| && (|a| == 1 || |a| == 2) && BigEndian(a) == BigEndian(b)
    ensures a == b
  {
    if |a| == 2 {
      TwoDetermine(a, b);
      SameIntSameOctet(a[1], b[1]);
    } else {
      OneDetermines(a, b);
    }
    SameIntSameOctet(a[0], b[0]);
  }

  lemma MoveBack(value: nat, offset: int, width: nat)
    requires (width == 1 || width == 2) && value < Modulus(width)
    ensures ((value + offset) % Modulus(width) - offset) % Modulus(width) == value
  {
  }

  lemma ValueInRange(bytes: seq<bv8>)
    requires |bytes| == 1 || |bytes| == 2
    ensures BigEndian(bytes) < Modulus(|bytes|)
  {
    if |bytes| == 2 {
      assert bytes == [bytes[0], bytes[1]];
      BigEndianTwo(bytes[0], bytes[1]);
    } else {
      assert bytes == [bytes[0]];
      BigEndianOne(bytes[0]);
    }
  }

  lemma MovedBack(bytes: seq<bv8>, moved: seq<bv8>, back: seq<bv8>, offset: int)
    requires (|bytes| == 1 || |bytes| == 2) && |bytes| == |moved| == |back|
    requires BigEndian(moved) == (BigEndian(bytes) + offset) % Modulus(|bytes|)
    requires BigEndian(back) == (BigEndian(moved) + -offset) % Modulus(|bytes|)
    ensures back == bytes
  {
    ValueInRange(bytes);
    MoveBack(BigEndian(bytes), offset, |bytes|);
    ValueDetermines(back, bytes);
  }

  /** Adding an offset and taking it off again gives the variable back, wrap-around included. */
  lemma OffsetRoundTrip(name: string, offset: int, vars: Variables, after: Variables)
    requires name in vars && OffsetValue(name, offset, vars).Some?
    requires name in after && AsBytes(after[name]) == OffsetValue(name, offset, vars).value
    ensures OffsetValue(name, -offset, after) == Some(AsBytes(vars[name]))
  {
    OffsetMovesValue(name, offset, vars);
    OffsetMovesValue(name, -offset, after);
    MovedBack(AsBytes(vars[name]), AsBytes(after[name]), OffsetValue(name, -offset, after).value, offset);
  }

  // ---------------------------------------------------------------------
  // Telegrams
  // ---------------------------------------------------------------------

  function ParseOctet(token: string): Option<bv8> {
    match ParseUnsigned(token, 16, 255)
    case Some(n) => Some(Octet(n))
    case None => None
  }

  predicate IsVariable(token: string) {
    token != [] && token[0] == '#'
  }

  /** The octets one token contributes to a telegram. */
  function TokenOctets(token: string, vars: Variables): Option<seq<bv8>> {
    if IsVariable(token) then ParseVariableExpr(token[1..], vars)
    else if token == "??" then Some([0])
    else match ParseOctet(token)
      case Some(b) => Some([b])
      case None => None
  }

  function Joined(init: Option<seq<bv8>>, last: Option<seq<bv8>>): Option<seq<bv8>> {
    if init.Some? && last.Some? then Some(init.value + last.value) else None
  }

  function TokensOctets(tokens: seq<string>, vars: Variables): Option<seq<bv8>> {
    if tokens == [] then Some([])
    else Joined(TokensOctets(DropLast(tokens), vars), TokenOctets(Last(tokens), vars))
  }

  function TelegramOctets(input: string, vars: Variables): Option<seq<bv8>> {
    TokensOctets(SplitWhitespace(input), vars)
  }

  lemma {:induction false} BadTokenSpoils(tokens: seq<string>, vars: Variables, k: nat)
    requires k < |tokens| && TokenOctets(tokens[k], vars).None?
    ensures TokensOctets(tokens, vars).None?
  {
    if k < |tokens| - 1 {
      BadTokenSpoils(DropLast(tokens), vars, k);
    }
  }

  method ParseTelegram(input: string, vars: Variables) returns (r: Option<seq<bv8>>)
    ensures r == TelegramOctets(input, vars)
  {
    var data := [];
    var tokens := SplitWhitespace(input);
    for k := 0 to |tokens|
      invariant TokensOctets(tokens[..k], vars) == Some(data)
    {
      var token := tokens[k];
      assert DropLast(tokens[..k + 1]) == tokens[..k];
      if IsVariable(token) {
        var bytes := ParseVariableExpr(token[1..], vars);
        if bytes.None? {
          BadTokenSpoils(tokens, vars, k);
          return None;
        }
        data := data + bytes.value;
      } else if token == "??" {
        data := data + [0];
      } else {
        var octet := ParseOctet(token);
        if octet.None? {
          BadTokenSpoils(tokens, vars, k);
          return None;
        }
        data := data + [octet.value];
      }
    }
    assert tokens[..|tokens|] == tokens;
    return Some(data);
  }

  // ---------------------------------------------------------------------
  // Matchers
  // ---------------------------------------------------------------------

  datatype TelegramMatcher = TelegramMatcher(expected: seq<bv8>, masks: seq<bv8>, wildcards: seq<bool>)

  /** What every constructor of a matcher establishes. */
  predicate Built(m: TelegramMatcher) {
    && |m.expected| == |m.masks| == |m.wildcards|
    && forall i :: 0 <= i < |m.masks| ==> m.wildcards[i] == (m.masks[i] == 0)
  }

  function Exact(data: seq<bv8>): (m: TelegramMatcher)
    ensures Built(m)
  {
    TelegramMatcher(data, seq(|data|, i => 0xFF), seq(|data|, i => false))
  }

  /** Expected octets and masks, side by side. */
  datatype Pattern = Pattern(expected: seq<bv8>, masks: seq<bv8>)

  function NibblePattern(token: string): Option<Pattern>
    requires |token| == 2
  {
    if token == "??" then Some(Pattern([0], [0]))
    else if token[0] == '?' then
      match ParseUnsigned(token[1..], 16, 255)
      case Some(low) => Some(Pattern([Octet(low)], [0x0F]))
      case None => None
    else
      match ParseUnsigned(token[..1], 16, 255)
      case Some(high) => Some(Pattern([Octet(high) << 4], [0xF0]))
      case None => None
  }

  function TokenPattern(token: string, vars: Variables): Option<Pattern> {
    if IsVariable(token) then
      match ParseVariableExpr(token[1..], vars)
      case Some(bytes) => Some(Pattern(bytes, seq(|bytes|, i => 0xFF)))
      case None => None
    else if |token| == 2 && '?' in token then NibblePattern(token)
    else match ParseOctet(token)
      case Some(b) => Some(Pattern([b], [0xFF]))
      case None => None
  }

  /** The digit a token with one wild nibble gives for the other. */
  function FixedNibble(token: string): Option<nat>
    requires |token| == 2
  {
    DigitValue(if token[0] == '?' then token[1] else token[0], 16)
  }

  lemma NibblePatternIs(token: string)
    requires |token| == 2 && token != "??" && NibblePattern(token).Some?
    ensures FixedNibble(token).Some? && FixedNibble(token).value < 16
    ensures NibblePattern(token).value
            == if token[0] == '?' then Pattern([Octet(FixedNibble(token).value)], [0x0F])
               else Pattern([Octet(FixedNibble(token).value) << 4], [0xF0])
  {
    assert token[1..] == [token[1]] && token[..1] == [token[0]];
    OneDigit(token[1]);
    OneDigit(token[0]);
  }

  lemma DigitMasks(octet: bv8, digit: nat)
    requires digit < 16
    ensures octet & 0x0F == Octet(digit) & 0x0F <==> octet & 0x0F == Octet(digit)
    ensures octet & 0xF0 == (Octet(digit) << 4) & 0xF0 <==> octet >> 4 == Octet(digit)
  {
    OctetAsInt(digit);
    SmallFitsNibble(Octet(digit));
    NibbleMasks(octet, Octet(digit));
  }

  /** Such a token compares exactly that nibble with its digit. */
  lemma NibbleAccepts(token: string, octet: bv8)
    requires |token| == 2 && token != "??" && NibblePattern(token).Some?
    ensures FixedNibble(token).Some? && |NibblePattern(token).value.expected| == |NibblePattern(token).value.masks| == 1
    ensures var p := NibblePattern(token).value;
            octet & p.masks[0] == p.expected[0] & p.masks[0]
            <==> (if token[0] == '?' then octet & 0x0F else octet >> 4) == Octet(FixedNibble(token).value)
  {
    NibblePatternIs(token);
    DigitMasks(octet, FixedNibble(token).value);
  }

  function TokensPattern(tokens: seq<string>, vars: Variables): Option<Pattern> {
    if tokens == [] then Some(Pattern([], []))
    else
      var init, last := TokensPattern(DropLast(tokens), vars), TokenPattern(Last(tokens), vars);
      if init.Some? && last.Some? then
        Some(Pattern(init.value.expected + last.value.expected, init.value.masks + last.value.masks))
      else None
  }

  lemma {:induction false} BadTokenSpoilsPattern(tokens: seq<string>, vars: Variables, k: nat)
    requires k < |tokens| && TokenPattern(tokens[k], vars).None?
    ensures TokensPattern(tokens, vars).None?
  {
    if k < |tokens| - 1 {
      BadTokenSpoilsPattern(DropLast(tokens), vars, k);
    }
  }

  function Wildcards(masks: seq<bv8>): seq<bool> {
    seq(|masks|, i requires 0 <= i < |masks| => masks[i] == 0)
  }

  function MatcherOf(p: Pattern): TelegramMatcher {
    TelegramMatcher(p.expected, p.masks, Wildcards(p.masks))
  }

  lemma PatternSnoc(tokens: seq<string>, vars: Variables, k: nat)
    requires k < |tokens| && TokensPattern(tokens[..k], vars).Some? && TokenPattern(tokens[k], vars).Some?
    ensures var before, p := TokensPattern(tokens[..k], vars).value, TokenPattern(tokens[k], vars).value;
            && TokensPattern(tokens[..k + 1], vars)
               == Some(Pattern(before.expected + p.expected, before.masks + p.masks))
            && |p.expected| == |p.masks|
  {
    assert DropLast(tokens[..k + 1]) == tokens[..k];
  }

  method ParseMatcher(input: string, vars: Variables) returns (r: Option<TelegramMatcher>)
    ensures match TokensPattern(SplitWhitespace(input), vars)
            case None => r == None
            case Some(p) => r == Some(MatcherOf(p)) && Built(r.value)
  {
    var expected, masks := [], [];
    var tokens := SplitWhitespace(input);
    for k := 0 to |tokens|
      invariant TokensPattern(tokens[..k], vars) == Some(Pattern(expected, masks))
      invariant |expected| == |masks|
    {
      var p := TokenPattern(tokens[k], vars);
      if p.None? {
        BadTokenSpoilsPattern(tokens, vars, k);
        return None;
      }
      PatternSnoc(tokens, vars, k);
      expected := expected + p.value.expected;
      masks := masks + p.value.masks;
    }
    assert tokens[..|tokens|] == tokens;
    return Some(TelegramMatcher(expected, masks, Wildcards(masks)));
  }

  /** The comparison mask of octet `i`: the repeat flag of the control field never counts. */
  function MaskAt(m: TelegramMatcher, i: nat): bv8
    requires i < |m.masks|
  {
    if i == 0 then m.masks[i] & 0xDF else m.masks[i]
  }

  /** Whether octet `i` of a frame counts as the expected one. */
  predicate OctetAgrees(m: TelegramMatcher, i: nat, octet: bv8)
    requires Built(m) && i < |m.masks|
  {
    octet & MaskAt(m, i) == m.expected[i] & MaskAt(m, i)
  }

  predicate Accepts(m: TelegramMatcher, actual: seq<bv8>)
    requires Built(m)
  {
    |actual| == |m.expected| && forall i :: 0 <= i < |actual| ==> OctetAgrees(m, i, actual[i])
  }

  /** A frame is accepted when its length is right and each octet is the expected one as far as
      its mask goes; bit 5 of the first octet never counts. */
  lemma AcceptsUnderMasks(m: TelegramMatcher, actual: seq<bv8>)
    requires Built(m)
    ensures Accepts(m, actual) <==>
              && |actual| == |m.expected|
              && forall i :: 0 <= i < |actual| ==>
                   var mask := if i == 0 then m.masks[i] & 0xDF else m.masks[i];
                   actual[i] & mask == m.expected[i] & mask
  {
  }

  method Matches(m: TelegramMatcher, actual: seq<bv8>) returns (ok: bool)
    requires Built(m)
    ensures ok <==> Accepts(m, actual)
    ensures ok <==>
              && |actual| == |m.expected|
              && forall i :: 0 <= i < |actual| ==>
                   var mask := if i == 0 then m.masks[i] & 0xDF else m.masks[i];
                   actual[i] & mask == m.expected[i] & mask
  {
    AcceptsUnderMasks(m, actual);
    if |actual| != |m.expected| {
      return false;
    }
    for i := 0 to |actual|
      invariant forall k :: 0 <= k < i ==> OctetAgrees(m, k, actual[k])
    {
      if !OctetAgrees(m, i, actual[i]) {
        return false;
      }
    }
    return true;
  }

  /** One octet of a printed line. */
  datatype Cell = Wild | HighNibble(b: bv8) | LowNibble(b: bv8) | Plain(b: bv8) | Bracketed(b: bv8)

  datatype DiffText = DiffText(lengthLine: bool, expected: seq<Cell>, actual: seq<Cell>)

  /** How an expected octet is shown under its mask. */
  function ExpectedCell(octet: bv8, mask: bv8): Cell {
    if mask == 0 then Wild
    else if mask == 0xF0 then HighNibble(octet >> 4)
    else if mask == 0x0F then LowNibble(octet & 0x0F)
    else Plain(octet)
  }

  method Diff(m: TelegramMatcher, actual: seq<bv8>) returns (d: DiffText)
    requires Built(m)
    ensures d.lengthLine <==> |actual| != |m.expected|
    ensures |d.expected| == |m.expected| && |d.actual| == |actual|
    ensures forall i :: 0 <= i < |m.expected| ==>
              && (m.masks[i] == 0 ==> d.expected[i] == Wild)
              && (m.masks[i] == 0xF0 ==> d.expected[i] == HighNibble(m.expected[i] >> 4))
              && (m.masks[i] == 0x0F ==> d.expected[i] == LowNibble(m.expected[i] & 0x0F))
              && (m.masks[i] !in {0, 0xF0, 0x0F} ==> d.expected[i] == Plain(m.expected[i]))
    ensures forall i :: 0 <= i < |actual| ==> d.actual[i] == Plain(actual[i]) || d.actual[i] == Bracketed(actual[i])
    ensures forall i :: 0 <= i < |actual| ==>
              (d.actual[i].Bracketed? <==>
                i < |m.masks| && !OctetAgrees(m, i, actual[i]))
    // The difference is empty exactly when the frame matches.
    ensures Accepts(m, actual) <==> !d.lengthLine && forall i :: 0 <= i < |d.actual| ==> !d.actual[i].Bracketed?
  {
    var lengthLine := |actual| != |m.expected|;
    var expected: seq<Cell>, shown: seq<Cell> := [], [];
    for i := 0 to |m.expected|
      invariant |expected| == i
      invariant forall k :: 0 <= k < i ==> expected[k] == ExpectedCell(m.expected[k], m.masks[k])
    {
      expected := expected + [ExpectedCell(m.expected[i], m.masks[i])];
    }
    for i := 0 to |actual|
      invariant |shown| == i
      invariant forall k :: 0 <= k < i ==> shown[k] == Plain(actual[k]) || shown[k] == Bracketed(actual[k])
      invariant forall k :: 0 <= k < i ==>
        (shown[k].Bracketed? <==> k < |m.masks| && !OctetAgrees(m, k, actual[k]))
    {
      var b := actual[i];
      if i < |m.masks| && MaskAt(m, i) != 0 && !OctetAgrees(m, i, b) {
        shown := shown + [Bracketed(b)];
      } else {
        shown := shown + [Plain(b)];
      }
    }
    return DiffText(lengthLine, expected, shown);
  }

  // ---------------------------------------------------------------------
  // The two parsers agree
  // ---------------------------------------------------------------------

  function TokenMasks(token: string, vars: Variables): seq<bv8> {
    if token == "??" then [0]
    else match TokenOctets(token, vars)
      case Some(bytes) => seq(|bytes|, i => 0xFF)
      case None => []
  }

  /** The mask a telegram template stands for: zero exactly at its wildcards. */
  function WildMasks(tokens: seq<string>, vars: Variables): seq<bv8> {
    if tokens == [] then [] else WildMasks(DropLast(tokens), vars) + TokenMasks(Last(tokens), vars)
  }

  lemma NoDigitQuestion(token: string)
    requires '?' in token && |token| == 2
    ensures ParseOctet(token).None?
  {
    var digits := if token[0] == '+' then token[1..] else token;
    var k :| 0 <= k < |digits| && digits[k] == '?';
    NonDigitSpoils(digits, 16, k);
  }

  lemma TokenAgrees(token: string, vars: Variables)
    requires TokenOctets(token, vars).Some?
    ensures TokenPattern(token, vars) == Some(Pattern(TokenOctets(token, vars).value, TokenMasks(token, vars)))
    ensures |TokenMasks(token, vars)| == |TokenOctets(token, vars).value|
  {
    if !IsVariable(token) && token != "??" {
      if |token| == 2 && '?' in token {
        NoDigitQuestion(token);
      } else {
        assert TokenMasks(token, vars) == [0xFF];
      }
    }
  }

  lemma {:induction false} ParsersAgree(tokens: seq<string>, vars: Variables)
    requires TokensOctets(tokens, vars).Some?
    ensures TokensPattern(tokens, vars)
            == Some(Pattern(TokensOctets(tokens, vars).value, WildMasks(tokens, vars)))
    ensures |WildMasks(tokens, vars)| == |TokensOctets(tokens, vars).value|
  {
    if tokens != [] {
      ParsersAgree(DropLast(tokens), vars);
      TokenAgrees(Last(tokens), vars);
    }
  }

  predicate FullOrEmpty(mask: bv8) {
    mask == 0 || mask == 0xFF
  }

  lemma {:induction false} WildMasksAreFullOrEmpty(tokens: seq<string>, vars: Variables)
    ensures forall i :: 0 <= i < |WildMasks(tokens, vars)| ==> FullOrEmpty(WildMasks(tokens, vars)[i])
  {
    if tokens != [] {
      WildMasksAreFullOrEmpty(DropLast(tokens), vars);
    }
  }

  /** Equal except in the repeat flag, bit 5. */
  predicate SameButRepeat(a: bv8, b: bv8) {
    a & 0xDF == b & 0xDF
  }

  /** What a template demands of octet `i`: nothing at a wildcard, the octet
      itself elsewhere, the repeat flag of the control octet aside. */
  predicate Demands(wild: bool, i: nat, expected: bv8, octet: bv8) {
    wild || (if i == 0 then SameButRepeat(octet, expected) else octet == expected)
  }

  lemma MaskEffect(m: TelegramMatcher, i: nat, octet: bv8)
    requires Built(m) && i < |m.masks| && FullOrEmpty(m.masks[i])
    ensures OctetAgrees(m, i, octet) <==> Demands(m.masks[i] == 0, i, m.expected[i], octet)
  {
  }

  lemma FullMasksDemand(m: TelegramMatcher, frame: seq<bv8>)
    requires Built(m) && |frame| == |m.expected|
    requires forall i :: 0 <= i < |m.masks| ==> FullOrEmpty(m.masks[i])
    ensures Accepts(m, frame)
            <==> forall i :: 0 <= i < |frame| ==> Demands(m.masks[i] == 0, i, m.expected[i], frame[i])
  {
    forall i | 0 <= i < |frame|
      ensures OctetAgrees(m, i, frame[i]) <==> Demands(m.masks[i] == 0, i, m.expected[i], frame[i])
    {
      MaskEffect(m, i, frame[i]);
    }
  }

  /** A matcher made from raw octets accepts them alone, give or take the repeat flag. */
  lemma ExactAccepts(data: seq<bv8>, frame: seq<bv8>)
    ensures Accepts(Exact(data), frame)
            <==> |frame| == |data| && forall i :: 0 <= i < |frame| ==> Demands(false, i, data[i], frame[i])
  {
    if |frame| == |data| {
      FullMasksDemand(Exact(data), frame);
    }
  }

  /** Every telegram template is also a matcher template with the same octets,
      and accepts exactly the frames of its length that agree with them outside
      the wildcards, give or take the repeat flag. */
  lemma TemplateMatchesItself(input: string, vars: Variables, frame: seq<bv8>)
    requires TelegramOctets(input, vars).Some?
    ensures var data := TelegramOctets(input, vars).value;
            var wild := WildMasks(SplitWhitespace(input), vars);
            && |wild| == |data|
            && TokensPattern(SplitWhitespace(input), vars) == Some(Pattern(data, wild))
            && Built(MatcherOf(Pattern(data, wild)))
            && (Accepts(MatcherOf(Pattern(data, wild)), frame) <==>
                && |frame| == |data|
                && forall i :: 0 <= i < |frame| ==> Demands(wild[i] == 0, i, data[i], frame[i]))
  {
    var tokens := SplitWhitespace(input);
    ParsersAgree(tokens, vars);
    WildMasksAreFullOrEmpty(tokens, vars);
    var m := MatcherOf(Pattern(TelegramOctets(input, vars).value, WildMasks(tokens, vars)));
    if |frame| == |m.expected| {
      FullMasksDemand(m, frame);
    }
  }
}
