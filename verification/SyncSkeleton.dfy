/**
 The header fields of a sync telegram, read out of its template text
 (conformance/src/eitt/secure.rs) at the offsets its control octet calls for
 (conformance/src/eitt/frame.rs).
 */
module SyncSkeleton {
  import opened Wrappers
  import opened Text
  import opened Telegram
  import opened Frame

  datatype Layout = Layout(npdu: nat, src: nat, dst: nat, tpci: nat)

  /** Bit 7 of the control octet clear means an extended frame. */
  function LayoutOf(ctrl: bv8): Layout {
    if ctrl & 0x80 != 0 then Layout(5, 1, 3, 6) else Layout(1, 2, 4, 7)
  }

  datatype Field = NpduField | SourceField | DestinationField | TpciField

  datatype SkeletonError =
    | NoControlOctet
    | PastTheEnd(field: Field)
    | NoHexOctet(field: Field)
    | OffBoundaries(field: Field)

  datatype Read<T> = Got(value: T) | Failed(error: SkeletonError)

  /** The fields: octets, and for each address the text that spells it. */
  datatype Skeleton = Skeleton(ctrl: bv8, npdu: bv8, src: string, dst: string, tpci: bv8)

  /** Token `k` covers `octet` and is a literal octet of that value. */
  predicate LiteralAt(tokens: seq<string>, vars: Variables, octet: nat, k: nat, value: bv8) {
    && k < |tokens| && Offset(tokens, vars, k) <= octet < Offset(tokens, vars, k + 1)
    && ParseOctet(tokens[k]) == Some(value)
  }

  predicate HasLiteral(tokens: seq<string>, vars: Variables, octet: nat, value: bv8) {
    exists k :: 0 <= k < |tokens| && LiteralAt(tokens, vars, octet, k, value)
  }

  /** The skeleton is made of the tokens at the offsets of its own layout. */
  ghost predicate IsSkeleton(tokens: seq<string>, vars: Variables, s: Skeleton) {
    var l := LayoutOf(s.ctrl);
    && tokens != [] && ParseOctet(tokens[0]) == Some(s.ctrl)
    && HasLiteral(tokens, vars, l.npdu, s.npdu) && HasLiteral(tokens, vars, l.tpci, s.tpci)
    && IsSpanText(tokens, vars, l.src, 2, s.src) && IsSpanText(tokens, vars, l.dst, 2, s.dst)
  }

  // ---------------------------------------------------------------------
  // Reading
  // ---------------------------------------------------------------------

  lemma {:induction false} CoveringIsUnique(tokens: seq<string>, vars: Variables, octet: nat, j: nat, k: nat)
    requires j < |tokens| && Offset(tokens, vars, j) <= octet < Offset(tokens, vars, j + 1)
    requires k < |tokens| && Offset(tokens, vars, k) <= octet < Offset(tokens, vars, k + 1)
    ensures j == k
  {
    if j < k {
      OffsetMonotone(tokens, vars, j + 1, k);
    } else if k < j {
      OffsetMonotone(tokens, vars, k + 1, j);
    }
  }

  /** No octet can be read there: the text is over, or what stands there is no literal octet. */
  ghost predicate NoLiteral(tokens: seq<string>, vars: Variables, octet: nat, field: Field, error: SkeletonError) {
    if octet >= Offset(tokens, vars, |tokens|) then error == PastTheEnd(field)
    else error == NoHexOctet(field) && forall value :: !HasLiteral(tokens, vars, octet, value)
  }

  method OctetAt(tokens: seq<string>, vars: Variables, octet: nat, field: Field) returns (r: Read<bv8>)
    ensures match r
            case Got(value) => HasLiteral(tokens, vars, octet, value)
            case Failed(error) => NoLiteral(tokens, vars, octet, field, error)
  {
    var at := TokenAt(tokens, vars, octet);
    if at.None? {
      return Failed(PastTheEnd(field));
    }
    var index := at.value.index;
    OffsetMonotone(tokens, vars, index + 1, |tokens|);
    match ParseOctet(tokens[index]) {
      case Some(value) =>
        assert LiteralAt(tokens, vars, octet, index, value);
        return Got(value);
      case None =>
        forall value ensures !HasLiteral(tokens, vars, octet, value) {
          forall k | 0 <= k < |tokens| && LiteralAt(tokens, vars, octet, k, value) ensures false {
            CoveringIsUnique(tokens, vars, octet, k, index);
          }
        }
        return Failed(NoHexOctet(field));
    }
  }

  method AddressAt(tokens: seq<string>, vars: Variables, octet: nat, field: Field) returns (r: Read<string>)
    ensures match r
            case Got(text) => IsSpanText(tokens, vars, octet, 2, text)
            case Failed(error) => error == OffBoundaries(field) && !HasSpan(tokens, vars, octet, 2)
  {
    var text := TokenSpan(tokens, vars, octet, 2);
    return if text.Some? then Got(text.value) else Failed(OffBoundaries(field));
  }

  /** The first thing that is wrong, in the order the fields are read. */
  ghost predicate IsFirstError(tokens: seq<string>, vars: Variables, error: SkeletonError) {
    match error
    case NoControlOctet => tokens == [] || ParseOctet(tokens[0]).None?
    case PastTheEnd(field) => ControlThen(tokens, vars, field, error)
    case NoHexOctet(field) => ControlThen(tokens, vars, field, error)
    case OffBoundaries(field) => ControlThen(tokens, vars, field, error)
  }

  /** The fields before this one can be read, and this one fails with `error`. */
  ghost predicate ControlThen(tokens: seq<string>, vars: Variables, field: Field, error: SkeletonError) {
    && tokens != [] && ParseOctet(tokens[0]).Some?
    && var l := LayoutOf(ParseOctet(tokens[0]).value);
    && (field.NpduField? || exists v :: HasLiteral(tokens, vars, l.npdu, v))
    && (field.NpduField? || field.SourceField? || HasSpan(tokens, vars, l.src, 2))
    && (field.TpciField? ==> HasSpan(tokens, vars, l.dst, 2))
    && match field
       case NpduField => NoLiteral(tokens, vars, l.npdu, field, error)
       case SourceField => error == OffBoundaries(field) && !HasSpan(tokens, vars, l.src, 2)
       case DestinationField => error == OffBoundaries(field) && !HasSpan(tokens, vars, l.dst, 2)
       case TpciField => NoLiteral(tokens, vars, l.tpci, field, error)
  }

  lemma TextHasSpan(tokens: seq<string>, vars: Variables, octet: nat, width: nat, text: string)
    requires IsSpanText(tokens, vars, octet, width, text)
    ensures HasSpan(tokens, vars, octet, width)
  {
    var first: nat, last: nat :|
      Spans(tokens, vars, octet, width, first, last) && text == Join(tokens[first..last]);
    SpansHasSpan(tokens, vars, octet, width, first, last);
  }

  /** Read the fields in order; the first that cannot be read is the error. */
  method ReadSkeleton(data: string, vars: Variables) returns (r: Read<Skeleton>)
    ensures match r
            case Got(s) => IsSkeleton(SplitWhitespace(data), vars, s)
            case Failed(error) => IsFirstError(SplitWhitespace(data), vars, error)
  {
    var tokens := SplitWhitespace(data);
    if tokens == [] || ParseOctet(tokens[0]).None? {
      return Failed(NoControlOctet);
    }
    var ctrl := ParseOctet(tokens[0]).value;
    var l := LayoutOf(ctrl);
    var npdu := OctetAt(tokens, vars, l.npdu, NpduField);
    if npdu.Failed? {
      return Failed(npdu.error);
    }
    var src := AddressAt(tokens, vars, l.src, SourceField);
    if src.Failed? {
      return Failed(src.error);
    }
    TextHasSpan(tokens, vars, l.src, 2, src.value);
    var dst := AddressAt(tokens, vars, l.dst, DestinationField);
    if dst.Failed? {
      return Failed(dst.error);
    }
    TextHasSpan(tokens, vars, l.dst, 2, dst.value);
    var tpci := OctetAt(tokens, vars, l.tpci, TpciField);
    if tpci.Failed? {
      return Failed(tpci.error);
    }
    return Got(Skeleton(ctrl, npdu.value, src.value, dst.value, tpci.value));
  }

  lemma LayoutIs(ctrl: bv8)
    ensures LayoutOf(ctrl) == if ctrl >= 0x80 then Layout(5, 1, 3, 6) else Layout(1, 2, 4, 7)
  {
  }

  ghost predicate HasOctet(tokens: seq<string>, vars: Variables, octet: nat) {
    exists value :: HasLiteral(tokens, vars, octet, value)
  }

  lemma NoneBeyond(tokens: seq<string>, vars: Variables, octet: nat, field: Field, error: SkeletonError)
    requires NoLiteral(tokens, vars, octet, field, error)
    ensures !HasOctet(tokens, vars, octet)
  {
    if octet >= Offset(tokens, vars, |tokens|) {
      forall value, k | 0 <= k < |tokens| ensures !LiteralAt(tokens, vars, octet, k, value) {
        OffsetMonotone(tokens, vars, k + 1, |tokens|);
      }
    }
  }

  /** Which field an error names: the control octet, then the NPDU, source, destination and TPCI of the layout
      it calls for, the first of them that cannot be read. */
  lemma ErrorNamesFirst(tokens: seq<string>, vars: Variables, error: SkeletonError)
    requires IsFirstError(tokens, vars, error)
    ensures error.NoControlOctet? <==> tokens == [] || ParseOctet(tokens[0]).None?
    ensures !error.NoControlOctet? ==>
              var standard := ParseOctet(tokens[0]).value >= 0x80;
              var npdu := HasOctet(tokens, vars, if standard then 5 else 1);
              var src := HasSpan(tokens, vars, if standard then 1 else 2, 2);
              var dst := HasSpan(tokens, vars, if standard then 3 else 4, 2);
              && (error.field.NpduField? <==> !npdu)
              && (error.field.SourceField? <==> npdu && !src)
              && (error.field.DestinationField? <==> npdu && src && !dst)
              && (error.field.TpciField? <==> npdu && src && dst)
              && (error.field.TpciField? ==> !HasOctet(tokens, vars, if standard then 6 else 7))
  {
    if !error.NoControlOctet? {
      var ctrl := ParseOctet(tokens[0]).value;
      var l := LayoutOf(ctrl);
      LayoutIs(ctrl);
      if error.field.NpduField? {
        NoneBeyond(tokens, vars, l.npdu, error.field, error);
      } else if error.field.TpciField? {
        NoneBeyond(tokens, vars, l.tpci, error.field, error);
      }
    }
  }

  // ---------------------------------------------------------------------
  // What was read
  // ---------------------------------------------------------------------

  lemma LiteralOctets(token: string, vars: Variables, value: bv8)
    requires ParseOctet(token) == Some(value)
    ensures !IsVariable(token) && TokenOctets(token, vars) == Some([value]) && TokenWidth(token, vars) == 1
  {
    if IsVariable(token) {
      NonDigitSpoils(token, 16, 0);
    }
    if token == "??" {
      NonDigitSpoils(token, 16, 0);
    }
  }

  lemma SliceOfOne(data: seq<bv8>, octet: nat, value: bv8)
    requires octet < |data| && data[octet..octet + 1] == [value]
    ensures data[octet] == value
  {
    assert data[octet..octet + 1][0] == value;
  }

  lemma OneToken(token: string, vars: Variables)
    requires TokenOctets(token, vars).Some?
    ensures TokensOctets([token], vars) == TokenOctets(token, vars)
  {
    assert DropLast([token]) == [] && [] + TokenOctets(token, vars).value == TokenOctets(token, vars).value;
  }

  /** A literal token is as wide as its octet. */
  lemma LiteralStands(tokens: seq<string>, vars: Variables, octet: nat, k: nat, value: bv8)
    requires LiteralAt(tokens, vars, octet, k, value)
    ensures Offset(tokens, vars, k) == octet && Offset(tokens, vars, k + 1) == octet + 1
    ensures TokensOctets(tokens[k..k + 1], vars) == Some([value])
  {
    LiteralOctets(tokens[k], vars, value);
    OneToken(tokens[k], vars);
    assert tokens[k..k + 1] == [tokens[k]];
  }

  lemma LiteralSlice(tokens: seq<string>, vars: Variables, octet: nat, k: nat, value: bv8)
    requires WidthsExact(vars) && TokensOctets(tokens, vars).Some? && LiteralAt(tokens, vars, octet, k, value)
    ensures octet < |TokensOctets(tokens, vars).value|
    ensures TokensOctets(tokens, vars).value[octet..octet + 1] == [value]
  {
    LiteralStands(tokens, vars, octet, k, value);
    SliceOctets(tokens, vars, k, k + 1);
  }

  /** A literal octet is the octet of the whole parse at its offset. */
  lemma LiteralReads(tokens: seq<string>, vars: Variables, octet: nat, value: bv8)
    requires WidthsExact(vars) && TokensOctets(tokens, vars).Some? && HasLiteral(tokens, vars, octet, value)
    ensures octet < |TokensOctets(tokens, vars).value| && TokensOctets(tokens, vars).value[octet] == value
  {
    var k :| 0 <= k < |tokens| && LiteralAt(tokens, vars, octet, k, value);
    LiteralSlice(tokens, vars, octet, k, value);
    SliceOfOne(TokensOctets(tokens, vars).value, octet, value);
  }

  lemma ControlReads(tokens: seq<string>, vars: Variables, ctrl: bv8)
    requires tokens != [] && ParseOctet(tokens[0]) == Some(ctrl)
    ensures HasLiteral(tokens, vars, 0, ctrl)
  {
    LiteralOctets(tokens[0], vars, ctrl);
    assert Offset(tokens, vars, 1) == 1;
    assert LiteralAt(tokens, vars, 0, 0, ctrl);
  }

  /** The octets the fields stand for, laid out as in a frame; an extended one has a length octet besides. */
  function Header(s: Skeleton, src: seq<bv8>, dst: seq<bv8>, length: bv8): seq<bv8> {
    if s.ctrl & 0x80 != 0 then [s.ctrl] + src + dst + [s.npdu, s.tpci]
    else [s.ctrl, s.npdu] + src + dst + [length, s.tpci]
  }

  /** What a skeleton says of the parse of its template: together its fields are the header. */
  ghost predicate ReadsHeader(data: seq<bv8>, vars: Variables, s: Skeleton) {
    var l := LayoutOf(s.ctrl);
    && l.tpci < |data|
    && TelegramOctets(s.src, vars) == Some(data[l.src..l.src + 2])
    && TelegramOctets(s.dst, vars) == Some(data[l.dst..l.dst + 2])
    && data[..l.tpci + 1] == Header(s, data[l.src..l.src + 2], data[l.dst..l.dst + 2], data[6])
  }

  lemma FieldsMakeHeader(data: seq<bv8>, s: Skeleton)
    requires var l := LayoutOf(s.ctrl);
             l.tpci < |data| && data[0] == s.ctrl && data[l.npdu] == s.npdu && data[l.tpci] == s.tpci
    ensures var l := LayoutOf(s.ctrl);
            data[..l.tpci + 1] == Header(s, data[l.src..l.src + 2], data[l.dst..l.dst + 2], data[6])
  {
  }

  lemma LiteralFieldsRead(tokens: seq<string>, vars: Variables, s: Skeleton)
    requires WidthsExact(vars) && TokensOctets(tokens, vars).Some? && IsSkeleton(tokens, vars, s)
    ensures var l, data := LayoutOf(s.ctrl), TokensOctets(tokens, vars).value;
            l.tpci < |data| && data[0] == s.ctrl && data[l.npdu] == s.npdu && data[l.tpci] == s.tpci
  {
    ControlReads(tokens, vars, s.ctrl);
    LiteralReads(tokens, vars, 0, s.ctrl);
    LiteralReads(tokens, vars, LayoutOf(s.ctrl).npdu, s.npdu);
    LiteralReads(tokens, vars, LayoutOf(s.ctrl).tpci, s.tpci);
  }

  /** If the template parses, every octet up to the TPCI is in the skeleton, at its place, but for the length
      octet of an extended frame; the addresses are read again to exactly their two octets. */
  lemma SkeletonReadsHeader(input: string, vars: Variables, s: Skeleton)
    requires WidthsExact(vars) && TelegramOctets(input, vars).Some? && IsSkeleton(SplitWhitespace(input), vars, s)
    ensures ReadsHeader(TelegramOctets(input, vars).value, vars, s)
  {
    var l := LayoutOf(s.ctrl);
    LiteralFieldsRead(SplitWhitespace(input), vars, s);
    TemplateSpanRereads(input, vars, l.src, 2, s.src);
    TemplateSpanRereads(input, vars, l.dst, 2, s.dst);
    FieldsMakeHeader(TelegramOctets(input, vars).value, s);
  }

  /** The fields stand at these octets of the parse. */
  predicate StandAt(data: seq<bv8>, vars: Variables, s: Skeleton, npdu: nat, src: nat, dst: nat, tpci: nat) {
    && |data| > npdu && |data| > tpci && |data| >= src + 2 && |data| >= dst + 2
    && data[0] == s.ctrl && data[npdu] == s.npdu && data[tpci] == s.tpci
    && TelegramOctets(s.src, vars) == Some(data[src..src + 2])
    && TelegramOctets(s.dst, vars) == Some(data[dst..dst + 2])
  }

  lemma FieldsStand(input: string, vars: Variables, s: Skeleton, l: Layout)
    requires WidthsExact(vars) && TelegramOctets(input, vars).Some? && IsSkeleton(SplitWhitespace(input), vars, s)
    requires l == LayoutOf(s.ctrl)
    ensures StandAt(TelegramOctets(input, vars).value, vars, s, l.npdu, l.src, l.dst, l.tpci)
  {
    LiteralFieldsRead(SplitWhitespace(input), vars, s);
    TemplateSpanRereads(input, vars, l.src, 2, s.src);
    TemplateSpanRereads(input, vars, l.dst, 2, s.dst);
  }

  /** Of a standard frame, whose control octet has its top bit set, the source address is octets 1 and 2, the
      destination 3 and 4, the network octet 5 and the TPCI 6; of an extended one the network octet
      is 1, the addresses are 2 and 3, and 4 and 5, and the TPCI is 7. */
  lemma SkeletonOffsets(input: string, vars: Variables, s: Skeleton)
    requires WidthsExact(vars) && TelegramOctets(input, vars).Some? && IsSkeleton(SplitWhitespace(input), vars, s)
    ensures if s.ctrl >= 0x80 then StandAt(TelegramOctets(input, vars).value, vars, s, 5, 1, 3, 6)
            else StandAt(TelegramOctets(input, vars).value, vars, s, 1, 2, 4, 7)
  {
    LayoutIs(s.ctrl);
    FieldsStand(input, vars, s, if s.ctrl >= 0x80 then Layout(5, 1, 3, 6) else Layout(1, 2, 4, 7));
  }

  lemma HeaderFixesFields(data: seq<bv8>, vars: Variables, s: Skeleton, t: Skeleton)
    requires ReadsHeader(data, vars, s) && ReadsHeader(data, vars, t)
    ensures s.ctrl == t.ctrl && s.npdu == t.npdu && s.tpci == t.tpci
    ensures TelegramOctets(s.src, vars) == TelegramOctets(t.src, vars)
    ensures TelegramOctets(s.dst, vars) == TelegramOctets(t.dst, vars)
  {
    FirstIsControl(data, vars, s);
    FirstIsControl(data, vars, t);
  }

  lemma FirstIsControl(data: seq<bv8>, vars: Variables, s: Skeleton)
    requires ReadsHeader(data, vars, s)
    ensures var l := LayoutOf(s.ctrl);
            l.tpci < |data| && data[0] == s.ctrl && data[l.npdu] == s.npdu && data[l.tpci] == s.tpci
  {
    var l := LayoutOf(s.ctrl);
    var header := Header(s, data[l.src..l.src + 2], data[l.dst..l.dst + 2], data[6]);
    assert header[0] == data[0] && header[l.npdu] == data[l.npdu] && header[l.tpci] == data[l.tpci];
  }

  /** How a template spells its octets, as variables or as literals, makes no difference to what is read. */
  lemma SpellingIsIrrelevant(a: string, b: string, vars: Variables, s: Skeleton, t: Skeleton)
    requires WidthsExact(vars) && TelegramOctets(a, vars).Some? && TelegramOctets(a, vars) == TelegramOctets(b, vars)
    requires IsSkeleton(SplitWhitespace(a), vars, s) && IsSkeleton(SplitWhitespace(b), vars, t)
    ensures s.ctrl == t.ctrl && s.npdu == t.npdu && s.tpci == t.tpci
    ensures TelegramOctets(s.src, vars) == TelegramOctets(t.src, vars)
    ensures TelegramOctets(s.dst, vars) == TelegramOctets(t.dst, vars)
  {
    SkeletonReadsHeader(a, vars, s);
    SkeletonReadsHeader(b, vars, t);
    HeaderFixesFields(TelegramOctets(a, vars).value, vars, s, t);
  }
}
