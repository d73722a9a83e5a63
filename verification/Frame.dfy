/**
 Where the octets of a telegram sit in its template text
 (conformance/src/eitt/frame.rs). A token is not an octet: the walker here and
 the parser of module Telegram read the same expressions and must agree on
 how wide each of them is.
 */
module Frame {
  import opened Wrappers
  import opened Text
  import opened Telegram

  /** The text of an expression before its first operator. */
  function NamePart(expr: string): string {
    match Find(expr, ".+-")
    case Some(i) => FindFirst(expr, ".+-"); expr[..i]
    case None => expr
  }

  function VariableWidth(name: string, vars: Variables): nat {
    if name in vars then |AsBytes(vars[name])| else 1
  }

  /** How many octets the walker counts for a token. */
  function TokenWidth(token: string, vars: Variables): nat {
    if !IsVariable(token) then 1
    else
      var expr := token[1..];
      var name := NamePart(expr);
      if |name| < |expr| && expr[|name|] == '.' then 1 else VariableWidth(name, vars)
  }

  /** Octet offset of token `k`. */
  function Offset(tokens: seq<string>, vars: Variables, k: nat): nat
    requires k <= |tokens|
  {
    if k == 0 then 0 else Offset(tokens, vars, k - 1) + TokenWidth(tokens[k - 1], vars)
  }

  predicate IsBoundary(tokens: seq<string>, vars: Variables, octet: nat) {
    exists k :: 0 <= k <= |tokens| && Offset(tokens, vars, k) == octet
  }

  // ---------------------------------------------------------------------
  // Walker and parser agree on widths
  // ---------------------------------------------------------------------

  /** The two ways a name with an operator in it can still be parsed, and the
      width the walker would need to count for both. */
  predicate NameIsClear(name: string, vars: Variables)
    requires name in vars
  {
    var size := |AsBytes(vars[name])|;
    var counted := VariableWidth(NamePart(name), vars);
    && (Find(name, ".").None? && Find(name, "+-").Some? && size > 0 ==> counted == 1)
    && (Find(name, ".+").None? && Find(name, "-").Some? && (size == 1 || size == 2) ==> counted == size)
  }

  predicate NamesAreClear(vars: Variables) {
    forall name :: name in vars ==> NameIsClear(name, vars)
  }

  predicate NamesArePlain(vars: Variables) {
    forall name :: name in vars ==> Find(name, ".+-").None?
  }

  lemma FindPrefix(s: string, cs: string, k: nat)
    requires Find(s, cs) == Some(k)
    ensures k < |s| && s[k] in cs && Find(s[..k], cs).None?
  {
    FindFirst(s, cs);
    FindFirst(s[..k], cs);
  }

  lemma FindAt(s: string, cs: string, k: nat)
    requires k < |s| && s[k] in cs && Find(s[..k], cs).None?
    ensures Find(s, cs) == Some(k)
  {
    FindFirst(s, cs);
    FindFirst(s[..k], cs);
    assert forall j :: 0 <= j < k ==> s[..k][j] == s[j];
  }

  lemma FindNoneInPrefix(s: string, cs: string, k: nat)
    requires Find(s, cs).None? && k <= |s|
    ensures Find(s[..k], cs).None?
  {
    FindFirst(s, cs);
    FindFirst(s[..k], cs);
  }

  lemma FindMore(s: string, cs: string, more: string)
    requires forall c :: c in cs ==> c in more
    ensures Find(s, more).None? ==> Find(s, cs).None?
    ensures Find(s, cs).Some? ==> Find(s, more).Some? && Find(s, more).value <= Find(s, cs).value
  {
    FindFirst(s, cs);
    FindFirst(s, more);
  }

  lemma PlainNamesAreClear(vars: Variables)
    requires NamesArePlain(vars)
    ensures NamesAreClear(vars)
  {
    forall name | name in vars ensures NameIsClear(name, vars) {
      FindMore(name, "+-", ".+-");
      FindMore(name, "-", ".+-");
    }
  }

  /** The width counted for an expression whose octet `k` is an operator: a
      name reaching up to there is cut at its own first operator. */
  lemma CountedWidth(expr: string, vars: Variables, k: nat)
    requires k < |expr| && expr[k] in ".+-" && Find(expr[..k], ".").None?
    ensures TokenWidth("#" + expr, vars)
            == if expr[k] == '.' && Find(expr[..k], ".+-").None? then 1 else VariableWidth(NamePart(expr[..k]), vars)
  {
    assert ("#" + expr)[1..] == expr;
    FindFirst(expr[..k], ".");
    if Find(expr[..k], ".+-").None? {
      FindAt(expr, ".+-", k);
    } else {
      var i := Find(expr[..k], ".+-").value;
      FindPrefix(expr[..k], ".+-", i);
      assert expr[..k][..i] == expr[..i];
      FindAt(expr, ".+-", i);
    }
  }

  lemma IndexedParse(expr: string, vars: Variables, dot: nat)
    requires Find(expr, ".") == Some(dot) && ParseVariableExpr(expr, vars).Some?
    ensures dot < |expr| && expr[..dot] in vars && |AsBytes(vars[expr[..dot]])| > 0
    ensures |ParseVariableExpr(expr, vars).value| == 1
  {
    FindFirst(expr, ".");
  }

  lemma IndexedWidth(expr: string, vars: Variables)
    requires NamesAreClear(vars) && Find(expr, ".").Some? && ParseVariableExpr(expr, vars).Some?
    ensures |ParseVariableExpr(expr, vars).value| == TokenWidth("#" + expr, vars)
  {
    var dot := Find(expr, ".").value;
    FindPrefix(expr, ".", dot);
    IndexedParse(expr, vars, dot);
    CountedWidth(expr, vars, dot);
    assert NameIsClear(expr[..dot], vars);
    OperatorSplit(expr[..dot]);
  }

  /** A name without a dot is plain unless it holds an offset operator. */
  lemma OperatorSplit(name: string)
    requires Find(name, ".").None?
    ensures Find(name, ".+-").None? <==> Find(name, "+-").None?
    ensures Find(name, "+").None? ==> Find(name, ".+").None?
    ensures Find(name, "+").None? ==> (Find(name, ".+-").None? <==> Find(name, "-").None?)
  {
    FindFirst(name, ".");
    FindFirst(name, "+");
    FindFirst(name, "-");
    FindFirst(name, "+-");
    FindFirst(name, ".+");
    FindFirst(name, ".+-");
  }

  lemma PlusParse(expr: string, vars: Variables, plus: nat)
    requires Find(expr, ".").None? && Find(expr, "+") == Some(plus) && ParseVariableExpr(expr, vars).Some?
    ensures plus < |expr| && expr[..plus] in vars
    ensures var size := |AsBytes(vars[expr[..plus]])|;
            (size == 1 || size == 2) && |ParseVariableExpr(expr, vars).value| == size
  {
    FindFirst(expr, "+");
  }

  lemma PlusWidth(expr: string, vars: Variables)
    requires NamesAreClear(vars) && Find(expr, ".").None? && Find(expr, "+").Some?
    requires ParseVariableExpr(expr, vars).Some?
    ensures |ParseVariableExpr(expr, vars).value| == TokenWidth("#" + expr, vars)
  {
    var plus := Find(expr, "+").value;
    FindPrefix(expr, "+", plus);
    PlusParse(expr, vars, plus);
    FindNoneInPrefix(expr, ".", plus);
    CountedWidth(expr, vars, plus);
    assert NameIsClear(expr[..plus], vars);
    OperatorSplit(expr[..plus]);
  }

  lemma MinusParse(expr: string, vars: Variables, minus: nat)
    requires Find(expr, ".").None? && Find(expr, "+").None? && Find(expr, "-") == Some(minus)
    requires ParseVariableExpr(expr, vars).Some?
    ensures minus < |expr| && expr[..minus] in vars
    ensures |ParseVariableExpr(expr, vars).value| == |AsBytes(vars[expr[..minus]])|
  {
    FindFirst(expr, "-");
  }

  lemma MinusWidth(expr: string, vars: Variables)
    requires Find(expr, ".").None? && Find(expr, "+").None? && ParseVariableExpr(expr, vars).Some?
    ensures |ParseVariableExpr(expr, vars).value| == TokenWidth("#" + expr, vars)
  {
    OperatorSplit(expr);
    if Find(expr, "-").Some? {
      var minus := Find(expr, "-").value;
      FindPrefix(expr, "-", minus);
      MinusParse(expr, vars, minus);
      FindNoneInPrefix(expr, ".", minus);
      FindNoneInPrefix(expr, "+", minus);
      OperatorSplit(expr[..minus]);
      CountedWidth(expr, vars, minus);
    } else {
      assert ("#" + expr)[1..] == expr;
    }
  }

  lemma TokenWidthExact(token: string, vars: Variables)
    requires NamesAreClear(vars) && TokenOctets(token, vars).Some?
    ensures |TokenOctets(token, vars).value| == TokenWidth(token, vars)
  {
    if IsVariable(token) {
      var expr := token[1..];
      assert token == "#" + expr;
      if Find(expr, ".").Some? {
        IndexedWidth(expr, vars);
      } else if Find(expr, "+").Some? {
        PlusWidth(expr, vars);
      } else {
        MinusWidth(expr, vars);
      }
    }
  }

  predicate WidthHolds(token: string, vars: Variables) {
    TokenOctets(token, vars).Some? ==> |TokenOctets(token, vars).value| == TokenWidth(token, vars)
  }

  ghost predicate WidthsExact(vars: Variables) {
    forall token :: WidthHolds(token, vars)
  }

  lemma ZeroParses()
    ensures ParseUnsigned("0", 10, USIZE_MAX) == Some(0) && ParseSigned("0", I32_MAX) == Some(0)
  {
    assert DropLast("0") == "" && Last("0") == '0';
    assert Digits("0", 10) == Some(0);
  }

  lemma UnclearIndexed(name: string, vars: Variables) returns (token: string)
    requires name in vars && Find(name, ".").None? && Find(name, "+-").Some?
    requires |AsBytes(vars[name])| > 0 && VariableWidth(NamePart(name), vars) != 1
    ensures !WidthHolds(token, vars)
  {
    var expr := name + ".0";
    token := "#" + expr;
    assert token[1..] == expr && expr[..|name|] == name && expr[|name| + 1..] == "0";
    FindAt(expr, ".", |name|);
    ZeroParses();
    FindFirst("0", "+-");
    assert IndexedOctet(name, "0", 0, vars).Some?;
    OperatorSplit(name);
    CountedWidth(expr, vars, |name|);
  }

  lemma UnclearOffset(name: string, vars: Variables) returns (token: string)
    requires name in vars && Find(name, ".+").None?
    requires |AsBytes(vars[name])| == 1 || |AsBytes(vars[name])| == 2
    requires VariableWidth(NamePart(name), vars) != |AsBytes(vars[name])|
    ensures !WidthHolds(token, vars)
  {
    var expr := name + "+0";
    token := "#" + expr;
    assert token[1..] == expr && expr[..|name|] == name && expr[|name| + 1..] == "0";
    FindMore(name, ".", ".+");
    FindMore(name, "+", ".+");
    FindAt(expr, "+", |name|);
    FindFirst(name, ".");
    FindFirst(expr, ".");
    ZeroParses();
    assert OffsetValue(name, 0, vars).Some?;
    CountedWidth(expr, vars, |name|);
  }

  /** An unclear name has a token that parses to another width than the walker counts. */
  lemma UnclearNameShows(name: string, vars: Variables) returns (token: string)
    requires name in vars && !NameIsClear(name, vars)
    ensures !WidthHolds(token, vars)
  {
    if Find(name, ".").None? && Find(name, "+-").Some? && |AsBytes(vars[name])| > 0
       && VariableWidth(NamePart(name), vars) != 1 {
      token := UnclearIndexed(name, vars);
    } else {
      token := UnclearOffset(name, vars);
    }
  }

  /** The walker counts what the parser produces, for every token, exactly
      when no variable name is unclear. */
  lemma WidthsExactIff(vars: Variables)
    ensures WidthsExact(vars) <==> NamesAreClear(vars)
  {
    if NamesAreClear(vars) {
      forall token ensures WidthHolds(token, vars) {
        if TokenOctets(token, vars).Some? {
          TokenWidthExact(token, vars);
        }
      }
    } else {
      var name :| name in vars && !NameIsClear(name, vars);
      var token := UnclearNameShows(name, vars);
    }
  }

  /** Variable names without operators are never in the way. */
  lemma PlainNamesAreExact(vars: Variables)
    requires NamesArePlain(vars)
    ensures WidthsExact(vars)
  {
    PlainNamesAreClear(vars);
    WidthsExactIff(vars);
  }

  // ---------------------------------------------------------------------
  // Walking
  // ---------------------------------------------------------------------

  lemma {:induction false} OffsetMonotone(tokens: seq<string>, vars: Variables, j: nat, k: nat)
    requires j <= k <= |tokens|
    ensures Offset(tokens, vars, j) <= Offset(tokens, vars, k)
  {
    if j < k {
      OffsetMonotone(tokens, vars, j, k - 1);
    }
  }

  datatype TokenStart = TokenStart(index: nat, offset: nat)

  /** The token covering `octet`, and the offset it starts at. */
  method TokenAt(tokens: seq<string>, vars: Variables, octet: nat) returns (r: Option<TokenStart>)
    ensures match r
            case Some(t) =>
              && t.index < |tokens| && t.offset == Offset(tokens, vars, t.index)
              && t.offset <= octet < Offset(tokens, vars, t.index + 1)
            case None => octet >= Offset(tokens, vars, |tokens|)
  {
    var offset := 0;
    for index := 0 to |tokens|
      invariant offset == Offset(tokens, vars, index) <= octet
    {
      var width := TokenWidth(tokens[index], vars);
      if offset <= octet < offset + width {
        return Some(TokenStart(index, offset));
      }
      offset := offset + width;
    }
    return None;
  }

  /** An octet inside a token is no boundary unless the token starts there. */
  lemma InsideIsNoBoundary(tokens: seq<string>, vars: Variables, k: nat, octet: nat)
    requires k < |tokens| && Offset(tokens, vars, k) < octet < Offset(tokens, vars, k + 1)
    ensures !IsBoundary(tokens, vars, octet)
  {
    if IsBoundary(tokens, vars, octet) {
      var j :| 0 <= j <= |tokens| && Offset(tokens, vars, j) == octet;
      if j <= k {
        OffsetMonotone(tokens, vars, j, k);
      } else {
        OffsetMonotone(tokens, vars, k + 1, j);
      }
    }
  }

  lemma BeyondIsNoBoundary(tokens: seq<string>, vars: Variables, octet: nat)
    requires octet > Offset(tokens, vars, |tokens|)
    ensures !IsBoundary(tokens, vars, octet)
  {
    if IsBoundary(tokens, vars, octet) {
      var j :| 0 <= j <= |tokens| && Offset(tokens, vars, j) == octet;
      OffsetMonotone(tokens, vars, j, |tokens|);
    }
  }

  /** The tokens from `first` up to `last` cover `octet..octet + width`, and neither end is padded
      with tokens of no width. */
  predicate Spans(tokens: seq<string>, vars: Variables, octet: nat, width: nat, first: nat, last: nat) {
    && first <= last <= |tokens| && first < |tokens|
    && Offset(tokens, vars, first) == octet < Offset(tokens, vars, first + 1)
    && Offset(tokens, vars, last) == octet + width
    && (last > first ==> Offset(tokens, vars, last - 1) < octet + width)
  }

  // ---------------------------------------------------------------------
  // Reading a span again
  // ---------------------------------------------------------------------

  lemma {:induction false} OffsetOfPrefix(tokens: seq<string>, vars: Variables, m: nat, k: nat)
    requires k <= m <= |tokens|
    ensures Offset(tokens[..m], vars, k) == Offset(tokens, vars, k)
  {
    if k > 0 {
      OffsetOfPrefix(tokens, vars, m, k - 1);
    }
  }

  lemma JoinedAssociates(a: Option<seq<bv8>>, b: Option<seq<bv8>>, c: Option<seq<bv8>>)
    ensures Joined(Joined(a, b), c) == Joined(a, Joined(b, c))
  {
    if a.Some? && b.Some? && c.Some? {
      assert (a.value + b.value) + c.value == a.value + (b.value + c.value);
    }
  }

  lemma {:induction false} OctetsConcat(a: seq<string>, b: seq<string>, vars: Variables)
    ensures TokensOctets(a + b, vars) == Joined(TokensOctets(a, vars), TokensOctets(b, vars))
  {
    if b == [] {
      assert a + b == a;
      assert TokensOctets(a, vars).Some? ==> TokensOctets(a, vars).value + [] == TokensOctets(a, vars).value;
    } else {
      assert DropLast(a + b) == a + DropLast(b) && Last(a + b) == Last(b);
      OctetsConcat(a, DropLast(b), vars);
      JoinedAssociates(TokensOctets(a, vars), TokensOctets(DropLast(b), vars), TokenOctets(Last(b), vars));
    }
  }

  lemma JoinedLength(init: Option<seq<bv8>>, last: Option<seq<bv8>>)
    requires Joined(init, last).Some?
    ensures init.Some? && last.Some? && |Joined(init, last).value| == |init.value| + |last.value|
  {
  }

  lemma LastWidth(token: string, vars: Variables)
    requires WidthsExact(vars) && TokenOctets(token, vars).Some?
    ensures |TokenOctets(token, vars).value| == TokenWidth(token, vars)
  {
    assert WidthHolds(token, vars);
  }

  /** The offsets count the octets of the whole parse. */
  lemma {:induction false} OffsetCountsOctets(tokens: seq<string>, vars: Variables)
    requires WidthsExact(vars) && TokensOctets(tokens, vars).Some?
    ensures Offset(tokens, vars, |tokens|) == |TokensOctets(tokens, vars).value|
  {
    if tokens != [] {
      JoinedLength(TokensOctets(DropLast(tokens), vars), TokenOctets(Last(tokens), vars));
      LastWidth(Last(tokens), vars);
      OffsetCountsOctets(DropLast(tokens), vars);
      OffsetOfPrefix(tokens, vars, |tokens| - 1, |tokens| - 1);
    }
  }

  lemma PrefixOctets(tokens: seq<string>, vars: Variables, k: nat)
    requires WidthsExact(vars) && TokensOctets(tokens, vars).Some? && k <= |tokens|
    ensures TokensOctets(tokens[..k], vars).Some? && TokensOctets(tokens[k..], vars).Some?
    ensures |TokensOctets(tokens[..k], vars).value| == Offset(tokens, vars, k)
    ensures TokensOctets(tokens, vars).value
            == TokensOctets(tokens[..k], vars).value + TokensOctets(tokens[k..], vars).value
  {
    assert tokens == tokens[..k] + tokens[k..];
    OctetsConcat(tokens[..k], tokens[k..], vars);
    OffsetCountsOctets(tokens[..k], vars);
    OffsetOfPrefix(tokens, vars, k, k);
  }

  /** A slice of the tokens parses to the octets between its offsets. */
  lemma SliceOctets(tokens: seq<string>, vars: Variables, first: nat, last: nat)
    requires WidthsExact(vars) && TokensOctets(tokens, vars).Some? && first <= last <= |tokens|
    ensures Offset(tokens, vars, first) <= Offset(tokens, vars, last) <= |TokensOctets(tokens, vars).value|
    ensures TokensOctets(tokens[first..last], vars)
            == Some(TokensOctets(tokens, vars).value[Offset(tokens, vars, first)..Offset(tokens, vars, last)])
  {
    PrefixOctets(tokens, vars, last);
    PrefixOctets(tokens[..last], vars, first);
    OffsetOfPrefix(tokens, vars, last, first);
    assert tokens[..last][first..] == tokens[first..last];
  }

  lemma SpanReparses(tokens: seq<string>, vars: Variables, first: nat, last: nat)
    requires AreWords(tokens) && WidthsExact(vars) && TokensOctets(tokens, vars).Some? && first <= last <= |tokens|
    ensures Offset(tokens, vars, first) <= Offset(tokens, vars, last) <= |TokensOctets(tokens, vars).value|
    ensures TelegramOctets(Join(tokens[first..last]), vars)
            == Some(TokensOctets(tokens, vars).value[Offset(tokens, vars, first)..Offset(tokens, vars, last)])
  {
    SliceOctets(tokens, vars, first, last);
    SplitJoin(tokens[first..last]);
  }

  /** When a span can be handed out: it starts and ends between tokens, and starts inside the frame. */
  predicate HasSpan(tokens: seq<string>, vars: Variables, octet: nat, width: nat) {
    && IsBoundary(tokens, vars, octet) && IsBoundary(tokens, vars, octet + width)
    && octet < Offset(tokens, vars, |tokens|)
  }

  lemma SpansHasSpan(tokens: seq<string>, vars: Variables, octet: nat, width: nat, first: nat, last: nat)
    requires Spans(tokens, vars, octet, width, first, last)
    ensures HasSpan(tokens, vars, octet, width)
  {
    OffsetMonotone(tokens, vars, first + 1, |tokens|);
  }

  /** Read again, the text is those octets of the whole frame. */
  ghost predicate Rereads(tokens: seq<string>, vars: Variables, octet: nat, width: nat, text: string) {
    AreWords(tokens) && WidthsExact(vars) && TokensOctets(tokens, vars).Some? ==>
      var data := TokensOctets(tokens, vars).value;
      octet + width <= |data| && TelegramOctets(text, vars) == Some(data[octet..octet + width])
  }

  ghost predicate IsSpanText(tokens: seq<string>, vars: Variables, octet: nat, width: nat, text: string) {
    exists first: nat, last: nat :: Spans(tokens, vars, octet, width, first, last) && text == Join(tokens[first..last])
  }

  lemma ParsesToSlice(text: string, vars: Variables, data: seq<bv8>, from: nat, to: nat, octet: nat, width: nat)
    requires from == octet && to == octet + width <= |data|
    requires TelegramOctets(text, vars) == Some(data[from..to])
    ensures TelegramOctets(text, vars) == Some(data[octet..octet + width])
  {
  }

  lemma SpanOctets(tokens: seq<string>, vars: Variables, octet: nat, width: nat, first: nat, last: nat)
    requires Spans(tokens, vars, octet, width, first, last)
    requires AreWords(tokens) && WidthsExact(vars) && TokensOctets(tokens, vars).Some?
    ensures octet + width <= |TokensOctets(tokens, vars).value|
    ensures TelegramOctets(Join(tokens[first..last]), vars)
            == Some(TokensOctets(tokens, vars).value[octet..octet + width])
  {
    SpanReparses(tokens, vars, first, last);
    ParsesToSlice(Join(tokens[first..last]), vars, TokensOctets(tokens, vars).value,
                  Offset(tokens, vars, first), Offset(tokens, vars, last), octet, width);
  }

  lemma SpanRereads(tokens: seq<string>, vars: Variables, octet: nat, width: nat, first: nat, last: nat)
    requires Spans(tokens, vars, octet, width, first, last)
    ensures Rereads(tokens, vars, octet, width, Join(tokens[first..last]))
  {
    if AreWords(tokens) && WidthsExact(vars) && TokensOctets(tokens, vars).Some? {
      SpanOctets(tokens, vars, octet, width, first, last);
    }
  }

  lemma TextRereads(tokens: seq<string>, vars: Variables, octet: nat, width: nat, text: string)
    requires IsSpanText(tokens, vars, octet, width, text)
    ensures Rereads(tokens, vars, octet, width, text)
  {
    var first: nat, last: nat :|
      Spans(tokens, vars, octet, width, first, last) && text == Join(tokens[first..last]);
    SpanRereads(tokens, vars, octet, width, first, last);
  }

  /** For a template that parses: whatever text is handed out for a span of its tokens, parsing that
      text again gives exactly those octets of the parse of the template. */
  lemma TemplateSpanRereads(input: string, vars: Variables, octet: nat, width: nat, text: string)
    requires WidthsExact(vars) && TelegramOctets(input, vars).Some?
    requires IsSpanText(SplitWhitespace(input), vars, octet, width, text)
    ensures octet + width <= |TelegramOctets(input, vars).value|
    ensures TelegramOctets(text, vars) == Some(TelegramOctets(input, vars).value[octet..octet + width])
  {
    SplitGivesWords(input);
    TextRereads(SplitWhitespace(input), vars, octet, width, text);
  }

  lemma SpanIsText(tokens: seq<string>, vars: Variables, octet: nat, width: nat, first: nat, last: nat)
    requires Spans(tokens, vars, octet, width, first, last)
    ensures IsSpanText(tokens, vars, octet, width, Join(tokens[first..last]))
  {
  }

  method TokenSpan(tokens: seq<string>, vars: Variables, octet: nat, width: nat) returns (r: Option<string>)
    ensures r.Some? <==> HasSpan(tokens, vars, octet, width)
    ensures r.Some? ==> IsSpanText(tokens, vars, octet, width, r.value)
    ensures r.Some? ==> Rereads(tokens, vars, octet, width, r.value)
  {
    var at := TokenAt(tokens, vars, octet);
    if at.None? {
      return None;
    }
    var TokenStart(first, start) := at.value;
    if start != octet {
      InsideIsNoBoundary(tokens, vars, first, octet);
      return None;
    }
    var covered, last := 0, first;
    while covered < width
      invariant first <= last <= |tokens|
      invariant covered == Offset(tokens, vars, last) - octet
      invariant last > first ==> Offset(tokens, vars, last - 1) - octet < width
      decreases |tokens| - last
    {
      if last >= |tokens| {
        BeyondIsNoBoundary(tokens, vars, octet + width);
        return None;
      }
      covered := covered + TokenWidth(tokens[last], vars);
      last := last + 1;
    }
    if covered != width {
      InsideIsNoBoundary(tokens, vars, last - 1, octet + width);
      return None;
    }
    SpansHasSpan(tokens, vars, octet, width, first, last);
    SpanIsText(tokens, vars, octet, width, first, last);
    SpanRereads(tokens, vars, octet, width, first, last);
    return Some(Join(tokens[first..last]));
  }
}
