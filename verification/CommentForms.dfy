/**
 What a comment's text says (conformance/src/eitt/comment.rs): for each token,
 written out, the command with the arguments that stand behind it.
 */
module CommentForms {
  import opened Wrappers
  import opened Text
  import opened Comment

  // ---------------------------------------------------------------------
  // Which token a text begins with
  // ---------------------------------------------------------------------

  lemma {:induction false} TrimEndOfSpaces(s: string)
    ensures TrimEnd(s) == "" <==> forall k :: 0 <= k < |s| ==> IsSpace(s[k])
    ensures TrimEnd(s) <= s
  {
    if s != "" && IsSpace(Last(s)) {
      TrimEndOfSpaces(DropLast(s));
    }
  }

  /** Text that does not begin with `@` is documentation, white space around it aside. */
  lemma PlainText(text: string, read: NumberReader)
    requires text == "" || text[0] != '@'
    ensures Parse(text, read) == Parsed(Plain(Trim(text)))
  {
    TrimsInside(text);
    TrimEndOfSpaces(text);
  }

  lemma TokenThenRest(token: string, rest: string)
    requires token != "" && !IsSpace(Last(token))
    ensures TrimEnd(token + rest) == token + TrimEnd(rest)
  {
    TrimEndBehind(DropLast(token), Last(token), rest);
    assert DropLast(token) + [Last(token)] == token;
  }

  lemma SameLength(a: string, b: string, text: string)
    requires a <= text && b <= text && |a| == |b|
    ensures a == b
  {
    assert a == text[..|a|] && b == text[..|b|];
  }

  /** The longest token that begins a text decides; what follows it, without white space at the end, is built from. */
  lemma TokenDecides(token: string, rest: string, read: NumberReader)
    requires token in TOKENS && IsLongest(TOKENS, token + rest, token)
    ensures Parse(token + rest, read) == BuildAny(token, TrimEnd(rest), read)
  {
    TokensHaveNoSpace(token);
    var found := LongestToken(token + rest);
    SameLength(found, token, token + rest);
    TokenThenRest(token, rest);
    ParseIsBuild(token + rest, token, read);
    assert (token + TrimEnd(rest))[|token|..] == TrimEnd(rest);
  }

  lemma InterfaceCharacters(token: string, k: nat)
    requires token in INTERFACE_COMMANDS && k < |token|
    ensures !IsSpace(token[k]) && !IsQuote(token[k])
  {
  }

  /** A character that is neither white space nor a quote. */
  predicate Solid(c: char) {
    !IsSpace(c) && !IsQuote(c)
  }

  predicate AllSolid(s: string) {
    forall k :: 0 <= k < |s| ==> Solid(s[k])
  }

  lemma PrintableIsSolid(c: char)
    requires '#' <= c <= 'z' || c == '!'
    ensures Solid(c)
  {
  }

  predicate Printable(s: string) {
    forall k :: 0 <= k < |s| ==> '#' <= s[k] <= 'z' || s[k] == '!'
  }

  lemma CommandsPrintable(i: nat)
    requires i < |COMMANDS|
    ensures Printable(COMMANDS[i])
  {
  }

  lemma CommandCharacters(token: string, k: nat)
    requires token in COMMANDS && k < |token|
    ensures !IsSpace(token[k]) && !IsQuote(token[k])
  {
    var i :| 0 <= i < |COMMANDS| && COMMANDS[i] == token;
    CommandsPrintable(i);
    PrintableIsSolid(token[k]);
  }

  predicate IsGap(s: string) {
    forall k :: 0 <= k < |s| ==> IsSpace(s[k])
  }

  /** In front of white space or a quote a token stands for itself: no other one goes on there. */
  lemma StandsAlone(token: string, rest: string)
    requires token in TOKENS && (rest == "" || IsSpace(rest[0]) || IsQuote(rest[0]))
    ensures IsLongest(TOKENS, token + rest, token)
  {
    var text := token + rest;
    forall other | other in TOKENS && other <= text ensures |other| <= |token| {
      if |other| > |token| {
        assert other[|token|] == text[|token|] == rest[0];
        if other in INTERFACE_COMMANDS {
          InterfaceCharacters(other, |token|);
        } else {
          CommandCharacters(other, |token|);
        }
      }
    }
  }

  // ---------------------------------------------------------------------
  // Quoted arguments
  // ---------------------------------------------------------------------

  /** The straight quote and the two typographic ones. */
  lemma QuotesAre(c: char)
    ensures IsQuote(c) <==> c == '"' || c == '\U{201C}' || c == '\U{201D}'
  {
  }

  /** An argument in quotes, with white space in front and anything behind. */
  datatype Argument = Argument(gap: string, opener: string, text: string, closer: string, tail: string)

  predicate IsArgument(a: Argument) {
    IsGap(a.gap) && IsOpener(a.opener) && QuoteFree(a.text) && IsOpener(a.closer)
  }

  function Written(a: Argument): string {
    a.gap + (a.opener + a.text + a.closer + a.tail)
  }

  lemma {:induction false} GapIsTrimmed(gap: string, s: string)
    requires IsGap(gap)
    ensures TrimStart(gap + s) == TrimStart(s)
  {
    if gap == "" {
      assert gap + s == s;
    } else {
      assert (gap + s)[1..] == gap[1..] + s;
      GapIsTrimmed(gap[1..], s);
    }
  }

  lemma WrittenEnds(a: Argument)
    requires IsArgument(a)
    ensures TrimEnd(Written(a)) == Written(a.(tail := TrimEnd(a.tail)))
  {
    var before := a.gap + a.opener + a.text;
    QuoteIsNoSpace(a.closer[0]);
    TrimEndBehind(before, a.closer[0], a.tail);
    assert a.closer == [a.closer[0]];
    assert before + a.closer + a.tail == Written(a);
    assert before + a.closer + TrimEnd(a.tail) == Written(a.(tail := TrimEnd(a.tail)));
  }

  lemma ArgumentTaken(a: Argument)
    requires IsArgument(a)
    ensures TakeQuoted(Written(a)) == (a.text, a.tail)
  {
    var quoted := a.opener + a.text + a.closer + a.tail;
    QuoteIsNoSpace(a.opener[0]);
    GapIsTrimmed(a.gap, quoted);
    TakeQuotedReadsBack(a.opener, a.text, a.closer, a.tail);
  }

  /** Behind any token a quoted argument reaches the command, and what follows it without white space at the end. */
  lemma ArgumentReaches(token: string, a: Argument, read: NumberReader)
    requires token in TOKENS && IsArgument(a)
    ensures var rest := Written(a.(tail := TrimEnd(a.tail)));
            && Parse(token + Written(a), read) == BuildAny(token, rest, read)
            && TakeQuoted(rest) == (a.text, TrimEnd(a.tail))
  {
    StandsAlone(token, Written(a));
    TokenDecides(token, Written(a), read);
    WrittenEnds(a);
    ArgumentTaken(a.(tail := TrimEnd(a.tail)));
  }

  lemma Listed(k: nat, token: string)
    requires k < |TOKENS| && TOKENS[k] == token
    ensures token in TOKENS
  {
  }

  lemma SequenceTokens(token: string)
    requires token in ["@#", "@##", "@<"]
    ensures token in TOKENS
  {
    var k :| 0 <= k < 3 && ["@#", "@##", "@<"][k] == token;
    Listed(if k < 2 then 23 - k else 26, token);
  }

  lemma SequenceBuilt(token: string, rest: string, read: NumberReader)
    requires token in ["@#", "@##", "@<"]
    ensures token == "@#" ==> BuildAny(token, rest, read) == Parsed(CallSequence(TakeQuoted(rest).0, false))
    ensures token == "@##" ==> BuildAny(token, rest, read) == Parsed(CallSequence(TakeQuoted(rest).0, true))
    ensures token == "@<" ==> BuildAny(token, rest, read) == Parsed(StopParallel(TakeQuoted(rest).0))
  {
  }

  /** Sequences are called and stopped by the name in quotes. */
  lemma SequenceCommands(token: string, a: Argument, read: NumberReader)
    requires IsArgument(a) && token in ["@#", "@##", "@<"]
    ensures token == "@#" ==> Parse(token + Written(a), read) == Parsed(CallSequence(a.text, false))
    ensures token == "@##" ==> Parse(token + Written(a), read) == Parsed(CallSequence(a.text, true))
    ensures token == "@<" ==> Parse(token + Written(a), read) == Parsed(StopParallel(a.text))
  {
    SequenceTokens(token);
    ArgumentReaches(token, a, read);
    SequenceBuilt(token, Written(a.(tail := TrimEnd(a.tail))), read);
  }

  lemma ImportListed(token: string)
    requires token == "@@[import"
    ensures token in TOKENS
  {
    Listed(8, token);
  }

  lemma SecurityTokens(token: string)
    requires token in ["@@[rc", "@@[rn", "@@[sk", "@@[sn"]
    ensures token in TOKENS
  {
    var k :| 0 <= k < 4 && ["@@[rc", "@@[rn", "@@[sk", "@@[sn"][k] == token;
    Listed(k + 9, token);
  }

  lemma ImportBuilt(rest: string, read: NumberReader)
    ensures BuildAny("@@[import", rest, read) == Parsed(Import(TakeQuoted(rest).0))
  {
  }

  lemma SecurityBuilt(token: string, rest: string, read: NumberReader)
    requires token in ["@@[rc", "@@[rn", "@@[sk", "@@[sn"]
    ensures token == "@@[rc" ==> BuildAny(token, rest, read) == Parsed(ClearChallenges)
    ensures token == "@@[rn" ==> BuildAny(token, rest, read) == Parsed(ResetSequenceNumbers)
    ensures token == "@@[sk" ==> BuildAny(token, rest, read) == Parsed(SetKey(TakeQuoted(rest).0))
    ensures token == "@@[sn" ==> BuildAny(token, rest, read) == Parsed(SetSequenceNumber(TakeQuoted(rest).0))
  {
  }

  /** The security commands: three hand their argument on as it is, and two need none. */
  lemma SecurityCommands(token: string, a: Argument, read: NumberReader)
    requires IsArgument(a) && token in ["@@[import", "@@[rc", "@@[rn", "@@[sk", "@@[sn"]
    ensures token == "@@[import" ==> Parse(token + Written(a), read) == Parsed(Import(a.text))
    ensures token == "@@[rc" ==> Parse(token + Written(a), read) == Parsed(ClearChallenges)
    ensures token == "@@[rn" ==> Parse(token + Written(a), read) == Parsed(ResetSequenceNumbers)
    ensures token == "@@[sk" ==> Parse(token + Written(a), read) == Parsed(SetKey(a.text))
    ensures token == "@@[sn" ==> Parse(token + Written(a), read) == Parsed(SetSequenceNumber(a.text))
  {
    var rest := Written(a.(tail := TrimEnd(a.tail)));
    if token == "@@[import" {
      ImportListed(token);
      ImportBuilt(rest, read);
    } else {
      SecurityTokens(token);
      SecurityBuilt(token, rest, read);
    }
    ArgumentReaches(token, a, read);
  }

  /** A Point API command keeps its token and its argument. */
  lemma PointApiCommand(token: string, a: Argument, read: NumberReader)
    requires IsArgument(a)
    requires token in ["@@[pahdiscover", "@@[pahmcast", "@@[pahmdns", "@@[pahctx", "@@[pahdev", "@@[pahsnc"]
    ensures Parse(token + Written(a), read) == Parsed(PointApi(token, a.text))
  {
    PointApiListed(token);
    ArgumentReaches(token, a, read);
    PointApiBuilt(token, Written(a.(tail := TrimEnd(a.tail))), read);
  }

  lemma PointApiListed(token: string)
    requires token in ["@@[pahdiscover", "@@[pahmcast", "@@[pahmdns", "@@[pahctx", "@@[pahdev", "@@[pahsnc"]
    ensures token in TOKENS && "@@[pah" <= token && |token| > 6
  {
    var k :| 0 <= k < 6
             && ["@@[pahdiscover", "@@[pahmcast", "@@[pahmdns", "@@[pahctx", "@@[pahdev", "@@[pahsnc"][k] == token;
    Listed(k + 2, token);
  }

  lemma PointApiBuilt(token: string, rest: string, read: NumberReader)
    requires "@@[pah" <= token && |token| > 6
    ensures BuildAny(token, rest, read) == Parsed(PointApi(token, TakeQuoted(rest).0))
  {
    assert token[3] == 'p';
  }

  lemma AutoPassBuilt(token: string, rest: string, read: NumberReader)
    requires token == "@AP"
    ensures token in TOKENS && BuildAny(token, rest, read) == Parsed(AutoPass(SaysOn(TakeQuoted(rest).0)))
  {
    Listed(18, token);
  }

  /** Auto pass is switched on by `on` in any case, and by nothing else. */
  lemma AutoPassCommand(token: string, a: Argument, read: NumberReader)
    requires IsArgument(a) && token == "@AP"
    ensures Parse(token + Written(a), read) == Parsed(AutoPass(a.text in {"on", "On", "oN", "ON"}))
  {
    AutoPassBuilt(token, Written(a.(tail := TrimEnd(a.tail))), read);
    ArgumentReaches(token, a, read);
    OnInAnyCase(a.text);
  }

  lemma OnInAnyCase(s: string)
    ensures SaysOn(s) <==> s in {"on", "On", "oN", "ON"}
  {
    if SaysOn(s) {
      assert s == [s[0], s[1]];
    }
  }

  /** An argument is split at its first semicolon. */
  lemma SemicolonSplits(left: string, right: string)
    requires ';' !in left
    ensures SplitOnceSemi(left + ";" + right) == (Trim(left), Trim(right))
    ensures SplitOnceSemi(left) == (Trim(left), "")
  {
    FindBehind(left, ';', right, ";");
    FindNothing(left, ";");
    var s := left + ";" + right;
    assert s[..|left|] == left && s[|left| + 1..] == right;
  }

  lemma InterfaceBuilt(token: string, rest: string, read: NumberReader)
    requires token in ["@if+", "@if-"]
    ensures token in TOKENS
    ensures var args := TakeQuoted(rest).0;
            && (token == "@if+" ==>
                  BuildAny(token, rest, read) == Parsed(Activate(SplitOnceSemi(args).0, SplitOnceSemi(args).1)))
            && (token == "@if-" ==> BuildAny(token, rest, read) == Parsed(Deactivate(args)))
  {
    Listed(0, "@if+");
    Listed(1, "@if-");
  }

  /** An interface is named by layer and connection, or by the connection alone to deactivate it. */
  lemma InterfaceCommands(token: string, a: Argument, layer: string, connection: string, read: NumberReader)
    requires IsArgument(a) && ';' !in layer && token in ["@if+", "@if-"]
    ensures token == "@if+" && a.text == layer + ";" + connection ==>
              Parse(token + Written(a), read) == Parsed(Activate(Trim(layer), Trim(connection)))
    ensures token == "@if+" && a.text == layer ==>
              Parse(token + Written(a), read) == Parsed(Activate(Trim(layer), ""))
    ensures token == "@if-" ==> Parse(token + Written(a), read) == Parsed(Deactivate(a.text))
  {
    InterfaceBuilt(token, Written(a.(tail := TrimEnd(a.tail))), read);
    ArgumentReaches(token, a, read);
    SemicolonSplits(layer, connection);
  }

  lemma ParallelTokens(token: string)
    requires token in ["@>", "@>w"]
    ensures token in TOKENS
  {
    var k :| 0 <= k < 2 && ["@>", "@>w"][k] == token;
    Listed(25 - k, token);
  }

  lemma ParallelBuilt(token: string, rest: string, read: NumberReader)
    requires token in ["@>", "@>w"]
    ensures var args := SplitOnceSemi(TakeQuoted(rest).0);
            BuildAny(token, rest, read)
            == Parsed(ParallelCall(args.0, ParseUnsigned(args.1, 10, 0xFFFF_FFFF), token == "@>w"))
  {
  }

  /** A parallel call names its sequence and may say how often it loops, in decimal, as far as a `u32` goes. */
  lemma ParallelCommands(token: string, a: Argument, name: string, loops: string, n: nat, read: NumberReader)
    requires IsArgument(a) && ';' !in name && Reads(Trim(loops), n) && token in ["@>", "@>w"]
    ensures a.text == name + ";" + loops ==>
              Parse(token + Written(a), read)
              == Parsed(ParallelCall(Trim(name), if n <= 0xFFFF_FFFF then Some(n) else None, token == "@>w"))
    ensures a.text == name ==>
              Parse(token + Written(a), read) == Parsed(ParallelCall(Trim(name), None, token == "@>w"))
  {
    ParallelTokens(token);
    ArgumentReaches(token, a, read);
    ParallelBuilt(token, Written(a.(tail := TrimEnd(a.tail))), read);
    SemicolonSplits(name, loops);
    NumbersParse(Trim(loops), n, 0xFFFF_FFFF);
  }

  /** A wait keeps its argument as written, the time it reads as, and the text behind it. */
  lemma WaitCommands(a: Argument, token: string, read: NumberReader)
    requires IsArgument(a) && (token == "@[w" || token == "@@[w")
    ensures Parse(token + Written(a), read)
            == match WaitTimeOf(a.text, read)
               case NoTime => Parsed(Wait(None, a.text, Trim(a.tail)))
               case Waits(seconds) => Parsed(Wait(Some(seconds), a.text, Trim(a.tail)))
               case TooLong => WaitOverflows
  {
    Listed(14, "@[w");
    Listed(13, "@@[w");
    ArgumentReaches(token, a, read);
    WaitTokensBuildWaits(token, Written(a.(tail := TrimEnd(a.tail))), read);
    TrimsInside(a.tail);
  }

  // ---------------------------------------------------------------------
  // Text arguments
  // ---------------------------------------------------------------------

  lemma PauseTokens(token: string)
    requires token in ["@@!", "@@+", "@@"]
    ensures token in TOKENS
  {
    var k :| 0 <= k < 3 && ["@@!", "@@+", "@@"][k] == token;
    Listed(k + 15, token);
  }

  lemma ShowTokens(token: string)
    requires token in ["@[t!", "@[t", "@!", "@"]
    ensures token in TOKENS
  {
    if token == "@" {
      Listed(27, token);
    } else {
      var k :| 0 <= k < 3 && ["@[t!", "@[t", "@!"][k] == token;
      Listed(k + 19, token);
    }
  }

  lemma TextTokens(token: string)
    requires token in ["@@!", "@@+", "@@", "@[t!", "@[t", "@!", "@"]
    ensures token in TOKENS
  {
    if token in ["@@!", "@@+", "@@"] {
      PauseTokens(token);
    } else {
      ShowTokens(token);
    }
  }

  lemma TextBuilt(token: string, rest: string, read: NumberReader)
    requires token in ["@@!", "@@+", "@@", "@[t!", "@[t", "@!", "@"]
    ensures BuildAny(token, rest, read)
            == Parsed(if token == "@" then Show(Trim(rest), false) else if token == "@!" then Show(Trim(rest), true)
                      else if token == "@[t" then Trace(Trim(rest), false)
                      else if token == "@[t!" then Trace(Trim(rest), true)
                      else if token == "@@" then Pause(Trim(rest), PlainPause)
                      else if token == "@@!" then Pause(Trim(rest), BeepPause) else Pause(Trim(rest), VerdictPause))
  {
  }

  /** The commands that take the rest of the text, white space around it aside, if no longer token begins it. */
  lemma TextCommands(token: string, rest: string, read: NumberReader)
    requires token in ["@@!", "@@+", "@@", "@[t!", "@[t", "@!", "@"] && IsLongest(TOKENS, token + rest, token)
    ensures Parse(token + rest, read)
            == Parsed(if token == "@" then Show(Trim(rest), false) else if token == "@!" then Show(Trim(rest), true)
                      else if token == "@[t" then Trace(Trim(rest), false)
                      else if token == "@[t!" then Trace(Trim(rest), true)
                      else if token == "@@" then Pause(Trim(rest), PlainPause)
                      else if token == "@@!" then Pause(Trim(rest), BeepPause) else Pause(Trim(rest), VerdictPause))
  {
    TextTokens(token);
    TokenDecides(token, rest, read);
    TextBuilt(token, TrimEnd(rest), read);
    TrimsInside(rest);
  }

  /** In front of white space nothing longer begins. */
  lemma SpacedText(token: string, rest: string)
    requires token in ["@@!", "@@+", "@@", "@[t!", "@[t", "@!", "@"] && (rest == "" || IsSpace(rest[0]))
    ensures IsLongest(TOKENS, token + rest, token)
  {
    TextTokens(token);
    StandsAlone(token, rest);
  }
}
