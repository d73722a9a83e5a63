/**
 The comment command lexer (conformance/src/eitt/comment.rs): the first token of
 an ordered table that begins the text decides what the comment does. How a
 number is read is a parameter; what is computed from the numbers of a wait time
 is computed here over the reals.
 */
module Comment {
  import opened Wrappers
  import opened Text

  datatype PauseKind = PlainPause | BeepPause | VerdictPause

  datatype Command =
    | Plain(text: string)
    | Show(text: string, beep: bool)
    | Trace(text: string, protected: bool)
    | Pause(text: string, kind: PauseKind)
    | Wait(duration: Option<real>, raw: string, text: string)
    | AutoPass(on: bool)
    | Activate(layer: string, connection: string)
    | Deactivate(connection: string)
    | CallSequence(name: string, conformance: bool)
    | ParallelCall(name: string, loops: Option<nat>, wait: bool)
    | StopParallel(name: string)
    | ClearChallenges
    | ResetSequenceNumbers
    | SetKey(args: string)
    | SetSequenceNumber(args: string)
    | Import(args: string)
    | PointApi(command: string, args: string)
    | Unrecognised(text: string)

  const INTERFACE_COMMANDS: seq<string> := ["@if+", "@if-"]

  const COMMANDS: seq<string> := [
    "@@[pahdiscover", "@@[pahmcast", "@@[pahmdns", "@@[pahctx", "@@[pahdev", "@@[pahsnc",
    "@@[import", "@@[rc", "@@[rn", "@@[sk", "@@[sn",
    "@@[w", "@[w",
    "@@!", "@@+", "@@", "@AP", "@[t!", "@[t", "@!",
    "@##", "@#", "@>w", "@>", "@<",
    "@"
  ]

  const U32_MAX: nat := 0xFFFF_FFFF

  // ---------------------------------------------------------------------
  // Arguments
  // ---------------------------------------------------------------------

  const QUOTES: string := "\"\U{201C}\U{201D}"

  predicate IsQuote(c: char) {
    c in QUOTES
  }

  /** The leading quoted argument and what follows it. */
  function TakeQuoted(input: string): (string, string) {
    var s := TrimStart(input);
    if s == "" then ("", "")
    else if !IsQuote(s[0]) then ("", s)
    else
      var afterOpen := s[1..];
      match Find(afterOpen, QUOTES)
      case Some(end) => FindFirst(afterOpen, QUOTES); (afterOpen[..end], afterOpen[end + 1..])
      case None => (afterOpen, "")
  }

  function StripQuoted(input: string): string {
    TakeQuoted(input).0
  }

  function SplitOnceSemi(s: string): (string, string) {
    match Find(s, ";")
    case Some(i) => FindFirst(s, ";"); (Trim(s[..i]), Trim(s[i + 1..]))
    case None => (Trim(s), "")
  }

  predicate QuoteFree(s: string) {
    forall i :: 0 <= i < |s| ==> !IsQuote(s[i])
  }

  predicate IsOpener(s: string) {
    |s| == 1 && IsQuote(s[0])
  }

  /** The argument is what stands between an opening quote and the next one, and
      nothing but leading white space is lost. */
  lemma TakeQuotedSplits(input: string) returns (opener: string, closer: string)
    ensures TrimStart(input) == opener + TakeQuoted(input).0 + closer + TakeQuoted(input).1
    ensures QuoteFree(TakeQuoted(input).0)
    ensures IsOpener(opener) || (opener == "" == TakeQuoted(input).0 && closer == "")
    ensures opener == "" ==> TakeQuoted(input).1 == "" || !IsQuote(TakeQuoted(input).1[0])
    ensures IsOpener(closer) || (closer == "" && (opener == "" || TakeQuoted(input).1 == ""))
  {
    var s := TrimStart(input);
    opener, closer := "", "";
    if s != "" && IsQuote(s[0]) {
      opener := s[..1];
      FindFirst(s[1..], QUOTES);
      if Find(s[1..], QUOTES).Some? {
        var end := Find(s[1..], QUOTES).value;
        closer := [s[1..][end]];
      }
    }
  }

  lemma TrimStartKeeps(s: string)
    requires s == "" || !IsSpace(s[0])
    ensures TrimStart(s) == s
  {
  }

  /** So a quoted argument is read back whatever stands around it. */
  lemma TakeQuotedReadsBack(opener: string, arg: string, closer: string, tail: string)
    requires IsOpener(opener) && QuoteFree(arg) && (IsOpener(closer) || (closer == "" && tail == ""))
    ensures TakeQuoted(opener + arg + closer + tail) == (arg, tail)
  {
    var s := opener + arg + closer + tail;
    TrimStartKeeps(s);
    assert s[1..] == arg + closer + tail;
    FindFirst(s[1..], QUOTES);
    if closer == "" {
      assert s[1..] == arg;
    } else {
      assert s[1..][|arg|] == closer[0];
      assert Find(s[1..], QUOTES) == Some(|arg|);
      assert s[1..][..|arg|] == arg && s[1..][|arg| + 1..] == tail;
    }
  }

  // ---------------------------------------------------------------------
  // Wait times
  // ---------------------------------------------------------------------

  /** A floating-point number, rounding aside. */
  datatype Float = Finite(value: real) | Infinite(negative: bool) | NotANumber

  /** How a number is read: nothing for text that is none. */
  type NumberReader = string -> Option<Float>

  /** `secs * 60.0 + part`. */
  function NextPart(secs: Float, part: Float): Float {
    if secs.Finite? && part.Finite? then Finite(secs.value * 60.0 + part.value)
    else if secs.NotANumber? || part.NotANumber? then NotANumber
    else if secs.Infinite? && part.Infinite? && secs.negative != part.negative then NotANumber
    else if secs.Infinite? then secs
    else part
  }

  function SplitOn(s: string, c: char): (parts: seq<string>)
    ensures parts != []
    decreases |s|
  {
    match Find(s, [c])
    case Some(i) => FindFirst(s, [c]); [s[..i]] + SplitOn(s[i + 1..], c)
    case None => [s]
  }

  /** The seconds some parts stand for, if all of them are numbers. */
  function Seconds(parts: seq<string>, read: NumberReader): Option<Float> {
    if parts == [] then Some(Finite(0.0))
    else
      var before, part := Seconds(DropLast(parts), read), read(Trim(Last(parts)));
      if before.Some? && part.Some? then Some(NextPart(before.value, part.value)) else None
  }

  /** A wait time: none, so many seconds, or a number no duration can hold. */
  datatype WaitTime = NoTime | Waits(seconds: real) | TooLong

  /** One past the largest number of seconds in a duration. */
  const U64: real := 18446744073709551616.0

  /** `Duration::from_secs_f64(secs.max(0.0))`: what is no number or negative counts as zero. */
  function ToDuration(secs: Float): WaitTime {
    match secs
    case Finite(value) => if value >= U64 then TooLong else Waits(if value < 0.0 then 0.0 else value)
    case Infinite(negative) => if negative then Waits(0.0) else TooLong
    case NotANumber => Waits(0.0)
  }

  function WaitTimeOf(text: string, read: NumberReader): WaitTime {
    if Trim(text) == "" then NoTime
    else
      match Seconds(SplitOn(Trim(text), ':'), read)
      case None => NoTime
      case Some(secs) => ToDuration(secs)
  }

  lemma {:induction false} BadPartSpoils(parts: seq<string>, read: NumberReader, k: nat)
    requires k < |parts| && read(Trim(parts[k])).None?
    ensures Seconds(parts, read).None?
  {
    if k < |parts| - 1 {
      BadPartSpoils(DropLast(parts), read, k);
    }
  }

  method ParseWaitTime(text: string, read: NumberReader) returns (r: WaitTime)
    ensures r == WaitTimeOf(text, read)
  {
    var s := Trim(text);
    if s == "" {
      return NoTime;
    }
    var secs := Finite(0.0);
    var parts := SplitOn(s, ':');
    for k := 0 to |parts|
      invariant Seconds(parts[..k], read) == Some(secs)
    {
      assert DropLast(parts[..k + 1]) == parts[..k];
      var part := read(Trim(parts[k]));
      if part.None? {
        BadPartSpoils(parts, read, k);
        return NoTime;
      }
      secs := NextPart(secs, part.value);
    }
    assert parts[..|parts|] == parts;
    return ToDuration(secs);
  }

  lemma SplitHead(a: string, c: char, b: string)
    requires c !in a
    ensures SplitOn(a + [c] + b, c) == [a] + SplitOn(b, c)
  {
    var s := a + [c] + b;
    FindFirst(s, [c]);
    assert s[|a|] == c && s[..|a|] == a && s[|a| + 1..] == b;
  }

  lemma SplitWhole(s: string, c: char)
    requires c !in s
    ensures SplitOn(s, c) == [s]
  {
    FindFirst(s, [c]);
  }

  lemma SplitThree(a: string, b: string, d: string, c: char)
    requires c !in a && c !in b && c !in d
    ensures SplitOn(a + [c] + (b + [c] + d), c) == [a, b, d]
  {
    SplitHead(a, c, b + [c] + d);
    SplitHead(b, c, d);
    SplitWhole(d, c);
  }

  predicate ReadsAs(part: string, read: NumberReader, value: real) {
    read(Trim(part)) == Some(Finite(value))
  }

  lemma ThreeParts(h: string, m: string, s: string, read: NumberReader, hours: real, minutes: real, seconds: real)
    requires ReadsAs(h, read, hours) && ReadsAs(m, read, minutes) && ReadsAs(s, read, seconds)
    ensures Seconds([h, m, s], read) == Some(Finite(hours * 3600.0 + minutes * 60.0 + seconds))
  {
    assert DropLast([h, m, s]) == [h, m] && DropLast([h, m]) == [h] && DropLast([h]) == [];
    assert Seconds([h], read) == Some(Finite(hours));
    assert Seconds([h, m], read) == Some(Finite(hours * 60.0 + minutes));
  }

  /** A text of three finite numbers with colons between them waits so many hours, minutes and seconds, whatever
      white space stands around them, and panics from 2^64 seconds on. */
  lemma HoursMinutesSeconds(h: string, m: string, s: string, read: NumberReader,
                            hours: real, minutes: real, seconds: real)
    requires ':' !in h && ':' !in m && ':' !in s
    requires ReadsAs(h, read, hours) && ReadsAs(m, read, minutes) && ReadsAs(s, read, seconds)
    ensures var total := hours * 3600.0 + minutes * 60.0 + seconds;
            WaitTimeOf(h + ":" + (m + ":" + s), read)
            == if total >= 18446744073709551616.0 then TooLong else Waits(if total < 0.0 then 0.0 else total)
  {
    var first, last := TrimStart(h), TrimEnd(s);
    TrimAround(h, ':', m + ":" + s);
    TrimEndBehind(m, ':', s);
    TrimsInside(h);
    TrimsInside(s);
    SplitThree(first, m, last, ':');
    ThreeParts(first, m, last, read, hours, minutes, seconds);
  }

  // ---------------------------------------------------------------------
  // Parsing
  // ---------------------------------------------------------------------

  /** What parsing comes to: a command, or one of the two panics of the source, the `unreachable!` for a
      token that is listed but not built and the overflow of a wait time. */
  datatype Outcome = Parsed(command: Command) | NotBuilt | WaitOverflows

  predicate SaysOn(s: string) {
    |s| == 2 && s[0] in "oO" && s[1] in "nN"
  }

  function BuildInterface(token: string, rest: string): Command {
    var args := StripQuoted(rest);
    if token == "@if+" then Activate(SplitOnceSemi(args).0, SplitOnceSemi(args).1) else Deactivate(args)
  }

  predicate IsWaitToken(token: string) {
    token == "@[w" || token == "@@[w"
  }

  function BuildWait(rest: string, read: NumberReader): Outcome {
    var (raw, tail) := TakeQuoted(rest);
    match WaitTimeOf(raw, read)
    case NoTime => Parsed(Wait(None, raw, Trim(tail)))
    case Waits(seconds) => Parsed(Wait(Some(seconds), raw, Trim(tail)))
    case TooLong => WaitOverflows
  }

  /** The command a token of the main table stands for. */
  function Build(token: string, rest: string, read: NumberReader): Outcome {
    if token == "@" then Parsed(Show(Trim(rest), false))
    else if token == "@!" then Parsed(Show(Trim(rest), true))
    else if token == "@[t" then Parsed(Trace(Trim(rest), false))
    else if token == "@[t!" then Parsed(Trace(Trim(rest), true))
    else if token == "@@" then Parsed(Pause(Trim(rest), PlainPause))
    else if token == "@@!" then Parsed(Pause(Trim(rest), BeepPause))
    else if token == "@@+" then Parsed(Pause(Trim(rest), VerdictPause))
    else if IsWaitToken(token) then BuildWait(rest, read)
    else if token == "@AP" then Parsed(AutoPass(SaysOn(StripQuoted(rest))))
    else if token == "@#" || token == "@##" then Parsed(CallSequence(StripQuoted(rest), token == "@##"))
    else if token == "@>" || token == "@>w" then
      var (name, loops) := SplitOnceSemi(StripQuoted(rest));
      Parsed(ParallelCall(name, ParseUnsigned(loops, 10, U32_MAX), token == "@>w"))
    else if token == "@<" then Parsed(StopParallel(StripQuoted(rest)))
    else if token == "@@[rc" then Parsed(ClearChallenges)
    else if token == "@@[rn" then Parsed(ResetSequenceNumbers)
    else if token == "@@[sk" then Parsed(SetKey(StripQuoted(rest)))
    else if token == "@@[sn" then Parsed(SetSequenceNumber(StripQuoted(rest)))
    else if token == "@@[import" then Parsed(Import(StripQuoted(rest)))
    else if "@@[pah" <= token then Parsed(PointApi(token, StripQuoted(rest)))
    else NotBuilt
  }

  /** The first token of a table that begins the text. */
  function FirstMatch(table: seq<string>, text: string): Option<string> {
    if table == [] then None
    else if table[0] <= text then Some(table[0])
    else FirstMatch(table[1..], text)
  }

  function Parse(text: string, read: NumberReader): Outcome {
    var trimmed := TrimEnd(text);
    if trimmed == "" || trimmed[0] != '@' then Parsed(Plain(Trim(trimmed)))
    else
      match FirstMatch(INTERFACE_COMMANDS, trimmed)
      case Some(token) =>
        FirstMatchBegins(INTERFACE_COMMANDS, trimmed);
        Parsed(BuildInterface(token, trimmed[|token|..]))
      case None =>
        match FirstMatch(COMMANDS, trimmed)
        case Some(token) => FirstMatchBegins(COMMANDS, trimmed); Build(token, trimmed[|token|..], read)
        case None => Parsed(Unrecognised(Trim(trimmed)))
  }

  // ---------------------------------------------------------------------
  // First match and longest match
  // ---------------------------------------------------------------------

  lemma {:induction false} FirstMatchBegins(table: seq<string>, text: string)
    ensures match FirstMatch(table, text)
            case Some(token) => token in table && token <= text
            case None => forall token :: token in table ==> !(token <= text)
  {
    if table != [] && !(table[0] <= text) {
      FirstMatchBegins(table[1..], text);
      assert forall token :: token in table ==> token == table[0] || token in table[1..];
    }
  }

  predicate IsLongest(table: seq<string>, text: string, token: string) {
    token in table && token <= text && forall other :: other in table && other <= text ==> |other| <= |token|
  }

  /** No entry begins a later, different one. */
  predicate Unshadowed(table: seq<string>) {
    forall i, j :: 0 <= i < j < |table| && table[i] <= table[j] ==> table[i] == table[j]
  }

  lemma {:induction false} FirstIsLongest(table: seq<string>, text: string)
    requires Unshadowed(table)
    ensures match FirstMatch(table, text)
            case Some(token) => IsLongest(table, text, token)
            case None => forall token :: token in table ==> !(token <= text)
  {
    FirstMatchBegins(table, text);
    if table != [] {
      if table[0] <= text {
        forall other | other in table && other <= text ensures |other| <= |table[0]| {
          if |other| > |table[0]| {
            PrefixesNest(table[0], other, text);
          }
        }
      } else {
        FirstIsLongest(table[1..], text);
      }
    }
  }

  lemma PrefixesNest(a: string, b: string, text: string)
    requires a <= text && b <= text && |a| <= |b|
    ensures a <= b
  {
    assert a == text[..|a|] && b == text[..|b|];
  }

  predicate NoRepeats(table: seq<string>) {
    forall i, j :: 0 <= i < j < |table| ==> table[i] != table[j]
  }

  lemma {:induction false} FirstMatchEarly(table: seq<string>, text: string, i: nat)
    requires i < |table| && table[i] <= text
    ensures FirstMatch(table, text).Some? && FirstMatch(table, text).value in table[..i + 1]
  {
    if table[0] <= text {
      assert table[..i + 1][0] == table[0];
    } else {
      FirstMatchEarly(table[1..], text, i - 1);
      assert table[..i + 1][1..] == table[1..][..i];
    }
  }

  /** The order of a table is right exactly when no entry shadows a later one. */
  lemma FirstIsLongestIffUnshadowed(table: seq<string>)
    requires NoRepeats(table)
    ensures Unshadowed(table) <==>
            forall text :: FirstMatch(table, text).Some? ==> IsLongest(table, text, FirstMatch(table, text).value)
  {
    if Unshadowed(table) {
      forall text | FirstMatch(table, text).Some? ensures IsLongest(table, text, FirstMatch(table, text).value) {
        FirstIsLongest(table, text);
      }
    } else {
      var i, j :| 0 <= i < j < |table| && table[i] <= table[j] && table[i] != table[j];
      FirstMatchEarly(table, table[j], i);
      var first := FirstMatch(table, table[j]).value;
      var k :| 0 <= k < i + 1 && table[..i + 1][k] == first;
      FirstMatchBegins(table, table[j]);
      assert table[j] in table && first == table[k] != table[j];
    }
  }

  // ---------------------------------------------------------------------
  // The tables of the source
  // ---------------------------------------------------------------------

  /** All tokens, in the order `parse` tries them. */
  const TOKENS: seq<string> := INTERFACE_COMMANDS + COMMANDS

  predicate AgreeAt(a: string, b: string, k: nat) {
    k < |a| ==> k < |b| && a[k] == b[k]
  }

  lemma PrefixAgrees(a: string, b: string)
    ensures a <= b ==> AgreeAt(a, b, 1) && AgreeAt(a, b, 2) && AgreeAt(a, b, 3) && AgreeAt(a, b, 4)
    ensures a <= b ==> AgreeAt(a, b, 6) && AgreeAt(a, b, 7) && AgreeAt(a, b, 8)
  {
  }

  lemma TokensAreUnshadowed()
    ensures Unshadowed(TOKENS) && NoRepeats(TOKENS)
  {
    forall i, j | 0 <= i < j < |TOKENS| ensures !(TOKENS[i] <= TOKENS[j]) {
      PrefixAgrees(TOKENS[i], TOKENS[j]);
    }
  }

  lemma {:induction false} FirstMatchConcat(a: seq<string>, b: seq<string>, text: string)
    ensures FirstMatch(a + b, text) == if FirstMatch(a, text).Some? then FirstMatch(a, text) else FirstMatch(b, text)
  {
    if a == [] {
      assert a + b == b;
    } else {
      FirstMatchConcat(a[1..], b, text);
      assert (a + b)[1..] == a[1..] + b;
    }
  }

  /** Trimming the end cannot remove a token at the front. */
  lemma {:induction false} TrimEndKeepsFront(text: string, token: string)
    requires token != "" && !IsSpace(Last(token))
    ensures token <= TrimEnd(text) <==> token <= text
  {
    if text != "" && IsSpace(Last(text)) {
      TrimEndKeepsFront(DropLast(text), token);
      if token <= text {
        assert token != text;
        assert token <= DropLast(text);
      }
    }
  }

  lemma CommandsHaveNoSpace(token: string)
    requires token in COMMANDS
    ensures token != "" && token[0] == '@' && !IsSpace(Last(token))
  {
  }

  lemma TokensHaveNoSpace(token: string)
    requires token in TOKENS
    ensures token != "" && token[0] == '@' && !IsSpace(Last(token))
  {
    if token in COMMANDS {
      CommandsHaveNoSpace(token);
    }
  }

  function BuildAny(token: string, rest: string, read: NumberReader): Outcome {
    if token in INTERFACE_COMMANDS then Parsed(BuildInterface(token, rest)) else Build(token, rest, read)
  }

  /** The token a command reports for diagnostics. */
  function TokenOf(command: Command): string {
    match command
    case Plain(_) => ""
    case Unrecognised(_) => ""
    case Show(_, beep) => if beep then "@!" else "@"
    case Trace(_, protected) => if protected then "@[t!" else "@[t"
    case Pause(_, kind) =>
      (match kind
       case PlainPause => "@@"
       case BeepPause => "@@!"
       case VerdictPause => "@@+")
    case Wait(_, _, _) => "@[w"
    case AutoPass(_) => "@AP"
    case Activate(_, _) => "@if+"
    case Deactivate(_) => "@if-"
    case CallSequence(_, conformance) => if conformance then "@##" else "@#"
    case ParallelCall(_, _, wait) => if wait then "@>w" else "@>"
    case StopParallel(_) => "@<"
    case ClearChallenges => "@@[rc"
    case ResetSequenceNumbers => "@@[rn"
    case SetKey(_) => "@@[sk"
    case SetSequenceNumber(_) => "@@[sn"
    case Import(_) => "@@[import"
    case PointApi(_, _) => "@@[pah"
  }

  /** The two families that share one reported token, and the rest, which report their own. */
  function ReportedToken(token: string): string {
    if token == "@@[w" then "@[w" else if "@@[pah" <= token then "@@[pah" else token
  }

  /** The token builds a command that is no fallback and reports the token it was written with;
      only a wait time can overflow instead. */
  predicate BuildsAs(token: string, rest: string, read: NumberReader) {
    match BuildAny(token, rest, read)
    case Parsed(command) => !command.Unrecognised? && !command.Plain? && TokenOf(command) == ReportedToken(token)
    case NotBuilt => false
    case WaitOverflows => IsWaitToken(token) && WaitTimeOf(TakeQuoted(rest).0, read).TooLong?
  }

  lemma ShortTokensBuild(token: string, rest: string, read: NumberReader)
    requires token in ["@", "@@", "@!", "@#", "@>", "@<"]
    ensures BuildsAs(token, rest, read)
  {
  }

  lemma MiddleTokensBuild(token: string, rest: string, read: NumberReader)
    requires token in ["@@!", "@@+", "@AP", "@[t", "@##", "@>w"]
    ensures BuildsAs(token, rest, read)
  {
  }

  lemma BuildWaitIs(rest: string, read: NumberReader)
    ensures BuildWait(rest, read).WaitOverflows? <==> WaitTimeOf(TakeQuoted(rest).0, read).TooLong?
    ensures || BuildWait(rest, read).WaitOverflows?
            || (BuildWait(rest, read).Parsed? && BuildWait(rest, read).command.Wait?)
  {
  }

  lemma WaitTokensBuildWaits(token: string, rest: string, read: NumberReader)
    requires IsWaitToken(token)
    ensures BuildAny(token, rest, read) == BuildWait(rest, read) && ReportedToken(token) == "@[w"
  {
  }

  /** A wait token builds a wait, unless its time overflows. */
  lemma WaitTokensBuild(token: string, rest: string, read: NumberReader)
    requires IsWaitToken(token)
    ensures BuildsAs(token, rest, read)
    ensures BuildAny(token, rest, read).WaitOverflows? <==> WaitTimeOf(TakeQuoted(rest).0, read).TooLong?
  {
    WaitTokensBuildWaits(token, rest, read);
    BuildWaitIs(rest, read);
  }

  lemma FourLetterTokensBuild(token: string, rest: string, read: NumberReader)
    requires token in ["@[t!", "@if+", "@if-"]
    ensures BuildsAs(token, rest, read)
  {
  }

  lemma SecurityTokensBuild(token: string, rest: string, read: NumberReader)
    requires token in ["@@[rc", "@@[rn", "@@[sk", "@@[sn"]
    ensures BuildsAs(token, rest, read)
  {
  }

  lemma PointApiTokensBuild(token: string, rest: string, read: NumberReader)
    requires "@@[pah" <= token
    ensures BuildsAs(token, rest, read)
  {
    assert token[3] == 'p' && |token| >= 6;
  }

  lemma ImportBuilds(rest: string, read: NumberReader)
    ensures BuildsAs("@@[import", rest, read)
  {
    PrefixAgrees("@@[pah", "@@[import");
  }

  /** The long tokens are the Point API family and the import. */
  lemma LongTokens(token: string)
    requires token in TOKENS && |token| > 5
    ensures token == "@@[import" || token[..6] == "@@[pah"
  {
  }

  /** The table and the match of the source cover each other: no token is left unbuilt, and the only
      panic is the overflow of a wait time. */
  lemma EveryTokenBuilds(token: string, rest: string, read: NumberReader)
    requires token in TOKENS
    ensures BuildsAs(token, rest, read)
    ensures BuildAny(token, rest, read).WaitOverflows?
            <==> IsWaitToken(token) && WaitTimeOf(TakeQuoted(rest).0, read).TooLong?
  {
    if IsWaitToken(token) {
      WaitTokensBuild(token, rest, read);
    } else if |token| <= 2 {
      ShortTokensBuild(token, rest, read);
    } else if |token| == 3 {
      MiddleTokensBuild(token, rest, read);
    } else if |token| == 4 {
      FourLetterTokensBuild(token, rest, read);
    } else if |token| == 5 {
      SecurityTokensBuild(token, rest, read);
    } else {
      LongTokens(token);
      if token == "@@[import" {
        ImportBuilds(rest, read);
      } else {
        PointApiTokensBuild(token, rest, read);
      }
    }
  }

  lemma {:induction false} SameMatch(table: seq<string>, text: string)
    requires forall token :: token in table ==> token in TOKENS
    ensures FirstMatch(table, TrimEnd(text)) == FirstMatch(table, text)
  {
    if table != [] {
      TokensHaveNoSpace(table[0]);
      TrimEndKeepsFront(text, table[0]);
      SameMatch(table[1..], text);
    }
  }

  lemma NoRepeatsApart(a: seq<string>, b: seq<string>, x: string)
    requires NoRepeats(a + b)
    ensures !(x in a && x in b)
  {
    forall i, j | 0 <= i < |a| && 0 <= j < |b| ensures a[i] != b[j] {
      assert (a + b)[i] != (a + b)[|a| + j];
    }
  }

  lemma LongestToken(text: string) returns (token: string)
    requires text != "" && text[0] == '@'
    ensures IsLongest(TOKENS, text, token) && token <= TrimEnd(text)
    ensures FirstMatch(TOKENS, TrimEnd(text)) == Some(token)
  {
    TokensAreUnshadowed();
    assert TOKENS[|TOKENS| - 1] == "@";
    assert text[..1] == "@";
    FirstMatchEarly(TOKENS, text, |TOKENS| - 1);
    FirstIsLongest(TOKENS, text);
    token := FirstMatch(TOKENS, text).value;
    SameMatch(TOKENS, text);
    FirstMatchBegins(TOKENS, TrimEnd(text));
  }

  /** The two loops of `parse` amount to one pass over both tables. */
  lemma ParseIsBuild(text: string, token: string, read: NumberReader)
    requires TrimEnd(text) != "" && TrimEnd(text)[0] == '@'
    requires FirstMatch(TOKENS, TrimEnd(text)) == Some(token) && token <= TrimEnd(text)
    ensures Parse(text, read) == BuildAny(token, TrimEnd(text)[|token|..], read)
  {
    var trimmed := TrimEnd(text);
    FirstMatchConcat(INTERFACE_COMMANDS, COMMANDS, trimmed);
    FirstMatchBegins(INTERFACE_COMMANDS, trimmed);
    FirstMatchBegins(COMMANDS, trimmed);
    TokensAreUnshadowed();
    NoRepeatsApart(INTERFACE_COMMANDS, COMMANDS, token);
  }

  /** For every text that begins with `@`, the command is built from the longest token of both tables
      that begins the text; the text is never Unrecognised and the `unreachable!` arm is never reached.
      The source panics exactly when that token is a wait and its time is too long for a duration. */
  lemma ParseTakesLongest(text: string, read: NumberReader) returns (token: string)
    requires text != "" && text[0] == '@'
    ensures IsLongest(TOKENS, text, token) && token <= TrimEnd(text)
    ensures var rest := TrimEnd(text)[|token|..];
            && Parse(text, read) == BuildAny(token, rest, read) && BuildsAs(token, rest, read)
            && (Parse(text, read).WaitOverflows?
                <==> IsWaitToken(token) && WaitTimeOf(TakeQuoted(rest).0, read).TooLong?)
  {
    token := LongestToken(text);
    TokensHaveNoSpace(token);
    ParseIsBuild(text, token, read);
    EveryTokenBuilds(token, TrimEnd(text)[|token|..], read);
  }

  lemma WaitTokenFound(token: string)
    requires token in TOKENS && |token| >= 3 && token[1] == '[' && token[2] == 'w'
    ensures token == "@[w"
  {
  }

  lemma TrimKeeps(s: string)
    requires s != "" && !IsSpace(s[0]) && !IsSpace(Last(s))
    ensures Trim(s) == s && TrimEnd(s) == s
  {
  }

  lemma InfinityIsTooLong(read: NumberReader)
    requires read("inf") == Some(Infinite(false))
    ensures WaitTimeOf("inf", read) == TooLong
  {
    TrimKeeps("inf");
    FindFirst("inf", ":");
    assert DropLast(["inf"]) == [] && Last(["inf"]) == "inf";
    assert Seconds([], read) == Some(Finite(0.0));
  }

  lemma WaitTokenListed()
    ensures "@[w" in TOKENS
  {
    assert TOKENS[|INTERFACE_COMMANDS| + 12] == "@[w";
  }

  lemma WaitTextParses(text: string, read: NumberReader)
    requires "@[w" <= text && !IsSpace(Last(text))
    ensures Parse(text, read) == BuildWait(text[3..], read)
  {
    TrimKeeps(text);
    WaitTokenListed();
    var token := LongestToken(text);
    ParseIsBuild(text, token, read);
    assert token == text[..|token|] && |token| >= 3;
    WaitTokenFound(token);
    WaitTokensBuildWaits(token, text[3..], read);
  }

  /** A comment with a quoted wait time makes the source panic exactly when that time overflows. */
  lemma QuotedWaitOverflows(opener: string, raw: string, closer: string, read: NumberReader)
    requires IsOpener(opener) && QuoteFree(raw) && IsOpener(closer)
    ensures Parse("@[w" + opener + raw + closer, read).WaitOverflows? <==> WaitTimeOf(raw, read).TooLong?
  {
    var text, quoted := "@[w" + opener + raw + closer, opener + raw + closer;
    assert text[3..] == quoted + "" && Last(text) == closer[0];
    QuoteIsNoSpace(closer[0]);
    WaitTextParses(text, read);
    TakeQuotedReadsBack(opener, raw, closer, "");
    BuildWaitIs(quoted + "", read);
  }

  lemma QuoteIsNoSpace(c: char)
    requires IsQuote(c)
    ensures !IsSpace(c)
  {
  }

  /** A reader that takes `inf` for a number, as the source's does, makes a wait for it panic. */
  lemma InfiniteWaitOverflows(quote: string, read: NumberReader)
    requires IsOpener(quote) && read("inf") == Some(Infinite(false))
    ensures Parse("@[w" + quote + "inf" + quote, read) == WaitOverflows
  {
    assert QuoteFree("inf");
    InfinityIsTooLong(read);
    QuotedWaitOverflows(quote, "inf", quote, read);
  }
}
