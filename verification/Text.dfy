/** The string operations the templates rely on, as Rust's standard library defines them. */
module Text {
  import opened Wrappers

  /** Unicode `White_Space`. */
  predicate IsSpace(c: char) {
    '\U{9}' <= c <= '\U{D}' || c == ' ' || c == '\U{85}' || c == '\U{A0}' || c == '\U{1680}'
    || '\U{2000}' <= c <= '\U{200A}' || c == '\U{2028}' || c == '\U{2029}' || c == '\U{202F}'
    || c == '\U{205F}' || c == '\U{3000}'
  }

  function TrimStart(s: string): string {
    if s != [] && IsSpace(s[0]) then TrimStart(s[1..]) else s
  }

  function TrimEnd(s: string): string {
    if s != [] && IsSpace(Last(s)) then TrimEnd(DropLast(s)) else s
  }

  function Trim(s: string): string {
    TrimEnd(TrimStart(s))
  }

  /** Leading white space is that of what stands before a visible character, trailing that of what follows it. */
  lemma {:induction false} TrimStartBefore(a: string, c: char, b: string)
    requires !IsSpace(c)
    ensures TrimStart(a + [c] + b) == TrimStart(a) + [c] + b
    ensures forall x :: x in TrimStart(a) ==> x in a
  {
    if a != [] && IsSpace(a[0]) {
      assert (a + [c] + b)[1..] == a[1..] + [c] + b;
      TrimStartBefore(a[1..], c, b);
    }
  }

  lemma {:induction false} TrimEndBehind(a: string, c: char, b: string)
    requires !IsSpace(c)
    ensures TrimEnd(a + [c] + b) == a + [c] + TrimEnd(b)
    ensures forall x :: x in TrimEnd(b) ==> x in b
  {
    if b == [] {
      assert a + [c] + b == a + [c];
    } else if IsSpace(Last(b)) {
      assert DropLast(a + [c] + b) == a + [c] + DropLast(b);
      TrimEndBehind(a, c, DropLast(b));
    }
  }

  lemma TrimAround(a: string, c: char, b: string)
    requires !IsSpace(c)
    ensures Trim(a + [c] + b) == TrimStart(a) + [c] + TrimEnd(b)
    ensures forall x :: x in TrimStart(a) ==> x in a
    ensures forall x :: x in TrimEnd(b) ==> x in b
  {
    TrimStartBefore(a, c, b);
    TrimEndBehind(TrimStart(a), c, b);
  }

  lemma {:induction false} TrimStartTwice(s: string)
    ensures TrimStart(TrimStart(s)) == TrimStart(s)
  {
    if s != [] && IsSpace(s[0]) {
      TrimStartTwice(s[1..]);
    }
  }

  lemma {:induction false} TrimStartSpace(s: string, x: char)
    requires IsSpace(x)
    ensures TrimStart(s + [x]) == if TrimStart(s) == [] then [] else TrimStart(s) + [x]
  {
    if s == [] {
      assert s + [x] == [x] && [x][1..] == [];
    } else if IsSpace(s[0]) {
      assert (s + [x])[1..] == s[1..] + [x];
      TrimStartSpace(s[1..], x);
    }
  }

  lemma TrimSpace(s: string, x: char)
    requires IsSpace(x)
    ensures Trim(s + [x]) == Trim(s)
  {
    TrimStartSpace(s, x);
    if TrimStart(s) != [] {
      assert DropLast(TrimStart(s) + [x]) == TrimStart(s);
    }
  }

  lemma {:induction false} TrimEndFirst(s: string)
    ensures Trim(TrimEnd(s)) == Trim(s)
  {
    if s != [] && IsSpace(Last(s)) {
      TrimEndFirst(DropLast(s));
      TrimSpace(DropLast(s), Last(s));
      assert s == DropLast(s) + [Last(s)];
    }
  }

  /** Trimming one end first changes nothing. */
  lemma TrimsInside(s: string)
    ensures Trim(TrimStart(s)) == Trim(s) == Trim(TrimEnd(s))
  {
    TrimStartTwice(s);
    TrimEndFirst(s);
  }

  /** Length of the leading run without white space. */
  function WordEnd(s: string): (n: nat)
    ensures n <= |s|
  {
    if s == [] || IsSpace(s[0]) then 0 else 1 + WordEnd(s[1..])
  }

  function SplitWhitespace(s: string): seq<string>
    decreases |s|
  {
    if s == [] then []
    else if IsSpace(s[0]) then SplitWhitespace(s[1..])
    else [s[..WordEnd(s)]] + SplitWhitespace(s[WordEnd(s)..])
  }

  predicate IsWord(s: string) {
    s != [] && forall i :: 0 <= i < |s| ==> !IsSpace(s[i])
  }

  predicate AreWords(words: seq<string>) {
    forall i :: 0 <= i < |words| ==> IsWord(words[i])
  }

  function Join(words: seq<string>): string {
    if words == [] then "" else if |words| == 1 then words[0] else words[0] + " " + Join(words[1..])
  }

  lemma {:induction false} WordEndIsWord(s: string)
    requires s != [] && !IsSpace(s[0])
    ensures WordEnd(s) > 0 && IsWord(s[..WordEnd(s)])
  {
    if |s| > 1 && !IsSpace(s[1]) {
      WordEndIsWord(s[1..]);
      assert s[..WordEnd(s)] == [s[0]] + s[1..][..WordEnd(s[1..])];
    }
  }

  lemma {:induction false} SplitGivesWords(s: string)
    ensures AreWords(SplitWhitespace(s))
    decreases |s|
  {
    if s != [] {
      if IsSpace(s[0]) {
        SplitGivesWords(s[1..]);
      } else {
        WordEndIsWord(s);
        SplitGivesWords(s[WordEnd(s)..]);
      }
    }
  }

  lemma {:induction false} WordEndOfWord(w: string, rest: string)
    requires forall i :: 0 <= i < |w| ==> !IsSpace(w[i])
    requires rest == [] || IsSpace(rest[0])
    ensures WordEnd(w + rest) == |w|
  {
    if w == [] {
      assert w + rest == rest;
    } else {
      WordEndOfWord(w[1..], rest);
      assert (w + rest)[1..] == w[1..] + rest;
    }
  }

  /** Joining words with a space and splitting again gives the words back. */
  lemma {:induction false} SplitJoin(words: seq<string>)
    requires AreWords(words)
    ensures SplitWhitespace(Join(words)) == words
  {
    if words != [] {
      var w := words[0];
      var rest := if |words| == 1 then "" else " " + Join(words[1..]);
      assert Join(words) == w + rest;
      WordEndOfWord(w, rest);
      assert (w + rest)[..|w|] == w && (w + rest)[|w|..] == rest;
      if |words| > 1 {
        SplitJoin(words[1..]);
        assert rest[1..] == Join(words[1..]);
      }
    }
  }

  lemma WordEndBefore(a: string, x: char, b: string)
    requires IsSpace(x) && a != [] && !IsSpace(a[0])
    ensures WordEnd(a + [x] + b) == WordEnd(a)
    ensures (a + [x] + b)[..WordEnd(a)] == a[..WordEnd(a)]
    ensures (a + [x] + b)[WordEnd(a)..] == a[WordEnd(a)..] + [x] + b
  {
    if |a| > 1 && !IsSpace(a[1]) {
      WordEndBefore(a[1..], x, b);
      assert (a + [x] + b)[1..] == a[1..] + [x] + b;
    } else {
      assert (a + [x] + b)[1..] == a[1..] + [x] + b;
      if |a| == 1 {
        assert a[1..] + [x] + b == [x] + b;
      }
    }
  }

  /** White space splits a text anywhere it stands. */
  lemma {:induction false} SplitAtSpace(a: string, x: char, b: string)
    requires IsSpace(x)
    ensures SplitWhitespace(a + [x] + b) == SplitWhitespace(a) + SplitWhitespace(b)
    decreases |a|
  {
    var s := a + [x] + b;
    if a == [] {
      assert s[0] == x && s[1..] == b;
    } else if IsSpace(a[0]) {
      assert s[1..] == a[1..] + [x] + b;
      SplitAtSpace(a[1..], x, b);
    } else {
      WordEndBefore(a, x, b);
      SplitAtSpace(a[WordEnd(a)..], x, b);
    }
  }

  /** A text without white space is one word, unless it is empty. */
  lemma WordAlone(w: string)
    requires IsWord(w)
    ensures SplitWhitespace(w) == [w] && SplitWhitespace("") == []
  {
    WordEndOfWord(w, "");
    assert w + "" == w && w[|w|..] == "" && w[..|w|] == w;
  }

  /** The white space characters: tab to carriage return, space, and Unicode's others. */
  lemma SpacesAre(c: char)
    ensures IsSpace(c) <==> c as int in {9, 10, 11, 12, 13, 32, 0x85, 0xA0, 0x1680, 0x2000, 0x2001, 0x2002, 0x2003,
                                         0x2004, 0x2005, 0x2006, 0x2007, 0x2008, 0x2009, 0x200A, 0x2028, 0x2029,
                                         0x202F, 0x205F, 0x3000}
  {
  }

  // ---------------------------------------------------------------------
  // Numbers
  // ---------------------------------------------------------------------

  function DigitValue(c: char, radix: nat): Option<nat>
    requires radix == 10 || radix == 16
  {
    if '0' <= c <= '9' then Some((c as int - '0' as int) as nat)
    else if radix == 16 && 'a' <= c <= 'f' then Some((c as int - 'a' as int + 10) as nat)
    else if radix == 16 && 'A' <= c <= 'F' then Some((c as int - 'A' as int + 10) as nat)
    else None
  }

  function Digits(s: string, radix: nat): Option<nat>
    requires radix == 10 || radix == 16
  {
    if s == [] then Some(0)
    else
      var high, low := Digits(DropLast(s), radix), DigitValue(Last(s), radix);
      if high.Some? && low.Some? then Some(high.value * radix + low.value) else None
  }

  lemma {:induction false} NonDigitSpoils(s: string, radix: nat, k: nat)
    requires (radix == 10 || radix == 16) && k < |s| && DigitValue(s[k], radix).None?
    ensures Digits(s, radix).None?
  {
    if k < |s| - 1 {
      NonDigitSpoils(DropLast(s), radix, k);
    }
  }

  /** `from_str_radix` of an unsigned type: an optional plus sign, then digits. */
  function ParseUnsigned(s: string, radix: nat, max: nat): Option<nat>
    requires radix == 10 || radix == 16
  {
    var digits := if s != [] && s[0] == '+' then s[1..] else s;
    if digits == [] then None
    else match Digits(digits, radix)
      case Some(n) => if n <= max then Some(n) else None
      case None => None
  }

  lemma OneDigit(c: char)
    ensures ParseUnsigned([c], 16, 255) == DigitValue(c, 16)
    ensures DigitValue(c, 16).Some? ==> DigitValue(c, 16).value < 16
  {
    assert [c][1..] == "" && DropLast([c]) == "" && Last([c]) == c;
    assert Digits("", 16) == Some(0);
    assert DigitValue('+', 16).None?;
  }

  /** `parse` of a signed type with range `-max - 1` to `max`. */
  function ParseSigned(s: string, max: nat): Option<int> {
    if s != [] && s[0] == '-' then
      match (if |s| == 1 then None else Digits(s[1..], 10))
      case Some(n) => if n <= max + 1 then Some(-n) else None
      case None => None
    else
      match ParseUnsigned(s, 10, max)
      case Some(n) => Some(n)
      case None => None
  }

  /** A number in decimal digits, without leading zeros. */
  function Decimal(n: nat): string {
    if n < 10 then [('0' as int + n) as char] else Decimal(n / 10) + [('0' as int + n % 10) as char]
  }

  /** `d` reads as `n`: decimal digits alone, leading zeros allowed. */
  predicate Reads(d: string, n: nat) {
    d != [] && (forall k :: 0 <= k < |d| ==> '0' <= d[k] <= '9') && Digits(d, 10) == Some(n)
  }

  lemma DigitReads(n: nat)
    requires n < 10
    ensures Reads([('0' as int + n) as char], n)
  {
    var c := ('0' as int + n) as char;
    assert DropLast([c]) == "" && Last([c]) == c && Digits("", 10) == Some(0);
  }

  lemma DigitAppended(d: string, n: nat, low: nat)
    requires Reads(d, n) && low < 10
    ensures Reads(d + [('0' as int + low) as char], n * 10 + low)
  {
    var more := d + [('0' as int + low) as char];
    assert DropLast(more) == d && Last(more) == ('0' as int + low) as char;
    assert DigitValue(Last(more), 10) == Some(low);
  }

  /** A written number reads back. */
  lemma {:induction false} DecimalReads(n: nat)
    ensures Reads(Decimal(n), n)
  {
    if n < 10 {
      DigitReads(n);
    } else {
      DecimalReads(n / 10);
      DigitAppended(Decimal(n / 10), n / 10, n % 10);
    }
  }

  /** What a number in digits, with or without a sign, parses to. */
  lemma NumbersParse(d: string, n: nat, max: nat)
    requires Reads(d, n)
    ensures ParseUnsigned(d, 10, max) == ParseUnsigned("+" + d, 10, max) == if n <= max then Some(n) else None
    ensures ParseUnsigned("-" + d, 10, max) == None
    ensures ParseSigned(d, max) == ParseSigned("+" + d, max) == if n <= max then Some(n) else None
    ensures ParseSigned("-" + d, max) == if n <= max + 1 then Some(-(n as int)) else None
    ensures ParseUnsigned("", 10, max) == None && ParseSigned("", max) == None
  {
    assert ("+" + d)[1..] == d && ("-" + d)[1..] == d;
    NonDigitSpoils("-" + d, 10, 0);
  }

  /** The hexadecimal digits, upper and lower case. */
  lemma HexDigits(c: char, v: nat)
    ensures DigitValue(c, 16) == Some(v) <==> v < 16 && (c == "0123456789abcdef"[v] || c == "0123456789ABCDEF"[v])
    ensures DigitValue(c, 10) == Some(v) <==> v < 10 && c == "0123456789"[v]
  {
  }

  /** Two hexadecimal digits are the high and the low half of an octet. */
  lemma TwoHexDigits(high: char, low: char, h: nat, l: nat)
    requires DigitValue(high, 16) == Some(h) && DigitValue(low, 16) == Some(l)
    ensures ParseUnsigned([high, low], 16, 255) == Some(16 * h + l)
  {
    assert DropLast([high, low]) == [high] && DropLast([high]) == "" && Digits("", 16) == Some(0);
    assert Digits([high], 16) == Some(h);
  }

  // ---------------------------------------------------------------------
  // Searching
  // ---------------------------------------------------------------------

  /** Position of the first character of `s` that is one of `cs`. */
  function Find(s: string, cs: string): Option<nat> {
    if s == [] then None
    else if s[0] in cs then Some(0)
    else match Find(s[1..], cs)
      case Some(i) => Some(i + 1)
      case None => None
  }

  lemma {:induction false} FindFirst(s: string, cs: string)
    ensures match Find(s, cs)
            case Some(i) => i < |s| && s[i] in cs && forall k :: 0 <= k < i ==> s[k] !in cs
            case None => forall k :: 0 <= k < |s| ==> s[k] !in cs
  {
    if s != [] && s[0] !in cs {
      FindFirst(s[1..], cs);
      assert forall k :: 1 <= k < |s| ==> s[k] == s[1..][k - 1];
    }
  }

  /** Where a character stands behind text that has none of those looked for. */
  lemma {:induction false} FindBehind(before: string, c: char, after: string, cs: string)
    requires c in cs && forall k :: 0 <= k < |before| ==> before[k] !in cs
    ensures Find(before + [c] + after, cs) == Some(|before|)
  {
    var s := before + [c] + after;
    if before != "" {
      assert s[1..] == before[1..] + [c] + after;
      FindBehind(before[1..], c, after, cs);
    }
  }

  lemma {:induction false} FindNothing(s: string, cs: string)
    requires forall k :: 0 <= k < |s| ==> s[k] !in cs
    ensures Find(s, cs) == None
  {
    if s != "" {
      FindNothing(s[1..], cs);
    }
  }
}
