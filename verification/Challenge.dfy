/** The WWW-Authenticate challenge: three printers, and the leftmost-match parser
    that reads it back. */
module Challenges {
  import opened Records
  import ExchangeKeys

  const QUOTE: string := "\""

  predicate QuoteFree(s: string) {
    '"' !in s
  }

  predicate EndsWith(s: string, suffix: string) {
    |suffix| <= |s| && s[|s| - |suffix|..] == suffix
  }

  // ---- the search pattern: name"([^"]+)" ----

  /** How many characters come before the first quote. */
  function Span(s: string): (n: nat)
    ensures n <= |s| && QuoteFree(s[..n]) && (n < |s| ==> s[n] == '"')
  {
    if s == "" || s[0] == '"' then 0 else
      assert s[..1 + Span(s[1..])] == [s[0]] + s[1..][..Span(s[1..])];
      1 + Span(s[1..])
  }

  function MatchHere(name: string, s: string): Option<string> {
    if name + QUOTE <= s then
      var rest := s[|name| + 1..];
      var n := Span(rest);
      if 0 < n < |rest| then Some(rest[..n]) else None
    else None
  }

  function Search(name: string, s: string): Option<string> {
    var here := MatchHere(name, s);
    if here.Some? then here else if s == "" then None else Search(name, s[1..])
  }

  /** The pattern matches at position i, capturing `group`. */
  ghost predicate Matches(name: string, s: string, i: nat, group: string) {
    i <= |s| && group != "" && QuoteFree(group) && name + QUOTE + (group + QUOTE) <= s[i..]
  }

  lemma {:induction false} SpanIs(s: string, group: string)
    requires QuoteFree(group) && group + QUOTE <= s
    ensures Span(s) == |group|
  {
    assert s[|group|] == '"' && s[..|group|] == group;
    assert forall k :: 0 <= k < |group| ==> s[k] == group[k] && s[k] in group;
    assert forall k :: 0 <= k < Span(s) ==> s[k] in s[..Span(s)];
  }

  lemma MatchesHere(name: string, s: string, group: string)
    ensures Matches(name, s, 0, group) <==> MatchHere(name, s) == Some(group)
  {
    var pattern := name + QUOTE + (group + QUOTE);
    assert pattern[..|name| + 1] == name + QUOTE && pattern[|name| + 1..] == group + QUOTE;
    assert s[0..] == s;
    if Matches(name, s, 0, group) {
      var rest := s[|name| + 1..];
      assert s[..|name| + 1] == pattern[..|name| + 1];
      assert rest[..|group| + 1] == pattern[|name| + 1..];
      SpanIs(rest, group);
      assert rest[..|group|] == (group + QUOTE)[..|group|] == group;
    }
    if MatchHere(name, s) == Some(group) {
      var rest := s[|name| + 1..];
      assert rest[..|group| + 1] == group + QUOTE;
      assert s[..|pattern|] == s[..|name| + 1] + rest[..|group| + 1];
    }
  }

  /** The search finds exactly the leftmost match, and its capture. */
  lemma {:induction false} SearchIsLeftmost(name: string, s: string)
    ensures Search(name, s).None? ==> forall i: nat, group :: !Matches(name, s, i, group)
    ensures Search(name, s).Some? ==> exists i: nat :: Matches(name, s, i, Search(name, s).value) && forall j: nat, group :: j < i ==> !Matches(name, s, j, group)
  {
    forall group ensures Matches(name, s, 0, group) <==> MatchHere(name, s) == Some(group) { MatchesHere(name, s, group); }
    if MatchHere(name, s).Some? {
      assert Matches(name, s, 0, Search(name, s).value);
    } else if s != "" {
      SearchIsLeftmost(name, s[1..]);
      forall i: nat, group | i > 0 ensures Matches(name, s, i, group) <==> Matches(name, s[1..], i - 1, group) {
        if i <= |s| { assert s[i..] == s[1..][i - 1..]; }
      }
      if Search(name, s).Some? {
        var i: nat :| Matches(name, s[1..], i, Search(name, s).value) && forall j: nat, group :: j < i ==> !Matches(name, s[1..], j, group);
        assert Matches(name, s, i + 1, Search(name, s).value);
      }
    }
  }

  // ---- reading a text as quote-separated segments ----

  function Interleave(segments: seq<string>): string {
    if segments == [] then "" else if |segments| == 1 then segments[0] else segments[0] + QUOTE + Interleave(segments[1..])
  }

  ghost predicate Segments(segments: seq<string>) {
    segments != [] && forall segment :: segment in segments ==> QuoteFree(segment)
  }

  /** The first segment between two quotes that is not empty and follows the name. */
  function FirstNamed(name: string, segments: seq<string>): Option<string> {
    if |segments| < 3 then None
    else if EndsWith(segments[0], name) && segments[1] != "" then Some(segments[1])
    else FirstNamed(name, segments[1..])
  }

  lemma {:induction false} InterleaveHead(segments: seq<string>)
    requires Segments(segments)
    ensures var text := Interleave(segments);
      && segments[0] <= text && Span(text) == |segments[0]|
      && (|segments| == 1 ==> text == segments[0])
      && (|segments| > 1 ==> text[|segments[0]| + 1..] == Interleave(segments[1..]))
      && (|segments| > 1 ==> segments[0] + QUOTE <= text)
  {
    var text := Interleave(segments);
    assert segments[0] in segments;
    if |segments| == 1 {
      assert forall k :: 0 <= k < |text| ==> text[k] in segments[0];
    } else {
      assert text == segments[0] + QUOTE + Interleave(segments[1..]);
      SpanIs(text, segments[0]);
    }
  }

  lemma {:induction false} HeadMatch(name: string, segments: seq<string>)
    requires QuoteFree(name) && name != "" && Segments(segments)
    ensures MatchHere(name, Interleave(segments)) ==
      (if |segments| >= 3 && segments[0] == name && segments[1] != "" then Some(segments[1]) else None)
  {
    var text := Interleave(segments);
    InterleaveHead(segments);
    HeadPrefix(name, segments[0], text);
    if name + QUOTE <= text {
      TailSegments(segments);
      InterleaveHead(segments[1..]);
      CutHere(name, text, segments[1]);
    }
  }

  lemma {:induction false} HeadPrefix(name: string, head: string, text: string)
    requires QuoteFree(name) && head <= text && Span(text) == |head|
    ensures name + QUOTE <= text <==> name == head && |head| < |text|
  {
    if name + QUOTE <= text {
      SpanIs(text, name);
      assert text[..|name|] == (name + QUOTE)[..|name|] == name;
    }
  }

  lemma CutHere(name: string, text: string, next: string)
    requires name + QUOTE <= text && next <= text[|name| + 1..] && Span(text[|name| + 1..]) == |next|
    ensures MatchHere(name, text) == (if next != "" && |next| < |text| - |name| - 1 then Some(next) else None)
  {
    assert text[|name| + 1..][..|next|] == next;
  }

  lemma {:induction false} SearchReadsSegments(name: string, segments: seq<string>)
    requires QuoteFree(name) && name != "" && Segments(segments)
    ensures Search(name, Interleave(segments)) == FirstNamed(name, segments)
    decreases |segments|, |segments[0]|
  {
    var text := Interleave(segments);
    HeadMatch(name, segments);
    assert segments[0] in segments;
    if MatchHere(name, text).None? && text != "" {
      if segments[0] == "" {
        TailSegments(segments);
        SearchReadsSegments(name, segments[1..]);
        assert text[1..] == Interleave(segments[1..]);
      } else {
        var shorter := [segments[0][1..]] + segments[1..];
        assert shorter[1..] == segments[1..];
        assert text[1..] == Interleave(shorter);
        forall segment | segment in shorter ensures QuoteFree(segment) {
          if segment != segments[0][1..] { assert segment in segments[1..]; }
        }
        SearchReadsSegments(name, shorter);
        if segments[0] != name { ShorterEnd(segments[0], name); }
      }
    }
  }

  lemma TailSegments(segments: seq<string>)
    requires Segments(segments) && |segments| > 1
    ensures Segments(segments[1..])
  {
    forall segment | segment in segments[1..] ensures QuoteFree(segment) { assert segment in segments; }
  }

  lemma ShorterEnd(s: string, suffix: string)
    requires s != "" && s != suffix
    ensures EndsWith(s[1..], suffix) <==> EndsWith(s, suffix)
  {
    if |suffix| < |s| { assert s[1..][|s[1..]| - |suffix|..] == s[|s| - |suffix|..]; }
  }

  // ---- printing ----

  /** Who prints. For Go, `printable` is strconv.IsPrint on the characters beyond ASCII. */
  datatype Language = Go(printable: char -> bool) | Python | TypeScript

  function HexDigit(n: int): char
    requires 0 <= n < 16
  {
    if n < 10 then '0' + n as char else 'a' + (n - 10) as char
  }

  function Hex(n: nat, digits: nat): (r: string)
    ensures |r| == digits && QuoteFree(r)
  {
    if digits == 0 then "" else Hex(n / 16, digits - 1) + [HexDigit(n % 16)]
  }

  /** strconv.Quote on one character. */
  function GoEscape(printable: char -> bool, c: char): string {
    if c == '"' then "\\\""
    else if c == '\\' then "\\\\"
    else if ' ' <= c <= '~' || (c >= 128 as char && printable(c)) then [c]
    else if c == 7 as char then "\\a"
    else if c == 8 as char then "\\b"
    else if c == 12 as char then "\\f"
    else if c == '\n' then "\\n"
    else if c == '\r' then "\\r"
    else if c == '\t' then "\\t"
    else if c == 11 as char then "\\v"
    else if c < ' ' || c == 127 as char then "\\x" + Hex(c as int, 2)
    else if (c as int) < 0x1_0000 then "\\u" + Hex(c as int, 4)
    else "\\U" + Hex(c as int, 8)
  }

  function Escape(language: Language, c: char): (r: string)
    ensures r != "" && (c != '"' ==> QuoteFree(r))
  {
    match language
    case Go(printable) => GoEscape(printable, c)
    case Python => [c]
    case TypeScript => if c == '"' || c == '\\' then ['\\', c] else if c == '\n' || c == '\r' then " " else [c]
  }

  function Escaped(language: Language, s: string): string {
    if s == "" then "" else Escape(language, s[0]) + Escaped(language, s[1..])
  }

  function TextOf(parameter: Option<string>): string {
    if parameter.Some? then parameter.value else ""
  }

  datatype Param = Param(name: string, value: string)

  function Text(params: seq<Param>): string {
    if params == [] then "" else params[0].name + QUOTE + (params[0].value + QUOTE + Text(params[1..]))
  }

  function Optional(present: bool, name: string, value: string): seq<Param> {
    if present then [Param(name, value)] else []
  }

  function Later(scope: Option<string>, code: string, description: string): seq<Param> {
    Optional(scope.Some?, ", scope=", TextOf(scope))
      + (Optional(code != "", ", error=", code) + Optional(description != "", ", error_description=", description))
  }

  function Shown(language: Language, params: seq<Param>): (r: seq<Param>)
    ensures |r| == |params|
    ensures forall i :: 0 <= i < |r| ==> r[i] == Param(params[i].name, Escaped(language, params[i].value))
  {
    seq(|params|, i requires 0 <= i < |params| => Param(params[i].name, Escaped(language, params[i].value)))
  }

  /** The challenge of `bearerChallenge` and of the two `unauthorized headers` builders:
      no scope parameter for None, no error parameters for empty texts. The Go builders
      pass the scopes joined in the caller's order, the Python ones joined sorted, the
      TypeScript one none. */
  function Header(language: Language, url: string, scope: Option<string>, code: string, description: string): string {
    Text(Shown(language, [Param("Bearer resource_metadata=", url)] + Later(scope, code, description)))
  }

  /** The scope parameter of a builder: Go joins the scopes as given, Python sorted;
      TypeScript has none. */
  function ScopeOf(language: Language, scopes: seq<string>): Option<string> {
    if scopes == [] || language.TypeScript? then None
    else Some(ExchangeKeys.Join(if language.Python? then ExchangeKeys.Sort(scopes) else scopes))
  }

  /** Printable, and printed as itself. */
  predicate Unescaped(language: Language, s: string) {
    forall c :: c in s ==> c != '"' && Escape(language, c) == [c]
  }

  lemma {:induction false} EscapedLength(language: Language, s: string)
    ensures |Escaped(language, s)| >= |s|
    ensures QuoteFree(s) ==> QuoteFree(Escaped(language, s))
  {
    if s != "" {
      assert s[0] in s;
      EscapedLength(language, s[1..]);
    }
  }

  lemma {:induction false} EscapedIsItself(language: Language, s: string)
    requires QuoteFree(s)
    ensures Escaped(language, s) == s <==> Unescaped(language, s)
  {
    if s != "" {
      var first, rest := Escape(language, s[0]), Escaped(language, s[1..]);
      EscapedLength(language, s[1..]);
      EscapedIsItself(language, s[1..]);
      assert s == [s[0]] + s[1..] && s[0] in s;
      assert forall c :: c in s <==> c == s[0] || c in s[1..];
      if Escaped(language, s) == s {
        assert |first| == 1 && first[0] == (first + rest)[0];
        assert (first + rest)[1..] == rest;
      }
    }
  }

  // ---- what a standard reader makes of a printed value ----

  /** A quoted string after its opening quote, read as RFC 9110 section 5.6.4 reads it:
      a backslash gives way to the character after it, and the first quote without one
      ends it. The value, and the text after the closing quote. */
  function ReadQuoted(s: string): Option<(string, string)> {
    if s == "" then None
    else if s[0] == '"' then Some(("", s[1..]))
    else if s[0] == '\\' && |s| == 1 then None
    else
      var (c, after) := if s[0] == '\\' then (s[1], s[2..]) else (s[0], s[1..]);
      var read := ReadQuoted(after);
      if read.None? then None else Some(([c] + read.value.0, read.value.1))
  }

  /** The text with its line breaks turned to spaces. */
  function OneLine(s: string): string {
    if s == "" then "" else [if s[0] == '\n' || s[0] == '\r' then ' ' else s[0]] + OneLine(s[1..])
  }

  /** What the Go client shows as it is, or with a backslash before it. */
  predicate Shows(printable: char -> bool, c: char) {
    ' ' <= c <= '~' || (c >= 128 as char && printable(c))
  }

  function Prepended(text: string, read: Option<(string, string)>): Option<(string, string)> {
    if read.None? then None else Some((text + read.value.0, read.value.1))
  }

  lemma {:induction false} ReadPlain(c: char, after: string)
    requires c != '\\' && c != '"'
    ensures ReadQuoted([c] + after) == Prepended([c], ReadQuoted(after))
  {
    assert ([c] + after)[1..] == after;
  }

  lemma {:induction false} ReadPair(c: char, after: string)
    ensures ReadQuoted(['\\', c] + after) == Prepended([c], ReadQuoted(after))
  {
    assert (['\\', c] + after)[2..] == after;
  }

  /** The TypeScript client's values come back to a standard reader, on one line, and
      the reader goes on where the value was closed. */
  lemma {:induction false} TypeScriptValueRead(s: string, rest: string)
    ensures ReadQuoted(Escaped(TypeScript, s) + QUOTE + rest) == Some((OneLine(s), rest))
  {
    if s == "" {
      assert (QUOTE + rest)[1..] == rest;
    } else {
      var after := Escaped(TypeScript, s[1..]) + QUOTE + rest;
      TypeScriptValueRead(s[1..], rest);
      assert Escaped(TypeScript, s) + QUOTE + rest == Escape(TypeScript, s[0]) + after;
      if s[0] == '"' || s[0] == '\\' {
        ReadPair(s[0], after);
      } else if s[0] == '\n' || s[0] == '\r' {
        ReadPlain(' ', after);
      } else {
        ReadPlain(s[0], after);
      }
    }
  }

  /** Plain letters and digits after a backslash read as themselves. */
  lemma {:induction false} ReadLetters(text: string, after: string)
    requires QuoteFree(text) && '\\' !in text
    ensures ReadQuoted(text + after) == Prepended(text, ReadQuoted(after))
  {
    if text == "" {
      assert text + after == after;
      if ReadQuoted(after).Some? { assert "" + ReadQuoted(after).value.0 == ReadQuoted(after).value.0; }
    } else {
      ReadLetters(text[1..], after);
      assert text + after == [text[0]] + (text[1..] + after);
      ReadPlain(text[0], text[1..] + after);
      if ReadQuoted(after).Some? {
        var value := ReadQuoted(after).value.0;
        assert [text[0]] + (text[1..] + value) == text + value;
      }
    }
  }

  lemma {:induction false} HexPlain(n: nat, digits: nat)
    ensures '\\' !in Hex(n, digits)
  {
    if digits > 0 { HexPlain(n / 16, digits - 1); }
  }

  lemma EscapeShape(printable: char -> bool, c: char) returns (text: string)
    requires !Shows(printable, c)
    ensures GoEscape(printable, c) == ['\\'] + text && text != "" && text[0] != c && QuoteFree(text) && '\\' !in text
  {
    HexPlain(c as int, 2);
    HexPlain(c as int, 4);
    HexPlain(c as int, 8);
    text := GoEscape(printable, c)[1..];
  }

  /** An escape of a character Go does not show reads as a letter, perhaps with digits. */
  lemma EscapeReads(printable: char -> bool, c: char, after: string) returns (text: string)
    requires !Shows(printable, c)
    ensures text != "" && text[0] != c && ReadQuoted(GoEscape(printable, c) + after) == Prepended(text, ReadQuoted(after))
  {
    text := EscapeShape(printable, c);
    assert (['\\'] + text) + after == ['\\', text[0]] + (text[1..] + after);
    ReadPair(text[0], text[1..] + after);
    ReadLetters(text[1..], after);
    if ReadQuoted(after).Some? {
      var value := ReadQuoted(after).value.0;
      assert [text[0]] + (text[1..] + value) == text + value;
    }
  }

  lemma {:induction false} ShownReads(printable: char -> bool, c: char, after: string)
    requires Shows(printable, c)
    ensures ReadQuoted(GoEscape(printable, c) + after) == Prepended([c], ReadQuoted(after))
  {
    if c == '"' || c == '\\' {
      ReadPair(c, after);
    } else {
      ReadPlain(c, after);
    }
  }

  lemma FirstDecides(s: string, text: string, others: string)
    requires s != "" && text != ""
    ensures text == [s[0]] ==> (text + others == s <==> others == s[1..])
    ensures text[0] != s[0] ==> text + others != s
  {
    if text == [s[0]] {
      assert (text + others)[1..] == others && [s[0]] + s[1..] == s;
    } else {
      assert (text + others)[0] == text[0];
    }
  }

  lemma {:induction false} GoValueEnds(printable: char -> bool, s: string, rest: string)
    ensures var read := ReadQuoted(Escaped(Go(printable), s) + QUOTE + rest);
      read.Some? && read.value.1 == rest && (read.value.0 == s <==> forall c :: c in s ==> Shows(printable, c))
  {
    if s == "" {
      assert (QUOTE + rest)[1..] == rest;
    } else {
      var after := Escaped(Go(printable), s[1..]) + QUOTE + rest;
      GoValueEnds(printable, s[1..], rest);
      assert Escaped(Go(printable), s) + QUOTE + rest == GoEscape(printable, s[0]) + after;
      assert forall c :: c in s <==> c == s[0] || c in s[1..];
      var text := [s[0]];
      if Shows(printable, s[0]) {
        ShownReads(printable, s[0], after);
      } else {
        text := EscapeReads(printable, s[0], after);
      }
      FirstDecides(s, text, ReadQuoted(after).value.0);
    }
  }

  /** The Go client's values are quoted strings, and come back to a standard reader
      exactly when Go holds every character printable: its escapes of the others are
      not quoted pairs. */
  lemma {:induction false} GoValueRead(printable: char -> bool, s: string, rest: string)
    ensures ReadQuoted(Escaped(Go(printable), s) + QUOTE + rest) == Some((s, rest)) <==> forall c :: c in s ==> Shows(printable, c)
  {
    GoValueEnds(printable, s, rest);
  }

  // ---- what Go itself reads back ----

  function DigitOf(d: char): int {
    if '0' <= d <= '9' then d as int - '0' as int else if 'a' <= d <= 'f' then d as int - 'a' as int + 10 else -1
  }

  function HexValue(digits: string): int {
    if digits == "" then 0 else HexValue(digits[..|digits| - 1]) * 16 + DigitOf(digits[|digits| - 1])
  }

  function Power16(k: nat): nat {
    if k == 0 then 1 else 16 * Power16(k - 1)
  }

  lemma {:induction false} HexRead(n: nat, digits: nat)
    requires n < Power16(digits)
    ensures HexValue(Hex(n, digits)) == n
  {
    if digits > 0 {
      HexRead(n / 16, digits - 1);
      assert Hex(n, digits)[..digits - 1] == Hex(n / 16, digits - 1);
    }
  }

  /** One character of a Go string literal, as its code point, and the text after it. */
  function ReadGo(s: string): (r: Option<(int, string)>)
    ensures r.Some? ==> |r.value.1| < |s|
  {
    if s == "" || s[0] == '"' then None
    else if s[0] != '\\' then Some((s[0] as int, s[1..]))
    else if |s| < 2 then None
    else
      match s[1]
      case 'a' => Some((7, s[2..]))
      case 'b' => Some((8, s[2..]))
      case 'f' => Some((12, s[2..]))
      case 'n' => Some((10, s[2..]))
      case 'r' => Some((13, s[2..]))
      case 't' => Some((9, s[2..]))
      case 'v' => Some((11, s[2..]))
      case 'x' => ReadHex(s[2..], 2)
      case 'u' => ReadHex(s[2..], 4)
      case 'U' => ReadHex(s[2..], 8)
      case c => if c == '\\' || c == '"' then Some((c as int, s[2..])) else None
  }

  function ReadHex(s: string, digits: nat): (r: Option<(int, string)>)
    ensures r.Some? ==> |r.value.1| <= |s|
  {
    if |s| < digits then None else Some((HexValue(s[..digits]), s[digits..]))
  }

  function Unquoted(s: string): Option<seq<int>>
    decreases |s|
  {
    if s == "" then Some([])
    else
      var first := ReadGo(s);
      if first.None? then None
      else
        var others := Unquoted(first.value.1);
        if others.None? then None else Some([first.value.0] + others.value)
  }

  function Codes(s: string): seq<int> {
    seq(|s|, i requires 0 <= i < |s| => s[i] as int)
  }

  lemma {:induction false} HexEscapeRead(n: nat, digits: nat, after: string)
    requires n < Power16(digits)
    ensures ReadHex(Hex(n, digits) + after, digits) == Some((n, after))
  {
    HexRead(n, digits);
    assert (Hex(n, digits) + after)[..digits] == Hex(n, digits);
  }

  lemma {:induction false} EscapeReadByGo(printable: char -> bool, c: char, after: string)
    ensures ReadGo(GoEscape(printable, c) + after) == Some((c as int, after))
  {
    var head := GoEscape(printable, c);
    assert Power16(2) == 256;
    assert Power16(4) == 0x1_0000;
    assert Power16(8) == 0x1_0000_0000;
    if |head| > 2 {
      var digits := |head| - 2;
      HexEscapeRead(c as int, digits, after);
      assert (head + after)[2..] == Hex(c as int, digits) + after;
    } else {
      assert (head + after)[|head|..] == after;
    }
  }

  /** Quoting loses nothing: Go reads every value back from what it printed. */
  lemma {:induction false} GoQuotesBack(printable: char -> bool, s: string)
    ensures Unquoted(Escaped(Go(printable), s)) == Some(Codes(s))
  {
    if s == "" {
      assert Codes(s) == [];
    } else {
      GoQuotesBack(printable, s[1..]);
      EscapeReadByGo(printable, s[0], Escaped(Go(printable), s[1..]));
      assert Escaped(Go(printable), s) == GoEscape(printable, s[0]) + Escaped(Go(printable), s[1..]);
      assert Codes(s) == [s[0] as int] + Codes(s[1..]);
    }
  }

  // ---- parsing ----

  datatype ProtectedResourceChallenge = ProtectedResourceChallenge(scheme: string, resourceMetadata: Option<string>, scope: Option<string>)

  /** value.partition(" ") */
  function Partition(value: string): (r: (string, string))
    ensures ' ' !in r.0 && ((value == r.0 && r.1 == "") || value == r.0 + " " + r.1)
  {
    if value == "" then ("", "")
    else if value[0] == ' ' then ("", value[1..])
    else
      var (before, after) := Partition(value[1..]);
      assert value == [value[0]] + value[1..];
      ([value[0]] + before, after)
  }

  /** Who parses: only the Go and the Python client read challenges. */
  datatype Parser = GoClient | PythonClient

  /** What each parser searches: Go the whole header, Python only the parameters. */
  function Searched(parser: Parser, value: string): string {
    if parser.PythonClient? then Partition(value).1 else value
  }

  function Parsed(parser: Parser, value: string): ProtectedResourceChallenge {
    ProtectedResourceChallenge(Partition(value).0,
      Search("resource_metadata=", Searched(parser, value)), Search("scope=", Searched(parser, value)))
  }

  lemma {:induction false} PartitionAt(value: string, i: nat)
    requires i < |value| && value[i] == ' ' && ' ' !in value[..i]
    ensures Partition(value) == (value[..i], value[i + 1..])
  {
    if i > 0 {
      assert value[0] in value[..i];
      assert value[1..][..i - 1] == value[..i][1..];
      PartitionAt(value[1..], i - 1);
      assert value[..i] == [value[0]] + value[1..][..i - 1];
      assert value[1..][i..] == value[i + 1..];
    }
  }

  lemma {:induction false} PartitionNone(value: string)
    requires ' ' !in value
    ensures Partition(value) == (value, "")
  {
    if value != "" {
      PartitionNone(value[1..]);
      assert value == [value[0]] + value[1..];
    }
  }

  /** The Go parser: a loop for the scheme, then one search per parameter. An absent
      parameter is the empty string. */
  method ParseWWWAuthenticate(value: string) returns (scheme: string, resourceMetadata: string, scope: string)
    ensures scheme == Parsed(GoClient, value).scheme
    ensures resourceMetadata == (match Parsed(GoClient, value).resourceMetadata case Some(url) => url case None => "")
    ensures scope == (match Parsed(GoClient, value).scope case Some(joined) => joined case None => "")
  {
    scheme := value;
    if |value| > 0 {
      for i := 0 to |value|
        invariant ' ' !in value[..i] && scheme == value
      {
        if value[i] == ' ' {
          scheme := value[..i];
          PartitionAt(value, i);
          break;
        }
        assert value[..i + 1] == value[..i] + [value[i]];
      }
    }
    if scheme == value {
      assert value[..|value|] == value;
      PartitionNone(value);
    }
    var metadata := Search("resource_metadata=", value);
    resourceMetadata := if metadata.Some? then metadata.value else "";
    var found := Search("scope=", value);
    scope := if found.Some? then found.value else "";
  }

  // ---- the round trip ----

  function Head(parser: Parser): (r: string)
    ensures QuoteFree(r)
  {
    if parser.PythonClient? then "resource_metadata=" else "Bearer resource_metadata="
  }

  /** A header that starts with the scheme and the metadata parameter. */
  lemma BearerParsed(parser: Parser, rest: string)
    ensures var value := "Bearer resource_metadata=" + QUOTE + rest;
      && Partition(value) == ("Bearer", "resource_metadata=" + QUOTE + rest)
      && Searched(parser, value) == Head(parser) + QUOTE + rest
  {
    var value := "Bearer resource_metadata=" + QUOTE + rest;
    assert "Bearer resource_metadata=" == "Bearer" + " " + "resource_metadata=";
    assert value[6] == ' ' && value[..6] == "Bearer" && value[7..] == "resource_metadata=" + QUOTE + rest;
    PartitionAt(value, 6);
  }

  /** A header cut at its quotes. */
  function SegmentsOf(params: seq<Param>): (r: seq<string>)
    ensures r != []
  {
    if params == [] then [""] else [params[0].name, params[0].value] + SegmentsOf(params[1..])
  }

  /** What the search for the scope captures, parameter by parameter. */
  function ScopeCaptured(url: string, scope: Option<string>, code: string, description: string): Option<string> {
    if EndsWith(url, "scope=") && scope.Some? then Some(", scope=")
    else if EndsWith(url, "scope=") && code != "" then Some(", error=")
    else if EndsWith(url, "scope=") && description != "" then Some(", error_description=")
    else if scope.Some? && scope.value != "" then scope
    else if EndsWith(code, "scope=") && description != "" then Some(", error_description=")
    else None
  }

  /** The guard of the case in which the scope does not survive: a URL that ends in
      `scope=`, or without scopes an error code that does, opens a capture that runs
      into the next parameter. */
  predicate ScopeLost(url: string, scope: Option<string>, code: string, description: string) {
    if EndsWith(url, "scope=") && (scope.Some? || code != "" || description != "") then scope != Some(", scope=")
    else (scope.None? || scope.value == "") && EndsWith(code, "scope=") && description != ""
  }

  lemma {:induction false} InterleavePair(a: string, b: string, rest: seq<string>)
    requires rest != []
    ensures Interleave([a, b] + rest) == a + QUOTE + (b + QUOTE + Interleave(rest))
  {
    assert ([a, b] + rest)[1..] == [b] + rest && ([b] + rest)[1..] == rest;
  }

  lemma {:induction false} TextIsSegments(params: seq<Param>)
    ensures Interleave(SegmentsOf(params)) == Text(params)
  {
    if params != [] {
      TextIsSegments(params[1..]);
      InterleavePair(params[0].name, params[0].value, SegmentsOf(params[1..]));
    }
  }

  lemma {:induction false} FirstNamedPair(name: string, a: string, b: string, rest: seq<string>)
    requires rest != []
    ensures FirstNamed(name, [a, b] + rest) ==
      if EndsWith(a, name) && b != "" then Some(b)
      else if |rest| > 1 && EndsWith(b, name) && rest[0] != "" then Some(rest[0])
      else FirstNamed(name, rest)
  {
    assert ([a, b] + rest)[1..] == [b] + rest && ([b] + rest)[1..] == rest;
  }

  lemma ParameterNames()
    ensures EndsWith(", scope=", "scope=") && !EndsWith(", error=", "scope=") && !EndsWith(", error_description=", "scope=")
    ensures !EndsWith("resource_metadata=", "scope=") && !EndsWith("Bearer resource_metadata=", "scope=")
    ensures EndsWith("resource_metadata=", "resource_metadata=") && EndsWith("Bearer resource_metadata=", "resource_metadata=")
  {
    assert "scope="[0] == 's';
    assert ", error="[|", error="| - 6..][0] == 'e';
    assert ", error_description="[|", error_description="| - 6..][0] == 'p';
    assert "resource_metadata="[|"resource_metadata="| - 6..][0] == 'a';
    assert "Bearer resource_metadata="[|"Bearer resource_metadata="| - 6..][0] == 'a';
    assert "Bearer resource_metadata=" == "Bearer " + "resource_metadata=";
    assert "Bearer resource_metadata="[7..] == "resource_metadata=";
  }

  lemma {:induction false} FirstNamedParam(name: string, first: Param, rest: seq<Param>)
    ensures FirstNamed(name, SegmentsOf([first] + rest)) ==
      if EndsWith(first.name, name) && first.value != "" then Some(first.value)
      else if rest != [] && EndsWith(first.value, name) && rest[0].name != "" then Some(rest[0].name)
      else FirstNamed(name, SegmentsOf(rest))
  {
    assert ([first] + rest)[1..] == rest;
    FirstNamedPair(name, first.name, first.value, SegmentsOf(rest));
  }

  lemma CapturedAfterScope(code: string, description: string)
    ensures FirstNamed("scope=", SegmentsOf(Optional(code != "", ", error=", code) + Optional(description != "", ", error_description=", description)))
      == if EndsWith(code, "scope=") && description != "" then Some(", error_description=") else None
  {
    var d := Optional(description != "", ", error_description=", description);
    ParameterNames();
    if description != "" { FirstNamedParam("scope=", Param(", error_description=", description), []); }
    if code != "" { FirstNamedParam("scope=", Param(", error=", code), d); } else { assert [] + d == d; }
  }

  lemma CapturedFromParams(head: string, url: string, scope: Option<string>, code: string, description: string)
    requires url != "" && !EndsWith(head, "scope=")
    ensures FirstNamed("scope=", SegmentsOf([Param(head, url)] + Later(scope, code, description))) == ScopeCaptured(url, scope, code, description)
  {
    var c := Optional(code != "", ", error=", code) + Optional(description != "", ", error_description=", description);
    ParameterNames();
    CapturedAfterScope(code, description);
    FirstNamedParam("scope=", Param(head, url), Later(scope, code, description));
    if scope.Some? { FirstNamedParam("scope=", Param(", scope=", scope.value), c); } else { assert [] + c == c; }
  }

  /** Every text has quote-separated segments. */
  lemma {:induction false} Cut(s: string) returns (segments: seq<string>)
    ensures Segments(segments) && Interleave(segments) == s
  {
    var n := Span(s);
    if n == |s| {
      assert s[..n] == s;
      segments := [s];
    } else {
      var rest := Cut(s[n + 1..]);
      segments := [s[..n]] + rest;
      assert segments[1..] == rest;
      assert s == s[..n] + QUOTE + s[n + 1..];
    }
  }

  lemma {:induction false} FirstValue(name: string, head: string, value: string, rest: string)
    requires QuoteFree(name) && name != "" && QuoteFree(head) && QuoteFree(value) && value != "" && EndsWith(head, name)
    ensures Search(name, head + QUOTE + (value + QUOTE + rest)) == Some(value)
  {
    var cut := Cut(rest);
    InterleavePair(head, value, cut);
    SearchReadsSegments(name, [head, value] + cut);
  }

  /** Whatever else the header carries and whichever client reads it, the scheme is
      `Bearer` and the metadata URL comes back exactly when printing escaped nothing in it. */
  lemma MetadataRoundTrip(printer: Language, parser: Parser, url: string, scope: Option<string>, code: string, description: string)
    requires url != ""
    ensures var r := Parsed(parser, Header(printer, url, scope, code, description));
      r.scheme == "Bearer" && (r.resourceMetadata == Some(url) <==> Unescaped(printer, url))
  {
    var params := Shown(printer, [Param("Bearer resource_metadata=", url)] + Later(scope, code, description));
    var shown, rest := Escaped(printer, url), Text(params[1..]);
    BearerParsed(parser, shown + QUOTE + rest);
    ParameterNames();
    if QuoteFree(url) {
      EscapedLength(printer, url);
      EscapedIsItself(printer, url);
      FirstValue("resource_metadata=", Head(parser), shown, rest);
    } else {
      SearchIsLeftmost("resource_metadata=", Searched(parser, Text(params)));
    }
  }

  lemma ShownUnescaped(language: Language, params: seq<Param>)
    requires forall i :: 0 <= i < |params| ==> Unescaped(language, params[i].value)
    ensures Shown(language, params) == params
  {
    forall i | 0 <= i < |params| ensures Shown(language, params)[i] == params[i] {
      EscapedIsItself(language, params[i].value);
    }
  }

  /** The scope comes back exactly when no earlier value opens the capture. */
  lemma ScopeRoundTrip(printer: Language, parser: Parser, url: string, scope: Option<string>, code: string, description: string)
    requires url != "" && Unescaped(printer, url) && Unescaped(printer, TextOf(scope)) && Unescaped(printer, code) && Unescaped(printer, description)
    ensures var r := Parsed(parser, Header(printer, url, scope, code, description));
      && r.scope == ScopeCaptured(url, scope, code, description)
      && (TextOf(r.scope) == TextOf(scope) <==> !ScopeLost(url, scope, code, description))
  {
    HeaderUnescaped(printer, url, scope, code, description);
    ParsedScope(parser, url, Later(scope, code, description));
    CapturedFromParams(Head(parser), url, scope, code, description);
    CapturedOrLost(url, scope, code, description);
  }

  lemma HeaderUnescaped(printer: Language, url: string, scope: Option<string>, code: string, description: string)
    requires Unescaped(printer, url) && Unescaped(printer, TextOf(scope)) && Unescaped(printer, code) && Unescaped(printer, description)
    ensures var params := [Param("Bearer resource_metadata=", url)] + Later(scope, code, description);
      AllQuoteFree(params) && Header(printer, url, scope, code, description) == Text(params)
  {
    PlainParams(printer, "Bearer resource_metadata=", url, scope, code, description);
    ShownUnescaped(printer, [Param("Bearer resource_metadata=", url)] + Later(scope, code, description));
  }

  lemma {:induction false} ParsedScope(parser: Parser, url: string, later: seq<Param>)
    requires AllQuoteFree([Param("Bearer resource_metadata=", url)] + later)
    ensures Parsed(parser, Text([Param("Bearer resource_metadata=", url)] + later)).scope
      == FirstNamed("scope=", SegmentsOf([Param(Head(parser), url)] + later))
    ensures !EndsWith(Head(parser), "scope=")
  {
    var params := [Param("Bearer resource_metadata=", url)] + later;
    var searched := [Param(Head(parser), url)] + later;
    assert AllQuoteFree(searched) by {
      forall i | 0 <= i < |searched| ensures QuoteFree(searched[i].name) && QuoteFree(searched[i].value) {
        assert searched[i].value == params[i].value;
        if i > 0 { assert searched[i] == params[i]; }
      }
    }
    TextHead(params[0], later);
    TextHead(searched[0], later);
    BearerParsed(parser, url + QUOTE + Text(later));
    ParameterNames();
    SearchReadsParams("scope=", searched);
  }

  lemma {:induction false} TextHead(first: Param, rest: seq<Param>)
    ensures Text([first] + rest) == first.name + QUOTE + (first.value + QUOTE + Text(rest))
  {
    assert ([first] + rest)[1..] == rest;
  }

  lemma CapturedOrLost(url: string, scope: Option<string>, code: string, description: string)
    ensures TextOf(ScopeCaptured(url, scope, code, description)) == TextOf(scope) <==> !ScopeLost(url, scope, code, description)
  {
  }

  predicate AllQuoteFree(params: seq<Param>) {
    forall i :: 0 <= i < |params| ==> QuoteFree(params[i].name) && QuoteFree(params[i].value)
  }

  lemma {:induction false} SearchReadsParams(name: string, params: seq<Param>)
    requires QuoteFree(name) && name != "" && AllQuoteFree(params)
    ensures Search(name, Text(params)) == FirstNamed(name, SegmentsOf(params))
  {
    SegmentsQuoteFree(params);
    TextIsSegments(params);
    SearchReadsSegments(name, SegmentsOf(params));
  }

  lemma {:induction false} SegmentsQuoteFree(params: seq<Param>)
    requires AllQuoteFree(params)
    ensures Segments(SegmentsOf(params))
  {
    if params != [] {
      SegmentsQuoteFree(params[1..]);
      forall segment | segment in SegmentsOf(params) ensures QuoteFree(segment) {
        assert segment == params[0].name || segment == params[0].value || segment in SegmentsOf(params[1..]);
      }
    }
  }

  predicate AllPlain(language: Language, params: seq<Param>) {
    forall i :: 0 <= i < |params| ==> QuoteFree(params[i].name) && Unescaped(language, params[i].value)
  }

  lemma OptionalPlain(language: Language, present: bool, name: string, value: string, rest: seq<Param>)
    requires QuoteFree(name) && Unescaped(language, value) && AllPlain(language, rest)
    ensures AllPlain(language, Optional(present, name, value) + rest)
  {
  }

  lemma PlainParams(language: Language, head: string, url: string, scope: Option<string>, code: string, description: string)
    requires QuoteFree(head)
    requires Unescaped(language, url) && Unescaped(language, TextOf(scope)) && Unescaped(language, code) && Unescaped(language, description)
    ensures var params := [Param(head, url)] + Later(scope, code, description);
      AllQuoteFree(params) && AllPlain(language, params)
  {
    var d := Optional(description != "", ", error_description=", description);
    OptionalPlain(language, description != "", ", error_description=", description, []);
    assert d + [] == d;
    OptionalPlain(language, code != "", ", error=", code, d);
    OptionalPlain(language, scope.Some?, ", scope=", TextOf(scope), Optional(code != "", ", error=", code) + d);
    OptionalPlain(language, true, head, url, Later(scope, code, description));
  }

  lemma {:induction false} JoinUnescaped(language: Language, scopes: seq<string>)
    requires forall scope :: scope in scopes ==> Unescaped(language, scope)
    ensures Unescaped(language, ExchangeKeys.Join(scopes))
  {
    if scopes != [] {
      assert scopes[0] in scopes;
      JoinUnescaped(language, scopes[1..]);
    }
  }

  lemma ScopeUnescaped(language: Language, scopes: seq<string>)
    requires forall scope :: scope in scopes ==> Unescaped(language, scope)
    ensures Unescaped(language, TextOf(ScopeOf(language, scopes)))
  {
    var sorted := ExchangeKeys.Sort(scopes);
    forall scope | scope in sorted ensures Unescaped(language, scope) { assert scope in multiset(sorted); }
    JoinUnescaped(language, scopes);
    JoinUnescaped(language, sorted);
  }

  /** Which scopes a builder shows: Go the caller's in their order, Python the same
      sorted, TypeScript none; and no parameter for no scopes. */
  lemma {:induction false} ScopesPrinted(printer: Language, scopes: seq<string>)
    ensures ScopeOf(printer, scopes).None? <==> scopes == [] || printer.TypeScript?
    ensures printer.Go? && scopes != [] ==> ScopeOf(printer, scopes) == Some(ExchangeKeys.Join(scopes))
    ensures printer.Python? && scopes != [] ==>
      exists sorted :: multiset(sorted) == multiset(scopes) && ExchangeKeys.Ordered(sorted) && ScopeOf(printer, scopes) == Some(ExchangeKeys.Join(sorted))
  {
    ExchangeKeys.SortOrdered(scopes);
    assert multiset(ExchangeKeys.Sort(scopes)) == multiset(scopes);
  }

  /** The 401 challenge of any client, read by any client: scheme, metadata URL and
      joined scopes come back, except that with scopes a URL ending in `scope=` opens
      the capture early. */
  lemma ChallengeRoundTrip(printer: Language, parser: Parser, url: string, scopes: seq<string>)
    requires url != "" && Unescaped(printer, url)
    requires forall scope :: scope in scopes ==> Unescaped(printer, scope)
    ensures var scope := ScopeOf(printer, scopes);
      var r := Parsed(parser, Header(printer, url, scope, "", ""));
      && r.scheme == "Bearer" && r.resourceMetadata == Some(url)
      && (TextOf(r.scope) == TextOf(scope) <==> scope.None? || !EndsWith(url, "scope=") || scope == Some(", scope="))
  {
    ScopeUnescaped(printer, scopes);
    MetadataRoundTrip(printer, parser, url, ScopeOf(printer, scopes), "", "");
    ScopeRoundTrip(printer, parser, url, ScopeOf(printer, scopes), "", "");
  }

  /** The family that fails, on its smallest input: what comes back is `, scope=`. */
  lemma UrlEndingInScope(printable: char -> bool)
    ensures var go := Go(printable);
      Parsed(GoClient, Header(go, "scope=", ScopeOf(go, ["a"]), "", "")).scope == Some(", scope=")
  {
    var go := Go(printable);
    assert ["a"][1..] == [];
    ScopeRoundTrip(go, GoClient, "scope=", ScopeOf(go, ["a"]), "", "");
  }
}
