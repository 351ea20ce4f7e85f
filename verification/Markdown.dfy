/** Untrusted text on its way into a terminal or a Markdown report. */
module Markdown {
  import opened Characters
  import opened Sequences
  import opened Wrappers

  // ---------------------------------------------------------------- terminals

  predicate Directional(c: char) {
    '\U{202A}' <= c <= '\U{202E}' || '\U{2066}' <= c <= '\U{2069}'
  }

  predicate Unsafe(c: char) {
    Control(c) || Directional(c)
  }

  function HexDigit(n: nat): char
    requires n < 16
  {
    "0123456789abcdef"[n]
  }

  function Hex(n: nat): (r: string)
    ensures forall c :: c in r ==> !Unsafe(c)
  {
    if n < 16 then [HexDigit(n)] else Hex(n / 16) + [HexDigit(n % 16)]
  }

  /** `char::escape_default` on the characters it is used for here. */
  function EscapeDefault(c: char): (r: string)
    ensures forall x :: x in r ==> !Unsafe(x)
  {
    if c == '\t' then "\\t"
    else if c == '\n' then "\\n"
    else if c == '\r' then "\\r"
    else "\\u{" + Hex(c as int) + "}"
  }

  function SafeCharacter(c: char): string {
    if Unsafe(c) then EscapeDefault(c) else [c]
  }

  function TerminalSafe(s: string): string {
    if s == [] then [] else TerminalSafe(s[..|s| - 1]) + SafeCharacter(s[|s| - 1])
  }

  /** Spelled out: control characters, and the nine that override the direction of text. */
  predicate Harmful(n: nat) {
    n < 32 || 127 <= n < 160 || 0x202A <= n <= 0x202E || 0x2066 <= n <= 0x2069
  }

  lemma UnsafeListed(c: char)
    ensures Unsafe(c) <==> Harmful(c as int)
  {
    ControlListed(c);
  }

  /** The value of a lower-case hexadecimal number, digit by digit. */
  function HexValue(s: string): int {
    if s == [] then 0
    else
      var d := s[|s| - 1];
      16 * HexValue(s[..|s| - 1]) + (if '0' <= d <= '9' then d as int - 48 else d as int - 87)
  }

  lemma HexDigitReads(n: nat)
    requires n < 16
    ensures '0' <= HexDigit(n) <= '9' || 'a' <= HexDigit(n) <= 'f'
    ensures n == if '0' <= HexDigit(n) <= '9' then HexDigit(n) as int - 48 else HexDigit(n) as int - 87
  {
  }

  lemma {:induction false} HexReads(n: nat)
    ensures HexValue(Hex(n)) == n
    ensures forall c :: c in Hex(n) ==> '0' <= c <= '9' || 'a' <= c <= 'f'
  {
    if n < 16 {
      HexDigitReads(n);
      assert Hex(n)[..0] == [];
    } else {
      HexReads(n / 16);
      HexDigitReads(n % 16);
      assert Hex(n)[..|Hex(n)| - 1] == Hex(n / 16);
    }
  }

  /** Spelled out: the three short escapes, and for every other character its code in braces. */
  lemma EscapeReads(c: char)
    ensures c == '\t' ==> EscapeDefault(c) == "\\t"
    ensures c == '\n' ==> EscapeDefault(c) == "\\n"
    ensures c == '\r' ==> EscapeDefault(c) == "\\r"
    ensures c != '\t' && c != '\n' && c != '\r' ==>
              exists digits :: EscapeDefault(c) == "\\u{" + digits + "}" && HexValue(digits) == c as int
                && forall d :: d in digits ==> '0' <= d <= '9' || 'a' <= d <= 'f'
  {
    HexReads(c as int);
    if c != '\t' && c != '\n' && c != '\r' {
      assert EscapeDefault(c) == "\\u{" + Hex(c as int) + "}";
    }
  }

  method BuildTerminalSafe(value: string) returns (output: string)
    ensures output == TerminalSafe(value)
    // Spelled out: nothing harmful is left, and harmless text is left alone.
    ensures forall c :: c in output ==> !Harmful(c as int)
    ensures (forall c :: c in value ==> !Harmful(c as int)) ==> output == value
  {
    output := AppendSafe(value);
    TerminalSafeMeaning(value);
    forall c: char
      ensures Unsafe(c) <==> Harmful(c as int)
    {
      UnsafeListed(c);
    }
  }

  method AppendSafe(value: string) returns (output: string)
    ensures output == TerminalSafe(value)
  {
    output := [];
    for i := 0 to |value|
      invariant output == TerminalSafe(value[..i])
    {
      assert value[..i + 1][..i] == value[..i];
      if Unsafe(value[i]) {
        output := output + EscapeDefault(value[i]);
      } else {
        output := output + [value[i]];
      }
    }
    assert value[..|value|] == value;
  }

  /** Nothing that moves the cursor or reorders text gets through, and harmless text is left alone. */
  lemma {:induction false} TerminalSafeMeaning(s: string)
    ensures forall c :: c in TerminalSafe(s) ==> !Unsafe(c)
    ensures (forall c :: c in s ==> !Unsafe(c)) <==> TerminalSafe(s) == s
  {
    if s != [] {
      var n := |s| - 1;
      TerminalSafeMeaning(s[..n]);
      assert s == s[..n] + [s[n]];
      assert forall c :: c in s <==> c in s[..n] || c == s[n];
      if TerminalSafe(s) == s {
        assert forall c :: c in s ==> c in TerminalSafe(s);
      }
    }
  }

  // ---------------------------------------------------------------- ten sequential replacements

  /** `str::replace` of one character. */
  function Replace(s: string, c: char, sub: string): string {
    if s == [] then [] else Substitute(s[0], c, sub) + Replace(s[1..], c, sub)
  }

  function Substitute(x: char, c: char, sub: string): string {
    if x == c then sub else [x]
  }

  /** The replacements in the order the code applies them, each to the output of the one before. */
  function ReplaceChain(s: string): string {
    var s1 := Replace(s, '&', "&amp;");
    var s2 := Replace(s1, '<', "&lt;");
    var s3 := Replace(s2, '>', "&gt;");
    var s4 := Replace(s3, '\\', "\\\\");
    var s5 := Replace(s4, '*', "\\*");
    var s6 := Replace(s5, '_', "\\_");
    var s7 := Replace(s6, '[', "\\[");
    var s8 := Replace(s7, ']', "\\]");
    var s9 := Replace(s8, '|', "\\|");
    Replace(s9, '#', "\\#")
  }

  function MarkdownText(value: string): string {
    ReplaceChain(TerminalSafe(value))
  }

  predicate Special(c: char) {
    c == '\\' || c == '*' || c == '_' || c == '[' || c == ']' || c == '|' || c == '#'
  }

  /** One simultaneous substitution. */
  function Escape(c: char): string {
    if c == '&' then "&amp;"
    else if c == '<' then "&lt;"
    else if c == '>' then "&gt;"
    else if Special(c) then ['\\', c]
    else [c]
  }

  function EscapeAll(s: string): string {
    if s == [] then [] else Escape(s[0]) + EscapeAll(s[1..])
  }

  lemma {:induction false} ReplaceConcat(a: string, b: string, c: char, sub: string)
    ensures Replace(a + b, c, sub) == Replace(a, c, sub) + Replace(b, c, sub)
  {
    if a == [] {
      assert a + b == b;
    } else {
      ReplaceConcat(a[1..], b, c, sub);
      assert (a + b)[0] == a[0] && (a + b)[1..] == a[1..] + b;
      ConcatAssociates(Substitute(a[0], c, sub), Replace(a[1..], c, sub), Replace(b, c, sub));
    }
  }

  lemma {:induction false} ReplaceAbsent(s: string, c: char, sub: string)
    requires c !in s
    ensures Replace(s, c, sub) == s
  {
    if s != [] {
      ReplaceAbsent(s[1..], c, sub);
      assert s == [s[0]] + s[1..];
    }
  }

  lemma ReplaceOne(x: char, c: char, sub: string)
    ensures Replace([x], c, sub) == Substitute(x, c, sub)
  {
    assert [x][1..] == [];
  }

  lemma ChainConcat(a: string, b: string)
    ensures ReplaceChain(a + b) == ReplaceChain(a) + ReplaceChain(b)
  {
    var a1, b1 := Replace(a, '&', "&amp;"), Replace(b, '&', "&amp;");
    ReplaceConcat(a, b, '&', "&amp;");
    var a2, b2 := Replace(a1, '<', "&lt;"), Replace(b1, '<', "&lt;");
    ReplaceConcat(a1, b1, '<', "&lt;");
    var a3, b3 := Replace(a2, '>', "&gt;"), Replace(b2, '>', "&gt;");
    ReplaceConcat(a2, b2, '>', "&gt;");
    var a4, b4 := Replace(a3, '\\', "\\\\"), Replace(b3, '\\', "\\\\");
    ReplaceConcat(a3, b3, '\\', "\\\\");
    var a5, b5 := Replace(a4, '*', "\\*"), Replace(b4, '*', "\\*");
    ReplaceConcat(a4, b4, '*', "\\*");
    var a6, b6 := Replace(a5, '_', "\\_"), Replace(b5, '_', "\\_");
    ReplaceConcat(a5, b5, '_', "\\_");
    var a7, b7 := Replace(a6, '[', "\\["), Replace(b6, '[', "\\[");
    ReplaceConcat(a6, b6, '[', "\\[");
    var a8, b8 := Replace(a7, ']', "\\]"), Replace(b7, ']', "\\]");
    ReplaceConcat(a7, b7, ']', "\\]");
    var a9, b9 := Replace(a8, '|', "\\|"), Replace(b8, '|', "\\|");
    ReplaceConcat(a8, b8, '|', "\\|");
    ReplaceConcat(a9, b9, '#', "\\#");
  }

  /** From the fourth replacement on. */
  function BackslashChain(s: string): string {
    var s4 := Replace(s, '\\', "\\\\");
    PunctuationChain(s4)
  }

  /** From the fifth replacement on. */
  function PunctuationChain(s: string): string {
    var s6 := Replace(Replace(s, '*', "\\*"), '_', "\\_");
    var s8 := Replace(Replace(s6, '[', "\\["), ']', "\\]");
    Replace(Replace(s8, '|', "\\|"), '#', "\\#")
  }

  lemma PunctuationUntouched(s: string)
    requires '*' !in s && '_' !in s && '[' !in s && ']' !in s && '|' !in s && '#' !in s
    ensures PunctuationChain(s) == s
  {
    ReplaceAbsent(s, '*', "\\*");
    ReplaceAbsent(s, '_', "\\_");
    ReplaceAbsent(s, '[', "\\[");
    ReplaceAbsent(s, ']', "\\]");
    ReplaceAbsent(s, '|', "\\|");
    ReplaceAbsent(s, '#', "\\#");
  }

  lemma PunctuationOne(c: char)
    requires c != '\\'
    ensures PunctuationChain([c]) == if Special(c) then ['\\', c] else [c]
  {
    ReplaceOne(c, '*', "\\*");
    ReplaceOne(c, '_', "\\_");
    ReplaceOne(c, '[', "\\[");
    ReplaceOne(c, ']', "\\]");
    ReplaceOne(c, '|', "\\|");
    ReplaceOne(c, '#', "\\#");
    if c != '*' { ReplaceAbsent(['\\', c], '*', "\\*"); }
    if c != '_' { ReplaceAbsent(['\\', c], '_', "\\_"); }
    if c != '[' { ReplaceAbsent(['\\', c], '[', "\\["); }
    if c != ']' { ReplaceAbsent(['\\', c], ']', "\\]"); }
    if c != '|' { ReplaceAbsent(['\\', c], '|', "\\|"); }
    if c != '#' { ReplaceAbsent(['\\', c], '#', "\\#"); }
  }

  lemma BackslashOne(c: char)
    ensures BackslashChain([c]) == if Special(c) then ['\\', c] else [c]
  {
    ReplaceOne(c, '\\', "\\\\");
    if c == '\\' {
      PunctuationUntouched("\\\\");
    } else {
      PunctuationOne(c);
    }
  }

  lemma BackslashUntouched(s: string)
    requires '\\' !in s && '*' !in s && '_' !in s && '[' !in s && ']' !in s && '|' !in s && '#' !in s
    ensures BackslashChain(s) == s
  {
    ReplaceAbsent(s, '\\', "\\\\");
    PunctuationUntouched(s);
  }

  lemma AmpersandUntouched()
    ensures BackslashChain("&amp;") == "&amp;"
  {
    BackslashUntouched("&amp;");
  }

  lemma LessThanUntouched()
    ensures BackslashChain("&lt;") == "&lt;"
  {
    BackslashUntouched("&lt;");
  }

  lemma GreaterThanUntouched()
    ensures BackslashChain("&gt;") == "&gt;"
  {
    BackslashUntouched("&gt;");
  }

  lemma ChainOne(c: char)
    ensures ReplaceChain([c]) == Escape(c)
  {
    ReplaceOne(c, '&', "&amp;");
    ReplaceOne(c, '<', "&lt;");
    ReplaceOne(c, '>', "&gt;");
    if c == '&' {
      ReplaceAbsent("&amp;", '<', "&lt;");
      ReplaceAbsent("&amp;", '>', "&gt;");
      AmpersandUntouched();
    } else if c == '<' {
      ReplaceAbsent("&lt;", '>', "&gt;");
      LessThanUntouched();
    } else if c == '>' {
      GreaterThanUntouched();
    } else {
      BackslashOne(c);
    }
  }

  /** No replacement ever sees what an earlier one inserted: the chain is the simultaneous substitution. */
  lemma {:induction false} ChainIsSimultaneous(s: string)
    ensures ReplaceChain(s) == EscapeAll(s)
  {
    if s != [] {
      ChainOne(s[0]);
      ChainIsSimultaneous(s[1..]);
      ChainConcat([s[0]], s[1..]);
      assert s == [s[0]] + s[1..];
    }
  }

  // ---------------------------------------------------------------- what the output guarantees

  /** Reading the escaped text: entities and backslash escapes, anything else that is special is an error. */
  function Unescape(s: string): Option<string> {
    if s == [] then Some([])
    else if s[0] == '\\' then
      if |s| == 1 || !Special(s[1]) then None
      else
        var rest :- Unescape(s[2..]);
        Some([s[1]] + rest)
    else if s[0] == '&' then
      if "&amp;" <= s then var rest :- Unescape(s[5..]); Some("&" + rest)
      else if "&lt;" <= s then var rest :- Unescape(s[4..]); Some("<" + rest)
      else if "&gt;" <= s then var rest :- Unescape(s[4..]); Some(">" + rest)
      else None
    else if s[0] == '<' || s[0] == '>' || Special(s[0]) then None
    else
      var rest :- Unescape(s[1..]);
      Some([s[0]] + rest)
  }

  lemma UnescapeOne(c: char, rest: string)
    ensures Unescape(Escape(c) + rest) == (var tail :- Unescape(rest); Some([c] + tail))
  {
    var s := Escape(c) + rest;
    assert s[|Escape(c)|..] == rest;
    if c == '&' {
      assert s[..5] == "&amp;";
    } else if c == '<' {
      assert s[..4] == "&lt;" && s[1] == 'l';
    } else if c == '>' {
      assert s[..4] == "&gt;" && s[1] == 'g';
    }
  }

  /** The displayed text can be recovered exactly, so two values never look the same by escaping. */
  lemma {:induction false} UnescapeUndoes(s: string)
    ensures Unescape(EscapeAll(s)) == Some(s)
  {
    if s != [] {
      UnescapeUndoes(s[1..]);
      UnescapeOne(s[0], EscapeAll(s[1..]));
      assert s == [s[0]] + s[1..];
    }
  }

  /** The text ends in a backslash that is not itself escaped: an odd run of backslashes. */
  predicate Escaping(s: string) {
    s != [] && s[|s| - 1] == '\\' && !Escaping(s[..|s| - 1])
  }

  /** Every special character but the backslash itself is escaped: an odd run of backslashes precedes it. */
  ghost predicate SpecialsEscaped(s: string) {
    forall i :: 0 <= i < |s| && Special(s[i]) && s[i] != '\\' ==> Escaping(s[..i])
  }

  lemma {:induction false} EscapeAllSnoc(s: string, c: char)
    ensures EscapeAll(s + [c]) == EscapeAll(s) + Escape(c)
  {
    if s == [] {
      assert s + [c] == [c] && [c][1..] == [];
    } else {
      EscapeAllSnoc(s[1..], c);
      assert (s + [c])[0] == s[0] && (s + [c])[1..] == s[1..] + [c];
      ConcatAssociates(Escape(s[0]), EscapeAll(s[1..]), Escape(c));
    }
  }

  lemma AppendCharacter(s: string, c: char)
    ensures Escaping(s + [c]) <==> c == '\\' && !Escaping(s)
    ensures SpecialsEscaped(s) && (Special(c) && c != '\\' ==> Escaping(s)) ==> SpecialsEscaped(s + [c])
  {
    assert (s + [c])[..|s|] == s;
    assert forall i :: 0 <= i < |s| ==> (s + [c])[..i] == s[..i];
  }

  lemma {:induction false} AppendPlain(s: string, more: string)
    requires SpecialsEscaped(s) && !Escaping(s)
    requires forall c :: c in more ==> !Special(c)
    ensures SpecialsEscaped(s + more) && !Escaping(s + more)
    decreases |more|
  {
    if more == [] {
      assert s + more == s;
    } else {
      AppendCharacter(s, more[0]);
      AppendPlain(s + [more[0]], more[1..]);
      assert s + more == s + [more[0]] + more[1..];
    }
  }

  lemma AppendEscaped(before: string, c: char)
    requires SpecialsEscaped(before) && !Escaping(before)
    ensures SpecialsEscaped(before + ['\\', c]) && !Escaping(before + ['\\', c])
  {
    var one := before + ['\\'];
    AppendCharacter(before, '\\');
    assert SpecialsEscaped(one) && Escaping(one);
    AppendCharacter(one, c);
    assert one + [c] == before + ['\\', c];
  }

  lemma EscapeShape(c: char)
    ensures Special(c) ==> Escape(c) == ['\\', c]
    ensures !Special(c) ==> forall x :: x in Escape(c) ==> !Special(x)
    ensures '<' !in Escape(c) && '>' !in Escape(c)
    ensures forall x :: x in Escape(c) ==> x == c || !Unsafe(x)
  {
  }

  lemma AppendEscape(before: string, c: char)
    requires SpecialsEscaped(before) && !Escaping(before)
    ensures SpecialsEscaped(before + Escape(c)) && !Escaping(before + Escape(c))
  {
    EscapeShape(c);
    if Special(c) {
      AppendEscaped(before, c);
    } else {
      AppendPlain(before, Escape(c));
    }
  }

  lemma {:induction false} SpecialsAlwaysEscaped(s: string)
    ensures SpecialsEscaped(EscapeAll(s)) && !Escaping(EscapeAll(s))
  {
    if s != [] {
      var n := |s| - 1;
      SpecialsAlwaysEscaped(s[..n]);
      AppendEscape(EscapeAll(s[..n]), s[n]);
      EscapeAllSnoc(s[..n], s[n]);
      assert s == s[..n] + [s[n]];
    }
  }

  lemma {:induction false} NoRawAngles(s: string)
    ensures '<' !in EscapeAll(s) && '>' !in EscapeAll(s)
    ensures (forall c :: c in s ==> !Unsafe(c)) ==> forall c :: c in EscapeAll(s) ==> !Unsafe(c)
  {
    if s != [] {
      NoRawAngles(s[1..]);
      EscapeShape(s[0]);
      assert s[0] in s && forall c :: c in s[1..] ==> c in s;
    }
  }

  /** Everything a Markdown report relies on, for every value whatsoever. */
  lemma MarkdownTextMeaning(value: string)
    ensures var m := MarkdownText(value);
            && Unescape(m) == Some(TerminalSafe(value))
            && SpecialsEscaped(m)
            && '<' !in m && '>' !in m
            && (forall c :: c in m ==> !Harmful(c as int))
            && forall i :: 0 <= i < |m| && m[i] in {'*', '_', '[', ']', '|', '#'} ==> Escaping(m[..i])
  {
    forall c: char
      ensures Unsafe(c) <==> Harmful(c as int)
    {
      UnsafeListed(c);
    }
    var safe := TerminalSafe(value);
    TerminalSafeMeaning(value);
    ChainIsSimultaneous(safe);
    UnescapeUndoes(safe);
    SpecialsAlwaysEscaped(safe);
    NoRawAngles(safe);
  }
}
