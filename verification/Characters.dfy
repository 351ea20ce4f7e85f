/** Characters and texts as the two platforms see them: white space, control characters, encoded lengths. */
module Characters {

  // ---------------------------------------------------------------- white space

  /** Unicode `White_Space`, as Rust's `trim` uses it. */
  predicate RustWhite(c: char) {
    '\t' <= c <= '\r' || c == ' ' || c == '\U{85}' || CommonWhite(c)
  }

  /** ECMAScript white space and line terminators, as JavaScript's `trim` uses them. */
  predicate JsWhite(c: char) {
    '\t' <= c <= '\r' || c == ' ' || c == '\U{FEFF}' || CommonWhite(c)
  }

  predicate CommonWhite(c: char) {
    c in {'\U{A0}', '\U{1680}', '\U{2028}', '\U{2029}', '\U{202F}', '\U{205F}', '\U{3000}'}
    || '\U{2000}' <= c <= '\U{200A}'
  }

  // ---------------------------------------------------------------- text

  /** The positions whose character needs a code point of at least `floor`. */
  function Above(s: string, floor: nat): set<nat> {
    set i: nat | i < |s| && s[i] as int >= floor
  }

  /** Bytes in UTF-8: one a character, and one more for each threshold it passes. */
  function Utf8Length(s: string): nat {
    |s| + |Above(s, 0x80)| + |Above(s, 0x800)| + |Above(s, 0x1_0000)|
  }

  lemma {:induction false} AboveBound(s: string, floor: nat)
    ensures |Above(s, floor)| <= |s|
  {
    if s != [] {
      var n := |s| - 1;
      AboveBound(s[..n], floor);
      assert Above(s, floor) == Above(s[..n], floor) + if s[n] as int >= floor then {n as nat} else {};
    }
  }

  lemma Utf8Bound(s: string)
    ensures |s| <= Utf8Length(s) <= 4 * |s|
  {
    AboveBound(s, 0x80);
    AboveBound(s, 0x800);
    AboveBound(s, 0x1_0000);
  }

  predicate Blank(s: string, white: char -> bool) {
    forall c :: c in s ==> white(c)
  }

  /** General category Cc. */
  predicate Control(c: char) {
    c <= '\U{1F}' || '\U{7F}' <= c <= '\U{9F}'
  }

  predicate HexCharacter(c: char) {
    '0' <= c <= '9' || 'a' <= c <= 'f'
  }

  predicate ShaOk(s: string) {
    |s| == 64 && forall c :: c in s ==> HexCharacter(c)
  }

  // ---------------------------------------------------------------- trimming

  function TrimStart(s: string, white: char -> bool): string {
    if s == [] || !white(s[0]) then s else TrimStart(s[1..], white)
  }

  function TrimEnd(s: string, white: char -> bool): string {
    if s == [] || !white(s[|s| - 1]) then s else TrimEnd(s[..|s| - 1], white)
  }

  function Trim(s: string, white: char -> bool): string {
    TrimEnd(TrimStart(s, white), white)
  }

  /** `t` is `s` without the white space around it: only white space is cut off, and none is left at either end. */
  ghost predicate Core(s: string, t: string, white: char -> bool) {
    && (exists i: nat, j: nat :: CutsWhite(s, i, j, white) && t == s[i..j])
    && (t != [] ==> !white(t[0]) && !white(t[|t| - 1]))
  }

  ghost predicate CutsWhite(s: string, i: nat, j: nat, white: char -> bool) {
    i <= j <= |s| && forall k :: (0 <= k < i || j <= k < |s|) ==> white(s[k])
  }

  lemma {:induction false} TrimStartCuts(s: string, white: char -> bool) returns (i: nat)
    ensures i <= |s| && TrimStart(s, white) == s[i..] && forall k :: 0 <= k < i ==> white(s[k])
    ensures i < |s| ==> !white(s[i])
  {
    if s == [] || !white(s[0]) {
      i := 0;
    } else {
      var j := TrimStartCuts(s[1..], white);
      i := j + 1;
      assert s[1..][j..] == s[i..];
      forall k | 0 <= k < i
        ensures white(s[k])
      {
        if k > 0 {
          assert s[k] == s[1..][k - 1];
        }
      }
    }
  }

  lemma {:induction false} TrimEndCuts(s: string, white: char -> bool) returns (j: nat)
    ensures j <= |s| && TrimEnd(s, white) == s[..j] && forall k :: j <= k < |s| ==> white(s[k])
    ensures j > 0 ==> !white(s[j - 1])
  {
    if s == [] || !white(s[|s| - 1]) {
      j := |s|;
    } else {
      var n := |s| - 1;
      j := TrimEndCuts(s[..n], white);
      assert s[..n][..j] == s[..j];
      forall k | j <= k < |s|
        ensures white(s[k])
      {
        if k < n {
          assert s[k] == s[..n][k];
        }
      }
    }
  }

  lemma TrimIsCore(s: string, white: char -> bool)
    ensures Core(s, Trim(s, white), white)
    ensures Trim(s, white) == [] <==> forall c :: c in s ==> white(c)
  {
    var i := TrimStartCuts(s, white);
    var u := s[i..];
    var j := TrimEndCuts(u, white);
    var t := u[..j];
    assert t == s[i..i + j];
    forall k | 0 <= k < i || i + j <= k < |s|
      ensures white(s[k])
    {
      if i + j <= k {
        assert s[k] == u[k - i];
      }
    }
    assert CutsWhite(s, i, i + j, white);
    if t != [] {
      assert t[0] == s[i] && t[|t| - 1] == u[j - 1] && t[0] in s;
    } else {
      forall c | c in s
        ensures white(c)
      {
        var k :| 0 <= k < |s| && s[k] == c;
      }
    }
  }

  // ---------------------------------------------------------------- the classes spelled out

  /** The twenty-five white-space characters of Unicode. */
  lemma RustWhiteListed(c: char)
    ensures RustWhite(c) <==> c as int in {
              9, 10, 11, 12, 13, 32, 0x85, 0xA0, 0x1680, 0x2000, 0x2001, 0x2002, 0x2003, 0x2004, 0x2005, 0x2006,
              0x2007, 0x2008, 0x2009, 0x200A, 0x2028, 0x2029, 0x202F, 0x205F, 0x3000}
  {
  }

  /** The white space and line ends of ECMAScript. */
  lemma JsWhiteListed(c: char)
    ensures JsWhite(c) <==> c as int in {
              9, 10, 11, 12, 13, 32, 0xA0, 0x1680, 0x2000, 0x2001, 0x2002, 0x2003, 0x2004, 0x2005, 0x2006,
              0x2007, 0x2008, 0x2009, 0x200A, 0x2028, 0x2029, 0x202F, 0x205F, 0x3000, 0xFEFF}
  {
  }

  lemma ControlListed(c: char)
    ensures Control(c) <==> c as int < 32 || 127 <= c as int < 160
  {
  }

  /** One to four bytes a character. */
  lemma Utf8Snoc(s: string, c: char)
    ensures Utf8Length(s + [c]) == Utf8Length(s) + (if c as int < 0x80 then 1 else if c as int < 0x800 then 2
                                                    else if c as int < 0x1_0000 then 3 else 4)
  {
    AboveSnoc(s, c, 0x80);
    AboveSnoc(s, c, 0x800);
    AboveSnoc(s, c, 0x1_0000);
  }

  lemma AboveSnoc(s: string, c: char, floor: nat)
    ensures |Above(s + [c], floor)| == |Above(s, floor)| + if c as int >= floor then 1 else 0
  {
    var t := s + [c];
    if c as int >= floor {
      assert Above(t, floor) == Above(s, floor) + {|s| as nat};
    } else {
      assert Above(t, floor) == Above(s, floor);
    }
  }
}
