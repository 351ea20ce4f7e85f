/** Bytes, 64-bit bounds, big-endian words and the byte-wise order of names and paths. */
module Bytes {

  type byte = n: int | 0 <= n < 256

  // usize is taken to be 64 bits wide, as on every supported host.
  const U64_MAX: nat := 0xFFFF_FFFF_FFFF_FFFF

  /** What a Rust buffer or string can hold: its length is a usize. */
  type Buffer = s: seq<byte> | |s| <= U64_MAX

  type u64 = n: nat | n <= U64_MAX

  function SaturatingAdd(a: u64, b: u64): u64 {
    if a + b <= U64_MAX then a + b else U64_MAX
  }

  /** The bytes of an ASCII literal. */
  function Ascii(text: string): seq<byte> {
    seq(|text|, i requires 0 <= i < |text| => (text[i] as int) % 256)
  }

  function Digit(n: nat): byte
    requires n < 10
  {
    48 + n
  }

  /** `to_string` of an unsigned integer. */
  function Decimal(n: nat): seq<byte> {
    if n < 10 then [Digit(n)] else Decimal(n / 10) + [Digit(n % 10)]
  }

  function BigEndian(n: nat, width: nat): (r: seq<byte>)
    ensures |r| == width
  {
    if width == 0 then [] else BigEndian(n / 256, width - 1) + [n % 256]
  }

  function FromBigEndian(s: seq<byte>): nat {
    if s == [] then 0 else 256 * FromBigEndian(s[..|s| - 1]) + s[|s| - 1]
  }

  function Pow256(width: nat): nat {
    if width == 0 then 1 else 256 * Pow256(width - 1)
  }

  lemma {:induction false} BigEndianRoundTrip(n: nat, width: nat)
    requires n < Pow256(width)
    ensures FromBigEndian(BigEndian(n, width)) == n
  {
    if width > 0 {
      BigEndianRoundTrip(n / 256, width - 1);
      assert BigEndian(n, width)[..width - 1] == BigEndian(n / 256, width - 1);
    }
  }

  lemma {:induction false} FromBigEndianBound(s: seq<byte>)
    ensures FromBigEndian(s) < Pow256(|s|)
    ensures BigEndian(FromBigEndian(s), |s|) == s
  {
    if s != [] {
      FromBigEndianBound(s[..|s| - 1]);
      var n := FromBigEndian(s);
      assert n / 256 == FromBigEndian(s[..|s| - 1]) && n % 256 == s[|s| - 1];
      assert s == s[..|s| - 1] + [s[|s| - 1]];
    }
  }

  /** `n` shifted right by `k` bytes. */
  function Shifted(n: nat, k: nat): nat {
    if k == 0 then n else Shifted(n / 256, k - 1)
  }

  /** The most significant byte comes first. */
  lemma {:induction false} BigEndianDigit(n: nat, width: nat, k: nat)
    requires k < width
    ensures BigEndian(n, width)[width - 1 - k] == Shifted(n, k) % 256
  {
    if k > 0 {
      BigEndianDigit(n / 256, width - 1, k - 1);
    }
  }

  lemma Word64(n: u64)
    ensures FromBigEndian(BigEndian(n, 8)) == n
  {
    assert Pow256(8) == U64_MAX + 1 by {
      assert Pow256(4) == 0x1_0000_0000;
      assert Pow256(8) == 256 * 256 * 256 * 256 * Pow256(4);
    }
    BigEndianRoundTrip(n, 8);
  }

  /** The order of `OsStr` and `str`: byte by byte, a proper prefix first. */
  predicate Less(a: seq<byte>, b: seq<byte>) {
    b != [] && (a == [] || a[0] < b[0] || (a[0] == b[0] && Less(a[1..], b[1..])))
  }

  lemma {:induction false} LessTrichotomy(a: seq<byte>, b: seq<byte>)
    ensures a == b || Less(a, b) || Less(b, a)
    ensures !(Less(a, b) && Less(b, a))
    ensures !Less(a, a)
  {
    if a != [] && b != [] {
      LessTrichotomy(a[1..], b[1..]);
      LessTrichotomy(a[1..], a[1..]);
      if a[0] == b[0] && a[1..] == b[1..] {
        assert a == [a[0]] + a[1..] == b;
      }
    } else if a != [] {
      LessTrichotomy(a[1..], a[1..]);
    }
  }

  lemma {:induction false} LessTransitive(a: seq<byte>, b: seq<byte>, c: seq<byte>)
    requires Less(a, b) && Less(b, c)
    ensures Less(a, c)
  {
    if a != [] && a[0] == b[0] == c[0] {
      LessTransitive(a[1..], b[1..], c[1..]);
    }
  }

  // ---------------------------------------------------------------- decimal numbers

  function ParseDecimal(s: seq<byte>): int {
    if s == [] then 0 else 10 * ParseDecimal(s[..|s| - 1]) + (s[|s| - 1] as int - 48)
  }

  lemma {:induction false} DecimalRoundTrip(n: nat)
    ensures ParseDecimal(Decimal(n)) == n
  {
    if n < 10 {
      assert Decimal(n)[..0] == [];
    } else {
      DecimalRoundTrip(n / 10);
      assert Decimal(n)[..|Decimal(n)| - 1] == Decimal(n / 10);
    }
  }

  function Pow10(k: nat): nat {
    if k == 0 then 1 else 10 * Pow10(k - 1)
  }

  lemma {:induction false} DecimalLength(n: nat, k: nat)
    requires n < Pow10(k) && k > 0
    ensures 1 <= |Decimal(n)| <= k
  {
    if n >= 10 {
      DecimalLength(n / 10, k - 1);
    }
  }

  lemma {:induction false} DecimalDigits(n: nat)
    ensures forall k :: 0 <= k < |Decimal(n)| ==> 48 <= Decimal(n)[k] <= 57
  {
    if n >= 10 {
      DecimalDigits(n / 10);
    }
  }
}
