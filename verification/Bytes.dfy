/** Byte strings, and the UTF-8 encoding (RFC 3629) of text. */
module Bytes {

  type Byte = b: int | 0 <= b < 256
  type Bytes = seq<Byte>

  function Utf8Char(c: char): Bytes
  {
    var n := c as int;
    if n < 0x80 then [n]
    else if n < 0x800 then [0xC0 + n / 0x40, 0x80 + n % 0x40]
    else if n < 0x10000 then [0xE0 + n / 0x1000, 0x80 + n / 0x40 % 0x40, 0x80 + n % 0x40]
    else [0xF0 + n / 0x40000 % 8, 0x80 + n / 0x1000 % 0x40, 0x80 + n / 0x40 % 0x40, 0x80 + n % 0x40]
  }

  /** `str.encode()`. */
  function Utf8(s: string): Bytes
  {
    if s == "" then [] else Utf8Char(s[0]) + Utf8(s[1..])
  }

  /** What a byte carries behind its leading bits. */
  function Bits(b: Byte, lead: int): int
  {
    b as int - lead
  }

  predicate Tail(b: Byte)
  {
    0 <= Bits(b, 0x80) < 0x40
  }

  predicate Two(bytes: Bytes, n: nat)
  {
    && |bytes| == 2 && 0 <= Bits(bytes[0], 0xC0) < 0x20 && Tail(bytes[1])
    && n == 0x40 * Bits(bytes[0], 0xC0) + Bits(bytes[1], 0x80)
  }

  predicate Three(bytes: Bytes, n: nat)
  {
    && |bytes| == 3 && 0 <= Bits(bytes[0], 0xE0) < 0x10 && Tail(bytes[1]) && Tail(bytes[2])
    && n == 0x1000 * Bits(bytes[0], 0xE0) + 0x40 * Bits(bytes[1], 0x80) + Bits(bytes[2], 0x80)
  }

  predicate Four(bytes: Bytes, n: nat)
  {
    && |bytes| == 4 && 0 <= Bits(bytes[0], 0xF0) < 8 && Tail(bytes[1]) && Tail(bytes[2]) && Tail(bytes[3])
    && n == 0x40000 * Bits(bytes[0], 0xF0) + 0x1000 * Bits(bytes[1], 0x80) + 0x40 * Bits(bytes[2], 0x80) + Bits(bytes[3], 0x80)
  }

  /** The table of RFC 3629, section 3: how many bytes a number takes, how each begins, and which bits it carries. */
  predicate Carries(bytes: Bytes, n: nat)
  {
    if n <= 0x7F then bytes == [n] else if n <= 0x7FF then Two(bytes, n) else if n <= 0xFFFF then Three(bytes, n) else Four(bytes, n)
  }

  lemma Shifted(n: nat)
    ensures n / 0x40 / 0x40 == n / 0x1000 && n / 0x1000 / 0x40 == n / 0x40000
  {
  }

  lemma SplitOff(n: nat)
    ensures n == 0x40 * (n / 0x40) + n % 0x40 && 0 <= n % 0x40 < 0x40
  {
  }

  lemma TwoParts(n: nat)
    requires 0x80 <= n <= 0x7FF
    ensures Two([0xC0 + n / 0x40, 0x80 + n % 0x40], n)
  {
    SplitOff(n);
  }

  lemma ThreeParts(n: nat)
    requires 0x800 <= n <= 0xFFFF
    ensures Three([0xE0 + n / 0x1000, 0x80 + n / 0x40 % 0x40, 0x80 + n % 0x40], n)
  {
    SplitOff(n);
    SplitOff(n / 0x40);
    Shifted(n);
  }

  lemma FourParts(n: nat)
    requires 0x10000 <= n <= 0x10FFFF
    ensures n / 0x40000 % 8 == n / 0x40000 < 8
    ensures Four([0xF0 + n / 0x40000 % 8, 0x80 + n / 0x1000 % 0x40, 0x80 + n / 0x40 % 0x40, 0x80 + n % 0x40], n)
  {
    SplitOff(n);
    SplitOff(n / 0x40);
    SplitOff(n / 0x1000);
    Shifted(n);
  }

  lemma Utf8CharCarries(c: char)
    ensures Carries(Utf8Char(c), c as int)
  {
    hide Two, Three, Four;
    var n := c as int;
    if 0x80 <= n <= 0x7FF { TwoParts(n); }
    if 0x800 <= n <= 0xFFFF { ThreeParts(n); }
    if 0x10000 <= n { FourParts(n); }
  }

  lemma SixBits(a: int, b: int, c: int, d: int)
    requires 0 <= b < 0x40 && 0 <= d < 0x40 && 0x40 * a + b == 0x40 * c + d
    ensures a == c && b == d
  {
  }

  /** Which is one way to write the number. */
  lemma CarriesOnce(a: Bytes, b: Bytes, n: nat)
    requires Carries(a, n) && Carries(b, n)
    ensures a == b
  {
    if n <= 0x7F {
    } else if n <= 0x7FF {
      SixBits(Bits(a[0], 0xC0), Bits(a[1], 0x80), Bits(b[0], 0xC0), Bits(b[1], 0x80));
    } else if n <= 0xFFFF {
      var x, y := 0x40 * Bits(a[0], 0xE0) + Bits(a[1], 0x80), 0x40 * Bits(b[0], 0xE0) + Bits(b[1], 0x80);
      SixBits(x, Bits(a[2], 0x80), y, Bits(b[2], 0x80));
      SixBits(Bits(a[0], 0xE0), Bits(a[1], 0x80), Bits(b[0], 0xE0), Bits(b[1], 0x80));
    } else {
      var x, y := 0x40 * Bits(a[0], 0xF0) + Bits(a[1], 0x80), 0x40 * Bits(b[0], 0xF0) + Bits(b[1], 0x80);
      var x', y' := 0x40 * x + Bits(a[2], 0x80), 0x40 * y + Bits(b[2], 0x80);
      SixBits(x', Bits(a[3], 0x80), y', Bits(b[3], 0x80));
      SixBits(x, Bits(a[2], 0x80), y, Bits(b[2], 0x80));
      SixBits(Bits(a[0], 0xF0), Bits(a[1], 0x80), Bits(b[0], 0xF0), Bits(b[1], 0x80));
    }
  }
}
