/** Bytes and the fixed-width big-endian integers that every layer of the protocol is built from. */
module Bytes {

  type byte = b: int | 0 <= b < 0x100
  type u16 = x: int | 0 <= x < 0x1_0000
  type u32 = x: int | 0 <= x < 0x1_0000_0000

  /** `std::vector<uint8_t>` and `std::string` alike: a `std::string` here is only ever a run of bytes. */
  type bytes = seq<byte>

  datatype Option<+T> = None | Some(value: T)

  /** `static_cast<uint32_t>`: the value modulo 2^32, for negative operands as well. */
  function Low32(n: int): u32 {
    if 0 <= n < 0x1_0000_0000 then n else n % 0x1_0000_0000
  }

  /** The number whose base-256 digits are `s`, most significant first. */
  function Value(s: bytes): nat {
    if s == [] then 0 else Value(s[..|s| - 1]) * 0x100 + s[|s| - 1]
  }

  /** The last `n` base-256 digits of `x`, most significant first. */
  function Digits(x: nat, n: nat): (s: bytes)
    ensures |s| == n
    decreases x, n
  {
    if n == 0 then [] else Digits(x / 0x100, n - 1) + [x % 0x100]
  }

  function Range(n: nat): nat {
    if n == 0 then 1 else 0x100 * Range(n - 1)
  }

  lemma {:induction false} ValueOfDigits(x: nat, n: nat)
    requires x < Range(n)
    ensures Value(Digits(x, n)) == x
    decreases n
  {
    if n > 0 {
      ValueOfDigits(x / 0x100, n - 1);
      var s := Digits(x, n);
      assert s[..n - 1] == Digits(x / 0x100, n - 1);
    }
  }

  lemma {:induction false} DigitsOfValue(s: bytes)
    ensures Digits(Value(s), |s|) == s && Value(s) < Range(|s|)
  {
    if s != [] {
      var init := s[..|s| - 1];
      DigitsOfValue(init);
      assert s == init + [s[|s| - 1]];
      assert Value(s) / 0x100 == Value(init);
    }
  }

  /** The four bytes `htonl` and a copy put into a buffer. */
  function U32(x: u32): (s: bytes)
    ensures |s| == 4
  {
    Digits(x, 4)
  }

  /** The number `ntohl` makes of the four bytes at position `i`. */
  function At32(s: bytes, i: nat): u32
    requires i + 4 <= |s|
  {
    DigitsOfValue(s[i..i + 4]);
    assert Range(4) == 0x1_0000_0000;
    Value(s[i..i + 4])
  }

  function U16(x: u16): (s: bytes)
    ensures |s| == 2
  {
    Digits(x, 2)
  }

  function At16(s: bytes, i: nat): u16
    requires i + 2 <= |s|
  {
    DigitsOfValue(s[i..i + 2]);
    assert Range(2) == 0x1_0000;
    Value(s[i..i + 2])
  }

  /** Reading back a 32-bit number from wherever it was written. */
  lemma U32RoundTrip(before: bytes, x: u32, after: bytes)
    ensures At32(before + U32(x) + after, |before|) == x
  {
    ValueOfDigits(x, 4);
    assert (before + U32(x) + after)[|before|..|before| + 4] == U32(x);
  }

  /** Writing back a 32-bit number restores the bytes it was read from. */
  lemma U32Rewrite(s: bytes, i: nat)
    requires i + 4 <= |s|
    ensures U32(At32(s, i)) == s[i..i + 4]
  {
    DigitsOfValue(s[i..i + 4]);
  }

  lemma U16RoundTrip(before: bytes, x: u16, after: bytes)
    ensures At16(before + U16(x) + after, |before|) == x
  {
    ValueOfDigits(x, 2);
    assert (before + U16(x) + after)[|before|..|before| + 2] == U16(x);
  }

  lemma U16Rewrite(s: bytes, i: nat)
    requires i + 2 <= |s|
    ensures U16(At16(s, i)) == s[i..i + 2]
  {
    DigitsOfValue(s[i..i + 2]);
  }

  /** The most significant byte comes first. */
  lemma U32IsBigEndian(x: u32)
    ensures U32(x) == [x / 0x100_0000, x / 0x1_0000 % 0x100, x / 0x100 % 0x100, x % 0x100]
  {
    assert Digits(x, 4) == Digits(x / 0x100, 3) + [x % 0x100];
    assert Digits(x / 0x100, 3) == Digits(x / 0x1_0000, 2) + [x / 0x100 % 0x100];
    assert Digits(x / 0x1_0000, 2) == Digits(x / 0x100_0000, 1) + [x / 0x1_0000 % 0x100];
    OneDigit(x / 0x100_0000);
  }

  lemma OneDigit(x: byte)
    ensures Digits(x, 1) == [x]
  {
    assert Digits(x / 0x100, 0) == [];
  }

  lemma U16IsBigEndian(x: u16)
    ensures U16(x) == [x / 0x100, x % 0x100]
  {
    assert Digits(x, 2) == Digits(x / 0x100, 1) + [x % 0x100];
    OneDigit(x / 0x100);
  }

  /** A signed or too wide number is cut to the residue that 32 bits can hold. */
  lemma Low32IsResidue(n: int)
    ensures exists k: int :: n == Low32(n) + k * 0x1_0000_0000
  {
    assert n == Low32(n) + (n / 0x1_0000_0000) * 0x1_0000_0000;
  }
}
