/** Fixed-width little-endian words and two's complement, the byte forms of every number in memory and in files. */
module LittleEndian {
  import opened Base

  function Power256(n: nat): (p: nat)
    ensures p > 0
  {
    if n == 0 then 1 else 256 * Power256(n - 1)
  }

  function LE(v: nat, n: nat): (bytes: seq<byte>)
    ensures |bytes| == n
  {
    if n == 0 then [] else [v % 256] + LE(v / 256, n - 1)
  }

  function Nat(bytes: seq<byte>): nat {
    if bytes == [] then 0 else bytes[0] + 256 * Nat(bytes[1..])
  }

  lemma {:induction false} DecodedBelow(bytes: seq<byte>)
    ensures Nat(bytes) < Power256(|bytes|)
  {
    if bytes != [] {
      DecodedBelow(bytes[1..]);
    }
  }

  lemma {:induction false} DecodeEncoded(v: nat, n: nat)
    requires v < Power256(n)
    ensures Nat(LE(v, n)) == v
  {
    if n > 0 {
      DecodeEncoded(v / 256, n - 1);
      assert LE(v, n)[1..] == LE(v / 256, n - 1);
    }
  }

  lemma {:induction false} EncodeDecoded(bytes: seq<byte>)
    ensures LE(Nat(bytes), |bytes|) == bytes
  {
    if bytes != [] {
      EncodeDecoded(bytes[1..]);
      assert (bytes[0] + 256 * Nat(bytes[1..])) / 256 == Nat(bytes[1..]);
      assert bytes == [bytes[0]] + bytes[1..];
    }
  }

  lemma TimesGrows(a: int, b: int, d: nat)
    requires a <= b
    ensures a * d <= b * d
  {
  }

  lemma QuotientIs(v: int, d: nat, q: int, r: nat)
    requires v == q * d + r && r < d
    ensures v / d == q
  {
    var k := v / d;
    assert v == k * d + v % d;
    if k < q {
      TimesGrows(k + 1, q, d);
    } else if k > q {
      TimesGrows(q + 1, k, d);
    }
  }

  lemma DivideTwice(v: nat, p: nat)
    requires p > 0
    ensures v / 256 / p == v / (256 * p)
  {
    var q := v / 256 / p;
    var low, rest := v % 256, v / 256 % p;
    assert v == 256 * (q * p + rest) + low;
    assert v == q * (256 * p) + (256 * rest + low);
    QuotientIs(v, 256 * p, q, 256 * rest + low);
  }

  /** Byte `i` is the digit of weight 256 to the power `i`: the lowest comes first. */
  lemma {:induction false} ByteWeight(v: nat, n: nat, i: nat)
    requires i < n
    ensures LE(v, n)[i] == v / Power256(i) % 256
    decreases i
  {
    if i > 0 {
      ByteWeight(v / 256, n - 1, i - 1);
      DivideTwice(v, Power256(i - 1));
    }
  }

  lemma Widths()
    ensures Power256(4) == TWO_32 == 2 * TWO_31 && Power256(8) == TWO_64 == 2 * TWO_63
  {
    assert Power256(2) == 0x1_0000;
    assert Power256(4) == 0x1_0000_0000;
    assert Power256(6) == 0x1_0000_0000_0000;
  }

  function Word32(bytes: seq<byte>): u32
    requires |bytes| == 4
  {
    Widths();
    DecodedBelow(bytes);
    Nat(bytes)
  }

  function Word64(bytes: seq<byte>): u64
    requires |bytes| == 8
  {
    Widths();
    DecodedBelow(bytes);
    Nat(bytes)
  }

  function Unsigned(x: i64): u64 {
    if x < 0 then x + TWO_64 else x
  }

  function Signed(x: u64): i64 {
    if x < TWO_63 then x else x - TWO_64
  }

  lemma Word32Of(v: u32)
    ensures Word32(LE(v, 4)) == v
  {
    Widths();
    DecodeEncoded(v, 4);
  }

  lemma Word64Of(v: u64)
    ensures Word64(LE(v, 8)) == v
  {
    Widths();
    DecodeEncoded(v, 8);
  }

  /** Two's complement: the unsigned and the signed reading of a word differ by a multiple of 2^64. */
  lemma TwosComplement(x: i64, u: u64)
    ensures 0 <= Unsigned(x) < 0x1_0000_0000_0000_0000 && (Unsigned(x) - x) % 0x1_0000_0000_0000_0000 == 0
    ensures -0x8000_0000_0000_0000 <= Signed(u) < 0x8000_0000_0000_0000
    ensures (Signed(u) - u) % 0x1_0000_0000_0000_0000 == 0
  {
  }

  lemma Times(a: int, b: int, c: int)
    ensures a * (b * c) == (a * b) * c && (a + b) * c == a * c + b * c && a * b == b * a
  {
  }

  lemma DivideShifted(x: int, p: nat, m: nat)
    requires p > 0
    ensures (x + p * m) / p == x / p + m
  {
    var k, r := x / p, x % p;
    Times(k, m, p);
    Times(p, m, 1);
    QuotientIs(x + p * m, p, k + m, r);
  }

  lemma {:induction false} PowersMultiply(i: nat, j: nat)
    ensures Power256(i + j) == Power256(i) * Power256(j)
    decreases i
  {
    if i > 0 {
      PowersMultiply(i - 1, j);
      Times(256, Power256(i - 1), Power256(j));
    }
  }

  lemma WidthSplits(i: nat)
    requires i < 8
    ensures TWO_64 == Power256(i) * (256 * Power256(7 - i))
  {
    Widths();
    PowersMultiply(i, 8 - i);
  }

  lemma SameDigit(x: int, p: nat, q: nat)
    requires p > 0
    ensures (x + p * (256 * q)) / p % 256 == x / p % 256
  {
    var digits := x / p;
    DivideShifted(x, p, 256 * q);
    assert (digits + 256 * q) % 256 == digits % 256;
  }

  /** Byte `i` of a signed number, negative ones included, is its digit of weight 256 to the power `i`, counted down
      from below zero. */
  lemma SignedByteWeight(x: i64, i: nat)
    requires i < 8
    ensures LE(Unsigned(x), 8)[i] == x / Power256(i) % 256
  {
    ByteWeight(Unsigned(x), 8, i);
    if x < 0 {
      WidthSplits(i);
      SameDigit(x, Power256(i), Power256(7 - i));
    }
  }

  lemma SignedOf(x: i64)
    ensures Signed(Unsigned(x)) == x
  {
  }

  lemma UnsignedOf(x: u64)
    ensures Unsigned(Signed(x)) == x
  {
  }
}
