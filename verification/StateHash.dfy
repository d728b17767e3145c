/** The XOR state hash over entries. */
module StateHash {
  import opened Base
  import opened LittleEndian
  import opened Chunk

  function LowBit(v: nat): (bit: nat)
    ensures bit < 2
  {
    v % 2
  }

  /** Bitwise exclusive or, one binary digit at a time. */
  function Xor(a: nat, b: nat): nat
    decreases a + b
  {
    if a == 0 && b == 0 then 0 else (if LowBit(a) == LowBit(b) then 0 else 1) + 2 * Xor(a / 2, b / 2)
  }

  function Bit(v: nat, i: nat): (bit: nat)
    ensures bit < 2
  {
    if i == 0 then LowBit(v) else Bit(v / 2, i - 1)
  }

  lemma XorUnfolded(a: nat, b: nat)
    ensures Xor(a, b) == (if LowBit(a) == LowBit(b) then 0 else 1) + 2 * Xor(a / 2, b / 2)
  {
    if a == 0 && b == 0 {
      assert Xor(0, 0) == 0;
    }
  }

  lemma Digits(low: nat, high: nat, v: nat)
    requires low < 2 && v == low + 2 * high
    ensures LowBit(v) == low && v / 2 == high
  {
  }

  lemma SameDigits(x: nat, y: nat)
    requires LowBit(x) == LowBit(y) && x / 2 == y / 2
    ensures x == y
  {
  }

  lemma XorDigits(a: nat, b: nat)
    ensures LowBit(Xor(a, b)) == (if LowBit(a) == LowBit(b) then 0 else 1)
    ensures Xor(a, b) / 2 == Xor(a / 2, b / 2)
  {
    XorUnfolded(a, b);
    Digits(if LowBit(a) == LowBit(b) then 0 else 1, Xor(a / 2, b / 2), Xor(a, b));
  }

  /** Bit by bit: one exactly where the operands differ. */
  lemma {:induction false} XorBits(a: nat, b: nat, i: nat)
    ensures Bit(Xor(a, b), i) == if Bit(a, i) == Bit(b, i) then 0 else 1
    decreases i
  {
    XorDigits(a, b);
    if i > 0 {
      XorBits(a / 2, b / 2, i - 1);
    }
  }

  lemma {:induction false} XorZero(a: nat)
    ensures Xor(a, 0) == a
  {
    if a > 0 {
      XorZero(a / 2);
      XorDigits(a, 0);
      SameDigits(Xor(a, 0), a);
    }
  }

  lemma {:induction false} XorCommutes(a: nat, b: nat)
    ensures Xor(a, b) == Xor(b, a)
    decreases a + b
  {
    if a + b > 0 {
      XorCommutes(a / 2, b / 2);
      XorUnfolded(a, b);
      XorUnfolded(b, a);
    }
  }

  lemma {:induction false} XorSelf(a: nat)
    ensures Xor(a, a) == 0
  {
    if a > 0 {
      XorSelf(a / 2);
      XorUnfolded(a, a);
    }
  }

  lemma NestedDigits(a: nat, b: nat, c: nat)
    ensures LowBit(Xor(Xor(a, b), c)) == LowBit(Xor(a, Xor(b, c)))
    ensures Xor(Xor(a, b), c) / 2 == Xor(Xor(a / 2, b / 2), c / 2)
    ensures Xor(a, Xor(b, c)) / 2 == Xor(a / 2, Xor(b / 2, c / 2))
  {
    XorDigits(a, b);
    XorDigits(b, c);
    XorDigits(Xor(a, b), c);
    XorDigits(a, Xor(b, c));
  }

  lemma {:induction false} XorAssociates(a: nat, b: nat, c: nat)
    ensures Xor(Xor(a, b), c) == Xor(a, Xor(b, c))
    decreases a + b + c
  {
    if a + b + c > 0 {
      XorAssociates(a / 2, b / 2, c / 2);
      NestedDigits(a, b, c);
      SameDigits(Xor(Xor(a, b), c), Xor(a, Xor(b, c)));
    }
  }

  lemma Halves(a: nat)
    ensures a / 2 / 2 == a / 4
  {
  }

  lemma XorQuarter(a: nat, b: nat)
    ensures Xor(a, b) / 4 == Xor(a / 4, b / 4)
  {
    XorDigits(a, b);
    XorDigits(a / 2, b / 2);
    Halves(a);
    Halves(b);
    Halves(Xor(a, b));
  }

  lemma Quarters(a: nat)
    ensures a / 4 / 4 == a / 16 && a / 16 / 4 == a / 64 && a / 64 / 4 == a / 256
  {
  }

  lemma XorByte(a: nat, b: nat)
    ensures Xor(a, b) / 256 == Xor(a / 256, b / 256)
  {
    XorQuarter(a, b);
    XorQuarter(a / 4, b / 4);
    XorQuarter(a / 16, b / 16);
    XorQuarter(a / 64, b / 64);
    Quarters(a);
    Quarters(b);
    Quarters(Xor(a, b));
  }

  lemma {:induction false} XorBelow(a: nat, b: nat, n: nat)
    requires a < Power256(n) && b < Power256(n)
    ensures Xor(a, b) < Power256(n)
    decreases n
  {
    if n == 0 {
      assert a == 0 && b == 0;
    } else {
      XorByte(a, b);
      XorBelow(a / 256, b / 256, n - 1);
    }
  }

  function Power2(n: nat): (p: nat)
    ensures p > 0
  {
    if n == 0 then 1 else 2 * Power2(n - 1)
  }

  lemma HalveThenDivide(v: nat, p: nat)
    requires p > 0
    ensures v / 2 / p == v / (2 * p)
  {
    var q := v / 2 / p;
    var low, rest := v % 2, v / 2 % p;
    assert v == 2 * (q * p + rest) + low;
    assert v == q * (2 * p) + (2 * rest + low);
    QuotientIs(v, 2 * p, q, 2 * rest + low);
  }

  /** Bit `i` is the binary digit of weight 2 to the power `i`. */
  lemma {:induction false} BitIs(v: nat, i: nat)
    ensures Bit(v, i) == v / Power2(i) % 2
    decreases i
  {
    if i > 0 {
      BitIs(v / 2, i - 1);
      HalveThenDivide(v, Power2(i - 1));
    }
  }

  lemma {:induction false} PowersOfTwoMultiply(i: nat, j: nat)
    ensures Power2(i + j) == Power2(i) * Power2(j)
    decreases i
  {
    if i > 0 {
      PowersOfTwoMultiply(i - 1, j);
      Times(2, Power2(i - 1), Power2(j));
    }
  }

  lemma PowerDoubles(n: nat, p: nat)
    requires Power2(n) == p
    ensures Power2(2 * n) == p * p
  {
    PowersOfTwoMultiply(n, n);
  }

  lemma SixtyFour()
    ensures Power2(64) == TWO_64
  {
    assert Power2(4) == 0x10;
    PowerDoubles(4, 0x10);
    PowerDoubles(8, 0x100);
    PowerDoubles(16, 0x1_0000);
    PowerDoubles(32, 0x1_0000_0000);
  }

  lemma WordSplits(i: nat)
    requires i < 64
    ensures TWO_64 == Power2(i) * (2 * Power2(63 - i))
  {
    SixtyFour();
    PowersOfTwoMultiply(i, 64 - i);
  }

  lemma SameBinaryDigit(x: int, p: nat, q: nat)
    requires p > 0
    ensures (x + p * (2 * q)) / p % 2 == x / p % 2
  {
    var digits := x / p;
    DivideShifted(x, p, 2 * q);
    assert (digits + 2 * q) % 2 == digits % 2;
  }

  /** The same digit of a signed number, negative ones included. */
  lemma SignedBitIs(x: i64, i: nat)
    requires i < 64
    ensures Bit(Unsigned(x), i) == x / Power2(i) % 2
  {
    BitIs(Unsigned(x), i);
    if x < 0 {
      WordSplits(i);
      SameBinaryDigit(x, Power2(i), Power2(63 - i));
    }
  }

  /** What one entry contributes. */
  function Share(d: MessageEntryData): nat {
    Xor(d.uuid, Unsigned(d.timestamp))
  }

  /** The hash as the loop accumulates it, entry by entry. */
  function HashOf(es: seq<MessageEntryData>): nat {
    if es == [] then 0
    else
      var d := es[|es| - 1];
      Xor(Xor(HashOf(es[..|es| - 1]), d.uuid), Unsigned(d.timestamp))
  }

  lemma {:induction false} StateHashFits(es: seq<MessageEntryData>)
    ensures HashOf(es) < TWO_64
  {
    Widths();
    if es != [] {
      var d := es[|es| - 1];
      StateHashFits(es[..|es| - 1]);
      XorBelow(HashOf(es[..|es| - 1]), d.uuid, 8);
      XorBelow(Xor(HashOf(es[..|es| - 1]), d.uuid), Unsigned(d.timestamp), 8);
    }
  }

  lemma StateHashSnoc(es: seq<MessageEntryData>, d: MessageEntryData)
    ensures HashOf(es + [d]) == Xor(Xor(HashOf(es), d.uuid), Unsigned(d.timestamp))
    ensures HashOf(es + [d]) == Xor(HashOf(es), Share(d))
  {
    assert (es + [d])[..|es|] == es;
    XorAssociates(HashOf(es), d.uuid, Unsigned(d.timestamp));
  }

  /** How many of the entries' uuids and timestamps have a one at bit `i`. */
  function Ones(es: seq<MessageEntryData>, i: nat): nat
    decreases |es|
  {
    if es == [] then 0
    else
      var d := es[|es| - 1];
      Ones(es[..|es| - 1], i) + d.uuid / Power2(i) % 2 + d.timestamp / Power2(i) % 2
  }

  lemma XorCounts(a: nat, b: nat, i: nat)
    ensures Bit(Xor(a, b), i) == (Bit(a, i) + Bit(b, i)) % 2
  {
    XorBits(a, b, i);
  }

  lemma Parity(x: nat, h: nat, u: nat, v: nat, ones: nat)
    requires x == ((h + u) % 2 + v) % 2 && h == ones % 2
    ensures x == (ones + u + v) % 2
  {
  }

  lemma OneMoreEntry(h: nat, d: MessageEntryData, i: nat, ones: nat)
    requires i < 64 && Bit(h, i) == ones % 2
    ensures Bit(Xor(Xor(h, d.uuid), Unsigned(d.timestamp)), i)
         == (ones + d.uuid / Power2(i) % 2 + d.timestamp / Power2(i) % 2) % 2
  {
    var u, v := Bit(d.uuid, i), Bit(Unsigned(d.timestamp), i);
    XorCounts(h, d.uuid, i);
    XorCounts(Xor(h, d.uuid), Unsigned(d.timestamp), i);
    BitIs(d.uuid, i);
    SignedBitIs(d.timestamp, i);
    Parity(Bit(Xor(Xor(h, d.uuid), Unsigned(d.timestamp)), i), Bit(h, i), u, v, ones);
  }

  lemma {:induction false} ZeroBit(i: nat)
    ensures Bit(0, i) == 0
  {
    if i > 0 {
      ZeroBit(i - 1);
    }
  }

  lemma {:induction false} HashBit(es: seq<MessageEntryData>, i: nat)
    requires i < 64
    ensures Bit(HashOf(es), i) == Ones(es, i) % 2
    decreases |es|
  {
    if es == [] {
      ZeroBit(i);
    } else {
      var front := es[..|es| - 1];
      HashBit(front, i);
      OneMoreEntry(HashOf(front), es[|es| - 1], i, Ones(front, i));
    }
  }

  /** Bit `i` of the hash is one exactly when an odd number of uuids and timestamps have a one there. */
  lemma HashCountsOnes(es: seq<MessageEntryData>, i: nat)
    requires i < 64
    ensures HashOf(es) / Power2(i) % 2 == Ones(es, i) % 2
  {
    HashBit(es, i);
    BitIs(HashOf(es), i);
  }

  /** Of one entry, that is where exactly one of its uuid and its timestamp has a one. */
  lemma HashOfOne(d: MessageEntryData, i: nat)
    requires i < 64
    ensures HashOf([d]) / Power2(i) % 2 == (d.uuid / Power2(i) % 2 + d.timestamp / Power2(i) % 2) % 2
  {
    var n := Ones([d], i);
    HashCountsOnes([d], i);
    assert [d][..0] == [];
    assert Ones([], i) == 0 && n == d.uuid / Power2(i) % 2 + d.timestamp / Power2(i) % 2;
  }

  lemma HashSplitsStep(p: seq<MessageEntryData>, front: seq<MessageEntryData>, d: MessageEntryData,
                       b: seq<MessageEntryData>, h: nat)
    requires b == front + [d] && HashOf(p + front) == Xor(h, HashOf(front))
    ensures HashOf(p + b) == Xor(h, HashOf(b))
  {
    assert p + b == (p + front) + [d];
    StateHashSnoc(p + front, d);
    StateHashSnoc(front, d);
    XorAssociates(h, HashOf(front), Share(d));
  }

  lemma {:induction false} HashSplitsOverConcatenation(a: seq<MessageEntryData>, b: seq<MessageEntryData>)
    ensures HashOf(a + b) == Xor(HashOf(a), HashOf(b))
    decreases |b|
  {
    if b == [] {
      assert a + b == a;
      XorZero(HashOf(a));
    } else {
      var front, d := b[..|b| - 1], b[|b| - 1];
      assert b == front + [d];
      HashSplitsOverConcatenation(a, front);
      HashSplitsStep(a, front, d, b, HashOf(a));
    }
  }

  /** An entry may be taken out of the middle. */
  lemma HashWithout(p: seq<MessageEntryData>, d: MessageEntryData, q: seq<MessageEntryData>)
    ensures HashOf(p + [d] + q) == Xor(HashOf(p + q), Share(d))
  {
    HashSplitsOverConcatenation(p + [d], q);
    StateHashSnoc(p, d);
    HashSplitsOverConcatenation(p, q);
    XorAssociates(HashOf(p), Share(d), HashOf(q));
    XorCommutes(Share(d), HashOf(q));
    XorAssociates(HashOf(p), HashOf(q), Share(d));
  }

  lemma CountsSnoc<T>(front: seq<T>, d: T)
    ensures multiset(front + [d]) == multiset(front) + multiset{d}
  {
  }

  lemma CountsMiddle<T>(p: seq<T>, d: T, q: seq<T>)
    ensures multiset(p + [d] + q) == multiset(p + q) + multiset{d}
  {
  }

  lemma FindLast<T>(a: seq<T>, b: seq<T>) returns (p: seq<T>, q: seq<T>)
    requires a != [] && multiset(a) == multiset(b)
    ensures b == p + [a[|a| - 1]] + q && multiset(a[..|a| - 1]) == multiset(p + q)
  {
    var front, d := a[..|a| - 1], a[|a| - 1];
    assert a == front + [d];
    CountsSnoc(front, d);
    assert d in multiset(b);
    var j :| 0 <= j < |b| && b[j] == d;
    p, q := b[..j], b[j + 1..];
    assert b == p + [d] + q;
    CountsMiddle(p, d, q);
    assert multiset(front) == multiset(a) - multiset{d} == multiset(p + q);
  }

  lemma {:induction false} HashIgnoresOrder(a: seq<MessageEntryData>, b: seq<MessageEntryData>)
    requires multiset(a) == multiset(b)
    ensures HashOf(a) == HashOf(b)
    decreases |a|
  {
    if a == [] {
      assert |multiset(b)| == 0;
    } else {
      var front, d := a[..|a| - 1], a[|a| - 1];
      var p, q := FindLast(a, b);
      HashIgnoresOrder(front, p + q);
      assert a == front + [d];
      StateHashSnoc(front, d);
      HashWithout(p, d, q);
    }
  }

  /** Two copies of an entry cancel. */
  lemma TwiceIsNever(es: seq<MessageEntryData>, d: MessageEntryData)
    ensures HashOf(es + [d] + [d]) == HashOf(es)
  {
    StateHashSnoc(es, d);
    StateHashSnoc(es + [d], d);
    XorAssociates(HashOf(es), Share(d), Share(d));
    XorSelf(Share(d));
    XorZero(HashOf(es));
  }
}
