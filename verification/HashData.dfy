/** The multiply-by-33 hash over bytes, modulo 2^64. */
module HashData {
  import opened Base

  const SEED := 5381

  function Wrap(x: int): u64 {
    x % 0x1_0000_0000_0000_0000
  }

  function Step(hash: u64, b: byte): u64 {
    Wrap(hash * 33 + b)
  }

  /** The loop's value after `data`, from any starting hash. */
  function Fold(hash: u64, data: seq<byte>): u64
    decreases |data|
  {
    if data == [] then hash else Step(Fold(hash, data[..|data| - 1]), data[|data| - 1])
  }

  lemma WrapOf(x: int) returns (k: int)
    ensures x == Wrap(x) + k * 0x1_0000_0000_0000_0000
  {
    k := x / 0x1_0000_0000_0000_0000;
  }

  lemma WrapUnique(x: int, y: u64, k: int)
    requires x == y + k * 0x1_0000_0000_0000_0000
    ensures Wrap(x) == y
  {
  }

  lemma WrapInside(x: int, y: int)
    ensures Wrap(Wrap(x) + y) == Wrap(x + y)
  {
    var k := WrapOf(x);
    var j := WrapOf(Wrap(x) + y);
    WrapUnique(x + y, Wrap(Wrap(x) + y), k + j);
  }

  lemma WrapTimes33(x: int, y: int)
    ensures Wrap(33 * Wrap(x) + y) == Wrap(33 * x + y)
  {
    var k := WrapOf(x);
    var j := WrapOf(33 * Wrap(x) + y);
    WrapUnique(33 * x + y, Wrap(33 * Wrap(x) + y), 33 * k + j);
  }

  /** 33 is odd, so multiplying by it modulo 2^64 can be undone: this is its inverse. */
  const INVERSE: int := 0x0F83_E0F8_3E0F_83E1

  lemma MultiplesOf33(d: int, k: int)
    requires -0x1_0000_0000_0000_0000 < d < 0x1_0000_0000_0000_0000 && 33 * d == k * 0x1_0000_0000_0000_0000
    ensures d == 0
  {
    assert 33 * INVERSE == 1 + 2 * 0x1_0000_0000_0000_0000;
    var m := INVERSE * k - 2 * d;
    assert INVERSE * (33 * d) == d + 2 * 0x1_0000_0000_0000_0000 * d;
    assert d == m * 0x1_0000_0000_0000_0000;
  }

  lemma StepIsInjective(h: u64, g: u64, b: byte)
    ensures Step(h, b) == Step(g, b) <==> h == g
  {
    if Step(h, b) == Step(g, b) {
      var k := WrapOf(h * 33 + b);
      var j := WrapOf(g * 33 + b);
      MultiplesOf33(h - g, k - j);
    }
  }

  lemma {:induction false} FoldIsInjective(h: u64, g: u64, data: seq<byte>)
    ensures Fold(h, data) == Fold(g, data) <==> h == g
    decreases |data|
  {
    if data != [] {
      var n := |data| - 1;
      FoldIsInjective(h, g, data[..n]);
      StepIsInjective(Fold(h, data[..n]), Fold(g, data[..n]), data[n]);
    }
  }

  lemma {:induction false} FoldConcat(hash: u64, a: seq<byte>, b: seq<byte>)
    ensures Fold(hash, a + b) == Fold(Fold(hash, a), b)
    decreases |b|
  {
    if b == [] {
      assert a + b == a;
    } else {
      var n := |b| - 1;
      FoldConcat(hash, a, b[..n]);
      assert (a + b)[..|a + b| - 1] == a + b[..n];
    }
  }

  /** The starting hash times 33 to the power `n`. */
  function Scaled(hash: u64, n: nat): u64 {
    if n == 0 then hash else Step(Scaled(hash, n - 1), 0)
  }

  lemma FoldSnoc(hash: u64, front: seq<byte>, b: byte)
    ensures Fold(hash, front + [b]) == Step(Fold(hash, front), b)
  {
    assert (front + [b])[..|front|] == front;
  }

  lemma SumSteps(s: u64, f: u64, b: byte)
    ensures Step(Wrap(s + f), b) == Wrap(Step(s, 0) + Step(f, b))
  {
    var x, y := 33 * s, 33 * f + b;
    WrapTimes33(s + f, b);
    WrapInside(x, Wrap(y));
    WrapInside(y, x);
    assert Wrap(Wrap(x) + Wrap(y)) == Wrap(x + y);
  }

  lemma SplitsStep(hash: u64, front: seq<byte>, b: byte, s: u64, f: u64)
    requires s == Scaled(hash, |front|) && f == Fold(0, front) && Fold(hash, front) == Wrap(s + f)
    ensures Fold(hash, front + [b]) == Wrap(Scaled(hash, |front| + 1) + Fold(0, front + [b]))
  {
    FoldSnoc(hash, front, b);
    FoldSnoc(0, front, b);
    SumSteps(s, f, b);
  }

  /** The closed form: what the start contributes and what the bytes contribute simply add up. */
  lemma {:induction false} FoldSplits(hash: u64, data: seq<byte>)
    ensures Fold(hash, data) == Wrap(Scaled(hash, |data|) + Fold(0, data))
    decreases |data|
  {
    if data == [] {
      assert Wrap(hash) == hash;
    } else {
      var front, b := data[..|data| - 1], data[|data| - 1];
      FoldSplits(hash, front);
      assert data == front + [b];
      SplitsStep(hash, front, b, Scaled(hash, |front|), Fold(0, front));
    }
  }

  lemma Multiples(d: int, k: int)
    requires -0x1_0000_0000_0000_0000 < d < 0x1_0000_0000_0000_0000 && d == k * 0x1_0000_0000_0000_0000
    ensures d == 0
  {
  }

  lemma WrapCancels(s: u64, x: u64, y: u64)
    ensures Wrap(s + x) == Wrap(s + y) <==> x == y
  {
    if Wrap(s + x) == Wrap(s + y) {
      var k := WrapOf(s + x);
      var j := WrapOf(s + y);
      Multiples(x - y, k - j);
    }
  }

  function Power33(n: nat): nat {
    if n == 0 then 1 else 33 * Power33(n - 1)
  }

  /** The bytes as digits of a number to the base 33, the last one lowest. */
  function Weighted(data: seq<byte>): nat
    decreases |data|
  {
    if data == [] then 0 else 33 * Weighted(data[..|data| - 1]) + data[|data| - 1]
  }

  lemma WeightedSnoc(front: seq<byte>, b: byte)
    ensures Weighted(front + [b]) == 33 * Weighted(front) + b
  {
    assert (front + [b])[..|front|] == front;
  }

  lemma Distribute(h: nat, p: nat, w: nat)
    ensures 33 * (h * p + w) == h * (33 * p) + 33 * w
  {
  }

  lemma PolynomialStep(hash: u64, front: seq<byte>, b: byte, p: nat, w: nat)
    requires Fold(hash, front) == Wrap(hash * p + w)
    ensures Fold(hash, front + [b]) == Wrap(hash * (33 * p) + (33 * w + b))
  {
    FoldSnoc(hash, front, b);
    WrapTimes33(hash * p + w, b);
    Distribute(hash, p, w);
  }

  /** The hash is the polynomial in 33 with the start and the bytes as coefficients, modulo 2^64. */
  lemma {:induction false} FoldIsPolynomial(hash: u64, data: seq<byte>)
    ensures Fold(hash, data) == Wrap(hash * Power33(|data|) + Weighted(data))
    decreases |data|
  {
    if data == [] {
      assert Wrap(hash) == hash;
    } else {
      var front, b := data[..|data| - 1], data[|data| - 1];
      assert data == front + [b];
      FoldIsPolynomial(hash, front);
      PolynomialStep(hash, front, b, Power33(|front|), Weighted(front));
      WeightedSnoc(front, b);
    }
  }

  method HashData(data: seq<byte>) returns (hash: u64)
    ensures hash == Fold(SEED, data)
    ensures hash == (5381 * Power33(|data|) + Weighted(data)) % 0x1_0000_0000_0000_0000
  {
    hash := SEED;
    for i := 0 to |data|
      invariant hash == Fold(SEED, data[..i])
    {
      assert data[..i + 1][..i] == data[..i];
      hash := Wrap(hash * 33 + data[i]);
    }
    assert data[..|data|] == data;
    FoldIsPolynomial(SEED, data);
  }

  lemma SameFromAnyStart(h: u64, a: seq<byte>, b: seq<byte>)
    requires |a| == |b|
    ensures Fold(h, a) == Fold(h, b) <==> Fold(0, a) == Fold(0, b)
  {
    FoldSplits(h, a);
    FoldSplits(h, b);
    WrapCancels(Scaled(h, |a|), Fold(0, a), Fold(0, b));
  }

  lemma AroundMiddle(p: seq<byte>, a: seq<byte>, q: seq<byte>)
    ensures Fold(SEED, p + a + q) == Fold(Fold(Fold(SEED, p), a), q)
  {
    FoldConcat(SEED, p + a, q);
    FoldConcat(SEED, p, a);
  }

  /** Replacing a stretch by another of the same length changes the hash or not, whatever stands around it. */
  lemma CollisionsAreContextFree(p: seq<byte>, a: seq<byte>, b: seq<byte>, q: seq<byte>)
    requires |a| == |b|
    ensures Fold(SEED, p + a + q) == Fold(SEED, p + b + q) <==> Fold(0, a) == Fold(0, b)
  {
    var h := Fold(SEED, p);
    AroundMiddle(p, a, q);
    AroundMiddle(p, b, q);
    FoldIsInjective(Fold(h, a), Fold(h, b), q);
    SameFromAnyStart(h, a, b);
  }

  lemma ShortFolds(x: byte, y: byte)
    ensures Fold(0, [x]) == x && Fold(0, [x, y]) == 33 * x + y
  {
    assert [x][..0] == [] && [x, y][..1] == [x];
    assert Step(0, x) == x && Step(x, y) == 33 * x + y;
  }

  /** A change in one byte always changes the hash. */
  lemma ChangedByteShows(p: seq<byte>, x: byte, y: byte, q: seq<byte>)
    ensures Fold(SEED, p + [x] + q) == Fold(SEED, p + [y] + q) <==> x == y
  {
    ShortFolds(x, y);
    ShortFolds(y, x);
    CollisionsAreContextFree(p, [x], [y], q);
  }

  /** A change in two adjacent bytes goes unseen exactly when they trade 33 for one. */
  lemma ChangedPairShowsExactlyWhen(p: seq<byte>, x: byte, y: byte, x': byte, y': byte, q: seq<byte>)
    ensures Fold(SEED, p + [x, y] + q) == Fold(SEED, p + [x', y'] + q) <==> 33 * (x - x') == y' - y
  {
    ShortFolds(x, y);
    ShortFolds(x', y');
    CollisionsAreContextFree(p, [x, y], [x', y'], q);
  }

  /** So exchanging two adjacent bytes always changes the hash, unless they are equal. */
  lemma SwappedPairShows(p: seq<byte>, x: byte, y: byte, q: seq<byte>)
    ensures Fold(SEED, p + [x, y] + q) == Fold(SEED, p + [y, x] + q) <==> x == y
  {
    ChangedPairShowsExactlyWhen(p, x, y, y, x, q);
  }
}
