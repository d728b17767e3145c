/** The search-segment allocator, for sequential calls. It keeps two views of what is free, the `in_use` flags
    and a bitmap, and both reserve and release exchange a whole bitmap word with a single bit. */
module SearchPool {
  import opened Base

  const SEGMENT_SIZE := 65536

  datatype Segment = Segment(data: seq<byte>, chunkId: u32, inUse: bool)

  /** The pool as a value: 64 segments per bitmap word. */
  datatype Pool = Pool(segments: seq<Segment>, bitmap: seq<bv64>)

  /** One shifted left by `bit`, one place at a time. */
  function Mask(bit: nat): bv64
    requires bit < 64
  {
    if bit == 0 then 1 else Mask(bit - 1) + Mask(bit - 1)
  }

  predicate IsSet(word: bv64, bit: nat)
    requires bit < 64
  {
    word & Mask(bit) != 0
  }

  /** The bit of segment `i` in its word. */
  predicate Marked(bitmap: seq<bv64>, i: nat)
    requires i < 64 * |bitmap|
  {
    IsSet(bitmap[i / 64], i % 64)
  }

  ghost predicate AtMostOneBit(word: bv64) {
    word == 0 || exists bit: nat :: bit < 64 && word == Mask(bit)
  }

  ghost predicate WellFormed(p: Pool) {
    && |p.segments| == 64 * |p.bitmap|
    && (forall k :: 0 <= k < |p.bitmap| ==> AtMostOneBit(p.bitmap[k]))
    && (forall i :: 0 <= i < |p.segments| ==> |p.segments[i].data| == SEGMENT_SIZE)
  }

  lemma MiddleMask()
    ensures Mask(31) == 0x80000000
  {
    assert Mask(1) == 0x2 && Mask(2) == 0x4 && Mask(3) == 0x8;
    assert Mask(4) == 0x10 && Mask(5) == 0x20 && Mask(6) == 0x40 && Mask(7) == 0x80;
    assert Mask(8) == 0x100 && Mask(9) == 0x200 && Mask(10) == 0x400 && Mask(11) == 0x800;
    assert Mask(12) == 0x1000 && Mask(13) == 0x2000 && Mask(14) == 0x4000 && Mask(15) == 0x8000;
    assert Mask(16) == 0x10000 && Mask(17) == 0x20000 && Mask(18) == 0x40000 && Mask(19) == 0x80000;
    assert Mask(20) == 0x100000 && Mask(21) == 0x200000 && Mask(22) == 0x400000 && Mask(23) == 0x800000;
    assert Mask(24) == 0x1000000 && Mask(25) == 0x2000000 && Mask(26) == 0x4000000 && Mask(27) == 0x8000000;
    assert Mask(28) == 0x10000000 && Mask(29) == 0x20000000 && Mask(30) == 0x40000000 && Mask(31) == 0x80000000;
  }

  lemma TopMask()
    ensures Mask(63) == 0x8000000000000000
  {
    MiddleMask();
    assert Mask(32) == 0x100000000 && Mask(33) == 0x200000000 && Mask(34) == 0x400000000 && Mask(35) == 0x800000000;
    assert Mask(36) == 0x1000000000 && Mask(37) == 0x2000000000 && Mask(38) == 0x4000000000 && Mask(39) == 0x8000000000;
    assert Mask(40) == 0x10000000000 && Mask(41) == 0x20000000000 && Mask(42) == 0x40000000000
      && Mask(43) == 0x80000000000;
    assert Mask(44) == 0x100000000000 && Mask(45) == 0x200000000000 && Mask(46) == 0x400000000000
      && Mask(47) == 0x800000000000;
    assert Mask(48) == 0x1000000000000 && Mask(49) == 0x2000000000000 && Mask(50) == 0x4000000000000
      && Mask(51) == 0x8000000000000;
    assert Mask(52) == 0x10000000000000 && Mask(53) == 0x20000000000000 && Mask(54) == 0x40000000000000
      && Mask(55) == 0x80000000000000;
    assert Mask(56) == 0x100000000000000 && Mask(57) == 0x200000000000000 && Mask(58) == 0x400000000000000
      && Mask(59) == 0x800000000000000;
    assert Mask(60) == 0x1000000000000000 && Mask(61) == 0x2000000000000000 && Mask(62) == 0x4000000000000000
      && Mask(63) == 0x8000000000000000;
  }

  /** Each mask is twice the one before it, from one up to 2^63. */
  lemma MasksAre()
    ensures Mask(0) == 1 && Mask(31) == 0x80000000 && Mask(63) == 0x8000000000000000
    ensures forall bit: nat :: 0 < bit < 64 ==> Mask(bit) == Mask(bit - 1) + Mask(bit - 1)
  {
    MiddleMask();
    TopMask();
  }

  lemma {:induction false} MaskIsNotZero(a: nat)
    requires a < 64
    ensures Mask(a) != 0
    decreases 64 - a
  {
    if a == 63 {
      TopMask();
    } else {
      MaskIsNotZero(a + 1);
      assert Mask(a + 1) == Mask(a) + Mask(a);
    }
  }

  lemma {:induction false} MasksAreDisjoint(a: nat, b: nat)
    requires a < b < 64
    ensures Mask(a) & Mask(b) == 0 && Mask(b) & Mask(a) == 0
  {
    if a > 0 {
      MasksAreDisjoint(a - 1, b - 1);
    }
  }

  lemma AndWithSelf(word: bv64)
    ensures word & word == word
  {
  }

  lemma OwnBit(a: nat)
    requires a < 64
    ensures IsSet(Mask(a), a)
  {
    var mask := Mask(a);
    MaskIsNotZero(a);
    AndWithSelf(mask);
  }

  lemma OtherBit(a: nat, b: nat)
    requires a < 64 && b < 64 && a != b
    ensures !IsSet(Mask(a), b)
  {
    if a < b {
      MasksAreDisjoint(a, b);
    } else {
      MasksAreDisjoint(b, a);
    }
  }

  lemma MaskedBits(a: nat, b: nat)
    requires a < 64 && b < 64
    ensures IsSet(Mask(a), b) <==> a == b
  {
    if a == b {
      OwnBit(a);
    } else {
      OtherBit(a, b);
    }
  }

  /** In a word with at most one bit, a set bit is the whole word. */
  lemma SetMeansMask(word: bv64, bit: nat)
    requires AtMostOneBit(word) && bit < 64 && IsSet(word, bit)
    ensures word == Mask(bit)
  {
    if word != 0 {
      var other: nat :| other < 64 && word == Mask(other);
      MaskedBits(other, bit);
    }
  }

  lemma SetIsMask(word: bv64, bit: nat)
    requires AtMostOneBit(word) && bit < 64
    ensures IsSet(word, bit) <==> word == Mask(bit)
  {
    MaskedBits(bit, bit);
    if IsSet(word, bit) {
      SetMeansMask(word, bit);
    }
  }

  /** So a segment is marked exactly when its bit is its whole word. */
  lemma MarkedMeansMask(p: Pool, i: nat)
    requires WellFormed(p) && i < |p.segments|
    ensures Marked(p.bitmap, i) <==> p.bitmap[i / 64] == Mask(i % 64)
  {
    SetIsMask(p.bitmap[i / 64], i % 64);
  }

  // ----- What the two operations do -----

  /** The segment a reserve may take: not in use, and its bit not left over from an earlier exchange. */
  predicate Admissible(p: Pool, i: nat)
    requires |p.segments| == 64 * |p.bitmap| && i < |p.segments|
  {
    !p.segments[i].inUse && !Marked(p.bitmap, i)
  }

  function Loaded(s: Segment, chunkId: u32, data: seq<byte>): Segment
    requires |s.data| == SEGMENT_SIZE && |data| <= SEGMENT_SIZE
  {
    Segment(data + s.data[|data|..], chunkId, true)
  }

  function Reserved(p: Pool, i: nat, chunkId: u32, data: seq<byte>): Pool
    requires |p.segments| == 64 * |p.bitmap| && i < |p.segments|
    requires |p.segments[i].data| == SEGMENT_SIZE && |data| <= SEGMENT_SIZE
  {
    Pool(p.segments[i := Loaded(p.segments[i], chunkId, data)], p.bitmap[i / 64 := Mask(i % 64)])
  }

  /** An identifier beyond the pool is ignored. */
  function Released(p: Pool, i: nat): Pool
    requires |p.segments| == 64 * |p.bitmap|
  {
    if i >= |p.segments| then p
    else Pool(p.segments[i := p.segments[i].(inUse := false)], p.bitmap[i / 64 := Mask(i % 64)])
  }

  /** The segment a reserve takes: the first admissible one from `i` on. */
  function FirstAdmissible(p: Pool, i: nat): Option<nat>
    requires |p.segments| == 64 * |p.bitmap| && i <= |p.segments|
    decreases |p.segments| - i
  {
    if i == |p.segments| then None
    else if Admissible(p, i) then Some(i)
    else FirstAdmissible(p, i + 1)
  }

  lemma {:induction false} FirstIsFirst(p: Pool, i: nat)
    requires |p.segments| == 64 * |p.bitmap| && i <= |p.segments|
    ensures match FirstAdmissible(p, i)
      case None => forall j :: i <= j < |p.segments| ==> !Admissible(p, j)
      case Some(k) => i <= k < |p.segments| && Admissible(p, k) && forall j :: i <= j < k ==> !Admissible(p, j)
    decreases |p.segments| - i
  {
    if i < |p.segments| && !Admissible(p, i) {
      FirstIsFirst(p, i + 1);
    }
  }

  lemma ReservedIsWellFormed(p: Pool, i: nat, chunkId: u32, data: seq<byte>)
    requires WellFormed(p) && i < |p.segments| && |data| <= SEGMENT_SIZE
    ensures WellFormed(Reserved(p, i, chunkId, data))
  {
    assert AtMostOneBit(Mask(i % 64));
  }

  lemma ReleasedIsWellFormed(p: Pool, i: nat)
    requires WellFormed(p)
    ensures WellFormed(Released(p, i))
  {
    assert AtMostOneBit(Mask(i % 64));
  }

  class SegmentPool {
    const segments: array<Segment>
    const bitmap: array<bv64>

    function Value(): Pool
      reads segments, bitmap
    {
      Pool(segments[..], bitmap[..])
    }

    constructor (words: nat, bytes: seq<byte>)
      requires |bytes| == SEGMENT_SIZE
      ensures fresh(segments) && fresh(bitmap) && WellFormed(Value())
      ensures bitmap.Length == words
      ensures forall i :: 0 <= i < 64 * words ==> segments[i] == Segment(bytes, 0, false) && |segments[i].data| == 65536
      ensures forall k :: 0 <= k < words ==> bitmap[k] == 0
    {
      bitmap := new bv64[words](i => 0);
      segments := new Segment[64 * words](i => Segment(bytes, 0, false));
    }

    /** The atomic exchange of bitmap word `k`. */
    method Exchange(k: nat, mask: bv64) returns (word: bv64)
      requires k < bitmap.Length
      modifies bitmap
      ensures word == old(bitmap[k]) && bitmap[..] == old(bitmap[..])[k := mask]
    {
      word := bitmap[k];
      bitmap[k] := mask;
    }

    /** One candidate of the scan: exchanges its word with its bit and keeps the segment if the bit was clear.
        When it was set the word already was that bit alone, so the exchange changed nothing. */
    method TryTake(i: nat, chunkId: u32, data: seq<byte>) returns (ok: bool)
      requires WellFormed(Value()) && |data| <= SEGMENT_SIZE
      requires i < segments.Length && !segments[i].inUse
      modifies segments, bitmap
      ensures ok <==> old(bitmap[i / 64]) != Mask(i % 64)
      ensures ok <==> Admissible(old(Value()), i)
      ensures Value() == if ok then Reserved(old(Value()), i, chunkId, data) else old(Value())
    {
      ghost var was := Value();
      MarkedMeansMask(was, i);
      var word := Exchange(i / 64, Mask(i % 64));
      ok := !IsSet(word, i % 64);
      if ok {
        segments[i] := Loaded(segments[i], chunkId, data);
      } else {
        assert bitmap[..] == was.bitmap;
      }
    }

    /** Takes the first admissible segment, or nothing at all. */
    method Reserve(chunkId: u32, data: seq<byte>) returns (id: Option<nat>)
      requires WellFormed(Value()) && |data| <= SEGMENT_SIZE
      modifies segments, bitmap
      ensures WellFormed(Value()) && id == FirstAdmissible(old(Value()), 0)
      ensures id.None? ==>
        Value() == old(Value()) && forall i :: 0 <= i < segments.Length ==> !Admissible(old(Value()), i)
      ensures id.Some? ==>
        && id.value < segments.Length && Admissible(old(Value()), id.value)
        && (forall i :: 0 <= i < id.value ==> !Admissible(old(Value()), i))
        && Value() == Reserved(old(Value()), id.value, chunkId, data)
        && segments[..] == old(segments[..])[id.value :=
             Segment(data + old(segments[..])[id.value].data[|data|..], chunkId, true)]
        && bitmap[..] == old(bitmap[..])[id.value / 64 := Mask(id.value % 64)]
    {
      ghost var was := Value();
      var i := 0;
      while i < segments.Length
        invariant 0 <= i <= segments.Length
        invariant Value() == was
        invariant forall j :: 0 <= j < i ==> !Admissible(was, j)
      {
        if !segments[i].inUse {
          var ok := TryTake(i, chunkId, data);
          if ok {
            ReservedIsWellFormed(was, i, chunkId, data);
            FirstIsFirst(was, 0);
            return Some(i);
          }
        } else {
          assert was.segments[i].inUse;
        }
        i := i + 1;
      }
      FirstIsFirst(was, 0);
      id := None;
    }

    method Release(id: u32)
      requires WellFormed(Value())
      modifies segments, bitmap
      ensures WellFormed(Value()) && Value() == Released(old(Value()), id)
      ensures id >= segments.Length ==> segments[..] == old(segments[..]) && bitmap[..] == old(bitmap[..])
      ensures id < segments.Length ==>
        && segments[..] == old(segments[..])[id := old(segments[id]).(inUse := false)]
        && bitmap[..] == old(bitmap[..])[id / 64 := Mask(id % 64)]
    {
      ReleasedIsWellFormed(Value(), id);
      if id >= segments.Length {
        return;
      }
      segments[id] := segments[id].(inUse := false);
      bitmap[id / 64] := Mask(id % 64);
    }
  }

  // ----- Any sequence of sequential calls -----

  datatype Call = Reserve(chunkId: u32, data: seq<byte>) | Release(id: nat)

  /** The pool together with the handles its callers hold, oldest first. */
  datatype Session = Session(pool: Pool, handles: seq<nat>)

  function Dropped(handles: seq<nat>, id: nat): seq<nat> {
    if handles == [] then []
    else if handles[0] == id then Dropped(handles[1..], id)
    else [handles[0]] + Dropped(handles[1..], id)
  }

  predicate Fits(c: Call) {
    c.Reserve? ==> |c.data| <= SEGMENT_SIZE
  }

  /** One call; a failed reserve hands out nothing. */
  function Called(s: Session, c: Call): Session
    requires Fits(c) && |s.pool.segments| == 64 * |s.pool.bitmap|
    requires forall i :: 0 <= i < |s.pool.segments| ==> |s.pool.segments[i].data| == SEGMENT_SIZE
  {
    match c
    case Reserve(chunkId, data) => (
      match FirstAdmissible(s.pool, 0)
      case None => s
      case Some(i) =>
        if i < |s.pool.segments| then Session(Reserved(s.pool, i, chunkId, data), s.handles + [i]) else s
      )
    case Release(id) => Session(Released(s.pool, id), Dropped(s.handles, id))
  }

  predicate Distinct(handles: seq<nat>) {
    forall i, j :: 0 <= i < j < |handles| ==> handles[i] != handles[j]
  }

  /** The handles out there are exactly the segments in use, and no two of them are the same. */
  ghost predicate Consistent(s: Session) {
    && WellFormed(s.pool) && Distinct(s.handles)
    && (forall i :: i in s.handles <==> 0 <= i < |s.pool.segments| && s.pool.segments[i].inUse)
  }

  lemma {:induction false} DroppedKeepsOthers(handles: seq<nat>, id: nat)
    ensures forall i :: i in Dropped(handles, id) <==> i in handles && i != id
    ensures Distinct(handles) ==> Distinct(Dropped(handles, id))
  {
    if handles != [] {
      var rest := handles[1..];
      DroppedKeepsOthers(rest, id);
      assert handles == [handles[0]] + rest;
      assert Distinct(handles) ==> Distinct(rest) && handles[0] !in rest;
    }
  }

  lemma CallKeepsConsistent(s: Session, c: Call)
    requires Consistent(s) && Fits(c)
    ensures Consistent(Called(s, c))
  {
    match c {
      case Reserve(chunkId, data) =>
        FirstIsFirst(s.pool, 0);
        var first := FirstAdmissible(s.pool, 0);
        if first.Some? {
          ReservedIsWellFormed(s.pool, first.value, chunkId, data);
        }
      case Release(id) =>
        ReleasedIsWellFormed(s.pool, id);
        DroppedKeepsOthers(s.handles, id);
    }
  }

  /** A sequence of calls from a consistent pool. */
  function AllCalled(s: Session, calls: seq<Call>): (e: Session)
    requires Consistent(s) && forall i :: 0 <= i < |calls| ==> Fits(calls[i])
    ensures Consistent(e) && |e.pool.segments| == |s.pool.segments|
    decreases |calls|
  {
    if calls == [] then s
    else
      CallKeepsConsistent(s, calls[0]);
      AllCalled(Called(s, calls[0]), calls[1..])
  }

  function FreshPool(words: nat, bytes: seq<byte>): Pool {
    Pool(seq(64 * words, i => Segment(bytes, 0, false)), seq(words, i => 0))
  }

  /** Over any sequence of calls: every word has at most one bit, the handles out are pairwise distinct and
      are exactly the segments in use. */
  lemma EverySessionIsConsistent(words: nat, bytes: seq<byte>, calls: seq<Call>)
    requires |bytes| == SEGMENT_SIZE && forall i :: 0 <= i < |calls| ==> Fits(calls[i])
    ensures Consistent(Session(FreshPool(words, bytes), []))
    ensures var e := AllCalled(Session(FreshPool(words, bytes), []), calls);
      && (forall k :: 0 <= k < words ==> AtMostOneBit(e.pool.bitmap[k]))
      && Distinct(e.handles)
      && (forall i :: i in e.handles <==> 0 <= i < 64 * words && e.pool.segments[i].inUse)
  {
    var s := Session(FreshPool(words, bytes), []);
    assert Consistent(s);
    assert |AllCalled(s, calls).pool.segments| == 64 * words;
  }

  /** The word holds exactly the bit of segment `i`. */
  predicate Barred(p: Pool, i: nat)
    requires |p.segments| == 64 * |p.bitmap| && i < |p.segments|
  {
    p.bitmap[i / 64] == Mask(i % 64)
  }

  /** A reserve takes the first segment that is neither in use nor marked in its word, writes its bytes over the front
      of that segment, and makes its bit the whole word; nothing else changes. A failed one changes nothing. */
  lemma ReserveTakesOne(s: Session, chunkId: u32, data: seq<byte>)
    requires Consistent(s) && |data| <= SEGMENT_SIZE
    ensures var s' := Called(s, Reserve(chunkId, data));
      match FirstAdmissible(s.pool, 0)
      case None =>
        && s' == s
        && (forall j :: 0 <= j < |s.pool.segments| ==>
              s.pool.segments[j].inUse || s.pool.bitmap[j / 64] == Mask(j % 64))
      case Some(i) =>
        && i < |s.pool.segments| && i !in s.handles && s'.handles == s.handles + [i]
        && s.pool.bitmap[i / 64] != Mask(i % 64)
        && (forall j :: 0 <= j < i ==> s.pool.segments[j].inUse || s.pool.bitmap[j / 64] == Mask(j % 64))
        && s'.pool.segments[i] == Segment(data + s.pool.segments[i].data[|data|..], chunkId, true)
        && (forall j :: 0 <= j < |s.pool.segments| && j != i ==> s'.pool.segments[j] == s.pool.segments[j])
        && s'.pool.bitmap[i / 64] == Mask(i % 64)
        && (forall k :: 0 <= k < |s.pool.bitmap| && k != i / 64 ==> s'.pool.bitmap[k] == s.pool.bitmap[k])
  {
    FirstIsFirst(s.pool, 0);
    forall j | 0 <= j < |s.pool.segments|
      ensures Admissible(s.pool, j) <==> !s.pool.segments[j].inUse && !Barred(s.pool, j)
    {
      MarkedMeansMask(s.pool, j);
    }
  }

  /** A release clears the flag of its segment and makes its bit the whole word, whatever bit was there; the bytes and
      everything else stay. An identifier beyond the pool changes nothing. */
  lemma ReleaseTakesOne(s: Session, id: nat)
    requires Consistent(s)
    ensures var s' := Called(s, Release(id));
      && (id >= |s.pool.segments| ==> s'.pool == s.pool)
      && (id < |s.pool.segments| ==>
            && s'.pool.segments[id] == s.pool.segments[id].(inUse := false)
            && s'.pool.bitmap[id / 64] == Mask(id % 64))
      && (forall j :: 0 <= j < |s.pool.segments| && j != id ==> s'.pool.segments[j] == s.pool.segments[j])
      && (forall k :: 0 <= k < |s.pool.bitmap| && k != id / 64 ==> s'.pool.bitmap[k] == s.pool.bitmap[k])
      && |s'.pool.bitmap| == |s.pool.bitmap|
      && (forall i :: i in s'.handles <==> i in s.handles && i != id)
  {
    DroppedKeepsOthers(s.handles, id);
  }

  /** A reserve fails exactly when the word of every free segment holds just that segment's bit. */
  lemma FailsExactlyWhenBarred(p: Pool)
    requires WellFormed(p)
    ensures FirstAdmissible(p, 0).None? <==>
      forall i :: 0 <= i < |p.segments| && !p.segments[i].inUse ==> Barred(p, i)
  {
    FirstIsFirst(p, 0);
    forall i | 0 <= i < |p.segments| ensures Marked(p.bitmap, i) <==> Barred(p, i) {
      MarkedMeansMask(p, i);
    }
    if FirstAdmissible(p, 0).None? {
      forall i | 0 <= i < |p.segments| && !p.segments[i].inUse ensures Barred(p, i) {
        assert !Admissible(p, i);
      }
    }
  }

  /** So a failed reserve means at most one free segment in each word. */
  lemma FailureMeansNearlyFull(p: Pool, i: nat, j: nat)
    requires WellFormed(p) && FirstAdmissible(p, 0).None?
    requires i < |p.segments| && j < |p.segments| && i / 64 == j / 64
    requires !p.segments[i].inUse && !p.segments[j].inUse
    ensures i == j
  {
    FailsExactlyWhenBarred(p);
    assert Barred(p, i) && Barred(p, j);
    MaskedBits(i % 64, j % 64);
    MaskedBits(j % 64, j % 64);
  }

  /** It does not mean none: with every segment in use, releasing any one of them and asking again fails. */
  lemma ReleasedSegmentIsBarred(s: Session, id: nat, chunkId: u32, data: seq<byte>)
    requires Consistent(s) && |data| <= SEGMENT_SIZE && id < |s.pool.segments|
    requires forall i :: 0 <= i < |s.pool.segments| ==> s.pool.segments[i].inUse
    ensures var s' := Called(s, Release(id));
      !s'.pool.segments[id].inUse && id !in s'.handles && Consistent(s') && Called(s', Reserve(chunkId, data)) == s'
  {
    CallKeepsConsistent(s, Release(id));
    var s' := Called(s, Release(id));
    FailsExactlyWhenBarred(s'.pool);
    assert Barred(s'.pool, id);
  }
}
