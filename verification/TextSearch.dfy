/** Text search over loaded entries: the matches, their snippets, pages and room filter. Letter case is that of
    ASCII; on ASCII text this is what `strings.ToLower` does. */
module TextSearch {
  import opened Base
  import opened Chunk

  // ----- Text -----

  function AsciiLowerByte(b: byte): byte {
    if 65 <= b <= 90 then b + 32 else b
  }

  function AsciiLower(text: seq<byte>): (lower: seq<byte>)
    ensures |lower| == |text|
    ensures forall i :: 0 <= i < |text| ==> lower[i] == AsciiLowerByte(text[i])
  {
    seq(|text|, i requires 0 <= i < |text| => AsciiLowerByte(text[i]))
  }

  predicate Ascii(text: seq<byte>) {
    forall i :: 0 <= i < |text| ==> text[i] < 128
  }

  lemma AsciiIsSevenBits(text: seq<byte>)
    ensures Ascii(text) <==> forall b :: b in text ==> b <= 0x7F
  {
    forall i | 0 <= i < |text| ensures text[i] in text {
    }
  }

  // ----- Letter case -----

  /** The same byte, or the two cases of one ASCII letter. */
  predicate SameLetter(a: byte, b: byte) {
    a == b || (65 <= a <= 90 && b == a + 32) || (65 <= b <= 90 && a == b + 32)
  }

  lemma Alphabet(k: nat)
    requires k < 26
    ensures "ABCDEFGHIJKLMNOPQRSTUVWXYZ"[k] as int == 65 + k && "abcdefghijklmnopqrstuvwxyz"[k] as int == 97 + k
  {
  }

  /** They are the letters of the alphabet, large and small. */
  lemma SameLetterMeans(a: byte, b: byte)
    ensures SameLetter(a, b) <==>
      || a == b
      || exists k :: 0 <= k < 26
           && var large, small := "ABCDEFGHIJKLMNOPQRSTUVWXYZ"[k] as int, "abcdefghijklmnopqrstuvwxyz"[k] as int;
             (a == large && b == small) || (a == small && b == large)
  {
    forall k: nat | k < 26
      ensures "ABCDEFGHIJKLMNOPQRSTUVWXYZ"[k] as int == 65 + k && "abcdefghijklmnopqrstuvwxyz"[k] as int == 97 + k
    {
      Alphabet(k);
    }
    if SameLetter(a, b) && a != b {
      var k := if a < b then a - 65 else b - 65;
      assert 0 <= k < 26 && "ABCDEFGHIJKLMNOPQRSTUVWXYZ"[k] as int == 65 + k;
    }
  }

  /** The stretch of the text at `i` is the query, byte by byte, letter case aside. */
  predicate AgreesAt(text: seq<byte>, query: seq<byte>, i: nat) {
    i + |query| <= |text| && forall k :: 0 <= k < |query| ==> SameLetter(text[i + k], query[k])
  }

  /** Whatever stands around the stretch. */
  lemma StretchAgrees(front: seq<byte>, stretch: seq<byte>, back: seq<byte>, query: seq<byte>)
    requires |stretch| == |query|
    ensures AgreesAt(front + stretch + back, query, |front|) <==>
      forall k :: 0 <= k < |query| ==> SameLetter(stretch[k], query[k])
  {
    var text := front + stretch + back;
    assert forall k :: 0 <= k < |query| ==> text[|front| + k] == stretch[k];
    if AgreesAt(text, query, |front|) {
      forall k | 0 <= k < |query| ensures SameLetter(stretch[k], query[k]) {
        assert SameLetter(text[|front| + k], query[k]);
      }
    }
  }

  lemma LoweredAlike(a: byte, b: byte)
    ensures AsciiLowerByte(a) == AsciiLowerByte(b) <==> SameLetter(a, b)
  {
  }

  predicate OccursAt(text: seq<byte>, pattern: seq<byte>, i: nat) {
    i + |pattern| <= |text| && text[i..i + |pattern|] == pattern
  }

  /** The first occurrence at or after `from`. */
  function FirstFrom(text: seq<byte>, pattern: seq<byte>, from: nat): (at: Option<nat>)
    requires from <= |text|
    ensures at.Some? ==> from <= at.value && OccursAt(text, pattern, at.value)
    ensures forall i :: from <= i < (if at.Some? then at.value else |text| + 1) ==> !OccursAt(text, pattern, i)
    decreases |text| - from
  {
    if from + |pattern| > |text| then None
    else if OccursAt(text, pattern, from) then Some(from)
    else FirstFrom(text, pattern, from + 1)
  }

  /** Lower-casing both sides finds the query exactly where it stands, letter case aside. */
  lemma AgreesExactlyWhen(text: seq<byte>, query: seq<byte>, i: nat)
    ensures OccursAt(AsciiLower(text), AsciiLower(query), i) <==> AgreesAt(text, query, i)
  {
    if i + |query| <= |text| {
      var stretch := AsciiLower(text)[i..i + |query|];
      forall k | 0 <= k < |query| ensures stretch[k] == AsciiLower(query)[k] <==> SameLetter(text[i + k], query[k]) {
        LoweredAlike(text[i + k], query[k]);
      }
    }
  }

  function FirstIndex(text: seq<byte>, pattern: seq<byte>): Option<nat> {
    FirstFrom(text, pattern, 0)
  }

  // ----- Snippets -----

  function Dots(): (dots: seq<byte>)
    ensures |dots| == 3 && forall i :: 0 <= i < 3 ==> dots[i] == '.' as int
  {
    [0x2E, 0x2E, 0x2E]
  }

  /** The text around a match of `length` bytes at `index`, with dots where it was cut. */
  function Around(data: seq<byte>, index: nat, length: nat, context: nat): seq<byte>
    requires index + length <= |data|
  {
    var start := if index < context then 0 else index - context;
    var end := Min(index + length + context, |data|);
    (if start > 0 then Dots() else []) + data[start..end] + if end < |data| then Dots() else []
  }

  /** `createSnippet` */
  function Snippet(data: seq<byte>, query: seq<byte>, context: nat): seq<byte> {
    match FirstIndex(AsciiLower(data), AsciiLower(query))
    case None => data
    case Some(index) => Around(data, index, |query|, context)
  }

  lemma Middle(front: seq<byte>, middle: seq<byte>, back: seq<byte>, i: nat, j: nat)
    requires i <= j <= |middle|
    ensures (front + middle + back)[|front| + i..|front| + j] == middle[i..j]
  {
  }

  lemma SliceOfSlice(data: seq<byte>, start: nat, end: nat, i: nat, j: nat)
    requires start <= i <= j <= end <= |data|
    ensures data[start..end][i - start..j - start] == data[i..j]
  {
    var window := data[start..end];
    forall k | 0 <= k < j - i
      ensures window[i - start..j - start][k] == data[i..j][k]
    {
      assert window[i - start + k] == data[i + k];
    }
  }

  lemma SliceInside(front: seq<byte>, data: seq<byte>, back: seq<byte>, start: nat, end: nat, i: nat, j: nat)
    requires start <= i <= j <= end <= |data|
    ensures var at := |front| + (i - start);
      && at + (j - i) <= |front + data[start..end] + back|
      && (front + data[start..end] + back)[at..at + (j - i)] == data[i..j]
  {
    Middle(front, data[start..end], back, i - start, j - start);
    SliceOfSlice(data, start, end, i, j);
  }

  lemma AsciiLowerSlice(text: seq<byte>, i: nat, j: nat)
    requires i <= j <= |text|
    ensures AsciiLower(text[i..j]) == AsciiLower(text)[i..j]
  {
  }

  /** The search finds an occurrence whenever there is one, and then the first. */
  lemma FirstIndexIs(text: seq<byte>, pattern: seq<byte>)
    ensures FirstIndex(text, pattern).Some? <==> exists i: nat :: OccursAt(text, pattern, i)
    ensures var f, n := FirstIndex(text, pattern), |pattern|;
      f.Some? ==>
        && f.value + n <= |text| && text[f.value..f.value + n] == pattern
        && forall i: nat :: i < f.value ==> !OccursAt(text, pattern, i)
  {
    var f := FirstIndex(text, pattern);
    if f.None? {
      forall i: nat
        ensures !OccursAt(text, pattern, i)
      {
        if i > |text| {
          assert i + |pattern| > |text|;
        }
      }
    }
  }

  lemma AroundHolds(data: seq<byte>, index: nat, length: nat, context: nat) returns (at: nat)
    requires index + length <= |data|
    ensures var s := Around(data, index, length, context);
      at + length <= |s| <= length + 2 * context + 6 && s[at..at + length] == data[index..index + length]
  {
    var start := if index < context then 0 else index - context;
    var end := Min(index + length + context, |data|);
    var front: seq<byte> := if start > 0 then Dots() else [];
    var back: seq<byte> := if end < |data| then Dots() else [];
    at := |front| + (index - start);
    SliceInside(front, data, back, start, end, index, index + length);
  }

  lemma SnippetIs(data: seq<byte>, query: seq<byte>, context: nat, index: nat)
    requires FirstIndex(AsciiLower(data), AsciiLower(query)) == Some(index) && index + |query| <= |data|
    ensures Snippet(data, query, context) == Around(data, index, |query|, context)
  {
  }

  /** The first stretch that is the query, letter case aside. */
  ghost predicate FirstAgrees(text: seq<byte>, query: seq<byte>, index: nat) {
    AgreesAt(text, query, index) && forall i: nat :: i < index ==> !AgreesAt(text, query, i)
  }

  lemma FirstIndexAgrees(text: seq<byte>, query: seq<byte>)
    ensures FirstIndex(AsciiLower(text), AsciiLower(query)).Some? <==> exists i: nat :: AgreesAt(text, query, i)
    ensures forall index: nat ::
      FirstIndex(AsciiLower(text), AsciiLower(query)) == Some(index) <==> FirstAgrees(text, query, index)
  {
    FirstIndexIs(AsciiLower(text), AsciiLower(query));
    forall i: nat ensures OccursAt(AsciiLower(text), AsciiLower(query), i) <==> AgreesAt(text, query, i) {
      AgreesExactlyWhen(text, query, i);
    }
  }

  lemma SnippetShowsMatch(data: seq<byte>, query: seq<byte>, context: nat, index: nat) returns (at: nat)
    requires FirstIndex(AsciiLower(data), AsciiLower(query)) == Some(index) && index + |query| <= |data|
    ensures var s := Snippet(data, query, context);
      at + |query| <= |s| <= |query| + 2 * context + 6 && s[at..at + |query|] == data[index..index + |query|]
  {
    SnippetIs(data, query, context, index);
    at := AroundHolds(data, index, |query|, context);
  }

  lemma SameStretch(text: seq<byte>, i: nat, other: seq<byte>, j: nat, query: seq<byte>)
    requires AgreesAt(text, query, i) && j + |query| <= |other| && other[j..j + |query|] == text[i..i + |query|]
    ensures AgreesAt(other, query, j)
  {
    forall k | 0 <= k < |query| ensures SameLetter(other[j + k], query[k]) {
      assert other[j + k] == other[j..j + |query|][k] == text[i..i + |query|][k] == text[i + k];
    }
  }

  /** A snippet of matching text holds the whole first match, as it stands there, and is not much longer. */
  lemma SnippetHoldsFirstMatch(data: seq<byte>, query: seq<byte>, context: nat) returns (index: nat, at: nat)
    requires exists i: nat :: AgreesAt(data, query, i)
    ensures AgreesAt(data, query, index) && forall i: nat :: i < index ==> !AgreesAt(data, query, i)
    ensures var s := Snippet(data, query, context);
      && at + |query| <= |s| <= |query| + 2 * context + 6
      && s[at..at + |query|] == data[index..index + |query|] && AgreesAt(s, query, at)
  {
    FirstIndexAgrees(data, query);
    index := FirstIndex(AsciiLower(data), AsciiLower(query)).value;
    assert FirstAgrees(data, query, index);
    at := SnippetShowsMatch(data, query, context, index);
    SameStretch(data, index, Snippet(data, query, context), at, query);
  }

  lemma AroundIs(data: seq<byte>, index: nat, length: nat, context: nat, start: nat, end: nat)
    requires index + length <= |data|
    requires if index <= context then start == 0 else start == index - context
    requires if |data| <= index + length + context then end == |data| else end == index + length + context
    ensures Around(data, index, length, context)
         == (if start > 0 then [46, 46, 46] else []) + data[start..end] + if end < |data| then [46, 46, 46] else []
  {
    assert Dots() == [46, 46, 46];
  }

  /** What a snippet shows around the first match: `context` bytes to either side, or all there are, and three dots
      exactly where text was left out. */
  lemma SnippetShowsContext(data: seq<byte>, query: seq<byte>, context: nat, index: nat) returns (start: nat, end: nat)
    requires AgreesAt(data, query, index) && forall i: nat :: i < index ==> !AgreesAt(data, query, i)
    ensures start <= index && index + |query| <= end <= |data|
    ensures if index <= context then start == 0 else start == index - context
    ensures if |data| <= index + |query| + context then end == |data| else end == index + |query| + context
    ensures Snippet(data, query, context)
         == (if start > 0 then [46, 46, 46] else []) + data[start..end] + if end < |data| then [46, 46, 46] else []
  {
    FirstIndexAgrees(data, query);
    assert FirstAgrees(data, query, index);
    SnippetIs(data, query, context, index);
    start := if index <= context then 0 else index - context;
    end := if |data| <= index + |query| + context then |data| else index + |query| + context;
    AroundIs(data, index, |query|, context, start, end);
  }

  /** Text that does not match is its own snippet. */
  lemma SnippetWithoutMatch(data: seq<byte>, query: seq<byte>, context: nat)
    requires forall i: nat :: !AgreesAt(data, query, i)
    ensures Snippet(data, query, context) == data
  {
    FirstIndexAgrees(data, query);
  }

  // ----- Matches -----

  datatype SearchResult = SearchResult(chunk: string, offset: nat, roomId: u32, timestamp: i64, snippet: seq<byte>)

  const CONTEXT := 50

  /** Query and payloads are ASCII text. */
  predicate AllAscii(es: seq<MessageEntryData>, query: seq<byte>): (r: bool)
    ensures r <==> Ascii(query) && forall d :: d in es ==> Ascii(d.data)
  {
    Ascii(query) && forall i :: 0 <= i < |es| ==> Ascii(es[i].data)
  }

  predicate Matches(d: MessageEntryData, query: seq<byte>) {
    d.dataLen > 0 && d.data != [] && FirstIndex(AsciiLower(d.data), AsciiLower(query)).Some?
  }

  function ResultFor(i: nat, d: MessageEntryData, query: seq<byte>): SearchResult {
    SearchResult("", i, d.roomId, d.timestamp, Snippet(d.data, query, CONTEXT))
  }

  function Hits(es: seq<MessageEntryData>, query: seq<byte>): seq<SearchResult>
    decreases |es|
  {
    if es == [] then []
    else
      var n := |es| - 1;
      Hits(es[..n], query) + if Matches(es[n], query) then [ResultFor(n, es[n], query)] else []
  }

  function HitsInRoom(es: seq<MessageEntryData>, query: seq<byte>, room: u32): seq<SearchResult>
    decreases |es|
  {
    if es == [] then []
    else
      var n := |es| - 1;
      HitsInRoom(es[..n], query, room)
      + if es[n].roomId == room && Matches(es[n], query) then [ResultFor(n, es[n], query)] else []
  }

  ghost predicate Increasing(hits: seq<SearchResult>) {
    forall j, k :: 0 <= j < k < |hits| ==> hits[j].offset < hits[k].offset
  }

  /** A query matches an entry exactly when the entry is not empty and some stretch of its text is the query, byte by
      byte, letter case aside. */
  lemma MatchesExactlyWhen(d: MessageEntryData, query: seq<byte>)
    ensures Matches(d, query) <==> d.dataLen > 0 && d.data != [] && exists i: nat :: AgreesAt(d.data, query, i)
  {
    FirstIndexAgrees(d.data, query);
  }

  ghost predicate IsHit(es: seq<MessageEntryData>, query: seq<byte>, h: SearchResult) {
    h.offset < |es| && Matches(es[h.offset], query) && h == ResultFor(h.offset, es[h.offset], query)
  }

  lemma InSnoc<T>(s: seq<T>, x: T, y: T)
    ensures y in s + [x] <==> y in s || y == x
  {
  }

  lemma HitsSnoc(es: seq<MessageEntryData>, query: seq<byte>, h: SearchResult)
    requires es != []
    ensures var n := |es| - 1;
      h in Hits(es, query) <==> h in Hits(es[..n], query) || (Matches(es[n], query) && h == ResultFor(n, es[n], query))
  {
    var n := |es| - 1;
    var before := Hits(es[..n], query);
    if Matches(es[n], query) {
      InSnoc(before, ResultFor(n, es[n], query), h);
    } else {
      assert Hits(es, query) == before + [] == before;
    }
  }

  lemma {:induction false} HitsMatch(es: seq<MessageEntryData>, query: seq<byte>, h: SearchResult)
    ensures h in Hits(es, query) <==> IsHit(es, query, h)
    decreases |es|
  {
    if es != [] {
      var n := |es| - 1;
      HitsMatch(es[..n], query, h);
      HitsSnoc(es, query, h);
      if h.offset < n {
        assert es[..n][h.offset] == es[h.offset];
      }
    }
  }

  lemma IncreasingSnoc(hits: seq<SearchResult>, h: SearchResult)
    requires Increasing(hits) && forall k :: 0 <= k < |hits| ==> hits[k].offset < h.offset
    ensures Increasing(hits + [h])
  {
  }

  lemma {:induction false} HitsIncrease(es: seq<MessageEntryData>, query: seq<byte>)
    ensures Increasing(Hits(es, query))
    ensures forall k :: 0 <= k < |Hits(es, query)| ==> Hits(es, query)[k].offset < |es|
    decreases |es|
  {
    if es != [] {
      var n := |es| - 1;
      var before := Hits(es[..n], query);
      HitsIncrease(es[..n], query);
      if Matches(es[n], query) {
        IncreasingSnoc(before, ResultFor(n, es[n], query));
      } else {
        assert Hits(es, query) == before;
      }
    }
  }

  lemma HitFor(es: seq<MessageEntryData>, query: seq<byte>, hits: seq<SearchResult>, i: nat)
    requires i < |es| && hits == Hits(es, query)
    ensures (exists k :: 0 <= k < |hits| && hits[k].offset == i) <==> Matches(es[i], query)
  {
    if Matches(es[i], query) {
      var h := ResultFor(i, es[i], query);
      HitsMatch(es, query, h);
      var k :| 0 <= k < |hits| && hits[k] == h;
      assert hits[k].offset == i;
    }
    forall k | 0 <= k < |hits| && hits[k].offset == i ensures Matches(es[i], query) {
      HitsMatch(es, query, hits[k]);
      assert hits[k] in hits;
    }
  }

  lemma EntryIsHit(es: seq<MessageEntryData>, query: seq<byte>, hits: seq<SearchResult>, i: nat)
    requires i < |es| && hits == Hits(es, query)
    ensures (exists k :: 0 <= k < |hits| && hits[k].offset == i) <==>
      es[i].dataLen > 0 && es[i].data != [] && exists j: nat :: AgreesAt(es[i].data, query, j)
  {
    HitFor(es, query, hits, i);
    MatchesExactlyWhen(es[i], query);
  }

  /** The hits are the matching entries, each once, in their order, each with its own room, time and snippet. */
  lemma HitsAreTheMatches(es: seq<MessageEntryData>, query: seq<byte>)
    ensures var hits := Hits(es, query);
      && (forall j, k :: 0 <= j < k < |hits| ==> hits[j].offset < hits[k].offset)
      && (forall i :: 0 <= i < |es| ==>
            ((exists k :: 0 <= k < |hits| && hits[k].offset == i) <==>
               es[i].dataLen > 0 && es[i].data != [] && exists j: nat :: AgreesAt(es[i].data, query, j)))
      && (forall k :: 0 <= k < |hits| ==> hits[k].offset < |es|)
      && (forall k :: 0 <= k < |hits| ==>
            var d := es[hits[k].offset];
            && hits[k].chunk == "" && hits[k].roomId == d.roomId && hits[k].timestamp == d.timestamp
            && hits[k].snippet == Snippet(d.data, query, 50))
  {
    var hits := Hits(es, query);
    HitsIncrease(es, query);
    forall i | 0 <= i < |es|
      ensures (exists k :: 0 <= k < |hits| && hits[k].offset == i) <==>
        es[i].dataLen > 0 && es[i].data != [] && exists j: nat :: AgreesAt(es[i].data, query, j)
    {
      EntryIsHit(es, query, hits, i);
    }
    forall k | 0 <= k < |hits| ensures IsHit(es, query, hits[k]) {
      HitsMatch(es, query, hits[k]);
      assert hits[k] in hits;
    }
  }

  function InRoom(hits: seq<SearchResult>, room: u32): seq<SearchResult>
    decreases |hits|
  {
    if hits == [] then []
    else
      var n := |hits| - 1;
      InRoom(hits[..n], room) + if hits[n].roomId == room then [hits[n]] else []
  }

  lemma InRoomSnoc(hits: seq<SearchResult>, h: SearchResult, room: u32)
    ensures InRoom(hits + [h], room) == InRoom(hits, room) + if h.roomId == room then [h] else []
  {
    assert (hits + [h])[..|hits|] == hits;
  }

  lemma {:induction false} RoomHitsAreFiltered(es: seq<MessageEntryData>, query: seq<byte>, room: u32)
    ensures HitsInRoom(es, query, room) == InRoom(Hits(es, query), room)
    decreases |es|
  {
    if es != [] {
      var n := |es| - 1;
      RoomHitsAreFiltered(es[..n], query, room);
      if Matches(es[n], query) {
        InRoomSnoc(Hits(es[..n], query), ResultFor(n, es[n], query), room);
      } else {
        assert Hits(es, query) == Hits(es[..n], query);
        assert HitsInRoom(es, query, room) == HitsInRoom(es[..n], query, room);
      }
    }
  }

  lemma {:induction false} InRoomIs(hits: seq<SearchResult>, room: u32, h: SearchResult)
    ensures h in InRoom(hits, room) <==> h in hits && h.roomId == room
    decreases |hits|
  {
    if hits != [] {
      var n := |hits| - 1;
      InRoomIs(hits[..n], room, h);
      assert hits == hits[..n] + [hits[n]];
      InRoomSnoc(hits[..n], hits[n], room);
    }
  }

  lemma {:induction false} InRoomIncreases(hits: seq<SearchResult>, room: u32, bound: nat)
    requires Increasing(hits) && forall k :: 0 <= k < |hits| ==> hits[k].offset < bound
    ensures Increasing(InRoom(hits, room))
    ensures forall k :: 0 <= k < |InRoom(hits, room)| ==> InRoom(hits, room)[k].offset < bound
    decreases |hits|
  {
    if hits != [] {
      var n := |hits| - 1;
      InRoomIncreases(hits[..n], room, hits[n].offset);
    }
  }

  /** Searching in a room is searching everywhere and keeping that room's results, in their order. */
  lemma RoomSearchIsFilter(es: seq<MessageEntryData>, query: seq<byte>, room: u32)
    ensures forall h :: h in HitsInRoom(es, query, room) <==> h in Hits(es, query) && h.roomId == room
    ensures var hits := HitsInRoom(es, query, room);
      forall j, k :: 0 <= j < k < |hits| ==> hits[j].offset < hits[k].offset
  {
    RoomHitsAreFiltered(es, query, room);
    HitsIncrease(es, query);
    InRoomIncreases(Hits(es, query), room, |es|);
    forall h: SearchResult ensures h in HitsInRoom(es, query, room) <==> h in Hits(es, query) && h.roomId == room {
      InRoomIs(Hits(es, query), room, h);
    }
  }

  // ----- Pages -----

  function PageSize(perPage: int): (size: nat)
    ensures size > 0
  {
    if perPage < 1 then 10 else perPage
  }

  function PageNumber(page: int): (n: nat)
    ensures n > 0
  {
    if page < 1 then 1 else page
  }

  function PageAt(all: seq<SearchResult>, start: int, size: nat): seq<SearchResult>
    requires start >= 0
  {
    if start >= |all| then [] else all[start..Min(start + size, |all|)]
  }

  lemma PageStarts(n: nat, size: nat)
    requires n > 0
    ensures (n - 1) * size >= 0 && n * size == (n - 1) * size + size
  {
  }

  /** What `SearchPaged` cuts out of all results. */
  function Page(all: seq<SearchResult>, page: int, perPage: int): seq<SearchResult> {
    PageStarts(PageNumber(page), PageSize(perPage));
    PageAt(all, (PageNumber(page) - 1) * PageSize(perPage), PageSize(perPage))
  }

  /** The asked page: sizes below one count as ten, page numbers below one as the first; beyond the results it is empty,
      and the last one ends with them. */
  lemma PageIs(all: seq<SearchResult>, page: int, perPage: int, size: int, start: int)
    requires size == (if perPage < 1 then 10 else perPage) && start == (if page < 1 then 0 else page - 1) * size
    ensures start >= 0
    ensures Page(all, page, perPage)
         == if start >= |all| then [] else if start + size <= |all| then all[start..start + size] else all[start..]
  {
    PageStarts(PageNumber(page), PageSize(perPage));
    assert start == (PageNumber(page) - 1) * PageSize(perPage);
  }

  function Pages(all: seq<SearchResult>, n: nat, perPage: int): seq<SearchResult> {
    if n == 0 then [] else Pages(all, n - 1, perPage) + Page(all, n, perPage)
  }

  lemma EnoughPages(n: nat, size: nat)
    requires size > 0
    ensures n * size >= n
  {
  }

  lemma NextPage(all: seq<SearchResult>, start: nat, size: nat)
    ensures all[..Min(start + size, |all|)] == all[..Min(start, |all|)] + PageAt(all, start, size)
    ensures |PageAt(all, start, size)| <= size
  {
  }

  lemma {:induction false} PagesUpTo(all: seq<SearchResult>, n: nat, perPage: int, size: nat, end: nat)
    requires size == PageSize(perPage) && end == n * size
    ensures Pages(all, n, perPage) == all[..Min(end, |all|)]
    decreases n
  {
    if n > 0 {
      var start := (n - 1) * size;
      PageStarts(n, size);
      PagesUpTo(all, n - 1, perPage, size, start);
      NextPage(all, start, size);
      PageIs(all, n, perPage, size, start);
    }
  }

  lemma PageFits(all: seq<SearchResult>, n: nat, perPage: int, size: nat)
    requires size == PageSize(perPage)
    ensures |Page(all, n, perPage)| <= size
  {
  }

  /** The first `n` pages are the first `n` page sizes of results, without gap or overlap; no page is longer than
      its size, and with enough pages every result appears. */
  lemma PagesConcatenate(all: seq<SearchResult>, n: nat, perPage: int, size: int)
    requires size == if perPage < 1 then 10 else perPage
    ensures n * size >= n && Pages(all, n, perPage) == if n * size <= |all| then all[..n * size] else all
    ensures n > 0 ==> |Page(all, n, perPage)| <= size
    ensures n >= |all| ==> Pages(all, n, perPage) == all
  {
    EnoughPages(n, size);
    PagesUpTo(all, n, perPage, size, n * size);
    PageFits(all, n, perPage, size);
    assert all[..|all|] == all;
  }
}
