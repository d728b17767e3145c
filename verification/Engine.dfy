/** The engine as one thread at a time drives it: the raw write and the drain on the objects they update in
    place, proved to keep an append log. */
module Engine {
  import opened Base
  import opened Entry
  import LockerWriter

  type Side = LockerWriter.Side

  /** What a region holds in memory. */
  datatype Cells = Cells(cursor: u32, activeWriters: int, committedEntries: u32, entries: seq<MessageEntry>)

  function Written(e: MessageEntry, m: Message): MessageEntry {
    LockerWriter.Copied(WithHeader(e, m), m)
  }

  /** One whole raw write with nobody else around: an entry more, or nothing when the region is full. */
  function Appended(c: Cells, maxSlots: u32, m: Message): Cells
    requires c.cursor < maxSlots ==> c.cursor < |c.entries|
  {
    if c.cursor >= maxSlots then c
    else Cells(Inc32(c.cursor), c.activeWriters, Inc32(c.committedEntries),
               c.entries[c.cursor := Written(c.entries[c.cursor], m)])
  }

  lemma {:induction false} StoredLength(entries: seq<MessageEntry>, n: nat)
    ensures |LockerWriter.Stored(entries, n)| == n
    ensures forall i :: 0 <= i < n ==>
      LockerWriter.Stored(entries, n)[i] == LockerWriter.Read(LockerWriter.EntryAt(entries, i))
  {
    if n > 0 {
      StoredLength(entries, n - 1);
    }
  }

  lemma {:induction false} StoredBelow(before: seq<MessageEntry>, after: seq<MessageEntry>, n: nat)
    requires n <= |before| == |after| && forall i :: 0 <= i < n ==> before[i] == after[i]
    ensures LockerWriter.Stored(before, n) == LockerWriter.Stored(after, n)
  {
    if n > 0 {
      StoredBelow(before, after, n - 1);
    }
  }

  /** Nobody is inside a write, and everything reserved is committed. */
  ghost predicate SettledCells(c: Cells, maxSlots: nat) {
    && c.activeWriters == 0 && c.cursor == c.committedEntries <= maxSlots == |c.entries|
    && forall i :: 0 <= i < |c.entries| ==> WellFormed(c.entries[i])
  }

  lemma AppendedSettles(c: Cells, maxSlots: u32, m: Message)
    requires SettledCells(c, maxSlots)
    ensures SettledCells(Appended(c, maxSlots, m), maxSlots)
  {
    if c.cursor < maxSlots {
      FilledEntryReads(c.entries[c.cursor], m);
    }
  }

  lemma AppendedStores(c: Cells, maxSlots: u32, m: Message)
    requires SettledCells(c, maxSlots)
    ensures var log, c' := LockerWriter.Stored(c.entries, c.cursor), Appended(c, maxSlots, m);
      LockerWriter.Stored(c'.entries, c'.cursor) == if |log| < maxSlots then log + [Kept(m)] else log
  {
    StoredLength(c.entries, c.cursor);
    if c.cursor < maxSlots {
      FilledEntryReads(c.entries[c.cursor], m);
      StoredBelow(c.entries, Appended(c, maxSlots, m).entries, c.cursor);
    }
  }

  class Region {
    var cursor: u32
    var activeWriters: int
    var committedEntries: u32
    const entries: array<MessageEntry>

    constructor (size: nat)
      ensures cursor == 0 && activeWriters == 0 && committedEntries == 0
      ensures fresh(entries) && entries.Length == size
      ensures forall i :: 0 <= i < size ==> entries[i] == Blank()
    {
      entries := new MessageEntry[size](i => Blank());
      cursor, activeWriters, committedEntries := 0, 0, 0;
    }

    ghost function Value(): Cells
      reads this, entries
    {
      Cells(cursor, activeWriters, committedEntries, entries[..])
    }

    ghost predicate Settled(maxSlots: nat)
      reads this, entries
    {
      SettledCells(Value(), maxSlots)
    }

    ghost function Messages(): seq<Message>
      reads this, entries
    {
      LockerWriter.Stored(entries[..], cursor)
    }

    /** The steps of a raw write on the region it looked up. */
    method Append(maxSlots: u32, m: Message) returns (res: int)
      requires Settled(maxSlots) && maxSlots < TWO_31
      modifies this, entries
      ensures res == if old(cursor) < maxSlots then 0 else -1
      ensures cursor == committedEntries == old(cursor) + (if res == 0 then 1 else 0) && activeWriters == 0
      ensures Value() == Appended(old(Value()), maxSlots, m)
    {
      ghost var was := Value();
      activeWriters := IncSigned32(activeWriters);
      var idx := cursor;
      cursor := Inc32(cursor);
      if idx >= maxSlots {
        cursor := Dec32(cursor);
        activeWriters := DecSigned32(activeWriters);
        return -1;
      }
      entries[idx] := WithHeader(entries[idx], m);
      entries[idx] := LockerWriter.Copied(entries[idx], m);
      committedEntries := Inc32(committedEntries);
      activeWriters := DecSigned32(activeWriters);
      assert entries[..] == was.entries[idx := Written(was.entries[idx], m)];
      return 0;
    }

    method Reset()
      modifies this
      ensures cursor == 0 && activeWriters == 0 && committedEntries == 0
    {
      cursor := 0;
      activeWriters := 0;
      committedEntries := 0;
    }
  }

  class ZigoDB {
    const rwA: Region
    const rwB: Region
    const maxSlots: u32
    var regionBit: Side
    var totalEntries: nat
    var totalDrains: nat

    constructor (slots: u32)
      requires slots < TWO_31
      ensures Valid() && fresh(rwA) && fresh(rwB) && fresh(rwA.entries) && fresh(rwB.entries)
      ensures Log() == [] && totalEntries == 0 && totalDrains == 0 && maxSlots == slots
      ensures Active() == rwA && Inactive() == rwB
      ensures rwA.entries.Length == rwB.entries.Length == slots
      ensures forall i :: 0 <= i < slots ==> rwA.entries[i] == rwB.entries[i] == Blank()
    {
      rwA := new Region(slots);
      rwB := new Region(slots);
      maxSlots := slots;
      regionBit, totalEntries, totalDrains := 0, 0, 0;
    }

    function Active(): Region
      reads this
    {
      if regionBit == 0 then rwA else rwB
    }

    function Inactive(): Region
      reads this
    {
      if regionBit == 0 then rwB else rwA
    }

    ghost predicate Valid()
      reads this, rwA, rwB, rwA.entries, rwB.entries
    {
      && rwA != rwB && rwA.entries != rwB.entries && maxSlots < TWO_31
      && rwA.Settled(maxSlots) && rwB.Settled(maxSlots)
      && Inactive().cursor == 0
    }

    /** The messages written since the last drain. */
    ghost function Log(): seq<Message>
      reads this, rwA, rwB, rwA.entries, rwB.entries
    {
      Active().Messages()
    }

    /** The raw write: 0 when the message was appended, -1 when the region is full. */
    method WriteRaw(m: Message) returns (res: int)
      requires Valid()
      modifies Active(), Active().entries
      ensures Valid()
      ensures res == if |old(Log())| < maxSlots then 0 else -1
      ensures Log() == if res == 0 then old(Log()) + [Kept(m)] else old(Log())
      ensures Active().Value() == Appended(old(Active().Value()), maxSlots, m)
    {
      ghost var was := Active().Value();
      StoredLength(was.entries, was.cursor);
      AppendedSettles(was, maxSlots, m);
      AppendedStores(was, maxSlots, m);
      res := Active().Append(maxSlots, m);
    }

    /** The drain: the other region becomes active, the old one is counted and emptied. */
    method SwitchAndDrain() returns (entriesWritten: u32)
      requires Valid()
      modifies this, Active()
      ensures Valid() && Log() == [] && Active() == old(Inactive())
      ensures entriesWritten == |old(Log())| && totalEntries == old(totalEntries) + |old(Log())|
      ensures totalDrains == old(totalDrains) + 1 && regionBit == 1 - old(regionBit)
      ensures Inactive().Value() == Cells(0, 0, 0, old(Active().Value()).entries)
      ensures LockerWriter.Stored(Inactive().entries[..], entriesWritten) == old(Log())
    {
      var currentBit := regionBit;
      var oldRegion := if currentBit == 0 then rwA else rwB;
      StoredLength(oldRegion.entries[..], oldRegion.cursor);
      regionBit := 1 - currentBit;
      // Nobody else runs, so the spin sees no tickets at once.
      assert oldRegion.activeWriters == 0;
      entriesWritten := oldRegion.cursor;
      totalEntries := totalEntries + entriesWritten;
      totalDrains := totalDrains + 1;
      oldRegion.Reset();
    }

    /** What `db_get_cursor_cgo` reports to readers. */
    function Count(): u32
      reads this, rwA, rwB
    {
      Active().committedEntries
    }

    /** What `db_get_entry_cgo` lets a reader through to. */
    function GetEntry(index: u32): Option<MessageEntry>
      reads this, rwA, rwB, rwA.entries, rwB.entries
    {
      var a := Active();
      if index < a.committedEntries && index < a.entries.Length then Some(a.entries[index]) else None
    }

    lemma EntriesAreTheLog()
      requires Valid()
      ensures Count() == |Log()|
      ensures forall i: u32 :: i < Count() ==>
        && GetEntry(i).Some? && WellFormed(GetEntry(i).value) && Content(GetEntry(i).value) == Log()[i]
      ensures forall i: u32 :: i >= Count() ==> GetEntry(i).None?
    {
      StoredLength(Active().entries[..], Active().cursor);
    }
  }
}
