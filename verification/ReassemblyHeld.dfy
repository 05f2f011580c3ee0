/**
 Which bytes of the stream a reassembler holds, written or waiting, and exactly which ones a push adds.
 */
module ReassemblyHeld {
  import opened Wrapping
  import opened Reassembly
  import opened ReassemblyProofs

  ghost predicate Holds(r: Reassembler, i: nat)
  {
    i < r.waitIndex || Covers(r.waiting, i)
  }

  ghost predicate NoEmpty(m: seq<Entry>)
  {
    forall e | e in m :: e.data != []
  }

  /** Only bytes of the window wait, and no empty entry occupies a key. */
  ghost predicate Complete(r: Reassembler)
  {
    Inv(r) && Windowed(r) && NoEmpty(r.waiting)
  }

  /** The substring starts before the edge, or not beyond the awaited index. */
  predicate InWindow(r: Reassembler, data: seq<Byte>, index: nat)
  {
    data == [] || index <= r.waitIndex || index < Edge(r)
  }

  /**
   The bytes that a push of `data` at `index` adds: out of order, those before the edge; in order, while the output is
   open, as many new ones as there is room for beside everything that waits, even where they are the same bytes.
   */
  ghost predicate Added(r: Reassembler, data: seq<Byte>, index: nat, i: nat)
  {
    && index <= i < index + |data|
    && if index > r.waitIndex then i < Edge(r) else !r.output.ended && i < r.waitIndex + Room(r, index)
  }

  // ---------- Out of order ----------

  lemma RoomApart(r: Reassembler, e: Entry, full: nat)
    requires Inv(r) && Windowed(r) && r.waitIndex < e.start && e.End() <= Edge(r) && 0 < full && |e.data| <= full
    requires Apart(r.waiting, e.start, e.start + full) && !Present(r.waiting, e.start)
    ensures |e.data| < r.capacity - Stored(r)
  {
    InsertKeepsOrder(r.waiting, e, full);
    InsertContents(r.waiting, e);
    CountDisjoint(InsertEntry(r.waiting, e), r.waitIndex + 1, Edge(r));
  }

  /** Disjoint bytes of the window always have room in it, so only the edge cuts them. */
  lemma TruncatedAtEdge(r: Reassembler, data: seq<Byte>, index: nat)
    requires Inv(r) && Windowed(r) && r.waitIndex < index < Edge(r) && data != []
    requires Apart(r.waiting, index, index + |data|) && !Present(r.waiting, index)
    ensures TruncSize(r, |data|, index) == Min(|data|, Edge(r) - index)
  {
    var n := Min(|data|, Edge(r) - index);
    RoomApart(r, Entry(index, data[..n]), |data|);
    TruncSizeExact(r, |data|, index);
  }

  lemma StoreHolds(r: Reassembler, data: seq<Byte>, index: nat, i: nat)
    requires Complete(r) && r.waitIndex < index < Edge(r) && data != []
    requires Apart(r.waiting, index, index + |data|)
    ensures Holds(Store(r, data, index), i) <==> Holds(r, i) || index <= i < Min(index + |data|, Edge(r))
    ensures NoEmpty(Store(r, data, index).waiting)
  {
    PresentIff(r.waiting, index);
    TruncatedAtEdge(r, data, index);
    var e := Entry(index, Truncate(r, data, index));
    InsertContents(r.waiting, e);
    assert e in InsertEntry(r.waiting, e);
  }

  lemma InsertHolds(r: Reassembler, data: seq<Byte>, index: nat, i: nat)
    requires Complete(r) && data != [] && r.waitIndex < index < Edge(r)
    ensures Holds(CheckedInsert(r, data, index), i) <==> Holds(r, i) || Added(r, data, index, i)
    ensures NoEmpty(CheckedInsert(r, data, index).waiting)
  {
    ScanSummary(r, data, index);
    var s := ScanEntries(r.waiting, index, index + |data|, data, index);
    var r1 := r.(waiting := s.kept);
    StartScan(r.waiting, data, index);
    ScanCovers(r.waiting, index, index + |data|, data, index, i);
    CoversInWindow(r, i);
    if s.data != [] {
      StoreHolds(r1, s.data, s.index, i);
    }
  }

  lemma CoversInWindow(r: Reassembler, i: nat)
    requires Windowed(r)
    ensures Covers(r.waiting, i) ==> i < Edge(r)
  {
  }

  // ---------- In order ----------

  lemma {:induction false} TrimCovers(m: seq<Entry>, w: nat, i: nat)
    requires Ordered(m)
    ensures Covers(Trim(m, w), i) <==> w <= i && Covers(m, i)
    ensures NoEmpty(m) ==> NoEmpty(Trim(m, w))
  {
    if m != [] {
      OrderedTail(m);
      assert m == [m[0]] + m[1..];
      CoversCons(m[0], m[1..], i);
      if w > m[0].start && m[0].End() <= w {
        TrimCovers(m[1..], w, i);
      } else if w > m[0].start {
        CoversCons(Entry(w, m[0].data[w - m[0].start..]), m[1..], i);
      }
    }
  }

  lemma {:induction false} DrainHolds(r: Reassembler, i: nat)
    requires Middle(r) && !r.output.ended
    ensures Holds(Drain(r), i) <==> Holds(r, i)
    ensures NoEmpty(r.waiting) ==> NoEmpty(Drain(r).waiting)
    decreases |r.waiting|
  {
    TrimFacts(r.waiting, r.waitIndex);
    TrimShrinks(r.waiting, r.waitIndex);
    TrimCovers(r.waiting, r.waitIndex, i);
    var m := Trim(r.waiting, r.waitIndex);
    if m != [] && m[0].start == r.waitIndex {
      OrderedTail(m);
      assert m == [m[0]] + m[1..];
      CoversCons(m[0], m[1..], i);
      DrainHolds(WriteOut(r.(waiting := m[1..]), m[0].data), i);
    }
  }

  /** Nothing is asked of what waits. */
  lemma InOrderHolds(r: Reassembler, data: seq<Byte>, index: nat, i: nat)
    requires Inv(r) && index <= r.waitIndex < index + |data|
    ensures Holds(Place(r, data, index), i) <==> Holds(r, i) || Added(r, data, index, i)
    ensures NoEmpty(r.waiting) ==> NoEmpty(Place(r, data, index).waiting)
  {
    var d := data[r.waitIndex - index..];
    TruncSizeRoom(r, |d|, index);
    var cut := Truncate(r, d, index);
    WriteOutAdvances(r, cut);
    WriteOutMiddle(r, cut);
    if r.output.ended {
      DrainNothing(WriteOut(r, cut));
    } else {
      DrainHolds(WriteOut(r, cut), i);
    }
  }

  // ---------- Every push ----------

  lemma PlaceHolds(r: Reassembler, data: seq<Byte>, index: nat, i: nat)
    requires Complete(r) && InWindow(r, data, index) && data != [] && r.waitIndex < index + |data|
    ensures Holds(Place(r, data, index), i) <==> Holds(r, i) || Added(r, data, index, i)
    ensures NoEmpty(Place(r, data, index).waiting)
  {
    if index > r.waitIndex {
      InsertHolds(r, data, index, i);
    } else {
      InOrderHolds(r, data, index, i);
    }
  }

  /** The end of the stream does not matter. */
  lemma AddedSame(r: Reassembler, r0: Reassembler, data: seq<Byte>, index: nat, i: nat)
    requires r0 == r.(eofIndex := r0.eofIndex)
    ensures Added(r0, data, index, i) <==> Added(r, data, index, i)
    ensures Holds(r0, i) <==> Holds(r, i)
  {
  }

  /** A push in the window holds what was held and exactly the bytes it adds, and keeps what makes that true. */
  lemma PushHolds(r: Reassembler, data: seq<Byte>, index: nat, eof: bool, i: nat)
    requires Complete(r) && InWindow(r, data, index)
    ensures Holds(Push(r, data, index, eof), i) <==> Holds(r, i) || Added(r, data, index, i)
    ensures Complete(Push(r, data, index, eof))
  {
    PushInv(r, data, index, eof);
    var r0, r1, done, r' := PushCases(r, data, index, eof);
    if data != [] && r.waitIndex < index + |data| {
      PushWindow(r, data, index, eof);
      PlaceHolds(r0, data, index, i);
      AddedSame(r, r0, data, index, i);
    }
  }

  lemma InsertPresent(m: seq<Entry>, e: Entry)
    ensures exists x | x in InsertEntry(m, e) :: x.start == e.start
  {
    InsertContents(m, e);
    if !Present(m, e.start) {
      assert e in InsertEntry(m, e);
    }
  }

  lemma OutsideBreaks(r: Reassembler, data: seq<Byte>, index: nat)
    requires Complete(r) && !InWindow(r, data, index)
    ensures exists x | x in CheckedInsert(r, data, index).waiting :: x.start == index
  {
    var s := ScanBeyondSummary(r, data, index);
    InsertPresent(s.kept, Entry(index, Truncate(r.(waiting := s.kept), data, index)));
  }

  /** Exactly the pushes in the window keep it so: any other leaves an entry, maybe empty, at or beyond the edge. */
  lemma PushCompleteIff(r: Reassembler, data: seq<Byte>, index: nat, eof: bool)
    requires Complete(r)
    ensures Complete(Push(r, data, index, eof)) <==> InWindow(r, data, index)
  {
    if InWindow(r, data, index) {
      PushHolds(r, data, index, eof, 0);
    } else {
      var r0, r1, done, r' := PushCases(r, data, index, eof);
      OutsideBreaks(r0, data, index);
      PushInv(r, data, index, eof);
    }
  }

  /** All bytes of a substring are held. */
  ghost predicate HoldsAll(r: Reassembler, data: seq<Byte>, index: nat)
  {
    forall i: nat | index <= i < index + |data| :: Holds(r, i)
  }

  /** What a push in the window would not add is old or waits already. */
  ghost predicate KeepsAll(r: Reassembler, data: seq<Byte>, index: nat)
  {
    forall i: nat | index <= i < index + |data| :: Holds(r, i) || Added(r, data, index, i)
  }

  /** When a push in the window is kept whole. */
  lemma KeptWholeIff(r: Reassembler, data: seq<Byte>, index: nat, eof: bool)
    requires Complete(r) && InWindow(r, data, index)
    ensures HoldsAll(Push(r, data, index, eof), data, index) <==> KeepsAll(r, data, index)
  {
    forall i: nat ensures Holds(Push(r, data, index, eof), i) <==> Holds(r, i) || Added(r, data, index, i) {
      PushHolds(r, data, index, eof, i);
    }
  }

  /**
   The bytes pushed again count twice: of four bytes for an empty output of capacity 4, the last is lost because one
   of the others was waiting.
   */
  lemma CountedTwice()
    ensures var r := Push(Fresh(4), [3], 2, false);
      && Complete(r) && r.waiting == [Entry(2, [3])] && InWindow(r, [1, 2, 3, 4], 0)
      && !Holds(Push(r, [1, 2, 3, 4], 0, false), 3)
  {
    var r := Push(Fresh(4), [3], 2, false);
    PushFirst(Fresh(4), [3], 2);
    assert TruncSize(Fresh(4), 1, 2) == 1 && [3][..1] == [3];
    PushHolds(Fresh(4), [3], 2, false, 2);
    LastByteLost(r, [1, 2, 3, 4]);
  }

  lemma LastByteLost(r: Reassembler, data: seq<Byte>)
    requires r == Fresh(4).(waiting := [Entry(2, [3])]) && Complete(r) && |data| == 4
    ensures !Holds(Push(r, data, 0, false), 3)
  {
    assert r.waiting[1..] == [];
    assert Stored(r) == 1 && Room(r, 0) == 3;
    PushHolds(r, data, 0, false, 3);
  }

  // ---------- When nothing is left waiting ----------

  lemma {:induction false} UnassembledZeroIff(m: seq<Entry>)
    ensures Unassembled(m) == 0 <==> forall e | e in m :: e.data == []
  {
    if m != [] {
      assert m == [m[0]] + m[1..];
      UnassembledZeroIff(m[1..]);
    }
  }

  /** New bytes at [lo, hi) take the entry's place: they overlap it, and it does not hold them and more. */
  predicate Swallowed(e: Entry, lo: nat, hi: nat)
  {
    lo < e.End() && e.start < hi && !(e.start <= lo && hi <= e.End() && hi - lo < |e.data|)
  }

  lemma {:induction false} ScanKeeps(m: seq<Entry>, lo: nat, hi: nat, data: seq<Byte>, index: nat)
    requires lo < hi
    ensures var s := ScanEntries(m, lo, hi, data, index);
      forall e :: e in s.kept <==> e in m && !Swallowed(e, lo, hi)
  {
    if m != [] {
      var t := Meet(m[0], lo, hi, data, index);
      assert t.stays <==> !Swallowed(m[0], lo, hi);
      ScanKeeps(m[1..], lo, hi, t.data, t.index);
      assert m == [m[0]] + m[1..];
    }
  }

  ghost predicate AllSwallowed(m: seq<Entry>, lo: nat, hi: nat)
  {
    forall e | e in m :: e.data != [] ==> Swallowed(e, lo, hi)
  }

  /** If all that waits is swallowed, the merged bytes start where the first of it does, or where they started. */
  lemma {:induction false} ScanStart(m: seq<Entry>, lo: nat, hi: nat, data: seq<Byte>, index: nat)
    requires Ordered(m) && lo < hi && data != [] && AllSwallowed(m, lo, hi)
    ensures var s := ScanEntries(m, lo, hi, data, index);
      && s.data != []
      && (forall e | e in m && e.data != [] && e.start < lo :: s.index == e.start)
      && ((forall e | e in m && e.data != [] :: lo <= e.start) ==> s.index == index)
  {
    if m != [] {
      OrderedTail(m);
      assert m == [m[0]] + m[1..] && m[0] in m;
      var t := Meet(m[0], lo, hi, data, index);
      ScanStart(m[1..], lo, hi, t.data, t.index);
    }
  }

  /** Nothing at all can be stored at `index`, if no byte waits. */
  predicate NoRoom(r: Reassembler, index: nat)
  {
    (Edge(r) - index) % U64 == 0 || |r.output.buf| == r.capacity
  }

  predicate NoPlace(r: Reassembler, m: seq<Entry>, index: nat) { Present(m, index) || NoRoom(r, index) }

  /** Where merged bytes go, there is no room, or their key is taken. */
  ghost predicate Refused(r: Reassembler, index: nat)
  {
    || (exists e | e in r.waiting :: e.data != [] && e.start < index && NoRoom(r, e.start))
    || (&& (forall e | e in r.waiting :: e.data != [] ==> index <= e.start)
        && (Entry(index, []) in r.waiting || NoRoom(r, index)))
  }

  /** An out-of-order push after which no byte waits: it takes the place of all that waited, and is itself refused. */
  ghost predicate Lost(r: Reassembler, data: seq<Byte>, index: nat)
  {
    AllSwallowed(r.waiting, index, index + |data|) && Refused(r, index)
  }

  lemma StoreNothingIff(r: Reassembler, data: seq<Byte>, index: nat)
    requires Inv(r) && data != [] && Unassembled(r.waiting) == 0
    ensures Unassembled(Store(r, data, index).waiting) == 0 <==> NoPlace(r, r.waiting, index)
  {
    TruncSizeRoom(r, |data|, index);
    InsertContents(r.waiting, Entry(index, Truncate(r, data, index)));
  }

  lemma StartsOnce(m: seq<Entry>, e: Entry)
    requires Ordered(m) && e in m
    ensures forall x | x in m && x.start == e.start :: x == e
  {
  }

  /** The case that the merged bytes start with `e`: its key is free again, and it leaves room. */
  lemma RefusedAtEntry(r: Reassembler, lo: nat, hi: nat, kept: seq<Entry>, e: Entry)
    requires Inv(r) && e in r.waiting && e.data != [] && e.start < lo && Ordered(kept)
    requires forall x :: x in kept <==> x in r.waiting && !Swallowed(x, lo, hi)
    requires forall x | x in r.waiting && x.data != [] && x.start < lo :: x.start == e.start
    requires Swallowed(e, lo, hi)
    ensures Refused(r, lo) <==> NoPlace(r, kept, e.start)
  {
    StartsOnce(r.waiting, e);
    PresentIff(kept, e.start);
    UnassembledZeroIff(r.waiting);
  }

  /** The case that they start where the new bytes do. */
  lemma RefusedAtStart(r: Reassembler, lo: nat, hi: nat, kept: seq<Entry>)
    requires Inv(r) && Ordered(kept) && (forall x | x in r.waiting && x.data != [] :: lo <= x.start)
    requires forall x :: x in kept <==> x in r.waiting && !Swallowed(x, lo, hi)
    requires forall x | x in kept :: x.data == []
    ensures Refused(r, lo) <==> NoPlace(r, kept, lo)
  {
    PresentIff(kept, lo);
    assert forall x | x in kept && x.start == lo :: x == Entry(lo, []);
  }

  /** What a scan that swallows every byte leaves, and where the merged bytes start. */
  ghost predicate Leaves(m: seq<Entry>, lo: nat, hi: nat, kept: seq<Entry>, start: nat)
  {
    && (forall x :: x in kept <==> x in m && !Swallowed(x, lo, hi))
    && (forall x | x in m && x.data != [] && x.start < lo :: start == x.start)
    && ((forall x | x in m && x.data != [] :: lo <= x.start) ==> start == lo)
  }

  lemma RefusedIff(r: Reassembler, lo: nat, hi: nat, kept: seq<Entry>, start: nat)
    requires Inv(r) && Ordered(kept) && AllSwallowed(r.waiting, lo, hi) && Leaves(r.waiting, lo, hi, kept, start)
    ensures Unassembled(kept) == 0
    ensures Refused(r, lo) <==> NoPlace(r, kept, start)
  {
    UnassembledZeroIff(kept);
    if e :| e in r.waiting && e.data != [] && e.start < lo {
      RefusedAtEntry(r, lo, hi, kept, e);
    } else {
      RefusedAtStart(r, lo, hi, kept);
    }
  }

  lemma ScanInv(r: Reassembler, data: seq<Byte>, index: nat) returns (s: Scan)
    requires Inv(r) && data != [] && index > r.waitIndex
    ensures s == ScanEntries(r.waiting, index, index + |data|, data, index) && Inv(r.(waiting := s.kept))
  {
    s := ScanEntries(r.waiting, index, index + |data|, data, index);
    ScanSummary(r, data, index);
  }

  lemma ScanSwallowed(m: seq<Entry>, lo: nat, hi: nat, data: seq<Byte>, s: Scan)
    requires s == ScanEntries(m, lo, hi, data, lo)
    requires Ordered(m) && lo < hi && data != [] && AllSwallowed(m, lo, hi)
    ensures s.data != [] && Leaves(m, lo, hi, s.kept, s.index)
  {
    ScanKeeps(m, lo, hi, data, lo);
    ScanStart(m, lo, hi, data, lo);
  }

  lemma SwallowedStart(r: Reassembler, data: seq<Byte>, index: nat, s: Scan)
    requires Inv(r) && data != [] && AllSwallowed(r.waiting, index, index + |data|)
    requires s == ScanEntries(r.waiting, index, index + |data|, data, index) && Ordered(s.kept)
    ensures s.data != [] && Unassembled(s.kept) == 0
    ensures Refused(r, index) <==> NoPlace(r, s.kept, s.index)
  {
    ScanSwallowed(r.waiting, index, index + |data|, data, s);
    RefusedIff(r, index, index + |data|, s.kept, s.index);
  }

  lemma NotSwallowed(r: Reassembler, data: seq<Byte>, index: nat)
    requires Inv(r) && data != [] && !AllSwallowed(r.waiting, index, index + |data|)
    ensures Unassembled(CheckedInsert(r, data, index).waiting) > 0
  {
    var s := ScanEntries(r.waiting, index, index + |data|, data, index);
    ScanKeeps(r.waiting, index, index + |data|, data, index);
    UnassembledZeroIff(s.kept);
    if s.data != [] {
      InsertContents(s.kept, Entry(s.index, Truncate(r.(waiting := s.kept), s.data, s.index)));
    }
  }

  lemma SwallowedStore(r: Reassembler, data: seq<Byte>, index: nat, s: Scan)
    requires data != [] && s == ScanEntries(r.waiting, index, index + |data|, data, index)
    requires Inv(r.(waiting := s.kept)) && s.data != [] && Unassembled(s.kept) == 0
    ensures Unassembled(CheckedInsert(r, data, index).waiting) == 0 <==> NoPlace(r, s.kept, s.index)
  {
    var r1 := r.(waiting := s.kept);
    StoreNothingIff(r1, s.data, s.index);
    SamePlace(r, r1, s.kept, s.index);
    assert CheckedInsert(r, data, index) == Store(r1, s.data, s.index);
  }

  lemma SamePlace(r: Reassembler, r1: Reassembler, m: seq<Entry>, index: nat)
    requires r1 == r.(waiting := m)
    ensures NoPlace(r1, m, index) <==> NoPlace(r, m, index)
  {
  }

  lemma RefusedLostIff(r: Reassembler, data: seq<Byte>, index: nat)
    requires Inv(r) && data != [] && index > r.waitIndex && AllSwallowed(r.waiting, index, index + |data|)
    ensures Unassembled(CheckedInsert(r, data, index).waiting) == 0 <==> Refused(r, index)
  {
    var s := ScanInv(r, data, index);
    SwallowedStart(r, data, index, s);
    SwallowedStore(r, data, index, s);
  }

  lemma LostIff(r: Reassembler, data: seq<Byte>, index: nat)
    requires Inv(r) && data != [] && index > r.waitIndex
    ensures Unassembled(CheckedInsert(r, data, index).waiting) == 0 <==> Lost(r, data, index)
  {
    if AllSwallowed(r.waiting, index, index + |data|) {
      RefusedLostIff(r, data, index);
    } else {
      NotSwallowed(r, data, index);
    }
  }

  /** In the window no push is lost. */
  lemma NeverLost(r: Reassembler, data: seq<Byte>, index: nat)
    requires Complete(r) && InWindow(r, data, index) && data != [] && index > r.waitIndex
    ensures !Lost(r, data, index)
  {
    InsertHolds(r, data, index, index);
    var m := CheckedInsert(r, data, index).waiting;
    UnassembledZeroIff(m);
    LostIff(r, data, index);
  }

  /** Held are exactly the first `n` bytes, */
  ghost predicate HoldsFirst(r: Reassembler, n: nat)
  {
    forall i: nat :: Holds(r, i) <==> i < n
  }

  lemma HoldsFirstIff(r: Reassembler, n: nat)
    requires Inv(r)
    ensures HoldsFirst(r, n) <==> Unassembled(r.waiting) == 0 && r.waitIndex == n
  {
    UnassembledZeroIff(r.waiting);
    if HoldsFirst(r, n) {
      assert !Holds(r, r.waitIndex);
      assert r.waitIndex > 0 ==> Holds(r, r.waitIndex - 1);
      forall e | e in r.waiting ensures e.data == [] {
        assert e.data != [] ==> Holds(r, e.start);
      }
    }
  }

  /** or will be once a push in order has added its bytes. */
  ghost predicate HoldsFirstWith(r: Reassembler, data: seq<Byte>, index: nat, n: nat)
  {
    forall i: nat :: Holds(r, i) || Added(r, data, index, i) <==> i < n
  }

  lemma InOrderFirst(r: Reassembler, data: seq<Byte>, index: nat, n: nat)
    requires Inv(r) && index <= r.waitIndex < index + |data|
    ensures var r' := Place(r, data, index);
      HoldsFirstWith(r, data, index, n) <==> Unassembled(r'.waiting) == 0 && r'.waitIndex == n
  {
    var r' := InOrderInv(r, data, index);
    forall i: nat ensures Holds(r', i) <==> Holds(r, i) || Added(r, data, index, i) {
      InOrderHolds(r, data, index, i);
    }
    HoldsFirstIff(r', n);
    assert HoldsFirst(r', n) <==> HoldsFirstWith(r, data, index, n);
  }
}
