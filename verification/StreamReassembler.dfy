/**
 The reassembler as an object: the waiting map is walked with an iterator, entries are erased and inserted in
 place, and each method is proved to leave the state that `Reassembly` specifies.
 */
module StreamReassemblers {
  import opened Wrapping
  import opened ByteStreams
  import opened Reassembly
  import opened ReassemblyProofs

  lemma {:induction false} TrimFrom(m: seq<Entry>, w: nat, a: nat)
    requires From(m, a)
    ensures From(Trim(m, w), a)
  {
    if m != [] && w > m[0].start {
      assert m[0] in m;
      if m[0].End() <= w {
        TrimFrom(m[1..], w, a);
      }
    }
  }

  lemma StoreFront(r: Reassembler, data: seq<Byte>)
    requires Middle(r) && From(r.waiting, r.waitIndex + 1)
    requires |r.output.buf| + Unassembled(r.waiting) + |data| <= r.capacity
    ensures Store(r, data, r.waitIndex).waiting == [Entry(r.waitIndex, data)] + r.waiting
  {
    TruncSizeExact(r, |data|, r.waitIndex);
    assert Truncate(r, data, r.waitIndex) == data;
    assert r.waiting != [] ==> r.waiting[0] in r.waiting;
    assert LowerBound(r.waiting, r.waitIndex) == 0;
  }

  /** Bytes in front of every entry go in whole, as the first entry, and no entry leaves. */
  lemma InsertFront(r: Reassembler, data: seq<Byte>)
    requires Middle(r) && data != [] && From(r.waiting, r.waitIndex + |data|)
    requires |r.output.buf| + Unassembled(r.waiting) + |data| <= r.capacity
    ensures CheckedInsert(r, data, r.waitIndex) == r.(waiting := [Entry(r.waitIndex, data)] + r.waiting)
  {
    ScanPast(r.waiting, r.waitIndex, r.waitIndex + |data|, data, r.waitIndex);
    StoreFront(r, data);
  }

  /** The first entry, which starts below the awaited index, erased or cut down. */
  function Cut(r: Reassembler): Reassembler
    requires r.waiting != [] && r.waiting[0].start < r.waitIndex
  {
    var e := r.waiting[0];
    if e.End() <= r.waitIndex then r.(waiting := r.waiting[1..])
    else r.(waiting := [Entry(r.waitIndex, e.data[r.waitIndex - e.start..])] + r.waiting[1..])
  }

  lemma CutFacts(r: Reassembler)
    requires Middle(r) && From(r.waiting, 1) && r.waiting != [] && r.waiting[0].start < r.waitIndex
    ensures var r' := Cut(r);
      && Middle(r') && From(r'.waiting, 1)
      && Trim(r'.waiting, r.waitIndex) == Trim(r.waiting, r.waitIndex)
      && (r.waiting[0].End() > r.waitIndex ==> From(r'.waiting, r.waitIndex))
  {
    WithoutFirst(r);
    if r.waiting[0].End() > r.waitIndex {
      assert Cut(r).waiting == Trim(r.waiting, r.waitIndex);
      TrimFacts(r.waiting, r.waitIndex);
      TrimFrom(r.waiting, r.waitIndex, 1);
      TrimNothing(Cut(r).waiting, r.waitIndex);
    }
  }

  /** An iterator at the entry after the first is found again by its key. */
  lemma LowerBoundSecond(m: seq<Entry>)
    requires |m| >= 2 && Ordered(m)
    ensures LowerBound(m, m[1].start) == 1 && Present(m, m[1].start)
  {
    var k := LowerBound(m, m[1].start);
    assert m[0].start < m[1].start;
  }

  lemma WithoutFirst(r: Reassembler)
    requires Middle(r) && r.waiting != []
    ensures var e := r.waiting[0]; var r1 := r.(waiting := r.waiting[1..]);
      && Middle(r1) && From(r1.waiting, e.End()) && From(r1.waiting, e.start + 1)
      && |r.output.buf| + Unassembled(r1.waiting) + |e.data| <= r.capacity
  {
    OrderedTail(r.waiting);
  }

  lemma EraseKeepsOrder(m: seq<Entry>, it: nat)
    requires Ordered(m) && it < |m|
    ensures Ordered(m[..it] + m[it + 1..])
  {
    var n := m[..it] + m[it + 1..];
    forall i, j | 0 <= i < j < |n| ensures n[i].start < n[j].start && n[i].End() <= n[j].start {
      var i', j' := if i < it then i else i + 1, if j < it then j else j + 1;
      assert n[i] == m[i'] && n[j] == m[j'];
    }
  }

  lemma EraseCount(m: seq<Entry>, it: nat)
    requires it < |m|
    ensures Unassembled(m[..it] + m[it + 1..]) + |m[it].data| == Unassembled(m)
  {
    UnassembledConcat(m[..it], m[it + 1..]);
    UnassembledConcat(m[..it], m[it..]);
    assert m[..it] + m[it..] == m;
    assert m[it..][1..] == m[it + 1..];
  }

  /** The scan of `m` when the entries before `it` have been met. */
  function ScanFrom(m: seq<Entry>, it: nat, lo: nat, hi: nat, data: seq<Byte>, index: nat): Scan
    requires it <= |m|
  {
    var s := ScanEntries(m[it..], lo, hi, data, index);
    s.(kept := m[..it] + s.kept)
  }

  lemma ScanFromEnds(m: seq<Entry>, lo: nat, hi: nat, data: seq<Byte>, index: nat)
    ensures ScanFrom(m, 0, lo, hi, data, index) == ScanEntries(m, lo, hi, data, index)
    ensures ScanFrom(m, |m|, lo, hi, data, index) == Scan(m, data, index)
  {
    assert m[0..] == m && m[..0] == [] && m[|m|..] == [] && m[..|m|] + [] == m;
    assert [] + ScanEntries(m, lo, hi, data, index).kept == ScanEntries(m, lo, hi, data, index).kept;
  }

  lemma ScanFromStep(m: seq<Entry>, it: nat, lo: nat, hi: nat, data: seq<Byte>, index: nat)
    requires it < |m|
    ensures var t := Meet(m[it], lo, hi, data, index);
      ScanFrom(m, it, lo, hi, data, index) ==
      if t.stays then ScanFrom(m, it + 1, lo, hi, t.data, t.index)
      else ScanFrom(m[..it] + m[it + 1..], it, lo, hi, t.data, t.index)
  {
    var t := Meet(m[it], lo, hi, data, index);
    assert m[it..][1..] == m[it + 1..];
    var s := ScanEntries(m[it + 1..], lo, hi, t.data, t.index);
    if t.stays {
      assert m[..it] + ([m[it]] + s.kept) == m[..it + 1] + s.kept;
    } else {
      var n := m[..it] + m[it + 1..];
      assert n[..it] == m[..it] && n[it..] == m[it + 1..];
    }
  }

  /** One round of draining: the entry at the awaited index, if there is one, comes first in the trimmed map. */
  lemma DrainUnfold(r: Reassembler)
    requires Middle(r)
    ensures var m := Trim(r.waiting, r.waitIndex);
      && Middle(r.(waiting := m))
      && LowerBound(m, r.waitIndex) == 0
      && if m == [] || m[0].start != r.waitIndex then Drain(r) == Drain(r.(waiting := m)) == r.(waiting := m)
         else var r' := WriteOut(r.(waiting := m[1..]), m[0].data);
           Middle(r') && Drain(r) == Drain(r')
  {
    var m := Trim(r.waiting, r.waitIndex);
    TrimFacts(r.waiting, r.waitIndex);
    TrimNothing(m, r.waitIndex);
    if m != [] {
      assert m[0] in m;
      OrderedTail(m);
    }
  }

  class StreamReassembler {
    const output: ByteStream
    var waitMap: seq<Entry>
    const capacity: nat
    var waitIndex: nat
    var eofIndex: nat

    function State(): Reassembler
      reads this, output
    {
      Reassembler(output.State(), waitMap, capacity, waitIndex, eofIndex)
    }

    ghost predicate Valid()
      reads this, output
    {
      Inv(State())
    }

    constructor (capacity: nat)
      requires capacity < U64
      ensures Valid() && State() == Fresh(capacity) && fresh(output)
    {
      this.output := new ByteStream(capacity);
      this.capacity := capacity;
      waitMap, waitIndex, eofIndex := [], 0, NO_EOF;
    }

    method UnassembledBytes() returns (count: nat)
      ensures count == Unassembled(waitMap)
    {
      count := 0;
      for i := 0 to |waitMap|
        invariant count + Unassembled(waitMap[i..]) == Unassembled(waitMap)
      {
        assert waitMap[i..][1..] == waitMap[i + 1..];
        count := count + |waitMap[i].data|;
      }
    }

    /** The room left does not wrap below zero. */
    method TruncateData(data: seq<Byte>, index: nat) returns (kept: seq<Byte>)
      requires Middle(State())
      ensures kept == Truncate(State(), data, index)
    {
      var waiting := UnassembledBytes();
      var room := capacity - |output.buf| - waiting;
      assert 0 <= room < U64;
      var size := Min(|data|, (capacity + output.bytesRead - index) % U64);
      kept := data[..Min(size, room)];
    }

    /** One round of the loop of `CheckedInsert`: the bytes to insert meet the entry at `it`. */
    method MeetEntry(it: nat, insStart: nat, insEnd: nat, data: seq<Byte>, index: nat)
      returns (next: nat, insData: seq<Byte>, insIndex: nat)
      requires it < |waitMap| && Ordered(waitMap) && 0 < waitMap[it].start
      modifies this`waitMap
      ensures var t := Meet(old(waitMap)[it], insStart, insEnd + 1, data, index);
        && insData == t.data && insIndex == t.index
        && next == (if t.stays then it + 1 else it)
        && waitMap == (if t.stays then old(waitMap) else old(waitMap)[..it] + old(waitMap)[it + 1..])
      ensures Ordered(waitMap) && Unassembled(waitMap) <= Unassembled(old(waitMap))
    {
      next, insData, insIndex := it, data, index;
      var e := waitMap[it];
      var elemStart, elemEnd := e.start, e.start + |e.data| - 1;
      if insStart <= elemEnd && elemStart <= insEnd {
        if insStart <= elemStart && insEnd >= elemEnd {
          Erase(it);
        } else if elemStart <= insStart && elemEnd >= insEnd {
          insData := [];
          next := it + 1;
        } else {
          if insStart <= elemStart {
            assert e.data[insEnd + 1 - elemStart..][..elemEnd - insEnd] == e.data[insEnd + 1 - elemStart..];
            insData := insData + e.data[insEnd + 1 - elemStart..][..elemEnd - insEnd];
          } else {
            insIndex := elemStart;
            insData := e.data[..insStart - elemStart] + insData;
          }
          Erase(it);
        }
      } else {
        next := it + 1;
      }
    }

    /** The loop of `CheckedInsert`. */
    method ScanMap(data: seq<Byte>, index: nat) returns (insData: seq<Byte>, insIndex: nat)
      requires Ordered(waitMap) && From(waitMap, 1) && data != []
      modifies this`waitMap
      ensures Scan(waitMap, insData, insIndex) == ScanEntries(old(waitMap), index, index + |data|, data, index)
      ensures Ordered(waitMap) && Unassembled(waitMap) <= Unassembled(old(waitMap))
    {
      insData, insIndex := data, index;
      var insStart, insEnd := index, index + |data| - 1;
      var it := 0;
      ghost var target := ScanFrom(waitMap, 0, insStart, insEnd + 1, data, index);
      ScanFromEnds(waitMap, insStart, insEnd + 1, data, index);
      while it < |waitMap|
        invariant 0 <= it <= |waitMap| && From(waitMap, 1) && Ordered(waitMap)
        invariant Unassembled(waitMap) <= Unassembled(old(waitMap))
        invariant ScanFrom(waitMap, it, insStart, insEnd + 1, insData, insIndex) == target
        decreases |waitMap| - it
      {
        ScanFromStep(waitMap, it, insStart, insEnd + 1, insData, insIndex);
        assert waitMap[it] in waitMap;
        it, insData, insIndex := MeetEntry(it, insStart, insEnd, insData, insIndex);
      }
      ScanFromEnds(waitMap, insStart, insEnd + 1, insData, insIndex);
    }

    method CheckedInsert(data: seq<Byte>, index: nat)
      requires Middle(State()) && From(waitMap, 1) && data != []
      modifies this`waitMap
      ensures State() == Reassembly.CheckedInsert(old(State()), data, index)
    {
      var insData, insIndex := ScanMap(data, index);
      if insData != [] {
        StoreEntry(insData, insIndex);
      }
    }

    /** Putting back the rest of an entry erases nothing and truncates nothing. */
    method InsertRest(data: seq<Byte>)
      requires Middle(State()) && From(waitMap, 1) && data != []
      requires From(waitMap, waitIndex + |data|)
      requires |output.buf| + Unassembled(waitMap) + |data| <= capacity
      modifies this`waitMap
      ensures State() == old(State()).(waiting := [Entry(waitIndex, data)] + old(waitMap))
    {
      InsertFront(State(), data);
      CheckedInsert(data, waitIndex);
    }

    method StoreEntry(data: seq<Byte>, index: nat)
      requires Middle(State())
      modifies this`waitMap
      ensures State() == Store(old(State()), data, index)
    {
      var cut := TruncateData(data, index);
      waitMap := InsertEntry(waitMap, Entry(index, cut));
    }

    /** Erasing leaves the iterator at the following entry, which moves to the same position. */
    method Erase(it: nat)
      requires it < |waitMap| && Ordered(waitMap)
      modifies this`waitMap
      ensures waitMap == old(waitMap)[..it] + old(waitMap)[it + 1..]
      ensures Ordered(waitMap) && Unassembled(waitMap) + |old(waitMap)[it].data| == Unassembled(old(waitMap))
    {
      EraseKeepsOrder(waitMap, it);
      EraseCount(waitMap, it);
      waitMap := waitMap[..it] + waitMap[it + 1..];
    }

    /**
     One round of the loop of `UpdateWaitmap`, for an entry that starts below the awaited index. The iterator moves
     on to the entry that followed, which is still there after the rest of the erased entry has been inserted.
     */
    method CutFirst() returns (it: nat)
      requires Middle(State()) && From(waitMap, 1)
      requires waitMap != [] && waitMap[0].start < waitIndex
      modifies this`waitMap
      ensures State() == Cut(old(State()))
      ensures it == if old(waitMap)[0].End() > waitIndex then 1 else 0
    {
      ghost var r := State();
      WithoutFirst(r);
      var e := waitMap[0];
      waitMap := waitMap[1..];
      it := 0;
      if e.start + |e.data| > waitIndex {
        var atEnd := it == |waitMap|;
        var nextKey: nat := if atEnd then 0 else waitMap[it].start;
        InsertRest(e.data[waitIndex - e.start..]);
        assert State() == Cut(r);
        assert Ordered(waitMap) by { CutFacts(r); }
        it := Find(atEnd, nextKey);
      }
    }

    /** The position of an iterator that was at the key `nextKey`, or at the end, when it followed the first entry. */
    method Find(atEnd: bool, nextKey: nat) returns (it: nat)
      requires Ordered(waitMap) && waitMap != []
      requires if atEnd then |waitMap| == 1 else |waitMap| >= 2 && waitMap[1].start == nextKey
      ensures it == 1
    {
      if atEnd {
        it := |waitMap|;
      } else {
        LowerBoundSecond(waitMap);
        it := LowerBound(waitMap, nextKey);
      }
    }

    method UpdateWaitmap()
      requires Middle(State()) && From(waitMap, 1)
      modifies this`waitMap
      ensures State() == old(State()).(waiting := Trim(old(waitMap), waitIndex))
      ensures From(waitMap, 1)
    {
      var it := 0;
      while it < |waitMap|
        invariant 0 <= it <= |waitMap|
        invariant State() == old(State()).(waiting := waitMap)
        invariant Middle(State()) && From(waitMap, 1)
        invariant Trim(waitMap, waitIndex) == Trim(old(waitMap), waitIndex)
        invariant it > 0 ==> From(waitMap, waitIndex)
        decreases |waitMap| - it
      {
        assert waitMap[it] in waitMap;
        if waitMap[it].start < waitIndex {
          CutFacts(State());
          it := CutFirst();
        } else {
          assert it == 0 ==> From(waitMap, waitIndex);
          it := it + 1;
        }
      }
      TrimNothing(waitMap, waitIndex);
    }

    /** Writes entries out for as long as one is waiting at the awaited index. */
    method DrainMap()
      requires Middle(State()) && From(waitMap, 1)
      modifies this, output
      ensures State() == Drain(old(State()))
    {
      while true
        invariant Middle(State()) && From(waitMap, 1)
        invariant Drain(State()) == Drain(old(State()))
        decreases |waitMap|
      {
        ghost var r := State();
        DrainUnfold(r);
        TrimFrom(waitMap, waitIndex, 1);
        TrimShrinks(waitMap, waitIndex);
        UpdateWaitmap();
        var k := LowerBound(waitMap, waitIndex);
        if !(k < |waitMap| && waitMap[k].start == waitIndex) {
          break;
        }
        assert waitMap[..k] + waitMap[k + 1..] == waitMap[1..];
        WriteEntry(k);
      }
    }

    method WriteData(data: seq<Byte>)
      requires output.Valid()
      modifies this`waitIndex, output
      ensures State() == WriteOut(old(State()), data)
    {
      var n := output.Write(data);
      waitIndex := waitIndex + n;
    }

    /** Writes out and erases the entry at `k`. */
    method WriteEntry(k: nat)
      requires k < |waitMap| && output.Valid()
      modifies this`waitMap, this`waitIndex, output
      ensures State() ==
        WriteOut(old(State()).(waiting := old(waitMap)[..k] + old(waitMap)[k + 1..]), old(waitMap)[k].data)
    {
      var n := output.Write(waitMap[k].data);
      waitIndex := waitIndex + n;
      waitMap := waitMap[..k] + waitMap[k + 1..];
    }

    method PlaceData(data: seq<Byte>, index: nat)
      requires Valid() && data != [] && waitIndex < index + |data|
      modifies this, output
      ensures State() == Place(old(State()), data, index)
    {
      if index > waitIndex {
        CheckedInsert(data, index);
      } else {
        var cut := TruncateData(data[waitIndex - index..], index);
        TruncSizeExact(State(), |data| - (waitIndex - index), index);
        WriteOutMiddle(State(), cut);
        WriteData(cut);
        DrainMap();
      }
    }

    method EndWhen(done: bool)
      modifies output
      ensures State() == EndIf(old(State()), done)
    {
      if waitMap == [] && done {
        output.EndInput();
      }
    }

    method PushSubstring(data: seq<Byte>, index: nat, eof: bool)
      requires Valid()
      modifies this, output
      ensures Valid() && State() == Push(old(State()), data, index, eof)
    {
      ghost var r := State();
      PushInv(r, data, index, eof);
      if eof {
        eofIndex := index + |data|;
      }
      ghost var r0 := State();
      var startPos := if index < waitIndex then waitIndex - index else 0;
      if startPos >= |data| {
        EndWhen(waitIndex >= eofIndex);
        PushSkips(r, r0, data, index, eof, State());
        return;
      }
      PlaceData(data, index);
      EndWhen(waitIndex == eofIndex);
      PushPlaces(r, r0, data, index, eof, State());
    }
  }

  lemma PushSkips(r: Reassembler, r0: Reassembler, data: seq<Byte>, index: nat, eof: bool, r': Reassembler)
    requires r0 == (if eof then r.(eofIndex := index + |data|) else r)
    requires data == [] || index + |data| <= r.waitIndex
    requires r' == EndIf(r0, r0.waitIndex >= r0.eofIndex)
    ensures r' == Push(r, data, index, eof)
  {
  }

  lemma PushPlaces(r: Reassembler, r0: Reassembler, data: seq<Byte>, index: nat, eof: bool, r': Reassembler)
    requires r0 == (if eof then r.(eofIndex := index + |data|) else r)
    requires data != [] && r.waitIndex < index + |data|
    requires var r1 := Place(r0, data, index); r' == EndIf(r1, r1.waitIndex == r1.eofIndex)
    ensures r' == Push(r, data, index, eof)
  {
  }
}
